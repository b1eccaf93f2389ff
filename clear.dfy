/**
 * `Stats::clear`: every counter of a node loses its next level, whose subtree is deleted,
 * and gets both rates reinitialised; the populated slots stay populated and the empty ones
 * stay empty.
 */
module Reset {
  import opened Wrappers
  import opened Sequences
  import opened Ewma
  import opened Trie
  import opened Shape
  import opened Subtrees
  import opened Destructor
  import opened Rates

  /** A counter as `clear` leaves it: both rates reinitialised and no next level. */
  const Fresh: Counter := Counter(Initial, Initial, None)

  /**
   * Every slot holds a counter. `clear` as written dereferences every slot without a test,
   * so this is what the code as written needs of the node it clears.
   */
  ghost predicate AllPopulated(slots: seq<Option<Counter>>) {
    forall j :: 0 <= j < |slots| ==> slots[j].Some?
  }

  /** A slot as `clear` leaves it: a counter becomes a reset counter, an empty slot stays empty. */
  function Refreshed(v: Option<Counter>): Option<Counter> {
    if v.Some? then Some(Fresh) else None
  }

  /** Every slot is empty or holds a reset counter. */
  ghost predicate AllFresh(slots: seq<Option<Counter>>) {
    forall j :: 0 <= j < |slots| ==> slots[j].None? || slots[j] == Some(Fresh)
  }

  /** No counter in slots `0 .. i-1` has a next level. */
  ghost predicate NoNextBefore(slots: seq<Option<Counter>>, i: nat) {
    forall j :: 0 <= j < i && j < |slots| ==> slots[j].None? || slots[j].value.nextLevel.None?
  }

  /** As long as no counter of `n` before slot `i` had a next level, nothing was deleted and `_prev_deleted` is as it was. */
  ghost predicate PrevKept(slots: seq<Option<Counter>>, i: nat, pd0: Option<nat>, pd: Option<nat>) {
    NoNextBefore(slots, i) ==> pd == pd0
  }

  /** Slots `0 .. i` lack a next level when slots `0 .. i-1` and slot `i` do. */
  lemma NoNextStep(slots: seq<Option<Counter>>, i: nat)
    requires i < |slots|
    ensures NoNextBefore(slots, i + 1) <==> NoNextBefore(slots, i) && (slots[i].None? || slots[i].value.nextLevel.None?)
  {
  }

  /**
   * The state `clear` leaves on node `n` of `t`: the nodes strictly below `n` are gone from the
   * arena, the age list, the prefixes and the counters; `n` keeps its owner, each of its
   * counters is reset and each of its empty slots stays empty; every other node keeps its owner
   * and its slots; and when no counter of `n`
   * had a next level nothing was deleted, so `_prev_deleted` is as it was.
   */
  ghost predicate Cleared(t: Table, g: Layout, sz: Sizes, n: nat, t2: Table, g2: Layout)
    requires n in t.stats
  {
    ClearedFrame(t, g, n, t2, g2) && Good(t2, g2, sz)
  }

  /** The part of `Cleared` that does not speak of the shape invariant. */
  ghost predicate ClearedFrame(t: Table, g: Layout, n: nat, t2: Table, g2: Layout)
    requires n in t.stats
  {
    var d := Sub(g.key, n) - {n};
    t2.base == t.base && t2.nextId == t.nextId &&
    t2.stats.Keys == t.stats.Keys - d && g2.order == Without(g.order, d) && g2.key == g.key - d &&
    g2.counters == g.counters - LinksIn(g.counters, d) &&
    n in t2.stats && t2.stats[n].parent == t.stats[n].parent &&
    |t2.stats[n].slots| == MAX_COUNTERS && |t.stats[n].slots| == MAX_COUNTERS &&
    (forall j :: 0 <= j < MAX_COUNTERS ==> t2.stats[n].slots[j] == Refreshed(t.stats[n].slots[j])) &&
    (forall m :: m in t2.stats && m != n ==> m in t.stats && t2.stats[m].slots == t.stats[m].slots && t2.stats[m].parent == t.stats[m].parent) &&
    (NoNextBefore(t.stats[n].slots, MAX_COUNTERS) ==> t2.prevDeleted == t.prevDeleted)
  }

  /**
   * Where `clear` on `n` stands after slots `0 .. i-1`: the subtrees under those slots are
   * deleted, the counters are reset and the empty slots stay empty; the other slots of `n`
   * and every other node's owner and slots are as they were.
   */
  ghost predicate Clearing(t: Table, g: Layout, sz: Sizes, n: nat, i: nat, u: Table, h: Layout)
    requires n in t.stats
  {
    ClearingFrame(t, g, n, i, u, h) && Good(u, h, sz)
  }

  /** The part of `Clearing` that does not speak of the shape invariant. */
  ghost predicate ClearingFrame(t: Table, g: Layout, n: nat, i: nat, u: Table, h: Layout)
    requires n in t.stats
  {
    var r := Below(t.stats, g.key, n, i);
    u.base == t.base && u.nextId == t.nextId && i <= MAX_COUNTERS &&
    u.stats.Keys == t.stats.Keys - r && h.order == Without(g.order, r) && h.key == g.key - r &&
    h.counters == g.counters - LinksIn(g.counters, r) &&
    n in u.stats && u.stats[n].parent == t.stats[n].parent &&
    |u.stats[n].slots| == MAX_COUNTERS && |t.stats[n].slots| == MAX_COUNTERS &&
    (forall j :: 0 <= j < i ==> u.stats[n].slots[j] == Refreshed(t.stats[n].slots[j])) &&
    (forall j :: i <= j < MAX_COUNTERS ==> u.stats[n].slots[j] == t.stats[n].slots[j]) &&
    (forall m :: m in u.stats && m != n ==> m in t.stats && u.stats[m].slots == t.stats[m].slots && u.stats[m].parent == t.stats[m].parent)
  }

  /**
   * Where `clear` stands once the next level of slot `i` (if any) is deleted and before the
   * rates of that slot are reset: slot `i` still holds its counter, now without next level.
   */
  ghost predicate SlotPruned(t: Table, g: Layout, sz: Sizes, n: nat, i: nat, u: Table, h: Layout)
    requires n in t.stats
  {
    SlotPrunedFrame(t, g, n, i, u, h) && Good(u, h, sz)
  }

  /** The part of `SlotPruned` that does not speak of the shape invariant. */
  ghost predicate SlotPrunedFrame(t: Table, g: Layout, n: nat, i: nat, u: Table, h: Layout)
    requires n in t.stats
  {
    var r := Below(t.stats, g.key, n, i + 1);
    u.base == t.base && u.nextId == t.nextId && i < MAX_COUNTERS &&
    u.stats.Keys == t.stats.Keys - r && h.order == Without(g.order, r) && h.key == g.key - r &&
    h.counters == g.counters - LinksIn(g.counters, r) &&
    n in u.stats && u.stats[n].parent == t.stats[n].parent &&
    |u.stats[n].slots| == MAX_COUNTERS && |t.stats[n].slots| == MAX_COUNTERS &&
    (forall j :: 0 <= j < i ==> u.stats[n].slots[j] == Refreshed(t.stats[n].slots[j])) &&
    t.stats[n].slots[i].Some? && u.stats[n].slots[i] == Some(t.stats[n].slots[i].value.(nextLevel := None)) &&
    (forall j :: i < j < MAX_COUNTERS ==> u.stats[n].slots[j] == t.stats[n].slots[j]) &&
    (forall m :: m in u.stats && m != n ==> m in t.stats && u.stats[m].slots == t.stats[m].slots && u.stats[m].parent == t.stats[m].parent)
  }

  /** `Clearing` and `PrevKept` together: the state the loop of `clear` keeps. */
  ghost predicate ClearedUpTo(t: Table, g: Layout, sz: Sizes, n: nat, i: nat, u: Table, h: Layout)
    requires n in t.stats
  {
    Clearing(t, g, sz, n, i, u, h) && PrevKept(t.stats[n].slots, i, t.prevDeleted, u.prevDeleted)
  }

  /** Before the first slot nothing has changed. */
  lemma ClearingStart(t: Table, g: Layout, sz: Sizes, n: nat)
    requires Good(t, g, sz) && n in t.stats
    ensures ClearedUpTo(t, g, sz, n, 0, t, g)
  {
    WithoutNothing(g.order, {});
    assert NodeShaped(t.stats, g.key, t.nextId, n);
    assert g.key - {} == g.key;
    assert g.counters - LinksIn(g.counters, {}) == g.counters;
  }

  /** The next level of slot `i` is a live non-root node above `n`, and its subtree reads the same in the current prefixes. */
  lemma ClearingChildReady(t: Table, g: Layout, sz: Sizes, n: nat, i: nat, u: Table, h: Layout)
    requires Good(t, g, sz) && n in t.stats && Clearing(t, g, sz, n, i, u, h) && i < MAX_COUNTERS
    requires u.stats[n].slots[i].Some? && u.stats[n].slots[i].value.nextLevel.Some?
    ensures var x := u.stats[n].slots[i].value.nextLevel.value;
      x in u.stats && x != u.base && n < x < u.nextId && u.stats[x].parent == Some(Link(n, i)) &&
      x in g.key && Sub(h.key, x) == Sub(g.key, x) && Child(t.stats, n, i) == Some(x) && n !in Sub(g.key, x)
  {
    var x := u.stats[n].slots[i].value.nextLevel.value;
    assert Child(u.stats, n, i) == Some(x);
    ChildKey(u.stats, h.key, u.base, u.nextId, n, i);
    assert NodeShaped(u.stats, h.key, u.nextId, x);
    assert Child(t.stats, n, i) == Some(x);
    BelowApart(t.stats, g.key, t.base, t.nextId, n, i, i);
    SubAfterDrop(g.key, Below(t.stats, g.key, n, i), x);
    SubOfChild(t.stats, g.key, t.base, t.nextId, n, i);
  }

  /** `delete counter[i]->next_level` leaves slot `i` with its counter and no next level. */
  lemma ClearingChild(t: Table, g: Layout, sz: Sizes, n: nat, i: nat, u0: Table, h0: Layout, u1: Table, h1: Layout)
    requires Good(t, g, sz) && n in t.stats && Clearing(t, g, sz, n, i, u0, h0) && i < MAX_COUNTERS
    requires u0.stats[n].slots[i].Some? && u0.stats[n].slots[i].value.nextLevel.Some?
    requires Deleted(u0, h0, sz, u0.stats[n].slots[i].value.nextLevel.value, u1, h1)
    ensures SlotPruned(t, g, sz, n, i, u1, h1)
  {
    var x := u0.stats[n].slots[i].value.nextLevel.value;
    ClearingChildReady(t, g, sz, n, i, u0, h0);
    ClearChildFrame(t, g, n, i, u0, h0, u1, h1, x);
  }

  /** The bookkeeping half of `ClearingChild`. */
  lemma ClearChildFrame(t: Table, g: Layout, n: nat, i: nat, u0: Table, h0: Layout, u1: Table, h1: Layout, x: nat)
    requires n in t.stats && ClearingFrame(t, g, n, i, u0, h0) && i < MAX_COUNTERS
    requires u0.stats[n].slots[i].Some? && u0.stats[n].slots[i].value.nextLevel == Some(x)
    requires x in u0.stats && u0.stats[x].parent == Some(Link(n, i)) && Child(t.stats, n, i) == Some(x)
    requires Sub(h0.key, x) == Sub(g.key, x) && n !in Sub(g.key, x)
    requires DeletedFrame(u0, h0, x, u1, h1)
    ensures SlotPrunedFrame(t, g, n, i, u1, h1)
  {
    ClearChildKeys(t, g, n, i, u0, h0, u1, h1, x);
    ClearChildNodes(t, g, n, i, u0, h0, u1, h1, x);
  }

  /** After deleting the next level of slot `i`, the arena, the age list and the counters have lost everything below slots `0 .. i`. */
  lemma ClearChildKeys(t: Table, g: Layout, n: nat, i: nat, u0: Table, h0: Layout, u1: Table, h1: Layout, x: nat)
    requires n in t.stats && ClearingFrame(t, g, n, i, u0, h0) && i < MAX_COUNTERS && Child(t.stats, n, i) == Some(x)
    requires Sub(h0.key, x) == Sub(g.key, x)
    requires DeletedFrame(u0, h0, x, u1, h1)
    ensures u1.base == t.base && u1.nextId == t.nextId
    ensures var r := Below(t.stats, g.key, n, i + 1);
      u1.stats.Keys == t.stats.Keys - r && h1.order == Without(g.order, r) && h1.key == g.key - r &&
      h1.counters == g.counters - LinksIn(g.counters, r)
  {
    var r, d := Below(t.stats, g.key, n, i), Sub(g.key, x);
    assert Below(t.stats, g.key, n, i + 1) == r + d;
    DropBoth(t.stats.Keys, g.order, g.key, g.counters, r, d, u1.stats.Keys, h1.order, h1.key, h1.counters);
  }

  /** After deleting the next level of slot `i`, that slot's counter has lost its next level and nothing else has changed. */
  lemma ClearChildNodes(t: Table, g: Layout, n: nat, i: nat, u0: Table, h0: Layout, u1: Table, h1: Layout, x: nat)
    requires n in t.stats && ClearingFrame(t, g, n, i, u0, h0) && i < MAX_COUNTERS
    requires u0.stats[n].slots[i].Some? && u0.stats[n].slots[i].value.nextLevel == Some(x)
    requires x in u0.stats && u0.stats[x].parent == Some(Link(n, i)) && Child(t.stats, n, i) == Some(x)
    requires Sub(h0.key, x) == Sub(g.key, x) && n !in Sub(g.key, x)
    requires DeletedFrame(u0, h0, x, u1, h1)
    ensures n in u1.stats && u1.stats[n].parent == t.stats[n].parent && |u1.stats[n].slots| == MAX_COUNTERS
    ensures forall j :: 0 <= j < i ==> u1.stats[n].slots[j] == Refreshed(t.stats[n].slots[j])
    ensures u1.stats[n].slots[i] == Some(t.stats[n].slots[i].value.(nextLevel := None))
    ensures forall j :: i < j < MAX_COUNTERS ==> u1.stats[n].slots[j] == t.stats[n].slots[j]
    ensures forall m :: m in u1.stats && m != n ==> m in t.stats && u1.stats[m].slots == t.stats[m].slots && u1.stats[m].parent == t.stats[m].parent
  {
  }

  /** A counter without next level needs no pruning. */
  lemma ClearingLeaf(t: Table, g: Layout, sz: Sizes, n: nat, i: nat, u: Table, h: Layout)
    requires n in t.stats && Clearing(t, g, sz, n, i, u, h) && i < MAX_COUNTERS
    requires u.stats[n].slots[i].Some? && u.stats[n].slots[i].value.nextLevel.None?
    ensures SlotPruned(t, g, sz, n, i, u, h)
  {
    LeafFrame(t, g, n, i, u, h);
  }

  /** The bookkeeping half of `ClearingLeaf`. */
  lemma LeafFrame(t: Table, g: Layout, n: nat, i: nat, u: Table, h: Layout)
    requires n in t.stats && ClearingFrame(t, g, n, i, u, h) && i < MAX_COUNTERS
    requires u.stats[n].slots[i].Some? && u.stats[n].slots[i].value.nextLevel.None?
    ensures SlotPrunedFrame(t, g, n, i, u, h)
  {
    assert Child(t.stats, n, i).None?;
    assert Below(t.stats, g.key, n, i + 1) == Below(t.stats, g.key, n, i);
  }

  /** An empty slot is left as it is. */
  lemma ClearingSkip(t: Table, g: Layout, sz: Sizes, n: nat, i: nat, u: Table, h: Layout)
    requires n in t.stats && Clearing(t, g, sz, n, i, u, h) && i < MAX_COUNTERS && u.stats[n].slots[i].None?
    ensures Clearing(t, g, sz, n, i + 1, u, h)
  {
    SkipFrame(t, g, n, i, u, h);
  }

  /** The bookkeeping half of `ClearingSkip`. */
  lemma SkipFrame(t: Table, g: Layout, n: nat, i: nat, u: Table, h: Layout)
    requires n in t.stats && ClearingFrame(t, g, n, i, u, h) && i < MAX_COUNTERS && u.stats[n].slots[i].None?
    ensures ClearingFrame(t, g, n, i + 1, u, h)
  {
    assert Child(t.stats, n, i).None?;
    assert Below(t.stats, g.key, n, i + 1) == Below(t.stats, g.key, n, i);
  }

  /** Reinitialising both rates of slot `i` leaves `n` cleared up to slot `i + 1`. */
  lemma ClearingReset(t: Table, g: Layout, sz: Sizes, n: nat, i: nat, u: Table, h: Layout, u2: Table)
    requires n in t.stats && SlotPruned(t, g, sz, n, i, u, h)
    requires u2 == u.(stats := u.stats[n := u.stats[n].(slots := u.stats[n].slots[i := Some(Fresh)])])
    ensures Clearing(t, g, sz, n, i + 1, u2, h)
  {
    SameShapeOne(u.stats, n, i, Some(Fresh), u2.stats);
    SameShapeGood(u, h, sz, u2);
    ResetFrame(t, g, n, i, u, h, u2);
  }

  /** The bookkeeping half of `ClearingReset`. */
  lemma ResetFrame(t: Table, g: Layout, n: nat, i: nat, u: Table, h: Layout, u2: Table)
    requires n in t.stats && SlotPrunedFrame(t, g, n, i, u, h)
    requires u2 == u.(stats := u.stats[n := u.stats[n].(slots := u.stats[n].slots[i := Some(Fresh)])])
    ensures ClearingFrame(t, g, n, i + 1, u2, h)
  {
  }

  /** `clear` on every slot is `Cleared`. */
  lemma ClearingDone(t: Table, g: Layout, sz: Sizes, n: nat, u: Table, h: Layout)
    requires Good(t, g, sz) && n in t.stats && ClearedUpTo(t, g, sz, n, MAX_COUNTERS, u, h)
    ensures Cleared(t, g, sz, n, u, h)
  {
    BelowAll(t.stats, g.key, t.base, t.nextId, n);
  }

  /**
   * `Stats::clear` on node `n`, with the test for an empty slot that the code as written
   * lacks: for every counter, delete the next level and null it, then reinitialise both rates.
   */
  method ClearStats(t: Table, ghost g: Layout, sz: Sizes, n: nat) returns (t2: Table, ghost g2: Layout)
    requires Good(t, g, sz) && n in t.stats
    ensures Cleared(t, g, sz, n, t2, g2)
  {
    ClearingStart(t, g, sz, n);
    t2, g2 := ClearFrom(t, g, sz, n, 0, t, g);
    ClearingDone(t, g, sz, n, t2, g2);
  }

  /** The loop of `clear`, from slot `i0` on. */
  method ClearFrom(t: Table, ghost g: Layout, sz: Sizes, n: nat, i0: nat, u0: Table, ghost h0: Layout)
    returns (u: Table, ghost h: Layout)
    requires Good(t, g, sz) && n in t.stats && i0 <= MAX_COUNTERS
    requires ClearedUpTo(t, g, sz, n, i0, u0, h0)
    ensures ClearedUpTo(t, g, sz, n, MAX_COUNTERS, u, h)
  {
    u, h := u0, h0;
    for i := i0 to MAX_COUNTERS
      invariant ClearedUpTo(t, g, sz, n, i, u, h)
    {
      u, h := ClearSlot(t, g, sz, n, i, u, h);
    }
  }

  /** One turn of the loop of `clear`. */
  method ClearSlot(t: Table, ghost g: Layout, sz: Sizes, n: nat, i: nat, u: Table, ghost h: Layout)
    returns (u2: Table, ghost h2: Layout)
    requires Good(t, g, sz) && n in t.stats && i < MAX_COUNTERS
    requires ClearedUpTo(t, g, sz, n, i, u, h)
    ensures ClearedUpTo(t, g, sz, n, i + 1, u2, h2)
  {
    NoNextStep(t.stats[n].slots, i);
    if u.stats[n].slots[i].None? {
      ClearingSkip(t, g, sz, n, i, u, h);
      return u, h;
    }
    var c: Counter := u.stats[n].slots[i].value;
    var u1 := u;
    h2 := h;
    if c.nextLevel.Some? {
      ClearingChildReady(t, g, sz, n, i, u, h);
      u1, h2 := DeleteStats(u, h, sz, c.nextLevel.value);
      ClearingChild(t, g, sz, n, i, u, h, u1, h2);
      c := c.(nextLevel := None);
    } else {
      ClearingLeaf(t, g, sz, n, i, u, h);
    }
    c := c.(rev := Initial);
    c := c.(fwd := Initial);
    u2 := u1.(stats := u1.stats[n := u1.stats[n].(slots := u1.stats[n].slots[i := Some(c)])]);
    ClearingReset(t, g, sz, n, i, u1, h2, u2);
  }

  /** A node none of whose slots `0 .. i-1` has a next level has nothing below those slots. */
  lemma {:induction false} BelowNone(st: map<nat, Stats>, key: map<nat, seq<nat>>, c: nat, i: nat)
    requires c in st && forall j :: 0 <= j < i ==> Child(st, c, j).None?
    ensures Below(st, key, c, i) == {}
  {
    if i > 0 {
      BelowNone(st, key, c, i - 1);
    }
  }

  /**
   * `clear` on a node whose counters are all reset already changes nothing: no node is
   * deleted, the age list and the charge stay, and `_prev_deleted` is not touched.
   */
  lemma ClearFreshNoop(t: Table, g: Layout, sz: Sizes, n: nat, t2: Table, g2: Layout)
    requires Good(t, g, sz) && n in t.stats && AllFresh(t.stats[n].slots)
    requires Cleared(t, g, sz, n, t2, g2)
    ensures t2 == t && g2 == g
  {
    NothingBelow(t, g, sz, n);
    NoopFrame(t, g, sz, n, t2, g2);
  }

  /** The bookkeeping half of `ClearFreshNoop`. */
  lemma NoopFrame(t: Table, g: Layout, sz: Sizes, n: nat, t2: Table, g2: Layout)
    requires n in t.stats && AllFresh(t.stats[n].slots) && |t.stats[n].slots| == MAX_COUNTERS
    requires Sub(g.key, n) - {n} == {} && ClearedFrame(t, g, n, t2, g2)
    requires ListShape(t.stats, g.order, t.first, t.last) && ListShape(t2.stats, g2.order, t2.first, t2.last)
    requires MemShape(t.stats, g.counters, t.allocedMem, sz.ofStats, sz.ofCounter)
    requires MemShape(t2.stats, g2.counters, t2.allocedMem, sz.ofStats, sz.ofCounter)
    ensures t2 == t && g2 == g
  {
    SameLayout(g, Sub(g.key, n) - {n}, g2);
    FreshSame(t.stats[n].slots, t2.stats[n].slots);
    assert NoNextBefore(t.stats[n].slots, MAX_COUNTERS);
    SameTable(t, g, sz, t2);
  }

  /** Taking nothing out of a layout leaves it as it was. */
  lemma SameLayout(g: Layout, d: set<nat>, g2: Layout)
    requires d == {} && g2.order == Without(g.order, d) && g2.key == g.key - d
    requires g2.counters == g.counters - LinksIn(g.counters, d)
    ensures g2 == g
  {
    WithoutNothing(g.order, {});
    assert g2.key == g.key;
    assert g2.counters == g.counters;
  }

  /** Resetting a row of empty slots and reset counters gives the same row back. */
  lemma FreshSame(a: seq<Option<Counter>>, b: seq<Option<Counter>>)
    requires |a| == |b| && AllFresh(a) && forall j :: 0 <= j < |a| ==> b[j] == Refreshed(a[j])
    ensures a == b
  {
  }

  /** Below a node whose counters are all reset there is nothing. */
  lemma NothingBelow(t: Table, g: Layout, sz: Sizes, n: nat)
    requires Good(t, g, sz) && n in t.stats && AllFresh(t.stats[n].slots)
    ensures Sub(g.key, n) - {n} == {} && |t.stats[n].slots| == MAX_COUNTERS
  {
    assert NodeShaped(t.stats, g.key, t.nextId, n);
    forall j | 0 <= j < MAX_COUNTERS ensures Child(t.stats, n, j).None? {
      assert t.stats[n].slots[j].None? || t.stats[n].slots[j] == Some(Fresh);
    }
    BelowNone(t.stats, g.key, n, MAX_COUNTERS);
    BelowAll(t.stats, g.key, t.base, t.nextId, n);
  }

  /**
   * Two tables with the same nodes, slots and owners and the same layout are the same table:
   * the age list fixes the links and the ends, and the counters fix the charge.
   */
  lemma SameTable(t: Table, g: Layout, sz: Sizes, t2: Table)
    requires ListShape(t.stats, g.order, t.first, t.last) && ListShape(t2.stats, g.order, t2.first, t2.last)
    requires MemShape(t.stats, g.counters, t.allocedMem, sz.ofStats, sz.ofCounter)
    requires MemShape(t2.stats, g.counters, t2.allocedMem, sz.ofStats, sz.ofCounter)
    requires t2.stats.Keys == t.stats.Keys
    requires forall m :: m in t.stats ==> t2.stats[m].slots == t.stats[m].slots && t2.stats[m].parent == t.stats[m].parent
    requires t2.base == t.base && t2.nextId == t.nextId && t2.prevDeleted == t.prevDeleted
    ensures t2 == t
  {
    forall m | m in t.stats ensures t2.stats[m] == t.stats[m] {
      SameLinks(t.stats, t2.stats, g.order, t.first, t.last, t2.first, t2.last, m);
    }
    assert t2.stats == t.stats;
  }

  /** Two arenas that lay out the same age list give every node the same `_prev` and `_next`. */
  lemma SameLinks(st: map<nat, Stats>, st2: map<nat, Stats>, order: seq<nat>, first: Option<nat>, last: Option<nat>,
                  first2: Option<nat>, last2: Option<nat>, m: nat)
    requires ListShape(st, order, first, last) && ListShape(st2, order, first2, last2) && m in st
    ensures m in st2 && st2[m].prev == st[m].prev && st2[m].next == st[m].next
  {
    assert m in Members(order);
    var k := IndexOf(order, m);
    assert LinkedAt(st, order, k) && LinkedAt(st2, order, k);
  }

  /** A second `clear` of the same node changes nothing further. */
  lemma ClearTwice(t: Table, g: Layout, sz: Sizes, n: nat, t1: Table, g1: Layout, t2: Table, g2: Layout)
    requires n in t.stats && Cleared(t, g, sz, n, t1, g1) && Cleared(t1, g1, sz, n, t2, g2)
    ensures t2 == t1 && g2 == g1
  {
    ClearedFresh(t, g, sz, n, t1, g1);
    ClearFreshNoop(t1, g1, sz, n, t2, g2);
  }

  /** After `clear`, every slot of the node is empty or holds a reset counter. */
  lemma ClearedFresh(t: Table, g: Layout, sz: Sizes, n: nat, t1: Table, g1: Layout)
    requires n in t.stats && Cleared(t, g, sz, n, t1, g1)
    ensures n in t1.stats && AllFresh(t1.stats[n].slots)
  {
    forall j | 0 <= j < |t1.stats[n].slots|
      ensures t1.stats[n].slots[j].None? || t1.stats[n].slots[j] == Some(Fresh)
    {
      assert t1.stats[n].slots[j] == Refreshed(t.stats[n].slots[j]);
    }
  }

  /**
   * On a node whose slots all hold counters, the domain of `clear` as written, `clear` leaves
   * MAX_COUNTERS reset counters.
   */
  lemma ClearPopulated(t: Table, g: Layout, sz: Sizes, n: nat, t1: Table, g1: Layout)
    requires n in t.stats && AllPopulated(t.stats[n].slots) && Cleared(t, g, sz, n, t1, g1)
    ensures n in t1.stats && |t1.stats[n].slots| == MAX_COUNTERS
    ensures forall j :: 0 <= j < MAX_COUNTERS ==> t1.stats[n].slots[j] == Some(Fresh)
  {
    forall j | 0 <= j < MAX_COUNTERS ensures t1.stats[n].slots[j] == Some(Fresh) {
      assert t.stats[n].slots[j].Some?;
    }
  }

  /**
   * `clear` as written cannot run on the root `initialize` builds: its slot 0 is empty, and
   * the code dereferences it. A reset before any traffic reaches that root.
   */
  lemma FreshRootUnpopulated(s: Stats)
    requires |s.slots| == MAX_COUNTERS && AllEmpty(s.slots)
    ensures s.slots[0].None? && !AllPopulated(s.slots)
  {
    assert s.slots[0].None?;
  }

  /**
   * `clear` gives back sizeof(Stats) for every node strictly below `n` and sizeof(Counter)
   * for every counter those nodes held; the counters of `n` itself stay.
   */
  lemma ClearCharge(t: Table, g: Layout, sz: Sizes, n: nat, t2: Table, g2: Layout)
    requires Good(t, g, sz) && n in t.stats && Cleared(t, g, sz, n, t2, g2)
    ensures var d := Sub(g.key, n) - {n};
      n !in d && d <= t.stats.Keys &&
      t2.allocedMem == t.allocedMem - Charge(|d|, sz.ofStats) - Charge(|LinksIn(g.counters, d)|, sz.ofCounter)
  {
    var d := Sub(g.key, n) - {n};
    MemAfterDrop(t.stats.Keys, d, g.counters, LinksIn(g.counters, d), sz, t.allocedMem,
                 t2.stats.Keys, g2.counters, t2.allocedMem);
  }
}
