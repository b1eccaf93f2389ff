/**
 * `Stats::~Stats`, the recursive destructor of a trie node, run on the monitor's table.
 */
module Destructor {
  import opened Wrappers
  import opened Sequences
  import opened Trie
  import opened Shape
  import opened Surgery
  import opened Subtrees

  /**
   * The tail of `Stats::~Stats` for a node `c` whose slots are already empty: untangle `_prev`
   * (reporting it through `set_prev`), untangle `_next`, null the owner's `next_level` and
   * release sizeof(Stats).
   */
  method Untangle(t: Table, ghost g: Layout, sz: Sizes, c: nat) returns (t2: Table, ghost g2: Layout)
    requires Good(t, g, sz) && c in t.stats && c != t.base && AllEmpty(t.stats[c].slots)
    ensures Good(t2, g2, sz)
    ensures g2 == Layout(Without(g.order, {c}), g.key - {c}, g.counters)
    ensures t2.base == t.base && t2.nextId == t.nextId
    ensures Relinked(t.stats, c, t2.stats) && Detached(t.stats, c, t2.stats)
    ensures t2.prevDeleted == t.stats[c].prev
    ensures t2.first == (if t.stats[c].prev.None? then t.stats[c].next else t.first)
    ensures t2.last == (if t.stats[c].next.None? then t.stats[c].prev else t.last)
    ensures t2.allocedMem == t.allocedMem - sz.ofStats
  {
    var st0: map<nat, Stats> := t.stats;
    UntangleReady(st0, g.order, t.first, t.last, g.key, t.base, t.nextId, c);
    var st: map<nat, Stats>, first: Option<nat>, last: Option<nat>, pd: Option<nat> := st0, t.first, t.last, None;
    var me: Stats := st[c];
    // Untangle _prev
    if me.prev.Some? {
      var p: nat := me.prev.value;
      st := st[p := st[p].(next := me.next)];
      pd := me.prev;
    } else {
      first := me.next;
    }
    ghost var st1: map<nat, Stats> := st;
    // Untangle _next
    if me.next.Some? {
      var q: nat := me.next.value;
      st := st[q := st[q].(prev := me.prev)];
    } else {
      last := me.prev;
    }
    ghost var st2: map<nat, Stats> := st;
    if me.parent.Some? {
      var l: Link := me.parent.value;
      var owner: Counter := st[l.node].slots[l.slot].value;
      st := st[l.node := st[l.node].(slots := st[l.node].slots[l.slot := Some(owner.(nextLevel := None))])];
    }
    ghost var st3: map<nat, Stats> := st;
    // the storage itself goes back to the allocator
    st := st - {c};
    UntangleSound(st0, g.order, t.first, t.last, g.key, g.counters, t.allocedMem, t.base, t.nextId,
                  sz.ofStats, sz.ofCounter, c, st1, st2, st3, st, first, last);
    t2 := t.(stats := st, first := first, last := last, prevDeleted := pd, allocedMem := t.allocedMem - sz.ofStats);
    g2 := Layout(Without(g.order, {c}), g.key - {c}, g.counters);
  }

  /** The counters held by the nodes of `d`. */
  ghost function LinksIn(counters: set<Link>, d: set<nat>): set<Link> {
    set l | l in counters && l.node in d
  }

  /** The counters in slots `0 .. i-1` of node `c`. */
  ghost function SlotsBefore(counters: set<Link>, c: nat, i: nat): set<Link> {
    set l | l in counters && l.node == c && l.slot < i
  }

  /**
   * The state that `Stats::~Stats` leaves when it deletes the non-root node `c` of `t`: the
   * subtree of `c` is gone from the arena, the age list, the prefixes and the counters; every
   * other node keeps its owner and its slots except that the owning counter of `c` loses its
   * `next_level`; and `_prev_deleted` is the nearest node before `c` in the age list that is
   * not in the subtree.
   */
  ghost predicate Deleted(t: Table, g: Layout, sz: Sizes, c: nat, t2: Table, g2: Layout) {
    DeletedFrame(t, g, c, t2, g2) && Good(t2, g2, sz)
  }

  /** The part of `Deleted` that does not speak of the shape invariant. */
  ghost predicate DeletedFrame(t: Table, g: Layout, c: nat, t2: Table, g2: Layout) {
    var d := Sub(g.key, c);
    t2.base == t.base && t2.nextId == t.nextId &&
    t2.stats.Keys == t.stats.Keys - d &&
    g2.order == Without(g.order, d) && g2.key == g.key - d && g2.counters == g.counters - LinksIn(g.counters, d) &&
    c in g.order && t2.prevDeleted == LastOf(Without(g.order[..IndexOf(g.order, c)], d)) &&
    Pruned(t.stats, c, t2.stats)
  }

  /**
   * Where the destructor of `c` stands after emptying slots `0 .. i-1`: the subtrees under
   * those slots are deleted, their counters freed and the slots empty; the other slots of `c`
   * and every other node's owner and slots are as they were.
   */
  ghost predicate Emptying(t: Table, g: Layout, sz: Sizes, c: nat, i: nat, u: Table, h: Layout)
    requires c in t.stats
  {
    EmptyingFrame(t, g, c, i, u, h) && Good(u, h, sz)
  }

  /** The part of `Emptying` that does not speak of the shape invariant. */
  ghost predicate EmptyingFrame(t: Table, g: Layout, c: nat, i: nat, u: Table, h: Layout)
    requires c in t.stats
  {
    var r := Below(t.stats, g.key, c, i);
    u.base == t.base && u.nextId == t.nextId && i <= MAX_COUNTERS &&
    u.stats.Keys == t.stats.Keys - r && h.order == Without(g.order, r) && h.key == g.key - r &&
    h.counters == g.counters - LinksIn(g.counters, r) - SlotsBefore(g.counters, c, i) &&
    c in u.stats && u.stats[c].parent == t.stats[c].parent &&
    |u.stats[c].slots| == MAX_COUNTERS && |t.stats[c].slots| == MAX_COUNTERS &&
    (forall j :: 0 <= j < i ==> u.stats[c].slots[j].None?) &&
    (forall j :: i <= j < MAX_COUNTERS ==> u.stats[c].slots[j] == t.stats[c].slots[j]) &&
    (forall m :: m in u.stats && m != c ==> m in t.stats && u.stats[m].slots == t.stats[m].slots && u.stats[m].parent == t.stats[m].parent)
  }

  /** Before the first slot nothing has changed. */
  lemma EmptyingStart(t: Table, g: Layout, sz: Sizes, c: nat)
    requires Good(t, g, sz) && c in t.stats
    ensures Emptying(t, g, sz, c, 0, t, g)
  {
    WithoutNothing(g.order, {});
    assert NodeShaped(t.stats, g.key, t.nextId, c);
    assert g.key - {} == g.key;
    assert g.counters - LinksIn(g.counters, {}) - SlotsBefore(g.counters, c, 0) == g.counters;
  }

  /** Emptying a slot whose counter has no next level keeps the age list, whose links it does not touch. */
  lemma FreeCounterList(stats: map<nat, Stats>, order: seq<nat>, first: Option<nat>, last: Option<nat>,
                        n: nat, j: nat, stats2: map<nat, Stats>)
    requires ListShape(stats, order, first, last) && n in stats && j < |stats[n].slots|
    requires stats2 == stats[n := stats[n].(slots := stats[n].slots[j := None])]
    ensures ListShape(stats2, order, first, last)
  {
    forall k | 0 <= k < |order| ensures LinkedAt(stats2, order, k) {
      assert LinkedAt(stats, order, k);
    }
  }

  /** Emptying a slot whose counter has no next level keeps the trie: no node hangs from that counter. */
  lemma FreeCounterTree(stats: map<nat, Stats>, key: map<nat, seq<nat>>, base: nat, bound: nat,
                        n: nat, j: nat, stats2: map<nat, Stats>)
    requires TreeShape(stats, key, base, bound) && n in stats && j < |stats[n].slots|
    requires stats[n].slots[j].Some? && stats[n].slots[j].value.nextLevel.None?
    requires stats2 == stats[n := stats[n].(slots := stats[n].slots[j := None])]
    ensures TreeShape(stats2, key, base, bound)
  {
    FreeCounterNodes(stats, key, base, bound, n, j, stats2);
    FreeCounterLinks(stats, key, base, bound, n, j, stats2);
  }

  lemma FreeCounterNodes(stats: map<nat, Stats>, key: map<nat, seq<nat>>, base: nat, bound: nat,
                         n: nat, j: nat, stats2: map<nat, Stats>)
    requires TreeShape(stats, key, base, bound) && n in stats && j < |stats[n].slots|
    requires stats[n].slots[j].Some? && stats[n].slots[j].value.nextLevel.None?
    requires stats2 == stats[n := stats[n].(slots := stats[n].slots[j := None])]
    ensures forall m :: m in stats2 ==> NodeShaped(stats2, key, bound, m)
    ensures forall m :: m in stats2 && m != base ==> OwnedBy(stats2, key, m)
  {
    forall m | m in stats2 ensures NodeShaped(stats2, key, bound, m) {
      assert NodeShaped(stats, key, bound, m);
    }
    forall m | m in stats2 && m != base ensures OwnedBy(stats2, key, m) {
      assert OwnedBy(stats, key, m);
    }
  }

  lemma FreeCounterLinks(stats: map<nat, Stats>, key: map<nat, seq<nat>>, base: nat, bound: nat,
                         n: nat, j: nat, stats2: map<nat, Stats>)
    requires TreeShape(stats, key, base, bound) && n in stats && j < |stats[n].slots|
    requires stats2 == stats[n := stats[n].(slots := stats[n].slots[j := None])]
    ensures forall m, k :: m in stats2 && 0 <= k < MAX_COUNTERS ==> ChildLinked(stats2, m, k)
  {
    forall m, k | m in stats2 && 0 <= k < MAX_COUNTERS ensures ChildLinked(stats2, m, k) {
      assert ChildLinked(stats, m, k);
      FreeChildAt(stats, n, j, stats2, m, k);
    }
  }

  /** Emptying slot `j` of `n` keeps every child link: the emptied slot has none, and no node's owner changes. */
  lemma FreeChildAt(stats: map<nat, Stats>, n: nat, j: nat, stats2: map<nat, Stats>, m: nat, k: nat)
    requires n in stats && j < |stats[n].slots|
    requires stats2 == stats[n := stats[n].(slots := stats[n].slots[j := None])]
    requires ChildLinked(stats, m, k)
    ensures ChildLinked(stats2, m, k)
  {
    if m == n && k == j {
      assert stats2[m].slots[k].None?;
    } else {
      assert stats2[m].slots[k] == stats[m].slots[k];
    }
  }

  /** Emptying a populated slot frees exactly one counter. */
  lemma FreeCounterMem(stats: map<nat, Stats>, counters: set<Link>, mem: int, statsSize: nat, counterSize: nat,
                       n: nat, j: nat, stats2: map<nat, Stats>)
    requires MemShape(stats, counters, mem, statsSize, counterSize) && n in stats && j < |stats[n].slots|
    requires stats[n].slots[j].Some?
    requires stats2 == stats[n := stats[n].(slots := stats[n].slots[j := None])]
    ensures MemShape(stats2, counters - {Link(n, j)}, mem - counterSize, statsSize, counterSize)
  {
    assert Link(n, j) in counters by {
      assert Populated(stats, Link(n, j));
    }
    forall l ensures l in counters - {Link(n, j)} <==> Populated(stats2, l) {
      assert l in counters <==> Populated(stats, l);
    }
    assert stats2.Keys == stats.Keys;
    assert |counters - {Link(n, j)}| == |counters| - 1;
  }

  /** `delete counter[j]` and `counter[j] = 0` on a counter without next level keep the monitor well formed. */
  lemma FreeCounter(t: Table, g: Layout, sz: Sizes, n: nat, j: nat, t2: Table, g2: Layout)
    requires Good(t, g, sz) && n in t.stats && j < |t.stats[n].slots|
    requires t.stats[n].slots[j].Some? && t.stats[n].slots[j].value.nextLevel.None?
    requires t2 == t.(stats := t.stats[n := t.stats[n].(slots := t.stats[n].slots[j := None])],
                      allocedMem := t.allocedMem - sz.ofCounter)
    requires g2 == g.(counters := g.counters - {Link(n, j)})
    ensures Good(t2, g2, sz)
  {
    FreeCounterList(t.stats, g.order, t.first, t.last, n, j, t2.stats);
    FreeCounterTree(t.stats, g.key, t.base, t.nextId, n, j, t2.stats);
    FreeCounterMem(t.stats, g.counters, t.allocedMem, sz.ofStats, sz.ofCounter, n, j, t2.stats);
  }

  /** An empty slot is passed over. */
  lemma EmptyingSkip(t: Table, g: Layout, sz: Sizes, c: nat, i: nat, u: Table, h: Layout)
    requires c in t.stats && Emptying(t, g, sz, c, i, u, h) && i < MAX_COUNTERS && u.stats[c].slots[i].None?
    ensures Emptying(t, g, sz, c, i + 1, u, h)
  {
    assert Child(t.stats, c, i).None?;
    assert Below(t.stats, g.key, c, i + 1) == Below(t.stats, g.key, c, i);
    assert Link(c, i) !in h.counters by {
      assert !Populated(u.stats, Link(c, i));
    }
    SlotsBeforeNext(g.counters, Below(t.stats, g.key, c, i), c, i, h.counters);
  }

  /** Once slot `i` of `c` holds no counter, the counters left are those outside slots `0 .. i`. */
  lemma SlotsBeforeNext(counters: set<Link>, r: set<nat>, c: nat, i: nat, left: set<Link>)
    requires left == counters - LinksIn(counters, r) - SlotsBefore(counters, c, i) && Link(c, i) !in left
    ensures left == counters - LinksIn(counters, r) - SlotsBefore(counters, c, i + 1)
  {
    assert Link(c, i) in counters ==> Link(c, i) in LinksIn(counters, r) || Link(c, i) in SlotsBefore(counters, c, i);
  }

  /**
   * Where the destructor of `c` stands once the child of slot `i` (if any) is deleted and
   * before that slot's counter is freed: as after emptying slots `0 .. i`, except that slot `i`
   * still holds its counter, now without next level.
   */
  ghost predicate SlotDetached(t: Table, g: Layout, sz: Sizes, c: nat, i: nat, u: Table, h: Layout)
    requires c in t.stats
  {
    SlotDetachedFrame(t, g, c, i, u, h) && Good(u, h, sz)
  }

  /** The part of `SlotDetached` that does not speak of the shape invariant. */
  ghost predicate SlotDetachedFrame(t: Table, g: Layout, c: nat, i: nat, u: Table, h: Layout)
    requires c in t.stats
  {
    var r := Below(t.stats, g.key, c, i + 1);
    u.base == t.base && u.nextId == t.nextId && i < MAX_COUNTERS &&
    u.stats.Keys == t.stats.Keys - r && h.order == Without(g.order, r) && h.key == g.key - r &&
    h.counters == g.counters - LinksIn(g.counters, r) - SlotsBefore(g.counters, c, i) &&
    c in u.stats && u.stats[c].parent == t.stats[c].parent &&
    |u.stats[c].slots| == MAX_COUNTERS && |t.stats[c].slots| == MAX_COUNTERS &&
    (forall j :: 0 <= j < i ==> u.stats[c].slots[j].None?) &&
    t.stats[c].slots[i].Some? && u.stats[c].slots[i] == Some(t.stats[c].slots[i].value.(nextLevel := None)) &&
    (forall j :: i < j < MAX_COUNTERS ==> u.stats[c].slots[j] == t.stats[c].slots[j]) &&
    (forall m :: m in u.stats && m != c ==> m in t.stats && u.stats[m].slots == t.stats[m].slots && u.stats[m].parent == t.stats[m].parent)
  }

  /** The child in slot `i` is a live non-root node above `c`, and its subtree reads the same in the current prefixes. */
  lemma EmptyingChildReady(t: Table, g: Layout, sz: Sizes, c: nat, i: nat, u: Table, h: Layout)
    requires Good(t, g, sz) && c in t.stats && Emptying(t, g, sz, c, i, u, h) && i < MAX_COUNTERS
    requires u.stats[c].slots[i].Some? && u.stats[c].slots[i].value.nextLevel.Some?
    ensures var x := u.stats[c].slots[i].value.nextLevel.value;
      x in u.stats && x != u.base && c < x < u.nextId && u.stats[x].parent == Some(Link(c, i)) &&
      x in g.key && Sub(h.key, x) == Sub(g.key, x) && Child(t.stats, c, i) == Some(x) && c !in Sub(g.key, x)
  {
    var x := u.stats[c].slots[i].value.nextLevel.value;
    assert Child(u.stats, c, i) == Some(x);
    ChildKey(u.stats, h.key, u.base, u.nextId, c, i);
    assert NodeShaped(u.stats, h.key, u.nextId, x);
    assert Child(t.stats, c, i) == Some(x);
    BelowApart(t.stats, g.key, t.base, t.nextId, c, i, i);
    SubAfterDrop(g.key, Below(t.stats, g.key, c, i), x);
    SubOfChild(t.stats, g.key, t.base, t.nextId, c, i);
  }

  /** Dropping the counters of the subtree `d` from what is left drops them from the whole. */
  lemma LinksInMore(counters: set<Link>, r: set<nat>, d: set<nat>, c: nat, i: nat, left: set<Link>)
    requires left == counters - LinksIn(counters, r) - SlotsBefore(counters, c, i)
    ensures left - LinksIn(left, d) == counters - LinksIn(counters, r + d) - SlotsBefore(counters, c, i)
  {
  }

  /** Deleting the child of slot `i` detaches that slot's counter from it. */
  lemma EmptyingChild(t: Table, g: Layout, sz: Sizes, c: nat, i: nat, u0: Table, h0: Layout, u1: Table, h1: Layout)
    requires Good(t, g, sz) && c in t.stats && Emptying(t, g, sz, c, i, u0, h0) && i < MAX_COUNTERS
    requires u0.stats[c].slots[i].Some? && u0.stats[c].slots[i].value.nextLevel.Some?
    requires Deleted(u0, h0, sz, u0.stats[c].slots[i].value.nextLevel.value, u1, h1)
    ensures SlotDetached(t, g, sz, c, i, u1, h1)
  {
    var x := u0.stats[c].slots[i].value.nextLevel.value;
    EmptyingChildReady(t, g, sz, c, i, u0, h0);
    ChildFrame(t, g, c, i, u0, h0, u1, h1, x);
  }

  /** The bookkeeping half of `EmptyingChild`. */
  lemma ChildFrame(t: Table, g: Layout, c: nat, i: nat, u0: Table, h0: Layout, u1: Table, h1: Layout, x: nat)
    requires c in t.stats && EmptyingFrame(t, g, c, i, u0, h0) && i < MAX_COUNTERS
    requires u0.stats[c].slots[i].Some? && u0.stats[c].slots[i].value.nextLevel == Some(x)
    requires x in u0.stats && u0.stats[x].parent == Some(Link(c, i)) && Child(t.stats, c, i) == Some(x)
    requires Sub(h0.key, x) == Sub(g.key, x) && c !in Sub(g.key, x)
    requires DeletedFrame(u0, h0, x, u1, h1)
    ensures SlotDetachedFrame(t, g, c, i, u1, h1)
  {
    var r, d := Below(t.stats, g.key, c, i), Sub(g.key, x);
    assert Below(t.stats, g.key, c, i + 1) == r + d;
    DropTwice(t.stats.Keys, g.order, g.key, g.counters, c, i, r, d, u1.stats.Keys, h1.order, h1.key, h1.counters);
    ChildNodes(t, g, c, i, u0, h0, u1, h1, x);
  }

  /** Dropping `r` and then `d` from the arena, the list, the prefixes and the counters drops `r + d`. */
  lemma DropTwice(keys: set<nat>, order: seq<nat>, key: map<nat, seq<nat>>, counters: set<Link>, c: nat, i: nat, r: set<nat>, d: set<nat>,
                  keys1: set<nat>, order1: seq<nat>, key1: map<nat, seq<nat>>, counters1: set<Link>)
    requires keys1 == keys - r - d && order1 == Without(Without(order, r), d) && key1 == key - r - d
    requires counters1 == (counters - LinksIn(counters, r) - SlotsBefore(counters, c, i)) - LinksIn(counters - LinksIn(counters, r) - SlotsBefore(counters, c, i), d)
    ensures keys1 == keys - (r + d) && order1 == Without(order, r + d) && key1 == key - (r + d)
    ensures counters1 == counters - LinksIn(counters, r + d) - SlotsBefore(counters, c, i)
  {
    WithoutWithout(order, r, d);
    assert key1 == key - (r + d);
    LinksInMore(counters, r, d, c, i, counters - LinksIn(counters, r) - SlotsBefore(counters, c, i));
  }

  /** After deleting the child of slot `i`, that slot's counter has lost its next level and nothing else has changed. */
  lemma ChildNodes(t: Table, g: Layout, c: nat, i: nat, u0: Table, h0: Layout, u1: Table, h1: Layout, x: nat)
    requires c in t.stats && EmptyingFrame(t, g, c, i, u0, h0) && i < MAX_COUNTERS
    requires u0.stats[c].slots[i].Some? && u0.stats[c].slots[i].value.nextLevel == Some(x)
    requires x in u0.stats && u0.stats[x].parent == Some(Link(c, i)) && Child(t.stats, c, i) == Some(x)
    requires Sub(h0.key, x) == Sub(g.key, x) && c !in Sub(g.key, x)
    requires DeletedFrame(u0, h0, x, u1, h1)
    ensures c in u1.stats && u1.stats[c].parent == t.stats[c].parent && |u1.stats[c].slots| == MAX_COUNTERS
    ensures forall j :: 0 <= j < i ==> u1.stats[c].slots[j].None?
    ensures u1.stats[c].slots[i] == Some(t.stats[c].slots[i].value.(nextLevel := None))
    ensures forall j :: i < j < MAX_COUNTERS ==> u1.stats[c].slots[j] == t.stats[c].slots[j]
    ensures forall m :: m in u1.stats && m != c ==> m in t.stats && u1.stats[m].slots == t.stats[m].slots && u1.stats[m].parent == t.stats[m].parent
  {
  }

  /** A counter without next level is detached already. */
  lemma EmptyingLeaf(t: Table, g: Layout, sz: Sizes, c: nat, i: nat, u: Table, h: Layout)
    requires c in t.stats && Emptying(t, g, sz, c, i, u, h) && i < MAX_COUNTERS
    requires u.stats[c].slots[i].Some? && u.stats[c].slots[i].value.nextLevel.None?
    ensures SlotDetached(t, g, sz, c, i, u, h)
  {
    assert Child(t.stats, c, i).None?;
    assert Below(t.stats, g.key, c, i + 1) == Below(t.stats, g.key, c, i);
  }

  /** Freeing the counter of slot `i` leaves `c` emptied up to slot `i + 1`. */
  lemma EmptyingFree(t: Table, g: Layout, sz: Sizes, c: nat, i: nat, u: Table, h: Layout, u2: Table, h2: Layout)
    requires c in t.stats && SlotDetached(t, g, sz, c, i, u, h)
    requires u2 == u.(stats := u.stats[c := u.stats[c].(slots := u.stats[c].slots[i := None])],
                      allocedMem := u.allocedMem - sz.ofCounter)
    requires h2 == h.(counters := h.counters - {Link(c, i)})
    ensures Emptying(t, g, sz, c, i + 1, u2, h2)
  {
    FreeFrame(t, g, c, i, u, h, u2, h2);
    FreeCounter(u, h, sz, c, i, u2, h2);
  }

  /** The bookkeeping half of `EmptyingFree`. */
  lemma FreeFrame(t: Table, g: Layout, c: nat, i: nat, u: Table, h: Layout, u2: Table, h2: Layout)
    requires c in t.stats && SlotDetachedFrame(t, g, c, i, u, h)
    requires u2.stats == u.stats[c := u.stats[c].(slots := u.stats[c].slots[i := None])]
    requires u2.base == u.base && u2.nextId == u.nextId
    requires h2 == h.(counters := h.counters - {Link(c, i)})
    ensures EmptyingFrame(t, g, c, i + 1, u2, h2)
  {
    var r := Below(t.stats, g.key, c, i + 1);
    assert Below(t.stats, g.key, c, i + 1) == r;
    SlotsBeforeFree(g.counters, r, c, i, h.counters);
  }

  /** Freeing the counter of slot `i` of `c` takes it out of what is left. */
  lemma SlotsBeforeFree(counters: set<Link>, r: set<nat>, c: nat, i: nat, left: set<Link>)
    requires left == counters - LinksIn(counters, r) - SlotsBefore(counters, c, i) && c !in r
    ensures left - {Link(c, i)} == counters - LinksIn(counters, r) - SlotsBefore(counters, c, i + 1)
  {
  }

  /** Once every slot of `c` is emptied, the counters left are those outside `r` and outside `c`. */
  lemma CountersOfNode(counters: set<Link>, r: set<nat>, c: nat, left: set<Link>)
    requires left == counters - LinksIn(counters, r) - SlotsBefore(counters, c, MAX_COUNTERS)
    requires forall l :: l in counters && l.node == c ==> l.slot < MAX_COUNTERS
    ensures left == counters - LinksIn(counters, r + {c})
  {
  }

  /**
   * After the subtree `b` below `c` is deleted, the age-list predecessor of `c` is the nearest
   * node before `c` in the original list that is neither `c` nor in `b`.
   */
  lemma PrevAfterEmptying(stats: map<nat, Stats>, order1: seq<nat>, first: Option<nat>, last: Option<nat>,
                          order: seq<nat>, b: set<nat>, c: nat)
    requires ListShape(stats, order1, first, last) && order1 == Without(order, b) && c in order && c !in b
    ensures c in stats && stats[c].prev == LastOf(Without(order[..IndexOf(order, c)], b + {c}))
  {
    var at := IndexOf(order, c);
    WithoutSplit(order, b, at);
    var before := Without(order[..at], b);
    var k := |before|;
    assert order1[k] == c;
    assert LinkedAt(stats, order1, k);
    assert k > 0 ==> order1[k - 1] == before[k - 1];
    WithoutSame(order[..at], b, b + {c});
  }

  /** The arena, list, prefixes and owners after the destructor of `c` has emptied `c` and untangled it. */
  lemma FinishFrame(t: Table, g: Layout, c: nat, u: Table, h: Layout, u2: Table, h2: Layout)
    requires c in t.stats && EmptyingFrame(t, g, c, MAX_COUNTERS, u, h)
    requires Below(t.stats, g.key, c, MAX_COUNTERS) + {c} == Sub(g.key, c)
    requires HasOwner(t.stats, c) && t.stats[c].parent.value.node != c
    requires Detached(u.stats, c, u2.stats) && u2.base == u.base && u2.nextId == u.nextId
    requires h2 == Layout(Without(h.order, {c}), h.key - {c}, h.counters)
    ensures var d := Sub(g.key, c);
      u2.base == t.base && u2.nextId == t.nextId && u2.stats.Keys == t.stats.Keys - d &&
      h2.order == Without(g.order, d) && h2.key == g.key - d && Pruned(t.stats, c, u2.stats)
  {
    var b := Below(t.stats, g.key, c, MAX_COUNTERS);
    WithoutWithout(g.order, b, {c});
    assert h2.key == g.key - (b + {c});
  }

  /**
   * `Stats::~Stats` on the non-root node `c`: free the counter of every populated slot after
   * deleting its next level, then unlink `c` from the age list and from its owning counter and
   * give back its own bytes.
   */
  method DeleteStats(t: Table, ghost g: Layout, sz: Sizes, c: nat) returns (t2: Table, ghost g2: Layout)
    requires Good(t, g, sz) && c in t.stats && c != t.base
    ensures Deleted(t, g, sz, c, t2, g2)
    decreases t.nextId - c, 2
  {
    EmptyingStart(t, g, sz, c);
    var u, h := EmptyFrom(t, g, sz, c, 0, t, g);
    t2, g2 := Unhook(t, g, sz, c, u, h);
  }

  /** The loop of the destructor, from slot `i0` on, once slots `0 .. i0-1` of `c` are empty. */
  method EmptyFrom(t: Table, ghost g: Layout, sz: Sizes, c: nat, i0: nat, u0: Table, ghost h0: Layout)
    returns (u: Table, ghost h: Layout)
    requires Good(t, g, sz) && c in t.stats && c != t.base && i0 <= MAX_COUNTERS && Emptying(t, g, sz, c, i0, u0, h0)
    ensures Emptying(t, g, sz, c, MAX_COUNTERS, u, h)
    decreases t.nextId - c, 1
  {
    u, h := u0, h0;
    for i := i0 to MAX_COUNTERS
      invariant Emptying(t, g, sz, c, i, u, h)
    {
      u, h := EmptySlot(t, g, sz, c, i, u, h);
    }
  }

  /** The end of the destructor, once the slots of `c` are empty. */
  method Unhook(t: Table, ghost g: Layout, sz: Sizes, c: nat, u: Table, ghost h: Layout) returns (t2: Table, ghost g2: Layout)
    requires Good(t, g, sz) && c in t.stats && c != t.base && Emptying(t, g, sz, c, MAX_COUNTERS, u, h)
    ensures Deleted(t, g, sz, c, t2, g2)
  {
    DeletePrep(t, g, sz, c);
    t2, g2 := Untangle(u, h, sz, c);
    DeleteFinish(t, g, c, u, h, t2, g2);
  }

  /** One turn of the destructor's loop: slot `i` of `c` loses its next level and its counter, if it has them. */
  method EmptySlot(t: Table, ghost g: Layout, sz: Sizes, c: nat, i: nat, u: Table, ghost h: Layout)
    returns (u2: Table, ghost h2: Layout)
    requires Good(t, g, sz) && c in t.stats && i < MAX_COUNTERS && Emptying(t, g, sz, c, i, u, h)
    ensures Emptying(t, g, sz, c, i + 1, u2, h2)
    decreases t.nextId - c, 0
  {
    var slot := u.stats[c].slots[i];
    if slot.None? {
      EmptyingSkip(t, g, sz, c, i, u, h);
      return u, h;
    }
    var u1 := u;
    ghost var h1 := h;
    // Deallocate child AND record
    if slot.value.nextLevel.Some? {
      EmptyingChildReady(t, g, sz, c, i, u, h);
      u1, h1 := DeleteStats(u, h, sz, slot.value.nextLevel.value);
      EmptyingChild(t, g, sz, c, i, u, h, u1, h1);
    } else {
      EmptyingLeaf(t, g, sz, c, i, u, h);
    }
    u2 := u1.(stats := u1.stats[c := u1.stats[c].(slots := u1.stats[c].slots[i := None])],
              allocedMem := u1.allocedMem - sz.ofCounter);
    h2 := h1.(counters := h1.counters - {Link(c, i)});
    EmptyingFree(t, g, sz, c, i, u1, h1, u2, h2);
  }

  /** What the destructor of the non-root node `c` may rely on about `c` before it starts. */
  lemma DeletePrep(t: Table, g: Layout, sz: Sizes, c: nat)
    requires Good(t, g, sz) && c in t.stats && c != t.base
    ensures Below(t.stats, g.key, c, MAX_COUNTERS) + {c} == Sub(g.key, c)
    ensures HasOwner(t.stats, c) && t.stats[c].parent.value.node != c && c in g.order && c < t.nextId
    ensures forall l :: l in g.counters && l.node == c ==> l.slot < MAX_COUNTERS
  {
    BelowAll(t.stats, g.key, t.base, t.nextId, c);
    SubSelf(g.key, c);
    assert OwnedBy(t.stats, g.key, c);
    assert NodeShaped(t.stats, g.key, t.nextId, c);
    forall l | l in g.counters && l.node == c ensures l.slot < MAX_COUNTERS {
      assert Populated(t.stats, l);
    }
  }

  /** Emptying every slot of `c` and then untangling it is deleting `c`. */
  lemma DeleteFinish(t: Table, g: Layout, c: nat, u: Table, h: Layout, u2: Table, h2: Layout)
    requires c in t.stats && EmptyingFrame(t, g, c, MAX_COUNTERS, u, h) && ListShape(u.stats, h.order, u.first, u.last)
    requires Below(t.stats, g.key, c, MAX_COUNTERS) + {c} == Sub(g.key, c)
    requires HasOwner(t.stats, c) && t.stats[c].parent.value.node != c && c in g.order
    requires forall l :: l in g.counters && l.node == c ==> l.slot < MAX_COUNTERS
    requires h2 == Layout(Without(h.order, {c}), h.key - {c}, h.counters)
    requires u2.base == u.base && u2.nextId == u.nextId && Detached(u.stats, c, u2.stats)
    requires u2.prevDeleted == u.stats[c].prev
    ensures DeletedFrame(t, g, c, u2, h2)
  {
    var b := Below(t.stats, g.key, c, MAX_COUNTERS);
    FinishFrame(t, g, c, u, h, u2, h2);
    CountersOfNode(g.counters, b, c, h.counters);
    PrevAfterEmptying(u.stats, h.order, u.first, u.last, g.order, b, c);
  }

  /**
   * Deleting `c` gives back exactly sizeof(Stats) for every node of its subtree and
   * sizeof(Counter) for every counter those nodes held; the subtree holds at least `c` itself.
   */
  lemma DeleteCharge(t: Table, g: Layout, sz: Sizes, c: nat, t2: Table, g2: Layout)
    requires Good(t, g, sz) && c in t.stats && Deleted(t, g, sz, c, t2, g2)
    ensures var d := Sub(g.key, c);
      c in d && d <= t.stats.Keys &&
      t2.allocedMem == t.allocedMem - Charge(|d|, sz.ofStats) - Charge(|LinksIn(g.counters, d)|, sz.ofCounter)
  {
    SubSelf(g.key, c);
    MemAfterDrop(t.stats.Keys, Sub(g.key, c), g.counters, LinksIn(g.counters, Sub(g.key, c)), sz, t.allocedMem,
                 t2.stats.Keys, g2.counters, t2.allocedMem);
  }

  /** Dropping `r` and then `d` from the arena, the list, the prefixes and the counters drops `r + d`. */
  lemma DropBoth(keys: set<nat>, order: seq<nat>, key: map<nat, seq<nat>>, counters: set<Link>, r: set<nat>, d: set<nat>,
                 keys1: set<nat>, order1: seq<nat>, key1: map<nat, seq<nat>>, counters1: set<Link>)
    requires keys1 == keys - r - d && order1 == Without(Without(order, r), d) && key1 == key - r - d
    requires counters1 == (counters - LinksIn(counters, r)) - LinksIn(counters - LinksIn(counters, r), d)
    ensures keys1 == keys - (r + d) && order1 == Without(order, r + d) && key1 == key - (r + d)
    ensures counters1 == counters - LinksIn(counters, r + d)
  {
    WithoutWithout(order, r, d);
    assert key1 == key - (r + d);
  }

  /** Dropping the nodes `d` and the counters `links` from an exact count drops their bytes. */
  lemma MemAfterDrop(keys: set<nat>, d: set<nat>, counters: set<Link>, links: set<Link>, sz: Sizes, mem: int,
                     keys2: set<nat>, counters2: set<Link>, mem2: int)
    requires d <= keys && links <= counters && keys2 == keys - d && counters2 == counters - links
    requires mem == Charge(|keys|, sz.ofStats) + Charge(|counters|, sz.ofCounter)
    requires mem2 == Charge(|keys2|, sz.ofStats) + Charge(|counters2|, sz.ofCounter)
    ensures mem2 == mem - Charge(|d|, sz.ofStats) - Charge(|links|, sz.ofCounter)
  {
    CardSplit(keys, d);
    CardSplit(counters, links);
    ChargeDrop(|keys2|, |d|, |counters2|, |links|, sz, mem, mem2);
  }

  /** Taking `nodes` nodes and `counters` counters out of an exact count takes out their bytes. */
  lemma ChargeDrop(keptNodes: nat, nodes: nat, keptCounters: nat, counters: nat, sz: Sizes, mem: int, mem2: int)
    requires mem == Charge(keptNodes + nodes, sz.ofStats) + Charge(keptCounters + counters, sz.ofCounter)
    requires mem2 == Charge(keptNodes, sz.ofStats) + Charge(keptCounters, sz.ofCounter)
    ensures mem2 == mem - Charge(nodes, sz.ofStats) - Charge(counters, sz.ofCounter)
  {
    ChargeAdd(keptNodes, nodes, sz.ofStats);
    ChargeAdd(keptCounters, counters, sz.ofCounter);
  }

  /** Removing a subset takes its size off. */
  lemma CardSplit<T>(a: set<T>, b: set<T>)
    requires b <= a
    ensures |a| == |a - b| + |b|
  {
    assert a == (a - b) + b;
    assert (a - b) * b == {};
  }
}
