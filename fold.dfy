/**
 * `IPRateMonitor::fold`: the eviction sweep. It walks the age list backward from `_last`;
 * for each non-root node it decays the owning counter's rates with `update(now, 0)` and
 * deletes the node (and so its subtree) when both decayed averages are below the threshold;
 * it then moves on to the predecessor recorded in `_prev_deleted`.
 */
module Eviction {
  import opened Wrappers
  import opened Sequences
  import opened Ewma
  import opened Trie
  import opened Shape
  import opened Surgery
  import opened Subtrees
  import opened Destructor
  import opened Rates

  /** The parameters of one sweep: the threshold, the tick read once at its start and the estimator's update. */
  datatype Sweep = Sweep(thresh: int, now: int, update: Update)

  /** `fwd_rate.update(now, 0)` and `rev_rate.update(now, 0)` on a counter. */
  function Decayed(c: Counter, w: Sweep): Counter {
    Decay(c, w.now, w.update)
  }

  /** Both averages of the counter are strictly below the threshold. */
  predicate Quiet(c: Counter, thresh: int) {
    Average(c.fwd) < thresh && Average(c.rev) < thresh
  }

  /** Node `a` is a non-root node whose owning counter, once decayed, is quiet: fold deletes it when it reaches it. */
  ghost predicate Idle(st: map<nat, Stats>, w: Sweep, a: nat) {
    HasOwner(st, a) &&
    var l := st[a].parent.value;
    Quiet(Decayed(st[l.node].slots[l.slot].value, w), w.thresh)
  }

  /**
   * The nodes a sweep has removed once it has dealt with positions `p ..` of the age list
   * `order`: every node at or below an idle node at one of those positions.
   */
  ghost function Swept(st: map<nat, Stats>, key: map<nat, seq<nat>>, order: seq<nat>, w: Sweep, p: nat): set<nat>
    requires p <= |order|
  {
    set m | m in key && exists a :: a in order[p..] && Idle(st, w, a) && m in Sub(key, a)
  }

  /**
   * What has become of a slot once the sweep has dealt with positions `p ..` of `order`,
   * `r` being the nodes removed so far: a counter whose next level sits at one of those
   * positions has been decayed, and has lost its next level if that node was removed; any
   * other slot is as it was.
   */
  ghost function SweptSlot(v: Option<Counter>, order: seq<nat>, p: nat, r: set<nat>, w: Sweep): Option<Counter>
    requires p <= |order|
  {
    if v.Some? && v.value.nextLevel.Some? && v.value.nextLevel.value in order[p..] then
      Some(Decayed(v.value, w).(nextLevel := if v.value.nextLevel.value in r then None else v.value.nextLevel))
    else v
  }

  /**
   * Where the sweep stands once it has dealt with positions `p ..` of the age list of `t`:
   * the removed nodes are gone from the arena, the list, the prefixes and the counters; the
   * cursor `s` is the last node before position `p` that is still there; every surviving
   * node keeps its owner, and its slots are as `SweptSlot` says.
   */
  ghost predicate FoldingFrame(t: Table, g: Layout, w: Sweep, p: nat, s: Option<nat>, u: Table, h: Layout) {
    p <= |g.order| &&
    var r := Swept(t.stats, g.key, g.order, w, p);
    u.base == t.base && u.nextId == t.nextId &&
    u.stats.Keys == t.stats.Keys - r && h.order == Without(g.order, r) && h.key == g.key - r &&
    h.counters == g.counters - LinksIn(g.counters, r) &&
    s == LastOf(Without(g.order[..p], r)) &&
    SlotsSwept(t, g, w, p, r, u.stats)
  }

  /** Every node of `st` is a node of `t` with its owner, and its slots are as `SweptSlot` says. */
  ghost predicate SlotsSwept(t: Table, g: Layout, w: Sweep, p: nat, r: set<nat>, st: map<nat, Stats>)
    requires p <= |g.order|
  {
    forall m :: m in st ==>
      m in t.stats && st[m].parent == t.stats[m].parent && |st[m].slots| == |t.stats[m].slots| &&
      forall j :: 0 <= j < |t.stats[m].slots| ==> st[m].slots[j] == SweptSlot(t.stats[m].slots[j], g.order, p, r, w)
  }

  /** The state the loop of fold keeps: the sweep so far, a well-formed monitor, and `_prev_deleted` null once the cursor is. */
  ghost predicate Folding(t: Table, g: Layout, sz: Sizes, w: Sweep, p: nat, s: Option<nat>, u: Table, h: Layout) {
    FoldingFrame(t, g, w, p, s, u, h) && Good(u, h, sz) && (s.None? ==> u.prevDeleted.None?)
  }

  /** When the last kept element before position `p` is `x`, every element between `x` and `p` was dropped. */
  lemma {:induction false} LastKept(order: seq<nat>, r: set<nat>, p: nat)
    requires Distinct(order) && p <= |order| && LastOf(Without(order[..p], r)).Some?
    ensures var x := LastOf(Without(order[..p], r)).value;
      x in order && IndexOf(order, x) < p && x !in r &&
      forall j :: IndexOf(order, x) < j < p ==> order[j] in r
  {
    var x := LastOf(Without(order[..p], r)).value;
    assert p > 0;
    assert order[..p] == order[..p - 1] + [order[p - 1]];
    WithoutConcat(order[..p - 1], [order[p - 1]], r);
    if order[p - 1] in r {
      assert Without([order[p - 1]], r) == [];
      assert Without(order[..p], r) == Without(order[..p - 1], r);
      LastKept(order, r, p - 1);
    } else {
      assert Without([order[p - 1]], r) == [order[p - 1]];
      assert x == order[p - 1];
      if IndexOf(order, x) != p - 1 {
        DistinctAt(order, IndexOf(order, x), p - 1);
      }
    }
  }

  /** Removed nodes take their subtrees with them. */
  lemma SweptClosed(st: map<nat, Stats>, key: map<nat, seq<nat>>, order: seq<nat>, w: Sweep, p: nat, m: nat, n: nat)
    requires p <= |order| && m in Swept(st, key, order, w, p) && n in Sub(key, m)
    ensures n in Swept(st, key, order, w, p)
  {
    var a :| a in order[p..] && Idle(st, w, a) && m in Sub(key, a);
    assert key[a] <= key[m] <= key[n];
  }

  /**
   * Moving the sweep from position `p` down to `k`, when every position strictly between
   * them holds a removed node: what is removed grows by the subtree at `k` if that node is idle.
   */
  lemma SweptStep(st: map<nat, Stats>, key: map<nat, seq<nat>>, order: seq<nat>, w: Sweep, k: nat, p: nat)
    requires k < p <= |order|
    requires forall j :: k < j < p ==> order[j] in Swept(st, key, order, w, p)
    ensures Swept(st, key, order, w, k) ==
      if Idle(st, w, order[k]) then Swept(st, key, order, w, p) + Sub(key, order[k]) else Swept(st, key, order, w, p)
  {
    var r := Swept(st, key, order, w, p);
    forall m | m in Swept(st, key, order, w, k)
      ensures m in r || (Idle(st, w, order[k]) && m in Sub(key, order[k]))
    {
      var a :| a in order[k..] && Idle(st, w, a) && m in Sub(key, a);
      var j :| k <= j < |order| && order[j] == a;
      if p <= j {
        assert a in order[p..];
      } else if k < j {
        SweptClosed(st, key, order, w, p, a, m);
      }
    }
    forall m | m in r ensures m in Swept(st, key, order, w, k) {
      var a :| a in order[p..] && Idle(st, w, a) && m in Sub(key, a);
      assert a in order[k..];
    }
    if Idle(st, w, order[k]) {
      forall m | m in Sub(key, order[k]) ensures m in Swept(st, key, order, w, k) {
        assert order[k] in order[k..];
      }
    }
  }

  /** Once every position before `p` holds a removed node, nothing more is removed from the positions before `p`. */
  lemma SweptDown(st: map<nat, Stats>, key: map<nat, seq<nat>>, order: seq<nat>, w: Sweep, p: nat)
    requires p <= |order|
    requires forall j :: 0 <= j < p ==> order[j] in Swept(st, key, order, w, p)
    ensures Swept(st, key, order, w, 0) == Swept(st, key, order, w, p)
  {
    var r := Swept(st, key, order, w, p);
    forall m | m in Swept(st, key, order, w, 0) ensures m in r {
      var a :| a in order[0..] && Idle(st, w, a) && m in Sub(key, a);
      var j :| 0 <= j < |order| && order[j] == a;
      if p <= j {
        assert a in order[p..];
      } else {
        SweptClosed(st, key, order, w, p, a, m);
      }
    }
    forall m | m in r ensures m in Swept(st, key, order, w, 0) {
      var a :| a in order[p..] && Idle(st, w, a) && m in Sub(key, a);
      assert a in order[0..];
    }
  }

  /**
   * A removed node hanging from a counter of a surviving node was removed for its own sake:
   * it is idle and at one of the positions dealt with.
   */
  lemma SurvivorChild(st: map<nat, Stats>, key: map<nat, seq<nat>>, base: nat, bound: nat, order: seq<nat>, w: Sweep,
                      p: nat, m: nat, j: nat)
    requires TreeShape(st, key, base, bound) && p <= |order| && m in st && Child(st, m, j).Some?
    requires m !in Swept(st, key, order, w, p) && Child(st, m, j).value in Swept(st, key, order, w, p)
    ensures Idle(st, w, Child(st, m, j).value) && Child(st, m, j).value in order[p..]
  {
    var y := Child(st, m, j).value;
    ChildKey(st, key, base, bound, m, j);
    var a :| a in order[p..] && Idle(st, w, a) && y in Sub(key, a);
    if a != y {
      assert key[a] != key[y] by {
        if key[a] == key[y] {
          assert SameKey(key, a, y);
        }
      }
      PrefixOfShorter(key[a], key[m], j);
      assert false;
    }
  }

  /** The subtree of a surviving node, in the prefixes of the survivors, is its old subtree less what was removed. */
  lemma SubMinus(key: map<nat, seq<nat>>, r: set<nat>, x: nat)
    requires x in key && x !in r
    ensures Sub(key - r, x) == Sub(key, x) - r
  {
  }

  /** The kept elements before a kept `order[k]` are the prefix of the kept sequence up to it. */
  lemma PrefixWithout(order: seq<nat>, r: set<nat>, k: nat)
    requires Distinct(order) && k < |order| && order[k] !in r
    ensures order[k] in Without(order, r)
    ensures Without(order, r)[..IndexOf(Without(order, r), order[k])] == Without(order[..k], r)
  {
    var x := order[k];
    WithoutSplit(order, r, k);
    var before := Without(order[..k], r);
    var kept := Without(order, r);
    assert kept[|before|] == x;
    Unrepeated(order, k);
    WithoutIn(order[..k], r, x);
    assert x !in before;
    var i := IndexOf(kept, x);
    if i < |before| {
      assert false;
    }
    assert kept[..|before|] == before;
  }

  /** In a list without repeats, `y` lies at or after position `p` exactly when its position is at least `p`. */
  lemma InSuffix(order: seq<nat>, p: nat, y: nat)
    requires Distinct(order) && p <= |order| && y in order
    ensures y in order[p..] <==> IndexOf(order, y) >= p
  {
    var i := IndexOf(order, y);
    if y in order[p..] {
      var j :| p <= j < |order| && order[j] == y;
      DistinctAt(order, i, j);
    }
  }

  /**
   * A slot of a surviving node whose next level is not the node `order[k]` just dealt with
   * reads the same whether the sweep is said to stand at `p` or at `k`.
   */
  lemma SlotMoves(st: map<nat, Stats>, key: map<nat, seq<nat>>, base: nat, bound: nat, order: seq<nat>, w: Sweep,
                  k: nat, p: nat, evict: bool, m: nat, j: nat)
    requires TreeShape(st, key, base, bound) && Distinct(order) && st.Keys == Members(order) && k < p <= |order|
    requires forall i :: k < i < p ==> order[i] in Swept(st, key, order, w, p)
    requires m in st && m !in Swept(st, key, order, w, p) && (evict ==> m !in Sub(key, order[k])) && j < |st[m].slots|
    requires Child(st, m, j) != Some(order[k])
    ensures SweptSlot(st[m].slots[j], order, k,
              if evict then Swept(st, key, order, w, p) + Sub(key, order[k]) else Swept(st, key, order, w, p), w) ==
            SweptSlot(st[m].slots[j], order, p, Swept(st, key, order, w, p), w)
  {
    var r := Swept(st, key, order, w, p);
    if Child(st, m, j).Some? {
      var y := Child(st, m, j).value;
      ChildKey(st, key, base, bound, m, j);
      assert y in Members(order);
      var i := IndexOf(order, y);
      InSuffix(order, k, y);
      InSuffix(order, p, y);
      if k < i < p {
        SurvivorChild(st, key, base, bound, order, w, p, m, j);
      }
      if evict && y in Sub(key, order[k]) && y in order[p..] {
        ChildOfSub(st, key, base, bound, order[k], m, j);
      }
    }
  }

  /**
   * The slots after dealing with `order[k]`: a surviving node's slots read as at `k` when
   * the slot owning `order[k]` reads as at `k` and every other slot is as it was.
   */
  lemma SlotsMove(t: Table, g: Layout, w: Sweep, k: nat, p: nat, evict: bool, st: map<nat, Stats>, st2: map<nat, Stats>)
    requires TreeShape(t.stats, g.key, t.base, t.nextId) && Distinct(g.order) && t.stats.Keys == Members(g.order)
    requires k < p <= |g.order|
    requires forall i :: k < i < p ==> g.order[i] in Swept(t.stats, g.key, g.order, w, p)
    requires st.Keys == t.stats.Keys - Swept(t.stats, g.key, g.order, w, p)
    requires SlotsSwept(t, g, w, p, Swept(t.stats, g.key, g.order, w, p), st)
    requires evict ==> forall m :: m in st2 ==> m !in Sub(g.key, g.order[k])
    requires forall m :: m in st2 ==>
      m in st && st2[m].parent == st[m].parent && |st2[m].slots| == |st[m].slots| &&
      forall j :: 0 <= j < |st[m].slots| ==>
        st2[m].slots[j] == (if Child(t.stats, m, j) == Some(g.order[k])
          then SweptSlot(t.stats[m].slots[j], g.order, k, (if evict then Swept(t.stats, g.key, g.order, w, p) + Sub(g.key, g.order[k]) else Swept(t.stats, g.key, g.order, w, p)), w)
          else st[m].slots[j])
    ensures SlotsSwept(t, g, w, k, (if evict then Swept(t.stats, g.key, g.order, w, p) + Sub(g.key, g.order[k]) else Swept(t.stats, g.key, g.order, w, p)), st2)
  {
    forall m | m in st2
      ensures m in t.stats && st2[m].parent == t.stats[m].parent && |st2[m].slots| == |t.stats[m].slots|
      ensures forall j :: 0 <= j < |t.stats[m].slots| ==>
        st2[m].slots[j] == SweptSlot(t.stats[m].slots[j], g.order, k, (if evict then Swept(t.stats, g.key, g.order, w, p) + Sub(g.key, g.order[k]) else Swept(t.stats, g.key, g.order, w, p)), w)
    {
      forall j | 0 <= j < |t.stats[m].slots|
        ensures st2[m].slots[j] == SweptSlot(t.stats[m].slots[j], g.order, k, (if evict then Swept(t.stats, g.key, g.order, w, p) + Sub(g.key, g.order[k]) else Swept(t.stats, g.key, g.order, w, p)), w)
      {
        if Child(t.stats, m, j) != Some(g.order[k]) {
          SlotMoves(t.stats, g.key, t.base, t.nextId, g.order, w, k, p, evict, m, j);
        }
      }
    }
  }

  /** The cursor is a live node at a position before `p`, and every position between it and `p` holds a removed node. */
  lemma FoldCursor(t: Table, g: Layout, w: Sweep, p: nat, x: nat, u: Table, h: Layout)
    requires Distinct(g.order) && t.stats.Keys == Members(g.order) && FoldingFrame(t, g, w, p, Some(x), u, h)
    ensures var r := Swept(t.stats, g.key, g.order, w, p);
      x in g.order && IndexOf(g.order, x) < p && x !in r && x in t.stats && x in u.stats &&
      forall j :: IndexOf(g.order, x) < j < p ==> g.order[j] in r
  {
    LastKept(g.order, Swept(t.stats, g.key, g.order, w, p), p);
  }

  /**
   * The owning counter of a non-root cursor is still in place, untouched by the sweep, and is
   * the only counter of `t` whose next level is the cursor.
   */
  lemma FoldOwner(t: Table, g: Layout, w: Sweep, p: nat, x: nat, u: Table, h: Layout)
    requires TreeShape(t.stats, g.key, t.base, t.nextId) && Distinct(g.order) && t.stats.Keys == Members(g.order)
    requires FoldingFrame(t, g, w, p, Some(x), u, h)
    requires x in g.order && IndexOf(g.order, x) < p && x !in Swept(t.stats, g.key, g.order, w, p)
    requires x in u.stats && u.stats[x].parent.Some?
    ensures x != t.base && HasOwner(t.stats, x)
    ensures var l := t.stats[x].parent.value;
      u.stats[x].parent == Some(l) && l.node in u.stats && l.node != x && l.slot < MAX_COUNTERS &&
      l.slot < |u.stats[l.node].slots| && u.stats[l.node].slots[l.slot] == t.stats[l.node].slots[l.slot] &&
      Child(t.stats, l.node, l.slot) == Some(x) &&
      forall m, j :: m in t.stats && Child(t.stats, m, j) == Some(x) ==> Link(m, j) == l
  {
    var r := Swept(t.stats, g.key, g.order, w, p);
    assert OwnedBy(t.stats, g.key, x);
    var l := t.stats[x].parent.value;
    assert NodeShaped(t.stats, g.key, t.nextId, l.node);
    if l.node in r {
      SweptClosed(t.stats, g.key, g.order, w, p, l.node, x);
    }
    InSuffix(g.order, p, x);
    forall m, j | m in t.stats && Child(t.stats, m, j) == Some(x) ensures Link(m, j) == l {
      ChildKey(t.stats, g.key, t.base, t.nextId, m, j);
    }
  }

  /** The age-list predecessor of a kept node `x` is the last kept node before `x` in the original list. */
  lemma PrevOfKept(stats: map<nat, Stats>, order1: seq<nat>, first: Option<nat>, last: Option<nat>,
                   order: seq<nat>, r: set<nat>, x: nat)
    requires ListShape(stats, order1, first, last) && Distinct(order) && order1 == Without(order, r)
    requires x in order && x !in r
    ensures x in stats && stats[x].prev == LastOf(Without(order[..IndexOf(order, x)], r))
  {
    var k := IndexOf(order, x);
    PrevAfterEmptying(stats, order1, first, last, order, r, x);
    Unrepeated(order, k);
    WithoutSame(order[..k], r + {x}, r);
  }

  /** The node without owner is the root, and it is nobody's next level. */
  lemma RootUnowned(st: map<nat, Stats>, key: map<nat, seq<nat>>, base: nat, bound: nat, x: nat)
    requires TreeShape(st, key, base, bound) && x in st && st[x].parent.None?
    ensures x == base && !HasOwner(st, x)
    ensures forall m, j :: m in st && Child(st, m, j).Some? ==> Child(st, m, j) != Some(x)
  {
    assert x != base ==> OwnedBy(st, key, x);
    forall m, j | m in st && Child(st, m, j).Some? ensures Child(st, m, j) != Some(x) {
      ChildKey(st, key, base, bound, m, j);
    }
  }

  /** The frame of the root step: the root is never removed, and the cursor moves to its predecessor. */
  lemma FoldRootFrame(t: Table, g: Layout, w: Sweep, p: nat, x: nat, u: Table, h: Layout, u2: Table)
    requires Distinct(g.order) && t.stats.Keys == Members(g.order) && TreeShape(t.stats, g.key, t.base, t.nextId)
    requires FoldingFrame(t, g, w, p, Some(x), u, h) && ListShape(u.stats, h.order, u.first, u.last)
    requires x in g.order && x in u.stats && u.stats[x].parent.None? && u2 == u.(prevDeleted := u.stats[x].prev)
    ensures FoldingFrame(t, g, w, IndexOf(g.order, x), u2.prevDeleted, u2, h)
  {
    FoldCursor(t, g, w, p, x, u, h);
    var r := Swept(t.stats, g.key, g.order, w, p);
    var k := IndexOf(g.order, x);
    RootUnowned(t.stats, g.key, t.base, t.nextId, x);
    SweptStep(t.stats, g.key, g.order, w, k, p);
    SlotsMove(t, g, w, k, p, false, u.stats, u.stats);
    PrevOfKept(u.stats, h.order, u.first, u.last, g.order, r, x);
    FoldAt(t, g, w, k, r, u2, h);
  }

  /** The sweep's state at `k`, assembled from its parts. */
  lemma FoldAt(t: Table, g: Layout, w: Sweep, k: nat, r: set<nat>, u2: Table, h2: Layout)
    requires k <= |g.order| && r == Swept(t.stats, g.key, g.order, w, k)
    requires u2.base == t.base && u2.nextId == t.nextId
    requires u2.stats.Keys == t.stats.Keys - r && h2.order == Without(g.order, r) && h2.key == g.key - r
    requires h2.counters == g.counters - LinksIn(g.counters, r)
    requires SlotsSwept(t, g, w, k, r, u2.stats)
    requires u2.prevDeleted == LastOf(Without(g.order[..k], r))
    ensures FoldingFrame(t, g, w, k, u2.prevDeleted, u2, h2)
  {
  }

  /** Dropping `r` and then the part `d` of `e` outside `r` drops `r + e`. */
  lemma DropRest(keys: set<nat>, order: seq<nat>, key: map<nat, seq<nat>>, counters: set<Link>, r: set<nat>, e: set<nat>,
                 d: set<nat>, keys1: set<nat>, order1: seq<nat>, key1: map<nat, seq<nat>>, counters1: set<Link>)
    requires d == e - r
    requires keys1 == keys - r - d && order1 == Without(Without(order, r), d) && key1 == key - r - d
    requires counters1 == (counters - LinksIn(counters, r)) - LinksIn(counters - LinksIn(counters, r), d)
    ensures keys1 == keys - (r + e) && order1 == Without(order, r + e) && key1 == key - (r + e)
    ensures counters1 == counters - LinksIn(counters, r + e)
  {
    DropBoth(keys, order, key, counters, r, d, keys1, order1, key1, counters1);
    assert r + d == r + e;
  }

  /** `u1` is `u` with the owning counter of `x` decayed: the two `update(now, 0)` calls of fold. */
  ghost predicate OwnerDecayed(u: Table, w: Sweep, x: nat, u1: Table) {
    HasOwner(u.stats, x) &&
    var l := u.stats[x].parent.value;
    var c := u.stats[l.node].slots[l.slot].value;
    u1 == u.(stats := u.stats[l.node := u.stats[l.node].(slots := u.stats[l.node].slots[l.slot := Some(Decayed(c, w))])])
  }

  /** Decaying a counter changes no link, so the monitor stays well formed. */
  lemma DecayGood(u: Table, h: Layout, sz: Sizes, w: Sweep, x: nat, u1: Table)
    requires Good(u, h, sz) && OwnerDecayed(u, w, x, u1)
    ensures Good(u1, h, sz)
  {
    var l := u.stats[x].parent.value;
    var c := u.stats[l.node].slots[l.slot].value;
    SameShapeOne(u.stats, l.node, l.slot, Some(Decayed(c, w)), u1.stats);
    SameShapeGood(u, h, sz, u1);
  }

  /**
   * The frame of the step that keeps the non-root cursor `x`: its owning counter is decayed,
   * and the cursor moves to the predecessor of `x`.
   */
  lemma FoldKeepFrame(t: Table, g: Layout, w: Sweep, p: nat, x: nat, u: Table, h: Layout, u1: Table, u2: Table)
    requires Distinct(g.order) && t.stats.Keys == Members(g.order) && TreeShape(t.stats, g.key, t.base, t.nextId)
    requires FoldingFrame(t, g, w, p, Some(x), u, h) && x in g.order && x in u.stats && u.stats[x].parent.Some?
    requires OwnerDecayed(u, w, x, u1) && ListShape(u1.stats, h.order, u1.first, u1.last)
    requires var l := u.stats[x].parent.value; !Quiet(u1.stats[l.node].slots[l.slot].value, w.thresh)
    requires u2 == u1.(prevDeleted := u1.stats[x].prev)
    ensures FoldingFrame(t, g, w, IndexOf(g.order, x), u2.prevDeleted, u2, h)
  {
    FoldCursor(t, g, w, p, x, u, h);
    var r := Swept(t.stats, g.key, g.order, w, p);
    var k := IndexOf(g.order, x);
    KeepSlots(t, g, w, p, x, u, h, u1);
    var l := u.stats[x].parent.value;
    DecayedSlots(u, w, x, u1, u1.stats, u1.stats[l.node].slots[l.slot]);
    PrevOfKept(u1.stats, h.order, u1.first, u1.last, g.order, r, x);
    FoldAt(t, g, w, k, r, u2, h);
  }

  /** The slots after the step that keeps `x`. */
  lemma KeepSlots(t: Table, g: Layout, w: Sweep, p: nat, x: nat, u: Table, h: Layout, u1: Table)
    requires Distinct(g.order) && t.stats.Keys == Members(g.order) && TreeShape(t.stats, g.key, t.base, t.nextId)
    requires FoldingFrame(t, g, w, p, Some(x), u, h) && x in g.order && x in u.stats && u.stats[x].parent.Some?
    requires OwnerDecayed(u, w, x, u1)
    requires var l := u.stats[x].parent.value; !Quiet(u1.stats[l.node].slots[l.slot].value, w.thresh)
    requires IndexOf(g.order, x) < p
    ensures var r := Swept(t.stats, g.key, g.order, w, p);
      Swept(t.stats, g.key, g.order, w, IndexOf(g.order, x)) == r && SlotsSwept(t, g, w, IndexOf(g.order, x), r, u1.stats)
  {
    FoldCursor(t, g, w, p, x, u, h);
    var r := Swept(t.stats, g.key, g.order, w, p);
    var k := IndexOf(g.order, x);
    FoldOwner(t, g, w, p, x, u, h);
    var l := t.stats[x].parent.value;
    assert !Idle(t.stats, w, x);
    SweptStep(t.stats, g.key, g.order, w, k, p);
    assert x in g.order[k..];
    var v := u1.stats[l.node].slots[l.slot];
    assert v == SweptSlot(t.stats[l.node].slots[l.slot], g.order, k, r, w);
    DecayedSlots(u, w, x, u1, u1.stats, v);
    SlotsAfterOwner(t, g, w, k, p, false, x, l, v, u.stats, u1.stats);
  }

  /**
   * When only the owning counter `l` of `x` changes, and it becomes what `SweptSlot` says,
   * every slot is as `SlotsMove` needs it.
   */
  lemma FoldOwnerSlots(t: Table, g: Layout, w: Sweep, k: nat, r: set<nat>, x: nat, l: Link, v: Option<Counter>,
                       st: map<nat, Stats>, st2: map<nat, Stats>)
    requires k <= |g.order|
    requires l.node in t.stats && Child(t.stats, l.node, l.slot) == Some(x)
    requires forall m, j :: m in t.stats && Child(t.stats, m, j) == Some(x) ==> Link(m, j) == l
    requires forall m :: m in st ==> m in t.stats
    requires l.node in st ==> l.slot < |st[l.node].slots|
    requires v == SweptSlot(t.stats[l.node].slots[l.slot], g.order, k, r, w)
    requires forall m :: m in st2 ==>
      m in st && st2[m].parent == st[m].parent &&
      st2[m].slots == (if m == l.node then st[m].slots[l.slot := v] else st[m].slots)
    ensures forall m :: m in st2 ==>
      m in st && st2[m].parent == st[m].parent && |st2[m].slots| == |st[m].slots| &&
      forall j :: 0 <= j < |st[m].slots| ==>
        st2[m].slots[j] == (if Child(t.stats, m, j) == Some(x)
          then SweptSlot(t.stats[m].slots[j], g.order, k, r, w) else st[m].slots[j])
  {
    forall m, j | m in st2 && 0 <= j < |st[m].slots|
      ensures st2[m].slots[j] == (if Child(t.stats, m, j) == Some(x)
          then SweptSlot(t.stats[m].slots[j], g.order, k, r, w) else st[m].slots[j])
    {
      if Child(t.stats, m, j) == Some(x) {
        assert Link(m, j) == l;
      }
    }
  }

  /** After the decay, only the owning counter of `x` differs. */
  lemma DecayedSlots(u: Table, w: Sweep, x: nat, u1: Table, st2: map<nat, Stats>, v: Option<Counter>)
    requires OwnerDecayed(u, w, x, u1) && st2 == u1.stats
    requires var l := u.stats[x].parent.value; v == u1.stats[l.node].slots[l.slot]
    ensures u1.stats.Keys == u.stats.Keys && u1.base == u.base && u1.nextId == u.nextId && u1.first == u.first
    ensures var l := u.stats[x].parent.value;
      forall m :: m in st2 ==>
        m in u.stats && st2[m].parent == u.stats[m].parent &&
        st2[m].slots == (if m == l.node then u.stats[m].slots[l.slot := v] else u.stats[m].slots)
  {
  }

  /** After the decay and the destructor of `x`, only the owning counter of `x` differs among the survivors. */
  lemma PrunedSlots(u: Table, w: Sweep, x: nat, u1: Table, st2: map<nat, Stats>, v: Option<Counter>)
    requires OwnerDecayed(u, w, x, u1) && u.stats[x].parent.value.node != x && Pruned(u1.stats, x, st2)
    requires var l := u.stats[x].parent.value;
      v == Some(Decayed(u.stats[l.node].slots[l.slot].value, w).(nextLevel := None))
    ensures var l := u.stats[x].parent.value;
      forall m :: m in st2 ==>
        m in u.stats && st2[m].parent == u.stats[m].parent &&
        st2[m].slots == (if m == l.node then u.stats[m].slots[l.slot := v] else u.stats[m].slots)
  {
    var l := u.stats[x].parent.value;
    var c := u.stats[l.node].slots[l.slot].value;
    assert u1.stats[x] == u.stats[x];
    var a := u.stats[l.node].slots[l.slot := Some(Decayed(c, w))];
    assert a[l.slot := v] == u.stats[l.node].slots[l.slot := v];
  }

  /** The dropped elements before a kept `order[k]`, once the subtree `d` of `x` is dropped as well. */
  lemma EvictPrev(order: seq<nat>, r: set<nat>, k: nat, e: set<nat>, d: set<nat>, kept: seq<nat>)
    requires Distinct(order) && k < |order| && order[k] !in r && kept == Without(order, r) && d == e - r
    ensures order[k] in kept
    ensures Without(kept[..IndexOf(kept, order[k])], d) == Without(order[..k], r + e)
  {
    PrefixWithout(order, r, k);
    WithoutWithout(order[..k], r, d);
    assert r + d == r + e;
  }

  /** The slots after the step that removes `x`. */
  lemma EvictSlots(t: Table, g: Layout, w: Sweep, p: nat, x: nat, u: Table, h: Layout, u1: Table, u2: Table)
    requires Distinct(g.order) && t.stats.Keys == Members(g.order) && TreeShape(t.stats, g.key, t.base, t.nextId)
    requires FoldingFrame(t, g, w, p, Some(x), u, h) && x in g.order && x in u.stats && u.stats[x].parent.Some?
    requires OwnerDecayed(u, w, x, u1) && u1.stats.Keys == u.stats.Keys
    requires var l := u.stats[x].parent.value; Quiet(u1.stats[l.node].slots[l.slot].value, w.thresh)
    requires IndexOf(g.order, x) < p && x in g.key && x !in Swept(t.stats, g.key, g.order, w, p)
    requires Pruned(u1.stats, x, u2.stats) && u2.stats.Keys == u1.stats.Keys - Sub(h.key, x)
    ensures var r := Swept(t.stats, g.key, g.order, w, p);
      Swept(t.stats, g.key, g.order, w, IndexOf(g.order, x)) == r + Sub(g.key, x) &&
      SlotsSwept(t, g, w, IndexOf(g.order, x), r + Sub(g.key, x), u2.stats)
  {
    var r := Swept(t.stats, g.key, g.order, w, p);
    var k := IndexOf(g.order, x);
    FoldCursor(t, g, w, p, x, u, h);
    FoldOwner(t, g, w, p, x, u, h);
    var l := t.stats[x].parent.value;
    assert Idle(t.stats, w, x);
    SweptStep(t.stats, g.key, g.order, w, k, p);
    assert x in g.order[k..];
    SubSelf(g.key, x);
    var v := Some(Decayed(t.stats[l.node].slots[l.slot].value, w).(nextLevel := None));
    assert v == SweptSlot(t.stats[l.node].slots[l.slot], g.order, k, r + Sub(g.key, x), w);
    PrunedSlots(u, w, x, u1, u2.stats, v);
    SubMinus(g.key, r, x);
    SlotsAfterOwner(t, g, w, k, p, true, x, l, v, u.stats, u2.stats);
  }

  /** The frame of the step that removes the non-root cursor `x` together with its subtree. */
  lemma FoldEvictFrame(t: Table, g: Layout, w: Sweep, p: nat, x: nat, u: Table, h: Layout, u1: Table, u2: Table, h2: Layout)
    requires Distinct(g.order) && t.stats.Keys == Members(g.order) && TreeShape(t.stats, g.key, t.base, t.nextId)
    requires FoldingFrame(t, g, w, p, Some(x), u, h) && x in g.order && x in u.stats && u.stats[x].parent.Some?
    requires OwnerDecayed(u, w, x, u1)
    requires var l := u.stats[x].parent.value; Quiet(u1.stats[l.node].slots[l.slot].value, w.thresh)
    requires DeletedFrame(u1, h, x, u2, h2)
    ensures FoldingFrame(t, g, w, IndexOf(g.order, x), u2.prevDeleted, u2, h2)
  {
    FoldCursor(t, g, w, p, x, u, h);
    var r := Swept(t.stats, g.key, g.order, w, p);
    var k := IndexOf(g.order, x);
    var l := u.stats[x].parent.value;
    DecayedSlots(u, w, x, u1, u1.stats, u1.stats[l.node].slots[l.slot]);
    assert OwnedBy(t.stats, g.key, x);
    EvictSlots(t, g, w, p, x, u, h, u1, u2);
    SubMinus(g.key, r, x);
    EvictPrev(g.order, r, k, Sub(g.key, x), Sub(h.key, x), h.order);
    DropRest(t.stats.Keys, g.order, g.key, g.counters, r, Sub(g.key, x), Sub(h.key, x),
             u2.stats.Keys, h2.order, h2.key, h2.counters);
    FoldAt(t, g, w, k, r + Sub(g.key, x), u2, h2);
  }

  /** The slots after a step in which only the owning counter `l` of the cursor `x` changed, to `v`. */
  lemma SlotsAfterOwner(t: Table, g: Layout, w: Sweep, k: nat, p: nat, evict: bool, x: nat, l: Link, v: Option<Counter>,
                        st: map<nat, Stats>, st2: map<nat, Stats>)
    requires TreeShape(t.stats, g.key, t.base, t.nextId) && Distinct(g.order) && t.stats.Keys == Members(g.order)
    requires k < p <= |g.order| && g.order[k] == x
    requires forall i :: k < i < p ==> g.order[i] in Swept(t.stats, g.key, g.order, w, p)
    requires st.Keys == t.stats.Keys - Swept(t.stats, g.key, g.order, w, p)
    requires SlotsSwept(t, g, w, p, Swept(t.stats, g.key, g.order, w, p), st)
    requires l.node in t.stats && Child(t.stats, l.node, l.slot) == Some(x)
    requires forall m, j :: m in t.stats && Child(t.stats, m, j) == Some(x) ==> Link(m, j) == l
    requires l.node in st ==> l.slot < |st[l.node].slots|
    requires v == SweptSlot(t.stats[l.node].slots[l.slot], g.order, k, (if evict then Swept(t.stats, g.key, g.order, w, p) + Sub(g.key, x) else Swept(t.stats, g.key, g.order, w, p)), w)
    requires forall m :: m in st2 ==>
      m in st && st2[m].parent == st[m].parent &&
      st2[m].slots == (if m == l.node then st[m].slots[l.slot := v] else st[m].slots)
    requires evict ==> forall m :: m in st2 ==> m !in Sub(g.key, x)
    ensures SlotsSwept(t, g, w, k, (if evict then Swept(t.stats, g.key, g.order, w, p) + Sub(g.key, x) else Swept(t.stats, g.key, g.order, w, p)), st2)
  {
    FoldOwnerSlots(t, g, w, k, (if evict then Swept(t.stats, g.key, g.order, w, p) + Sub(g.key, x) else Swept(t.stats, g.key, g.order, w, p)), x, l, v, st, st2);
    SlotsMove(t, g, w, k, p, evict, st, st2);
  }

  /** The nodes fold removes: every node at or below a node that is idle when the sweep reaches it. */
  ghost function Evicted(t: Table, g: Layout, w: Sweep): set<nat> {
    Swept(t.stats, g.key, g.order, w, 0)
  }

  /**
   * A slot of a node that survives fold: a counter with a next level has been decayed, and
   * has lost its next level if that node was removed; any other slot is as it was.
   */
  function FoldedSlot(v: Option<Counter>, r: set<nat>, w: Sweep): Option<Counter> {
    if v.Some? && v.value.nextLevel.Some? then
      Some(Decayed(v.value, w).(nextLevel := if v.value.nextLevel.value in r then None else v.value.nextLevel))
    else v
  }

  /**
   * What `IPRateMonitor::fold` leaves: the subtrees of the nodes found idle are gone from the
   * arena, the age list, the prefixes and the counters; every survivor keeps its owner and its
   * slots are as `FoldedSlot` says; `_prev_deleted` is null; and the monitor is well formed.
   */
  ghost predicate Folded(t: Table, g: Layout, sz: Sizes, w: Sweep, t2: Table, g2: Layout) {
    FoldedFrame(t, g, w, t2, g2) && Good(t2, g2, sz)
  }

  /** The part of `Folded` that does not speak of the shape invariant. */
  ghost predicate FoldedFrame(t: Table, g: Layout, w: Sweep, t2: Table, g2: Layout) {
    var r := Evicted(t, g, w);
    t2.base == t.base && t2.nextId == t.nextId && t2.prevDeleted.None? &&
    t2.stats.Keys == t.stats.Keys - r && g2.order == Without(g.order, r) && g2.key == g.key - r &&
    g2.counters == g.counters - LinksIn(g.counters, r) &&
    forall m :: m in t2.stats ==>
      m in t.stats && t2.stats[m].parent == t.stats[m].parent && |t2.stats[m].slots| == |t.stats[m].slots| &&
      forall j :: 0 <= j < |t.stats[m].slots| ==> t2.stats[m].slots[j] == FoldedSlot(t.stats[m].slots[j], r, w)
  }

  /** Dropping no node changes nothing. */
  lemma DropNothing(keys: set<nat>, order: seq<nat>, key: map<nat, seq<nat>>, counters: set<Link>)
    ensures keys == keys - {} && order == Without(order, {}) && key == key - {}
    ensures counters == counters - LinksIn(counters, {})
  {
    WithoutNothing(order, {});
    assert LinksIn(counters, {}) == {};
  }

  /** Before the sweep: nothing removed, the cursor at `_last`, `_prev_deleted` null. */
  lemma FoldStart(t: Table, g: Layout, sz: Sizes, w: Sweep, u: Table)
    requires Good(t, g, sz) && u == t.(prevDeleted := None)
    ensures Folding(t, g, sz, w, |g.order|, t.last, u, g)
  {
    FoldStartFrame(t, g, w, u);
    GoodPrev(t, g, sz, u);
  }

  lemma FoldStartFrame(t: Table, g: Layout, w: Sweep, u: Table)
    requires t.last == LastOf(g.order) && u == t.(prevDeleted := None)
    ensures FoldingFrame(t, g, w, |g.order|, t.last, u, g)
  {
    var p := |g.order|;
    var r := Swept(t.stats, g.key, g.order, w, p);
    assert g.order[p..] == [];
    assert r == {};
    DropNothing(t.stats.Keys, g.order, g.key, g.counters);
    assert g.order[..p] == g.order;
    forall m, j | m in u.stats && 0 <= j < |t.stats[m].slots|
      ensures u.stats[m].slots[j] == SweptSlot(t.stats[m].slots[j], g.order, p, r, w)
    {
    }
  }

  /**
   * One turn of fold's loop on the cursor `x`: the root only moves the cursor; any other node
   * has its owning counter decayed, and is deleted with its subtree when both averages are
   * below the threshold. The next cursor is `_prev_deleted`, read after the deletion, and is
   * a live node at an earlier position of the age list.
   */
  method FoldStep(t: Table, ghost g: Layout, sz: Sizes, w: Sweep, ghost p: nat, x: nat, u: Table, ghost h: Layout)
    returns (u2: Table, ghost h2: Layout, ghost k: nat)
    requires Good(t, g, sz) && Folding(t, g, sz, w, p, Some(x), u, h)
    ensures k < p && Folding(t, g, sz, w, k, u2.prevDeleted, u2, h2)
    ensures u2.prevDeleted.Some? ==> u2.prevDeleted.value in u2.stats
  {
    FoldCursor(t, g, w, p, x, u, h);
    k := IndexOf(g.order, x);
    if u.stats[x].parent.None? {
      u2, h2 := u.(prevDeleted := u.stats[x].prev), h;
      FoldRoot(t, g, sz, w, p, x, u, h, u2);
    } else {
      u2, h2 := FoldOwned(t, g, sz, w, p, x, u, h);
    }
    CursorLive(t, g, w, k, u2, h2);
  }

  /** The step on a non-root cursor `x`: decay its owning counter, then delete `x` or move on. */
  method FoldOwned(t: Table, ghost g: Layout, sz: Sizes, w: Sweep, ghost p: nat, x: nat, u: Table, ghost h: Layout)
    returns (u2: Table, ghost h2: Layout)
    requires Good(t, g, sz) && Folding(t, g, sz, w, p, Some(x), u, h)
    requires x in u.stats && u.stats[x].parent.Some?
    ensures Folding(t, g, sz, w, IndexOf(g.order, x), u2.prevDeleted, u2, h2)
  {
    FoldCursor(t, g, w, p, x, u, h);
    FoldOwner(t, g, w, p, x, u, h);
    var l := u.stats[x].parent.value;
    var u1 := DecayOwner(u, w, x);
    if Quiet(u1.stats[l.node].slots[l.slot].value, w.thresh) {
      u2, h2 := FoldEvict(t, g, sz, w, p, x, u, h, u1);
    } else {
      u2, h2 := u1.(prevDeleted := u1.stats[x].prev), h;
      FoldKeep(t, g, sz, w, p, x, u, h, u1, u2);
    }
  }

  /** The two `update(now, 0)` calls on the owning counter of `x`. */
  method DecayOwner(u: Table, w: Sweep, x: nat) returns (u1: Table)
    requires HasOwner(u.stats, x)
    ensures OwnerDecayed(u, w, x, u1)
  {
    var l := u.stats[x].parent.value;
    var c := u.stats[l.node].slots[l.slot].value;
    c := c.(fwd := w.update(c.fwd, w.now, 0));
    c := c.(rev := w.update(c.rev, w.now, 0));
    u1 := u.(stats := u.stats[l.node := u.stats[l.node].(slots := u.stats[l.node].slots[l.slot := Some(c)])]);
  }

  /** `_prev_deleted` is not part of the shape invariant. */
  lemma GoodPrev(t: Table, g: Layout, sz: Sizes, t2: Table)
    requires Good(t, g, sz) && t2 == t.(prevDeleted := t2.prevDeleted)
    ensures Good(t2, g, sz)
  {
  }

  /** The step on the root. */
  lemma FoldRoot(t: Table, g: Layout, sz: Sizes, w: Sweep, p: nat, x: nat, u: Table, h: Layout, u2: Table)
    requires Good(t, g, sz) && Folding(t, g, sz, w, p, Some(x), u, h)
    requires x in u.stats && u.stats[x].parent.None? && u2 == u.(prevDeleted := u.stats[x].prev)
    ensures Folding(t, g, sz, w, IndexOf(g.order, x), u2.prevDeleted, u2, h)
  {
    FoldCursor(t, g, w, p, x, u, h);
    FoldRootFrame(t, g, w, p, x, u, h, u2);
    GoodPrev(u, h, sz, u2);
  }

  /** The step that keeps the non-root cursor `x`. */
  lemma FoldKeep(t: Table, g: Layout, sz: Sizes, w: Sweep, p: nat, x: nat, u: Table, h: Layout, u1: Table, u2: Table)
    requires Good(t, g, sz) && Folding(t, g, sz, w, p, Some(x), u, h)
    requires x in u.stats && u.stats[x].parent.Some? && OwnerDecayed(u, w, x, u1)
    requires var l := u.stats[x].parent.value; !Quiet(u1.stats[l.node].slots[l.slot].value, w.thresh)
    requires u2 == u1.(prevDeleted := u1.stats[x].prev)
    ensures Folding(t, g, sz, w, IndexOf(g.order, x), u2.prevDeleted, u2, h)
  {
    FoldCursor(t, g, w, p, x, u, h);
    DecayGood(u, h, sz, w, x, u1);
    FoldKeepFrame(t, g, w, p, x, u, h, u1, u2);
    GoodPrev(u1, h, sz, u2);
  }

  /** The step that deletes the non-root cursor `x` and its subtree: `delete s`. */
  method FoldEvict(t: Table, ghost g: Layout, sz: Sizes, w: Sweep, ghost p: nat, x: nat, u: Table, ghost h: Layout, u1: Table)
    returns (u2: Table, ghost h2: Layout)
    requires Good(t, g, sz) && Folding(t, g, sz, w, p, Some(x), u, h)
    requires x in u.stats && u.stats[x].parent.Some? && OwnerDecayed(u, w, x, u1)
    requires var l := u.stats[x].parent.value; Quiet(u1.stats[l.node].slots[l.slot].value, w.thresh)
    ensures Folding(t, g, sz, w, IndexOf(g.order, x), u2.prevDeleted, u2, h2)
  {
    FoldCursor(t, g, w, p, x, u, h);
    FoldOwner(t, g, w, p, x, u, h);
    DecayGood(u, h, sz, w, x, u1);
    u2, h2 := DeleteStats(u1, h, sz, x);
    FoldEvictFrame(t, g, w, p, x, u, h, u1, u2, h2);
  }

  /** A cursor that is not null is a live node. */
  lemma CursorLive(t: Table, g: Layout, w: Sweep, k: nat, u: Table, h: Layout)
    requires Distinct(g.order) && t.stats.Keys == Members(g.order) && FoldingFrame(t, g, w, k, u.prevDeleted, u, h)
    ensures u.prevDeleted.Some? ==> u.prevDeleted.value in u.stats
  {
    if u.prevDeleted.Some? {
      FoldCursor(t, g, w, k, u.prevDeleted.value, u, h);
    }
  }

  /**
   * `IPRateMonitor::fold(thresh)`: sweep the age list backwards from `_last`, deleting with its
   * subtree every node whose owning counter, decayed at `now`, has both averages below
   * `thresh`. The root is never deleted and every cursor is a live node.
   */
  method Fold(t: Table, ghost g: Layout, sz: Sizes, thresh: int, now: int, update: Update)
    returns (t2: Table, ghost g2: Layout)
    requires Good(t, g, sz)
    ensures Folded(t, g, sz, Sweep(thresh, now, update), t2, g2)
  {
    var w := Sweep(thresh, now, update);
    var u := t.(prevDeleted := None);
    FoldStart(t, g, sz, w, u);
    t2, g2 := FoldFrom(t, g, sz, w, |g.order|, t.last, u, g);
  }

  /** The loop of fold, from the cursor `s0` on. */
  method FoldFrom(t: Table, ghost g: Layout, sz: Sizes, w: Sweep, ghost p0: nat, s0: Option<nat>, u0: Table, ghost h0: Layout)
    returns (u: Table, ghost h: Layout)
    requires Good(t, g, sz) && Folding(t, g, sz, w, p0, s0, u0, h0)
    ensures Folded(t, g, sz, w, u, h)
  {
    u, h := u0, h0;
    var s := s0;
    ghost var p := p0;
    while s.Some?
      invariant Folding(t, g, sz, w, p, s, u, h)
      decreases p
    {
      ghost var k;
      u, h, k := FoldStep(t, g, sz, w, p, s.value, u, h);
      p, s := k, u.prevDeleted;
    }
    FoldDone(t, g, sz, w, p, u, h);
  }

  /** When the cursor runs out, every position has been dealt with. */
  lemma FoldDone(t: Table, g: Layout, sz: Sizes, w: Sweep, p: nat, u: Table, h: Layout)
    requires Good(t, g, sz) && Folding(t, g, sz, w, p, None, u, h)
    ensures Folded(t, g, sz, w, u, h)
  {
    FoldDoneFrame(t, g, w, p, u, h);
  }

  lemma FoldDoneFrame(t: Table, g: Layout, w: Sweep, p: nat, u: Table, h: Layout)
    requires Distinct(g.order) && t.stats.Keys == Members(g.order) && TreeShape(t.stats, g.key, t.base, t.nextId)
    requires FoldingFrame(t, g, w, p, None, u, h) && u.prevDeleted.None?
    ensures FoldedFrame(t, g, w, u, h)
  {
    var r := Swept(t.stats, g.key, g.order, w, p);
    forall j | 0 <= j < p ensures g.order[j] in r {
      assert g.order[j] in g.order[..p];
      WithoutIn(g.order[..p], r, g.order[j]);
    }
    SweptDown(t.stats, g.key, g.order, w, p);
    forall m, j | m in u.stats && 0 <= j < |t.stats[m].slots|
      ensures u.stats[m].slots[j] == FoldedSlot(t.stats[m].slots[j], r, w)
    {
      var v := t.stats[m].slots[j];
      if v.Some? && v.value.nextLevel.Some? {
        var y := v.value.nextLevel.value;
        assert NodeShaped(t.stats, g.key, t.nextId, m);
        assert ChildLinked(t.stats, m, j);
        InSuffix(g.order, p, y);
        assert y in g.order[p..] by {
          if IndexOf(g.order, y) < p {
            assert g.order[IndexOf(g.order, y)] in r;
            SurvivorChild(t.stats, g.key, t.base, t.nextId, g.order, w, p, m, j);
          }
        }
      }
    }
  }

  /** Fold never deletes the root: the root has no owning counter, and nothing is above it. */
  lemma RootSurvives(t: Table, g: Layout, sz: Sizes, w: Sweep, t2: Table, g2: Layout)
    requires Good(t, g, sz) && Folded(t, g, sz, w, t2, g2)
    ensures t.base !in Evicted(t, g, w) && t2.base == t.base && t.base in t2.stats
  {
    forall a | a in g.order && Idle(t.stats, w, a) ensures t.base !in Sub(g.key, a) {
      assert t.base in Sub(g.key, a) ==> SameKey(g.key, a, t.base);
    }
  }

  /**
   * The rule fold applies, seen from the result: a node whose owning counter, decayed, is
   * quiet is gone; a node that is left other than the root has its owning counter decayed
   * in place, still leading to it, and not quiet.
   */
  lemma FoldRule(t: Table, g: Layout, sz: Sizes, w: Sweep, t2: Table, g2: Layout, m: nat)
    requires Good(t, g, sz) && Folded(t, g, sz, w, t2, g2) && m in t.stats
    ensures Idle(t.stats, w, m) ==> m !in t2.stats
    ensures m in t2.stats && m != t.base ==>
      HasOwner(t.stats, m) &&
      var l := t.stats[m].parent.value;
      var c := Decayed(t.stats[l.node].slots[l.slot].value, w);
      t2.stats[m].parent == Some(l) && l.node in t2.stats && l.slot < |t2.stats[l.node].slots| &&
      t2.stats[l.node].slots[l.slot] == Some(c) && !Quiet(c, w.thresh)
  {
    FoldIdleGone(t, g, w, t2, g2, m);
    if m in t2.stats && m != t.base {
      FoldKept(t, g, w, t2, g2, m);
    }
  }

  lemma FoldIdleGone(t: Table, g: Layout, w: Sweep, t2: Table, g2: Layout, m: nat)
    requires FoldedFrame(t, g, w, t2, g2) && t.stats.Keys == Members(g.order) && g.key.Keys == t.stats.Keys && m in t.stats
    ensures Idle(t.stats, w, m) ==> m !in t2.stats
  {
    assert m in g.order[0..] && m in Sub(g.key, m);
  }

  lemma FoldKept(t: Table, g: Layout, w: Sweep, t2: Table, g2: Layout, m: nat)
    requires FoldedFrame(t, g, w, t2, g2) && t.stats.Keys == Members(g.order)
    requires TreeShape(t.stats, g.key, t.base, t.nextId) && TreeShape(t2.stats, g2.key, t2.base, t2.nextId)
    requires m in t2.stats && m != t.base
    ensures HasOwner(t.stats, m) &&
      var l := t.stats[m].parent.value;
      var c := Decayed(t.stats[l.node].slots[l.slot].value, w);
      t2.stats[m].parent == Some(l) && l.node in t2.stats && l.slot < |t2.stats[l.node].slots| &&
      t2.stats[l.node].slots[l.slot] == Some(c) && !Quiet(c, w.thresh)
  {
    var r := Evicted(t, g, w);
    assert OwnedBy(t.stats, g.key, m);
    assert OwnedBy(t2.stats, g2.key, m);
    var l := t.stats[m].parent.value;
    assert t2.stats[l.node].slots[l.slot] == FoldedSlot(t.stats[l.node].slots[l.slot], r, w);
    assert m in g.order[0..] && m in Sub(g.key, m);
  }

  /** Fold gives back exactly the memory of the nodes and counters it deletes. */
  lemma FoldCharge(t: Table, g: Layout, sz: Sizes, w: Sweep, t2: Table, g2: Layout)
    requires Good(t, g, sz) && Folded(t, g, sz, w, t2, g2)
    ensures t2.allocedMem == t.allocedMem - Charge(|Evicted(t, g, w)|, sz.ofStats) -
      Charge(|LinksIn(g.counters, Evicted(t, g, w))|, sz.ofCounter)
  {
    var r := Evicted(t, g, w);
    assert r <= t.stats.Keys;
    MemAfterDrop(t.stats.Keys, r, g.counters, LinksIn(g.counters, r), sz, t.allocedMem,
                 t2.stats.Keys, g2.counters, t2.allocedMem);
  }
}
