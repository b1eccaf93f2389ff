/**
 * The invariant of the monitor's structure, stated over plain values so that each step of an
 * operation can be proved about the values before and after it.
 */
module Shape {
  import opened Wrappers
  import opened Sequences
  import opened Trie

  /** The bytes that `count` allocations of `size` bytes each take. */
  function Charge(count: nat, size: nat): nat {
    count * size
  }

  /** Allocations add up. */
  lemma ChargeAdd(a: nat, b: nat, size: nat)
    ensures Charge(a + b, size) == Charge(a, size) + Charge(b, size)
  {
    assert (a + b) * size == a * size + b * size;
  }

  /** sizeof(Stats) and sizeof(Counter), as symbolic byte counts. */
  datatype Sizes = Sizes(ofStats: nat, ofCounter: nat)

  /**
   * The monitor's mutable state: the arena of live `Stats` nodes, `_base`, `_first`, `_last`,
   * `_prev_deleted`, `_alloced_mem`, and the number the next allocated node gets.
   */
  datatype Table = Table(stats: map<nat, Stats>, base: nat, first: Option<nat>, last: Option<nat>,
                         prevDeleted: Option<nat>, allocedMem: int, nextId: nat)

  /**
   * The bookkeeping that explains a table: the age list from `_first` to `_last`, the address
   * prefix of every node (the slot numbers on the way down from the root) and every populated slot.
   */
  datatype Layout = Layout(order: seq<nat>, key: map<nat, seq<nat>>, counters: set<Link>)

  /** The node at position `k` of the age list `order` points to its neighbours there. */
  ghost predicate LinkedAt(stats: map<nat, Stats>, order: seq<nat>, k: nat) {
    k < |order| && order[k] in stats &&
    stats[order[k]].prev == (if k == 0 then None else Some(order[k - 1])) &&
    stats[order[k]].next == (if k == |order| - 1 then None else Some(order[k + 1]))
  }

  /**
   * The age list: `order` holds every node once, `_first`/`_last` are its ends, and the
   * `_prev`/`_next` links of every node are its neighbours in `order`.
   */
  ghost predicate ListShape(stats: map<nat, Stats>, order: seq<nat>, first: Option<nat>, last: Option<nat>) {
    Distinct(order) &&
    stats.Keys == Members(order) &&
    first == FirstOf(order) && last == LastOf(order) &&
    forall k :: 0 <= k < |order| ==> LinkedAt(stats, order, k)
  }

  /** Node `n` is numbered below `bound`, has MAX_COUNTERS slots and a key made of slot numbers. */
  ghost predicate NodeShaped(stats: map<nat, Stats>, key: map<nat, seq<nat>>, bound: nat, n: nat) {
    n in stats && n in key && n < bound && |stats[n].slots| == MAX_COUNTERS &&
    forall t :: 0 <= t < |key[n]| ==> key[n][t] < MAX_COUNTERS
  }

  /** Node `n` hangs from a counter of a lower-numbered node, and its key extends that node's key by the slot. */
  ghost predicate OwnedBy(stats: map<nat, Stats>, key: map<nat, seq<nat>>, n: nat) {
    n in stats && n in key && stats[n].parent.Some? &&
    var l := stats[n].parent.value;
    l.node in stats && l.node in key && l.node < n && l.slot < |stats[l.node].slots| &&
    stats[l.node].slots[l.slot].Some? && stats[l.node].slots[l.slot].value.nextLevel == Some(n) &&
    key[n] == key[l.node] + [l.slot]
  }

  /** The next level of slot `j` of node `n`, if any, is a node whose owning counter is that slot. */
  ghost predicate ChildLinked(stats: map<nat, Stats>, n: nat, j: nat) {
    n in stats && j < |stats[n].slots| &&
    (stats[n].slots[j].Some? && stats[n].slots[j].value.nextLevel.Some? ==>
      var x := stats[n].slots[j].value.nextLevel.value;
      x in stats && stats[x].parent == Some(Link(n, j)))
  }

  /** Nodes `a` and `b` have the same address prefix. */
  ghost predicate SameKey(key: map<nat, seq<nat>>, a: nat, b: nat) {
    a in key && b in key && key[a] == key[b]
  }

  /** The trie: a root without owner, parent and child links that agree, and one node per key. */
  ghost predicate TreeShape(stats: map<nat, Stats>, key: map<nat, seq<nat>>, base: nat, bound: nat) {
    base in stats && stats[base].parent.None? &&
    key.Keys == stats.Keys && key[base] == [] &&
    (forall n {:trigger NodeShaped(stats, key, bound, n)} :: n in stats ==> NodeShaped(stats, key, bound, n)) &&
    (forall n {:trigger OwnedBy(stats, key, n)} :: n in stats && n != base ==> OwnedBy(stats, key, n)) &&
    (forall n, j {:trigger ChildLinked(stats, n, j)} :: n in stats && 0 <= j < MAX_COUNTERS ==> ChildLinked(stats, n, j)) &&
    (forall a, b {:trigger SameKey(key, a, b)} :: SameKey(key, a, b) ==> a == b)
  }

  /** Slot `l.slot` of node `l.node` holds a counter. */
  ghost predicate Populated(stats: map<nat, Stats>, l: Link) {
    l.node in stats && l.slot < |stats[l.node].slots| && stats[l.node].slots[l.slot].Some?
  }

  /**
   * `counters` is the set of populated slots, and the allocated bytes are sizeof(Stats) per
   * node plus sizeof(Counter) per counter.
   */
  ghost predicate MemShape(stats: map<nat, Stats>, counters: set<Link>, mem: int, statsSize: nat, counterSize: nat) {
    (forall l {:trigger l in counters} :: l in counters <==> Populated(stats, l)) &&
    mem == Charge(|stats.Keys|, statsSize) + Charge(|counters|, counterSize)
  }

  /** A well-formed monitor: the age list, the trie and the memory count all agree with the layout. */
  ghost predicate Good(t: Table, g: Layout, sz: Sizes) {
    ListShape(t.stats, g.order, t.first, t.last) &&
    TreeShape(t.stats, g.key, t.base, t.nextId) &&
    MemShape(t.stats, g.counters, t.allocedMem, sz.ofStats, sz.ofCounter)
  }
}

/** The last steps of `Stats::~Stats` on a node whose slots are already empty, proved on values. */
module Surgery {
  import opened Wrappers
  import opened Sequences
  import opened Trie
  import opened Shape

  /** How the destructor rewrites the age-list links of the surviving nodes when it unlinks `c`. */
  ghost predicate Relinked(stats: map<nat, Stats>, c: nat, stats2: map<nat, Stats>)
    requires c in stats
  {
    stats2.Keys == stats.Keys - {c} &&
    forall m :: m in stats2 ==>
      stats2[m].prev == (if Some(m) == stats[c].next then stats[c].prev else stats[m].prev) &&
      stats2[m].next == (if Some(m) == stats[c].prev then stats[c].next else stats[m].next)
  }

  /** After unlinking position `k`, what was position `j` (now `t`) points to its new neighbours. */
  lemma UnlinkAt(stats: map<nat, Stats>, order: seq<nat>, k: nat, stats2: map<nat, Stats>, t: nat)
    requires Distinct(order) && k < |order| && t < |order| - 1
    requires LinkedAt(stats, order, k) && LinkedAt(stats, order, if t < k then t else t + 1)
    requires Relinked(stats, order[k], stats2)
    ensures LinkedAt(stats2, order[..k] + order[k + 1..], t)
  {
    var order2 := order[..k] + order[k + 1..];
    var j := if t < k then t else t + 1;
    assert order2[t] == order[j];
    if order[j] == order[k] { DistinctAt(order, j, k); }
    assert order[j] in stats2;
    if k + 1 < |order| && order[j] == order[k + 1] { DistinctAt(order, j, k + 1); }
    if k > 0 && order[j] == order[k - 1] { DistinctAt(order, j, k - 1); }
    if t > 0 {
      assert order2[t - 1] == (if t - 1 < k then order[t - 1] else order[t]);
    }
    if t < |order2| - 1 {
      assert order2[t + 1] == (if t + 1 < k then order[t + 1] else order[t + 2]);
    }
  }

  /** The ends of the age list after unlinking position `k`. */
  lemma UnlinkEnds(stats: map<nat, Stats>, order: seq<nat>, first: Option<nat>, last: Option<nat>, k: nat,
                   first2: Option<nat>, last2: Option<nat>)
    requires k < |order| && first == FirstOf(order) && last == LastOf(order)
    requires LinkedAt(stats, order, k)
    requires first2 == (if stats[order[k]].prev.None? then stats[order[k]].next else first)
    requires last2 == (if stats[order[k]].next.None? then stats[order[k]].prev else last)
    ensures first2 == FirstOf(order[..k] + order[k + 1..]) && last2 == LastOf(order[..k] + order[k + 1..])
  {
    var order2 := order[..k] + order[k + 1..];
    if k == 0 {
      assert order2 == order[1..];
    } else {
      assert order2[0] == order[0];
    }
    if k == |order| - 1 {
      assert order2 == order[..k];
    } else {
      assert order2[|order2| - 1] == order[|order| - 1];
    }
  }

  /** The nodes of the age list after unlinking position `k`: all but that one, each once. */
  lemma UnlinkMembers(stats: map<nat, Stats>, order: seq<nat>, k: nat, stats2: map<nat, Stats>)
    requires Distinct(order) && k < |order| && stats.Keys == Members(order)
    requires stats2.Keys == stats.Keys - {order[k]}
    ensures Without(order, {order[k]}) == order[..k] + order[k + 1..]
    ensures Distinct(order[..k] + order[k + 1..])
    ensures stats2.Keys == Members(order[..k] + order[k + 1..])
  {
    var c := order[k];
    Unrepeated(order, k);
    RemoveAt(order, k);
    WithoutDistinct(order, {c});
    forall n ensures n in Members(Without(order, {c})) <==> n in stats2 {
      WithoutIn(order, {c}, n);
    }
  }

  /**
   * Removing the node at position `k` of the age list the way the destructor does (its
   * predecessor's `_next` or else `_first` becomes its successor; its successor's `_prev` or
   * else `_last` becomes its predecessor) leaves the age list without that node, and the walk
   * from `_first` still ends at `_last`.
   */
  lemma UnlinkList(stats: map<nat, Stats>, order: seq<nat>, first: Option<nat>, last: Option<nat>, k: nat,
                   stats2: map<nat, Stats>, first2: Option<nat>, last2: Option<nat>)
    requires ListShape(stats, order, first, last) && k < |order|
    requires Relinked(stats, order[k], stats2)
    requires first2 == (if stats[order[k]].prev.None? then stats[order[k]].next else first)
    requires last2 == (if stats[order[k]].next.None? then stats[order[k]].prev else last)
    ensures ListShape(stats2, order[..k] + order[k + 1..], first2, last2)
    ensures Without(order, {order[k]}) == order[..k] + order[k + 1..]
  {
    var order2 := order[..k] + order[k + 1..];
    assert LinkedAt(stats, order, k);
    UnlinkMembers(stats, order, k, stats2);
    UnlinkEnds(stats, order, first, last, k, first2, last2);
    forall t | 0 <= t < |order2| ensures LinkedAt(stats2, order2, t) {
      assert LinkedAt(stats, order, if t < k then t else t + 1);
      UnlinkAt(stats, order, k, stats2, t);
    }
  }

  /** The owning counter of `c` as reached through its `_parent` link. */
  ghost predicate HasOwner(stats: map<nat, Stats>, c: nat) {
    c in stats && stats[c].parent.Some? &&
    var l := stats[c].parent.value;
    l.node in stats && l.slot < |stats[l.node].slots| && stats[l.node].slots[l.slot].Some?
  }

  /**
   * How the destructor changes the slots and owners of the nodes that survive it when it
   * deletes `c`: only the owning counter of `c` changes, and only its `next_level`, which
   * becomes null.
   */
  ghost predicate Pruned(stats: map<nat, Stats>, c: nat, stats2: map<nat, Stats>) {
    HasOwner(stats, c) &&
    var l := stats[c].parent.value;
    var owner := stats[l.node].slots[l.slot].value;
    forall m :: m in stats2 ==>
      m in stats && stats2[m].parent == stats[m].parent &&
      stats2[m].slots == (if m == l.node then stats[m].slots[l.slot := Some(owner.(nextLevel := None))] else stats[m].slots)
  }

  /** The empty node `c` is gone and the other nodes are pruned as the destructor prunes them. */
  ghost predicate Detached(stats: map<nat, Stats>, c: nat, stats2: map<nat, Stats>) {
    stats2.Keys == stats.Keys - {c} && Pruned(stats, c, stats2)
  }

  lemma DetachOwnedAt(stats: map<nat, Stats>, key: map<nat, seq<nat>>, c: nat, stats2: map<nat, Stats>, n: nat)
    requires c in stats && AllEmpty(stats[c].slots) && OwnedBy(stats, key, c)
    requires Detached(stats, c, stats2) && n in stats2 && OwnedBy(stats, key, n)
    ensures OwnedBy(stats2, key - {c}, n)
  {
    var l, l2 := stats[c].parent.value, stats[n].parent.value;
    assert l2.node != c;
    assert l2 != l;
  }

  lemma DetachChildAt(stats: map<nat, Stats>, c: nat, stats2: map<nat, Stats>, n: nat, j: nat)
    requires Detached(stats, c, stats2) && n in stats2
    requires ChildLinked(stats, n, j)
    ensures ChildLinked(stats2, n, j)
  {
  }

  /** What the four updates of the destructor for `c` do to one surviving node `m`. */
  lemma SurgeryAt(st0: map<nat, Stats>, c: nat, st1: map<nat, Stats>, st2: map<nat, Stats>, st3: map<nat, Stats>, st4: map<nat, Stats>, m: nat)
    requires HasOwner(st0, c) && (st0[c].prev.Some? ==> st0[c].prev.value in st0 && st0[c].prev.value != c) &&
      (st0[c].next.Some? ==> st0[c].next.value in st0 && st0[c].next.value != c) && st0[c].parent.value.node != c
    requires var me := st0[c];
      st1 == (if me.prev.Some? then st0[me.prev.value := st0[me.prev.value].(next := me.next)] else st0)
    requires var me := st0[c];
      st2 == (if me.next.Some? then st1[me.next.value := st1[me.next.value].(prev := me.prev)] else st1)
    requires var l := st0[c].parent.value;
      (l.node in st2 && l.slot < |st2[l.node].slots| && st2[l.node].slots[l.slot].Some? &&
       st3 == st2[l.node := st2[l.node].(slots := st2[l.node].slots[l.slot := Some(st2[l.node].slots[l.slot].value.(nextLevel := None))])])
    requires st4 == st3 - {c}
    requires m in st4
    ensures m in st0 && st4[m].parent == st0[m].parent
    ensures st4[m].prev == (if Some(m) == st0[c].next then st0[c].prev else st0[m].prev)
    ensures st4[m].next == (if Some(m) == st0[c].prev then st0[c].next else st0[m].next)
    ensures var l := st0[c].parent.value;
      st4[m].slots == (if m == l.node then st0[m].slots[l.slot := Some(st0[m].slots[l.slot].value.(nextLevel := None))] else st0[m].slots)
  {
    assert st4[m] == st3[m];
    assert st3[m].prev == st2[m].prev && st3[m].next == st2[m].next && st3[m].parent == st2[m].parent;
    assert st2[m].next == st1[m].next && st2[m].parent == st1[m].parent && st2[m].slots == st1[m].slots;
    assert st1[m].prev == st0[m].prev && st1[m].parent == st0[m].parent && st1[m].slots == st0[m].slots;
  }

  /**
   * The four updates the destructor makes for `c` (predecessor's `_next`, successor's `_prev`,
   * owner's `next_level`, then the release of `c`) relink the age list and detach `c`.
   */
  lemma SurgerySteps(st0: map<nat, Stats>, c: nat, st1: map<nat, Stats>, st2: map<nat, Stats>, st3: map<nat, Stats>, st4: map<nat, Stats>)
    requires HasOwner(st0, c) && (st0[c].prev.Some? ==> st0[c].prev.value in st0 && st0[c].prev.value != c) &&
      (st0[c].next.Some? ==> st0[c].next.value in st0 && st0[c].next.value != c) && st0[c].parent.value.node != c
    requires var me := st0[c];
      st1 == (if me.prev.Some? then st0[me.prev.value := st0[me.prev.value].(next := me.next)] else st0)
    requires var me := st0[c];
      st2 == (if me.next.Some? then st1[me.next.value := st1[me.next.value].(prev := me.prev)] else st1)
    requires var l := st0[c].parent.value;
      (l.node in st2 && l.slot < |st2[l.node].slots| && st2[l.node].slots[l.slot].Some? &&
       st3 == st2[l.node := st2[l.node].(slots := st2[l.node].slots[l.slot := Some(st2[l.node].slots[l.slot].value.(nextLevel := None))])])
    requires st4 == st3 - {c}
    ensures Relinked(st0, c, st4) && Detached(st0, c, st4)
  {
    forall m | m in st4
      ensures m in st0 && st4[m].parent == st0[m].parent
      ensures st4[m].prev == (if Some(m) == st0[c].next then st0[c].prev else st0[m].prev)
      ensures st4[m].next == (if Some(m) == st0[c].prev then st0[c].next else st0[m].next)
      ensures var l := st0[c].parent.value;
        st4[m].slots == (if m == l.node then st0[m].slots[l.slot := Some(st0[m].slots[l.slot].value.(nextLevel := None))] else st0[m].slots)
    {
      SurgeryAt(st0, c, st1, st2, st3, st4, m);
    }
  }

  /** Removing an empty non-root node and nulling its owner's `next_level` keeps the trie well formed. */
  lemma DetachTree(stats: map<nat, Stats>, key: map<nat, seq<nat>>, base: nat, bound: nat, c: nat, stats2: map<nat, Stats>)
    requires TreeShape(stats, key, base, bound) && c in stats && c != base && AllEmpty(stats[c].slots)
    requires OwnedBy(stats, key, c) && Detached(stats, c, stats2)
    ensures TreeShape(stats2, key - {c}, base, bound)
  {
    var key2 := key - {c};
    forall n | n in stats2 ensures NodeShaped(stats2, key2, bound, n) {
      assert NodeShaped(stats, key, bound, n);
    }
    forall n | n in stats2 && n != base ensures OwnedBy(stats2, key2, n) {
      assert OwnedBy(stats, key, n);
      DetachOwnedAt(stats, key, c, stats2, n);
    }
    forall n, j | n in stats2 && 0 <= j < MAX_COUNTERS ensures ChildLinked(stats2, n, j) {
      assert ChildLinked(stats, n, j);
      DetachChildAt(stats, c, stats2, n, j);
    }
    forall a, b | SameKey(key2, a, b) ensures a == b {
      assert SameKey(key, a, b);
    }
  }

  /** Removing an empty node releases exactly sizeof(Stats) and no counter. */
  lemma DetachMem(stats: map<nat, Stats>, counters: set<Link>, mem: int, statsSize: nat, counterSize: nat,
                  c: nat, stats2: map<nat, Stats>)
    requires MemShape(stats, counters, mem, statsSize, counterSize) && c in stats && AllEmpty(stats[c].slots)
    requires Detached(stats, c, stats2)
    ensures MemShape(stats2, counters, mem - statsSize, statsSize, counterSize)
  {
    forall l | true ensures l in counters <==> Populated(stats2, l) {
      assert l in counters <==> Populated(stats, l);
      if l.node == c {
        assert l.slot >= |stats[c].slots| || stats[c].slots[l.slot].None?;
      }
    }
    assert stats2.Keys + {c} == stats.Keys;
    ChargeAdd(|stats2.Keys|, 1, statsSize);
  }
  /**
   * The tail of the destructor on an empty non-root node `c`, as the four updates it makes:
   * the age list loses `c`, the trie loses `c` and its owner's `next_level`, and the charge
   * drops by one sizeof(Stats).
   */
  lemma UntangleSound(st0: map<nat, Stats>, order0: seq<nat>, first0: Option<nat>, last0: Option<nat>,
                      key0: map<nat, seq<nat>>, counters: set<Link>, mem0: int, base: nat, bound: nat,
                      statsSize: nat, counterSize: nat, c: nat,
                      st1: map<nat, Stats>, st2: map<nat, Stats>, st3: map<nat, Stats>, st4: map<nat, Stats>,
                      first4: Option<nat>, last4: Option<nat>)
    requires ListShape(st0, order0, first0, last0) && TreeShape(st0, key0, base, bound)
    requires MemShape(st0, counters, mem0, statsSize, counterSize)
    requires c in st0 && c != base && AllEmpty(st0[c].slots)
    requires HasOwner(st0, c) && (st0[c].prev.Some? ==> st0[c].prev.value in st0 && st0[c].prev.value != c) &&
      (st0[c].next.Some? ==> st0[c].next.value in st0 && st0[c].next.value != c) && st0[c].parent.value.node != c
    requires var me := st0[c];
      st1 == (if me.prev.Some? then st0[me.prev.value := st0[me.prev.value].(next := me.next)] else st0)
    requires var me := st0[c];
      st2 == (if me.next.Some? then st1[me.next.value := st1[me.next.value].(prev := me.prev)] else st1)
    requires var l := st0[c].parent.value;
      (l.node in st2 && l.slot < |st2[l.node].slots| && st2[l.node].slots[l.slot].Some? &&
       st3 == st2[l.node := st2[l.node].(slots := st2[l.node].slots[l.slot := Some(st2[l.node].slots[l.slot].value.(nextLevel := None))])])
    requires st4 == st3 - {c}
    requires first4 == (if st0[c].prev.None? then st0[c].next else first0)
    requires last4 == (if st0[c].next.None? then st0[c].prev else last0)
    ensures ListShape(st4, Without(order0, {c}), first4, last4)
    ensures TreeShape(st4, key0 - {c}, base, bound)
    ensures MemShape(st4, counters, mem0 - statsSize, statsSize, counterSize)
    ensures Relinked(st0, c, st4) && Detached(st0, c, st4)
  {
    assert c in Members(order0);
    var k := IndexOf(order0, c);
    assert OwnedBy(st0, key0, c);
    SurgerySteps(st0, c, st1, st2, st3, st4);
    UnlinkList(st0, order0, first0, last0, k, st4, first4, last4);
    DetachTree(st0, key0, base, bound, c, st4);
    DetachMem(st0, counters, mem0, statsSize, counterSize, c, st4);
  }

  /** In a well-formed monitor an empty non-root node has an owner, and its age-list neighbours are other live nodes. */
  lemma UntangleReady(st0: map<nat, Stats>, order0: seq<nat>, first0: Option<nat>, last0: Option<nat>,
                      key0: map<nat, seq<nat>>, base: nat, bound: nat, c: nat)
    requires ListShape(st0, order0, first0, last0) && TreeShape(st0, key0, base, bound)
    requires c in st0 && c != base
    ensures HasOwner(st0, c) && st0[c].parent.value.node != c
    ensures st0[c].prev.Some? ==> st0[c].prev.value in st0 && st0[c].prev.value != c
    ensures st0[c].next.Some? ==> st0[c].next.value in st0 && st0[c].next.value != c
  {
    assert c in Members(order0);
    var k := IndexOf(order0, c);
    assert LinkedAt(st0, order0, k);
    assert OwnedBy(st0, key0, c);
    if k > 0 { assert LinkedAt(st0, order0, k - 1); }
    if k + 1 < |order0| { assert LinkedAt(st0, order0, k + 1); }
  }
}


/** The state `initialize` builds. */
module Root {
  import opened Wrappers
  import opened Sequences
  import opened Trie
  import opened Shape

  /** A lone fresh node numbered 0 is a well-formed monitor whose only charge is one sizeof(Stats). */
  lemma RootShape(s: Stats, statsSize: nat, counterSize: nat)
    requires |s.slots| == MAX_COUNTERS && AllEmpty(s.slots) && s.parent.None? && s.prev.None? && s.next.None?
    ensures ListShape(map[0 := s], [0], Some(0), Some(0))
    ensures TreeShape(map[0 := s], map[0 := []], 0, 1)
    ensures MemShape(map[0 := s], {}, statsSize, statsSize, counterSize)
  {
    var st: map<nat, Stats> := map[0 := s];
    assert LinkedAt(st, [0], 0);
    assert Distinct([0]) by {
      forall i, j | Clash([0], i, j) ensures i == j { }
    }
    assert NodeShaped(st, map[0 := []], 1, 0);
    forall n, j | n in st && 0 <= j < MAX_COUNTERS ensures ChildLinked(st, n, j) { }
    forall l ensures l !in {} <==> !Populated(st, l) {
      assert l.node in st ==> l.node == 0;
    }
    assert st.Keys == {0};
    assert Charge(|st.Keys|, statsSize) == statsSize by {
      assert |st.Keys| == 1;
    }
  }
}
