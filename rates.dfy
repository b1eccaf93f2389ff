/**
 * Rewriting the rates of counters in place (decaying them, or reinitialising them) changes
 * neither the trie, nor the age list, nor the memory count.
 */
module Rates {
  import opened Wrappers
  import opened Sequences
  import opened Trie
  import opened Shape

  /** Two slots that hold a counter alike, with the same next level, or are both empty. */
  ghost predicate Alike(a: Option<Counter>, b: Option<Counter>) {
    a.Some? == b.Some? && (a.Some? ==> a.value.nextLevel == b.value.nextLevel)
  }

  /** Node `m` has the same links and the same kind of slots in `st` and in `st2`. */
  ghost predicate SameShapeAt(st: map<nat, Stats>, st2: map<nat, Stats>, m: nat) {
    m in st && m in st2 &&
    st2[m].parent == st[m].parent && st2[m].prev == st[m].prev && st2[m].next == st[m].next &&
    |st2[m].slots| == |st[m].slots| &&
    forall j :: 0 <= j < |st[m].slots| ==> Alike(st[m].slots[j], st2[m].slots[j])
  }

  /** `st2` differs from `st` at most in the rates its counters hold. */
  ghost predicate SameShape(st: map<nat, Stats>, st2: map<nat, Stats>) {
    st2.Keys == st.Keys && forall m :: m in st ==> SameShapeAt(st, st2, m)
  }

  /** Replacing one counter by a counter with the same next level keeps the shape. */
  lemma SameShapeOne(st: map<nat, Stats>, n: nat, j: nat, v: Option<Counter>, st2: map<nat, Stats>)
    requires n in st && j < |st[n].slots| && Alike(st[n].slots[j], v)
    requires st2 == st[n := st[n].(slots := st[n].slots[j := v])]
    ensures SameShape(st, st2)
  {
    forall m | m in st ensures SameShapeAt(st, st2, m) {
      if m == n {
        forall k | 0 <= k < |st[m].slots| ensures Alike(st[m].slots[k], st2[m].slots[k]) {
          if k != j {
            assert st2[m].slots[k] == st[m].slots[k];
          }
        }
      }
    }
  }

  /** Two shape-preserving rewrites make one. */
  lemma SameShapeTrans(st: map<nat, Stats>, st1: map<nat, Stats>, st2: map<nat, Stats>)
    requires SameShape(st, st1) && SameShape(st1, st2)
    ensures SameShape(st, st2)
  {
    forall m | m in st ensures SameShapeAt(st, st2, m) {
      assert SameShapeAt(st, st1, m) && SameShapeAt(st1, st2, m);
    }
  }

  lemma SameShapeList(st: map<nat, Stats>, order: seq<nat>, first: Option<nat>, last: Option<nat>, st2: map<nat, Stats>)
    requires ListShape(st, order, first, last) && SameShape(st, st2)
    ensures ListShape(st2, order, first, last)
  {
    forall k | 0 <= k < |order| ensures LinkedAt(st2, order, k) {
      assert LinkedAt(st, order, k);
      assert SameShapeAt(st, st2, order[k]);
    }
  }

  lemma SameShapeTree(st: map<nat, Stats>, key: map<nat, seq<nat>>, base: nat, bound: nat, st2: map<nat, Stats>)
    requires TreeShape(st, key, base, bound) && SameShape(st, st2)
    ensures TreeShape(st2, key, base, bound)
  {
    assert SameShapeAt(st, st2, base);
    forall m | m in st2 ensures NodeShaped(st2, key, bound, m) {
      assert NodeShaped(st, key, bound, m);
      assert SameShapeAt(st, st2, m);
    }
    forall m | m in st2 && m != base ensures OwnedBy(st2, key, m) {
      assert OwnedBy(st, key, m);
      var l := st[m].parent.value;
      assert SameShapeAt(st, st2, m) && SameShapeAt(st, st2, l.node);
      assert Alike(st[l.node].slots[l.slot], st2[l.node].slots[l.slot]);
    }
    forall m, j | m in st2 && 0 <= j < MAX_COUNTERS ensures ChildLinked(st2, m, j) {
      assert ChildLinked(st, m, j);
      assert NodeShaped(st, key, bound, m);
      assert SameShapeAt(st, st2, m);
      assert Alike(st[m].slots[j], st2[m].slots[j]);
      if st[m].slots[j].Some? && st[m].slots[j].value.nextLevel.Some? {
        assert SameShapeAt(st, st2, st[m].slots[j].value.nextLevel.value);
      }
    }
  }

  lemma SameShapeMem(st: map<nat, Stats>, counters: set<Link>, mem: int, statsSize: nat, counterSize: nat, st2: map<nat, Stats>)
    requires MemShape(st, counters, mem, statsSize, counterSize) && SameShape(st, st2)
    ensures MemShape(st2, counters, mem, statsSize, counterSize)
  {
    forall l ensures l in counters <==> Populated(st2, l) {
      assert l in counters <==> Populated(st, l);
      if l.node in st {
        assert SameShapeAt(st, st2, l.node);
        if l.slot < |st[l.node].slots| {
          assert Alike(st[l.node].slots[l.slot], st2[l.node].slots[l.slot]);
        }
      }
    }
  }

  /** A monitor whose counters only change their rates stays well formed with the same layout. */
  lemma SameShapeGood(t: Table, g: Layout, sz: Sizes, t2: Table)
    requires Good(t, g, sz) && SameShape(t.stats, t2.stats)
    requires t2.base == t.base && t2.first == t.first && t2.last == t.last &&
      t2.allocedMem == t.allocedMem && t2.nextId == t.nextId
    ensures Good(t2, g, sz)
  {
    SameShapeList(t.stats, g.order, t.first, t.last, t2.stats);
    SameShapeTree(t.stats, g.key, t.base, t.nextId, t2.stats);
    SameShapeMem(t.stats, g.counters, t.allocedMem, sz.ofStats, sz.ofCounter, t2.stats);
  }
}
