/**
 * Subtrees of the counter trie, described through the address prefixes of the layout: the
 * nodes at or below `c` are those whose prefix extends the prefix of `c`.
 */
module Subtrees {
  import opened Wrappers
  import opened Sequences
  import opened Trie
  import opened Shape

  /** The nodes at or below `c`. */
  ghost function Sub(key: map<nat, seq<nat>>, c: nat): set<nat> {
    set m | m in key && c in key && key[c] <= key[m]
  }

  /** The next-level node of slot `j` of node `c`, when that slot holds a counter that has one. */
  function Child(st: map<nat, Stats>, c: nat, j: nat): Option<nat>
    requires c in st
  {
    if j < |st[c].slots| && st[c].slots[j].Some? then st[c].slots[j].value.nextLevel else None
  }

  /** The nodes below the children in slots `0 .. i-1` of `c`. */
  ghost function Below(st: map<nat, Stats>, key: map<nat, seq<nat>>, c: nat, i: nat): set<nat>
    requires c in st
  {
    if i == 0 then {}
    else Below(st, key, c, i - 1) + (if Child(st, c, i - 1).Some? then Sub(key, Child(st, c, i - 1).value) else {})
  }

  /** The child in slot `j` of `c` is a live non-root node numbered above `c` whose prefix is that of `c` and then `j`. */
  lemma ChildKey(st: map<nat, Stats>, key: map<nat, seq<nat>>, base: nat, bound: nat, c: nat, j: nat)
    requires TreeShape(st, key, base, bound) && c in st && Child(st, c, j).Some?
    ensures var x := Child(st, c, j).value;
      x in st && x != base && x in key && c in key && key[x] == key[c] + [j] && c < x && st[x].parent == Some(Link(c, j))
  {
    assert NodeShaped(st, key, bound, c);
    assert ChildLinked(st, c, j);
    var x := Child(st, c, j).value;
    assert OwnedBy(st, key, x);
  }

  /** A node is in its own subtree. */
  lemma SubSelf(key: map<nat, seq<nat>>, c: nat)
    requires c in key
    ensures c in Sub(key, c)
  {
  }

  /** The subtree of a child lies in the subtree of its node and does not hold that node. */
  lemma SubOfChild(st: map<nat, Stats>, key: map<nat, seq<nat>>, base: nat, bound: nat, c: nat, j: nat)
    requires TreeShape(st, key, base, bound) && c in st && Child(st, c, j).Some?
    ensures Sub(key, Child(st, c, j).value) <= Sub(key, c) - {c}
  {
    ChildKey(st, key, base, bound, c, j);
    var x := Child(st, c, j).value;
    forall m | m in Sub(key, x) ensures m in Sub(key, c) && m != c {
      assert key[c] <= key[x] <= key[m];
      assert |key[m]| > |key[c]|;
    }
  }

  /** Subtrees under different slots of one node share no node. */
  lemma ChildrenApart(st: map<nat, Stats>, key: map<nat, seq<nat>>, base: nat, bound: nat, c: nat, j: nat, k: nat)
    requires TreeShape(st, key, base, bound) && c in st && Child(st, c, j).Some? && Child(st, c, k).Some? && j != k
    ensures Sub(key, Child(st, c, j).value) !! Sub(key, Child(st, c, k).value)
  {
    ChildKey(st, key, base, bound, c, j);
    ChildKey(st, key, base, bound, c, k);
    var x, y := Child(st, c, j).value, Child(st, c, k).value;
    forall m | m in Sub(key, x) ensures m !in Sub(key, y) {
      assert key[m][|key[c]|] == key[x][|key[c]|] == j;
    }
  }

  /** The subtree of the child in slot `j` is in what lies below the first `i` slots once `j < i`. */
  lemma {:induction false} BelowHas(st: map<nat, Stats>, key: map<nat, seq<nat>>, c: nat, i: nat, j: nat)
    requires c in st && j < i && Child(st, c, j).Some?
    ensures Sub(key, Child(st, c, j).value) <= Below(st, key, c, i)
  {
    if j < i - 1 {
      BelowHas(st, key, c, i - 1, j);
    }
  }

  /** The subtree of the child in slot `j` shares nothing with what lies below the first `i <= j` slots. */
  lemma {:induction false} BelowApart(st: map<nat, Stats>, key: map<nat, seq<nat>>, base: nat, bound: nat, c: nat, i: nat, j: nat)
    requires TreeShape(st, key, base, bound) && c in st && i <= j && Child(st, c, j).Some?
    ensures Sub(key, Child(st, c, j).value) !! Below(st, key, c, i)
  {
    if i > 0 {
      BelowApart(st, key, base, bound, c, i - 1, j);
      if Child(st, c, i - 1).Some? {
        ChildrenApart(st, key, base, bound, c, i - 1, j);
      }
    }
  }

  /** What lies below the slots of `c` is in the subtree of `c` and does not hold `c`. */
  lemma {:induction false} BelowInSub(st: map<nat, Stats>, key: map<nat, seq<nat>>, base: nat, bound: nat, c: nat, i: nat)
    requires TreeShape(st, key, base, bound) && c in st
    ensures Below(st, key, c, i) <= Sub(key, c) - {c}
  {
    if i > 0 {
      BelowInSub(st, key, base, bound, c, i - 1);
      if Child(st, c, i - 1).Some? {
        SubOfChild(st, key, base, bound, c, i - 1);
      }
    }
  }

  /** Every prefix of the address of a live node is the address of a live node. */
  lemma {:induction false} Ancestor(st: map<nat, Stats>, key: map<nat, seq<nat>>, base: nat, bound: nat, m: nat, d: nat)
    requires TreeShape(st, key, base, bound) && m in st && m in key && d <= |key[m]|
    ensures exists x :: x in st && x in key && key[x] == key[m][..d]
    decreases m
  {
    if d == |key[m]| {
      assert key[m][..d] == key[m];
    } else {
      assert m != base;
      assert OwnedBy(st, key, m);
      var p := st[m].parent.value.node;
      assert key[m] == key[p] + [st[m].parent.value.slot];
      Ancestor(st, key, base, bound, p, d);
      assert key[m][..d] == key[p][..d];
    }
  }

  /** The subtree of `c` is `c` together with what lies below all its slots. */
  lemma BelowAll(st: map<nat, Stats>, key: map<nat, seq<nat>>, base: nat, bound: nat, c: nat)
    requires TreeShape(st, key, base, bound) && c in st
    ensures Below(st, key, c, MAX_COUNTERS) == Sub(key, c) - {c}
  {
    BelowInSub(st, key, base, bound, c, MAX_COUNTERS);
    forall m | m in Sub(key, c) && m != c ensures m in Below(st, key, c, MAX_COUNTERS) {
      assert !SameKey(key, m, c);
      var d := |key[c]|;
      assert d < |key[m]|;
      Ancestor(st, key, base, bound, m, d + 1);
      var x :| x in st && x in key && key[x] == key[m][..d + 1];
      var j := key[m][d];
      assert NodeShaped(st, key, bound, m);
      assert key[m][..d] == key[c];
      assert key[x] == key[c] + [j];
      assert x != base;
      assert OwnedBy(st, key, x);
      var l := st[x].parent.value;
      assert key[l.node] == key[c] && l.slot == j by {
        assert key[x] == key[l.node] + [l.slot];
        assert key[x][..d] == key[l.node];
      }
      assert SameKey(key, l.node, c);
      assert Child(st, c, j) == Some(x);
      BelowHas(st, key, c, MAX_COUNTERS, j);
      assert key[x] <= key[m];
    }
  }

  /** Dropping nodes outside the subtree of `x` from the prefix map leaves that subtree as it was. */
  lemma SubAfterDrop(key: map<nat, seq<nat>>, r: set<nat>, x: nat)
    requires x in key && Sub(key, x) !! r
    ensures Sub(key - r, x) == Sub(key, x)
  {
    SubSelf(key, x);
  }

  /** A prefix of `b + [x]` other than `b + [x]` itself is a prefix of `b`. */
  lemma PrefixOfShorter(a: seq<nat>, b: seq<nat>, x: nat)
    requires a <= b + [x] && a != b + [x]
    ensures a <= b
  {
    assert a == (b + [x])[..|a|];
    if |a| == |b| + 1 {
      assert false;
    }
    assert a == b[..|a|];
  }

  /** A node below `x` other than `x` hangs from a counter of a node below `x`. */
  lemma ChildOfSub(st: map<nat, Stats>, key: map<nat, seq<nat>>, base: nat, bound: nat, x: nat, m: nat, j: nat)
    requires TreeShape(st, key, base, bound) && m in st && Child(st, m, j).Some?
    requires Child(st, m, j).value in Sub(key, x) && Child(st, m, j).value != x
    ensures m in Sub(key, x)
  {
    var y := Child(st, m, j).value;
    ChildKey(st, key, base, bound, m, j);
    assert key[x] != key[y] by {
      if key[x] == key[y] {
        assert SameKey(key, x, y);
      }
    }
    PrefixOfShorter(key[x], key[m], j);
  }
}
