/**
 * `IPRateMonitor::print`: the text dump of the counter trie. Walking the slots of a node in
 * order, every counter with a positive average is written as a line with its key and its two
 * rates, after both rates have been decayed in place to `now`; the dump of its next level,
 * under the key prefixed with a tab, follows the line.
 */
module Dump {
  import opened Wrappers
  import opened Ewma
  import opened Trie
  import opened Shape
  import opened Subtrees
  import opened Rates

  /**
   * Print, started on node `n`, reaches slot `j` of node `m`: that slot holds a shown counter,
   * and either `m` is `n` and `j` is in `lo .. hi-1`, or the owning counter of `m` is reached.
   */
  ghost predicate Reached(st: map<nat, Stats>, n: nat, lo: nat, hi: nat, m: nat, j: nat)
    decreases m
  {
    m in st && j < |st[m].slots| && st[m].slots[j].Some? && Shown(st[m].slots[j].value) &&
    (if m == n then lo <= j < hi else
       st[m].parent.Some? && st[m].parent.value.node < m &&
       Reached(st, n, lo, hi, st[m].parent.value.node, st[m].parent.value.slot))
  }

  /** `st2` is `st` with exactly the counters reached from slots `lo .. hi-1` of `n` decayed to `now`. */
  ghost predicate Printed(st: map<nat, Stats>, n: nat, lo: nat, hi: nat, now: int, update: Update, st2: map<nat, Stats>) {
    SameShape(st, st2) &&
    forall m, j :: m in st && 0 <= j < |st[m].slots| ==>
      st2[m].slots[j] == if Reached(st, n, lo, hi, m, j) then Some(Decay(st[m].slots[j].value, now, update)) else st[m].slots[j]
  }

  /** A well-formed trie is numbered so that `Rendered` is defined on it. */
  lemma TreeOrdered(st: map<nat, Stats>, key: map<nat, seq<nat>>, base: nat, bound: nat)
    requires TreeShape(st, key, base, bound)
    ensures Ordered(st, bound)
  {
    forall n | n in st
      ensures n < bound && |st[n].slots| == MAX_COUNTERS &&
        forall j :: 0 <= j < MAX_COUNTERS && st[n].slots[j].Some? && st[n].slots[j].value.nextLevel.Some? ==>
          st[n].slots[j].value.nextLevel.value in st && n < st[n].slots[j].value.nextLevel.value
    {
      assert NodeShaped(st, key, bound, n);
      forall j | 0 <= j < MAX_COUNTERS && st[n].slots[j].Some? && st[n].slots[j].value.nextLevel.Some?
        ensures st[n].slots[j].value.nextLevel.value in st && n < st[n].slots[j].value.nextLevel.value
      {
        ChildKey(st, key, base, bound, n, j);
      }
    }
  }

  /** Everything print reaches from `n` lies in the subtree of `n`. */
  lemma {:induction false} ReachedIn(st: map<nat, Stats>, key: map<nat, seq<nat>>, base: nat, bound: nat,
                                     n: nat, lo: nat, hi: nat, m: nat, j: nat)
    requires TreeShape(st, key, base, bound) && n in st && Reached(st, n, lo, hi, m, j)
    ensures m in Sub(key, n)
    decreases m
  {
    if m != n {
      var l := st[m].parent.value;
      ReachedIn(st, key, base, bound, n, lo, hi, l.node, l.slot);
      assert OwnedBy(st, key, m);
      assert key[n] <= key[l.node] <= key[m];
    }
  }

  /**
   * Below the child `y` of slot `i` of `n`, print from `n` reaches a slot exactly when print
   * from `y` reaches it and print from `n` reaches slot `i` of `n`.
   */
  lemma {:induction false} ReachedThrough(st: map<nat, Stats>, key: map<nat, seq<nat>>, base: nat, bound: nat,
                                          n: nat, i: nat, lo: nat, hi: nat, m: nat, j: nat)
    requires TreeShape(st, key, base, bound) && n in st && Child(st, n, i).Some?
    requires m in Sub(key, Child(st, n, i).value)
    ensures Reached(st, n, lo, hi, m, j) <==>
      Reached(st, Child(st, n, i).value, 0, MAX_COUNTERS, m, j) && Reached(st, n, lo, hi, n, i)
    decreases m
  {
    var y := Child(st, n, i).value;
    ChildKey(st, key, base, bound, n, i);
    assert NodeShaped(st, key, bound, m);
    if m != y {
      assert key[y] <= key[m];
      assert m != base && m != n by {
        assert |key[m]| > |key[n]|;
      }
      assert OwnedBy(st, key, m);
      var l := st[m].parent.value;
      assert key[y] != key[m] by {
        if key[y] == key[m] {
          assert SameKey(key, y, m);
        }
      }
      ChildOfSub(st, key, base, bound, y, l.node, l.slot);
      ReachedThrough(st, key, base, bound, n, i, lo, hi, l.node, l.slot);
    }
  }

  /** Outside the subtree of slot `i` of `n`, widening the range `0 .. i-1` to `0 .. i` reaches nothing new but slot `i` itself. */
  lemma {:induction false} ReachedAside(st: map<nat, Stats>, key: map<nat, seq<nat>>, base: nat, bound: nat,
                                        n: nat, i: nat, m: nat, j: nat)
    requires TreeShape(st, key, base, bound) && n in st && (m != n || j != i)
    requires Child(st, n, i).Some? ==> m !in Sub(key, Child(st, n, i).value)
    ensures Reached(st, n, 0, i + 1, m, j) == Reached(st, n, 0, i, m, j)
    decreases m
  {
    if m != n && m in st && st[m].parent.Some? && st[m].parent.value.node < m {
      var l := st[m].parent.value;
      assert m != base;
      assert OwnedBy(st, key, m);
      if l.node == n {
        assert l.slot != i by {
          SubSelf(key, m);
        }
      } else {
        assert Child(st, n, i).Some? ==> l.node !in Sub(key, Child(st, n, i).value);
        ReachedAside(st, key, base, bound, n, i, l.node, l.slot);
      }
    }
  }

  /** Print from `n` reads only the subtree of `n`. */
  lemma {:induction false} ReachedFrame(st: map<nat, Stats>, st2: map<nat, Stats>, key: map<nat, seq<nat>>, base: nat, bound: nat,
                                        n: nat, m: nat, j: nat)
    requires TreeShape(st, key, base, bound) && TreeShape(st2, key, base, bound) && n in st
    requires forall x :: x in Sub(key, n) ==> x in st2 && st2[x] == st[x]
    ensures Reached(st2, n, 0, MAX_COUNTERS, m, j) == Reached(st, n, 0, MAX_COUNTERS, m, j)
    decreases m
  {
    if Reached(st, n, 0, MAX_COUNTERS, m, j) {
      ReachedIn(st, key, base, bound, n, 0, MAX_COUNTERS, m, j);
    }
    if Reached(st2, n, 0, MAX_COUNTERS, m, j) {
      SubSelf(key, n);
      ReachedIn(st2, key, base, bound, n, 0, MAX_COUNTERS, m, j);
    }
    if m in Sub(key, n) && m != n && m in st && st[m].parent.Some? && st[m].parent.value.node < m {
      var l := st[m].parent.value;
      assert m != base by {
        assert |key[m]| > |key[n]| by {
          assert SameKey(key, n, m) ==> n == m;
        }
      }
      assert OwnedBy(st, key, m);
      ChildOfSub(st, key, base, bound, n, l.node, l.slot);
      ReachedFrame(st, st2, key, base, bound, n, l.node, l.slot);
    }
  }

  /** The dump of `n` reads only the subtree of `n`. */
  lemma {:induction false} RenderedFrame(st: map<nat, Stats>, st2: map<nat, Stats>, key: map<nat, seq<nat>>, base: nat, bound: nat,
                                         n: nat, ip: string, i: nat, now: int, update: Update)
    requires TreeShape(st, key, base, bound) && Ordered(st, bound) && Ordered(st2, bound) && n in st && i <= MAX_COUNTERS
    requires forall x :: x in Sub(key, n) ==> x in st2 && st2[x] == st[x]
    ensures n in st2 && Rendered(st2, bound, n, ip, i, now, update) == Rendered(st, bound, n, ip, i, now, update)
    decreases bound - n, MAX_COUNTERS - i
  {
    SubSelf(key, n);
    if i < MAX_COUNTERS {
      RenderedFrame(st, st2, key, base, bound, n, ip, i + 1, now, update);
      if st[n].slots[i].Some? && Shown(st[n].slots[i].value) && st[n].slots[i].value.nextLevel.Some? {
        var y := st[n].slots[i].value.nextLevel.value;
        assert Child(st, n, i) == Some(y);
        SubOfChild(st, key, base, bound, n, i);
        RenderedFrame(st, st2, key, base, bound, y, "\t" + SlotKey(ip, i), 0, now, update);
      }
    }
  }

  /** Print reaches nothing from an empty range of slots. */
  lemma {:induction false} ReachedEmpty(st: map<nat, Stats>, n: nat, m: nat, j: nat)
    ensures !Reached(st, n, 0, 0, m, j)
    decreases m
  {
    if m != n && m in st && st[m].parent.Some? && st[m].parent.value.node < m {
      ReachedEmpty(st, n, st[m].parent.value.node, st[m].parent.value.slot);
    }
  }

  /** Before the first slot: nothing printed, nothing decayed. */
  lemma PrintStart(st: map<nat, Stats>, n: nat, now: int, update: Update)
    ensures Printed(st, n, 0, 0, now, update, st)
  {
    forall m | m in st ensures SameShapeAt(st, st, m) {
      forall j | 0 <= j < |st[m].slots| ensures Alike(st[m].slots[j], st[m].slots[j]) {
      }
    }
    forall m, j | m in st && 0 <= j < |st[m].slots| ensures !Reached(st, n, 0, 0, m, j) {
      ReachedEmpty(st, n, m, j);
    }
  }

  /** A slot print does not show: nothing changes. */
  lemma StepSkip(st: map<nat, Stats>, key: map<nat, seq<nat>>, base: nat, bound: nat, n: nat, i: nat,
                 now: int, update: Update, st2: map<nat, Stats>)
    requires TreeShape(st, key, base, bound) && n in st && i < |st[n].slots| == MAX_COUNTERS && Printed(st, n, 0, i, now, update, st2)
    requires st[n].slots[i].None? || !Shown(st[n].slots[i].value)
    ensures Printed(st, n, 0, i + 1, now, update, st2)
  {
    forall m, j | m in st && 0 <= j < |st[m].slots| ensures Reached(st, n, 0, i + 1, m, j) == Reached(st, n, 0, i, m, j) {
      if m == n && j == i {
      } else if Child(st, n, i).Some? && m in Sub(key, Child(st, n, i).value) {
        ReachedThrough(st, key, base, bound, n, i, 0, i + 1, m, j);
        ReachedThrough(st, key, base, bound, n, i, 0, i, m, j);
      } else {
        ReachedAside(st, key, base, bound, n, i, m, j);
      }
    }
  }

  /** Before the descent into the child `y` of a shown slot `i`: the trie is intact and the subtree of `y` untouched. */
  lemma StepInto(st: map<nat, Stats>, key: map<nat, seq<nat>>, base: nat, bound: nat, n: nat, i: nat,
                 now: int, update: Update, st2: map<nat, Stats>, st2a: map<nat, Stats>)
    requires TreeShape(st, key, base, bound) && n in st && i < |st[n].slots| == MAX_COUNTERS && Printed(st, n, 0, i, now, update, st2)
    requires st[n].slots[i].Some? && Shown(st[n].slots[i].value)
    requires st2a == st2[n := st2[n].(slots := st2[n].slots[i := Some(Decay(st[n].slots[i].value, now, update))])]
    ensures SameShape(st, st2a) && TreeShape(st2a, key, base, bound)
    ensures Child(st, n, i).Some? ==>
      Child(st, n, i).value > n && Child(st, n, i).value < bound &&
      forall x :: x in Sub(key, Child(st, n, i).value) ==> x in st2a && st2a[x] == st[x]
  {
    assert !Reached(st, n, 0, i, n, i);
    assert Alike(st2[n].slots[i], Some(Decay(st[n].slots[i].value, now, update)));
    SameShapeOne(st2, n, i, Some(Decay(st[n].slots[i].value, now, update)), st2a);
    SameShapeTrans(st, st2, st2a);
    SameShapeTree(st, key, base, bound, st2a);
    if Child(st, n, i).Some? {
      var y := Child(st, n, i).value;
      ChildKey(st, key, base, bound, n, i);
      assert NodeShaped(st, key, bound, y);
      SubOfChild(st, key, base, bound, n, i);
      forall x | x in Sub(key, y) ensures x in st2a && st2a[x] == st[x] {
        assert SameShapeAt(st, st2, x);
        forall j | 0 <= j < |st[x].slots| ensures st2[x].slots[j] == st[x].slots[j] {
          ReachedThrough(st, key, base, bound, n, i, 0, i, x, j);
        }
        assert st2[x].slots == st[x].slots;
      }
    }
  }

  /** After a shown slot `i`: its counter is decayed, and so is everything print reaches below it. */
  lemma StepShown(st: map<nat, Stats>, key: map<nat, seq<nat>>, base: nat, bound: nat, n: nat, i: nat,
                  now: int, update: Update, st2: map<nat, Stats>, st2a: map<nat, Stats>, st3: map<nat, Stats>)
    requires TreeShape(st, key, base, bound) && n in st && i < |st[n].slots| == MAX_COUNTERS && Printed(st, n, 0, i, now, update, st2)
    requires st[n].slots[i].Some? && Shown(st[n].slots[i].value)
    requires st2a == st2[n := st2[n].(slots := st2[n].slots[i := Some(Decay(st[n].slots[i].value, now, update))])]
    requires Child(st, n, i).None? ==> st3 == st2a
    requires Child(st, n, i).Some? ==> Printed(st2a, Child(st, n, i).value, 0, MAX_COUNTERS, now, update, st3)
    ensures Printed(st, n, 0, i + 1, now, update, st3)
  {
    if Child(st, n, i).Some? {
      StepShownChild(st, key, base, bound, n, i, now, update, st2, st2a, st3);
    } else {
      StepInto(st, key, base, bound, n, i, now, update, st2, st2a);
      forall m, j | m in st && 0 <= j < |st[m].slots| && (m != n || j != i)
        ensures Reached(st, n, 0, i + 1, m, j) == Reached(st, n, 0, i, m, j)
      {
        ReachedAside(st, key, base, bound, n, i, m, j);
      }
    }
  }

  /** `StepShown` for a counter with a next level, which print has dumped into `st3`. */
  lemma StepShownChild(st: map<nat, Stats>, key: map<nat, seq<nat>>, base: nat, bound: nat, n: nat, i: nat,
                       now: int, update: Update, st2: map<nat, Stats>, st2a: map<nat, Stats>, st3: map<nat, Stats>)
    requires TreeShape(st, key, base, bound) && n in st && i < |st[n].slots| == MAX_COUNTERS && Printed(st, n, 0, i, now, update, st2)
    requires st[n].slots[i].Some? && Shown(st[n].slots[i].value)
    requires st2a == st2[n := st2[n].(slots := st2[n].slots[i := Some(Decay(st[n].slots[i].value, now, update))])]
    requires Child(st, n, i).Some? && Printed(st2a, Child(st, n, i).value, 0, MAX_COUNTERS, now, update, st3)
    ensures Printed(st, n, 0, i + 1, now, update, st3)
  {
    StepInto(st, key, base, bound, n, i, now, update, st2, st2a);
    var y := Child(st, n, i).value;
    ChildKey(st, key, base, bound, n, i);
    SubSelf(key, y);
    SameShapeTrans(st, st2a, st3);
    forall m, j | m in st && 0 <= j < |st[m].slots|
      ensures st3[m].slots[j] ==
        if Reached(st, n, 0, i + 1, m, j) then Some(Decay(st[m].slots[j].value, now, update)) else st[m].slots[j]
    {
      if m in Sub(key, y) {
        ReachedFrame(st, st2a, key, base, bound, y, m, j);
        ReachedThrough(st, key, base, bound, n, i, 0, i + 1, m, j);
      } else {
        if Reached(st2a, y, 0, MAX_COUNTERS, m, j) {
          ReachedIn(st2a, key, base, bound, y, 0, MAX_COUNTERS, m, j);
        }
        if m != n || j != i {
          ReachedAside(st, key, base, bound, n, i, m, j);
        }
      }
    }
  }

  /** The dump of slots `i ..` of `n` is the part for slot `i` followed by the dump of slots `i+1 ..`. */
  lemma RenderedAt(st: map<nat, Stats>, bound: nat, n: nat, ip: string, i: nat, now: int, update: Update)
    requires Ordered(st, bound) && n in st && i < MAX_COUNTERS
    ensures Rendered(st, bound, n, ip, i, now, update) ==
      (if st[n].slots[i].Some? && Shown(st[n].slots[i].value) then
         Line(SlotKey(ip, i), st[n].slots[i].value, now, update) +
         (if st[n].slots[i].value.nextLevel.Some? then
            Rendered(st, bound, st[n].slots[i].value.nextLevel.value, "\t" + SlotKey(ip, i), 0, now, update)
          else "")
       else "") + Rendered(st, bound, n, ip, i + 1, now, update)
  {
  }

  lemma ConcatAssoc(a: string, b: string, c: string)
    ensures (a + b) + c == a + (b + c)
  {
  }

  /** A prefix `a` of `e` followed by a prefix `b` of the rest `d` is a prefix of `e` with rest `c`. */
  lemma Telescope(a: string, b: string, c: string, d: string, e: string)
    requires a + d == e && b + c == d
    ensures (a + b) + c == e
  {
    ConcatAssoc(a, b, c);
  }

  /** Appending the parts of a line one after the other appends the line. */
  lemma LineAppend(key: string, c: Counter, now: int, update: Update)
    ensures key + "\t" + IntToString(Average(Decay(c, now, update).fwd)) + "\t" +
      IntToString(Average(Decay(c, now, update).rev)) + "\n" == Line(key, c, now, update)
  {
  }

  /**
   * `print(s, ip)` on node `n`: the text is the reference dump `Rendered` of the trie as it was
   * on entry, and on return exactly the counters print reached have been decayed to `now`.
   */
  method PrintNode(st: map<nat, Stats>, ghost key: map<nat, seq<nat>>, ghost base: nat, ghost bound: nat,
                   n: nat, ip: string, now: int, update: Update) returns (ret: string, st2: map<nat, Stats>)
    requires TreeShape(st, key, base, bound) && n in st
    ensures Ordered(st, bound) && ret == Rendered(st, bound, n, ip, 0, now, update)
    ensures Printed(st, n, 0, MAX_COUNTERS, now, update, st2)
    decreases bound - n, 3
  {
    TreeOrdered(st, key, base, bound);
    PrintStart(st, n, now, update);
    ret, st2 := "", st;
    for i := 0 to MAX_COUNTERS
      invariant ret + Rendered(st, bound, n, ip, i, now, update) == Rendered(st, bound, n, ip, 0, now, update)
      invariant Printed(st, n, 0, i, now, update, st2)
    {
      ret, st2 := PrintTurn(st, key, base, bound, n, i, ip, now, update, ret, st2);
    }
  }

  /** A turn of the loop of `print`: the piece for slot `i` appended to the text `ret` of the slots before it. */
  method PrintTurn(st: map<nat, Stats>, ghost key: map<nat, seq<nat>>, ghost base: nat, ghost bound: nat,
                   n: nat, i: nat, ip: string, now: int, update: Update, ret: string, st2: map<nat, Stats>)
    returns (ret2: string, st3: map<nat, Stats>)
    requires TreeShape(st, key, base, bound) && n in st && i < MAX_COUNTERS
    requires Ordered(st, bound) && ret + Rendered(st, bound, n, ip, i, now, update) == Rendered(st, bound, n, ip, 0, now, update)
    requires Printed(st, n, 0, i, now, update, st2)
    ensures ret2 + Rendered(st, bound, n, ip, i + 1, now, update) == Rendered(st, bound, n, ip, 0, now, update)
    ensures Printed(st, n, 0, i + 1, now, update, st3)
    decreases bound - n, 2
  {
    assert |st[n].slots| == MAX_COUNTERS;
    var piece;
    piece, st3 := PrintSlot(st, key, base, bound, n, i, ip, now, update, st2);
    Telescope(ret, piece, Rendered(st, bound, n, ip, i + 1, now, update), Rendered(st, bound, n, ip, i, now, update),
              Rendered(st, bound, n, ip, 0, now, update));
    ret2 := ret + piece;
  }

  /** The turn of the loop of `print` on a slot `i` of `n` whose counter is shown. */
  method PrintShown(st: map<nat, Stats>, ghost key: map<nat, seq<nat>>, ghost base: nat, ghost bound: nat,
                    n: nat, i: nat, ip: string, now: int, update: Update, st2: map<nat, Stats>)
    returns (piece: string, st3: map<nat, Stats>)
    requires TreeShape(st, key, base, bound) && n in st && i < |st[n].slots| == MAX_COUNTERS
    requires Printed(st, n, 0, i, now, update, st2)
    requires st[n].slots[i].Some? && Shown(st[n].slots[i].value)
    ensures Ordered(st, bound)
    ensures piece == Line(SlotKey(ip, i), st[n].slots[i].value, now, update) +
      (if st[n].slots[i].value.nextLevel.Some? then
         Rendered(st, bound, st[n].slots[i].value.nextLevel.value, "\t" + SlotKey(ip, i), 0, now, update)
       else "")
    ensures Printed(st, n, 0, i + 1, now, update, st3)
    decreases bound - n, 0
  {
    TreeOrdered(st, key, base, bound);
    assert !Reached(st, n, 0, i, n, i);
    var c := st2[n].slots[i].value;
    var thisIp := SlotKey(ip, i);
    piece := thisIp;
    c := c.(fwd := update(c.fwd, now, 0));
    c := c.(rev := update(c.rev, now, 0));
    var st2a := st2[n := st2[n].(slots := st2[n].slots[i := Some(c)])];
    piece := piece + "\t" + IntToString(Average(c.fwd)) + "\t" + IntToString(Average(c.rev)) + "\n";
    LineAppend(thisIp, st[n].slots[i].value, now, update);
    StepInto(st, key, base, bound, n, i, now, update, st2, st2a);
    st3 := st2a;
    if c.nextLevel.Some? {
      var sub;
      sub, st3 := PrintNode(st2a, key, base, bound, c.nextLevel.value, "\t" + thisIp, now, update);
      RenderedFrame(st, st2a, key, base, bound, c.nextLevel.value, "\t" + thisIp, 0, now, update);
      piece := piece + sub;
    }
    StepShown(st, key, base, bound, n, i, now, update, st2, st2a, st3);
  }

  /** One turn of the loop of `print` on slot `i` of `n`, from the state `st2` the earlier slots left. */
  method PrintSlot(st: map<nat, Stats>, ghost key: map<nat, seq<nat>>, ghost base: nat, ghost bound: nat,
                   n: nat, i: nat, ip: string, now: int, update: Update, st2: map<nat, Stats>)
    returns (piece: string, st3: map<nat, Stats>)
    requires TreeShape(st, key, base, bound) && n in st && i < |st[n].slots| == MAX_COUNTERS
    requires Printed(st, n, 0, i, now, update, st2)
    ensures Ordered(st, bound) && piece + Rendered(st, bound, n, ip, i + 1, now, update) == Rendered(st, bound, n, ip, i, now, update)
    ensures Printed(st, n, 0, i + 1, now, update, st3)
    decreases bound - n, 1
  {
    TreeOrdered(st, key, base, bound);
    assert !Reached(st, n, 0, i, n, i);
    var v := st2[n].slots[i];
    assert v == st[n].slots[i];
    RenderedAt(st, bound, n, ip, i, now, update);
    if v.Some? && Shown(v.value) {
      piece, st3 := PrintShown(st, key, base, bound, n, i, ip, now, update, st2);
    } else {
      piece, st3 := "", st2;
      StepSkip(st, key, base, bound, n, i, now, update, st2);
    }
  }

  /**
   * `print(_base)`: the dump of the whole trie, with the key of the root empty. The trie, the
   * age list and the memory count are unchanged; only the counters print reached are decayed.
   */
  method Print(t: Table, ghost g: Layout, sz: Sizes, now: int, update: Update) returns (out: string, t2: Table)
    requires Good(t, g, sz)
    ensures Ordered(t.stats, t.nextId) && out == Rendered(t.stats, t.nextId, t.base, "", 0, now, update)
    ensures t2 == t.(stats := t2.stats) && Printed(t.stats, t.base, 0, MAX_COUNTERS, now, update, t2.stats)
    ensures Good(t2, g, sz)
  {
    var st2;
    out, st2 := PrintNode(t.stats, g.key, t.base, t.nextId, t.base, "", now, update);
    t2 := t.(stats := st2);
    SameShapeGood(t, g, sz, t2);
  }
}
