/** Facts about sequences used to describe the age list of the monitor. */
module Sequences {
  import opened Wrappers

  /** Positions `i` and `j` of `s` hold the same element. */
  ghost predicate Clash(s: seq<nat>, i: int, j: int) {
    0 <= i < |s| && 0 <= j < |s| && s[i] == s[j]
  }

  /** No element occurs twice. */
  ghost predicate Distinct(s: seq<nat>) {
    forall i, j {:trigger Clash(s, i, j)} :: Clash(s, i, j) ==> i == j
  }

  /** The elements of `s`. */
  ghost function Members(s: seq<nat>): set<nat> {
    set x | x in s
  }

  /** The first element, or `None` for the empty sequence. */
  function FirstOf(s: seq<nat>): (r: Option<nat>)
    ensures r.None? <==> s == []
    ensures r.Some? ==> r.value == s[0]
  {
    if s == [] then None else Some(s[0])
  }

  /** The last element, or `None` for the empty sequence. */
  function LastOf(s: seq<nat>): (r: Option<nat>)
    ensures r.None? <==> s == []
    ensures r.Some? ==> r.value == s[|s| - 1]
  {
    if s == [] then None else Some(s[|s| - 1])
  }

  /** `s` with every element of `d` dropped; the remaining elements keep their order. */
  function Without(s: seq<nat>, d: set<nat>): (r: seq<nat>)
    ensures |r| <= |s|
  {
    if s == [] then []
    else if s[0] in d then Without(s[1..], d)
    else [s[0]] + Without(s[1..], d)
  }

  /** The position of `x` in `s`. */
  function IndexOf(s: seq<nat>, x: nat): (k: nat)
    requires x in s
    ensures k < |s| && s[k] == x
    ensures forall j :: 0 <= j < k ==> s[j] != x
  {
    if s[0] == x then 0 else 1 + IndexOf(s[1..], x)
  }

  /** An element survives exactly when it occurs and is not dropped. */
  lemma {:induction false} WithoutIn(s: seq<nat>, d: set<nat>, x: nat)
    ensures x in Without(s, d) <==> x in s && x !in d
  {
    if s != [] {
      WithoutIn(s[1..], d, x);
      assert x in s <==> x == s[0] || x in s[1..];
    }
  }

  lemma {:induction false} WithoutConcat(a: seq<nat>, b: seq<nat>, d: set<nat>)
    ensures Without(a + b, d) == Without(a, d) + Without(b, d)
  {
    if a != [] {
      assert (a + b)[1..] == a[1..] + b;
      WithoutConcat(a[1..], b, d);
    } else {
      assert a + b == b;
    }
  }

  /** Only the elements of `d` that occur in `s` matter. */
  lemma {:induction false} WithoutSame(s: seq<nat>, d: set<nat>, e: set<nat>)
    requires forall x :: x in s ==> (x in d <==> x in e)
    ensures Without(s, d) == Without(s, e)
  {
    if s != [] {
      assert forall x :: x in s[1..] ==> x in s;
      WithoutSame(s[1..], d, e);
    }
  }

  /** Dropping nothing that occurs leaves the sequence as it was. */
  lemma {:induction false} WithoutNothing(s: seq<nat>, d: set<nat>)
    requires forall i :: 0 <= i < |s| ==> s[i] !in d
    ensures Without(s, d) == s
  {
    if s != [] {
      WithoutNothing(s[1..], d);
      assert [s[0]] + s[1..] == s;
    }
  }

  /** Dropping in two rounds is dropping the union once. */
  lemma {:induction false} WithoutWithout(s: seq<nat>, d: set<nat>, e: set<nat>)
    ensures Without(Without(s, d), e) == Without(s, d + e)
  {
    if s != [] {
      WithoutWithout(s[1..], d, e);
      if s[0] !in d {
        assert Without(s, d) == [s[0]] + Without(s[1..], d);
        assert Without(s, d)[1..] == Without(s[1..], d);
      }
    }
  }

  /** Two positions of a sequence without repetitions that hold the same element are the same position. */
  lemma DistinctAt(s: seq<nat>, i: nat, j: nat)
    requires Distinct(s) && i < |s| && j < |s| && s[i] == s[j]
    ensures i == j
  {
    assert Clash(s, i, j);
  }

  /** The tail of a sequence without repetitions has none and does not hold the head. */
  lemma DistinctTail(s: seq<nat>)
    requires Distinct(s) && s != []
    ensures Distinct(s[1..]) && s[0] !in s[1..]
  {
    forall i, j | Clash(s[1..], i, j) ensures i == j {
      assert Clash(s, i + 1, j + 1);
    }
    if s[0] in s[1..] {
      var i :| 0 <= i < |s| - 1 && s[1..][i] == s[0];
      assert Clash(s, 0, i + 1);
    }
  }

  /** Putting a new element in front keeps a sequence without repetitions. */
  lemma DistinctCons(x: nat, r: seq<nat>)
    requires Distinct(r) && x !in r
    ensures Distinct([x] + r)
  {
    assert forall k :: 0 <= k < |r| ==> r[k] != x;
    forall i, j | Clash([x] + r, i, j) ensures i == j {
      if i > 0 && j > 0 {
        assert Clash(r, i - 1, j - 1);
      }
    }
  }

  lemma {:induction false} WithoutDistinct(s: seq<nat>, d: set<nat>)
    requires Distinct(s)
    ensures Distinct(Without(s, d))
  {
    if s != [] {
      DistinctTail(s);
      WithoutDistinct(s[1..], d);
      if s[0] !in d {
        WithoutIn(s[1..], d, s[0]);
        DistinctCons(s[0], Without(s[1..], d));
      }
    }
  }

  lemma {:induction false} WithoutAbsent(s: seq<nat>, x: nat)
    requires x !in s
    ensures Without(s, {x}) == s
  {
    if s != [] {
      assert s[0] != x;
      assert x !in s[1..];
      WithoutAbsent(s[1..], x);
      assert [s[0]] + s[1..] == s;
    }
  }

  /** In a sequence without repetitions, the element at `k` occurs neither before nor after `k`. */
  lemma Unrepeated(s: seq<nat>, k: nat)
    requires Distinct(s) && k < |s|
    ensures s[k] !in s[..k] && s[k] !in s[k + 1..]
  {
    if s[k] in s[..k] {
      var i :| 0 <= i < k && s[..k][i] == s[k];
      DistinctAt(s, i, k);
    }
    if s[k] in s[k + 1..] {
      var i :| 0 <= i < |s| - k - 1 && s[k + 1..][i] == s[k];
      DistinctAt(s, k + 1 + i, k);
    }
  }

  /** Removing the element at `k`, which occurs nowhere else, is dropping `{s[k]}`. */
  lemma RemoveAt(s: seq<nat>, k: nat)
    requires k < |s| && s[k] !in s[..k] && s[k] !in s[k + 1..]
    ensures Without(s, {s[k]}) == s[..k] + s[k + 1..]
  {
    var x, head, tail := s[k], s[..k], s[k + 1..];
    WithoutAbsent(head, x);
    WithoutAbsent(tail, x);
    assert Without([x] + tail, {x}) == Without(tail, {x}) by {
      assert ([x] + tail)[1..] == tail;
    }
    assert s == head + ([x] + tail);
    WithoutConcat(head, [x] + tail, {x});
  }

  /** Dropping `d` around a kept element `s[k]`: what is kept before it, the element, what is kept after it. */
  lemma WithoutSplit(s: seq<nat>, d: set<nat>, k: nat)
    requires k < |s| && s[k] !in d
    ensures Without(s, d) == Without(s[..k], d) + [s[k]] + Without(s[k + 1..], d)
  {
    assert s == s[..k] + s[k..];
    WithoutConcat(s[..k], s[k..], d);
    assert s[k..][1..] == s[k + 1..];
  }
}
