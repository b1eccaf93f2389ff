/**
 * The records of the counter trie: a `Stats` node holds MAX_COUNTERS slots, each empty or
 * holding a `Counter` with a forward rate, a reverse rate and an optional next-level node.
 * Nodes live in an arena (a map from node number to record) and refer to each other by number.
 */
module Trie {
  import opened Wrappers
  import opened Ewma

  /** The fan-out of a node: one slot per value of an address byte. */
  const MAX_COUNTERS: nat := 256

  /** The owning counter of a node (`_parent`): slot `slot` of node `node`. */
  datatype Link = Link(node: nat, slot: nat)

  /** `Counter`: the two rates of one address prefix and its next trie level, if any. */
  datatype Counter = Counter(fwd: Estimator, rev: Estimator, nextLevel: Option<nat>)

  /** `Stats`: the counter slots of one trie level, the owning counter and the age-list links. */
  datatype Stats = Stats(slots: seq<Option<Counter>>, parent: Option<Link>, prev: Option<nat>, next: Option<nat>)

  /** True when every slot of `slots` is empty. */
  ghost predicate AllEmpty(slots: seq<Option<Counter>>) {
    forall i :: 0 <= i < |slots| ==> slots[i].None?
  }

  /**
   * `Stats::Stats`: a node with no owning counter, no age-list neighbours and all
   * MAX_COUNTERS slots empty. (Charging its size to the monitor is the caller's part.)
   */
  method NewStats() returns (s: Stats)
    ensures |s.slots| == MAX_COUNTERS && AllEmpty(s.slots)
    ensures s.parent.None? && s.prev.None? && s.next.None?
  {
    var slots: seq<Option<Counter>> := [];
    for i := 0 to MAX_COUNTERS
      invariant |slots| == i && AllEmpty(slots)
    {
      slots := slots + [None];
    }
    s := Stats(slots, None, None, None);
  }

  /** The number a string of decimal digits denotes, the last digit being the units. */
  ghost function DigitsValue(s: string): int {
    if s == [] then 0 else DigitsValue(s[..|s| - 1]) * 10 + (s[|s| - 1] as int - '0' as int)
  }

  /** The decimal digits of `n`, as `String(int)` writes them. */
  function NatToString(n: nat): (s: string)
    ensures |s| >= 1 && forall k :: 0 <= k < |s| ==> '0' <= s[k] <= '9'
  {
    var d := ('0' as int + n % 10) as char;
    if n < 10 then [d] else NatToString(n / 10) + [d]
  }

  /** The digits of `n` denote `n` and, unless `n` is zero, do not start with a zero. */
  lemma {:induction false} NatToStringValue(n: nat)
    ensures DigitsValue(NatToString(n)) == n
    ensures n > 0 ==> NatToString(n)[0] != '0'
  {
    if n >= 10 {
      NatToStringValue(n / 10);
      var s := NatToString(n);
      assert s[..|s| - 1] == NatToString(n / 10);
      assert s[0] == NatToString(n / 10)[0];
    }
  }

  /** `String(int)`: a minus sign for negative values, then the digits of the magnitude. */
  function IntToString(i: int): (s: string)
    ensures |s| >= 1
    ensures (i < 0) == (s[0] == '-')
  {
    if i < 0 then "-" + NatToString(-i) else NatToString(i)
  }

  /**
   * The text of `i` denotes `i`: after the minus sign of a negative value come the digits of
   * its magnitude, and the digits never start with a zero unless the value is zero.
   */
  lemma IntToStringValue(i: int)
    ensures i < 0 ==> |IntToString(i)| >= 2 && DigitsValue(IntToString(i)[1..]) == -i && IntToString(i)[1] != '0'
    ensures i >= 0 ==> DigitsValue(IntToString(i)) == i && (i > 0 ==> IntToString(i)[0] != '0')
  {
    if i < 0 {
      NatToStringValue(-i);
      assert IntToString(i)[1..] == NatToString(-i);
    } else {
      NatToStringValue(i);
    }
  }

  /**
   * The arena is numbered so that every node is below `bound`, every node has MAX_COUNTERS
   * slots and every next-level node is present and numbered above the node that owns it.
   */
  ghost predicate Ordered(st: map<nat, Stats>, bound: nat) {
    forall n :: n in st ==>
      n < bound && |st[n].slots| == MAX_COUNTERS &&
      forall j :: 0 <= j < MAX_COUNTERS && st[n].slots[j].Some? && st[n].slots[j].value.nextLevel.Some? ==>
        st[n].slots[j].value.nextLevel.value in st && n < st[n].slots[j].value.nextLevel.value
  }

  /** The key of slot `i` under the key `ip` of its node: `ip.i`, or just `i` at the root. */
  function SlotKey(ip: string, i: nat): string {
    if ip != "" then ip + "." + NatToString(i) else NatToString(i)
  }

  /** `fwd_rate.update(now, 0)` then `rev_rate.update(now, 0)`: both rates decayed to `now` with no new traffic. */
  function Decay(c: Counter, now: int, update: Update): Counter {
    c.(fwd := update(c.fwd, now, 0), rev := update(c.rev, now, 0))
  }

  /** One line of the dump: the key, the decayed forward rate and the decayed reverse rate. */
  function Line(key: string, c: Counter, now: int, update: Update): string {
    key + "\t" + IntToString(Average(Decay(c, now, update).fwd)) + "\t" + IntToString(Average(Decay(c, now, update).rev)) + "\n"
  }

  /** True when `print` shows the counter: one of its rates, before decay, is positive. */
  predicate Shown(c: Counter) {
    Average(c.rev) > 0 || Average(c.fwd) > 0
  }

  /**
   * What `print(s, ip)` returns for the slots `i..` of node `n`: for each shown counter its
   * line, followed by the dump of its next level under the key "\t" + its own key.
   */
  function Rendered(st: map<nat, Stats>, bound: nat, n: nat, ip: string, i: nat, now: int, update: Update): string
    requires Ordered(st, bound) && n in st && i <= MAX_COUNTERS
    decreases bound - n, MAX_COUNTERS - i
  {
    if i == MAX_COUNTERS then ""
    else
      var rest := Rendered(st, bound, n, ip, i + 1, now, update);
      match st[n].slots[i]
      case None => rest
      case Some(c) =>
        if Shown(c) then
          var key := SlotKey(ip, i);
          var sub := if c.nextLevel.Some? then Rendered(st, bound, c.nextLevel.value, "\t" + key, 0, now, update) else "";
          Line(key, c, now, update) + sub + rest
        else rest
  }

  /** A node none of whose counters from slot `i` on is shown renders as nothing. */
  lemma {:induction false} RenderedQuiet(st: map<nat, Stats>, bound: nat, n: nat, ip: string, i: nat, now: int, update: Update)
    requires Ordered(st, bound) && n in st && i <= MAX_COUNTERS
    requires forall j :: i <= j < MAX_COUNTERS && st[n].slots[j].Some? ==> !Shown(st[n].slots[j].value)
    ensures Rendered(st, bound, n, ip, i, now, update) == ""
    decreases MAX_COUNTERS - i
  {
    if i < MAX_COUNTERS {
      RenderedQuiet(st, bound, n, ip, i + 1, now, update);
    }
  }
}
