/**
 * `IPRateMonitor`'s statistics engine as an object: the counter trie of `Stats` nodes, the
 * age list threaded through every node and the running count of allocated bytes, all held in
 * one `Table` that each operation replaces, with the ghost `Layout` that explains it.
 */
module RateMonitor {
  import opened Wrappers
  import opened Sequences
  import opened Ewma
  import opened Trie
  import opened Shape
  import opened Root
  import opened Reset
  import opened Eviction
  import opened Dump

  class Monitor {
    /** sizeof(Stats) and sizeof(Counter). */
    const sizes: Sizes
    /** `_base`, `_first`, `_last`, `_prev_deleted`, `_alloced_mem` and the arena of live nodes. */
    var table: Table
    /** The age list, the address prefix of every node and every populated slot. */
    ghost var layout: Layout

    ghost predicate Valid()
      reads this
    {
      Good(table, layout, sizes)
    }

    /**
     * `IPRateMonitor()` followed by `initialize`: the monitor starts with nothing charged,
     * then the root is a fresh `Stats`, which charges its own size, and it is both ends of
     * the age list.
     */
    constructor (sizes: Sizes)
      ensures Valid() && this.sizes == sizes
      ensures table.stats.Keys == {table.base} && table.first == Some(table.base) && table.last == Some(table.base)
      ensures |table.stats[table.base].slots| == MAX_COUNTERS && AllEmpty(table.stats[table.base].slots)
      ensures table.stats[table.base].parent.None? && table.stats[table.base].prev.None? && table.stats[table.base].next.None?
      ensures table.allocedMem == sizes.ofStats && table.prevDeleted.None? && layout.order == [table.base]
    {
      this.sizes := sizes;
      var mem := 0;
      var s := NewStats();
      mem := mem + sizes.ofStats;
      RootShape(s, sizes.ofStats, sizes.ofCounter);
      table := Table(map[0 := s], 0, Some(0), Some(0), None, mem, 1);
      layout := Layout([0], map[0 := []], {});
    }

    /**
     * The check of `show_agelist`: the walk from `_first` along `_next` visits the age list
     * in order, and the last node it visits is `_last`.
     */
    method ShowAgeList() returns (walk: seq<nat>, consistent: bool)
      requires Valid()
      ensures walk == layout.order && consistent
    {
      ghost var order := layout.order;
      var stats := table.stats;
      walk := [];
      var prevR: Option<nat> := None;
      var r := table.first;
      while r.Some?
        invariant |walk| <= |order| && walk == order[..|walk|]
        invariant r == (if |walk| < |order| then Some(order[|walk|]) else None)
        invariant prevR == (if walk == [] then None else Some(order[|walk| - 1]))
        decreases |order| - |walk|
      {
        ghost var k := |walk|;
        assert order[..k + 1] == order[..k] + [order[k]];
        assert LinkedAt(stats, order, k);
        walk := walk + [r.value];
        prevR := r;
        r := stats[r.value].next;
      }
      assert walk == order;
      consistent := prevR == table.last;
    }

    /** `fold(thresh)`: the eviction sweep over the age list, at the tick `now`. */
    method Fold(thresh: int, now: int, update: Update)
      requires Valid()
      modifies this
      ensures Valid()
      ensures Folded(old(table), old(layout), sizes, Sweep(thresh, now, update), table, layout)
    {
      var t2;
      ghost var g2;
      t2, g2 := Eviction.Fold(table, layout, sizes, thresh, now, update);
      Commit(t2, g2);
    }

    /**
     * The reset handler's `_base->clear()`, with `clear` skipping empty slots: the code as
     * written dereferences every slot of the root, which the root does not have right after
     * `initialize` (`FreshRootUnpopulated`).
     */
    method ClearRoot()
      requires Valid()
      modifies this
      ensures Valid()
      ensures Cleared(old(table), old(layout), sizes, old(table).base, table, layout)
    {
      var t2;
      ghost var g2;
      t2, g2 := ClearStats(table, layout, sizes, table.base);
      Commit(t2, g2);
    }

    /** `print(_base)` at the tick `now`: the dump of the trie; only the rates of the counters it shows change. */
    method PrintRoot(now: int, update: Update) returns (out: string)
      requires Valid()
      modifies this
      ensures Valid() && layout == old(layout)
      ensures Ordered(old(table).stats, old(table).nextId)
      ensures out == Rendered(old(table).stats, old(table).nextId, old(table).base, "", 0, now, update)
      ensures table == old(table).(stats := table.stats)
      ensures Printed(old(table).stats, old(table).base, 0, MAX_COUNTERS, now, update, table.stats)
    {
      var t2;
      out, t2 := Print(table, layout, sizes, now, update);
      Commit(t2, layout);
    }

    /** Install `t2` and `g2` as the monitor's state in one step. */
    method Commit(t2: Table, ghost g2: Layout)
      modifies this
      ensures table == t2 && layout == g2
    {
      table, layout := t2, g2;
    }
  }
}
