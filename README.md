# IPRateMonitor statistics engine

This Dafny project models the statistics engine of Click's `IPRateMonitor` element
(`elements/ip/ipratemon.cc`). The engine is a trie of `Stats` nodes with one counter slot for
each value of an address byte. Each `Counter` holds a forward rate, a reverse rate and an
optional next-level node. The engine also keeps:

- the *age list*, a doubly linked list through every node, with `_first` and `_last`;
- the cursor `_prev_deleted`, which the destructor uses to tell `fold` where to go on;
- the byte count `_alloced_mem`.

The proved operations are:

- creating the root (`initialize`);
- the recursive destructor `Stats::~Stats`;
- `Stats::clear`, as the reset handler runs it on the root;
- the eviction sweep `fold`;
- the dump `print`, as the `look` handler runs it on the root;
- the age-list check `show_agelist`.

Pointers are numbers in an arena: `Table.stats` maps each node number to its record. A node's
owning counter (`_parent`) is a `Link(node, slot)`. A ghost `Layout` explains every table:

- the age list in order;
- the address prefix (slot numbers from the root) of every node, which defines subtrees;
- the set of populated slots.

`Good` ties a table to its layout:

- the `_prev`/`_next` links, `_first` and `_last` spell out the age list;
- every non-root node hangs from a counter whose `next_level` points back to it;
- `_alloced_mem` is sizeof(Stats) for each node plus sizeof(Counter) for each counter.

The operations on the table are methods with loops: `DeleteStats`, `ClearStats`, `Fold` and
`PrintNode`. Each one is proved against a predicate or function that describes their result
(`Deleted`, `Cleared`, `Folded`, `Rendered`/`Printed`). The lemmas next to them state what the
source promises about those results. The class `RateMonitor.Monitor` holds the table and the
layout as fields. Its methods replace them, and its invariant is `Valid()`.

Where the code and the prose design disagree, the model follows the code:

- `fold` reads its next cursor from `_prev_deleted` *after* the deletion, which the destructor
  sets (lines 138 and 143). It does not save the predecessor beforehand.
- `clear` dereferences every slot without a test (lines 222-229). The root starts with every
  slot empty (lines 175-176), and the reset handler clears the root (line 305), so a reset
  before every first address byte has been seen dereferences a null slot. The model's `clear`
  skips empty slots, which stay empty (see "## Findings").
- `fold` keeps a node when its owning counter, once decayed, has at least one average at or
  above the threshold (lines 136-137). It does not look at the node's own counters.

## Model

| member | source | states |
|---|---|---|
| Trie.NewStats | elements/ip/ipratemon.cc:168-177 | a new node has no owning counter, no age-list neighbours and MAX_COUNTERS empty slots |
| Trie.IntToString | elements/ip/ipratemon.cc:257-259 | `String(int)` writes a non-empty text that starts with a minus sign exactly for negative values |
| Trie.NatToStringValue | elements/ip/ipratemon.cc:257-259 | the decimal digits written for `n` denote `n`, with no leading zero unless `n` is zero |
| Trie.IntToStringValue | elements/ip/ipratemon.cc:257-259 | the text written for `i` denotes `i`: the digits after the minus sign of a negative value denote its magnitude, and no digit string has a leading zero unless it is "0" |
| Trie.RenderedQuiet | elements/ip/ipratemon.cc:246 | a node with no counter that has a positive average, from slot `i` on, dumps as the empty string |
| Root.RootShape | elements/ip/ipratemon.cc:84-88 | a fresh root alone is a one-node age list from `_first` to `_last`, a well-formed trie, and costs one sizeof(Stats) |
| Surgery.UnlinkList | elements/ip/ipratemon.cc:198-211 | unlinking a node as the destructor does leaves the age list without that node, each other node once, and the walk from `_first` ending at `_last` |
| Surgery.UntangleReady | elements/ip/ipratemon.cc:199-214 | in a well-formed monitor, the `_prev`, `_next` and `_parent` the destructor dereferences are live nodes other than the node itself |
| Surgery.UntangleSound | elements/ip/ipratemon.cc:198-216 | the four updates of the destructor's tail relink the list, drop the node and null only the owner's `next_level` |
| Surgery.DetachTree | elements/ip/ipratemon.cc:213-214 | dropping an empty non-root node and nulling its owner's `next_level` keeps every other node's owner and the trie well formed |
| Surgery.DetachMem | elements/ip/ipratemon.cc:216 | dropping an empty node gives back exactly sizeof(Stats) and frees no counter |
| Destructor.Untangle | elements/ip/ipratemon.cc:198-216 | the tail of `~Stats` on an empty node: `_prev_deleted` is its `_prev`, `_first`/`_last` move only when it was an end, and the charge drops by sizeof(Stats) |
| Destructor.DeleteStats | elements/ip/ipratemon.cc:186-217 | `~Stats` on a non-root node removes exactly its subtree from the arena, the age list and the counters; its owning counter survives and loses only `next_level`; `_prev_deleted` is the nearest earlier node that survives |
| Destructor.EmptyFrom | elements/ip/ipratemon.cc:188-196 | the destructor's loop leaves every slot of the node empty, with the subtree under each slot deleted and its counter freed |
| Destructor.EmptySlot | elements/ip/ipratemon.cc:189-195 | one turn deletes the slot's next level, frees its counter (sizeof(Counter)) and empties the slot |
| Destructor.Unhook | elements/ip/ipratemon.cc:198-216 | once the slots are empty, untangling the node finishes the deletion of its subtree |
| Destructor.DeleteCharge | elements/ip/ipratemon.cc:193 | deleting a node gives back sizeof(Stats) per node of its subtree and sizeof(Counter) per counter those nodes held |
| Rates.SameShapeGood | elements/ip/ipratemon.cc:254-255 | changing only the rates of counters keeps the monitor well formed with the same layout |
| Reset.ClearStats | elements/ip/ipratemon.cc:219-231 | `clear` on any node of a well-formed monitor deletes the subtrees below it; each counter gets reinitialised rates and no next level, each empty slot stays empty, and the node's owner and every other node's slots are kept |
| Reset.ClearFrom | elements/ip/ipratemon.cc:222-230 | the loop of `clear` deals with every slot from the current one on |
| Reset.ClearSlot | elements/ip/ipratemon.cc:223-229 | one turn deletes the counter's next level, if any, and reinitialises both rates |
| Reset.ClearedFresh | elements/ip/ipratemon.cc:222-229 | after `clear`, every slot of the node is empty or holds a reset counter |
| Reset.ClearPopulated | elements/ip/ipratemon.cc:222-229 | on a node whose slots all hold counters, `clear` leaves MAX_COUNTERS reset counters, as the code as written does |
| Reset.FreshRootUnpopulated | elements/ip/ipratemon.cc:175-176 | the root `initialize` builds has an empty slot 0, so it is outside what `clear` as written can run on |
| Reset.ClearFreshNoop | elements/ip/ipratemon.cc:219-231 | `clear` on a node whose counters are already reset changes neither the table nor the layout |
| Reset.ClearTwice | elements/ip/ipratemon.cc:219-231 | a second `clear` of the same node leaves the state the first one left |
| Reset.ClearCharge | elements/ip/ipratemon.cc:224 | `clear` gives back exactly the memory of the nodes strictly below the node and of their counters |
| Eviction.Fold | elements/ip/ipratemon.cc:118-146 | the sweep removes exactly the subtrees of the nodes it finds idle; survivors keep their owners, their counters that have a next level are decayed; `_prev_deleted` ends null; the monitor stays well formed |
| Eviction.FoldStart | elements/ip/ipratemon.cc:122-123 | the sweep starts at `_last` with `_prev_deleted` null and nothing removed |
| Eviction.FoldFrom | elements/ip/ipratemon.cc:126-145 | the loop terminates: each turn moves the cursor to a strictly earlier age-list position, and when the cursor is null every position has been dealt with |
| Eviction.FoldStep | elements/ip/ipratemon.cc:126-144 | one turn on the cursor: the next cursor is `_prev_deleted`, read after the deletion, and is a live node at a strictly earlier position |
| Eviction.FoldOwned | elements/ip/ipratemon.cc:133-140 | a non-root cursor has its owning counter decayed, then it is deleted when both averages are below the threshold and kept otherwise |
| Eviction.DecayOwner | elements/ip/ipratemon.cc:134-135 | both rates of the owning counter are updated at `now` with delta 0, and nothing else changes |
| Eviction.FoldRoot | elements/ip/ipratemon.cc:127-131 | at the root the sweep deletes nothing and moves to the root's `_prev` |
| Eviction.FoldKeep | elements/ip/ipratemon.cc:139-140 | a node that is not quiet stays and the cursor moves to its `_prev` |
| Eviction.FoldEvict | elements/ip/ipratemon.cc:138 | a quiet node is deleted with its subtree and the sweep's bookkeeping moves on |
| Eviction.CursorLive | elements/ip/ipratemon.cc:143 | a non-null next cursor is a node still in the arena, never a freed one |
| Eviction.FoldDone | elements/ip/ipratemon.cc:143-144 | when the cursor is null the state is the sweep's final state |
| Eviction.RootSurvives | elements/ip/ipratemon.cc:127-131 | the root is never removed by fold |
| Eviction.FoldRule | elements/ip/ipratemon.cc:133-140 | a node whose owning counter, decayed at `now`, has both averages below the threshold is gone; every surviving non-root node still hangs from its owning counter, which is decayed in place and not quiet |
| Eviction.FoldCharge | elements/ip/ipratemon.cc:138 | fold gives back exactly sizeof(Stats) per removed node and sizeof(Counter) per counter those nodes held |
| Dump.TreeOrdered | elements/ip/ipratemon.cc:262-263 | in a well-formed trie every next level is a live node numbered above its owner, so the recursion of `print` is well founded |
| Dump.ReachedIn | elements/ip/ipratemon.cc:241-264 | every counter `print` reaches from a node lies in that node's subtree |
| Dump.RenderedFrame | elements/ip/ipratemon.cc:236-267 | the dump of a node depends only on the nodes of its subtree |
| Dump.PrintNode | elements/ip/ipratemon.cc:236-267 | `print(s, ip)` returns the reference dump `Rendered` of the trie as it was on entry, and decays to `now` exactly the counters it reached (shown counters, and those below them) |
| Dump.PrintSlot | elements/ip/ipratemon.cc:242-264 | one turn contributes the slot's part of the dump: nothing for an empty or unshown slot |
| Dump.PrintShown | elements/ip/ipratemon.cc:246-264 | a shown counter contributes its key, its two decayed averages and the dump of its next level under the key prefixed by a tab |
| Dump.Print | elements/ip/ipratemon.cc:276 | `print(_base)` dumps the whole trie with an empty root key; the age list, the trie and the charge are unchanged and the monitor stays well formed |
| RateMonitor.Monitor.constructor | elements/ip/ipratemon.cc:79-90 | after the constructor (lines 24-27: nothing charged) and `initialize`, the root is the only node, both ends of the age list, has empty slots and no links, and exactly one sizeof(Stats) is charged |
| RateMonitor.Monitor.ShowAgeList | elements/ip/ipratemon.cc:149-162 | the walk from `_first` along `_next` visits the age list in order and stops at `_last`, so the consistency check always passes |
| RateMonitor.Monitor.Fold | elements/ip/ipratemon.cc:118-146 | `fold` on the monitor: the new state is the sweep's result and the invariant holds |
| RateMonitor.Monitor.ClearRoot | elements/ip/ipratemon.cc:305 | the reset handler's `_base->clear()`, callable in every reachable state, the fresh root included: the new state is `clear`'s result on the root and the invariant holds |
| RateMonitor.Monitor.PrintRoot | elements/ip/ipratemon.cc:276 | the `look` handler's dump of the root: the output is the reference dump, only the reached counters are decayed, and the invariant holds |

## Left out

- Insertion of counters and nodes (`update_rates`, with its age-list update and memory
  accounting) is declared in `ipratemon.hh`, which is not part of this model. So are `push` and
  `pull`, which call it, and the random sampling in `push`.
- Configuration parsing, the threshold scaling `(thresh * ratio) >> 16`, `memmax` and the read
  handlers are left out: they are parsing and I/O around the engine.
- The `look` handler's first line (ticks since the last reset) and `set_resettime` are left out
  because they read the clock. `Monitor.PrintRoot` models only the handler's `print(_base)`,
  and `Monitor.ClearRoot` only the reset handler's `_base->clear()`.
- `click_chatter` output is not modelled. `ShowAgeList` returns the nodes it visits and the
  result of its consistency test instead of printing them.
- The rate estimator's arithmetic is in ewma.cc, which is not part of this model. `update(now,
  delta)` is a function parameter.
- `initialize()` on a rate is taken to give one fixed estimator that does not read the clock,
  `Ewma.Initial` = `Estimator(0, 0)`, time stamp included. `Reset.ClearFreshNoop` and
  `Reset.ClearTwice` rest on this. If `initialize()` stamped the current tick, a second `clear`
  would give the first one's state only up to the estimators' time stamps.
- The clock `MyEWMA::now()` is a parameter `now`. `print` reads the clock again at every level
  of its recursion; the model gives the whole dump one tick.
- sizeof(Stats) and sizeof(Counter) are symbolic sizes (`Sizes`), not the platform's values.
  `_alloced_mem` is an unbounded integer, so overflow is not modelled.
- `initialize`'s error path for a failed `new` is left out: the model's allocation cannot fail.
- `uninitialize` (deleting the root) is left out. `DeleteStats` requires a non-root node, which
  is the only kind that `fold` (and `clear`, via next levels) ever deletes.
- Reset.ClearStats: when a next level was deleted, `_prev_deleted` is left unspecified. The
  source leaves there whatever the last deletion set, and nothing reads it before the next
  `fold` resets it. It is specified to be unchanged when nothing was deleted.
- Monitor.ClearRoot: it states the same as `ClearStats` on the root, with the same gap for
  `_prev_deleted`.
- Updates in place are modelled per operation: each operation builds the new table as a value,
  and the class installs it in one step. Pointer aliasing is replaced by node numbers in the
  arena.

## Findings

| source | as written | input that shows it | evidently intended | confidence | as-written member | corrected member |
|---|---|---|---|---|---|---|
| elements/ip/ipratemon.cc:222-229 | `clear` reads `counter[i]->next_level` and reinitialises `counter[i]`'s rates for every slot `i`, with no test for an empty slot | a write to the reset handler (line 305) right after `initialize`, when every slot of the root is still null (lines 175-176) | skip empty slots, as the destructor's loop does (line 189), so that they stay empty | not executed | Reset.FreshRootUnpopulated | Reset.ClearStats |
