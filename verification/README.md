# tasky list core, in Dafny

A model of the list-maintenance logic of tasky's `List` class
(`src/index.ts`), a browser checklist whose items have an id, a title and a
done/pending status. The model works on plain sequences of
`Item(id, title, status)` records. It has no DOM.

- `Sorting.GetSortedIndex` is `getSortedIndex`. It performs a stable two-way
  partition: pending items first, then done items, each group in its original
  relative order. It records the original index of every element. It adopts
  the new order when that index mapping is not the identity, and it returns
  the new position of the tracked item.
- `Moves.Move` and `Moves.ReorderItems` are `reorderItems`. They act on a
  sequence that stands in for the list's child nodes. After `renderList` that
  sequence holds one node per item, in item order; the model names each node
  by the id of its item, so freshly rendered rows are `Ids(items)`.
- `TaskList.UpdateItem` is `updateItem`. It finds the first item with the id,
  or fails with `NotFound`. It optionally sets the status, re-sorts and records
  exactly one `Movement{from, to}`, then optionally sets the title of that
  item wherever it now is.
- `TaskList.AddItem` is `addItem`. A bounded retry loop draws candidate ids
  until one is not taken, then prepends a new pending item. If no id is found,
  the list is left as it was.

Main results:
- the sort is a permutation, it is partitioned, and it is stable (`RankOrder`);
- the mapping is the identity exactly when the list is already partitioned;
- the returned index tracks the toggled item, and the `indexOf` never fails;
- single-move sufficiency: from a partitioned list, the one movement
  `updateItem` issues turns the old rows into the new item order
  (`SetStatusNeedsOneMove`, `UpdateKeepsRowsInSync`). Without a partitioned
  start this fails (`UnpartitionedStartDesyncs`).

Files: `results.dfy` (Option/Result), `seqs.dfy` (indexOf, removal/insertion),
`items.dfy` (records, partition predicate, status filter), `sorting.dfy`
(`getSortedIndex`), `moves.dfy` (`reorderItems`), `tasklist.dfy`
(`updateItem`, `addItem`, the single-move results).

Behaviours of `src/index.ts` worth knowing:
- Every status update issues exactly one movement, even when the status does
  not change. In a partitioned list that movement is `{from: i, to: i}` and
  leaves the items and the rows as they are (`UpdateToSameStatus`). In a list
  that is not partitioned, re-setting a status still re-sorts the list and
  can move the item.
- When the tracked index is missing from the mapping, `getSortedIndex`
  returns `originalIndex`. For an index inside the list this cannot happen
  (`IndexOfMapping`).
- Take `[A (pending), B (done), C (pending)]` and mark A done. The stable
  partition gives `[C, A, B]` and the movement `{0, 1}`, because A came
  before B. Applied to the rows `[A, B, C]`, that movement gives `[B, A, C]`,
  which no longer matches the items (`UnpartitionedStartDesyncs`).

## Model

| member | source | states |
|---|---|---|
| Seqs.IndexOf | src/index.ts:244-245 | the first position holding the value, or -1 exactly when the value is absent; nothing before the returned position holds it |
| Items.WithStatus | src/index.ts:223-231 | the items the `forEach` pushes onto one group all have that group's status and are no more than the list |
| Items.FilteredBlocks | src/index.ts:223-234 | a pending block followed by a done block is split back into exactly those two blocks |
| Items.WithStatusSplits | src/index.ts:223-231 | every item lands in exactly one of the two groups: the group lengths add up and the two multisets together are the list's multiset |
| Items.WithStatusSplitsIds | src/index.ts:223-233 | the two groups together hold every id of the list exactly as often as the list does |
| Items.PartitionedIsFiltered | src/index.ts:233-243 | for a list already partitioned, pending items followed by done items is the list itself |
| Items.PartitionedSplit | src/index.ts:223-234 | a partitioned list is a pending block, as long as the pending group, followed by a done block |
| Sorting.IndexesWith | src/index.ts:223-231 | the recorded indexes of a group are in range, point at items of that group's status, strictly increase, and are as many as the group's items |
| Sorting.SelectIndexesWith | src/index.ts:223-231 | each recorded index points at the item pushed with it |
| Sorting.CanonicalSelectsMapping | src/index.ts:233-234 | the new order is the old list read at the recorded original indexes |
| Sorting.GetSortedIndex | src/index.ts:211-251 | the resulting items are pending-then-done in original relative order, a partitioned permutation of the input; a partitioned input is kept with `originalIndex` returned; for an index in the list the result is its `Rank` and holds the tracked item; otherwise `originalIndex` is returned |
| Sorting.Canonical | src/index.ts:233 | `updatedList` is as long as the list; that it is a partitioned permutation is stated by `GetSortedIndex` and `CanonicalPartitioned` |
| Sorting.Mapping | src/index.ts:234 | `updatedIndexesList` has one entry per item, each an index of the list |
| Sorting.CanonicalPartitioned | src/index.ts:233-234 | the new order has no done item before a pending one |
| Sorting.NeedToReRender | src/index.ts:236-241 | the loop with early `break` reports a re-render exactly when the mapping differs from the identity somewhere |
| Sorting.IndexesWithPrefix | src/index.ts:223-231 | the indexes recorded for a prefix of the list are a prefix of those recorded for the whole list |
| Sorting.IndexAtRank | src/index.ts:223-231 | an item is recorded in its group right after the same-status items that precede it |
| Sorting.MappingAtRank | src/index.ts:233-234 | the mapping has one entry per item and sends the item's `Rank` back to its original index |
| Sorting.MappingInjective | src/index.ts:233-234 | no original index is recorded twice |
| Sorting.IndexOfMapping | src/index.ts:244-247 | `indexOf(originalIndex)` on the mapping returns the item's `Rank`, so it never yields -1 for an index of the list |
| Sorting.RankOfPartitioned | src/index.ts:236-241 | in a partitioned list every item already sits at its `Rank` |
| Sorting.MappingIdentityIffPartitioned | src/index.ts:233-243 | the index mapping is the identity if and only if the list is partitioned, so a new order is adopted exactly when one is needed |
| Sorting.CanonicalAtRank | src/index.ts:233-246 | the new order holds each item at its `Rank` |
| Sorting.WithStatusPrefixGrows | src/index.ts:223-231 | an earlier item of a status has strictly fewer items of that status before it than a later position |
| Sorting.RankOrder | src/index.ts:223-234 | stability and partition: of two items, the earlier ends first in the new order exactly unless it is done and the later one is pending; distinct items get distinct positions |
| Sorting.CanonicalUniqueIds | src/index.ts:233-243 | the new order keeps ids unique |
| Sorting.CanonicalIds | src/index.ts:233-243 | the new order keeps the multiset of ids |
| Moves.Move | src/index.ts:150-162 | one movement keeps the length and equals taking the node out and reinserting it at `min(to, len-1)` (last for negative `to`), whatever branch the DOM calls take |
| Moves.Destination | src/index.ts:154-160 | where a moved node lands: an index of the list; `to` itself when it is an index of the list, the last position when `to` is at or past the end or negative |
| Moves.MovePermutes | src/index.ts:150-162 | a movement keeps the multiset of nodes |
| Moves.MoveLands | src/index.ts:154-161 | for `to >= 0` the moved node ends at `min(to, len-1)` and all other nodes keep their relative order |
| Moves.MoveToSelf | src/index.ts:157-160 | a movement with `from == to` is the identity |
| Moves.MoveForward | src/index.ts:157-160 | moving a node forward to the end of a following block places it right after that block |
| Moves.MoveBackward | src/index.ts:157-160 | moving a node back to the start of a preceding block places it right before that block |
| Moves.ReorderItems | src/index.ts:148-164 | applying a list of movements keeps the length and the multiset of nodes |
| TaskList.IdsIgnoreFields | src/index.ts:197-204 | setting a status or title leaves ids, their uniqueness, and (for a title) the partition unchanged |
| TaskList.UpdateItem | src/index.ts:188-209 | the update fails, with `NotFound(itemId)`, exactly when no item has the id; on success the length is kept and there is exactly one movement if a status was given, none otherwise; that movement goes from the index of the first item with the id to where that item now sits, and the item found there (at its old index when no status was given) is the old item with the requested status and title and its id unchanged |
| TaskList.Applied | src/index.ts:195-205 | the updated item keeps its id and takes each requested field, keeping the old value of a field not requested |
| TaskList.SetStatus | src/index.ts:197 | setting a status changes only the status of the item at that index; every other item and field stays |
| TaskList.SetTitle | src/index.ts:204 | setting a title changes only the title of the item at that index; every other item and field stays |
| TaskList.UpdateItemFrame | src/index.ts:195-206 | only the target changes: the updated list is a permutation of the old list with the first item of the id replaced by its updated version, so every other item keeps its title and status |
| TaskList.UpdateItemKeepsIds | src/index.ts:195-206 | an update keeps the multiset of ids and keeps unique ids unique |
| TaskList.UpdateItemPartitions | src/index.ts:195-206 | after a status update the list is partitioned; any update keeps a partitioned list partitioned |
| TaskList.UpdateTitleOnly | src/index.ts:202-206 | a title-only update succeeds for a present id, issues no movement and changes only the title of the first item with that id |
| TaskList.SortCompleted | src/index.ts:223-234 | sorting pending, done item, pending, done puts that done item at the front of the done block |
| TaskList.SortReopened | src/index.ts:223-234 | sorting pending, done, pending item, done puts that pending item at the back of the pending block |
| TaskList.CompletedShape | src/index.ts:195-197 | in a partitioned list, marking a pending item done gives pending, the item, pending, done |
| TaskList.ReopenedShape | src/index.ts:195-197 | in a partitioned list, marking a done item pending gives pending, done, the item, done |
| TaskList.CompleteMovesOnce | src/index.ts:195-199 | in a partitioned list a pending item marked done moves to the first slot of the done block, and the one movement yields the new order |
| TaskList.ReopenMovesOnce | src/index.ts:195-199 | in a partitioned list a done item marked pending moves to the last slot of the pending block, and the one movement yields the new order |
| TaskList.SetStatusNeedsOneMove | src/index.ts:195-199 | single-move sufficiency: from a partitioned list, the one movement applied to the old order gives exactly the new items, with the landing index stated for each direction |
| TaskList.MoveIds | src/index.ts:142-145 | moving rows then reading ids equals moving the ids, so the row list can stand for the items |
| TaskList.UpdateKeepsRowsInSync | src/index.ts:195-206 | from a partitioned list whose rows follow the items, the movements `updateItem` issues bring the rows into the new item order |
| TaskList.UpdateToSameStatus | src/index.ts:195-199 | re-setting an item's current status in a partitioned list keeps the items and issues `{from: i, to: i}`, which leaves the rows as they are |
| TaskList.SameStatusKeepsItems | src/index.ts:236-250 | sorting a partitioned list after re-setting a status keeps the list and returns the same index |
| TaskList.AddItem | src/index.ts:166-185 | all candidates before the accepted one were taken; a found id is fresh and heads a new pending item before the old items; when `SafeExitLimit` (one billion) draws are used up every candidate was taken and the items are unchanged; unique ids and the partition are preserved |
| TaskList.UnpartitionedStartDesyncs | src/index.ts:195-199 | for `[a pending, b done, c pending]`, marking `a` done gives `[c, a, b]` and movement `{0, 1}`, whose rows `[b, a, c]` differ from the items |
| TaskList.ScenarioUpdate | src/index.ts:188-200 | for `[a pending, b done, c pending]`, marking `a` done succeeds with the items `[c, a done, b]` and the single movement `{from: 0, to: 1}` |
| TaskList.ScenarioSort | src/index.ts:211-251 | for `[a done, b done, c pending]` (the list above after `a` is marked done), tracking index 0 gives the new order `[c, a, b]` and the returned index 1 |
| TaskList.ScenarioRows | src/index.ts:148-164 | the movement `{from: 0, to: 1}` turns the rows `[a, b, c]` (whatever the statuses, so also for `[a pending, b done, c pending]`) into `[b, a, c]` |

## Left out

- DOM construction and event wiring are left out: `renderInput`, `renderLabel`, `renderItem`, `renderAddNewItemElement`, `renderList`, `initialize` and the `node` field (src/index.ts:62-146, 253-267). Only the effect of `reorderItems` on a sequence standing for the child nodes is modelled. A re-rendered row keeps its place and its item's id, so title updates leave the rows unchanged.
- `window.prompt` and `window.alert` are interactive I/O. The callers' guard that skips empty titles is not modelled, so `AddItem` and `UpdateItem` accept any title.
- Loading from and saving to `localStorage`, with JSON parse/stringify (src/index.ts:39-43, 54-60), are left out. That is I/O and a foreign serialiser. No lemma assumes a loaded list is partitioned; single-move sufficiency takes partitioning as a precondition.
- `Math.random()*1e9` and the number-to-string conversion are floats and randomness. They become the parameter `draw: nat -> string`, the sequence of values the random source yields. The retry ceiling is the constant `SafeExitLimit`, as in the source.
- `DEBUG_MODE` logging is left out.
- `status` is typed as a boolean. A loaded non-boolean status, which the code's `item.status === true` would treat as pending, is not modelled.
- Moves.Move: requires `from` to be an index of the list. With any other `from`, `listItems[from]` is undefined and reading its `parentNode` throws. The `if (parentNode)` guard always holds for a child of the list and is not modelled.
- TaskList.UpdateItem: a failed update returns `NotFound` and no new list. The caller keeps its list, matching the throw that happens before any mutation.
