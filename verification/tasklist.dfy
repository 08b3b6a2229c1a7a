/** The `List` operations that change the items: `updateItem` and `addItem`,
    and the claim that the single movement `updateItem` issues keeps the
    rendered rows in item order. */
module TaskList {
  import opened Results
  import opened Seqs
  import opened Items
  import opened Sorting
  import opened Moves

  /** `ItemUpdates`: each field is optional. */
  datatype Change = Change(title: Option<string>, status: Option<bool>)

  /** The error `updateItem` throws when no item has the requested id. */
  datatype Error = NotFound(id: string)

  /** What a successful `updateItem` leaves behind: the new items and the
      movements it passed to `reorderItems`. */
  datatype Updated = Updated(items: seq<Item>, movements: seq<Movement>)

  /** The retry ceiling `addItem` uses (`SAFE_EXIT_LIMIT`). */
  const SafeExitLimit: nat := 1_000_000_000

  /** `theItem.status = updatedStatus`: only the item at `i` changes, and
      only its status. */
  function SetStatus(s: seq<Item>, i: int, status: bool): (r: seq<Item>)
    requires 0 <= i < |s|
    ensures |r| == |s|
    ensures r[i].status == status && r[i].id == s[i].id && r[i].title == s[i].title
    ensures forall k :: 0 <= k < |s| && k != i ==> r[k] == s[k]
  {
    s[i := s[i].(status := status)]
  }

  /** `theItem.title = updatedTitle`: only the item at `i` changes, and
      only its title. */
  function SetTitle(s: seq<Item>, i: int, title: string): (r: seq<Item>)
    requires 0 <= i < |s|
    ensures |r| == |s|
    ensures r[i].title == title && r[i].id == s[i].id && r[i].status == s[i].status
    ensures forall k :: 0 <= k < |s| && k != i ==> r[k] == s[k]
  {
    s[i := s[i].(title := title)]
  }

  /** Changing a title or a status leaves every id in place. */
  lemma IdsIgnoreFields(s: seq<Item>, i: int, status: bool, title: string)
    requires 0 <= i < |s|
    ensures Ids(SetStatus(s, i, status)) == Ids(s)
    ensures Ids(SetTitle(s, i, title)) == Ids(s)
    ensures UniqueIds(s) ==> UniqueIds(SetStatus(s, i, status)) && UniqueIds(SetTitle(s, i, title))
    ensures Partitioned(s) ==> Partitioned(SetTitle(s, i, title))
  {
  }

  /** `updateItem(itemId, change)` on the list `items`. The first item with
      the id is updated: its status is set and the list re-sorted, with one
      movement recorded from its old index to the index `getSortedIndex`
      returns; then its title is set wherever the item now is. */
  function UpdateItem(items: seq<Item>, itemId: string, change: Change): (r: Result<Updated, Error>)
    ensures r.Failure? <==> itemId !in Ids(items)
    ensures r.Failure? ==> r.error == NotFound(itemId)
    ensures r.Success? ==>
              && |r.value.items| == |items|
              && |r.value.movements| == (if change.status.Some? then 1 else 0)
              && MovableWithin(r.value.movements, |items|)
    ensures r.Success? ==>
              var i := IndexOf(Ids(items), itemId);
              var to := if change.status.Some? then r.value.movements[0].to else i;
              && (change.status.Some? ==> r.value.movements[0].from == i)
              && 0 <= to < |r.value.items|
              && r.value.items[to] == Applied(items[i], change)
  {
    var theItemIndex := IndexOf(Ids(items), itemId);
    if theItemIndex == -1 then Failure(NotFound(itemId))
    else
      var sorted :=
        match change.status
        case None => Reordered(items, theItemIndex)
        case Some(status) => GetSortedIndex(SetStatus(items, theItemIndex, status), theItemIndex);
      var movements := if change.status.Some? then [Movement(theItemIndex, sorted.index)] else [];
      var titled :=
        match change.title
        case None => sorted.items
        case Some(title) => SetTitle(sorted.items, sorted.index, title);
      Success(Updated(titled, movements))
  }

  /** The item `updateItem` targets, with the requested fields changed and
      the others as they were. */
  function Applied(item: Item, change: Change): (r: Item)
    ensures r.id == item.id
    ensures r.status == (if change.status.Some? then change.status.value else item.status)
    ensures r.title == (if change.title.Some? then change.title.value else item.title)
  {
    item.(status := if change.status.Some? then change.status.value else item.status,
          title := if change.title.Some? then change.title.value else item.title)
  }

  /** An update keeps the multiset of ids, and so keeps them unique. */
  lemma UpdateItemKeepsIds(items: seq<Item>, itemId: string, change: Change)
    requires UpdateItem(items, itemId, change).Success?
    ensures multiset(Ids(UpdateItem(items, itemId, change).value.items)) == multiset(Ids(items))
    ensures UniqueIds(items) ==> UniqueIds(UpdateItem(items, itemId, change).value.items)
  {
    var i := IndexOf(Ids(items), itemId);
    var u := UpdateItem(items, itemId, change).value;
    var status := if change.status.Some? then change.status.value else items[i].status;
    var toggled := SetStatus(items, i, status);
    IdsIgnoreFields(items, i, status, "");
    var sorted := if change.status.Some? then GetSortedIndex(toggled, i) else Reordered(items, i);
    if change.status.Some? {
      CanonicalIds(toggled);
      CanonicalUniqueIds(toggled);
    }
    if change.title.Some? {
      IdsIgnoreFields(sorted.items, sorted.index, false, change.title.value);
    }
  }

  /** Nothing but the target changes: the updated list holds exactly the old
      items with the first item of the id replaced by its updated version,
      wherever the re-sort put them. Every other item keeps its title and
      status. */
  lemma UpdateItemFrame(items: seq<Item>, itemId: string, change: Change)
    requires itemId in Ids(items)
    ensures var i := IndexOf(Ids(items), itemId);
            multiset(UpdateItem(items, itemId, change).value.items) == multiset(items[i := Applied(items[i], change)])
  {
    var i := IndexOf(Ids(items), itemId);
    var y := Applied(items[i], change);
    var sorted := if change.status.Some? then GetSortedIndex(SetStatus(items, i, change.status.value), i) else Reordered(items, i);
    var y0 := if change.status.Some? then items[i].(status := change.status.value) else items[i];
    UpdateItemSteps(items, itemId, change, i, sorted);
    SortedHoldsTarget(items, i, change.status, sorted, y0);
    TitledIsReplaced(sorted.items, sorted.index, change.title, y0, y);
    ReplaceSorted(items, i, sorted.items, sorted.index, y0, y);
  }

  /** After the optional re-sort, the list is a permutation of the list with
      the new status set, and the target sits at the returned index. */
  lemma SortedHoldsTarget(items: seq<Item>, i: int, status: Option<bool>, sorted: Reordered, y0: Item)
    requires 0 <= i < |items|
    requires sorted == if status.Some? then GetSortedIndex(SetStatus(items, i, status.value), i) else Reordered(items, i)
    requires y0 == if status.Some? then items[i].(status := status.value) else items[i]
    ensures 0 <= sorted.index < |sorted.items|
    ensures multiset(sorted.items) == multiset(items[i := y0])
    ensures sorted.items[sorted.index] == y0
  {
    if status.None? {
      assert items[i := y0] == items;
    }
  }

  /** The optional title write is a replacement of the target by its updated version. */
  lemma TitledIsReplaced(c: seq<Item>, k: int, title: Option<string>, y0: Item, y: Item)
    requires 0 <= k < |c| && c[k] == y0
    requires y == if title.Some? then y0.(title := title.value) else y0
    ensures (if title.Some? then SetTitle(c, k, title.value) else c) == c[k := y]
  {
  }

  /** A permutation of the list with its `i`-th item set to `y0`, holding `y0`
      at `k`: setting the `k`-th item to `y` gives a permutation of the list
      with its `i`-th item set to `y`. */
  lemma ReplaceSorted(items: seq<Item>, i: int, c: seq<Item>, k: int, y0: Item, y: Item)
    requires 0 <= i < |items| && 0 <= k < |c|
    requires multiset(c) == multiset(items[i := y0])
    requires c[k] == y0
    ensures multiset(c[k := y]) == multiset(items[i := y])
  {
    MultisetUpdate(c, k, y);
    MultisetUpdate(items, i, y0);
    MultisetUpdate(items, i, y);
  }

  /** A status update always leaves the list partitioned; any update keeps a
      partitioned list partitioned. */
  lemma UpdateItemPartitions(items: seq<Item>, itemId: string, change: Change)
    requires UpdateItem(items, itemId, change).Success?
    requires change.status.Some? || Partitioned(items)
    ensures Partitioned(UpdateItem(items, itemId, change).value.items)
  {
    var i := IndexOf(Ids(items), itemId);
    var sorted := if change.status.Some? then GetSortedIndex(SetStatus(items, i, change.status.value), i) else Reordered(items, i);
    if change.title.Some? {
      IdsIgnoreFields(sorted.items, sorted.index, false, change.title.value);
    }
  }

  /** A title-only update rewrites the title of the first item with the id
      and nothing else: ids, statuses, order and length stay, and no movement
      is issued. */
  lemma UpdateTitleOnly(items: seq<Item>, itemId: string, title: string)
    requires itemId in Ids(items)
    ensures var r := UpdateItem(items, itemId, Change(Some(title), None));
            var i := IndexOf(Ids(items), itemId);
            && r.Success?
            && r.value.movements == []
            && |r.value.items| == |items|
            && items[i].id == itemId
            && r.value.items[i] == items[i].(title := title)
            && forall k :: 0 <= k < |items| && k != i ==> r.value.items[k] == items[k]
  {
  }

  /** Sorting pending `a`, done `x`, pending `b`, done `c`: `x` joins the
      front of the done block. */
  lemma SortCompleted(t: seq<Item>, i: int, a: seq<Item>, x: Item, b: seq<Item>, c: seq<Item>)
    requires AllWithStatus(a, false) && AllWithStatus(b, false) && AllWithStatus(c, true)
    requires x.status
    requires t == a + [x] + b + c && i == |a|
    ensures Canonical(t) == a + b + [x] + c
    ensures Rank(t, i) == |a| + |b|
    ensures GetSortedIndex(t, i) == Reordered(a + b + [x] + c, |a| + |b|)
  {
    WithStatusOfUniformBlocks(a, false, [x], true, b, false, c, true, false);
    WithStatusOfUniformBlocks(a, false, [x], true, b, false, c, true, true);
    assert t[..|a|] == a;
    WithStatusUniform(a, false);
  }

  /** Sorting pending `a`, done `b`, pending `x`, done `c`: `x` joins the
      back of the pending block. */
  lemma SortReopened(t: seq<Item>, i: int, a: seq<Item>, b: seq<Item>, x: Item, c: seq<Item>)
    requires AllWithStatus(a, false) && AllWithStatus(b, true) && AllWithStatus(c, true)
    requires !x.status
    requires t == a + b + [x] + c && i == |a| + |b|
    ensures Canonical(t) == a + [x] + b + c
    ensures Rank(t, i) == |a|
    ensures GetSortedIndex(t, i) == Reordered(a + [x] + b + c, |a|)
  {
    WithStatusOfUniformBlocks(a, false, b, true, [x], false, c, true, false);
    WithStatusOfUniformBlocks(a, false, b, true, [x], false, c, true, true);
    assert t[..|a| + |b|] == a + b;
    WithStatusOfUniformBlocks(a, false, b, true, [], false, [], false, false);
    assert a + b + [] + [] == a + b;
  }

  /** A partitioned list with a pending item at `i`, its status set to done,
      seen as pending `s[..i]`, the item, pending `s[i+1..p]`, done `s[p..]`. */
  lemma CompletedShape(s: seq<Item>, i: int)
    requires Partitioned(s)
    requires 0 <= i < |s| && !s[i].status
    ensures var p := |WithStatus(s, false)|;
            && i < p <= |s|
            && AllWithStatus(s[..i], false)
            && AllWithStatus(s[i + 1..p], false)
            && AllWithStatus(s[p..], true)
            && SetStatus(s, i, true) == s[..i] + [s[i].(status := true)] + s[i + 1..p] + s[p..]
  {
    PartitionedSplit(s);
    var p := |WithStatus(s, false)|;
    AllWithStatusSlice(s[..p], 0, i, false);
    SliceOfPrefix(s, p, 0, i);
    AllWithStatusSlice(s[..p], i + 1, p, false);
    SliceOfPrefix(s, p, i + 1, p);
    UpdateBeforeCut(s, i, p, s[i].(status := true));
  }

  /** A partitioned list with a done item at `i`, its status set to pending,
      seen as pending `s[..p]`, done `s[p..i]`, the item, done `s[i+1..]`. */
  lemma ReopenedShape(s: seq<Item>, i: int)
    requires Partitioned(s)
    requires 0 <= i < |s| && s[i].status
    ensures var p := |WithStatus(s, false)|;
            && 0 <= p <= i
            && AllWithStatus(s[..p], false)
            && AllWithStatus(s[p..i], true)
            && AllWithStatus(s[i + 1..], true)
            && SetStatus(s, i, false) == s[..p] + s[p..i] + [s[i].(status := false)] + s[i + 1..]
  {
    PartitionedSplit(s);
    var p := |WithStatus(s, false)|;
    AllWithStatusSlice(s[p..], 0, i - p, true);
    SliceOfSuffix(s, p, 0, i - p);
    AllWithStatusSlice(s[p..], i + 1 - p, |s| - p, true);
    SliceOfSuffix(s, p, i + 1 - p, |s| - p);
    UpdateAfterCut(s, p, i, s[i].(status := false));
  }

  /** One movement turns pending `a`, done `x`, pending `b`, done `c` into
      the sorted order. */
  lemma CompletedBlocksMoveOnce(t: seq<Item>, i: int, a: seq<Item>, x: Item, b: seq<Item>, c: seq<Item>)
    requires AllWithStatus(a, false) && AllWithStatus(b, false) && AllWithStatus(c, true)
    requires x.status
    requires t == a + [x] + b + c && i == |a|
    ensures var r := GetSortedIndex(t, i);
            && r.index == |a| + |b|
            && Move(t, i, r.index) == r.items
  {
    SortCompleted(t, i, a, x, b, c);
    MoveForward(t, a, x, b, c);
  }

  /** One movement turns pending `a`, done `b`, pending `x`, done `c` into
      the sorted order. */
  lemma ReopenedBlocksMoveOnce(t: seq<Item>, i: int, a: seq<Item>, b: seq<Item>, x: Item, c: seq<Item>)
    requires AllWithStatus(a, false) && AllWithStatus(b, true) && AllWithStatus(c, true)
    requires !x.status
    requires t == a + b + [x] + c && i == |a| + |b|
    ensures var r := GetSortedIndex(t, i);
            && r.index == |a|
            && Move(t, i, r.index) == r.items
  {
    SortReopened(t, i, a, b, x, c);
    MoveBackward(t, a, b, x, c);
  }

  /** A pending item of a partitioned list marked done: it leaves the pending
      block and becomes the first item of the done block. */
  lemma CompleteMovesOnce(s: seq<Item>, i: int)
    requires Partitioned(s)
    requires 0 <= i < |s| && !s[i].status
    ensures var t := SetStatus(s, i, true);
            var r := GetSortedIndex(t, i);
            && r.index == |WithStatus(s, false)| - 1
            && Move(t, i, r.index) == r.items
  {
    CompletedShape(s, i);
    var p := |WithStatus(s, false)|;
    CompletedBlocksMoveOnce(SetStatus(s, i, true), i, s[..i], s[i].(status := true), s[i + 1..p], s[p..]);
  }

  /** A done item of a partitioned list marked pending: it leaves the done
      block and becomes the last item of the pending block. */
  lemma ReopenMovesOnce(s: seq<Item>, i: int)
    requires Partitioned(s)
    requires 0 <= i < |s| && s[i].status
    ensures var t := SetStatus(s, i, false);
            var r := GetSortedIndex(t, i);
            && r.index == |WithStatus(s, false)|
            && Move(t, i, r.index) == r.items
  {
    ReopenedShape(s, i);
    var p := |WithStatus(s, false)|;
    var a, b := s[..p], s[p..i];
    assert |a| + |b| == i;
    ReopenedBlocksMoveOnce(SetStatus(s, i, false), i, a, b, s[i].(status := false), s[i + 1..]);
  }

  /** Single-move sufficiency: when the list is partitioned and one item's
      status is set, the one movement `updateItem` issues, applied to the old
      order, yields exactly the new order. A pending item marked done lands
      first in the done block; a done item marked pending lands last in the
      pending block; an unchanged status moves nothing. */
  lemma SetStatusNeedsOneMove(s: seq<Item>, i: int, status: bool)
    requires Partitioned(s)
    requires 0 <= i < |s|
    ensures var t := SetStatus(s, i, status);
            var p := |WithStatus(s, false)|;
            var r := GetSortedIndex(t, i);
            && Move(t, i, r.index) == r.items
            && r.index == (if status == s[i].status then i else if status then p - 1 else p)
  {
    if status == s[i].status {
      assert SetStatus(s, i, status) == s;
      MoveToSelf(s, i);
    } else if status {
      CompleteMovesOnce(s, i);
    } else {
      ReopenMovesOnce(s, i);
    }
  }

  /** Moving rendered rows and then reading their ids is the same as moving
      the ids: the row list can stand for the item list. */
  lemma MoveIds(s: seq<Item>, from: int, to: int)
    requires 0 <= from < |s|
    ensures Ids(Move(s, from, to)) == Move(Ids(s), from, to)
  {
    var d := Destination(|s|, to);
    var l := Ids(InsertAt(RemoveAt(s, from), d, s[from]));
    var r := InsertAt(RemoveAt(Ids(s), from), d, s[from].id);
    assert |l| == |r|;
    forall k | 0 <= k < |l|
      ensures l[k] == r[k]
    {
    }
  }

  /** The rendered rows after `updateItem` are in item order: starting from a
      partitioned list whose rows follow the items, applying the movements
      `updateItem` issues to the rows yields the ids of the new items. */
  lemma UpdateKeepsRowsInSync(items: seq<Item>, itemId: string, change: Change)
    requires Partitioned(items)
    requires itemId in Ids(items)
    ensures var u := UpdateItem(items, itemId, change).value;
            ReorderItems(Ids(items), u.movements) == Ids(u.items)
  {
    var i := IndexOf(Ids(items), itemId);
    var sorted := if change.status.Some? then GetSortedIndex(SetStatus(items, i, change.status.value), i) else Reordered(items, i);
    UpdateItemSteps(items, itemId, change, i, sorted);
    if change.status.Some? {
      var t := SetStatus(items, i, change.status.value);
      SetStatusNeedsOneMove(items, i, change.status.value);
      IdsIgnoreFields(items, i, change.status.value, "");
      MoveIds(t, i, sorted.index);
      ReorderOne(Ids(items), Movement(i, sorted.index));
    }
    if change.title.Some? {
      IdsIgnoreFields(sorted.items, sorted.index, false, change.title.value);
    }
  }

  /** The steps of `updateItem` for a present id: the re-sort (or not), the
      movement list, then the title set at the item's new index. */
  lemma UpdateItemSteps(items: seq<Item>, itemId: string, change: Change, i: int, sorted: Reordered)
    requires itemId in Ids(items)
    requires i == IndexOf(Ids(items), itemId)
    requires sorted == if change.status.Some? then GetSortedIndex(SetStatus(items, i, change.status.value), i) else Reordered(items, i)
    ensures 0 <= sorted.index < |sorted.items|
    ensures UpdateItem(items, itemId, change)
            == Success(Updated(
                 if change.title.Some? then SetTitle(sorted.items, sorted.index, change.title.value) else sorted.items,
                 if change.status.Some? then [Movement(i, sorted.index)] else []))
  {
  }

  /** Setting an item of a partitioned list to the status it already has
      keeps the items as they are and issues the movement `{from: i, to: i}`,
      which leaves the rows as they are. */
  lemma UpdateToSameStatus(items: seq<Item>, itemId: string)
    requires Partitioned(items)
    requires itemId in Ids(items)
    ensures var i := IndexOf(Ids(items), itemId);
            var r := UpdateItem(items, itemId, Change(None, Some(items[i].status)));
            && r == Success(Updated(items, [Movement(i, i)]))
            && ReorderItems(Ids(items), r.value.movements) == Ids(items)
  {
    var i := IndexOf(Ids(items), itemId);
    SameStatusKeepsItems(items, i);
    UpdateStatusOnly(items, itemId, items[i].status, i, Reordered(items, i));
    MoveToSelf(Ids(items), i);
    ReorderOne(Ids(items), Movement(i, i));
  }

  lemma SameStatusKeepsItems(items: seq<Item>, i: int)
    requires Partitioned(items)
    requires 0 <= i < |items|
    ensures GetSortedIndex(SetStatus(items, i, items[i].status), i) == Reordered(items, i)
  {
    assert SetStatus(items, i, items[i].status) == items;
  }

  /** `addItem({title})`: up to `SafeExitLimit` candidate ids are drawn until one is
      not taken; a found id heads a new pending item at the front of the list,
      otherwise the list stays as it was. `draw(k)` is the `k`-th value the
      random source yields; the draw before the loop (`draw(0)`) is
      overwritten before it is used. */
  method AddItem(items: seq<Item>, title: string, draw: nat -> string)
    returns (r: seq<Item>, unique: bool, safeExit: nat)
    ensures safeExit <= SafeExitLimit
    ensures forall k :: 1 <= k < safeExit ==> draw(k) in Ids(items)
    ensures unique ==>
              && 1 <= safeExit
              && draw(safeExit) !in Ids(items)
              && r == [Item(draw(safeExit), title, false)] + items
    ensures !unique ==>
              && safeExit == SafeExitLimit
              && r == items
              && forall k :: 1 <= k <= SafeExitLimit ==> draw(k) in Ids(items)
    ensures UniqueIds(items) ==> UniqueIds(r)
    ensures Partitioned(items) ==> Partitioned(r)
  {
    var candidateId := draw(0);
    unique := false;
    safeExit := 0;
    while !unique && safeExit < SafeExitLimit
      invariant safeExit <= SafeExitLimit
      invariant 0 < safeExit ==> candidateId == draw(safeExit) && (unique <==> candidateId !in Ids(items))
      invariant unique ==> 0 < safeExit
      invariant forall k :: 1 <= k < safeExit ==> draw(k) in Ids(items)
    {
      candidateId := draw(safeExit + 1);
      unique := candidateId !in Ids(items);
      safeExit := safeExit + 1;
    }
    if !unique {
      r := items;
    } else {
      r := [Item(candidateId, title, false)] + items;
      assert forall j :: 0 <= j < |items| ==> items[j].id == Ids(items)[j];
    }
  }

  /** Without a partitioned start one movement is not enough. Marking `a`
      done in `[a (pending), b (done), c (pending)]` sorts the items to
      `[c, a, b]` and issues `{from: 0, to: 1}`, which turns the rows into
      `[b, a, c]`. */
  lemma UnpartitionedStartDesyncs(a: Item, b: Item, c: Item)
    requires !a.status && b.status && !c.status
    requires b.id != c.id
    ensures UpdateItem([a, b, c], a.id, Change(None, Some(true)))
            == Success(Updated([c, a.(status := true), b], [Movement(0, 1)]))
    ensures ReorderItems(Ids([a, b, c]), [Movement(0, 1)]) == [b.id, a.id, c.id]
    ensures [b.id, a.id, c.id] != Ids([c, a.(status := true), b])
  {
    ScenarioUpdate(a, b, c);
    ScenarioRows(a, b, c);
    assert Ids([c, a.(status := true), b])[0] == c.id;
  }

  lemma ScenarioRows(a: Item, b: Item, c: Item)
    ensures ReorderItems(Ids([a, b, c]), [Movement(0, 1)]) == [b.id, a.id, c.id]
  {
    assert Ids([a, b, c]) == [a.id, b.id, c.id];
    ScenarioMove(a.id, b.id, c.id);
  }

  lemma ScenarioUpdate(a: Item, b: Item, c: Item)
    requires !a.status && b.status && !c.status
    ensures UpdateItem([a, b, c], a.id, Change(None, Some(true)))
            == Success(Updated([c, a.(status := true), b], [Movement(0, 1)]))
  {
    ScenarioIndex(a, b, c);
    ScenarioSetStatus(a, b, c);
    ScenarioSort(a.(status := true), b, c);
    UpdateStatusOnly([a, b, c], a.id, true, 0, Reordered([c, a.(status := true), b], 1));
  }

  lemma ScenarioIndex(a: Item, b: Item, c: Item)
    ensures a.id in Ids([a, b, c]) && IndexOf(Ids([a, b, c]), a.id) == 0
  {
    assert Ids([a, b, c]) == [a.id, b.id, c.id];
  }

  lemma ScenarioSetStatus(a: Item, b: Item, c: Item)
    ensures SetStatus([a, b, c], 0, true) == [a.(status := true), b, c]
  {
  }

  /** A status-only update is the re-sort of the list with that status set,
      plus the one movement. */
  lemma UpdateStatusOnly(items: seq<Item>, itemId: string, status: bool, i: int, r: Reordered)
    requires itemId in Ids(items)
    requires i == IndexOf(Ids(items), itemId)
    requires r == GetSortedIndex(SetStatus(items, i, status), i)
    ensures UpdateItem(items, itemId, Change(None, Some(status))) == Success(Updated(r.items, [Movement(i, r.index)]))
  {
  }

  lemma ScenarioSort(a: Item, b: Item, c: Item)
    requires a.status && b.status && !c.status
    ensures GetSortedIndex([a, b, c], 0) == Reordered([c, a, b], 1)
  {
    ScenarioCanonical(a, b, c);
    ScenarioRank(a, b, c);
  }

  lemma ScenarioCanonical(a: Item, b: Item, c: Item)
    requires a.status && b.status && !c.status
    ensures Canonical([a, b, c]) == [c, a, b]
  {
    assert [a, b, c] == [a] + [b] + [c] + [];
    WithStatusOfUniformBlocks([a], true, [b], true, [c], false, [], false, false);
    WithStatusOfUniformBlocks([a], true, [b], true, [c], false, [], false, true);
  }

  lemma ScenarioRank(a: Item, b: Item, c: Item)
    requires a.status && b.status && !c.status
    ensures Rank([a, b, c], 0) == 1
  {
    assert [a, b, c] == [a] + [b] + [c] + [];
    WithStatusOfUniformBlocks([a], true, [b], true, [c], false, [], false, false);
    assert [a, b, c][..0] == [];
  }

  lemma ScenarioMove(x: string, y: string, z: string)
    ensures ReorderItems([x, y, z], [Movement(0, 1)]) == [y, x, z]
  {
    assert Move([x, y, z], 0, 1) == [y, x, z];
  }
}
