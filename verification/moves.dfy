/** `List.reorderItems` as a pure function on a sequence standing in for the
    rendered list's child nodes. After `renderList` that sequence holds one
    node per item, in item order. */
module Moves {
  import opened Seqs

  /** A relocation request: positions in the list as it was before the move. */
  datatype Movement = Movement(from: int, to: int)

  /** The index the moved node ends at. A negative `to` makes the source look
      up `listItems[to]`, which is undefined; `insertBefore` with an undefined
      reference appends, so such a node also ends last. */
  function Destination(n: int, to: int): (r: int)
    ensures 0 < n ==> 0 <= r < n
    ensures 0 <= to < n ==> r == to
    ensures n - 1 <= to || to < 0 ==> r == n - 1
  {
    if 0 <= to then Min(to, n - 1) else n - 1
  }

  /** One movement as `reorderItems` applies it: take the node at `from`;
      append it when `to` is at or past the last position; otherwise insert
      it before the node that, before the removal, was at `to + 1` (when
      `to > from`) or at `to`. Inserting a node before itself leaves the list
      as it was. */
  function Move<T>(nodes: seq<T>, from: int, to: int): (r: seq<T>)
    requires 0 <= from < |nodes|
    ensures |r| == |nodes|
    ensures r == InsertAt(RemoveAt(nodes, from), Destination(|nodes|, to), nodes[from])
  {
    var child := nodes[from];
    if to >= |nodes| - 1 then RemoveAt(nodes, from) + [child]
    else
      var before := if to > from then to + 1 else to;
      if before < 0 then RemoveAt(nodes, from) + [child]
      else InsertAt(RemoveAt(nodes, from), if before > from then before - 1 else before, child)
  }

  /** A move keeps every node: it only relocates one. */
  lemma MovePermutes<T>(nodes: seq<T>, from: int, to: int)
    requires 0 <= from < |nodes|
    ensures multiset(Move(nodes, from, to)) == multiset(nodes)
  {
    RemoveAtMultiset(nodes, from);
    InsertAtMultiset(RemoveAt(nodes, from), Destination(|nodes|, to), nodes[from]);
  }

  /** The moved node ends at `min(to, len - 1)`, and the other nodes keep their
      relative order. */
  lemma MoveLands<T>(nodes: seq<T>, from: int, to: int)
    requires 0 <= from < |nodes|
    requires 0 <= to
    ensures Move(nodes, from, to)[Min(to, |nodes| - 1)] == nodes[from]
    ensures RemoveAt(Move(nodes, from, to), Min(to, |nodes| - 1)) == RemoveAt(nodes, from)
  {
    RemoveInsertedAt(RemoveAt(nodes, from), Min(to, |nodes| - 1), nodes[from]);
  }

  /** A movement from a position to itself changes nothing. */
  lemma MoveToSelf<T>(nodes: seq<T>, i: int)
    requires 0 <= i < |nodes|
    ensures Move(nodes, i, i) == nodes
  {
    InsertRemovedAt(nodes, i);
  }

  /** True when every movement's `from` names a node of a list of length `n`. */
  predicate MovableWithin(movements: seq<Movement>, n: int)
  {
    forall k :: 0 <= k < |movements| ==> 0 <= movements[k].from < n
  }

  /** `reorderItems(movements)`: the movements applied one after another to
      the live node list. */
  function ReorderItems<T>(nodes: seq<T>, movements: seq<Movement>): (r: seq<T>)
    requires MovableWithin(movements, |nodes|)
    ensures |r| == |nodes|
    ensures multiset(r) == multiset(nodes)
    decreases |movements|
  {
    if |movements| == 0 then nodes
    else
      var m := movements[0];
      MovePermutes(nodes, m.from, m.to);
      ReorderItems(Move(nodes, m.from, m.to), movements[1..])
  }

  /** Reordering with a single movement is that one move. */
  lemma ReorderOne<T>(nodes: seq<T>, m: Movement)
    requires 0 <= m.from < |nodes|
    ensures ReorderItems(nodes, [m]) == Move(nodes, m.from, m.to)
  {
    assert [m][1..] == [];
  }

  /** Moving a node forward past the block `b` puts it right after `b`. */
  lemma MoveForward<T>(t: seq<T>, a: seq<T>, x: T, b: seq<T>, c: seq<T>)
    requires t == a + [x] + b + c
    ensures Move(t, |a|, |a| + |b|) == a + b + [x] + c
  {
    assert t[|a|] == x;
    assert RemoveAt(t, |a|) == a + b + c by {
      assert t[..|a|] == a;
      assert t[|a| + 1..] == b + c;
    }
    assert (a + b + c)[..|a| + |b|] == a + b;
    assert (a + b + c)[|a| + |b|..] == c;
  }

  /** Moving a node back past the block `b` puts it right before `b`. */
  lemma MoveBackward<T>(t: seq<T>, a: seq<T>, b: seq<T>, x: T, c: seq<T>)
    requires t == a + b + [x] + c
    ensures Move(t, |a| + |b|, |a|) == a + [x] + b + c
  {
    assert t[|a| + |b|] == x;
    assert RemoveAt(t, |a| + |b|) == a + b + c by {
      assert t[..|a| + |b|] == a + b;
      assert t[|a| + |b| + 1..] == c;
    }
    assert (a + b + c)[..|a|] == a;
    assert (a + b + c)[|a|..] == b + c;
  }
}
