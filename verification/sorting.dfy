/** `List.getSortedIndex`: a stable two-way partition of the items into
    pending then done, together with the original index of every element,
    and the new position of one tracked item. */
module Sorting {
  import opened Seqs
  import opened Items

  /** The positions of the items whose status is `done`, in increasing order:
      what the `forEach` pushes onto `doneItemsIndexes` (for `true`) or
      `pendingItemsIndexes` (for `false`) alongside the items themselves. */
  function IndexesWith(s: seq<Item>, done: bool): (r: seq<int>)
    ensures |r| == |WithStatus(s, done)|
    ensures forall k :: 0 <= k < |r| ==> 0 <= r[k] < |s| && s[r[k]].status == done
    ensures forall k, l :: 0 <= k < l < |r| ==> r[k] < r[l]
  {
    if |s| == 0 then []
    else IndexesWith(s[..|s| - 1], done) + (if s[|s| - 1].status == done then [|s| - 1] else [])
  }

  /** `updatedIndexesList`: position `k` holds the original index of the item
      that the new order puts at `k`. */
  function Mapping(s: seq<Item>): (r: seq<int>)
    ensures |r| == |s|
    ensures IndexesBelow(r, |s|)
  {
    WithStatusLengths(s);
    IndexesWith(s, false) + IndexesWith(s, true)
  }

  /** `updatedList`: the pending items, then the done items, each group in its
      original relative order. */
  function Canonical(s: seq<Item>): (r: seq<Item>)
    ensures |r| == |s|
  {
    WithStatusLengths(s);
    WithStatus(s, false) + WithStatus(s, true)
  }

  /** Where the stable partition puts the item at `i`: after the items of its
      own status that precede it, and, if it is done, after every pending item. */
  function Rank(s: seq<Item>, i: int): int
    requires 0 <= i < |s|
  {
    |WithStatus(s[..i], s[i].status)| + (if s[i].status then |WithStatus(s, false)| else 0)
  }

  /** The outcome of `getSortedIndex`: the list the object holds afterwards
      and the index the call returns. */
  datatype Reordered = Reordered(items: seq<Item>, index: int)

  /** `getSortedIndex(originalIndex)` applied to the list `items`. Its `for`
      loop over `updatedIndexesList`, which sets `needToReRender`, is
      `!IsIdentity`, carried out step by step in `NeedToReRender`. */
  function GetSortedIndex(items: seq<Item>, originalIndex: int): (r: Reordered)
    ensures r.items == Canonical(items)
    ensures Partitioned(r.items)
    ensures |r.items| == |items| && multiset(r.items) == multiset(items)
    ensures Partitioned(items) ==> r == Reordered(items, originalIndex)
    ensures 0 <= originalIndex < |items| ==>
              && r.index == Rank(items, originalIndex)
              && 0 <= r.index < |r.items|
              && r.items[r.index] == items[originalIndex]
    ensures !(0 <= originalIndex < |items|) ==> r.index == originalIndex
  {
    var updatedIndexes := Mapping(items);
    SortFacts(items, originalIndex);
    if IsIdentity(updatedIndexes) then Reordered(items, originalIndex)
    else
      var movedTo := IndexOf(updatedIndexes, originalIndex);
      if movedTo != -1 then Reordered(Canonical(items), movedTo)
      else Reordered(Canonical(items), originalIndex)
  }

  /** What `getSortedIndex` relies on, gathered for its contract. */
  lemma SortFacts(s: seq<Item>, i: int)
    ensures IsIdentity(Mapping(s)) <==> Partitioned(s)
    ensures Partitioned(Canonical(s))
    ensures |Canonical(s)| == |s| && multiset(Canonical(s)) == multiset(s)
    ensures Partitioned(s) ==> Canonical(s) == s
    ensures 0 <= i < |s| ==>
              && IndexOf(Mapping(s), i) == Rank(s, i)
              && 0 <= Rank(s, i) < |Canonical(s)|
              && Canonical(s)[Rank(s, i)] == s[i]
              && (Partitioned(s) ==> Rank(s, i) == i)
    ensures !(0 <= i < |s|) ==> IndexOf(Mapping(s), i) == -1
  {
    MappingIdentityIffPartitioned(s);
    WithStatusSplits(s);
    CanonicalPartitioned(s);
    if Partitioned(s) {
      PartitionedIsFiltered(s);
    }
    if 0 <= i < |s| {
      IndexOfMapping(s, i);
      CanonicalAtRank(s, i);
      if Partitioned(s) {
        RankOfPartitioned(s, i);
      }
    }
  }

  /** The new order is partitioned: pending items, then done items. */
  lemma CanonicalPartitioned(s: seq<Item>)
    ensures Partitioned(Canonical(s))
  {
    var f, t := WithStatus(s, false), WithStatus(s, true);
    var c := Canonical(s);
    forall a, b | 0 <= a < b < |c| && c[a].status
      ensures c[b].status
    {
      if |f| <= b {
        assert c[b] == t[b - |f|];
      }
    }
  }

  /** The `for` loop of `getSortedIndex` with its early `break`: it reports
      whether the index mapping differs from the identity anywhere. */
  method NeedToReRender(updatedIndexes: seq<int>) returns (needToReRender: bool)
    ensures needToReRender <==> !IsIdentity(updatedIndexes)
  {
    needToReRender := false;
    var i := 0;
    while i < |updatedIndexes|
      invariant 0 <= i <= |updatedIndexes|
      invariant forall k :: 0 <= k < i ==> updatedIndexes[k] == k
    {
      if i != updatedIndexes[i] {
        needToReRender := true;
        break;
      }
      i := i + 1;
    }
  }

  /** Each recorded index points at the item pushed with it. */
  lemma {:induction false} SelectIndexesWith(s: seq<Item>, done: bool)
    ensures forall k :: 0 <= k < |IndexesWith(s, done)| ==> WithStatus(s, done)[k] == s[IndexesWith(s, done)[k]]
    decreases |s|
  {
    if |s| > 0 {
      var p := s[..|s| - 1];
      SelectIndexesWith(p, done);
      forall k | 0 <= k < |IndexesWith(s, done)|
        ensures WithStatus(s, done)[k] == s[IndexesWith(s, done)[k]]
      {
        if k < |IndexesWith(p, done)| {
          assert WithStatus(s, done)[k] == WithStatus(p, done)[k];
          assert IndexesWith(s, done)[k] == IndexesWith(p, done)[k];
        }
      }
    }
  }

  /** The new order is the old list read at the recorded original indexes. */
  lemma CanonicalSelectsMapping(s: seq<Item>)
    ensures IndexesBelow(Mapping(s), |s|)
    ensures Select(s, Mapping(s)) == Canonical(s)
  {
    SelectIndexesWith(s, false);
    SelectIndexesWith(s, true);
  }

  /** The indexes recorded for a prefix of the list are a prefix of those
      recorded for the whole list. */
  lemma {:induction false} IndexesWithPrefix(s: seq<Item>, k: int, done: bool)
    requires 0 <= k <= |s|
    ensures |IndexesWith(s[..k], done)| <= |IndexesWith(s, done)|
    ensures IndexesWith(s[..k], done) == IndexesWith(s, done)[..|IndexesWith(s[..k], done)|]
    decreases |s|
  {
    if k == |s| {
      assert s[..k] == s;
    } else {
      var p := s[..|s| - 1];
      assert s[..k] == p[..k];
      IndexesWithPrefix(p, k, done);
    }
  }

  /** Recording one more item appends its index when it has the status. */
  lemma IndexesWithSnoc(p: seq<Item>, x: Item, done: bool)
    ensures IndexesWith(p + [x], done) == IndexesWith(p, done) + (if x.status == done then [|p|] else [])
  {
    assert (p + [x])[..|p + [x]| - 1] == p;
  }

  /** The item at `i` is recorded right after the items of its status before it. */
  lemma IndexAtRank(s: seq<Item>, i: int)
    requires 0 <= i < |s|
    ensures |WithStatus(s[..i], s[i].status)| < |IndexesWith(s, s[i].status)|
    ensures IndexesWith(s, s[i].status)[|WithStatus(s[..i], s[i].status)|] == i
  {
    var b := s[i].status;
    PrefixSnoc(s, i);
    IndexesWithSnoc(s[..i], s[i], b);
    IndexesWithPrefix(s, i + 1, b);
  }

  /** `Rank` is a position of the new order, and the mapping sends it back to `i`. */
  lemma MappingAtRank(s: seq<Item>, i: int)
    requires 0 <= i < |s|
    ensures 0 <= Rank(s, i) < |Mapping(s)| == |s|
    ensures Mapping(s)[Rank(s, i)] == i
  {
    IndexAtRank(s, i);
    WithStatusSplits(s);
  }

  /** No original index is recorded twice. */
  lemma MappingInjective(s: seq<Item>)
    ensures forall a, b :: 0 <= a < b < |Mapping(s)| ==> Mapping(s)[a] != Mapping(s)[b]
  {
    var f := IndexesWith(s, false);
    var t := IndexesWith(s, true);
    forall a, b | 0 <= a < b < |Mapping(s)|
      ensures Mapping(s)[a] != Mapping(s)[b]
    {
      if b < |f| {
        assert f[a] < f[b];
      } else if |f| <= a {
        assert t[a - |f|] < t[b - |f|];
      } else {
        assert s[f[a]].status != s[t[b - |f|]].status;
      }
    }
  }

  /** `indexOf(originalIndex)` on the mapping finds the tracked item at its
      `Rank`; in particular it never yields -1 for an index of the list. */
  lemma IndexOfMapping(s: seq<Item>, i: int)
    requires 0 <= i < |s|
    ensures IndexOf(Mapping(s), i) == Rank(s, i)
  {
    MappingAtRank(s, i);
    MappingInjective(s);
  }

  /** In a partitioned list every item already sits at its `Rank`. */
  lemma RankOfPartitioned(s: seq<Item>, i: int)
    requires Partitioned(s)
    requires 0 <= i < |s|
    ensures Rank(s, i) == i
  {
    PartitionedSplit(s);
    var n := |WithStatus(s, false)|;
    if s[i].status {
      assert s[..i] == s[..n] + s[n..i];
      WithStatusConcat(s[..n], s[n..i], true);
      WithStatusUniform(s[..n], false);
      assert AllWithStatus(s[n..i], true);
      WithStatusUniform(s[n..i], true);
    } else {
      assert AllWithStatus(s[..i], false);
      WithStatusUniform(s[..i], false);
    }
  }

  /** The mapping is the identity exactly when the list is already partitioned,
      so `getSortedIndex` adopts a new order exactly when one is needed. */
  lemma MappingIdentityIffPartitioned(s: seq<Item>)
    ensures IsIdentity(Mapping(s)) <==> Partitioned(s)
  {
    CanonicalSelectsMapping(s);
    WithStatusSplits(s);
    if IsIdentity(Mapping(s)) {
      assert Select(s, Mapping(s)) == s;
    }
    if Partitioned(s) {
      forall i | 0 <= i < |Mapping(s)|
        ensures Mapping(s)[i] == i
      {
        MappingAtRank(s, i);
        RankOfPartitioned(s, i);
      }
    }
  }

  /** The new order holds each item at its `Rank`. */
  lemma CanonicalAtRank(s: seq<Item>, i: int)
    requires 0 <= i < |s|
    ensures 0 <= Rank(s, i) < |Canonical(s)|
    ensures Canonical(s)[Rank(s, i)] == s[i]
  {
    MappingAtRank(s, i);
    CanonicalSelectsMapping(s);
  }

  /** Among the items of one status, one that comes earlier has strictly fewer
      items of that status before it. */
  lemma WithStatusPrefixGrows(s: seq<Item>, i: int, j: int, done: bool)
    requires 0 <= i < j <= |s|
    ensures |WithStatus(s[..i], done)| <= |WithStatus(s[..j], done)|
    ensures s[i].status == done ==> |WithStatus(s[..i], done)| < |WithStatus(s[..j], done)|
  {
    assert s[..j] == s[..i] + s[i..j];
    WithStatusConcat(s[..i], s[i..j], done);
    assert s[i..j] == [s[i]] + s[i + 1..j];
    WithStatusConcat([s[i]], s[i + 1..j], done);
    assert [s[i]][..0] == [];
  }

  /** Stability and partition of the new order in one statement: the item at
      `i` ends before the item at `j > i` unless `i` is done and `j` pending. */
  lemma RankOrder(s: seq<Item>, i: int, j: int)
    requires 0 <= i < j < |s|
    ensures Rank(s, i) < Rank(s, j) <==> (s[i].status ==> s[j].status)
    ensures Rank(s, i) != Rank(s, j)
  {
    IndexAtRank(s, i);
    IndexAtRank(s, j);
    if s[i].status == s[j].status {
      WithStatusPrefixGrows(s, i, j, s[i].status);
    }
  }

  /** The stable partition keeps ids unique. */
  lemma CanonicalUniqueIds(s: seq<Item>)
    ensures UniqueIds(s) ==> UniqueIds(Canonical(s))
  {
    CanonicalSelectsMapping(s);
    MappingInjective(s);
    var m := Mapping(s);
    var c := Canonical(s);
    forall a, b | 0 <= a < b < |c| && UniqueIds(s)
      ensures c[a].id != c[b].id
    {
      assert c[a] == s[m[a]] && c[b] == s[m[b]];
      if m[a] < m[b] {
        assert s[m[a]].id != s[m[b]].id;
      } else {
        assert s[m[b]].id != s[m[a]].id;
      }
    }
  }

  /** The stable partition keeps the multiset of ids. */
  lemma CanonicalIds(s: seq<Item>)
    ensures multiset(Ids(Canonical(s))) == multiset(Ids(s))
  {
    WithStatusSplitsIds(s);
    IdsConcat(WithStatus(s, false), WithStatus(s, true));
  }
}
