/** The list's records and the predicates the list keeps about them. */
module Items {
  import opened Seqs

  /** One checklist entry: `status` true means done, false means pending.
      The rendered node the source attaches to each item is not modelled. */
  datatype Item = Item(id: string, title: string, status: bool)

  /** The ids of the items, in list order. */
  function Ids(s: seq<Item>): seq<string>
  {
    seq(|s|, i requires 0 <= i < |s| => s[i].id)
  }

  /** No two items share an id. */
  predicate UniqueIds(s: seq<Item>)
  {
    forall i, j :: 0 <= i < j < |s| ==> s[i].id != s[j].id
  }

  /** Every pending item precedes every done item. */
  predicate Partitioned(s: seq<Item>)
  {
    forall i, j :: 0 <= i < j < |s| && s[i].status ==> s[j].status
  }

  /** True when every item of `s` has status `done`. */
  predicate AllWithStatus(s: seq<Item>, done: bool)
  {
    forall k :: 0 <= k < |s| ==> s[k].status == done
  }

  /** The items whose status is `done`, in their order in `s`: what the
      `forEach` of `getSortedIndex` pushes onto `doneItems` (for `true`) or
      `pendingItems` (for `false`). */
  function WithStatus(s: seq<Item>, done: bool): (r: seq<Item>)
    ensures |r| <= |s|
    ensures AllWithStatus(r, done)
  {
    if |s| == 0 then []
    else WithStatus(s[..|s| - 1], done) + (if s[|s| - 1].status == done then [s[|s| - 1]] else [])
  }

  lemma IdsConcat(a: seq<Item>, b: seq<Item>)
    ensures Ids(a + b) == Ids(a) + Ids(b)
  {
  }

  /** Filtering distributes over concatenation. */
  lemma {:induction false} WithStatusConcat(a: seq<Item>, b: seq<Item>, done: bool)
    ensures WithStatus(a + b, done) == WithStatus(a, done) + WithStatus(b, done)
    decreases |b|
  {
    if |b| == 0 {
      assert a + b == a;
    } else {
      assert (a + b)[..|a + b| - 1] == a + b[..|b| - 1];
      WithStatusConcat(a, b[..|b| - 1], done);
    }
  }

  /** A block of one status is kept whole by its own filter and dropped by the other. */
  lemma {:induction false} WithStatusUniform(s: seq<Item>, done: bool)
    requires AllWithStatus(s, done)
    ensures WithStatus(s, done) == s
    ensures WithStatus(s, !done) == []
    decreases |s|
  {
    if |s| > 0 {
      WithStatusUniform(s[..|s| - 1], done);
      Snoc(s);
    }
  }

  /** Every slice of a block of one status is a block of that status. */
  lemma AllWithStatusSlice(s: seq<Item>, lo: int, hi: int, done: bool)
    requires AllWithStatus(s, done)
    requires 0 <= lo <= hi <= |s|
    ensures AllWithStatus(s[lo..hi], done)
    ensures AllWithStatus(s[..hi], done)
    ensures AllWithStatus(s[lo..], done)
  {
    assert forall k :: 0 <= k < hi - lo ==> s[lo..hi][k] == s[lo + k];
    assert forall k :: 0 <= k < |s| - lo ==> s[lo..][k] == s[lo + k];
  }

  /** The two filters split `s`: together they are as long as `s`. */
  lemma {:induction false} WithStatusLengths(s: seq<Item>)
    ensures |WithStatus(s, false)| + |WithStatus(s, true)| == |s|
    decreases |s|
  {
    if |s| > 0 {
      WithStatusLengths(s[..|s| - 1]);
    }
  }

  /** The two filters split `s`: together they hold every item exactly once. */
  lemma {:induction false} WithStatusSplits(s: seq<Item>)
    ensures |WithStatus(s, false)| + |WithStatus(s, true)| == |s|
    ensures multiset(WithStatus(s, false)) + multiset(WithStatus(s, true)) == multiset(s)
    decreases |s|
  {
    WithStatusLengths(s);
    if |s| > 0 {
      var p := s[..|s| - 1];
      var x := s[|s| - 1];
      Snoc(s);
      WithStatusSplits(p);
      WithStatusSnoc(p, x, false);
      WithStatusSnoc(p, x, true);
      SplitsStep(p, x, WithStatus(p, false), WithStatus(p, true), WithStatus(s, false), WithStatus(s, true));
    }
  }

  /** One step of the induction above: `x` joins the group of its status. */
  lemma SplitsStep(p: seq<Item>, x: Item, f: seq<Item>, t: seq<Item>, f': seq<Item>, t': seq<Item>)
    requires multiset(f) + multiset(t) == multiset(p)
    requires if x.status then f' == f && t' == t + [x] else f' == f + [x] && t' == t
    ensures multiset(f') + multiset(t') == multiset(p + [x])
  {
  }

  /** The two filters together hold every id of `s` exactly as often as `s` does. */
  lemma {:induction false} WithStatusSplitsIds(s: seq<Item>)
    ensures multiset(Ids(WithStatus(s, false))) + multiset(Ids(WithStatus(s, true))) == multiset(Ids(s))
    decreases |s|
  {
    if |s| > 0 {
      var p := s[..|s| - 1];
      var x := s[|s| - 1];
      Snoc(s);
      WithStatusSplitsIds(p);
      WithStatusSnoc(p, x, false);
      WithStatusSnoc(p, x, true);
      SplitsIdsStep(p, x, WithStatus(p, false), WithStatus(p, true), WithStatus(s, false), WithStatus(s, true));
    }
  }

  /** Filtering a list with one more item appends that item when it has the status. */
  lemma WithStatusSnoc(p: seq<Item>, x: Item, done: bool)
    ensures WithStatus(p + [x], done) == WithStatus(p, done) + (if x.status == done then [x] else [])
  {
    assert (p + [x])[..|p + [x]| - 1] == p;
  }

  /** One step of the induction above: `x` joins the group of its status. */
  lemma SplitsIdsStep(p: seq<Item>, x: Item, f: seq<Item>, t: seq<Item>, f': seq<Item>, t': seq<Item>)
    requires multiset(Ids(f)) + multiset(Ids(t)) == multiset(Ids(p))
    requires if x.status then f' == f && t' == t + [x] else f' == f + [x] && t' == t
    ensures multiset(Ids(f')) + multiset(Ids(t')) == multiset(Ids(p + [x]))
  {
    IdsSnoc(p, x);
    if x.status { IdsSnoc(t, x); } else { IdsSnoc(f, x); }
  }

  lemma IdsSnoc(s: seq<Item>, x: Item)
    ensures multiset(Ids(s + [x])) == multiset(Ids(s)) + multiset{x.id}
  {
    assert Ids(s + [x]) == Ids(s) + [x.id];
  }

  /** A partitioned list is a pending block followed by a done block, the
      pending block being as long as the pending filter. */
  lemma {:induction false} PartitionedSplit(s: seq<Item>)
    requires Partitioned(s)
    ensures |WithStatus(s, false)| <= |s|
    ensures AllWithStatus(s[..|WithStatus(s, false)|], false)
    ensures AllWithStatus(s[|WithStatus(s, false)|..], true)
    decreases |s|
  {
    if |s| > 0 {
      var p := s[..|s| - 1];
      var x := s[|s| - 1];
      assert Partitioned(p);
      PartitionedSplit(p);
      if x.status {
        var n := |WithStatus(p, false)|;
        Snoc(s);
        WithStatusSnoc(p, x, false);
        SnocSlices(p, x, n);
      } else {
        assert AllWithStatus(s, false);
        WithStatusUniform(s, false);
      }
    }
  }

  /** A partitioned list equals its pending items followed by its done items. */
  lemma PartitionedIsFiltered(s: seq<Item>)
    requires Partitioned(s)
    ensures WithStatus(s, false) + WithStatus(s, true) == s
  {
    PartitionedSplit(s);
    var n := |WithStatus(s, false)|;
    SplitAt(s, n);
    FilteredBlocks(s, s[..n], s[n..]);
  }

  /** A pending block followed by a done block filters back into those blocks. */
  lemma FilteredBlocks(s: seq<Item>, a: seq<Item>, b: seq<Item>)
    requires s == a + b
    requires AllWithStatus(a, false) && AllWithStatus(b, true)
    ensures WithStatus(s, false) == a
    ensures WithStatus(s, true) == b
  {
    WithStatusConcat(a, b, false);
    WithStatusConcat(a, b, true);
    WithStatusUniform(a, false);
    WithStatusUniform(b, true);
  }

  /** The filters of a list made of four blocks. */
  lemma WithStatusOfBlocks(a: seq<Item>, b: seq<Item>, c: seq<Item>, d: seq<Item>, done: bool)
    ensures WithStatus(a + b + c + d, done)
            == WithStatus(a, done) + WithStatus(b, done) + WithStatus(c, done) + WithStatus(d, done)
  {
    WithStatusConcat(a + b + c, d, done);
    WithStatusConcat(a + b, c, done);
    WithStatusConcat(a, b, done);
  }

  /** What a filter keeps of a block whose items all have status `status`. */
  function Kept(block: seq<Item>, status: bool, done: bool): seq<Item>
  {
    if status == done then block else []
  }

  lemma KeptBlocks(a: seq<Item>, sa: bool, b: seq<Item>, sb: bool, c: seq<Item>, sc: bool, d: seq<Item>, sd: bool, done: bool)
    requires AllWithStatus(a, sa) && AllWithStatus(b, sb) && AllWithStatus(c, sc) && AllWithStatus(d, sd)
    ensures WithStatus(a, done) + WithStatus(b, done) + WithStatus(c, done) + WithStatus(d, done)
            == Kept(a, sa, done) + Kept(b, sb, done) + Kept(c, sc, done) + Kept(d, sd, done)
  {
    WithStatusUniform(a, sa);
    WithStatusUniform(b, sb);
    WithStatusUniform(c, sc);
    WithStatusUniform(d, sd);
  }

  /** Filtering a list of four uniform blocks keeps exactly the blocks of the
      requested status, in order. */
  lemma WithStatusOfUniformBlocks(a: seq<Item>, sa: bool, b: seq<Item>, sb: bool, c: seq<Item>, sc: bool, d: seq<Item>, sd: bool, done: bool)
    requires AllWithStatus(a, sa) && AllWithStatus(b, sb) && AllWithStatus(c, sc) && AllWithStatus(d, sd)
    ensures WithStatus(a + b + c + d, done)
            == Kept(a, sa, done) + Kept(b, sb, done) + Kept(c, sc, done) + Kept(d, sd, done)
  {
    WithStatusOfBlocks(a, b, c, d, done);
    KeptBlocks(a, sa, b, sb, c, sc, d, sd, done);
  }
}
