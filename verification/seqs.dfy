/** Sequence helpers shared by the list model: JavaScript's `indexOf`, the
    removal and insertion a DOM move is made of, and index selection. */
module Seqs {

  function Min(a: int, b: int): int
  {
    if a <= b then a else b
  }

  /** `Array.prototype.indexOf` (and `findIndex` over a projected sequence):
      the first position holding `x`, or -1 when there is none. */
  function IndexOf<T(==)>(s: seq<T>, x: T): (r: int)
    ensures -1 <= r < |s|
    ensures r == -1 <==> x !in s
    ensures 0 <= r ==> s[r] == x && x !in s[..r]
  {
    if |s| == 0 then -1
    else if s[0] == x then 0
    else
      var k := IndexOf(s[1..], x);
      if k == -1 then -1
      else
        assert s[..k + 1] == [s[0]] + s[1..][..k];
        k + 1
  }

  /** `s` with the element at `i` taken out; the others close up in order. */
  function RemoveAt<T>(s: seq<T>, i: int): (r: seq<T>)
    requires 0 <= i < |s|
    ensures |r| == |s| - 1
    ensures forall k :: 0 <= k < i ==> r[k] == s[k]
    ensures forall k :: i <= k < |r| ==> r[k] == s[k + 1]
  {
    s[..i] + s[i + 1..]
  }

  /** `s` with `x` placed at position `i`; the element previously there and
      every later one shift right by one. */
  function InsertAt<T>(s: seq<T>, i: int, x: T): (r: seq<T>)
    requires 0 <= i <= |s|
    ensures |r| == |s| + 1
    ensures r[i] == x
    ensures forall k :: 0 <= k < i ==> r[k] == s[k]
    ensures forall k :: i < k < |r| ==> r[k] == s[k - 1]
  {
    s[..i] + [x] + s[i..]
  }

  lemma RemoveAtMultiset<T>(s: seq<T>, i: int)
    requires 0 <= i < |s|
    ensures multiset(RemoveAt(s, i)) + multiset{s[i]} == multiset(s)
  {
    assert s == s[..i] + [s[i]] + s[i + 1..];
  }

  lemma InsertAtMultiset<T>(s: seq<T>, i: int, x: T)
    requires 0 <= i <= |s|
    ensures multiset(InsertAt(s, i, x)) == multiset(s) + multiset{x}
  {
    assert s == s[..i] + s[i..];
  }

  /** Putting an element back where it was taken from restores the sequence. */
  lemma InsertRemovedAt<T>(s: seq<T>, i: int)
    requires 0 <= i < |s|
    ensures InsertAt(RemoveAt(s, i), i, s[i]) == s
  {
  }

  /** Taking out an element just inserted restores the sequence. */
  lemma RemoveInsertedAt<T>(s: seq<T>, i: int, x: T)
    requires 0 <= i <= |s|
    ensures RemoveAt(InsertAt(s, i, x), i) == s
  {
  }

  /** A non-empty sequence is its front followed by its last element. */
  lemma Snoc<T>(s: seq<T>)
    requires |s| > 0
    ensures s == s[..|s| - 1] + [s[|s| - 1]]
  {
  }

  /** A prefix one longer is the shorter prefix and the next element. */
  lemma PrefixSnoc<T>(s: seq<T>, i: int)
    requires 0 <= i < |s|
    ensures s[..i + 1] == s[..i] + [s[i]]
  {
  }

  /** A sequence is its prefix followed by the rest. */
  lemma SplitAt<T>(s: seq<T>, n: int)
    requires 0 <= n <= |s|
    ensures s == s[..n] + s[n..]
  {
  }

  /** Cutting a sequence with one more element at the end at `n`. */
  lemma SnocSlices<T>(p: seq<T>, x: T, n: int)
    requires 0 <= n <= |p|
    ensures (p + [x])[..n] == p[..n]
    ensures (p + [x])[n..] == p[n..] + [x]
  {
  }

  /** A slice of a prefix is the same slice of the whole sequence. */
  lemma SliceOfPrefix<T>(s: seq<T>, p: int, lo: int, hi: int)
    requires 0 <= lo <= hi <= p <= |s|
    ensures s[..p][lo..hi] == s[lo..hi]
    ensures s[..p][..hi] == s[..hi]
  {
  }

  /** A slice of a suffix is a slice of the whole sequence. */
  lemma SliceOfSuffix<T>(s: seq<T>, p: int, lo: int, hi: int)
    requires 0 <= p <= |s| && 0 <= lo <= hi <= |s| - p
    ensures s[p..][lo..hi] == s[p + lo..p + hi]
    ensures s[p..][lo..] == s[p + lo..]
  {
  }

  /** Replacing the element at `i` seen as four blocks, cut at `i` and at a
      later point `p`. */
  lemma UpdateBeforeCut<T>(s: seq<T>, i: int, p: int, y: T)
    requires 0 <= i < p <= |s|
    ensures s[i := y] == s[..i] + [y] + s[i + 1..p] + s[p..]
  {
  }

  /** Replacing the element at `i` seen as four blocks, cut at an earlier
      point `p` and at `i`. */
  lemma UpdateAfterCut<T>(s: seq<T>, p: int, i: int, y: T)
    requires 0 <= p <= i < |s|
    ensures s[i := y] == s[..p] + s[p..i] + [y] + s[i + 1..]
  {
  }

  /** Replacing one element swaps it for the new one in the multiset. */
  lemma MultisetUpdate<T>(s: seq<T>, k: int, y: T)
    requires 0 <= k < |s|
    ensures multiset(s[k := y]) == multiset(s) - multiset{s[k]} + multiset{y}
  {
    assert s == s[..k] + [s[k]] + s[k + 1..];
    assert s[k := y] == s[..k] + [y] + s[k + 1..];
  }

  /** True when every index in `idx` is a position of a sequence of length `n`. */
  predicate IndexesBelow(idx: seq<int>, n: int)
  {
    forall k :: 0 <= k < |idx| ==> 0 <= idx[k] < n
  }

  /** The elements of `s` at the positions listed in `idx`, in that order. */
  function Select<T>(s: seq<T>, idx: seq<int>): (r: seq<T>)
    requires IndexesBelow(idx, |s|)
    ensures |r| == |idx|
    ensures forall k :: 0 <= k < |idx| ==> r[k] == s[idx[k]]
  {
    seq(|idx|, k requires 0 <= k < |idx| => s[idx[k]])
  }

  /** True when position `i` of `m` holds `i` for every `i`. */
  predicate IsIdentity(m: seq<int>)
  {
    forall i :: 0 <= i < |m| ==> m[i] == i
  }
}
