/** Sequences in order, and what any rearrangement of a sequence keeps. */
module Sorting {
  import opened Bytes

  function Insert<T>(x: T, s: seq<T>, before: (T, T) -> bool): seq<T> {
    if s == [] || before(x, s[0]) then [x] + s else [s[0]] + Insert(x, s[1..], before)
  }

  function Sort<T>(s: seq<T>, before: (T, T) -> bool): seq<T> {
    if s == [] then [] else Insert(s[0], Sort(s[1..], before), before)
  }

  /** `before` is a total preorder. */
  ghost predicate Orders<T(!new)>(before: (T, T) -> bool) {
    && (forall a, b :: before(a, b) || before(b, a))
    && (forall a, b, c :: before(a, b) && before(b, c) ==> before(a, c))
  }

  predicate Sorted<T>(s: seq<T>, before: (T, T) -> bool) {
    forall i, j :: 0 <= i < j < |s| ==> before(s[i], s[j])
  }

  lemma {:induction false} InsertKeeps<T>(x: T, s: seq<T>, before: (T, T) -> bool)
    ensures multiset(Insert(x, s, before)) == multiset(s) + multiset{x}
  {
    if s != [] && !before(x, s[0]) {
      InsertKeeps(x, s[1..], before);
      assert s == [s[0]] + s[1..];
    }
  }

  lemma {:induction false} InsertSorted<T(!new)>(x: T, s: seq<T>, before: (T, T) -> bool)
    requires Orders(before) && Sorted(s, before)
    ensures Sorted(Insert(x, s, before), before)
  {
    if s != [] && !before(x, s[0]) {
      InsertSorted(x, s[1..], before);
      InsertKeeps(x, s[1..], before);
      var rest := Insert(x, s[1..], before);
      forall k | 0 <= k < |rest| ensures before(s[0], rest[k]) {
        assert rest[k] in multiset(rest);
        assert rest[k] == x || rest[k] in s[1..];
      }
    }
  }

  lemma SameElements<T>(s: seq<T>, r: seq<T>)
    requires multiset(s) == multiset(r)
    ensures |s| == |r| && forall x :: x in s <==> x in r
  {
    assert |multiset(r)| == |multiset(s)|;
    assert forall x :: (x in r <==> x in multiset(r)) && (x in s <==> x in multiset(s));
  }

  lemma {:induction false} SortKeeps<T>(s: seq<T>, before: (T, T) -> bool)
    ensures multiset(Sort(s, before)) == multiset(s)
  {
    if s != [] {
      SortKeeps(s[1..], before);
      InsertKeeps(s[0], Sort(s[1..], before), before);
      assert s == [s[0]] + s[1..];
    }
  }

  lemma {:induction false} SortSorted<T(!new)>(s: seq<T>, before: (T, T) -> bool)
    requires Orders(before)
    ensures Sorted(Sort(s, before), before)
  {
    hide Orders, Sorted;
    if s == [] {
      NothingSorted(before);
    } else {
      SortSorted(s[1..], before);
      InsertSorted(s[0], Sort(s[1..], before), before);
    }
  }

  lemma NothingSorted<T>(before: (T, T) -> bool)
    ensures Sorted([], before)
  {
  }

  /** Sorting puts the same elements in order. */
  lemma SortIs<T(!new)>(s: seq<T>, before: (T, T) -> bool)
    requires Orders(before)
    ensures Sorted(Sort(s, before), before) && multiset(Sort(s, before)) == multiset(s)
    ensures |Sort(s, before)| == |s| && forall x :: x in Sort(s, before) <==> x in s
  {
    hide Orders, Sorted, Sort;
    SortSorted(s, before);
    SortKeeps(s, before);
    SameElements(Sort(s, before), s);
  }

  /** Every two elements, in the order they stand, are related. */
  predicate Pairwise<T>(s: seq<T>, related: (T, T) -> bool) {
    forall i, j :: 0 <= i < j < |s| ==> related(s[i], s[j])
  }

  lemma WithoutIs<T>(s: seq<T>, k: nat)
    requires k < |s|
    ensures multiset(s) == multiset(Without(s, k)) + multiset{s[k]}
  {
    assert s == s[..k] + [s[k]] + s[k + 1..];
  }

  lemma WithoutPairwise<T(!new)>(s: seq<T>, k: nat, related: (T, T) -> bool)
    requires k < |s| && Pairwise(s, related) && forall a, b :: related(a, b) ==> related(b, a)
    ensures Pairwise(Without(s, k), related) && forall x <- Without(s, k) :: related(s[k], x)
  {
    var rest := Without(s, k);
    assert forall i :: 0 <= i < |rest| ==> rest[i] == s[if i < k then i else i + 1];
  }

  lemma PairwiseFirst<T>(first: T, rest: seq<T>, related: (T, T) -> bool)
    requires Pairwise(rest, related) && forall x <- rest :: related(first, x)
    ensures Pairwise([first] + rest, related)
  {
  }

  /** A symmetric relation between every two elements survives any rearrangement. */
  lemma {:induction false} PairwiseKept<T(!new)>(s: seq<T>, r: seq<T>, related: (T, T) -> bool)
    requires multiset(s) == multiset(r) && Pairwise(s, related)
    requires forall a, b :: related(a, b) ==> related(b, a)
    ensures Pairwise(r, related)
    decreases |r|
  {
    hide Without;
    SameElements(s, r);
    if r != [] {
      var first, others := r[0], r[1..];
      assert r == [first] + others && first in s;
      var k :| 0 <= k < |s| && s[k] == first;
      var rest := Without(s, k);
      WithoutIs(s, k);
      WithoutPairwise(s, k, related);
      hide Pairwise;
      assert multiset(others) == multiset(r) - multiset{first};
      assert multiset(rest) == multiset(others);
      PairwiseKept(rest, others, related);
      SameElements(rest, others);
      PairwiseFirst(first, others, related);
    }
  }
}
