/** Sorting by a strict order, and when the sorted list is determined by the elements alone. */
module Sorting {

  ghost predicate IsStrictOrder<T(!new)>(less: (T, T) -> bool) {
    && (forall a :: !less(a, a))
    && (forall a, b :: less(a, b) ==> !less(b, a))
    && (forall a, b, c :: less(a, b) && less(b, c) ==> less(a, c))
    && (forall a, b, c :: !less(b, a) && !less(c, b) ==> !less(c, a))
  }

  ghost predicate SortedBy<T>(less: (T, T) -> bool, xs: seq<T>) {
    forall i, j :: 0 <= i < j < |xs| ==> !less(xs[j], xs[i])
  }

  /** Different elements are ordered one way or the other. */
  ghost predicate DecidedBy<T(!new)>(less: (T, T) -> bool, xs: seq<T>) {
    forall a, b :: a in xs && b in xs && a != b ==> less(a, b) || less(b, a)
  }

  lemma NotLargerChain<T(!new)>(less: (T, T) -> bool, a: T, b: T, c: T)
    requires IsStrictOrder(less) && !less(b, a) && !less(c, b)
    ensures !less(c, a)
  {
  }

  lemma Inserted<T(!new)>(less: (T, T) -> bool, x: T, xs: seq<T>, k: nat)
    requires IsStrictOrder(less) && SortedBy(less, xs) && k <= |xs|
    requires forall j :: k <= j < |xs| ==> less(x, xs[j])
    requires k > 0 ==> !less(x, xs[k - 1])
    ensures SortedBy(less, xs[..k] + [x] + xs[k..])
  {
    var ys := xs[..k] + [x] + xs[k..];
    forall i, j | 0 <= i < j < |ys|
      ensures !less(ys[j], ys[i])
    {
      if i < k == j && i < k - 1 {
        NotLargerChain(less, xs[i], xs[k - 1], x);
      } else if i == k < j {
        assert less(x, xs[j - 1]);
      }
    }
  }

  /** A stable insertion: behind everything that is not larger. */
  method Insert<T(!new)>(less: (T, T) -> bool, x: T, xs: seq<T>) returns (ys: seq<T>)
    requires IsStrictOrder(less) && SortedBy(less, xs)
    ensures SortedBy(less, ys) && multiset(ys) == multiset(xs) + multiset{x}
  {
    hide IsStrictOrder, SortedBy;
    var k := |xs|;
    while k > 0 && less(x, xs[k - 1])
      invariant 0 <= k <= |xs|
      invariant forall j :: k <= j < |xs| ==> less(x, xs[j])
    {
      k := k - 1;
    }
    ys := xs[..k] + [x] + xs[k..];
    Inserted(less, x, xs, k);
    assert xs == xs[..k] + xs[k..];
  }

  method Sort<T(!new)>(less: (T, T) -> bool, xs: seq<T>) returns (ys: seq<T>)
    requires IsStrictOrder(less)
    ensures SortedBy(less, ys) && multiset(ys) == multiset(xs)
  {
    ys := [];
    for k := 0 to |xs|
      invariant SortedBy(less, ys) && multiset(ys) == multiset(xs[..k])
    {
      assert xs[..k + 1] == xs[..k] + [xs[k]];
      ys := Insert(less, xs[k], ys);
    }
    assert xs[..|xs|] == xs;
  }

  lemma SameMembers<T>(xs: seq<T>, ys: seq<T>)
    requires multiset(xs) == multiset(ys)
    ensures |xs| == |ys| && forall x :: x in xs <==> x in ys
  {
    assert |multiset(xs)| == |xs| && |multiset(ys)| == |ys|;
    forall x
      ensures x in xs <==> x in ys
    {
      assert x in xs <==> x in multiset(xs);
      assert x in ys <==> x in multiset(ys);
    }
  }

  lemma SameHeads<T(!new)>(less: (T, T) -> bool, xs: seq<T>, ys: seq<T>)
    requires SortedBy(less, xs) && SortedBy(less, ys) && multiset(xs) == multiset(ys) && DecidedBy(less, xs)
    requires IsStrictOrder(less) && xs != []
    ensures ys != [] && xs[0] == ys[0]
  {
    SameMembers(xs, ys);
    var x, y := xs[0], ys[0];
    assert x in ys && y in xs;
    var i :| 0 <= i < |ys| && ys[i] == x;
    var j :| 0 <= j < |xs| && xs[j] == y;
    assert !less(x, y) && !less(y, x);
  }

  lemma SameTails<T>(xs: seq<T>, ys: seq<T>)
    requires multiset(xs) == multiset(ys) && xs != [] && ys != [] && xs[0] == ys[0]
    ensures multiset(xs[1..]) == multiset(ys[1..])
  {
    SplitHead(xs);
    SplitHead(ys);
    CancelOne(xs[0], multiset(xs[1..]), multiset(ys[1..]));
  }

  lemma SplitHead<T>(xs: seq<T>)
    requires xs != []
    ensures multiset(xs) == multiset{xs[0]} + multiset(xs[1..])
  {
    SplitAt(xs, 0);
    assert xs[..0] + xs[1..] == xs[1..];
  }

  lemma TailSorted<T(!new)>(less: (T, T) -> bool, xs: seq<T>)
    requires SortedBy(less, xs) && xs != []
    ensures SortedBy(less, xs[1..])
    ensures DecidedBy(less, xs) ==> DecidedBy(less, xs[1..])
  {
  }

  /** Elements that are pairwise ordered have one sorted arrangement. */
  lemma {:induction false} SortedIsUnique<T(!new)>(less: (T, T) -> bool, xs: seq<T>, ys: seq<T>)
    requires IsStrictOrder(less) && SortedBy(less, xs) && SortedBy(less, ys)
    requires multiset(xs) == multiset(ys) && DecidedBy(less, xs)
    ensures xs == ys
  {
    hide *;
    SameMembers(xs, ys);
    if xs != [] {
      SameHeads(less, xs, ys);
      SameTails(xs, ys);
      TailSorted(less, xs);
      TailSorted(less, ys);
      SortedIsUnique(less, xs[1..], ys[1..]);
      assert xs == [xs[0]] + xs[1..] && ys == [ys[0]] + ys[1..];
    }
  }

  // --------------------------------------------------------- rearrangements

  lemma CancelOne<T>(x: T, a: multiset<T>, b: multiset<T>)
    requires multiset{x} + a == multiset{x} + b
    ensures a == b
  {
    forall e
      ensures a[e] == b[e]
    {
      assert (multiset{x} + a)[e] == (multiset{x} + b)[e];
    }
  }

  lemma SplitAt<T>(ys: seq<T>, k: nat)
    requires k < |ys|
    ensures multiset(ys) == multiset{ys[k]} + multiset(ys[..k] + ys[k + 1..])
  {
    assert ys == ys[..k] + [ys[k]] + ys[k + 1..];
  }

  /** Taking one occurrence of the same element out of two arrangements leaves arrangements of the same elements. */
  lemma RemoveSame<T>(xs: seq<T>, ys: seq<T>) returns (k: nat)
    requires multiset(xs) == multiset(ys) && xs != []
    ensures k < |ys| && ys[k] == xs[0]
    ensures multiset(xs[1..]) == multiset(ys[..k] + ys[k + 1..])
  {
    SameMembers(xs, ys);
    assert xs[0] in ys;
    k :| 0 <= k < |ys| && ys[k] == xs[0];
    SplitFirst(xs);
    SplitAt(ys, k);
    CancelOne(xs[0], multiset(xs[1..]), multiset(ys[..k] + ys[k + 1..]));
  }

  lemma SplitFirst<T>(xs: seq<T>)
    requires xs != []
    ensures multiset(xs) == multiset{xs[0]} + multiset(xs[1..])
  {
    assert xs == [xs[0]] + xs[1..];
  }

  ghost predicate Pairwise<T>(rel: (T, T) -> bool, xs: seq<T>) {
    forall i, j :: 0 <= i < j < |xs| ==> rel(xs[i], xs[j])
  }

  ghost predicate IsSymmetric<T(!new)>(rel: (T, T) -> bool) { forall a, b :: rel(a, b) ==> rel(b, a) }

  lemma PairwiseWith<T(!new)>(rel: (T, T) -> bool, ys: seq<T>, k: nat)
    requires IsSymmetric(rel) && k < |ys| && Pairwise(rel, ys[..k] + ys[k + 1..])
    requires forall e :: e in ys[..k] + ys[k + 1..] ==> rel(ys[k], e)
    ensures Pairwise(rel, ys)
  {
    var rest := ys[..k] + ys[k + 1..];
    forall i, j | 0 <= i < j < |ys|
      ensures rel(ys[i], ys[j])
    {
      var x, y := if i < k then i else i - 1, if j < k then j else j - 1;
      assert i != k ==> rest[x] == ys[i] && rest[x] in rest;
      assert j != k ==> rest[y] == ys[j] && rest[y] in rest;
    }
  }

  lemma {:induction false} PairwiseInAnyOrder<T(!new)>(rel: (T, T) -> bool, xs: seq<T>, ys: seq<T>)
    requires IsSymmetric(rel) && Pairwise(rel, xs) && multiset(xs) == multiset(ys)
    ensures Pairwise(rel, ys)
  {
    SameMembers(xs, ys);
    if xs != [] {
      var k := RemoveSame(xs, ys);
      var rest := ys[..k] + ys[k + 1..];
      PairwiseInAnyOrder(rel, xs[1..], rest);
      SameMembers(xs[1..], rest);
      forall e | e in rest
        ensures rel(ys[k], e)
      {
        var m :| 0 <= m < |xs[1..]| && xs[1..][m] == e;
        assert xs[m + 1] == e;
      }
      PairwiseWith(rel, ys, k);
    }
  }
}
