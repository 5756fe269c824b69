/** Lists whose elements carry a key: lookup by key and by rank, and equality that ignores the order. */
module KeyedLists {
  import opened Wrappers
  import opened Sorting

  predicate UniqueKeysIn<T>(key: T -> nat, xs: seq<T>) {
    forall i, j :: 0 <= i < j < |xs| ==> key(xs[i]) != key(xs[j])
  }

  /** The first element with the key. */
  function FindByKey<T>(key: T -> nat, xs: seq<T>, k: nat): Option<T> {
    if xs == [] then None else if key(xs[0]) == k then Some(xs[0]) else FindByKey(key, xs[1..], k)
  }

  /** How many elements have a smaller key. */
  function LowerCount<T>(key: T -> nat, xs: seq<T>, k: nat): nat {
    if xs == [] then 0 else (if key(xs[0]) < k then 1 else 0) + LowerCount(key, xs[1..], k)
  }

  /** Same length, and every element of the one is what the other has under its key. */
  predicate SameByKey<T(==)>(key: T -> nat, xs: seq<T>, ys: seq<T>) {
    |xs| == |ys| && forall i :: 0 <= i < |xs| ==> FindByKey(key, ys, key(xs[i])) == Some(xs[i])
  }

  lemma {:induction false} FoundIsThere<T>(key: T -> nat, xs: seq<T>, k: nat)
    ensures match FindByKey(key, xs, k)
            case Some(x) => x in xs && key(x) == k
            case None => forall x :: x in xs ==> key(x) != k
  {
    if xs != [] {
      FoundIsThere(key, xs[1..], k);
      assert xs == [xs[0]] + xs[1..];
    }
  }

  lemma FindsUnique<T>(key: T -> nat, xs: seq<T>, x: T)
    requires UniqueKeysIn(key, xs) && x in xs
    ensures FindByKey(key, xs, key(x)) == Some(x)
  {
    FoundIsThere(key, xs, key(x));
    var found := FindByKey(key, xs, key(x));
    var i :| 0 <= i < |xs| && xs[i] == x;
    var j :| 0 <= j < |xs| && xs[j] == found.value;
    assert i == j;
  }

  /** Rearranging keeps keys unique. */
  lemma UniqueInAnyOrder<T(!new)>(key: T -> nat, xs: seq<T>, ys: seq<T>)
    requires UniqueKeysIn(key, xs) && multiset(xs) == multiset(ys)
    ensures UniqueKeysIn(key, ys)
  {
    var rel := (a: T, b: T) => key(a) != key(b);
    assert Pairwise(rel, xs);
    PairwiseInAnyOrder(rel, xs, ys);
    forall i, j | 0 <= i < j < |ys|
      ensures key(ys[i]) != key(ys[j])
    {
      assert rel(ys[i], ys[j]);
    }
  }

  lemma OthersIncluded<T(!new)>(key: T -> nat, xs: seq<T>, ys: seq<T>, k: nat)
    requires UniqueKeysIn(key, xs) && xs != [] && (forall x :: x in xs ==> x in ys) && k < |ys| && ys[k] == xs[0]
    ensures UniqueKeysIn(key, xs[1..]) && forall z :: z in xs[1..] ==> z in ys[..k] + ys[k + 1..]
  {
    var rest := ys[..k] + ys[k + 1..];
    forall z | z in xs[1..]
      ensures z in rest
    {
      var i :| 0 <= i < |xs[1..]| && xs[1..][i] == z;
      assert xs[i + 1] == z && key(xs[0]) != key(xs[i + 1]);
      assert z in xs;
      var j :| 0 <= j < |ys| && ys[j] == z;
      assert rest[if j < k then j else j - 1] == z;
    }
  }

  lemma {:induction false} IncludedIsRearranged<T(!new)>(key: T -> nat, xs: seq<T>, ys: seq<T>)
    requires UniqueKeysIn(key, xs) && |xs| == |ys| && forall x :: x in xs ==> x in ys
    ensures multiset(xs) == multiset(ys)
  {
    if xs != [] {
      assert xs[0] in xs;
      var k :| 0 <= k < |ys| && ys[k] == xs[0];
      OthersIncluded(key, xs, ys, k);
      hide *;
      IncludedIsRearranged(key, xs[1..], ys[..k] + ys[k + 1..]);
      SplitAt(ys, k);
      SplitHead(xs);
    }
  }

  /** On lists with unique keys, equality by key is being rearrangements of each other. */
  lemma SameByKeyIsRearranged<T(!new)>(key: T -> nat, xs: seq<T>, ys: seq<T>)
    requires UniqueKeysIn(key, xs) && UniqueKeysIn(key, ys)
    ensures SameByKey(key, xs, ys) <==> multiset(xs) == multiset(ys)
  {
    if SameByKey(key, xs, ys) {
      forall x | x in xs
        ensures x in ys
      {
        var i :| 0 <= i < |xs| && xs[i] == x;
        FoundIsThere(key, ys, key(x));
      }
      IncludedIsRearranged(key, xs, ys);
    }
    if multiset(xs) == multiset(ys) {
      SameMembers(xs, ys);
      forall i | 0 <= i < |xs|
        ensures FindByKey(key, ys, key(xs[i])) == Some(xs[i])
      {
        assert xs[i] in ys;
        FindsUnique(key, ys, xs[i]);
      }
    }
  }

  // -------------------------------------------------------------- by rank

  /** The lists sorted by key that have the same elements. */
  ghost predicate IsSortedForm<T(!new)>(key: T -> nat, xs: seq<T>, sorted: seq<T>) {
    multiset(sorted) == multiset(xs) && forall i, j :: 0 <= i < j < |sorted| ==> key(sorted[i]) < key(sorted[j])
  }

  lemma {:induction false} LowerCountSplit<T>(key: T -> nat, xs: seq<T>, ys: seq<T>, k: nat)
    ensures LowerCount(key, xs + ys, k) == LowerCount(key, xs, k) + LowerCount(key, ys, k)
  {
    if xs == [] {
      assert xs + ys == ys;
    } else {
      assert (xs + ys)[1..] == xs[1..] + ys;
      LowerCountSplit(key, xs[1..], ys, k);
    }
  }

  lemma {:induction false} LowerCountRearranged<T>(key: T -> nat, xs: seq<T>, ys: seq<T>, k: nat)
    requires multiset(xs) == multiset(ys)
    ensures LowerCount(key, xs, k) == LowerCount(key, ys, k)
  {
    SameMembers(xs, ys);
    if xs != [] {
      var j := RemoveSame(xs, ys);
      LowerCountRearranged(key, xs[1..], ys[..j] + ys[j + 1..], k);
      assert ys == ys[..j] + ([ys[j]] + ys[j + 1..]);
      LowerCountSplit(key, ys[..j], [ys[j]] + ys[j + 1..], k);
      LowerCountSplit(key, [ys[j]], ys[j + 1..], k);
      LowerCountSplit(key, ys[..j], ys[j + 1..], k);
    }
  }

  lemma {:induction false} AllLower<T>(key: T -> nat, xs: seq<T>, k: nat)
    ensures (forall x :: x in xs ==> key(x) < k) ==> LowerCount(key, xs, k) == |xs|
    ensures (forall x :: x in xs ==> key(x) >= k) ==> LowerCount(key, xs, k) == 0
  {
    if xs != [] {
      AllLower(key, xs[1..], k);
      assert xs == [xs[0]] + xs[1..];
    }
  }

  lemma LowerBefore<T>(key: T -> nat, sorted: seq<T>, r: nat)
    requires forall i, j :: 0 <= i < j < |sorted| ==> key(sorted[i]) < key(sorted[j])
    requires r < |sorted|
    ensures forall x :: x in sorted[..r] ==> key(x) < key(sorted[r])
    ensures forall x :: x in sorted[r..] ==> key(x) >= key(sorted[r])
  {
    forall x | x in sorted[r..]
      ensures key(x) >= key(sorted[r])
    {
      var i :| 0 <= i < |sorted| - r && sorted[r..][i] == x;
      assert sorted[r + i] == x;
    }
  }

  /** In a list sorted by key the r-th element has r smaller ones. */
  lemma RankInSorted<T>(key: T -> nat, sorted: seq<T>, r: nat)
    requires forall i, j :: 0 <= i < j < |sorted| ==> key(sorted[i]) < key(sorted[j])
    requires r < |sorted|
    ensures LowerCount(key, sorted, key(sorted[r])) == r
  {
    hide LowerCount;
    LowerBefore(key, sorted, r);
    var before, rest, k := sorted[..r], sorted[r..], key(sorted[r]);
    assert sorted == before + rest;
    LowerCountSplit(key, before, rest, k);
    AllLower(key, before, k);
    AllLower(key, rest, k);
  }

  /** The element with exactly rank smaller keys, by scanning candidates in list order. */
  method FindByRank<T(!new)>(key: T -> nat, xs: seq<T>, rank: nat, ghost sorted: seq<T>) returns (found: Option<T>)
    requires UniqueKeysIn(key, xs) && IsSortedForm(key, xs, sorted)
    ensures |sorted| == |xs| && found == if rank < |xs| then Some(sorted[rank]) else None
  {
    SameMembers(sorted, xs);
    for k := 0 to |xs|
      invariant forall j :: 0 <= j < k ==> LowerCount(key, xs, key(xs[j])) != rank
    {
      var lower := 0;
      for j := 0 to |xs|
        invariant lower == LowerCount(key, xs[..j], key(xs[k]))
      {
        assert xs[..j + 1] == xs[..j] + [xs[j]];
        LowerCountSplit(key, xs[..j], [xs[j]], key(xs[k]));
        if key(xs[j]) < key(xs[k]) {
          lower := lower + 1;
        }
      }
      assert xs[..|xs|] == xs;
      if lower == rank {
        RankDecides(key, xs, sorted, xs[k], rank);
        return Some(xs[k]);
      }
    }
    if rank < |xs| {
      ghost var j := RankExists(key, xs, sorted, rank);
    }
    return None;
  }

  /** The rank of an element is its place in the sorted list. */
  lemma RankDecides<T(!new)>(key: T -> nat, xs: seq<T>, sorted: seq<T>, x: T, rank: nat)
    requires IsSortedForm(key, xs, sorted) && x in xs && LowerCount(key, xs, key(x)) == rank
    ensures |sorted| == |xs| && rank < |xs| && sorted[rank] == x
  {
    SameMembers(sorted, xs);
    assert x in sorted;
    var r :| 0 <= r < |sorted| && sorted[r] == x;
    RankInSorted(key, sorted, r);
    LowerCountRearranged(key, xs, sorted, key(x));
  }

  lemma RankExists<T(!new)>(key: T -> nat, xs: seq<T>, sorted: seq<T>, rank: nat) returns (j: nat)
    requires IsSortedForm(key, xs, sorted) && rank < |xs|
    ensures j < |xs| && LowerCount(key, xs, key(xs[j])) == rank
  {
    SameMembers(sorted, xs);
    RankInSorted(key, sorted, rank);
    LowerCountRearranged(key, xs, sorted, key(sorted[rank]));
    assert sorted[rank] in xs;
    j :| 0 <= j < |xs| && xs[j] == sorted[rank];
  }

  /** A list with unique keys has one sorted form, and rearrangements share it. */
  lemma SortedFormIsUnique<T(!new)>(key: T -> nat, xs: seq<T>, ys: seq<T>, p: seq<T>, q: seq<T>)
    requires IsSortedForm(key, xs, p) && IsSortedForm(key, ys, q) && multiset(xs) == multiset(ys)
    ensures p == q
  {
    var less := (a: T, b: T) => key(a) < key(b);
    assert IsStrictOrder(less);
    forall a, b | a in p && b in p && a != b
      ensures less(a, b) || less(b, a)
    {
      var i :| 0 <= i < |p| && p[i] == a;
      var j :| 0 <= j < |p| && p[j] == b;
    }
    SortedIsUnique(less, p, q);
  }

  lemma {:induction false} SortedFormExists<T(!new)>(key: T -> nat, xs: seq<T>) returns (sorted: seq<T>)
    requires UniqueKeysIn(key, xs)
    ensures IsSortedForm(key, xs, sorted)
  {
    if xs == [] {
      sorted := [];
    } else {
      assert forall i, j :: 0 <= i < j < |xs[1..]| ==> xs[1..][i] == xs[i + 1] && xs[1..][j] == xs[j + 1];
      var rest := SortedFormExists(key, xs[1..]);
      assert xs == [xs[0]] + xs[1..];
      sorted := InsertedByKey(key, rest, xs[0], xs[1..]);
    }
  }

  lemma InsertedByKey<T(!new)>(key: T -> nat, rest: seq<T>, x: T, tail: seq<T>) returns (sorted: seq<T>)
    requires IsSortedForm(key, tail, rest) && UniqueKeysIn(key, [x] + tail)
    ensures IsSortedForm(key, [x] + tail, sorted)
  {
    SameMembers(rest, tail);
    var k := 0;
    while k < |rest| && key(rest[k]) < key(x)
      invariant 0 <= k <= |rest|
      invariant forall j :: 0 <= j < k ==> key(rest[j]) < key(x)
    {
      k := k + 1;
    }
    sorted := rest[..k] + [x] + rest[k..];
    InsertKeyed(key, rest, x, k, tail);
    InsertedElements(rest, x, k, tail);
  }

  lemma InsertedElements<T(!new)>(rest: seq<T>, x: T, k: nat, tail: seq<T>)
    requires k <= |rest| && multiset(rest) == multiset(tail)
    ensures multiset(rest[..k] + [x] + rest[k..]) == multiset([x] + tail)
  {
    assert rest == rest[..k] + rest[k..];
  }

  lemma InsertKeyed<T(!new)>(key: T -> nat, rest: seq<T>, x: T, k: nat, tail: seq<T>)
    requires forall i, j :: 0 <= i < j < |rest| ==> key(rest[i]) < key(rest[j])
    requires forall y :: y in rest <==> y in tail
    requires UniqueKeysIn(key, [x] + tail) && k <= |rest|
    requires forall j :: 0 <= j < k ==> key(rest[j]) < key(x)
    requires k < |rest| ==> key(rest[k]) >= key(x)
    ensures var s := rest[..k] + [x] + rest[k..];
            forall i, j :: 0 <= i < j < |s| ==> key(s[i]) < key(s[j])
  {
    forall y | y in tail
      ensures key(y) != key(x)
    {
      var i :| 0 <= i < |tail| && tail[i] == y;
      assert ([x] + tail)[i + 1] == y && ([x] + tail)[0] == x;
    }
    assert k < |rest| ==> rest[k] in tail && key(rest[k]) > key(x);
    var s := rest[..k] + [x] + rest[k..];
    forall i, j | 0 <= i < j < |s|
      ensures key(s[i]) < key(s[j])
    {
      if i == k && j > k + 1 {
        assert key(rest[k]) < key(rest[j - 1]);
      }
    }
  }
}
