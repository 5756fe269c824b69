// Access scopes and footprints of the coordinator (ecs/internal/access_coordinator.cpp):
// normalization, membership and the overlap test, on 64-bit coordinates.
module AccessScopes {
  import opened Wrappers

  const MODULUS: nat := 0x1_0000_0000_0000_0000

  type uint64 = x: nat | x < MODULUS

  /** Unsigned addition wraps. */
  function WrapAdd(a: uint64, b: uint64): uint64 { (a + b) % MODULUS }

  datatype ScopeKind = WHOLE_STORAGE | CHUNK | ENTITY | ENTITY_SET | RESOURCE | UNKNOWN

  datatype AccessScope = AccessScope(kind: ScopeKind, begin: uint64, count: uint64, elements: seq<uint64>)

  // -------------------------------------------------------- normalization

  ghost predicate Ascending(xs: seq<uint64>) {
    forall i, j :: 0 <= i < j < |xs| ==> xs[i] < xs[j]
  }

  function Insert(xs: seq<uint64>, x: uint64): seq<uint64> {
    if xs == [] then [x]
    else if x < xs[0] then [x] + xs
    else if x == xs[0] then xs
    else [xs[0]] + Insert(xs[1..], x)
  }

  /** Sorts and drops repetitions. */
  function SortUnique(xs: seq<uint64>): seq<uint64> {
    if xs == [] then [] else Insert(SortUnique(xs[1..]), xs[0])
  }

  lemma {:induction false} InsertSorted(xs: seq<uint64>, x: uint64)
    requires Ascending(xs)
    ensures Ascending(Insert(xs, x))
    ensures forall y :: y in Insert(xs, x) <==> y == x || y in xs
  {
    if xs != [] {
      assert xs == [xs[0]] + xs[1..];
      if x > xs[0] {
        InsertSorted(xs[1..], x);
        var rest := Insert(xs[1..], x);
        forall j | 0 <= j < |rest|
          ensures xs[0] < rest[j]
        {
          assert rest[j] in rest;
        }
      }
    }
  }

  lemma {:induction false} SortUniqueSorts(xs: seq<uint64>)
    ensures Ascending(SortUnique(xs))
    ensures forall y :: y in SortUnique(xs) <==> y in xs
  {
    if xs != [] {
      SortUniqueSorts(xs[1..]);
      InsertSorted(SortUnique(xs[1..]), xs[0]);
      assert xs == [xs[0]] + xs[1..];
    }
  }

  /** Rejects scopes with coordinates they have no use for, and ranges that would wrap. */
  function Normalize(scope: AccessScope): Result<AccessScope, ()> {
    match scope.kind
    case WHOLE_STORAGE | UNKNOWN =>
      if scope.begin != 0 || scope.count != 0 || scope.elements != [] then Err(()) else Ok(scope)
    case CHUNK =>
      if scope.count == 0 || scope.begin > MODULUS - 1 - scope.count || scope.elements != [] then Err(()) else Ok(scope)
    case ENTITY | RESOURCE =>
      if scope.count != 0 || scope.elements != [] then Err(()) else Ok(scope)
    case ENTITY_SET =>
      if scope.begin != 0 || scope.count != 0 || scope.elements == [] then Err(())
      else Ok(scope.(elements := SortUnique(scope.elements)))
  }

  /** A scope as it stands in an admitted footprint. */
  predicate IsNormalized(scope: AccessScope) { Normalize(scope) == Ok(scope) }

  // ------------------------------------------------------- what it covers

  /** Entity slots and resources are numbered separately. */
  datatype Cell = Slot(index: nat) | ResourceCell(id: nat)

  ghost predicate Covers(scope: AccessScope, cell: Cell) {
    match scope.kind
    case WHOLE_STORAGE | UNKNOWN => true
    case CHUNK => cell.Slot? && scope.begin <= cell.index < scope.begin + scope.count
    case ENTITY => cell == Slot(scope.begin)
    case ENTITY_SET => cell.Slot? && exists i :: 0 <= i < |scope.elements| && scope.elements[i] == cell.index
    case RESOURCE => cell == ResourceCell(scope.begin)
  }

  ghost predicate Share(left: AccessScope, right: AccessScope) {
    exists cell :: Covers(left, cell) && Covers(right, cell)
  }

  /** Normalizing a scope does not change what it covers, and normalizing again does nothing. */
  lemma NormalizeKeepsCover(scope: AccessScope)
    requires Normalize(scope).Ok?
    ensures IsNormalized(Normalize(scope).value)
    ensures forall cell :: Covers(Normalize(scope).value, cell) <==> Covers(scope, cell)
  {
    if scope.kind == ENTITY_SET {
      var sorted := SortUnique(scope.elements);
      SortUniqueSorts(scope.elements);
      SortUniqueIdempotent(sorted);
      assert sorted != [] by { assert scope.elements[0] in sorted; }
      forall cell: Cell | cell.Slot?
        ensures Covers(Normalize(scope).value, cell) <==> Covers(scope, cell)
      {
        if i :| 0 <= i < |sorted| && sorted[i] == cell.index { assert sorted[i] in scope.elements; }
        if i :| 0 <= i < |scope.elements| && scope.elements[i] == cell.index { assert scope.elements[i] in sorted; }
      }
    }
  }

  lemma {:induction false} SortUniqueIdempotent(xs: seq<uint64>)
    requires Ascending(xs)
    ensures SortUnique(xs) == xs
  {
    if xs != [] {
      SortUniqueIdempotent(xs[1..]);
      assert xs == [xs[0]] + xs[1..];
      if |xs| > 1 { assert xs[1..][0] == xs[1]; }
    }
  }

  lemma NormalizedSetAscends(scope: AccessScope)
    requires IsNormalized(scope) && scope.kind == ENTITY_SET
    ensures Ascending(scope.elements)
  {
    SortUniqueSorts(scope.elements);
  }

  // ------------------------------------------------------------- overlap

  /** The first position in [lo, hi) that does not hold a smaller value. */
  function LowerBound(xs: seq<uint64>, x: uint64, lo: nat, hi: nat): nat
    requires lo <= hi <= |xs|
    decreases hi - lo
  {
    if lo == hi then lo
    else
      var mid := lo + (hi - lo) / 2;
      if xs[mid] < x then LowerBound(xs, x, mid + 1, hi) else LowerBound(xs, x, lo, mid)
  }

  predicate BinarySearch(xs: seq<uint64>, x: uint64) {
    var position := LowerBound(xs, x, 0, |xs|);
    position < |xs| && xs[position] == x
  }

  lemma {:induction false} LowerBoundSplits(xs: seq<uint64>, x: uint64, lo: nat, hi: nat)
    requires lo <= hi <= |xs| && Ascending(xs)
    requires forall i :: 0 <= i < lo ==> xs[i] < x
    requires forall i :: hi <= i < |xs| ==> xs[i] >= x
    ensures var position := LowerBound(xs, x, lo, hi);
      && position <= |xs|
      && (forall i :: 0 <= i < position ==> xs[i] < x)
      && (forall i :: position <= i < |xs| ==> xs[i] >= x)
    decreases hi - lo
  {
    if lo != hi {
      var mid := lo + (hi - lo) / 2;
      if xs[mid] < x { LowerBoundSplits(xs, x, mid + 1, hi); } else { LowerBoundSplits(xs, x, lo, mid); }
    }
  }

  lemma BinarySearchFinds(xs: seq<uint64>, x: uint64)
    requires Ascending(xs)
    ensures BinarySearch(xs, x) <==> x in xs
  {
    LowerBoundSplits(xs, x, 0, |xs|);
  }

  predicate Contains(scope: AccessScope, element: uint64) {
    match scope.kind
    case ENTITY => scope.begin == element
    case ENTITY_SET => BinarySearch(scope.elements, element)
    case CHUNK => element >= scope.begin && element - scope.begin < scope.count
    case _ => true
  }

  predicate Overlaps(left: AccessScope, right: AccessScope)
    decreases if left.kind != ENTITY_SET && right.kind == ENTITY_SET then 1 else 0
  {
    if left.kind in {WHOLE_STORAGE, UNKNOWN} || right.kind in {WHOLE_STORAGE, UNKNOWN} then true
    else if left.kind == RESOURCE || right.kind == RESOURCE then left.kind != right.kind || left.begin == right.begin
    else if left.kind == ENTITY then Contains(right, left.begin)
    else if right.kind == ENTITY then Contains(left, right.begin)
    else if left.kind == ENTITY_SET then exists i | 0 <= i < |left.elements| :: Contains(right, left.elements[i])
    else if right.kind == ENTITY_SET then Overlaps(right, left)
    else left.begin < WrapAdd(right.begin, right.count) && right.begin < WrapAdd(left.begin, left.count)
  }

  lemma ContainsIsCover(scope: AccessScope, element: uint64)
    requires IsNormalized(scope) && scope.kind != RESOURCE
    ensures Contains(scope, element) <==> Covers(scope, Slot(element))
  {
    if scope.kind == ENTITY_SET {
      NormalizedSetAscends(scope);
      BinarySearchFinds(scope.elements, element);
    }
  }

  lemma CoversSomething(scope: AccessScope)
    requires IsNormalized(scope)
    ensures exists cell :: Covers(scope, cell)
  {
    match scope.kind
    case ENTITY_SET =>
      assert Covers(scope, Slot(scope.elements[0]));
    case RESOURCE =>
      assert Covers(scope, ResourceCell(scope.begin));
    case _ =>
      assert Covers(scope, Slot(scope.begin));
  }

  lemma SetOverlapsExactly(left: AccessScope, right: AccessScope)
    requires IsNormalized(left) && IsNormalized(right)
    requires left.kind == ENTITY_SET && right.kind in {ENTITY_SET, CHUNK}
    ensures Overlaps(left, right) <==> Share(left, right)
  {
    forall i | 0 <= i < |left.elements|
      ensures Contains(right, left.elements[i]) <==> Covers(right, Slot(left.elements[i]))
      ensures Covers(left, Slot(left.elements[i]))
    {
      ContainsIsCover(right, left.elements[i]);
    }
  }

  /** The overlap test answers yes exactly when two admitted scopes share a cell, except
      that a resource and an entity scope are always taken to overlap. */
  lemma OverlapsExactly(left: AccessScope, right: AccessScope)
    requires IsNormalized(left) && IsNormalized(right)
    ensures Overlaps(left, right) <==> Share(left, right) || (left.kind == RESOURCE) != (right.kind == RESOURCE)
  {
    if left.kind in {WHOLE_STORAGE, UNKNOWN} {
      CoversSomething(right);
    } else if right.kind in {WHOLE_STORAGE, UNKNOWN} {
      CoversSomething(left);
    } else if left.kind == RESOURCE || right.kind == RESOURCE {
      if left.kind == right.kind && left.begin == right.begin { assert Covers(left, ResourceCell(left.begin)); }
    } else if left.kind == ENTITY {
      assert Covers(left, Slot(left.begin));
      ContainsIsCover(right, left.begin);
    } else if right.kind == ENTITY {
      assert Covers(right, Slot(right.begin));
      ContainsIsCover(left, right.begin);
    } else if left.kind == ENTITY_SET {
      SetOverlapsExactly(left, right);
    } else if right.kind == ENTITY_SET {
      SetOverlapsExactly(right, left);
      assert Share(left, right) <==> Share(right, left);
    } else {
      var first := if left.begin < right.begin then right.begin else left.begin;
      if Overlaps(left, right) {
        assert Covers(left, Slot(first)) && Covers(right, Slot(first));
      }
    }
  }

  /** Without the range check of Normalize the test would miss a shared slot: the end of
      the left range wraps to zero. */
  lemma UncheckedRangeWraps()
    ensures var left, right := AccessScope(CHUNK, MODULUS - 2, 2, []), AccessScope(CHUNK, MODULUS - 2, 1, []);
      Normalize(left) == Err(()) && IsNormalized(right) && Share(left, right) && !Overlaps(left, right)
  {
    var left, right := AccessScope(CHUNK, MODULUS - 2, 2, []), AccessScope(CHUNK, MODULUS - 2, 1, []);
    assert Covers(left, Slot(MODULUS - 2)) && Covers(right, Slot(MODULUS - 2));
  }

  // ---------------------------------------------------------- footprints

  datatype DomainKey = DomainKey(owner: uint64, typeId: uint64, generation: uint64)

  datatype AccessRequirement = READ | WRITE | EXCLUSIVE

  datatype AccessFootprint = AccessFootprint(domain: DomainKey, scope: AccessScope, requirement: AccessRequirement)

  predicate ValidKey(key: DomainKey) { key.owner != 0 && key.typeId != 0 && key.generation != 0 }

  /** Normalizes the scopes of an operation; one bad footprint rejects them all. */
  function NormalizeAll(footprints: seq<AccessFootprint>): Result<seq<AccessFootprint>, ()> {
    if footprints == [] then Ok([])
    else
      var rest := NormalizeAll(footprints[1..]);
      var scope := Normalize(footprints[0].scope);
      if !ValidKey(footprints[0].domain) || scope.Err? || rest.Err? then Err(())
      else Ok([footprints[0].(scope := scope.value)] + rest.value)
  }

  ghost predicate AllNormalized(footprints: seq<AccessFootprint>) {
    forall i :: 0 <= i < |footprints| ==> IsNormalized(footprints[i].scope)
  }

  lemma {:induction false} NormalizeAllNormalizes(footprints: seq<AccessFootprint>)
    requires NormalizeAll(footprints).Ok?
    ensures AllNormalized(NormalizeAll(footprints).value)
  {
    if footprints != [] {
      NormalizeAllNormalizes(footprints[1..]);
      NormalizeKeepsCover(footprints[0].scope);
    }
  }

  /** The test that makes an earlier operation a predecessor of a later one. */
  predicate FootprintsClash(left: AccessFootprint, right: AccessFootprint) {
    && left.domain == right.domain
    && (left.requirement != READ || right.requirement != READ)
    && Overlaps(left.scope, right.scope)
  }

  predicate OperationsClash(left: seq<AccessFootprint>, right: seq<AccessFootprint>) {
    exists i, j | 0 <= i < |left| && 0 <= j < |right| :: FootprintsClash(left[i], right[j])
  }

  /** The cells an operation may look at. */
  ghost predicate MayTouch(footprints: seq<AccessFootprint>, domain: DomainKey, cell: Cell) {
    exists i :: 0 <= i < |footprints| && footprints[i].domain == domain && Covers(footprints[i].scope, cell)
  }

  /** The cells an operation may change. */
  ghost predicate MayChange(footprints: seq<AccessFootprint>, domain: DomainKey, cell: Cell) {
    exists i :: 0 <= i < |footprints| && footprints[i].domain == domain && footprints[i].requirement != READ
                && Covers(footprints[i].scope, cell)
  }

  /** When one operation may change a cell another may touch, their footprints clash. */
  lemma SharedCellClashes(left: seq<AccessFootprint>, right: seq<AccessFootprint>, domain: DomainKey, cell: Cell)
    requires AllNormalized(left) && AllNormalized(right)
    requires (MayChange(left, domain, cell) && MayTouch(right, domain, cell))
          || (MayTouch(left, domain, cell) && MayChange(right, domain, cell))
    ensures OperationsClash(left, right)
  {
    var i :| 0 <= i < |left| && left[i].domain == domain && Covers(left[i].scope, cell)
             && (MayChange(left, domain, cell) && MayTouch(right, domain, cell) ==> left[i].requirement != READ);
    var j :| 0 <= j < |right| && right[j].domain == domain && Covers(right[j].scope, cell)
             && (left[i].requirement == READ ==> right[j].requirement != READ);
    OverlapsExactly(left[i].scope, right[j].scope);
    assert FootprintsClash(left[i], right[j]);
  }

  /**
   * Operations clash exactly when two of their footprints name the same domain, not both of them for reading, and their
   * scopes share a cell, or one is a resource of the domain and the other is not.
   */
  lemma ClashesExactly(left: seq<AccessFootprint>, right: seq<AccessFootprint>)
    requires AllNormalized(left) && AllNormalized(right)
    ensures OperationsClash(left, right) <==>
      exists i, j ::
        && 0 <= i < |left| && 0 <= j < |right| && left[i].domain == right[j].domain
        && !(left[i].requirement == READ && right[j].requirement == READ)
        && ((exists cell :: Covers(left[i].scope, cell) && Covers(right[j].scope, cell))
            || (left[i].scope.kind == RESOURCE) != (right[j].scope.kind == RESOURCE))
  {
    hide IsNormalized, Overlaps, Covers;
    forall i, j | 0 <= i < |left| && 0 <= j < |right|
      ensures FootprintsClash(left[i], right[j]) <==>
        && left[i].domain == right[j].domain
        && !(left[i].requirement == READ && right[j].requirement == READ)
        && ((exists cell :: Covers(left[i].scope, cell) && Covers(right[j].scope, cell))
            || (left[i].scope.kind == RESOURCE) != (right[j].scope.kind == RESOURCE))
    {
      OverlapsExactly(left[i].scope, right[j].scope);
    }
  }

  lemma OverlapsSymmetric(left: AccessScope, right: AccessScope)
    requires IsNormalized(left) && IsNormalized(right)
    ensures Overlaps(left, right) == Overlaps(right, left)
  {
    OverlapsExactly(left, right);
    OverlapsExactly(right, left);
    assert Share(left, right) <==> Share(right, left);
  }

  lemma OperationsClashSymmetric(left: seq<AccessFootprint>, right: seq<AccessFootprint>)
    requires AllNormalized(left) && AllNormalized(right) && OperationsClash(left, right)
    ensures OperationsClash(right, left)
  {
    var i, j :| 0 <= i < |left| && 0 <= j < |right| && FootprintsClash(left[i], right[j]);
    OverlapsSymmetric(left[i].scope, right[j].scope);
    assert FootprintsClash(right[j], left[i]);
  }
}
