/** Gauss-Jordan inversion with partial pivoting over exact reals (ecs/hierarchy.cpp, InverseAffine). */
module AffineInverse {
  import opened Wrappers
  import opened Matrices

  /** One row of the augmented array: the left half starts as the matrix, the right half as the identity. */
  datatype AugmentedRow = AugmentedRow(left: Vec4, right: Vec4)

  /** What row r says about x and y: left . x == right . y, as a difference. */
  function Residual(r: AugmentedRow, x: Vec4, y: Vec4): real { Dot(r.left, x) - Dot(r.right, y) }

  function ScaledRow(r: AugmentedRow, f: real): AugmentedRow { AugmentedRow(Scaled(r.left, f), Scaled(r.right, f)) }

  function MinusRow(r: AugmentedRow, p: AugmentedRow): AugmentedRow {
    AugmentedRow(Minus(r.left, p.left), Minus(r.right, p.right))
  }

  ghost predicate Solves(rows: seq<AugmentedRow>, x: Vec4, y: Vec4) {
    forall i :: 0 <= i < |rows| ==> Residual(rows[i], x, y) == 0.0
  }

  /** The rows have exactly the solutions of m x == y. */
  ghost predicate Represents(rows: seq<AugmentedRow>, m: Mat4) {
    forall x, y :: Solves(rows, x, y) <==> Apply(m, x) == y
  }

  /** The first k columns of the left half are those of the identity. */
  predicate Reduced(rows: seq<AugmentedRow>, k: nat)
    requires |rows| == 4 && k <= 4
  {
    forall i, j: nat :: 0 <= i < 4 && j < k ==> rows[i].left.At(j) == if i == j then 1.0 else 0.0
  }

  // ------------------------------------------------------- row operations

  lemma ResidualScaled(r: AugmentedRow, f: real, x: Vec4, y: Vec4)
    ensures Residual(ScaledRow(r, f), x, y) == f * Residual(r, x, y)
  {
    DotScaled(r.left, f, x);
    DotScaled(r.right, f, y);
    var a, b := Dot(r.left, x), Dot(r.right, y);
    assert f * (a - b) == f * a - f * b;
  }

  lemma ResidualMinus(r: AugmentedRow, p: AugmentedRow, x: Vec4, y: Vec4)
    ensures Residual(MinusRow(r, p), x, y) == Residual(r, x, y) - Residual(p, x, y)
  {
    hide Dot;
    DotMinus(r.left, p.left, x);
    DotMinus(r.right, p.right, y);
  }

  /** Exchanging two rows, dividing a row by a nonzero number and subtracting a multiple of another row keep the solutions. */
  lemma SwapKeepsSolutions(rows: seq<AugmentedRow>, a: nat, b: nat, m: Mat4)
    requires a < |rows| && b < |rows| && Represents(rows, m)
    ensures Represents(rows[a := rows[b]][b := rows[a]], m)
  {
    hide Residual, Apply;
    var swapped := rows[a := rows[b]][b := rows[a]];
    forall x, y
      ensures Solves(swapped, x, y) <==> Solves(rows, x, y)
    {
      assert swapped[a] == rows[b] && swapped[b] == rows[a];
      assert forall i :: 0 <= i < |rows| && i != a && i != b ==> swapped[i] == rows[i];
    }
  }

  lemma ScaleKeepsSolutions(rows: seq<AugmentedRow>, a: nat, f: real, m: Mat4)
    requires a < |rows| && f != 0.0 && Represents(rows, m)
    ensures Represents(rows[a := ScaledRow(rows[a], f)], m)
  {
    hide Residual, ScaledRow, Apply;
    var scaled := rows[a := ScaledRow(rows[a], f)];
    forall x, y
      ensures Solves(scaled, x, y) <==> Solves(rows, x, y)
    {
      ResidualScaled(rows[a], f, x, y);
      ScaleZero(f, Residual(rows[a], x, y));
      assert scaled[a] == ScaledRow(rows[a], f);
      assert forall i :: 0 <= i < |rows| && i != a ==> scaled[i] == rows[i];
    }
  }

  lemma ScaleZero(f: real, r: real)
    requires f != 0.0
    ensures f * r == 0.0 <==> r == 0.0
  {
  }

  lemma SubtractKeepsSolutions(rows: seq<AugmentedRow>, a: nat, b: nat, f: real, m: Mat4)
    requires a < |rows| && b < |rows| && a != b && Represents(rows, m)
    ensures Represents(rows[a := MinusRow(rows[a], ScaledRow(rows[b], f))], m)
  {
    hide Residual, ScaledRow, MinusRow, Apply;
    var changed := rows[a := MinusRow(rows[a], ScaledRow(rows[b], f))];
    forall x, y
      ensures Solves(changed, x, y) <==> Solves(rows, x, y)
    {
      ResidualScaled(rows[b], f, x, y);
      ResidualMinus(rows[a], ScaledRow(rows[b], f), x, y);
      assert changed[a] == MinusRow(rows[a], ScaledRow(rows[b], f)) && changed[b] == rows[b];
      assert forall i :: 0 <= i < |rows| && i != a ==> changed[i] == rows[i];
      if Solves(rows, x, y) || Solves(changed, x, y) {
        assert Residual(rows[b], x, y) == 0.0;
        assert f * Residual(rows[b], x, y) == 0.0;
        assert Residual(changed[a], x, y) == Residual(rows[a], x, y);
      }
    }
  }

  // ------------------------------------------------------------- outcomes

  /** A vector the left half sends to zero when no row from k on has anything in column k. */
  function KernelVector(rows: seq<AugmentedRow>, k: nat): Vec4
    requires |rows| == 4 && k < 4
  {
    if k == 0 then Vec4(1.0, 0.0, 0.0, 0.0)
    else if k == 1 then Vec4(-rows[0].left.y, 1.0, 0.0, 0.0)
    else if k == 2 then Vec4(-rows[0].left.z, -rows[1].left.z, 1.0, 0.0)
    else Vec4(-rows[0].left.w, -rows[1].left.w, -rows[2].left.w, 1.0)
  }

  lemma KernelVectorSolves(rows: seq<AugmentedRow>, k: nat)
    requires |rows| == 4 && k < 4 && Reduced(rows, k)
    requires forall i: nat :: k <= i < 4 ==> rows[i].left.At(k) == 0.0
    ensures KernelVector(rows, k) != ZERO
    ensures Solves(rows, KernelVector(rows, k), ZERO)
  {
    forall i | 0 <= i < 4
      ensures Residual(rows[i], KernelVector(rows, k), ZERO) == 0.0
    {
      var row := rows[i].left;
      assert Dot(rows[i].right, ZERO) == 0.0;
      assert row.At(k) == if i < k then row.At(k) else 0.0;
      assert k > 0 ==> row.At(0) == if i == 0 then 1.0 else 0.0;
      assert k > 1 ==> row.At(1) == if i == 1 then 1.0 else 0.0;
      assert k > 2 ==> row.At(2) == if i == 2 then 1.0 else 0.0;
    }
  }

  lemma NoPivotMeansSingular(rows: seq<AugmentedRow>, k: nat, m: Mat4)
    requires |rows| == 4 && k < 4 && Reduced(rows, k) && Represents(rows, m)
    requires forall i: nat :: k <= i < 4 ==> rows[i].left.At(k) == 0.0
    ensures !Invertible(m)
  {
    KernelVectorSolves(rows, k);
    var v := KernelVector(rows, k);
    assert Apply(m, v) == ZERO;
    KernelMeansSingular(m, v);
  }

  function RightHalf(rows: seq<AugmentedRow>): Mat4
    requires |rows| == 4
  {
    Mat4(rows[0].right, rows[1].right, rows[2].right, rows[3].right)
  }

  lemma ReducedSolves(rows: seq<AugmentedRow>, x: Vec4, y: Vec4)
    requires |rows| == 4 && Reduced(rows, 4)
    ensures Solves(rows, x, y) <==> x == Apply(RightHalf(rows), y)
  {
    forall i: nat | i < 4
      ensures rows[i].left == Basis(i)
    {
      assert rows[i].left.At(0) == Basis(i).At(0) && rows[i].left.At(1) == Basis(i).At(1);
      assert rows[i].left.At(2) == Basis(i).At(2) && rows[i].left.At(3) == Basis(i).At(3);
    }
    assert Dot(Basis(0), x) == x.x && Dot(Basis(1), x) == x.y;
    assert Dot(Basis(2), x) == x.z && Dot(Basis(3), x) == x.w;
    assert Solves(rows, x, y) ==> Residual(rows[0], x, y) == 0.0 && Residual(rows[1], x, y) == 0.0;
    assert Solves(rows, x, y) ==> Residual(rows[2], x, y) == 0.0 && Residual(rows[3], x, y) == 0.0;
  }

  lemma ReducedMeansInverse(rows: seq<AugmentedRow>, m: Mat4)
    requires |rows| == 4 && Reduced(rows, 4) && Represents(rows, m)
    ensures Mul(RightHalf(rows), m) == IDENTITY && Mul(m, RightHalf(rows)) == IDENTITY
  {
    var inverse := RightHalf(rows);
    hide Apply, Mul, Reduced, RightHalf, Dot;
    forall j: nat | j < 4
      ensures Apply(Mul(inverse, m), Basis(j)) == Apply(IDENTITY, Basis(j))
      ensures Apply(Mul(m, inverse), Basis(j)) == Apply(IDENTITY, Basis(j))
    {
      var v := Basis(j);
      ApplyIdentity(v);
      ApplyMul(inverse, m, v);
      ReducedSolves(rows, v, Apply(m, v));
      assert Solves(rows, v, Apply(m, v));
      ApplyMul(m, inverse, v);
      ReducedSolves(rows, Apply(inverse, v), v);
      assert Solves(rows, Apply(inverse, v), v);
    }
    SameOnBasis(Mul(inverse, m), IDENTITY);
    SameOnBasis(Mul(m, inverse), IDENTITY);
  }

  /** The last row of the inverse of an affine matrix is 0, 0, 0, 1, so not reading it loses nothing. */
  lemma InverseOfAffineIsAffine(m: Mat4, inverse: Mat4)
    requires IsAffine(m) && Mul(m, inverse) == IDENTITY
    ensures IsAffine(inverse)
  {
    assert Mul(m, inverse).r3 == RowTimes(m.r3, inverse);
    assert forall j: nat :: j < 4 ==> Dot(m.r3, Column(inverse, j)) == inverse.r3.At(j);
    assert RowTimes(m.r3, inverse) == inverse.r3;
  }

  // -------------------------------------------------------- the algorithm

  ghost function RowAt(rows: array2<real>, i: nat): AugmentedRow
    requires rows.Length0 == 4 && rows.Length1 == 8 && i < 4
    reads rows
  {
    AugmentedRow(Vec4(rows[i, 0], rows[i, 1], rows[i, 2], rows[i, 3]),
                 Vec4(rows[i, 4], rows[i, 5], rows[i, 6], rows[i, 7]))
  }

  ghost function Snapshot(rows: array2<real>): (s: seq<AugmentedRow>)
    requires rows.Length0 == 4 && rows.Length1 == 8
    reads rows
    ensures |s| == 4 && forall i: nat :: i < 4 ==> s[i] == RowAt(rows, i)
  {
    [RowAt(rows, 0), RowAt(rows, 1), RowAt(rows, 2), RowAt(rows, 3)]
  }

  function Abs(x: real): real { if x < 0.0 then -x else x }

  /** The row, from the given column down, whose entry in the column is largest. */
  method FindPivot(rows: array2<real>, column: nat) returns (pivot: nat)
    requires rows.Length0 == 4 && rows.Length1 == 8 && column < 4
    ensures column <= pivot < 4
    ensures forall i :: column <= i < 4 ==> Abs(rows[i, column]) <= Abs(rows[pivot, column])
  {
    pivot := column;
    for row := column + 1 to 4
      invariant column <= pivot < 4
      invariant forall i :: column <= i < row ==> Abs(rows[i, column]) <= Abs(rows[pivot, column])
    {
      if Abs(rows[row, column]) > Abs(rows[pivot, column]) {
        pivot := row;
      }
    }
  }

  method SwapRows(rows: array2<real>, a: nat, b: nat)
    requires rows.Length0 == 4 && rows.Length1 == 8 && a < 4 && b < 4
    modifies rows
    ensures var was := old(Snapshot(rows));
            Snapshot(rows) == was[a := was[b]][b := was[a]]
  {
    for entry := 0 to 8
      invariant forall i, j :: 0 <= i < 4 && entry <= j < 8 ==> rows[i, j] == old(rows[i, j])
      invariant forall i, j :: 0 <= i < 4 && 0 <= j < entry ==>
        rows[i, j] == if i == b then old(rows[a, j]) else if i == a then old(rows[b, j]) else old(rows[i, j])
    {
      rows[a, entry], rows[b, entry] := rows[b, entry], rows[a, entry];
    }
    ghost var was := old(Snapshot(rows));
    assert Snapshot(rows) == was[a := was[b]][b := was[a]];
  }

  method DivideRow(rows: array2<real>, row: nat, divisor: real)
    requires rows.Length0 == 4 && rows.Length1 == 8 && row < 4 && divisor != 0.0
    modifies rows
    ensures var was := old(Snapshot(rows));
            Snapshot(rows) == was[row := ScaledRow(was[row], 1.0 / divisor)]
  {
    hide Times;
    for entry := 0 to 8
      invariant forall i, j :: 0 <= i < 4 && 0 <= j < 8 ==>
        rows[i, j] == if i == row && j < entry then Times(1.0 / divisor, old(rows[i, j])) else old(rows[i, j])
    {
      DivideIsScale(rows[row, entry], divisor);
      rows[row, entry] := rows[row, entry] / divisor;
    }
    ghost var was := old(Snapshot(rows));
    forall i: nat | i < 4
      ensures RowAt(rows, i) == if i == row then ScaledRow(was[i], 1.0 / divisor) else was[i]
    {
      assert was[i] == old(RowAt(rows, i));
    }
  }

  lemma DivideIsScale(x: real, d: real)
    requires d != 0.0
    ensures x / d == Times(1.0 / d, x)
  {
  }

  method SubtractRow(rows: array2<real>, row: nat, column: nat, factor: real)
    requires rows.Length0 == 4 && rows.Length1 == 8 && row < 4 && column < 4 && row != column
    modifies rows
    ensures var was := old(Snapshot(rows));
            Snapshot(rows) == was[row := MinusRow(was[row], ScaledRow(was[column], factor))]
  {
    hide Times;
    for entry := 0 to 8
      invariant forall i, j :: 0 <= i < 4 && 0 <= j < 8 ==>
        rows[i, j] ==
          if i == row && j < entry then old(rows[i, j]) - Times(factor, old(rows[column, j])) else old(rows[i, j])
    {
      rows[row, entry] := rows[row, entry] - Times(factor, rows[column, entry]);
    }
    ghost var was := old(Snapshot(rows));
    forall i: nat | i < 4
      ensures RowAt(rows, i) == if i == row then MinusRow(was[i], ScaledRow(was[column], factor)) else was[i]
    {
      assert was[i] == old(RowAt(rows, i)) && was[column] == old(RowAt(rows, column));
    }
  }

  /** Rows before `done`, other than row k, have lost their entry in column k; row k has a one there. */
  predicate Cleared(rows: seq<AugmentedRow>, k: nat, done: nat)
    requires |rows| == 4 && k < 4 && done <= 4
  {
    && Reduced(rows, k)
    && rows[k].left.At(k) == 1.0
    && forall i :: 0 <= i < done && i != k ==> rows[i].left.At(k) == 0.0
  }

  lemma SwapKeepsReduced(rows: seq<AugmentedRow>, k: nat, pivot: nat)
    requires |rows| == 4 && k <= pivot < 4 && Reduced(rows, k)
    ensures Reduced(rows[pivot := rows[k]][k := rows[pivot]], k)
  {
  }

  lemma RowArithmeticAt(a: AugmentedRow, b: AugmentedRow, f: real, j: nat)
    requires j < 4
    ensures ScaledRow(a, f).left.At(j) == f * a.left.At(j)
    ensures MinusRow(a, b).left.At(j) == a.left.At(j) - b.left.At(j)
  {
  }

  lemma DivideMakesPivotOne(rows: seq<AugmentedRow>, k: nat)
    requires |rows| == 4 && k < 4 && Reduced(rows, k) && rows[k].left.At(k) != 0.0
    ensures Cleared(rows[k := ScaledRow(rows[k], 1.0 / rows[k].left.At(k))], k, 0)
  {
    hide ScaledRow, Vec4.At;
    var d := rows[k].left.At(k);
    var scaled := ScaledRow(rows[k], 1.0 / d);
    RowArithmeticAt(rows[k], rows[k], 1.0 / d, k);
    DivideIsScale(d, d);
    forall j: nat | j < k
      ensures scaled.left.At(j) == 0.0
    {
      assert rows[k].left.At(j) == 0.0;
      RowArithmeticAt(rows[k], rows[k], 1.0 / d, j);
    }
  }

  lemma SubtractClearsRow(rows: seq<AugmentedRow>, k: nat, row: nat)
    requires |rows| == 4 && k < 4 && row < 4 && row != k && Cleared(rows, k, row)
    ensures Cleared(rows[row := MinusRow(rows[row], ScaledRow(rows[k], rows[row].left.At(k)))], k, row + 1)
  {
    hide ScaledRow, MinusRow, Vec4.At;
    var f := rows[row].left.At(k);
    var changed := MinusRow(rows[row], ScaledRow(rows[k], f));
    RowArithmeticAt(rows[k], rows[k], f, k);
    RowArithmeticAt(rows[row], ScaledRow(rows[k], f), f, k);
    forall j: nat | j < k
      ensures changed.left.At(j) == rows[row].left.At(j)
    {
      assert rows[k].left.At(j) == 0.0;
      RowArithmeticAt(rows[k], rows[k], f, j);
      RowArithmeticAt(rows[row], ScaledRow(rows[k], f), f, j);
    }
  }

  lemma ClearedIsReduced(rows: seq<AugmentedRow>, k: nat)
    requires |rows| == 4 && k < 4 && Cleared(rows, k, 4)
    ensures Reduced(rows, k + 1)
  {
  }

  /** Clears column k in every row but k, whose entry there is already one. */
  method EliminateColumn(rows: array2<real>, column: nat, ghost m: Mat4)
    requires rows.Length0 == 4 && rows.Length1 == 8 && column < 4
    requires Cleared(Snapshot(rows), column, 0) && Represents(Snapshot(rows), m)
    modifies rows
    ensures Reduced(Snapshot(rows), column + 1) && Represents(Snapshot(rows), m)
  {
    hide Cleared, Represents, Reduced, MinusRow, ScaledRow;
    for row := 0 to 4
      invariant Cleared(Snapshot(rows), column, row) && Represents(Snapshot(rows), m)
    {
      if row == column {
        SkipPivotRow(Snapshot(rows), column);
      } else {
        var factor := rows[row, column];
        assert factor == Snapshot(rows)[row].left.At(column);
        SubtractClearsRow(Snapshot(rows), column, row);
        SubtractKeepsSolutions(Snapshot(rows), row, column, factor, m);
        SubtractRow(rows, row, column, factor);
      }
    }
    ClearedIsReduced(Snapshot(rows), column);
  }

  lemma SkipPivotRow(rows: seq<AugmentedRow>, k: nat)
    requires |rows| == 4 && k < 4 && Cleared(rows, k, k)
    ensures Cleared(rows, k, k + 1)
  {
  }

  lemma StartRepresents(rows: seq<AugmentedRow>, m: Mat4)
    requires |rows| == 4
    requires forall i: nat :: i < 4 ==> rows[i] == AugmentedRow(m.Row(i), Basis(i))
    ensures Represents(rows, m)
  {
    forall x, y
      ensures Solves(rows, x, y) <==> Apply(m, x) == y
    {
      assert Dot(Basis(0), y) == y.x && Dot(Basis(1), y) == y.y;
      assert Dot(Basis(2), y) == y.z && Dot(Basis(3), y) == y.w;
      assert rows[0] == AugmentedRow(m.r0, Basis(0)) && rows[1] == AugmentedRow(m.r1, Basis(1));
      assert rows[2] == AugmentedRow(m.r2, Basis(2)) && rows[3] == AugmentedRow(m.r3, Basis(3));
      hide Dot;
      assert Solves(rows, x, y) ==> Residual(rows[0], x, y) == 0.0 && Residual(rows[1], x, y) == 0.0;
      assert Solves(rows, x, y) ==> Residual(rows[2], x, y) == 0.0 && Residual(rows[3], x, y) == 0.0;
    }
  }

  /** The augmented array [m | identity]. */
  method Augment(m: Mat4) returns (rows: array2<real>)
    ensures fresh(rows) && rows.Length0 == 4 && rows.Length1 == 8
    ensures Represents(Snapshot(rows), m)
  {
    rows := new real[4, 8];
    for row := 0 to 4
      invariant forall i, j :: 0 <= i < row && 0 <= j < 8 ==>
        rows[i, j] == if j < 4 then m.Row(i).At(j) else if j == i + 4 then 1.0 else 0.0
    {
      for column := 0 to 8
        invariant forall i, j :: 0 <= i < row && 0 <= j < 8 ==>
          rows[i, j] == if j < 4 then m.Row(i).At(j) else if j == i + 4 then 1.0 else 0.0
        invariant forall j :: 0 <= j < column ==>
          rows[row, j] == if j < 4 then m.Row(row).At(j) else if j == row + 4 then 1.0 else 0.0
      {
        rows[row, column] :=
          if column < 4 then m.Row(row).At(column) else if column == row + 4 then 1.0 else 0.0;
      }
    }
    forall i: nat | i < 4
      ensures Snapshot(rows)[i] == AugmentedRow(m.Row(i), Basis(i))
    {
      assert rows[i, 0] == m.Row(i).At(0) && rows[i, 1] == m.Row(i).At(1);
      assert rows[i, 2] == m.Row(i).At(2) && rows[i, 3] == m.Row(i).At(3);
      assert RowAt(rows, i).left == m.Row(i);
      assert RowAt(rows, i).right == Basis(i);
    }
    StartRepresents(Snapshot(rows), m);
  }

  /** Brings the largest entry of the column to the diagonal and makes it one, or finds that there is none. */
  method PlacePivot(rows: array2<real>, column: nat, ghost m: Mat4) returns (found: bool)
    requires rows.Length0 == 4 && rows.Length1 == 8 && column < 4
    requires Reduced(Snapshot(rows), column) && Represents(Snapshot(rows), m)
    modifies rows
    ensures found ==> Cleared(Snapshot(rows), column, 0) && Represents(Snapshot(rows), m)
    ensures !found ==> !Invertible(m)
  {
    hide Cleared, Represents, Reduced, MinusRow, ScaledRow, Invertible;
    var pivot := FindPivot(rows, column);
    if rows[pivot, column] == 0.0 {
      forall i: nat | column <= i < 4
        ensures Snapshot(rows)[i].left.At(column) == 0.0
      {
        assert Abs(rows[i, column]) <= Abs(rows[pivot, column]);
      }
      NoPivotMeansSingular(Snapshot(rows), column, m);
      return false;
    }
    assert Snapshot(rows)[pivot].left.At(column) != 0.0;
    SwapKeepsReduced(Snapshot(rows), column, pivot);
    SwapKeepsSolutions(Snapshot(rows), pivot, column, m);
    SwapRows(rows, pivot, column);
    var divisor := rows[column, column];
    assert Snapshot(rows)[column].left.At(column) == divisor;
    DivideMakesPivotOne(Snapshot(rows), column);
    ScaleKeepsSolutions(Snapshot(rows), column, 1.0 / divisor, m);
    DivideRow(rows, column, divisor);
    return true;
  }

  /**
   * Inverts an affine matrix. It refuses exactly the singular ones; what it returns is a two-sided
   * inverse even though the fourth row of the eliminated array is never read.
   */
  method InverseAffine(m: Mat4) returns (inverse: Option<Mat4>)
    requires IsAffine(m)
    ensures inverse.Some? <==> Invertible(m)
    ensures inverse.Some? ==> Mul(inverse.value, m) == IDENTITY && Mul(m, inverse.value) == IDENTITY
    ensures inverse.Some? ==> IsAffine(inverse.value)
  {
    hide *;
    var rows := Augment(m);
    ReducedNone(Snapshot(rows));
    for column := 0 to 4
      invariant Reduced(Snapshot(rows), column) && Represents(Snapshot(rows), m)
    {
      var found := PlacePivot(rows, column, m);
      if !found {
        return None;
      }
      EliminateColumn(rows, column, m);
    }
    ReducedMeansInverse(Snapshot(rows), m);
    InverseOfAffineIsAffine(m, RightHalf(Snapshot(rows)));
    var result := Mat4(Vec4(rows[0, 4], rows[0, 5], rows[0, 6], rows[0, 7]),
                       Vec4(rows[1, 4], rows[1, 5], rows[1, 6], rows[1, 7]),
                       Vec4(rows[2, 4], rows[2, 5], rows[2, 6], rows[2, 7]),
                       Vec4(0.0, 0.0, 0.0, 1.0));
    ReadsRightHalf(rows, result);
    LeftInverseMeansInvertible(result, m);
    return Some(result);
  }

  lemma ReducedNone(rows: seq<AugmentedRow>)
    requires |rows| == 4
    ensures Reduced(rows, 0)
  {
  }

  lemma ReadsRightHalf(rows: array2<real>, m: Mat4)
    requires rows.Length0 == 4 && rows.Length1 == 8 && IsAffine(RightHalf(Snapshot(rows)))
    requires m.r0 == Vec4(rows[0, 4], rows[0, 5], rows[0, 6], rows[0, 7])
    requires m.r1 == Vec4(rows[1, 4], rows[1, 5], rows[1, 6], rows[1, 7])
    requires m.r2 == Vec4(rows[2, 4], rows[2, 5], rows[2, 6], rows[2, 7])
    requires m.r3 == Vec4(0.0, 0.0, 0.0, 1.0)
    ensures m == RightHalf(Snapshot(rows))
  {
  }

  lemma LeftInverseMeansInvertible(inverse: Mat4, m: Mat4)
    requires Mul(inverse, m) == IDENTITY
    ensures Invertible(m)
  {
  }
}
