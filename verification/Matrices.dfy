/** Exact 4x4 matrices, as the hierarchy uses them for local and world transforms. */
module Matrices {

  datatype Vec4 = Vec4(x: real, y: real, z: real, w: real) {
    function At(i: nat): real
      requires i < 4
    {
      if i == 0 then x else if i == 1 then y else if i == 2 then z else w
    }
  }

  datatype Mat4 = Mat4(r0: Vec4, r1: Vec4, r2: Vec4, r3: Vec4) {
    function Row(i: nat): Vec4
      requires i < 4
    {
      if i == 0 then r0 else if i == 1 then r1 else if i == 2 then r2 else r3
    }
  }

  const ZERO := Vec4(0.0, 0.0, 0.0, 0.0)

  /** The i-th basis vector. */
  function Basis(i: nat): Vec4
    requires i < 4
  {
    Vec4(if i == 0 then 1.0 else 0.0, if i == 1 then 1.0 else 0.0,
         if i == 2 then 1.0 else 0.0, if i == 3 then 1.0 else 0.0)
  }

  const IDENTITY := Mat4(Vec4(1.0, 0.0, 0.0, 0.0), Vec4(0.0, 1.0, 0.0, 0.0),
                         Vec4(0.0, 0.0, 1.0, 0.0), Vec4(0.0, 0.0, 0.0, 1.0))

  function Dot(a: Vec4, b: Vec4): real { a.x * b.x + a.y * b.y + a.z * b.z + a.w * b.w }

  function Apply(m: Mat4, v: Vec4): Vec4 { Vec4(Dot(m.r0, v), Dot(m.r1, v), Dot(m.r2, v), Dot(m.r3, v)) }

  function Column(m: Mat4, j: nat): Vec4
    requires j < 4
  {
    Vec4(m.r0.At(j), m.r1.At(j), m.r2.At(j), m.r3.At(j))
  }

  function RowTimes(a: Vec4, m: Mat4): Vec4 {
    Vec4(Dot(a, Column(m, 0)), Dot(a, Column(m, 1)), Dot(a, Column(m, 2)), Dot(a, Column(m, 3)))
  }

  function Mul(a: Mat4, b: Mat4): Mat4 {
    Mat4(RowTimes(a.r0, b), RowTimes(a.r1, b), RowTimes(a.r2, b), RowTimes(a.r3, b))
  }

  predicate IsAffine(m: Mat4) { m.r3 == Vec4(0.0, 0.0, 0.0, 1.0) }

  // -------------------------------------------------------------- algebra

  function Times(f: real, x: real): real { f * x }

  function Scaled(a: Vec4, f: real): Vec4 { Vec4(Times(f, a.x), Times(f, a.y), Times(f, a.z), Times(f, a.w)) }

  function Plus(a: Vec4, b: Vec4): Vec4 { Vec4(a.x + b.x, a.y + b.y, a.z + b.z, a.w + b.w) }

  function Minus(a: Vec4, b: Vec4): Vec4 { Vec4(a.x - b.x, a.y - b.y, a.z - b.z, a.w - b.w) }

  lemma DotScaled(a: Vec4, f: real, v: Vec4)
    ensures Dot(Scaled(a, f), v) == f * Dot(a, v)
  {
    assert f * a.x * v.x == f * (a.x * v.x);
    assert f * a.y * v.y == f * (a.y * v.y);
    assert f * a.z * v.z == f * (a.z * v.z);
    assert f * a.w * v.w == f * (a.w * v.w);
  }

  lemma DotPlus(a: Vec4, b: Vec4, v: Vec4)
    ensures Dot(Plus(a, b), v) == Dot(a, v) + Dot(b, v)
  {
  }

  lemma DotMinus(a: Vec4, b: Vec4, v: Vec4)
    ensures Dot(Minus(a, b), v) == Dot(a, v) - Dot(b, v)
  {
  }

  /** A row times a matrix is the combination of the matrix's rows with the row's entries as weights. */
  lemma RowTimesCombines(a: Vec4, m: Mat4)
    ensures RowTimes(a, m) == Plus(Plus(Scaled(m.r0, a.x), Scaled(m.r1, a.y)), Plus(Scaled(m.r2, a.z), Scaled(m.r3, a.w)))
  {
    hide Dot, Times, Column;
    ColumnTimes(a, m, 0);
    ColumnTimes(a, m, 1);
    ColumnTimes(a, m, 2);
    ColumnTimes(a, m, 3);
  }

  lemma ColumnTimes(a: Vec4, m: Mat4, j: nat)
    requires j < 4
    ensures Dot(a, Column(m, j)) ==
            Times(a.x, m.r0.At(j)) + Times(a.y, m.r1.At(j)) + (Times(a.z, m.r2.At(j)) + Times(a.w, m.r3.At(j)))
  {
  }

  lemma DotApply(a: Vec4, m: Mat4, v: Vec4)
    ensures Dot(RowTimes(a, m), v) == Dot(a, Apply(m, v))
  {
    hide RowTimes;
    var front, back := Plus(Scaled(m.r0, a.x), Scaled(m.r1, a.y)), Plus(Scaled(m.r2, a.z), Scaled(m.r3, a.w));
    RowTimesCombines(a, m);
    assert Dot(a, Apply(m, v)) == a.x * Dot(m.r0, v) + a.y * Dot(m.r1, v) + a.z * Dot(m.r2, v) + a.w * Dot(m.r3, v);
    DotPlus(front, back, v);
    DotPlus(Scaled(m.r0, a.x), Scaled(m.r1, a.y), v);
    DotPlus(Scaled(m.r2, a.z), Scaled(m.r3, a.w), v);
    DotScaled(m.r0, a.x, v);
    DotScaled(m.r1, a.y, v);
    DotScaled(m.r2, a.z, v);
    DotScaled(m.r3, a.w, v);
  }

  /** Applying a product is applying its factors, right one first. */
  lemma ApplyMul(a: Mat4, b: Mat4, v: Vec4)
    ensures Apply(Mul(a, b), v) == Apply(a, Apply(b, v))
  {
    DotApply(a.r0, b, v);
    DotApply(a.r1, b, v);
    DotApply(a.r2, b, v);
    DotApply(a.r3, b, v);
  }

  lemma ApplyBasis(m: Mat4, j: nat)
    requires j < 4
    ensures Apply(m, Basis(j)) == Column(m, j)
  {
  }

  /** A matrix is what it does to the basis. */
  lemma SameOnBasis(a: Mat4, b: Mat4)
    requires forall j: nat :: j < 4 ==> Apply(a, Basis(j)) == Apply(b, Basis(j))
    ensures a == b
  {
    forall j: nat | j < 4
      ensures Column(a, j) == Column(b, j)
    {
      assert Apply(a, Basis(j)) == Apply(b, Basis(j));
      ApplyBasis(a, j);
      ApplyBasis(b, j);
    }
    assert Column(a, 0) == Column(b, 0) && Column(a, 1) == Column(b, 1);
    assert Column(a, 2) == Column(b, 2) && Column(a, 3) == Column(b, 3);
  }

  lemma MulAssociative(a: Mat4, b: Mat4, c: Mat4)
    ensures Mul(Mul(a, b), c) == Mul(a, Mul(b, c))
  {
    forall j: nat | j < 4
      ensures Apply(Mul(Mul(a, b), c), Basis(j)) == Apply(Mul(a, Mul(b, c)), Basis(j))
    {
      var v := Basis(j);
      ApplyMul(Mul(a, b), c, v);
      ApplyMul(a, b, Apply(c, v));
      ApplyMul(a, Mul(b, c), v);
      ApplyMul(b, c, v);
    }
    SameOnBasis(Mul(Mul(a, b), c), Mul(a, Mul(b, c)));
  }

  lemma ApplyIdentity(v: Vec4)
    ensures Apply(IDENTITY, v) == v
  {
  }

  lemma MulIdentity(m: Mat4)
    ensures Mul(IDENTITY, m) == m && Mul(m, IDENTITY) == m
  {
  }

  lemma MulAffine(a: Mat4, b: Mat4)
    requires IsAffine(a) && IsAffine(b)
    ensures IsAffine(Mul(a, b))
  {
  }

  ghost predicate Invertible(m: Mat4) {
    exists n :: Mul(n, m) == IDENTITY
  }

  /** A matrix that sends a nonzero vector to zero has no inverse. */
  lemma KernelMeansSingular(m: Mat4, v: Vec4)
    requires v != ZERO && Apply(m, v) == ZERO
    ensures !Invertible(m)
  {
    forall n
      ensures Mul(n, m) != IDENTITY
    {
      ApplyMul(n, m, v);
      ApplyIdentity(v);
      assert Apply(n, ZERO) == ZERO;
    }
  }
}
