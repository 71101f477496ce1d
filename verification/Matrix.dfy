/** Matrices, SpNetCommon/src/spNetMath.h, over exact reals: the rotation matrices of a quaternion, and
    the product and determinant of 3x3 matrices. */
module Matrices {
  import opened Quaternions

  // ---- 4x4 matrices ------------------------------------------------------------------------------

  datatype Mat4 = Mat4(v0: Vec4, v1: Vec4, v2: Vec4, v3: Vec4)

  function Sum4(v: Vec4, w: Vec4): Vec4 {
    Vec4(v.x + w.x, v.y + w.y, v.z + w.z, v.w + w.w)
  }

  function Scaled4(v: Vec4, t: real): Vec4 {
    Vec4(v.x * t, v.y * t, v.z * t, v.w * t)
  }

  /** `operator *` of a matrix and a vector: the vector's components weigh the matrix's four vectors. */
  function Times(m: Mat4, b: Vec4): Vec4 {
    Sum4(Sum4(Scaled4(m.v0, b.x), Scaled4(m.v1, b.y)), Sum4(Scaled4(m.v2, b.z), Scaled4(m.v3, b.w)))
  }

  function GetMatrix(q: Quat): Mat4 {
    Mat4(
      Vec4(1.0 - 2.0 * q.y * q.y - 2.0 * q.z * q.z,
           2.0 * q.x * q.y + 2.0 * q.z * q.w,
           2.0 * q.x * q.z - 2.0 * q.y * q.w, 0.0),
      Vec4(2.0 * q.x * q.y - 2.0 * q.z * q.w,
           1.0 - 2.0 * q.x * q.x - 2.0 * q.z * q.z,
           2.0 * q.z * q.y + 2.0 * q.x * q.w, 0.0),
      Vec4(2.0 * q.x * q.z + 2.0 * q.y * q.w,
           2.0 * q.z * q.y - 2.0 * q.x * q.w,
           1.0 - 2.0 * q.x * q.x - 2.0 * q.y * q.y, 0.0),
      Vec4(0.0, 0.0, 0.0, 0.0))
  }

  function Extended(v: Vec3, t: real): Vec4 {
    Vec4(v.x, v.y, v.z, t)
  }

  /** Through the matrix, for every quaternion, a vector is rotated and the fourth component lost. */
  lemma GetMatrixRotates(q: Quat, v: Vec3, t: real)
    ensures Times(GetMatrix(q), Extended(v, t)) == Extended(Rotate(q, v), 0.0)
  {
    GetMatrixRotatesInX(q, v, t);
    GetMatrixRotatesInY(q, v, t);
    GetMatrixRotatesInZ(q, v, t);
  }

  lemma GetMatrixRotatesInX(q: Quat, v: Vec3, t: real)
    ensures Times(GetMatrix(q), Extended(v, t)).x == Rotate(q, v).x
  {
  }

  lemma GetMatrixRotatesInY(q: Quat, v: Vec3, t: real)
    ensures Times(GetMatrix(q), Extended(v, t)).y == Rotate(q, v).y
  {
  }

  lemma GetMatrixRotatesInZ(q: Quat, v: Vec3, t: real)
    ensures Times(GetMatrix(q), Extended(v, t)).z == Rotate(q, v).z
  {
  }

  /** The rotation matrix of a normalized quaternion. */
  function RotationMatrix(n: Quat): Mat4 {
    Mat4(
      Vec4(1.0 - 2.0 * n.y * n.y - 2.0 * n.z * n.z,
           2.0 * n.x * n.y - 2.0 * n.z * n.w,
           2.0 * n.x * n.z + 2.0 * n.y * n.w, 0.0),
      Vec4(2.0 * n.x * n.y + 2.0 * n.z * n.w,
           1.0 - 2.0 * n.x * n.x - 2.0 * n.z * n.z,
           2.0 * n.y * n.z - 2.0 * n.x * n.w, 0.0),
      Vec4(2.0 * n.x * n.z - 2.0 * n.y * n.w,
           2.0 * n.y * n.z + 2.0 * n.x * n.w,
           1.0 - 2.0 * n.x * n.x - 2.0 * n.y * n.y, 0.0),
      Vec4(0.0, 0.0, 0.0, 1.0))
  }

  /** `ToRotationMatrix` without a center. */
  function ToRotationMatrix(q: Quat, normal: real): Mat4
    requires normal != 0.0
  {
    RotationMatrix(GetNormalized(q, normal))
  }

  /** The 3x3 block of a matrix. */
  function Block(m: Mat4): Mat3 {
    Mat3(m.v0.x, m.v0.y, m.v0.z, m.v1.x, m.v1.y, m.v1.z, m.v2.x, m.v2.y, m.v2.z)
  }

  function Transposed(m: Mat3): Mat3 {
    Mat3(m.a11, m.a21, m.a31, m.a12, m.a22, m.a32, m.a13, m.a23, m.a33)
  }

  lemma RotationMatrixIsTransposed(n: Quat)
    ensures Block(RotationMatrix(n)) == Transposed(Block(GetMatrix(n)))
  {
    RotationMatrixRow0(n);
    RotationMatrixRow1(n);
    RotationMatrixRow2(n);
  }

  lemma RotationMatrixRow0(n: Quat)
    ensures var m, m' := RotationMatrix(n), GetMatrix(n);
            m.v0.x == m'.v0.x && m.v0.y == m'.v1.x && m.v0.z == m'.v2.x
  {
  }

  lemma RotationMatrixRow1(n: Quat)
    ensures var m, m' := RotationMatrix(n), GetMatrix(n);
            m.v1.x == m'.v0.y && m.v1.y == m'.v1.y && m.v1.z == m'.v2.y
  {
  }

  lemma RotationMatrixRow2(n: Quat)
    ensures var m, m' := RotationMatrix(n), GetMatrix(n);
            m.v2.x == m'.v0.z && m.v2.y == m'.v1.z && m.v2.z == m'.v2.z
  {
  }

  lemma RotationMatrixTurnsBack(p: Quat, v: Vec3, t: real)
    ensures Times(RotationMatrix(p), Extended(v, t)) == Extended(Rotate(GetConjugate(p), v), t)
  {
    RotationMatrixIsTransposed(p);
    ConjugateTransposes(p);
    GetMatrixRotates(GetConjugate(p), v, 0.0);
    OnlyTheLastVectorDiffers(RotationMatrix(p), GetMatrix(GetConjugate(p)), v, t);
  }

  lemma OnlyTheLastVectorDiffers(m: Mat4, m': Mat4, v: Vec3, t: real)
    requires Block(m) == Block(m') && m.v0.w == m.v1.w == m.v2.w == 0.0
    requires m.v3 == Vec4(0.0, 0.0, 0.0, 1.0) && m'.v3 == Vec4(0.0, 0.0, 0.0, 0.0)
    ensures var b, b' := Times(m, Extended(v, t)), Times(m', Extended(v, 0.0));
            b.x == b'.x && b.y == b'.y && b.z == b'.z && b.w == t
  {
  }

  /** For every nonzero quaternion, unit or not, the rotation matrix has the transposed block of the
      normalized quaternion's other matrix, undoes its rotation and leaves the fourth component alone. */
  lemma ToRotationMatrixUndoesTheRotation(q: Quat, n: real, v: Vec3, t: real)
    requires IsNormal(n, q) && n != 0.0
    ensures Block(ToRotationMatrix(q, n)) == Transposed(Block(GetMatrix(GetNormalized(q, n))))
    ensures Times(ToRotationMatrix(q, n), Extended(Rotate(GetNormalized(q, n), v), t)) == Extended(v, t)
  {
    var p := GetNormalized(q, n);
    NormalizedIsUnit(q, n);
    RotationMatrixIsTransposed(p);
    RotationMatrixTurnsBack(p, Rotate(p, v), t);
    ConjugateRotatesBack(p, v);
  }

  lemma ConjugateTransposes(p: Quat)
    ensures Block(GetMatrix(GetConjugate(p))) == Transposed(Block(GetMatrix(p)))
  {
    BlockInEntries(GetConjugate(p));
    BlockInEntries(p);
    EntriesTurned1(p.x, p.y, p.z, p.w);
    EntriesTurned2(p.x, p.y, p.z, p.w);
    EntriesTurned3(p.x, p.y, p.z, p.w);
    SameRows(Entries(-p.x, -p.y, -p.z, p.w), Transposed(Entries(p.x, p.y, p.z, p.w)));
  }

  lemma SignsInSquares(a: real, b: real)
    ensures 1.0 - 2.0 * (-a) * (-a) - 2.0 * (-b) * (-b) == 1.0 - 2.0 * a * a - 2.0 * b * b
  {
  }

  lemma SignsInProducts(a: real, b: real, c: real, d: real)
    ensures 2.0 * (-a) * (-b) + 2.0 * (-c) * d == 2.0 * a * b - 2.0 * c * d
    ensures 2.0 * (-a) * (-b) - 2.0 * (-c) * d == 2.0 * a * b + 2.0 * c * d
  {
  }

  lemma EntriesTurned1(x: real, y: real, z: real, w: real)
    ensures Row1(Entries(-x, -y, -z, w)) == Row1(Transposed(Entries(x, y, z, w)))
  {
    SignsInSquares(y, z);
    SignsInProducts(x, y, z, w);
    SignsInProducts(x, z, y, w);
  }

  lemma EntriesTurned2(x: real, y: real, z: real, w: real)
    ensures Row2(Entries(-x, -y, -z, w)) == Row2(Transposed(Entries(x, y, z, w)))
  {
    SignsInProducts(x, y, z, w);
    SignsInSquares(x, z);
    SignsInProducts(z, y, x, w);
  }

  lemma EntriesTurned3(x: real, y: real, z: real, w: real)
    ensures Row3(Entries(-x, -y, -z, w)) == Row3(Transposed(Entries(x, y, z, w)))
  {
    SignsInProducts(x, z, y, w);
    SignsInProducts(z, y, x, w);
    SignsInSquares(x, y);
  }

  // ---- 3x3 matrices ------------------------------------------------------------------------------

  datatype Mat3 = Mat3(
    a11: real, a12: real, a13: real, a21: real, a22: real, a23: real, a31: real, a32: real, a33: real)

  function Determinant(m: Mat3): real {
    m.a11 * ((m.a22 * m.a33) - (m.a23 * m.a32))
    - m.a12 * ((m.a21 * m.a33) - (m.a23 * m.a31))
    + m.a13 * ((m.a21 * m.a32) - (m.a22 * m.a31))
  }

  function Product(a: Mat3, b: Mat3): Mat3 {
    Mat3(
      a.a11 * b.a11 + a.a12 * b.a21 + a.a13 * b.a31,
      a.a11 * b.a12 + a.a12 * b.a22 + a.a13 * b.a32,
      a.a11 * b.a13 + a.a12 * b.a23 + a.a13 * b.a33,
      a.a21 * b.a11 + a.a22 * b.a21 + a.a23 * b.a31,
      a.a21 * b.a12 + a.a22 * b.a22 + a.a23 * b.a32,
      a.a21 * b.a13 + a.a22 * b.a23 + a.a23 * b.a33,
      a.a31 * b.a11 + a.a32 * b.a21 + a.a33 * b.a31,
      a.a31 * b.a12 + a.a32 * b.a22 + a.a33 * b.a32,
      a.a31 * b.a13 + a.a32 * b.a23 + a.a33 * b.a33)
  }

  /** The determinant over plain numbers. */
  function Determinant9(
      a11: real, a12: real, a13: real, a21: real, a22: real, a23: real, a31: real, a32: real, a33: real): real
  {
    a11 * ((a22 * a33) - (a23 * a32)) - a12 * ((a21 * a33) - (a23 * a31)) + a13 * ((a21 * a32) - (a22 * a31))
  }

  function DeterminantOf(
      a11: real, a12: real, a13: real, a21: real, a22: real, a23: real, a31: real, a32: real, a33: real): (d: real)
    ensures d == Determinant9(a11, a12, a13, a21, a22, a23, a31, a32, a33)
  {
    Determinant(Mat3(a11, a12, a13, a21, a22, a23, a31, a32, a33))
  }

  function BothDeterminants(a: Mat3, b: Mat3): real {
    Mul(a.a11 * ((a.a22 * a.a33) - (a.a23 * a.a32)) - a.a12 * ((a.a21 * a.a33) - (a.a23 * a.a31))
        + a.a13 * ((a.a21 * a.a32) - (a.a22 * a.a31)),
        b.a11 * ((b.a22 * b.a33) - (b.a23 * b.a32)) - b.a12 * ((b.a21 * b.a33) - (b.a23 * b.a31))
        + b.a13 * ((b.a21 * b.a32) - (b.a22 * b.a31)))
  }

  lemma FactorsInParts(a: Mat3, b: Mat3)
    ensures BothDeterminants(a, b) == Determinant(a) * Determinant(b)
  {
    assert Mul(Determinant(a), Determinant(b)) == Determinant(a) * Determinant(b);
  }

  lemma ProductMultipliedOut(a: Mat3, b: Mat3)
    ensures Determinant9(
              a.a11 * b.a11 + a.a12 * b.a21 + a.a13 * b.a31,
              a.a11 * b.a12 + a.a12 * b.a22 + a.a13 * b.a32,
              a.a11 * b.a13 + a.a12 * b.a23 + a.a13 * b.a33,
              a.a21 * b.a11 + a.a22 * b.a21 + a.a23 * b.a31,
              a.a21 * b.a12 + a.a22 * b.a22 + a.a23 * b.a32,
              a.a21 * b.a13 + a.a22 * b.a23 + a.a23 * b.a33,
              a.a31 * b.a11 + a.a32 * b.a21 + a.a33 * b.a31,
              a.a31 * b.a12 + a.a32 * b.a22 + a.a33 * b.a32,
              a.a31 * b.a13 + a.a32 * b.a23 + a.a33 * b.a33)
            == BothDeterminants(a, b)
  {
  }

  lemma ProductInParts(a: Mat3, b: Mat3)
    ensures Determinant(Product(a, b)) == DeterminantOf(
              a.a11 * b.a11 + a.a12 * b.a21 + a.a13 * b.a31,
              a.a11 * b.a12 + a.a12 * b.a22 + a.a13 * b.a32,
              a.a11 * b.a13 + a.a12 * b.a23 + a.a13 * b.a33,
              a.a21 * b.a11 + a.a22 * b.a21 + a.a23 * b.a31,
              a.a21 * b.a12 + a.a22 * b.a22 + a.a23 * b.a32,
              a.a21 * b.a13 + a.a22 * b.a23 + a.a23 * b.a33,
              a.a31 * b.a11 + a.a32 * b.a21 + a.a33 * b.a31,
              a.a31 * b.a12 + a.a32 * b.a22 + a.a33 * b.a32,
              a.a31 * b.a13 + a.a32 * b.a23 + a.a33 * b.a33)
  {
  }

  /** The determinant of a product is the product of the determinants. */
  lemma DeterminantMultiplies(a: Mat3, b: Mat3)
    ensures Determinant(Product(a, b)) == Determinant(a) * Determinant(b)
  {
    ProductInParts(a, b);
    ProductMultipliedOut(a, b);
    FactorsInParts(a, b);
  }

  // ---- What makes it the determinant ---------------------------------------------------------------

  function FromRows(u: Vec3, v: Vec3, w: Vec3): Mat3 {
    Mat3(u.x, u.y, u.z, v.x, v.y, v.z, w.x, w.y, w.z)
  }

  function Identity(): Mat3 {
    Mat3(1.0, 0.0, 0.0, 0.0, 1.0, 0.0, 0.0, 0.0, 1.0)
  }

  /** The determinant is linear in the first row. */
  lemma DeterminantIsLinear(s: real, a: Vec3, t: real, b: Vec3, v: Vec3, w: Vec3)
    ensures Determinant(FromRows(Vec3(s * a.x + t * b.x, s * a.y + t * b.y, s * a.z + t * b.z), v, w))
            == s * Determinant(FromRows(a, v, w)) + t * Determinant(FromRows(b, v, w))
  {
    var c1, c2, c3 := (v.y * w.z) - (v.z * w.y), (v.x * w.z) - (v.z * w.x), (v.x * w.y) - (v.y * w.x);
    LinearInThree(s, a, t, b, c1, c2, c3);
  }

  lemma LinearInThree(s: real, a: Vec3, t: real, b: Vec3, c1: real, c2: real, c3: real)
    ensures (s * a.x + t * b.x) * c1 - (s * a.y + t * b.y) * c2 + (s * a.z + t * b.z) * c3
            == s * (a.x * c1 - a.y * c2 + a.z * c3) + t * (b.x * c1 - b.y * c2 + b.z * c3)
  {
  }

  /** Swapping rows changes its sign. */
  lemma DeterminantAlternates(u: Vec3, v: Vec3, w: Vec3)
    ensures Determinant(FromRows(v, u, w)) == -Determinant(FromRows(u, v, w))
    ensures Determinant(FromRows(u, w, v)) == -Determinant(FromRows(u, v, w))
  {
  }

  lemma DeterminantOfIdentity()
    ensures Determinant(Identity()) == 1.0
  {
  }

  /** The value of a 3x3 array. */
  function Value(a: array2<real>): Mat3
    requires a.Length0 == 3 && a.Length1 == 3
    reads a
  {
    Mat3(a[0, 0], a[0, 1], a[0, 2], a[1, 0], a[1, 1], a[1, 2], a[2, 0], a[2, 1], a[2, 2])
  }

  /** The first `k` summands of a component of a product. */
  function Cell(a: array2<real>, b: array2<real>, i: nat, j: nat, k: nat): real
    requires a.Length0 == 3 && a.Length1 == 3 && b.Length0 == 3 && b.Length1 == 3
    requires i < 3 && j < 3 && k <= 3
    reads a, b
  {
    if k == 0 then 0.0 else Cell(a, b, i, j, k - 1) + a[i, k - 1] * b[k - 1, j]
  }

  /** The components before row `i`, and those before column `j` in it, are done; the others are zero. */
  ghost predicate DoneUpTo(a: array2<real>, b: array2<real>, c: array2<real>, i: nat, j: nat)
    requires a.Length0 == 3 && a.Length1 == 3 && b.Length0 == 3 && b.Length1 == 3
    requires c.Length0 == 3 && c.Length1 == 3
    reads a, b, c
  {
    forall r, s | 0 <= r < 3 && 0 <= s < 3 ::
      c[r, s] == if r < i || (r == i && s < j) then Cell(a, b, r, s, 3) else 0.0
  }

  /** The loops of `Multiply` over rows and columns. */
  method MultiplyMatrices(a: array2<real>, b: array2<real>) returns (c: array2<real>)
    requires a.Length0 == 3 && a.Length1 == 3 && b.Length0 == 3 && b.Length1 == 3
    ensures fresh(c) && c.Length0 == 3 && c.Length1 == 3
    ensures Value(c) == Product(Value(a), Value(b))
  {
    c := new real[3, 3]((i, j) => 0.0);
    for i := 0 to 3
      invariant DoneUpTo(a, b, c, i, 0)
    {
      for j := 0 to 3
        invariant DoneUpTo(a, b, c, i, j)
      {
        SumUpCell(a, b, c, i, j);
      }
    }
    CellsMakeTheProduct(a, b, c);
  }

  /** The innermost loop. */
  method SumUpCell(a: array2<real>, b: array2<real>, c: array2<real>, i: nat, j: nat)
    requires a.Length0 == 3 && a.Length1 == 3 && b.Length0 == 3 && b.Length1 == 3
    requires c.Length0 == 3 && c.Length1 == 3 && c != a && c != b && i < 3 && j < 3 && c[i, j] == 0.0
    modifies c
    ensures c[i, j] == Cell(a, b, i, j, 3)
    ensures forall r, s | 0 <= r < 3 && 0 <= s < 3 && (r != i || s != j) :: c[r, s] == old(c[r, s])
  {
    for k := 0 to 3
      invariant c[i, j] == Cell(a, b, i, j, k)
      invariant forall r, s | 0 <= r < 3 && 0 <= s < 3 && (r != i || s != j) :: c[r, s] == old(c[r, s])
    {
      c[i, j] := c[i, j] + a[i, k] * b[k, j];
    }
  }

  lemma CellsMakeTheProduct(a: array2<real>, b: array2<real>, c: array2<real>)
    requires a.Length0 == 3 && a.Length1 == 3 && b.Length0 == 3 && b.Length1 == 3
    requires c.Length0 == 3 && c.Length1 == 3 && DoneUpTo(a, b, c, 3, 0)
    ensures Value(c) == Product(Value(a), Value(b))
  {
    RowOfCells(a, b, 0);
    RowOfCells(a, b, 1);
    RowOfCells(a, b, 2);
    ProductByRow1(Value(a), Value(b));
    ProductByRow2(Value(a), Value(b));
    ProductByRow3(Value(a), Value(b));
    SameRows(Value(c), Product(Value(a), Value(b)));
  }

  lemma RowOfCells(a: array2<real>, b: array2<real>, i: nat)
    requires a.Length0 == 3 && a.Length1 == 3 && b.Length0 == 3 && b.Length1 == 3 && i < 3
    ensures RowTimes(Vec3(a[i, 0], a[i, 1], a[i, 2]), Value(b))
            == Vec3(Cell(a, b, i, 0, 3), Cell(a, b, i, 1, 3), Cell(a, b, i, 2, 3))
  {
    RowOfCells1(a, b, i);
    RowOfCells2(a, b, i);
    RowOfCells3(a, b, i);
  }

  lemma RowOfCells1(a: array2<real>, b: array2<real>, i: nat)
    requires a.Length0 == 3 && a.Length1 == 3 && b.Length0 == 3 && b.Length1 == 3 && i < 3
    ensures RowTimes(Vec3(a[i, 0], a[i, 1], a[i, 2]), Value(b)).x == Cell(a, b, i, 0, 3)
  {
    CellInFull(a, b, i, 0);
  }

  lemma RowOfCells2(a: array2<real>, b: array2<real>, i: nat)
    requires a.Length0 == 3 && a.Length1 == 3 && b.Length0 == 3 && b.Length1 == 3 && i < 3
    ensures RowTimes(Vec3(a[i, 0], a[i, 1], a[i, 2]), Value(b)).y == Cell(a, b, i, 1, 3)
  {
    CellInFull(a, b, i, 1);
  }

  lemma RowOfCells3(a: array2<real>, b: array2<real>, i: nat)
    requires a.Length0 == 3 && a.Length1 == 3 && b.Length0 == 3 && b.Length1 == 3 && i < 3
    ensures RowTimes(Vec3(a[i, 0], a[i, 1], a[i, 2]), Value(b)).z == Cell(a, b, i, 2, 3)
  {
    CellInFull(a, b, i, 2);
  }

  lemma CellInFull(a: array2<real>, b: array2<real>, i: nat, j: nat)
    requires a.Length0 == 3 && a.Length1 == 3 && b.Length0 == 3 && b.Length1 == 3 && i < 3 && j < 3
    ensures Cell(a, b, i, j, 3) == a[i, 0] * b[0, j] + a[i, 1] * b[1, j] + a[i, 2] * b[2, j]
  {
    assert Cell(a, b, i, j, 2) == Cell(a, b, i, j, 1) + a[i, 1] * b[1, j];
    assert Cell(a, b, i, j, 1) == Cell(a, b, i, j, 0) + a[i, 0] * b[0, j];
  }

  /** `Determinant`, accumulated summand by summand. */
  method ComputeDeterminant(m: array2<real>) returns (determinant: real)
    requires m.Length0 == 3 && m.Length1 == 3
    ensures determinant == Determinant(Value(m))
  {
    determinant := 0.0;
    determinant := determinant + m[0, 0] * ((m[1, 1] * m[2, 2]) - (m[1, 2] * m[2, 1]));
    determinant := determinant - m[0, 1] * ((m[1, 0] * m[2, 2]) - (m[1, 2] * m[2, 0]));
    determinant := determinant + m[0, 2] * ((m[1, 0] * m[2, 1]) - (m[1, 1] * m[2, 0]));
  }

  // ---- Rotations as matrices ---------------------------------------------------------------------

  function Row1(m: Mat3): Vec3 {
    Vec3(m.a11, m.a12, m.a13)
  }

  function Row2(m: Mat3): Vec3 {
    Vec3(m.a21, m.a22, m.a23)
  }

  function Row3(m: Mat3): Vec3 {
    Vec3(m.a31, m.a32, m.a33)
  }

  /** What a matrix does to a row vector: the rows of a product, and the rotation by a quaternion's matrix. */
  function RowTimes(v: Vec3, m: Mat3): Vec3 {
    Vec3(
      v.x * m.a11 + v.y * m.a21 + v.z * m.a31,
      v.x * m.a12 + v.y * m.a22 + v.z * m.a32,
      v.x * m.a13 + v.y * m.a23 + v.z * m.a33)
  }

  lemma ProductByRow1(a: Mat3, b: Mat3)
    ensures Row1(Product(a, b)) == RowTimes(Row1(a), b)
  {
  }

  lemma ProductByRow2(a: Mat3, b: Mat3)
    ensures Row2(Product(a, b)) == RowTimes(Row2(a), b)
  {
  }

  lemma ProductByRow3(a: Mat3, b: Mat3)
    ensures Row3(Product(a, b)) == RowTimes(Row3(a), b)
  {
  }

  lemma RowTimesRotates(v: Vec3, q: Quat)
    ensures RowTimes(v, Block(GetMatrix(q))) == Rotate(q, v)
  {
    GetMatrixRotates(q, v, 0.0);
    RowTimesBlock(v, GetMatrix(q));
  }

  lemma RowTimesBlock(v: Vec3, m: Mat4)
    ensures var b := Times(m, Extended(v, 0.0));
            RowTimes(v, Block(m)) == Vec3(b.x, b.y, b.z)
  {
  }

  const Z := Vec3(0.0, 0.0, 1.0)

  lemma RowsAreRotatedAxes(q: Quat)
    ensures var m := Block(GetMatrix(q));
            Row1(m) == Rotate(q, X) && Row2(m) == Rotate(q, Y) && Row3(m) == Rotate(q, Z)
  {
    var m := Block(GetMatrix(q));
    RowTimesRotates(X, q);
    RowTimesRotates(Y, q);
    RowTimesRotates(Z, q);
    assert RowTimes(X, m) == Row1(m) && RowTimes(Y, m) == Row2(m) && RowTimes(Z, m) == Row3(m);
  }

  /** Multiplying unit quaternions multiplies their matrices, in the opposite order. */
  lemma QuaternionProductIsMatrixProduct(p: Quat, q: Quat)
    requires IsUnit(p) && IsUnit(q)
    ensures Block(GetMatrix(Multiply(p, q))) == Product(Block(GetMatrix(q)), Block(GetMatrix(p)))
  {
    var a, b := Block(GetMatrix(q)), Block(GetMatrix(p));
    ProductByRow1(a, b);
    ProductByRow2(a, b);
    ProductByRow3(a, b);
    RowsAreRotatedAxes(q);
    RowsAreRotatedAxes(Multiply(p, q));
    RowTimesRotates(Rotate(q, X), p);
    RowTimesRotates(Rotate(q, Y), p);
    RowTimesRotates(Rotate(q, Z), p);
    RotationsCompose(p, q, X);
    RotationsCompose(p, q, Y);
    RotationsCompose(p, q, Z);
    SameRows(Block(GetMatrix(Multiply(p, q))), Product(a, b));
  }

  lemma SameRows(a: Mat3, b: Mat3)
    requires Row1(a) == Row1(b) && Row2(a) == Row2(b) && Row3(a) == Row3(b)
    ensures a == b
  {
  }

  // ---- The determinant of a rotation ---------------------------------------------------------------

  /** One less four times the product of the axis part and the excess. */
  function UnitDefect(x: real, y: real, z: real, w: real): real {
    1.0 - 4.0 * ((x * x + y * y + z * z) * (1.0 - (x * x + y * y + z * z + w * w)))
  }

  /** The determinant of such a matrix, multiplied out. */
  lemma EntriesMultipliedOut(x: real, y: real, z: real, w: real)
    ensures Determinant9(1.0 - 2.0 * y * y - 2.0 * z * z, 2.0 * x * y + 2.0 * z * w, 2.0 * x * z - 2.0 * y * w,
                         2.0 * x * y - 2.0 * z * w, 1.0 - 2.0 * x * x - 2.0 * z * z, 2.0 * z * y + 2.0 * x * w,
                         2.0 * x * z + 2.0 * y * w, 2.0 * z * y - 2.0 * x * w, 1.0 - 2.0 * x * x - 2.0 * y * y)
            == UnitDefect(x, y, z, w)
  {
  }

  function Entries(x: real, y: real, z: real, w: real): Mat3 {
    Mat3(1.0 - 2.0 * y * y - 2.0 * z * z, 2.0 * x * y + 2.0 * z * w, 2.0 * x * z - 2.0 * y * w,
         2.0 * x * y - 2.0 * z * w, 1.0 - 2.0 * x * x - 2.0 * z * z, 2.0 * z * y + 2.0 * x * w,
         2.0 * x * z + 2.0 * y * w, 2.0 * z * y - 2.0 * x * w, 1.0 - 2.0 * x * x - 2.0 * y * y)
  }

  lemma BlockInEntries(q: Quat)
    ensures Block(GetMatrix(q)) == Entries(q.x, q.y, q.z, q.w)
  {
    BlockInEntries1(q);
    BlockInEntries2(q);
    BlockInEntries3(q);
    SameRows(Block(GetMatrix(q)), Entries(q.x, q.y, q.z, q.w));
  }

  lemma BlockInEntries1(q: Quat)
    ensures Row1(Block(GetMatrix(q))) == Row1(Entries(q.x, q.y, q.z, q.w))
  {
  }

  lemma BlockInEntries2(q: Quat)
    ensures Row2(Block(GetMatrix(q))) == Row2(Entries(q.x, q.y, q.z, q.w))
  {
  }

  lemma BlockInEntries3(q: Quat)
    ensures Row3(Block(GetMatrix(q))) == Row3(Entries(q.x, q.y, q.z, q.w))
  {
  }

  lemma DeterminantInNumbers(m: Mat3)
    ensures Determinant(m) == Determinant9(m.a11, m.a12, m.a13, m.a21, m.a22, m.a23, m.a31, m.a32, m.a33)
  {
  }

  lemma DeterminantOfEntries(x: real, y: real, z: real, w: real)
    ensures Determinant(Entries(x, y, z, w)) == UnitDefect(x, y, z, w)
  {
    EntriesMultipliedOut(x, y, z, w);
    DeterminantInNumbers(Entries(x, y, z, w));
  }

  lemma DeterminantOfGetMatrix(q: Quat)
    ensures Determinant(Block(GetMatrix(q))) == UnitDefect(q.x, q.y, q.z, q.w)
  {
    BlockInEntries(q);
    DeterminantOfEntries(q.x, q.y, q.z, q.w);
  }

  /** The matrix of a quaternion keeps volumes and orientation exactly when the quaternion is a unit or has
      no axis, which is when it keeps dot products. */
  lemma DeterminantIsOneExactlyWhen(q: Quat)
    ensures Determinant(Block(GetMatrix(q))) == 1.0 <==> IsUnit(q) || HasNoAxis(q)
  {
    DeterminantOfGetMatrix(q);
    DefectIsZero(q.x, q.y, q.z, q.w);
  }

  lemma DefectIsZero(x: real, y: real, z: real, w: real)
    ensures UnitDefect(x, y, z, w) == 1.0
            <==> x * x + y * y + z * z + w * w == 1.0 || (x == 0.0 && y == 0.0 && z == 0.0)
  {
    ZeroProduct(x * x + y * y + z * z, 1.0 - (x * x + y * y + z * z + w * w));
    AxisIsZero(x, y, z);
  }

  lemma ZeroProduct(s: real, t: real)
    ensures 1.0 - 4.0 * (s * t) == 1.0 <==> s == 0.0 || t == 0.0
  {
    if s != 0.0 {
      assert s * t / s == t;
    }
  }

  lemma AxisIsZero(x: real, y: real, z: real)
    ensures x * x + y * y + z * z == 0.0 <==> x == 0.0 && y == 0.0 && z == 0.0
  {
    SquareIsZeroOnlyAtZero(x);
    SquareIsZeroOnlyAtZero(y);
    SquareIsZeroOnlyAtZero(z);
  }

  lemma SquareIsZeroOnlyAtZero(x: real)
    ensures x * x >= 0.0 && (x * x == 0.0 <==> x == 0.0)
  {
    ZeroProduct(x, x);
    assert x > 0.0 ==> x * x > 0.0;
    assert x < 0.0 ==> (-x) * (-x) > 0.0 && (-x) * (-x) == x * x;
  }
}
