/** Quaternions and the rotations they make, SpNetCommon/src/spNetMath.h, over exact reals.

    An identity between polynomials is proved one component at a time, each in a lemma of its own: the
    solver multiplies out one component with ease and several at once hardly ever. */
module Quaternions {
  datatype Vec3 = Vec3(x: real, y: real, z: real)
  datatype Vec4 = Vec4(x: real, y: real, z: real, w: real)
  datatype Quat = Quat(x: real, y: real, z: real, w: real)

  const ONE := Quat(0.0, 0.0, 0.0, 1.0)

  /** `Multiply` of two quaternions. */
  function Multiply(p: Quat, q: Quat): Quat {
    Quat(
      p.x * q.w + p.y * q.z - p.z * q.y + p.w * q.x,
      -p.x * q.z + p.y * q.w + p.z * q.x + p.w * q.y,
      p.x * q.y - p.y * q.x + p.z * q.w + p.w * q.z,
      -p.x * q.x - p.y * q.y - p.z * q.z + p.w * q.w)
  }

  /** `Multiply` of a quaternion and a vector. */
  function Rotate(q: Quat, v: Vec3): Vec3 {
    var xx, yy, zz := q.x * q.x, q.y * q.y, q.z * q.z;
    var xy, xz, yz := q.x * q.y, q.x * q.z, q.y * q.z;
    var sx, sy, sz := q.w * q.x, q.w * q.y, q.w * q.z;
    Vec3(
      v.x * (1.0 - (yy + zz) * 2.0) + v.y * (xy - sz) * 2.0 + v.z * (xz + sy) * 2.0,
      v.x * (xy + sz) * 2.0 + v.y * (1.0 - (xx + zz) * 2.0) + v.z * (yz - sx) * 2.0,
      v.x * (xz - sy) * 2.0 + v.y * (yz + sx) * 2.0 + v.z * (1.0 - (xx + yy) * 2.0))
  }

  function DotProduct(p: Quat, q: Quat): real {
    p.x * q.x + p.y * q.y + p.z * q.z + p.w * q.w
  }

  function GetConjugate(q: Quat): Quat {
    Quat(-q.x, -q.y, -q.z, q.w)
  }

  predicate IsUnit(q: Quat) {
    DotProduct(q, q) == 1.0
  }

  // ---- The product -------------------------------------------------------------------------------

  /** The components of a product over plain numbers, which the solver multiplies out at once. */
  function ImagPart(a: real, b: real, c: real, d: real, e: real, f: real, g: real, h: real): real {
    a * h + b * g - c * f + d * e
  }

  function RealPart(a: real, b: real, c: real, d: real, e: real, f: real, g: real, h: real): real {
    -a * e - b * f - c * g + d * h
  }

  lemma ProductInParts(p: Quat, q: Quat)
    ensures Multiply(p, q).x == ImagPart(p.x, p.y, p.z, p.w, q.x, q.y, q.z, q.w)
    ensures Multiply(p, q).y == ImagPart(p.y, p.z, p.x, p.w, q.y, q.z, q.x, q.w)
    ensures Multiply(p, q).z == ImagPart(p.z, p.x, p.y, p.w, q.z, q.x, q.y, q.w)
    ensures Multiply(p, q).w == RealPart(p.x, p.y, p.z, p.w, q.x, q.y, q.z, q.w)
  {
    ProductInX(p, q);
    ProductInY(p, q);
    ProductInZ(p, q);
    ProductInW(p, q);
  }

  lemma ProductInX(p: Quat, q: Quat)
    ensures Multiply(p, q).x == ImagPart(p.x, p.y, p.z, p.w, q.x, q.y, q.z, q.w)
  {
  }

  lemma ProductInY(p: Quat, q: Quat)
    ensures Multiply(p, q).y == ImagPart(p.y, p.z, p.x, p.w, q.y, q.z, q.x, q.w)
  {
  }

  lemma ProductInZ(p: Quat, q: Quat)
    ensures Multiply(p, q).z == ImagPart(p.z, p.x, p.y, p.w, q.z, q.x, q.y, q.w)
  {
  }

  lemma ProductInW(p: Quat, q: Quat)
    ensures Multiply(p, q).w == RealPart(p.x, p.y, p.z, p.w, q.x, q.y, q.z, q.w)
  {
  }

  /** A product of three, from the components of its left product. */
  function NestedX(
      a: real, b: real, c: real, d: real, e: real, f: real, g: real, h: real, i: real, j: real, k: real, l: real): real
  {
    ImagPart(a * h + b * g - c * f + d * e, b * h + c * e - a * g + d * f, c * h + a * f - b * e + d * g,
        -a * e - b * f - c * g + d * h, i, j, k, l)
  }

  function NestedW(
      a: real, b: real, c: real, d: real, e: real, f: real, g: real, h: real, i: real, j: real, k: real, l: real): real
  {
    RealPart(a * h + b * g - c * f + d * e, b * h + c * e - a * g + d * f, c * h + a * f - b * e + d * g,
        -a * e - b * f - c * g + d * h, i, j, k, l)
  }

  /** The same, multiplied out. */
  function TripleX(
      a: real, b: real, c: real, d: real, e: real, f: real, g: real, h: real, i: real, j: real, k: real, l: real): real
  {
    (a * h + b * g - c * f + d * e) * l + (b * h + c * e - a * g + d * f) * k
    - (c * h + a * f - b * e + d * g) * j + (-a * e - b * f - c * g + d * h) * i
  }

  function TripleW(
      a: real, b: real, c: real, d: real, e: real, f: real, g: real, h: real, i: real, j: real, k: real, l: real): real
  {
    -(a * h + b * g - c * f + d * e) * i - (b * h + c * e - a * g + d * f) * j
    - (c * h + a * f - b * e + d * g) * k + (-a * e - b * f - c * g + d * h) * l
  }

  lemma MultipliedOutX(p: Quat, q: Quat, r: Quat)
    ensures NestedX(p.x, p.y, p.z, p.w, q.x, q.y, q.z, q.w, r.x, r.y, r.z, r.w)
            == TripleX(p.x, p.y, p.z, p.w, q.x, q.y, q.z, q.w, r.x, r.y, r.z, r.w)
  {
  }

  lemma MultipliedOutW(p: Quat, q: Quat, r: Quat)
    ensures NestedW(p.x, p.y, p.z, p.w, q.x, q.y, q.z, q.w, r.x, r.y, r.z, r.w)
            == TripleW(p.x, p.y, p.z, p.w, q.x, q.y, q.z, q.w, r.x, r.y, r.z, r.w)
  {
  }

  lemma LeftX(p: Quat, q: Quat, r: Quat)
    ensures Multiply(Multiply(p, q), r).x == NestedX(p.x, p.y, p.z, p.w, q.x, q.y, q.z, q.w, r.x, r.y, r.z, r.w)
  {
    ProductInParts(p, q);
    ProductInParts(Multiply(p, q), r);
  }

  lemma RightX(p: Quat, q: Quat, r: Quat)
    ensures Multiply(p, Multiply(q, r)).x == TripleX(p.x, p.y, p.z, p.w, q.x, q.y, q.z, q.w, r.x, r.y, r.z, r.w)
  {
    ProductInParts(q, r);
    ProductInParts(p, Multiply(q, r));
    assert ImagPart(p.x, p.y, p.z, p.w, q.x * r.w + q.y * r.z - q.z * r.y + q.w * r.x,
                    q.y * r.w + q.z * r.x - q.x * r.z + q.w * r.y, q.z * r.w + q.x * r.y - q.y * r.x + q.w * r.z,
                    -q.x * r.x - q.y * r.y - q.z * r.z + q.w * r.w)
                      == TripleX(p.x, p.y, p.z, p.w, q.x, q.y, q.z, q.w, r.x, r.y, r.z, r.w);
  }

  lemma LeftW(p: Quat, q: Quat, r: Quat)
    ensures Multiply(Multiply(p, q), r).w == NestedW(p.x, p.y, p.z, p.w, q.x, q.y, q.z, q.w, r.x, r.y, r.z, r.w)
  {
    ProductInParts(p, q);
    ProductInParts(Multiply(p, q), r);
  }

  lemma RightW(p: Quat, q: Quat, r: Quat)
    ensures Multiply(p, Multiply(q, r)).w == TripleW(p.x, p.y, p.z, p.w, q.x, q.y, q.z, q.w, r.x, r.y, r.z, r.w)
  {
    ProductInParts(q, r);
    ProductInParts(p, Multiply(q, r));
    assert RealPart(p.x, p.y, p.z, p.w, q.x * r.w + q.y * r.z - q.z * r.y + q.w * r.x,
                    q.y * r.w + q.z * r.x - q.x * r.z + q.w * r.y, q.z * r.w + q.x * r.y - q.y * r.x + q.w * r.z,
                    -q.x * r.x - q.y * r.y - q.z * r.z + q.w * r.w)
                      == TripleW(p.x, p.y, p.z, p.w, q.x, q.y, q.z, q.w, r.x, r.y, r.z, r.w);
  }

  /** The axes in turn. */
  function Turned(q: Quat): Quat {
    Quat(q.y, q.z, q.x, q.w)
  }

  /** The product treats all axes alike. */
  lemma TurningMultiplies(p: Quat, q: Quat)
    ensures Multiply(Turned(p), Turned(q)) == Turned(Multiply(p, q))
  {
    ProductInParts(p, q);
    ProductInParts(Turned(p), Turned(q));
    assert RealPart(p.y, p.z, p.x, p.w, q.y, q.z, q.x, q.w) == RealPart(p.x, p.y, p.z, p.w, q.x, q.y, q.z, q.w);
  }

  lemma AssociativeInX(p: Quat, q: Quat, r: Quat)
    ensures Multiply(Multiply(p, q), r).x == Multiply(p, Multiply(q, r)).x
    ensures Multiply(Multiply(p, q), r).w == Multiply(p, Multiply(q, r)).w
  {
    LeftX(p, q, r);
    RightX(p, q, r);
    LeftW(p, q, r);
    RightW(p, q, r);
    MultipliedOutX(p, q, r);
    MultipliedOutW(p, q, r);
  }

  lemma AssociativeInY(p: Quat, q: Quat, r: Quat)
    ensures Multiply(Multiply(p, q), r).y == Multiply(p, Multiply(q, r)).y
  {
    AssociativeInX(Turned(p), Turned(q), Turned(r));
    TurningMultiplies(p, q);
    TurningMultiplies(q, r);
    TurningMultiplies(Multiply(p, q), r);
    TurningMultiplies(p, Multiply(q, r));
  }

  lemma SameComponents(p: Quat, q: Quat)
    requires p.x == q.x && p.y == q.y && p.z == q.z && p.w == q.w
    ensures p == q
  {
  }

  /** The product is associative. */
  lemma MultiplyIsAssociative(p: Quat, q: Quat, r: Quat)
    ensures Multiply(Multiply(p, q), r) == Multiply(p, Multiply(q, r))
  {
    AssociativeInX(p, q, r);
    AssociativeInY(p, q, r);
    AssociativeInY(Turned(p), Turned(q), Turned(r));
    TurningMultiplies(p, q);
    TurningMultiplies(q, r);
    TurningMultiplies(Multiply(p, q), r);
    TurningMultiplies(p, Multiply(q, r));
    SameComponents(Multiply(Multiply(p, q), r), Multiply(p, Multiply(q, r)));
  }

  lemma ConjugateReverses(p: Quat, q: Quat)
    ensures GetConjugate(Multiply(p, q)) == Multiply(GetConjugate(q), GetConjugate(p))
  {
    ProductInParts(p, q);
    ProductInParts(GetConjugate(q), GetConjugate(p));
    SwappedParts(p.x, p.y, p.z, p.w, q.x, q.y, q.z, q.w);
    SwappedParts(p.y, p.z, p.x, p.w, q.y, q.z, q.x, q.w);
    SwappedParts(p.z, p.x, p.y, p.w, q.z, q.x, q.y, q.w);
  }

  lemma SwappedParts(a: real, b: real, c: real, d: real, e: real, f: real, g: real, h: real)
    ensures ImagPart(-e, -f, -g, h, -a, -b, -c, d) == -ImagPart(a, b, c, d, e, f, g, h)
    ensures RealPart(-e, -f, -g, h, -a, -b, -c, d) == RealPart(a, b, c, d, e, f, g, h)
  {
  }

  lemma SelfProduct(q: Quat)
    ensures Multiply(q, GetConjugate(q)) == Quat(0.0, 0.0, 0.0, DotProduct(q, q))
  {
  }

  lemma ScalarInside(p: Quat, n: real)
    ensures Multiply(Multiply(p, Quat(0.0, 0.0, 0.0, n)), GetConjugate(p)).w
            == (p.x * p.x + p.y * p.y + p.z * p.z + p.w * p.w) * n
  {
  }

  /** The self product of a product is the product of the self products. */
  lemma NormsMultiply(p: Quat, q: Quat)
    ensures DotProduct(Multiply(p, q), Multiply(p, q)) == DotProduct(p, p) * DotProduct(q, q)
  {
    var b, c := GetConjugate(q), GetConjugate(p);
    calc {
      DotProduct(Multiply(p, q), Multiply(p, q));
      { SelfProduct(Multiply(p, q)); }
      Multiply(Multiply(p, q), GetConjugate(Multiply(p, q))).w;
      { ConjugateReverses(p, q); }
      Multiply(Multiply(p, q), Multiply(b, c)).w;
      { MultiplyIsAssociative(Multiply(p, q), b, c); }
      Multiply(Multiply(Multiply(p, q), b), c).w;
      { MultiplyIsAssociative(p, q, b); }
      Multiply(Multiply(p, Multiply(q, b)), c).w;
      { SelfProduct(q); }
      Multiply(Multiply(p, Quat(0.0, 0.0, 0.0, DotProduct(q, q))), c).w;
      { ScalarInside(p, DotProduct(q, q)); }
      DotProduct(p, p) * DotProduct(q, q);
    }
  }

  lemma UnitsMultiply(p: Quat, q: Quat)
    requires IsUnit(p) && IsUnit(q)
    ensures IsUnit(Multiply(p, q)) && IsUnit(GetConjugate(p))
  {
    NormsMultiply(p, q);
  }

  // ---- Rotation ----------------------------------------------------------------------------------

  function Pure(v: Vec3): Quat {
    Quat(v.x, v.y, v.z, 0.0)
  }

  /** The sandwich of a vector between a quaternion and its conjugate. */
  function Sandwich(q: Quat, v: Vec3): Quat {
    Multiply(Multiply(q, Pure(v)), GetConjugate(q))
  }

  /** By how much the self product exceeds one, times `t`. */
  function Excess(q: Quat, t: real): real {
    ExcessPart(q.x, q.y, q.z, q.w, t)
  }

  function ExcessPart(a: real, b: real, c: real, d: real, t: real): real {
    (a * a + b * b + c * c + d * d - 1.0) * t
  }

  /** A component of a rotated vector over plain numbers. */
  function RotatedPart(a: real, b: real, c: real, d: real, e: real, f: real, g: real): real {
    e * (1.0 - (b * b + c * c) * 2.0) + f * (a * b - d * c) * 2.0 + g * (a * c + d * b) * 2.0
  }

  lemma RotationInParts(q: Quat, v: Vec3)
    ensures Rotate(q, v).x == RotatedPart(q.x, q.y, q.z, q.w, v.x, v.y, v.z)
    ensures Rotate(q, v).y == RotatedPart(q.y, q.z, q.x, q.w, v.y, v.z, v.x)
    ensures Rotate(q, v).z == RotatedPart(q.z, q.x, q.y, q.w, v.z, v.x, v.y)
  {
    RotationInX(q, v);
    RotationInY(q, v);
    RotationInZ(q, v);
  }

  lemma RotationInX(q: Quat, v: Vec3)
    ensures Rotate(q, v).x == RotatedPart(q.x, q.y, q.z, q.w, v.x, v.y, v.z)
  {
  }

  lemma RotationInY(q: Quat, v: Vec3)
    ensures Rotate(q, v).y == RotatedPart(q.y, q.z, q.x, q.w, v.y, v.z, v.x)
  {
  }

  lemma RotationInZ(q: Quat, v: Vec3)
    ensures Rotate(q, v).z == RotatedPart(q.z, q.x, q.y, q.w, v.z, v.x, v.y)
  {
  }

  lemma SandwichPart(a: real, b: real, c: real, d: real, e: real, f: real, g: real)
    ensures TripleX(a, b, c, d, e, f, g, 0.0, -a, -b, -c, d)
      == RotatedPart(a, b, c, d, e, f, g) + ExcessPart(a, b, c, d, e)
    ensures TripleW(a, b, c, d, e, f, g, 0.0, -a, -b, -c, d) == 0.0
  {
  }

  lemma SandwichInX(q: Quat, v: Vec3)
    ensures Sandwich(q, v).x == Rotate(q, v).x + Excess(q, v.x)
    ensures Sandwich(q, v).w == 0.0
  {
    LeftX(q, Pure(v), GetConjugate(q));
    LeftW(q, Pure(v), GetConjugate(q));
    MultipliedOutX(q, Pure(v), GetConjugate(q));
    MultipliedOutW(q, Pure(v), GetConjugate(q));
    SandwichPart(q.x, q.y, q.z, q.w, v.x, v.y, v.z);
    RotationInX(q, v);
  }

  lemma SandwichInY(q: Quat, v: Vec3)
    ensures Sandwich(q, v).y == Rotate(q, v).y + Excess(q, v.y)
  {
    SandwichInX(Turned(q), TurnedVector(v));
    TurningSandwiches(q, v);
    TurningRotates(q, v);
    TurningExceeds(q, v.y);
  }

  function TurnedVector(v: Vec3): Vec3 {
    Vec3(v.y, v.z, v.x)
  }

  lemma TurningSandwiches(q: Quat, v: Vec3)
    ensures Sandwich(Turned(q), TurnedVector(v)) == Turned(Sandwich(q, v))
  {
    TurningMultiplies(q, Pure(v));
    TurningMultiplies(Multiply(q, Pure(v)), GetConjugate(q));
    assert Turned(Pure(v)) == Pure(TurnedVector(v)) && Turned(GetConjugate(q)) == GetConjugate(Turned(q));
  }

  lemma TurningRotates(q: Quat, v: Vec3)
    ensures Rotate(Turned(q), TurnedVector(v)) == TurnedVector(Rotate(q, v))
  {
    RotationInParts(q, v);
    RotationInParts(Turned(q), TurnedVector(v));
  }

  lemma TurningExceeds(q: Quat, t: real)
    ensures Excess(Turned(q), t) == Excess(q, t)
  {
  }

  /** What the vector formula computes for any quaternion: the sandwich, less the vector itself as often
      as the self product exceeds one. */
  lemma RotationIsTheSandwich(q: Quat, v: Vec3)
    ensures var r := Rotate(q, v);
            Sandwich(q, v) == Quat(r.x + Excess(q, v.x), r.y + Excess(q, v.y), r.z + Excess(q, v.z), 0.0)
  {
    SandwichInX(q, v);
    SandwichInY(q, v);
    SandwichInY(Turned(q), TurnedVector(v));
    TurningSandwiches(q, v);
    TurningRotates(q, v);
    TurningExceeds(q, v.z);
    SameComponents(Sandwich(q, v), Quat(Sandwich(q, v).x, Sandwich(q, v).y, Sandwich(q, v).z, 0.0));
  }

  lemma UnitSandwich(q: Quat, v: Vec3)
    requires IsUnit(q)
    ensures Sandwich(q, v) == Pure(Rotate(q, v))
  {
    RotationIsTheSandwich(q, v);
    UnitsExceedByNothing(q, v.x);
    UnitsExceedByNothing(q, v.y);
    UnitsExceedByNothing(q, v.z);
  }

  lemma UnitsExceedByNothing(q: Quat, t: real)
    requires IsUnit(q)
    ensures Excess(q, t) == 0.0
  {
  }

  /** Rotating by a product of units rotates by its right factor and then by its left one. */
  lemma RotationsCompose(p: Quat, q: Quat, v: Vec3)
    requires IsUnit(p) && IsUnit(q)
    ensures Rotate(Multiply(p, q), v) == Rotate(p, Rotate(q, v))
  {
    var a, b, c, u := Multiply(p, q), GetConjugate(q), GetConjugate(p), Pure(v);
    UnitsMultiply(p, q);
    UnitSandwich(a, v);
    UnitSandwich(q, v);
    UnitSandwich(p, Rotate(q, v));
    ConjugateReverses(p, q);
    calc {
      Sandwich(a, v);
      Multiply(Multiply(a, u), Multiply(b, c));
      { MultiplyIsAssociative(Multiply(a, u), b, c); }
      Multiply(Multiply(Multiply(a, u), b), c);
      { MultiplyIsAssociative(p, q, u); }
      Multiply(Multiply(Multiply(p, Multiply(q, u)), b), c);
      { MultiplyIsAssociative(p, Multiply(q, u), b); }
      Multiply(Multiply(p, Multiply(Multiply(q, u), b)), c);
      Sandwich(p, Rotate(q, v));
    }
    SameVectors(Rotate(a, v), Rotate(p, Rotate(q, v)));
  }

  lemma SameVectors(v: Vec3, w: Vec3)
    requires Pure(v) == Pure(w)
    ensures v == w
  {
  }

  lemma ConjugateUndoes(q: Quat)
    requires IsUnit(q)
    ensures Multiply(GetConjugate(q), q) == ONE && Multiply(q, GetConjugate(q)) == ONE
  {
  }

  lemma OneRotatesNothing(v: Vec3)
    ensures Rotate(ONE, v) == v
  {
  }

  /** The conjugate rotates back. */
  lemma ConjugateRotatesBack(q: Quat, v: Vec3)
    requires IsUnit(q)
    ensures Rotate(GetConjugate(q), Rotate(q, v)) == v
  {
    UnitsMultiply(q, q);
    RotationsCompose(GetConjugate(q), q, v);
    ConjugateUndoes(q);
    OneRotatesNothing(v);
  }

  function Dot(v: Vec3, w: Vec3): real {
    v.x * w.x + v.y * w.y + v.z * w.z
  }

  /** For every quaternion, moving the rotation to the other factor turns it around. */
  lemma RotationMovesAcross(q: Quat, v: Vec3, w: Vec3)
    ensures Dot(Rotate(q, v), w) == Dot(v, Rotate(GetConjugate(q), w))
  {
  }

  /** Rotations keep dot products. */
  lemma RotationKeepsDotProducts(q: Quat, v: Vec3, w: Vec3)
    requires IsUnit(q)
    ensures Dot(Rotate(q, v), Rotate(q, w)) == Dot(v, w)
  {
    RotationMovesAcross(q, v, Rotate(q, w));
    ConjugateRotatesBack(q, w);
  }

  const X := Vec3(1.0, 0.0, 0.0)
  const Y := Vec3(0.0, 1.0, 0.0)

  lemma LengthOfX(q: Quat, s: real, t: real)
    requires s == DotProduct(q, q) - 1.0 && t == q.y * q.y + q.z * q.z
    ensures Dot(Rotate(q, X), Rotate(q, X)) == 1.0 + 4.0 * (s * t)
  {
  }

  lemma LengthOfY(q: Quat, s: real, t: real)
    requires s == DotProduct(q, q) - 1.0 && t == q.x * q.x + q.z * q.z
    ensures Dot(Rotate(q, Y), Rotate(q, Y)) == 1.0 + 4.0 * (s * t)
  {
  }

  predicate HasNoAxis(q: Quat) {
    q.x == 0.0 && q.y == 0.0 && q.z == 0.0
  }

  lemma NonUnitWithAxisChangesALength(q: Quat, s: real, t: real, u: real)
    requires s == DotProduct(q, q) - 1.0 && t == q.y * q.y + q.z * q.z && u == q.x * q.x + q.z * q.z
    requires s != 0.0 && (t > 0.0 || u > 0.0)
    ensures Dot(Rotate(q, X), Rotate(q, X)) != 1.0 || Dot(Rotate(q, Y), Rotate(q, Y)) != 1.0
  {
    if t > 0.0 {
      LengthOfX(q, s, t);
      LengthChanges(Dot(Rotate(q, X), Rotate(q, X)), s, t);
    } else {
      LengthOfY(q, s, u);
      LengthChanges(Dot(Rotate(q, Y), Rotate(q, Y)), s, u);
    }
  }

  lemma LengthChanges(length: real, s: real, t: real)
    requires length == 1.0 + 4.0 * (s * t) && s != 0.0 && t > 0.0
    ensures length != 1.0
  {
  }

  lemma SomeSquareIsPositive(q: Quat, t: real, u: real)
    requires !HasNoAxis(q) && t == q.y * q.y + q.z * q.z && u == q.x * q.x + q.z * q.z
    ensures t > 0.0 || u > 0.0
  {
    SumOfSquares(q.y, q.z, t);
    SumOfSquares(q.x, q.z, u);
  }

  lemma SumOfSquares(a: real, b: real, t: real)
    requires t == a * a + b * b
    ensures t > 0.0 || (a == 0.0 && b == 0.0)
  {
    var s, r := a * a, b * b;
    SquareIsPositive(a, s);
    SquareIsPositive(b, r);
    assert t == s + r;
  }

  lemma SquareIsPositive(a: real, s: real)
    requires s == a * a
    ensures s >= 0.0 && (a != 0.0 ==> s > 0.0)
  {
    if a > 0.0 {
      ProductIsPositive(a, a, s);
    } else if a < 0.0 {
      ProductIsPositive(-a, -a, s);
    }
  }

  lemma ProductIsPositive(a: real, b: real, s: real)
    requires a > 0.0 && b > 0.0 && s == a * b
    ensures s > 0.0
  {
  }

  lemma WithoutAxisNothingTurns(q: Quat, v: Vec3)
    requires HasNoAxis(q)
    ensures Rotate(q, v) == v
  {
  }

  /** A quaternion keeps all dot products exactly when it is a unit or has no axis. */
  lemma DotProductsAreKeptExactlyWhen(q: Quat)
    ensures (forall v, w :: Dot(Rotate(q, v), Rotate(q, w)) == Dot(v, w)) <==> IsUnit(q) || HasNoAxis(q)
  {
    if IsUnit(q) || HasNoAxis(q) {
      forall v, w
        ensures Dot(Rotate(q, v), Rotate(q, w)) == Dot(v, w)
      {
        if IsUnit(q) {
          RotationKeepsDotProducts(q, v, w);
        } else {
          WithoutAxisNothingTurns(q, v);
          WithoutAxisNothingTurns(q, w);
        }
      }
    } else {
      var s, t, u := DotProduct(q, q) - 1.0, q.y * q.y + q.z * q.z, q.x * q.x + q.z * q.z;
      SomeSquareIsPositive(q, t, u);
      NonUnitWithAxisChangesALength(q, s, t, u);
      assert Dot(X, X) == 1.0 && Dot(Y, Y) == 1.0;
    }
  }

  // ---- Normalization -----------------------------------------------------------------------------

  /** `n` is the square root that `Normal` computes. */
  predicate IsNormal(n: real, q: Quat) {
    n >= 0.0 && n * n == DotProduct(q, q)
  }

  function GetNormalized(q: Quat, n: real): Quat
    requires n != 0.0
  {
    Quat(q.x / n, q.y / n, q.z / n, q.w / n)
  }

  function Mul(s: real, t: real): real {
    s * t
  }

  function SelfProduct4(a: real, b: real, c: real, d: real): real {
    a * a + b * b + c * c + d * d
  }

  lemma ScaledSelfProduct(p: Quat, n: real)
    ensures SelfProduct4(p.x * n, p.y * n, p.z * n, p.w * n)
            == Mul(p.x * p.x + p.y * p.y + p.z * p.z + p.w * p.w, n * n)
  {
  }

  lemma NormalIsZeroOnlyAtZero(q: Quat, n: real)
    requires IsNormal(n, q)
    ensures n == 0.0 <==> q == Quat(0.0, 0.0, 0.0, 0.0)
  {
    var s, t := q.x * q.x + q.y * q.y, q.z * q.z + q.w * q.w;
    SumOfSquares(q.x, q.y, s);
    SumOfSquares(q.z, q.w, t);
    SumIsNatural(q.x, q.y, s);
    SumIsNatural(q.z, q.w, t);
    assert n * n == s + t;
    var u := n * n;
    SquareIsPositive(n, u);
  }

  lemma SumIsNatural(a: real, b: real, t: real)
    requires t == a * a + b * b
    ensures t >= 0.0
  {
    var s, r := a * a, b * b;
    SquareIsPositive(a, s);
    SquareIsPositive(b, r);
    assert t == s + r;
  }

  lemma CancelOne(s: real, t: real)
    requires Mul(s, t) == t && t != 0.0
    ensures s == 1.0
  {
    assert s == s * t / t;
  }

  /** Normalizing a nonzero quaternion makes it a unit. */
  lemma NormalizedIsUnit(q: Quat, n: real)
    requires IsNormal(n, q) && n != 0.0
    ensures IsUnit(GetNormalized(q, n))
  {
    var p := GetNormalized(q, n);
    assert p.x * n == q.x && p.y * n == q.y && p.z * n == q.z && p.w * n == q.w;
    ScaledSelfProduct(p, n);
    SquareIsPositive(n, n * n);
    CancelOne(DotProduct(p, p), n * n);
  }

  /** Normalizing changes exactly the quaternions that are not units. */
  lemma UnitsAreNormalized(q: Quat, n: real)
    requires IsNormal(n, q) && n != 0.0
    ensures IsUnit(q) <==> n == 1.0
    ensures IsUnit(q) <==> GetNormalized(q, n) == q
  {
    if IsUnit(q) {
      RootOfOne(n);
    } else if GetNormalized(q, n) == q {
      NormalizedIsUnit(q, n);
    }
  }

  lemma RootOfOne(n: real)
    requires n >= 0.0 && n * n == 1.0
    ensures n == 1.0
  {
    if n > 1.0 {
      ProductIsPositive(n - 1.0, n + 1.0, (n - 1.0) * (n + 1.0));
    } else if n < 1.0 {
      ProductIsPositive(1.0 - n, 1.0 + n, (1.0 - n) * (1.0 + n));
    }
  }

  // ---- The inverse -------------------------------------------------------------------------------

  /** `GetInverse`: the conjugate, normalized. */
  function GetInverse(q: Quat, n: real): Quat
    requires n != 0.0
  {
    GetNormalized(GetConjugate(q), n)
  }

  lemma ConjugateIsAsLong(q: Quat, n: real)
    requires IsNormal(n, q)
    ensures IsNormal(n, GetConjugate(q))
  {
    assert (-q.x) * (-q.x) == q.x * q.x && (-q.y) * (-q.y) == q.y * q.y && (-q.z) * (-q.z) == q.z * q.z;
  }

  /** What the documentation calls the inverse is one exactly for units: in general its product with the
      quaternion is the length. */
  lemma GetInverseInvertsExactlyUnits(q: Quat, n: real)
    requires IsNormal(n, q) && n != 0.0
    ensures Multiply(q, GetInverse(q, n)) == Quat(0.0, 0.0, 0.0, n)
    ensures Multiply(q, GetInverse(q, n)) == ONE <==> IsUnit(q)
  {
    ProductWithInverse(q, n);
    UnitsAreNormalized(q, n);
  }

  lemma ProductWithInverse(q: Quat, n: real)
    requires IsNormal(n, q) && n != 0.0
    ensures Multiply(q, GetInverse(q, n)) == Quat(0.0, 0.0, 0.0, n)
  {
    SelfProduct(q);
  }

  // ---- In place ----------------------------------------------------------------------------------

  class Quaternion {
    var x: real
    var y: real
    var z: real
    var w: real

    function Value(): Quat
      reads this
    {
      Quat(x, y, z, w)
    }

    method Conjugate()
      modifies this
      ensures Value() == GetConjugate(old(Value()))
    {
      x := x * -1.0;
      y := y * -1.0;
      z := z * -1.0;
    }

    /** `normal` is the root that `Normal` computes. */
    method Normalize(normal: real)
      requires IsNormal(normal, Value()) && normal != 0.0
      modifies this
      ensures Value() == GetNormalized(old(Value()), normal) && IsUnit(Value())
    {
      NormalizedIsUnit(Value(), normal);
      x := x / normal;
      y := y / normal;
      z := z / normal;
      w := w / normal;
    }

    method Inverse(normal: real)
      requires IsNormal(normal, Value()) && normal != 0.0
      modifies this
      ensures Value() == GetInverse(old(Value()), normal) && IsUnit(Value())
    {
      ConjugateIsAsLong(Value(), normal);
      Conjugate();
      Normalize(normal);
    }
  }
}
