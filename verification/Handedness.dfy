/**
The coordinate boundary between Godot and NetSync (src/godot/coordinate_converter.cpp): the
third axis is reversed. Over exact reals, with square roots as arguments. The loops over three by
three matrices are proved against closed forms, and so is the reading of a quaternion from a matrix.
*/
module Handedness {
  import opened Quaternions

  datatype Mat3 = Mat3(
    m00: real, m01: real, m02: real,
    m10: real, m11: real, m12: real,
    m20: real, m21: real, m22: real)
  {
    function Entry(r: nat, c: nat): real
      requires r < 3 && c < 3
    {
      if r == 0 then (if c == 0 then m00 else if c == 1 then m01 else m02)
      else if r == 1 then (if c == 0 then m10 else if c == 1 then m11 else m12)
      else (if c == 0 then m20 else if c == 1 then m21 else m22)
    }
  }

  /** The diagonal matrix 1, 1, -1. */
  const REFLECTION := Mat3(1.0, 0.0, 0.0, 0.0, 1.0, 0.0, 0.0, 0.0, -1.0)

  function RowTimesColumn(a: Mat3, b: Mat3, r: nat, c: nat, upto: nat): real
    requires r < 3 && c < 3 && upto <= 3
  {
    if upto == 0 then 0.0 else RowTimesColumn(a, b, r, c, upto - 1) + a.Entry(r, upto - 1) * b.Entry(upto - 1, c)
  }

  function Cell(a: Mat3, b: Mat3, r: nat, c: nat): real
    requires r < 3 && c < 3
  {
    a.Entry(r, 0) * b.Entry(0, c) + a.Entry(r, 1) * b.Entry(1, c) + a.Entry(r, 2) * b.Entry(2, c)
  }

  function Product(a: Mat3, b: Mat3): Mat3 {
    Mat3(Cell(a, b, 0, 0), Cell(a, b, 0, 1), Cell(a, b, 0, 2),
         Cell(a, b, 1, 0), Cell(a, b, 1, 1), Cell(a, b, 1, 2),
         Cell(a, b, 2, 0), Cell(a, b, 2, 1), Cell(a, b, 2, 2))
  }

  /** matrix_transform. */
  function Apply(m: Mat3, v: Vec3): Vec3 {
    Vec3(m.m00 * v.x + m.m01 * v.y + m.m02 * v.z,
         m.m10 * v.x + m.m11 * v.y + m.m12 * v.z,
         m.m20 * v.x + m.m21 * v.y + m.m22 * v.z)
  }

  /** conjugate_with_reflection. */
  function Conjugate(b: Mat3): Mat3 {
    Product(Product(REFLECTION, b), REFLECTION)
  }

  /** basis_from_quaternion, once the quaternion is normalised. */
  function Basis(n: Quat): Mat3 {
    Mat3(1.0 - 2.0 * (n.y * n.y + n.z * n.z), 2.0 * (n.x * n.y - n.w * n.z), 2.0 * (n.x * n.z + n.w * n.y),
         2.0 * (n.x * n.y + n.w * n.z), 1.0 - 2.0 * (n.x * n.x + n.z * n.z), 2.0 * (n.y * n.z - n.w * n.x),
         2.0 * (n.x * n.z - n.w * n.y), 2.0 * (n.y * n.z + n.w * n.x), 1.0 - 2.0 * (n.x * n.x + n.y * n.y))
  }

  /** rotation_godot_to_netsync and its inverse, which is the same map. */
  function Mirror(q: Quat): Quat {
    Quat(-q.x, -q.y, q.z, q.w)
  }

  function MirrorPoint(v: Vec3): Vec3 {
    Apply(REFLECTION, v)
  }

  // ---------------------------------------------------------------- the program's matrix loops

  /** reflection_matrix. */
  method ReflectionMatrix() returns (out: Mat3)
    ensures out == REFLECTION
  {
    var m := new real[3, 3];
    for r := 0 to 3
      invariant forall i, j :: 0 <= i < r && 0 <= j < 3 ==> m[i, j] == REFLECTION.Entry(i, j)
    {
      for c := 0 to 3
        invariant forall i, j :: 0 <= i < r && 0 <= j < 3 ==> m[i, j] == REFLECTION.Entry(i, j)
        invariant forall j :: 0 <= j < c ==> m[r, j] == REFLECTION.Entry(r, j)
      {
        m[r, c] := if r == c then (if r == 2 then -1.0 else 1.0) else 0.0;
      }
    }
    out := Mat3(m[0, 0], m[0, 1], m[0, 2], m[1, 0], m[1, 1], m[1, 2], m[2, 0], m[2, 1], m[2, 2]);
  }

  lemma CellIsSum(a: Mat3, b: Mat3, r: nat, c: nat)
    requires r < 3 && c < 3
    ensures RowTimesColumn(a, b, r, c, 3) == Cell(a, b, r, c)
  {
    assert RowTimesColumn(a, b, r, c, 1) == a.Entry(r, 0) * b.Entry(0, c);
    assert RowTimesColumn(a, b, r, c, 2) == a.Entry(r, 0) * b.Entry(0, c) + a.Entry(r, 1) * b.Entry(1, c);
  }

  /** matrix_multiply. */
  method MatrixMultiply(a: Mat3, b: Mat3) returns (out: Mat3)
    ensures out == Product(a, b)
  {
    hide Cell, RowTimesColumn;
    var m := new real[3, 3];
    for r := 0 to 3
      invariant forall i, j :: 0 <= i < r && 0 <= j < 3 ==> m[i, j] == Cell(a, b, i, j)
    {
      for c := 0 to 3
        invariant forall i, j :: 0 <= i < r && 0 <= j < 3 ==> m[i, j] == Cell(a, b, i, j)
        invariant forall j :: 0 <= j < c ==> m[r, j] == Cell(a, b, r, j)
      {
        var sum := EntryOfProduct(a, b, r, c);
        m[r, c] := sum;
      }
    }
    out := Mat3(m[0, 0], m[0, 1], m[0, 2], m[1, 0], m[1, 1], m[1, 2], m[2, 0], m[2, 1], m[2, 2]);
  }

  /** The inner loop of matrix_multiply. */
  method EntryOfProduct(a: Mat3, b: Mat3, r: nat, c: nat) returns (sum: real)
    requires r < 3 && c < 3
    ensures sum == Cell(a, b, r, c)
  {
    hide Cell;
    sum := 0.0;
    for k := 0 to 3
      invariant sum == RowTimesColumn(a, b, r, c, k)
    {
      sum := sum + a.Entry(r, k) * b.Entry(k, c);
    }
    CellIsSum(a, b, r, c);
  }

  // ---------------------------------------------------------------- the closed form

  lemma Signs(a: real, b: real)
    ensures (-a) * b == -(a * b) && a * (-b) == -(a * b) && (-a) * (-b) == a * b
  {
  }

  lemma ConjugateFlips(b: Mat3)
    ensures Conjugate(b) == Mat3(b.m00, b.m01, -b.m02, b.m10, b.m11, -b.m12, -b.m20, -b.m21, b.m22)
  {
  }

  /** Negating x and y is exactly the reflection of the rotation matrix on both sides. */
  lemma MirrorIsConjugation(n: Quat)
    ensures Basis(Mirror(n)) == Conjugate(Basis(n))
  {
    hide Conjugate;
    ConjugateFlips(Basis(n));
    Signs(n.x, n.x);
    Signs(n.y, n.y);
    Signs(n.x, n.y);
    Signs(n.x, n.z);
    Signs(n.y, n.z);
    Signs(n.w, n.x);
    Signs(n.w, n.y);
  }

  /** The same for basis_from_quaternion itself: normalising commutes with the map. */
  lemma MirrorCommutesWithNormalize(q: Quat, s: real)
    requires IsRoot(s, Norm2(q))
    ensures IsRoot(s, Norm2(Mirror(q))) && Normalize(Mirror(q), s) == Mirror(Normalize(q, s))
  {
    hide Norm2, Mirror, Scale;
    MirrorKeepsNorm(q);
    MirrorKeepsIdentity();
    if !Degenerate(q) {
      RootOfPositive(s, Norm2(q));
      MirrorCommutesWithScale(q, 1.0 / s);
    }
  }

  lemma MirrorKeepsNorm(q: Quat)
    ensures Norm2(Mirror(q)) == Norm2(q)
  {
    Signs(q.x, q.x);
    Signs(q.y, q.y);
  }

  lemma MirrorKeepsIdentity()
    ensures Mirror(IDENTITY) == IDENTITY
  {
  }

  lemma MirrorCommutesWithScale(q: Quat, k: real)
    ensures Scale(Mirror(q), k) == Mirror(Scale(q, k))
  {
    Signs(q.x, k);
    Signs(q.y, k);
  }

  /** The map is its own inverse. */
  lemma MirrorUndoesItself(q: Quat, v: Vec3)
    ensures Mirror(Mirror(q)) == q && MirrorPoint(MirrorPoint(v)) == v
  {
  }

  lemma MinusTwice(a: real, b: real, c: real, d: real)
    requires c == -a && d == -b
    ensures a * d == -(a * b) && c * b == -(a * b) && c * d == a * b
  {
  }

  /** One component of a product whose factors changed sign in two places, as sums of products. */
  lemma ProductParts(a: Quat, b: Quat, c: Quat, d: Quat)
    requires c == Mirror(a) && d == Mirror(b)
    ensures c.w * d.x == -(a.w * b.x) && c.x * d.w == -(a.x * b.w) && c.y * d.z == -(a.y * b.z) && c.z * d.y == -(a.z * b.y)
    ensures c.w * d.y == -(a.w * b.y) && c.x * d.z == -(a.x * b.z) && c.y * d.w == -(a.y * b.w) && c.z * d.x == -(a.z * b.x)
    ensures c.x * d.y == a.x * b.y && c.y * d.x == a.y * b.x && c.x * d.x == a.x * b.x && c.y * d.y == a.y * b.y
  {
    MinusTwice(b.x, a.w, d.x, -a.w);
    MinusTwice(a.x, b.w, c.x, -b.w);
    MinusTwice(a.y, b.z, c.y, -b.z);
    MinusTwice(b.y, a.z, d.y, -a.z);
    MinusTwice(b.y, a.w, d.y, -a.w);
    MinusTwice(a.x, b.z, c.x, -b.z);
    MinusTwice(a.y, b.w, c.y, -b.w);
    MinusTwice(b.x, a.z, d.x, -a.z);
    MinusTwice(a.x, b.y, c.x, d.y);
    MinusTwice(a.y, b.x, c.y, d.x);
    MinusTwice(a.x, b.x, c.x, d.x);
    MinusTwice(a.y, b.y, c.y, d.y);
  }

  /** Products of rotations go to products of rotations. */
  lemma MirrorRespectsMultiply(a: Quat, b: Quat)
    ensures Mirror(Multiply(a, b)) == Multiply(Mirror(a), Mirror(b))
  {
    hide Mirror;
    var c, d := Mirror(a), Mirror(b);
    ProductParts(a, b, c, d);
    MirrorParts(a);
    MirrorParts(b);
    MirrorParts(Multiply(a, b));
  }

  lemma MirrorParts(q: Quat)
    ensures var m := Mirror(q); m.x == -q.x && m.y == -q.y && m.z == q.z && m.w == q.w
  {
  }

  /** Rotating and then converting is converting and then rotating. */
  lemma MirrorRespectsRotation(n: Quat, v: Vec3)
    ensures Apply(Basis(Mirror(n)), MirrorPoint(v)) == MirrorPoint(Apply(Basis(n), v))
  {
    hide Basis, Conjugate;
    MirrorIsConjugation(n);
    ConjugateFlips(Basis(n));
    var b := Basis(n);
    Signs(b.m02, v.z);
    Signs(b.m12, v.z);
    Signs(b.m20, v.x);
    Signs(b.m21, v.y);
    Signs(b.m22, v.z);
  }

  // ---------------------------------------------------------------- back from a matrix

  datatype Branch = ByW | ByX | ByY | ByZ

  /** Which of the four formulas quaternion_from_basis uses. */
  function Choose(m: Mat3): Branch {
    if m.m00 + m.m11 + m.m22 > 0.0 then ByW
    else if m.m00 > m.m11 && m.m00 > m.m22 then ByX
    else if m.m11 > m.m22 then ByY
    else ByZ
  }

  /** What quaternion_from_basis takes the root of. */
  function Radicand(m: Mat3): real {
    match Choose(m)
    case ByW => m.m00 + m.m11 + m.m22 + 1.0
    case ByX => 1.0 + m.m00 - m.m11 - m.m22
    case ByY => 1.0 + m.m11 - m.m00 - m.m22
    case ByZ => 1.0 + m.m22 - m.m00 - m.m11
  }

  /** quaternion_from_basis up to its final sign choice; `root` is the root of the radicand. */
  function Extract(m: Mat3, root: real): Quat
    requires root > 0.0
  {
    var s := root * 2.0;
    match Choose(m)
    case ByW => Quat((m.m21 - m.m12) / s, (m.m02 - m.m20) / s, (m.m10 - m.m01) / s, 0.25 * s)
    case ByX => Quat(0.25 * s, (m.m01 + m.m10) / s, (m.m02 + m.m20) / s, (m.m21 - m.m12) / s)
    case ByY => Quat((m.m01 + m.m10) / s, 0.25 * s, (m.m12 + m.m21) / s, (m.m02 - m.m20) / s)
    case ByZ => Quat((m.m02 + m.m20) / s, (m.m12 + m.m21) / s, 0.25 * s, (m.m10 - m.m01) / s)
  }

  /** quaternion_from_basis; `u` is the magnitude that the final normalisation divides by. */
  function FromBasis(m: Mat3, root: real, u: real): Quat
    requires root > 0.0
    requires IsRoot(u, Norm2(Upright(Extract(m, root))))
  {
    Normalize(Upright(Extract(m, root)), u)
  }

  function Upright(q: Quat): Quat {
    if q.w < 0.0 then Negate(q) else q
  }

  // ---------------------------------------------------------------- all four branches invert

  /** Twice the magnitude of the component that a branch divides by. */
  lemma RootOfFourSquares(c: real, root: real)
    requires IsRoot(root, 4.0 * (c * c))
    ensures root == if c < 0.0 then -2.0 * c else 2.0 * c
  {
    var t := if c < 0.0 then -2.0 * c else 2.0 * c;
    assert t * t == 4.0 * (c * c);
    RootIsUnique(root, t);
  }

  lemma Cancel(o: real, d: real)
    requires d != 0.0
    ensures (o * d) / d == o
  {
  }

  /** Dividing 4co by four times the magnitude of c leaves o, with the sign of c. */
  lemma Ratio(c: real, o: real, s: real, v: real)
    requires c != 0.0 && s == (if c < 0.0 then -4.0 * c else 4.0 * c) && (v == 4.0 * (c * o) || v == 4.0 * (o * c))
    ensures v / s == if c < 0.0 then -o else o
  {
    var r := if c < 0.0 then -o else o;
    assert r * s == v;
    Cancel(r, s);
  }

  function Signed(c: real, n: Quat): Quat {
    if c < 0.0 then Negate(n) else n
  }

  /** The diagonal of a rotation matrix against the squares of the components. */
  lemma DiagonalSums(xx: real, yy: real, zz: real, ww: real, d0: real, d1: real, d2: real)
    requires xx + yy + zz + ww == 1.0
    requires d0 == 1.0 - 2.0 * (yy + zz) && d1 == 1.0 - 2.0 * (xx + zz) && d2 == 1.0 - 2.0 * (xx + yy)
    ensures d0 + d1 + d2 + 1.0 == 4.0 * ww && 1.0 + d0 - d1 - d2 == 4.0 * xx
    ensures 1.0 + d1 - d0 - d2 == 4.0 * yy && 1.0 + d2 - d0 - d1 == 4.0 * zz
  {
  }

  lemma MirroredPair(p: real, q: real, sum: real, difference: real)
    requires sum == 2.0 * (p + q) && difference == 2.0 * (p - q)
    ensures sum + difference == 4.0 * p && sum - difference == 4.0 * q
  {
  }

  /** What the diagonal of a unit quaternion's matrix says about its components. */
  ghost predicate Squares(m: Mat3, n: Quat) {
    && m.m00 + m.m11 + m.m22 + 1.0 == 4.0 * (n.w * n.w)
    && 1.0 + m.m00 - m.m11 - m.m22 == 4.0 * (n.x * n.x)
    && 1.0 + m.m11 - m.m00 - m.m22 == 4.0 * (n.y * n.y)
    && 1.0 + m.m22 - m.m00 - m.m11 == 4.0 * (n.z * n.z)
  }

  lemma BasisDiagonal(n: Quat)
    ensures Basis(n).m00 == 1.0 - 2.0 * (n.y * n.y + n.z * n.z)
    ensures Basis(n).m11 == 1.0 - 2.0 * (n.x * n.x + n.z * n.z)
    ensures Basis(n).m22 == 1.0 - 2.0 * (n.x * n.x + n.y * n.y)
  {
  }

  lemma BasisSquares(n: Quat)
    requires Unit(n)
    ensures Squares(Basis(n), n)
  {
    hide Basis;
    BasisDiagonal(n);
    var m := Basis(n);
    DiagonalSums(n.x * n.x, n.y * n.y, n.z * n.z, n.w * n.w, m.m00, m.m11, m.m22);
  }

  /** What the rest of the matrix says. */
  ghost predicate Sums(m: Mat3, n: Quat) {
    m.m01 + m.m10 == 4.0 * (n.x * n.y) && m.m02 + m.m20 == 4.0 * (n.x * n.z) && m.m12 + m.m21 == 4.0 * (n.y * n.z)
  }

  ghost predicate Differences(m: Mat3, n: Quat) {
    m.m21 - m.m12 == 4.0 * (n.w * n.x) && m.m02 - m.m20 == 4.0 * (n.w * n.y) && m.m10 - m.m01 == 4.0 * (n.w * n.z)
  }

  lemma BasisSums(n: Quat)
    ensures Sums(Basis(n), n)
  {
    var m := Basis(n);
    MirroredPair(n.x * n.y, n.w * n.z, m.m10, m.m01);
    MirroredPair(n.x * n.z, n.w * n.y, m.m02, m.m20);
    MirroredPair(n.y * n.z, n.w * n.x, m.m21, m.m12);
  }

  lemma BasisDifferences(n: Quat)
    ensures Differences(Basis(n), n)
  {
    var m := Basis(n);
    MirroredPair(n.x * n.y, n.w * n.z, m.m10, m.m01);
    MirroredPair(n.x * n.z, n.w * n.y, m.m02, m.m20);
    MirroredPair(n.y * n.z, n.w * n.x, m.m21, m.m12);
  }

  /** The component that the chosen branch divides by. */
  function Pivot(n: Quat): real {
    match Choose(Basis(n))
    case ByW => n.w
    case ByX => n.x
    case ByY => n.y
    case ByZ => n.z
  }

  lemma NonZeroSquare(c: real)
    requires c * c != 0.0
    ensures c != 0.0
  {
  }

  lemma SquareIsNonNegative(c: real)
    ensures c * c >= 0.0
  {
  }

  /** The branch conditions pick a component that is not zero. */
  lemma PivotIsNonZero(n: Quat)
    requires Unit(n)
    ensures Pivot(n) != 0.0 && Radicand(Basis(n)) == 4.0 * (Pivot(n) * Pivot(n))
  {
    hide Basis;
    BasisSquares(n);
    SquareIsNonNegative(n.x);
    SquareIsNonNegative(n.y);
    SquareIsNonNegative(n.z);
    SquareIsNonNegative(n.w);
    assert Pivot(n) * Pivot(n) != 0.0;
    NonZeroSquare(Pivot(n));
  }

  /** The step of one branch: three quotients, and a quarter of the divisor. */
  lemma Quotients(c: real, root: real, o1: real, v1: real, o2: real, v2: real, o3: real, v3: real)
    requires c != 0.0 && IsRoot(root, 4.0 * (c * c))
    requires v1 == 4.0 * (c * o1) || v1 == 4.0 * (o1 * c)
    requires v2 == 4.0 * (c * o2) || v2 == 4.0 * (o2 * c)
    requires v3 == 4.0 * (c * o3) || v3 == 4.0 * (o3 * c)
    ensures root > 0.0
    ensures var s := root * 2.0;
            if c < 0.0 then 0.25 * s == -c && v1 / s == -o1 && v2 / s == -o2 && v3 / s == -o3
            else 0.25 * s == c && v1 / s == o1 && v2 / s == o2 && v3 / s == o3
  {
    RootOfFourSquares(c, root);
    Ratio(c, o1, root * 2.0, v1);
    Ratio(c, o2, root * 2.0, v2);
    Ratio(c, o3, root * 2.0, v3);
  }

  lemma ByWInverts(m: Mat3, n: Quat, root: real)
    requires Choose(m) == ByW && Sums(m, n) && Differences(m, n) && n.w != 0.0 && IsRoot(root, 4.0 * (n.w * n.w))
    ensures root > 0.0 && Extract(m, root) == Signed(n.w, n)
  {
    hide IsRoot, Choose;
    Quotients(n.w, root, n.x, m.m21 - m.m12, n.y, m.m02 - m.m20, n.z, m.m10 - m.m01);
  }

  lemma ByXInverts(m: Mat3, n: Quat, root: real)
    requires Choose(m) == ByX && Sums(m, n) && Differences(m, n) && n.x != 0.0 && IsRoot(root, 4.0 * (n.x * n.x))
    ensures root > 0.0 && Extract(m, root) == Signed(n.x, n)
  {
    hide IsRoot, Choose;
    Quotients(n.x, root, n.y, m.m01 + m.m10, n.z, m.m02 + m.m20, n.w, m.m21 - m.m12);
  }

  lemma ByYInverts(m: Mat3, n: Quat, root: real)
    requires Choose(m) == ByY && Sums(m, n) && Differences(m, n) && n.y != 0.0 && IsRoot(root, 4.0 * (n.y * n.y))
    ensures root > 0.0 && Extract(m, root) == Signed(n.y, n)
  {
    hide IsRoot, Choose;
    Quotients(n.y, root, n.x, m.m01 + m.m10, n.z, m.m12 + m.m21, n.w, m.m02 - m.m20);
  }

  lemma ByZInverts(m: Mat3, n: Quat, root: real)
    requires Choose(m) == ByZ && Sums(m, n) && Differences(m, n) && n.z != 0.0 && IsRoot(root, 4.0 * (n.z * n.z))
    ensures root > 0.0 && Extract(m, root) == Signed(n.z, n)
  {
    hide IsRoot, Choose;
    Quotients(n.z, root, n.x, m.m02 + m.m20, n.y, m.m12 + m.m21, n.w, m.m10 - m.m01);
  }

  /** Every branch recovers the quaternion, with the sign that makes its pivot positive. */
  lemma ExtractInverts(n: Quat, root: real)
    requires Unit(n) && IsRoot(root, Radicand(Basis(n)))
    ensures root > 0.0 && Extract(Basis(n), root) == Signed(Pivot(n), n)
  {
    hide Basis, Radicand, Extract, Unit, Sums, Differences, Choose;
    PivotIsNonZero(n);
    BasisSums(n);
    BasisDifferences(n);
    match Choose(Basis(n))
    case ByW => ByWInverts(Basis(n), n, root);
    case ByX => ByXInverts(Basis(n), n, root);
    case ByY => ByYInverts(Basis(n), n, root);
    case ByZ => ByZInverts(Basis(n), n, root);
  }

  lemma NegateIsUnit(n: Quat)
    ensures Norm2(Negate(n)) == Norm2(n)
  {
    Signs(n.x, n.x);
    Signs(n.y, n.y);
    Signs(n.z, n.z);
    Signs(n.w, n.w);
  }

  /**
  quaternion_from_basis undoes basis_from_quaternion up to sign, through all four branches, and
  never divides by zero.
  */
  lemma FromBasisInverts(n: Quat, root: real, u: real)
    requires Unit(n) && IsRoot(root, Radicand(Basis(n)))
    requires root > 0.0 ==> IsRoot(u, Norm2(Upright(Extract(Basis(n), root))))
    ensures root > 0.0
    ensures var q := FromBasis(Basis(n), root, u); (q == n || q == Negate(n)) && q.w >= 0.0
  {
    hide Basis, Norm2, Extract, Radicand, IsRoot, Normalize;
    ExtractInverts(n, root);
    NegateIsUnit(n);
    assert Negate(Negate(n)) == n;
    var q := Upright(Extract(Basis(n), root));
    assert q == n || q == Negate(n);
    NormalizeFixesUnit(q, u);
  }

  /**
  The conversion of a rotation matrix read back as a quaternion is the converted quaternion, up
  to sign: the matrix route and the closed form agree.
  */
  lemma BothRoutesAgree(q: Quat, s: real, root: real, u: real)
    requires IsRoot(s, Norm2(q))
    requires var m := Conjugate(Basis(Normalize(q, s)));
             IsRoot(root, Radicand(m)) && (root > 0.0 ==> IsRoot(u, Norm2(Upright(Extract(m, root)))))
    ensures root > 0.0 && IsRoot(s, Norm2(Mirror(q)))
    ensures var back := FromBasis(Conjugate(Basis(Normalize(q, s))), root, u);
            var closed := Normalize(Mirror(q), s);
            (back == closed || back == Negate(closed)) && back.w >= 0.0
  {
    hide Basis, Norm2, Extract, Radicand, IsRoot, Normalize, Conjugate;
    var n := Normalize(q, s);
    NormalizeIsUnit(q, s);
    MirrorIsConjugation(n);
    MirrorCommutesWithNormalize(q, s);
    NormalizeIsUnit(Mirror(q), s);
    FromBasisInverts(Mirror(n), root, u);
  }
}
