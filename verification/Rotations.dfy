/**
What the rotation matrix and the quaternion product mean (src/godot/coordinate_converter.cpp:39-76,
src/protocol/pose_codec.cpp:62-83): the matrix of a unit quaternion n carries a vector v to
n times v times the inverse of n, as quaternions. Each coordinate is an identity of real numbers,
proved on its own.
*/
module Rotations {
  import opened Quaternions
  import opened HandRotation
  import opened Handedness

  /** A vector as a quaternion. */
  function Pure(v: Vec3): Quat {
    Quat(v.x, v.y, v.z, 0.0)
  }

  /** The vector that n carries v to. */
  function Rotated(n: Quat, v: Vec3): Quat {
    Multiply(Multiply(n, Pure(v)), Inverse(n))
  }

  // One component of the rotated vector, as an identity of real numbers.

  lemma RotateXTerms(x: real, y: real, z: real, w: real, a: real, b: real, c: real)
    ensures (-x * a - y * b - z * c) * (-x) + (w * a + y * c - z * b) * w + (w * b - x * c + z * a) * (-z) - (w * c + x * b - y * a) * (-y)
         == (w * w + x * x - y * y - z * z) * a + 2.0 * (x * y - w * z) * b + 2.0 * (x * z + w * y) * c
  {
  }

  lemma RotateX(x: real, y: real, z: real, w: real, a: real, b: real, c: real, px: real, py: real, pz: real, pw: real)
    requires px == w * a + y * c - z * b && py == w * b - x * c + z * a
    requires pz == w * c + x * b - y * a && pw == -x * a - y * b - z * c
    ensures pw * (-x) + px * w + py * (-z) - pz * (-y)
         == (w * w + x * x - y * y - z * z) * a + 2.0 * (x * y - w * z) * b + 2.0 * (x * z + w * y) * c
  {
    RotateXTerms(x, y, z, w, a, b, c);
  }

  lemma RotateYTerms(x: real, y: real, z: real, w: real, a: real, b: real, c: real)
    ensures (-x * a - y * b - z * c) * (-y) - (w * a + y * c - z * b) * (-z) + (w * b - x * c + z * a) * w + (w * c + x * b - y * a) * (-x)
         == 2.0 * (x * y + w * z) * a + (w * w - x * x + y * y - z * z) * b + 2.0 * (y * z - w * x) * c
  {
  }

  lemma RotateY(x: real, y: real, z: real, w: real, a: real, b: real, c: real, px: real, py: real, pz: real, pw: real)
    requires px == w * a + y * c - z * b && py == w * b - x * c + z * a
    requires pz == w * c + x * b - y * a && pw == -x * a - y * b - z * c
    ensures pw * (-y) - px * (-z) + py * w + pz * (-x)
         == 2.0 * (x * y + w * z) * a + (w * w - x * x + y * y - z * z) * b + 2.0 * (y * z - w * x) * c
  {
    RotateYTerms(x, y, z, w, a, b, c);
  }

  lemma RotateZTerms(x: real, y: real, z: real, w: real, a: real, b: real, c: real)
    ensures (-x * a - y * b - z * c) * (-z) + (w * a + y * c - z * b) * (-y) - (w * b - x * c + z * a) * (-x) + (w * c + x * b - y * a) * w
         == 2.0 * (x * z - w * y) * a + 2.0 * (y * z + w * x) * b + (w * w - x * x - y * y + z * z) * c
  {
  }

  lemma RotateZ(x: real, y: real, z: real, w: real, a: real, b: real, c: real, px: real, py: real, pz: real, pw: real)
    requires px == w * a + y * c - z * b && py == w * b - x * c + z * a
    requires pz == w * c + x * b - y * a && pw == -x * a - y * b - z * c
    ensures pw * (-z) + px * (-y) - py * (-x) + pz * w
         == 2.0 * (x * z - w * y) * a + 2.0 * (y * z + w * x) * b + (w * w - x * x - y * y + z * z) * c
  {
    RotateZTerms(x, y, z, w, a, b, c);
  }

  lemma RotateWTerms(x: real, y: real, z: real, w: real, a: real, b: real, c: real)
    ensures (-x * a - y * b - z * c) * w - (w * a + y * c - z * b) * (-x) - (w * b - x * c + z * a) * (-y) - (w * c + x * b - y * a) * (-z)
         == 0.0
  {
  }

  lemma RotateW(x: real, y: real, z: real, w: real, a: real, b: real, c: real, px: real, py: real, pz: real, pw: real)
    requires px == w * a + y * c - z * b && py == w * b - x * c + z * a
    requires pz == w * c + x * b - y * a && pw == -x * a - y * b - z * c
    ensures pw * w - px * (-x) - py * (-y) - pz * (-z)
         == 0.0
  {
    RotateWTerms(x, y, z, w, a, b, c);
  }

  lemma PureProduct(n: Quat, v: Vec3)
    ensures Multiply(n, Pure(v)) == Quat(n.w * v.x + n.y * v.z - n.z * v.y, n.w * v.y - n.x * v.z + n.z * v.x,
                                         n.w * v.z + n.x * v.y - n.y * v.x, -n.x * v.x - n.y * v.y - n.z * v.z)
  {
  }

  lemma TimesInverse(p: Quat, n: Quat)
    ensures Multiply(p, Inverse(n)) == Quat(p.w * (-n.x) + p.x * n.w + p.y * (-n.z) - p.z * (-n.y),
                                            p.w * (-n.y) - p.x * (-n.z) + p.y * n.w + p.z * (-n.x),
                                            p.w * (-n.z) + p.x * (-n.y) - p.y * (-n.x) + p.z * n.w,
                                            p.w * n.w - p.x * (-n.x) - p.y * (-n.y) - p.z * (-n.z))
  {
  }

  lemma UnitDiagonal(x: real, y: real, z: real, w: real)
    requires x * x + y * y + z * z + w * w == 1.0
    ensures 1.0 - 2.0 * (y * y + z * z) == w * w + x * x - y * y - z * z
    ensures 1.0 - 2.0 * (x * x + z * z) == w * w - x * x + y * y - z * z
    ensures 1.0 - 2.0 * (x * x + y * y) == w * w - x * x - y * y + z * z
  {
  }

  lemma MatrixTimes(n: Quat, v: Vec3)
    requires Unit(n)
    ensures Apply(Basis(n), v) == Vec3(
              (n.w * n.w + n.x * n.x - n.y * n.y - n.z * n.z) * v.x + 2.0 * (n.x * n.y - n.w * n.z) * v.y
                + 2.0 * (n.x * n.z + n.w * n.y) * v.z,
              2.0 * (n.x * n.y + n.w * n.z) * v.x + (n.w * n.w - n.x * n.x + n.y * n.y - n.z * n.z) * v.y
                + 2.0 * (n.y * n.z - n.w * n.x) * v.z,
              2.0 * (n.x * n.z - n.w * n.y) * v.x + 2.0 * (n.y * n.z + n.w * n.x) * v.y
                + (n.w * n.w - n.x * n.x - n.y * n.y + n.z * n.z) * v.z)
  {
    UnitDiagonal(n.x, n.y, n.z, n.w);
  }

  lemma CoordinateX(n: Quat, v: Vec3)
    requires Unit(n)
    ensures Pure(Apply(Basis(n), v)).x == Rotated(n, v).x
  {
    hide Multiply, Inverse, Apply, Basis, Unit;
    var p := Multiply(n, Pure(v));
    PureProduct(n, v);
    TimesInverse(p, n);
    MatrixTimes(n, v);
    RotateX(n.x, n.y, n.z, n.w, v.x, v.y, v.z, p.x, p.y, p.z, p.w);
  }

  lemma CoordinateY(n: Quat, v: Vec3)
    requires Unit(n)
    ensures Pure(Apply(Basis(n), v)).y == Rotated(n, v).y
  {
    hide Multiply, Inverse, Apply, Basis, Unit;
    var p := Multiply(n, Pure(v));
    PureProduct(n, v);
    TimesInverse(p, n);
    MatrixTimes(n, v);
    RotateY(n.x, n.y, n.z, n.w, v.x, v.y, v.z, p.x, p.y, p.z, p.w);
  }

  lemma CoordinateZ(n: Quat, v: Vec3)
    requires Unit(n)
    ensures Pure(Apply(Basis(n), v)).z == Rotated(n, v).z
  {
    hide Multiply, Inverse, Apply, Basis, Unit;
    var p := Multiply(n, Pure(v));
    PureProduct(n, v);
    TimesInverse(p, n);
    MatrixTimes(n, v);
    RotateZ(n.x, n.y, n.z, n.w, v.x, v.y, v.z, p.x, p.y, p.z, p.w);
  }

  lemma CoordinateW(n: Quat, v: Vec3)
    requires Unit(n)
    ensures Pure(Apply(Basis(n), v)).w == Rotated(n, v).w
  {
    hide Multiply, Inverse, Apply, Basis, Unit;
    var p := Multiply(n, Pure(v));
    PureProduct(n, v);
    TimesInverse(p, n);
    MatrixTimes(n, v);
    RotateW(n.x, n.y, n.z, n.w, v.x, v.y, v.z, p.x, p.y, p.z, p.w);
  }

  /** The matrix of a unit quaternion carries a vector where the quaternion does. */
  lemma BasisRotates(n: Quat, v: Vec3)
    requires Unit(n)
    ensures Pure(Apply(Basis(n), v)) == Rotated(n, v)
  {
    hide Rotated, Apply, Basis, Unit, Pure;
    CoordinateX(n, v);
    CoordinateY(n, v);
    CoordinateZ(n, v);
    CoordinateW(n, v);
  }

  /** A position keeps its first two coordinates and changes the sign of the third. */
  lemma PointChangesSign(v: Vec3)
    ensures MirrorPoint(v) == Vec3(v.x, v.y, -v.z)
  {
  }

  /** Above the threshold of 1e-12, normalising divides by the magnitude; below it gives the identity. */
  lemma NormalizeKeepsDirection(q: Quat, s: real)
    requires IsRoot(s, Norm2(q))
    ensures Norm2(q) > 0.000000000001 ==> Scale(Normalize(q, s), s) == q
    ensures Norm2(q) <= 0.000000000001 ==> Normalize(q, s) == Quat(0.0, 0.0, 0.0, 1.0)
  {
    if !Degenerate(q) {
      RootOfPositive(s, Norm2(q));
      var k := 1.0 / s;
      assert k * s == 1.0;
      Cancel(q.x, k, s);
      Cancel(q.y, k, s);
      Cancel(q.z, k, s);
      Cancel(q.w, k, s);
    }
  }

  lemma Cancel(x: real, k: real, s: real)
    requires k * s == 1.0
    ensures x * k * s == x
  {
    assert x * k * s == x * (k * s);
  }
}
