/**
Quaternions over exact reals (src/protocol/pose_codec.cpp:62-83). Where the program takes a
square root, a function takes it as an argument, and `IsRoot` says that it is one.
*/
module Quaternions {

  datatype Quat = Quat(x: real, y: real, z: real, w: real)

  datatype Vec3 = Vec3(x: real, y: real, z: real)

  const IDENTITY := Quat(0.0, 0.0, 0.0, 1.0)
  const NORMALIZE_EPSILON: real := 0.000000000001

  /** `s` is the square root of `x`. */
  predicate IsRoot(s: real, x: real) {
    s >= 0.0 && s * s == x
  }

  /** A square root is unique. */
  lemma RootIsUnique(s: real, t: real)
    requires s >= 0.0 && t >= 0.0 && s * s == t * t
    ensures s == t
  {
    assert (s - t) * (s + t) == 0.0;
    if s + t == 0.0 {
    } else {
      assert s - t == 0.0;
    }
  }

  function Norm2(q: Quat): real {
    q.x * q.x + q.y * q.y + q.z * q.z + q.w * q.w
  }

  predicate Unit(q: Quat) {
    Norm2(q) == 1.0
  }

  predicate Degenerate(q: Quat) {
    Norm2(q) <= NORMALIZE_EPSILON
  }

  function Scale(q: Quat, k: real): Quat {
    Quat(q.x * k, q.y * k, q.z * k, q.w * k)
  }

  function Negate(q: Quat): Quat {
    Quat(-q.x, -q.y, -q.z, -q.w)
  }

  lemma RootOfPositive(s: real, x: real)
    requires IsRoot(s, x) && x > 0.0
    ensures s > 0.0
  {
  }

  /** normalize_quaternion; `s` is the magnitude. */
  function Normalize(q: Quat, s: real): Quat
    requires IsRoot(s, Norm2(q))
  {
    if Degenerate(q) then IDENTITY
    else
      RootOfPositive(s, Norm2(q));
      Scale(q, 1.0 / s)
  }

  lemma ScaledNorm(q: Quat, k: real)
    ensures Norm2(Scale(q, k)) == Norm2(q) * (k * k)
  {
    Square(q.x, k);
    Square(q.y, k);
    Square(q.z, k);
    Square(q.w, k);
    var kk := k * k;
    Distribute4(q.x * q.x, q.y * q.y, q.z * q.z, q.w * q.w, kk);
  }

  lemma Square(a: real, k: real)
    ensures (a * k) * (a * k) == (a * a) * (k * k)
  {
  }

  lemma Distribute4(a: real, b: real, c: real, d: real, k: real)
    ensures (a + b + c + d) * k == a * k + b * k + c * k + d * k
  {
  }

  /** Normalising gives a unit quaternion, for every input. */
  lemma NormalizeIsUnit(q: Quat, s: real)
    requires IsRoot(s, Norm2(q))
    ensures Unit(Normalize(q, s))
  {
    if !Degenerate(q) {
      RootOfPositive(s, Norm2(q));
      var k := 1.0 / s;
      ScaledNorm(q, k);
      assert s * k == 1.0;
      assert (s * s) * (k * k) == (s * k) * (s * k);
    }
  }

  /** Normalising a unit quaternion changes nothing. */
  lemma NormalizeFixesUnit(q: Quat, s: real)
    requires IsRoot(s, Norm2(q)) && Unit(q)
    ensures Normalize(q, s) == q
  {
    RootIsUnique(s, 1.0);
  }

  /** Opposite quaternions normalise to opposite ones, unless both are degenerate. */
  lemma NormalizeNegates(q: Quat, s: real)
    requires IsRoot(s, Norm2(q))
    ensures IsRoot(s, Norm2(Negate(q)))
    ensures Normalize(Negate(q), s) == if Degenerate(q) then IDENTITY else Negate(Normalize(q, s))
  {
    assert Norm2(Negate(q)) == Norm2(q);
    if !Degenerate(q) {
      RootOfPositive(s, Norm2(q));
      var k := 1.0 / s;
      assert (-q.x) * k == -(q.x * k) && (-q.y) * k == -(q.y * k);
      assert (-q.z) * k == -(q.z * k) && (-q.w) * k == -(q.w * k);
    }
  }

  /** quaternion_multiply. */
  function Multiply(a: Quat, b: Quat): Quat {
    Quat(a.w * b.x + a.x * b.w + a.y * b.z - a.z * b.y,
         a.w * b.y - a.x * b.z + a.y * b.w + a.z * b.x,
         a.w * b.z + a.x * b.y - a.y * b.x + a.z * b.w,
         a.w * b.w - a.x * b.x - a.y * b.y - a.z * b.z)
  }
}
