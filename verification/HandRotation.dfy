/**
How far off a hand's rotation arrives (src/protocol/protocol_v8.cpp:54-73 and 140-188). The
writer packs the head's rotation, and separately the hand's rotation relative to the head; the
reader multiplies what it unpacks. Over exact reals, with square roots as arguments.
*/
module HandRotation {
  import opened Quaternions
  import opened Quantise
  import opened SmallestThree

  // ---------------------------------------------------------------- quaternion algebra

  /** quaternion_inverse, once the quaternion is normalised. */
  function Inverse(n: Quat): Quat {
    Quat(-n.x, -n.y, -n.z, n.w)
  }

  function Inner(a: Quat, b: Quat): real {
    a.x * b.x + a.y * b.y + a.z * b.z + a.w * b.w
  }

  function Minus(a: Quat, b: Quat): Quat {
    Quat(a.x - b.x, a.y - b.y, a.z - b.z, a.w - b.w)
  }

  function Plus(a: Quat, b: Quat): Quat {
    Quat(a.x + b.x, a.y + b.y, a.z + b.z, a.w + b.w)
  }

  // One component of the product of a quaternion with its inverse and a third, and the product
  // under the inner product; as identities of real numbers.

  lemma UndoX(ax: real, ay: real, az: real, aw: real, bx: real, b2: real, bz: real, bw: real)
    ensures aw * (aw * bx + ax * bw + ay * bz - az * b2) + (-ax) * (aw * bw - ax * bx - ay * b2 - az * bz)
          + (-ay) * (aw * bz + ax * b2 - ay * bx + az * bw) - (-az) * (aw * b2 - ax * bz + ay * bw + az * bx)
         == bx * (ax * ax + ay * ay + az * az + aw * aw)
  {
  }

  lemma UndoY(ax: real, ay: real, az: real, aw: real, bx: real, b2: real, bz: real, bw: real)
    ensures aw * (aw * b2 - ax * bz + ay * bw + az * bx) - (-ax) * (aw * bz + ax * b2 - ay * bx + az * bw)
          + (-ay) * (aw * bw - ax * bx - ay * b2 - az * bz) + (-az) * (aw * bx + ax * bw + ay * bz - az * b2)
         == b2 * (ax * ax + ay * ay + az * az + aw * aw)
  {
  }

  lemma UndoZ(ax: real, ay: real, az: real, aw: real, bx: real, b2: real, bz: real, bw: real)
    ensures aw * (aw * bz + ax * b2 - ay * bx + az * bw) + (-ax) * (aw * b2 - ax * bz + ay * bw + az * bx)
          - (-ay) * (aw * bx + ax * bw + ay * bz - az * b2) + (-az) * (aw * bw - ax * bx - ay * b2 - az * bz)
         == bz * (ax * ax + ay * ay + az * az + aw * aw)
  {
  }

  lemma UndoW(ax: real, ay: real, az: real, aw: real, bx: real, b2: real, bz: real, bw: real)
    ensures aw * (aw * bw - ax * bx - ay * b2 - az * bz) - (-ax) * (aw * bx + ax * bw + ay * bz - az * b2)
          - (-ay) * (aw * b2 - ax * bz + ay * bw + az * bx) - (-az) * (aw * bz + ax * b2 - ay * bx + az * bw)
         == bw * (ax * ax + ay * ay + az * az + aw * aw)
  {
  }

  lemma Same(k: real, x: real, y: real)
    requires x == y
    ensures k * x == k * y
  {
  }

  lemma UndoneX(ax: real, ay: real, az: real, aw: real, bx: real, b2: real, bz: real, bw: real,
                 px: real, py: real, pz: real, pw: real)
    requires px == aw * bx + ax * bw + ay * bz - az * b2 && py == aw * b2 - ax * bz + ay * bw + az * bx
    requires pz == aw * bz + ax * b2 - ay * bx + az * bw && pw == aw * bw - ax * bx - ay * b2 - az * bz
    ensures aw * px + (-ax) * pw + (-ay) * pz - (-az) * py == bx * (ax * ax + ay * ay + az * az + aw * aw)
  {
    UndoX(ax, ay, az, aw, bx, b2, bz, bw);
    Same(aw, px, aw * bx + ax * bw + ay * bz - az * b2);
    Same(-ax, pw, aw * bw - ax * bx - ay * b2 - az * bz);
    Same(-ay, pz, aw * bz + ax * b2 - ay * bx + az * bw);
    Same(-az, py, aw * b2 - ax * bz + ay * bw + az * bx);
  }

  lemma UndoneY(ax: real, ay: real, az: real, aw: real, bx: real, b2: real, bz: real, bw: real,
                 px: real, py: real, pz: real, pw: real)
    requires px == aw * bx + ax * bw + ay * bz - az * b2 && py == aw * b2 - ax * bz + ay * bw + az * bx
    requires pz == aw * bz + ax * b2 - ay * bx + az * bw && pw == aw * bw - ax * bx - ay * b2 - az * bz
    ensures aw * py - (-ax) * pz + (-ay) * pw + (-az) * px == b2 * (ax * ax + ay * ay + az * az + aw * aw)
  {
    UndoY(ax, ay, az, aw, bx, b2, bz, bw);
    Same(aw, py, aw * b2 - ax * bz + ay * bw + az * bx);
    Same(-ax, pz, aw * bz + ax * b2 - ay * bx + az * bw);
    Same(-ay, pw, aw * bw - ax * bx - ay * b2 - az * bz);
    Same(-az, px, aw * bx + ax * bw + ay * bz - az * b2);
  }

  lemma UndoneZ(ax: real, ay: real, az: real, aw: real, bx: real, b2: real, bz: real, bw: real,
                 px: real, py: real, pz: real, pw: real)
    requires px == aw * bx + ax * bw + ay * bz - az * b2 && py == aw * b2 - ax * bz + ay * bw + az * bx
    requires pz == aw * bz + ax * b2 - ay * bx + az * bw && pw == aw * bw - ax * bx - ay * b2 - az * bz
    ensures aw * pz + (-ax) * py - (-ay) * px + (-az) * pw == bz * (ax * ax + ay * ay + az * az + aw * aw)
  {
    UndoZ(ax, ay, az, aw, bx, b2, bz, bw);
    Same(aw, pz, aw * bz + ax * b2 - ay * bx + az * bw);
    Same(-ax, py, aw * b2 - ax * bz + ay * bw + az * bx);
    Same(-ay, px, aw * bx + ax * bw + ay * bz - az * b2);
    Same(-az, pw, aw * bw - ax * bx - ay * b2 - az * bz);
  }

  lemma UndoneW(ax: real, ay: real, az: real, aw: real, bx: real, b2: real, bz: real, bw: real,
                 px: real, py: real, pz: real, pw: real)
    requires px == aw * bx + ax * bw + ay * bz - az * b2 && py == aw * b2 - ax * bz + ay * bw + az * bx
    requires pz == aw * bz + ax * b2 - ay * bx + az * bw && pw == aw * bw - ax * bx - ay * b2 - az * bz
    ensures aw * pw - (-ax) * px - (-ay) * py - (-az) * pz == bw * (ax * ax + ay * ay + az * az + aw * aw)
  {
    UndoW(ax, ay, az, aw, bx, b2, bz, bw);
    Same(aw, pw, aw * bw - ax * bx - ay * b2 - az * bz);
    Same(-ax, px, aw * bx + ax * bw + ay * bz - az * b2);
    Same(-ay, py, aw * b2 - ax * bz + ay * bw + az * bx);
    Same(-az, pz, aw * bz + ax * b2 - ay * bx + az * bw);
  }

  lemma Adjoint(ax: real, ay: real, az: real, aw: real, ux: real, uy: real, uz: real, uw: real,
                vx: real, vy: real, vz: real, vw: real, p: Quat, q: Quat)
    requires p.x == aw * ux + ax * uw + ay * uz - az * uy && p.y == aw * uy - ax * uz + ay * uw + az * ux
    requires p.z == aw * uz + ax * uy - ay * ux + az * uw && p.w == aw * uw - ax * ux - ay * uy - az * uz
    requires q.x == aw * vx + (-ax) * vw + (-ay) * vz - (-az) * vy && q.y == aw * vy - (-ax) * vz + (-ay) * vw + (-az) * vx
    requires q.z == aw * vz + (-ax) * vy - (-ay) * vx + (-az) * vw && q.w == aw * vw - (-ax) * vx - (-ay) * vy - (-az) * vz
    ensures p.x * vx + p.y * vy + p.z * vz + p.w * vw == ux * q.x + uy * q.y + uz * q.z + uw * q.w
  {
    AdjointTerms(ax, ay, az, aw, ux, uy, uz, uw, vx, vy, vz, vw);
  }

  lemma AdjointTerms(ax: real, ay: real, az: real, aw: real, ux: real, uy: real, uz: real, uw: real,
                     vx: real, vy: real, vz: real, vw: real)
    ensures (aw * ux + ax * uw + ay * uz - az * uy) * vx + (aw * uy - ax * uz + ay * uw + az * ux) * vy
          + (aw * uz + ax * uy - ay * ux + az * uw) * vz + (aw * uw - ax * ux - ay * uy - az * uz) * vw
         == ux * (aw * vx + (-ax) * vw + (-ay) * vz - (-az) * vy) + uy * (aw * vy - (-ax) * vz + (-ay) * vw + (-az) * vx)
          + uz * (aw * vz + (-ax) * vy - (-ay) * vx + (-az) * vw) + uw * (aw * vw - (-ax) * vx - (-ay) * vy - (-az) * vz)
  {
  }

  lemma ProductFields(a: Quat, u: Quat)
    ensures var p := Multiply(a, u);
            && p.x == a.w * u.x + a.x * u.w + a.y * u.z - a.z * u.y && p.y == a.w * u.y - a.x * u.z + a.y * u.w + a.z * u.x
            && p.z == a.w * u.z + a.x * u.y - a.y * u.x + a.z * u.w && p.w == a.w * u.w - a.x * u.x - a.y * u.y - a.z * u.z
  {
  }

  lemma InverseFields(a: Quat, v: Quat)
    ensures var q := Multiply(Inverse(a), v);
            && q.x == a.w * v.x + (-a.x) * v.w + (-a.y) * v.z - (-a.z) * v.y
            && q.y == a.w * v.y - (-a.x) * v.z + (-a.y) * v.w + (-a.z) * v.x
            && q.z == a.w * v.z + (-a.x) * v.y - (-a.y) * v.x + (-a.z) * v.w
            && q.w == a.w * v.w - (-a.x) * v.x - (-a.y) * v.y - (-a.z) * v.z
  {
  }

  lemma InverseUndoesX(a: Quat, b: Quat)
    ensures Multiply(Inverse(a), Multiply(a, b)).x == b.x * (a.x * a.x + a.y * a.y + a.z * a.z + a.w * a.w)
  {
    hide Multiply, Inverse;
    ProductFields(a, b);
    InverseFields(a, Multiply(a, b));
    var p := Multiply(a, b);
    UndoneX(a.x, a.y, a.z, a.w, b.x, b.y, b.z, b.w, p.x, p.y, p.z, p.w);
  }

  lemma InverseUndoesY(a: Quat, b: Quat)
    ensures Multiply(Inverse(a), Multiply(a, b)).y == b.y * (a.x * a.x + a.y * a.y + a.z * a.z + a.w * a.w)
  {
    hide Multiply, Inverse;
    ProductFields(a, b);
    InverseFields(a, Multiply(a, b));
    var p := Multiply(a, b);
    UndoneY(a.x, a.y, a.z, a.w, b.x, b.y, b.z, b.w, p.x, p.y, p.z, p.w);
  }

  lemma InverseUndoesZ(a: Quat, b: Quat)
    ensures Multiply(Inverse(a), Multiply(a, b)).z == b.z * (a.x * a.x + a.y * a.y + a.z * a.z + a.w * a.w)
  {
    hide Multiply, Inverse;
    ProductFields(a, b);
    InverseFields(a, Multiply(a, b));
    var p := Multiply(a, b);
    UndoneZ(a.x, a.y, a.z, a.w, b.x, b.y, b.z, b.w, p.x, p.y, p.z, p.w);
  }

  lemma InverseUndoesW(a: Quat, b: Quat)
    ensures Multiply(Inverse(a), Multiply(a, b)).w == b.w * (a.x * a.x + a.y * a.y + a.z * a.z + a.w * a.w)
  {
    hide Multiply, Inverse;
    ProductFields(a, b);
    InverseFields(a, Multiply(a, b));
    var p := Multiply(a, b);
    UndoneW(a.x, a.y, a.z, a.w, b.x, b.y, b.z, b.w, p.x, p.y, p.z, p.w);
  }

  /** Multiplying by the inverse undoes multiplying, up to the squared magnitude. */
  lemma InverseUndoes(a: Quat, b: Quat)
    ensures Multiply(Inverse(a), Multiply(a, b)) == Scale(b, Norm2(a))
  {
    hide Multiply, Inverse;
    InverseUndoesX(a, b);
    InverseUndoesY(a, b);
    InverseUndoesZ(a, b);
    InverseUndoesW(a, b);
  }

  lemma InverseIsAdjoint(a: Quat, u: Quat, v: Quat)
    ensures Inner(Multiply(a, u), v) == Inner(u, Multiply(Inverse(a), v))
  {
    hide Multiply, Inverse;
    ProductFields(a, u);
    InverseFields(a, v);
    Adjoint(a.x, a.y, a.z, a.w, u.x, u.y, u.z, u.w, v.x, v.y, v.z, v.w, Multiply(a, u), Multiply(Inverse(a), v));
  }

  lemma InnerScales(u: Quat, v: Quat, k: real)
    ensures Inner(u, Scale(v, k)) == Inner(u, v) * k
  {
  }

  lemma InnerIsNorm(q: Quat)
    ensures Inner(q, q) == Norm2(q)
  {
  }

  /** The magnitude of a product is the product of the magnitudes. */
  lemma NormMultiplies(a: Quat, b: Quat)
    ensures Norm2(Multiply(a, b)) == Norm2(b) * Norm2(a)
  {
    hide Norm2, Inner, Multiply, Scale, Inverse;
    InnerIsNorm(Multiply(a, b));
    InverseIsAdjoint(a, b, Multiply(a, b));
    InverseUndoes(a, b);
    InnerScales(b, b, Norm2(a));
    InnerIsNorm(b);
  }

  lemma NormOfInverse(n: Quat)
    ensures Norm2(Inverse(n)) == Norm2(n) && Inverse(Inverse(n)) == n
  {
  }

  /** quaternion_multiply of the head and the relative rotation is the hand's rotation again. */
  lemma RelativeIsExact(head: Quat, hand: Quat)
    requires Unit(head) && Unit(hand)
    ensures Unit(Multiply(Inverse(head), hand)) && Multiply(head, Multiply(Inverse(head), hand)) == hand
  {
    hide Norm2, Multiply, Inverse;
    NormOfInverse(head);
    NormMultiplies(Inverse(head), hand);
    InverseUndoes(Inverse(head), hand);
    ScaleByOne(hand);
  }

  lemma ScaleByOne(q: Quat)
    ensures Scale(q, 1.0) == q
  {
  }

  // ---------------------------------------------------------------- distances

  lemma NormOfDifference(a: Quat, b: Quat)
    ensures Norm2(Minus(a, b)) == Norm2(a) + Norm2(b) - 2.0 * Inner(a, b)
  {
    DifferenceTerm(a.x, b.x);
    DifferenceTerm(a.y, b.y);
    DifferenceTerm(a.z, b.z);
    DifferenceTerm(a.w, b.w);
  }

  lemma DifferenceTerm(a: real, b: real)
    ensures (a - b) * (a - b) == a * a + b * b - 2.0 * (a * b)
  {
  }

  lemma SumTerm(a: real, b: real)
    ensures (a + b) * (a + b) <= 2.0 * (a * a) + 2.0 * (b * b)
  {
    assert 2.0 * (a * a) + 2.0 * (b * b) - (a + b) * (a + b) == (a - b) * (a - b);
    SquareIsPositive(a - b);
  }

  lemma SquareIsPositive(a: real)
    ensures a * a >= 0.0
  {
  }

  lemma NormOfSum(a: Quat, b: Quat)
    ensures Norm2(Plus(a, b)) <= 2.0 * Norm2(a) + 2.0 * Norm2(b)
  {
    SumTerm(a.x, b.x);
    SumTerm(a.y, b.y);
    SumTerm(a.z, b.z);
    SumTerm(a.w, b.w);
  }

  lemma SplitTerms(p: real, q: real, r: real, s: real)
    ensures p * q - r * s == (p - r) * q + r * (q - s)
  {
  }

  lemma SplitX(a: Quat, b: Quat, c: Quat, d: Quat)
    ensures Minus(Multiply(a, b), Multiply(c, d)).x == Plus(Multiply(Minus(a, c), b), Multiply(c, Minus(b, d))).x
  {
    SplitTerms(a.w, b.x, c.w, d.x);
    SplitTerms(a.x, b.w, c.x, d.w);
    SplitTerms(a.y, b.z, c.y, d.z);
    SplitTerms(a.z, b.y, c.z, d.y);
  }

  lemma SplitY(a: Quat, b: Quat, c: Quat, d: Quat)
    ensures Minus(Multiply(a, b), Multiply(c, d)).y == Plus(Multiply(Minus(a, c), b), Multiply(c, Minus(b, d))).y
  {
    SplitTerms(a.w, b.y, c.w, d.y);
    SplitTerms(a.x, b.z, c.x, d.z);
    SplitTerms(a.y, b.w, c.y, d.w);
    SplitTerms(a.z, b.x, c.z, d.x);
  }

  lemma SplitZ(a: Quat, b: Quat, c: Quat, d: Quat)
    ensures Minus(Multiply(a, b), Multiply(c, d)).z == Plus(Multiply(Minus(a, c), b), Multiply(c, Minus(b, d))).z
  {
    SplitTerms(a.w, b.z, c.w, d.z);
    SplitTerms(a.x, b.y, c.x, d.y);
    SplitTerms(a.y, b.x, c.y, d.x);
    SplitTerms(a.z, b.w, c.z, d.w);
  }

  lemma SplitW(a: Quat, b: Quat, c: Quat, d: Quat)
    ensures Minus(Multiply(a, b), Multiply(c, d)).w == Plus(Multiply(Minus(a, c), b), Multiply(c, Minus(b, d))).w
  {
    SplitTerms(a.w, b.w, c.w, d.w);
    SplitTerms(a.x, b.x, c.x, d.x);
    SplitTerms(a.y, b.y, c.y, d.y);
    SplitTerms(a.z, b.z, c.z, d.z);
  }

  /** The error of a product is made up of the errors of its factors. */
  lemma ProductError(a: Quat, b: Quat, c: Quat, d: Quat)
    ensures Minus(Multiply(a, b), Multiply(c, d)) == Plus(Multiply(Minus(a, c), b), Multiply(c, Minus(b, d)))
  {
    hide Multiply, Minus, Plus;
    SplitX(a, b, c, d);
    SplitY(a, b, c, d);
    SplitZ(a, b, c, d);
    SplitW(a, b, c, d);
  }

  /** Unit quaternions whose factors are close have close products. */
  lemma ProductsAreClose(a: Quat, b: Quat, c: Quat, d: Quat, error: real)
    requires Unit(a) && Unit(b) && Unit(c) && Unit(d) && Inner(a, c) >= 1.0 - error && Inner(b, d) >= 1.0 - error
    ensures Unit(Multiply(c, d)) && Inner(Multiply(a, b), Multiply(c, d)) >= 1.0 - 4.0 * error
  {
    hide Norm2, Inner, Multiply, Minus, Plus;
    NormMultiplies(a, b);
    NormMultiplies(c, d);
    ProductError(a, b, c, d);
    NormOfSum(Multiply(Minus(a, c), b), Multiply(c, Minus(b, d)));
    NormMultiplies(Minus(a, c), b);
    NormMultiplies(c, Minus(b, d));
    NormOfDifference(a, c);
    NormOfDifference(b, d);
    NormOfDifference(Multiply(a, b), Multiply(c, d));
  }

  // ---------------------------------------------------------------- over the wire

  /** compress_quaternion_smallest_three. */
  function PackQuat(q: Quat, s: real): Packed
    requires IsRoot(s, Norm2(q))
  {
    Pack(Components(Normalize(q, s)))
  }

  /** What decompress_quaternion_smallest_three has before its last normalisation; `t` is the root of the residual. */
  function Unpack(p: Packed, t: real): Quat {
    QuatOf(Insert(Decoded(CodesOf(p)), IndexOf(p), t))
  }

  ghost predicate IsResidualRoot(p: Packed, t: real) {
    IsRoot(t, Positive(Residual(Decoded(CodesOf(p)))))
  }

  function Signed(q: Quat, negative: bool): Quat {
    if negative then Negate(q) else q
  }

  lemma InnerOfComponents(a: Quat, b: Quat)
    ensures Dot(Components(a), Components(b)) == Inner(a, b)
  {
  }

  lemma CanonicalIsSigned(n: Quat) returns (negative: bool)
    ensures Canonical(Components(n)) == Components(Signed(n, negative))
  {
    hide Largest;
    negative := Canonical(Components(n)) != Components(n);
    NegateIsFlip(n);
  }

  lemma SignedIsUnit(n: Quat, negative: bool)
    requires Unit(n)
    ensures Unit(Signed(n, negative))
  {
  }

  /** A unit quaternion is unpacked to a unit quaternion close to it or to its opposite. */
  lemma UnpackedIsClose(n: Quat, s: real, t: real, u: real) returns (negative: bool)
    requires Unit(n) && IsRoot(s, Norm2(n)) && IsResidualRoot(PackQuat(n, s), t)
    requires IsRoot(u, Norm2(Unpack(PackQuat(n, s), t)))
    ensures var d := Unpack(PackQuat(n, s), t);
            Unit(d) && Normalize(d, u) == d && Inner(Signed(n, negative), d) >= 1.0 - 0.000003
  {
    hide Norm2, Dot, Inner, Normalize, Canonical, Components, Residual, Decoded, CodesOf, IndexOf, Insert, Pack, Signed, Unit;
    PackingIsAccurate(n, s, t, u);
    NormalizeFixesUnit(n, s);
    negative := CanonicalIsSigned(n);
    var d := Unpack(PackQuat(n, s), t);
    NormalizeIsUnit(d, u);
    InnerOfComponents(Signed(n, negative), d);
  }

  lemma SignsMultiply(a: Quat, b: Quat, i: bool, j: bool)
    ensures Multiply(Signed(a, i), Signed(b, j)) == Signed(Multiply(a, b), i != j)
  {
    hide Multiply, Negate;
    NegateLeft(a, b);
    NegateRight(a, b);
    NegateRight(Negate(a), b);
    NegateTwice(Multiply(a, b));
  }

  lemma NegateTwice(q: Quat)
    ensures Negate(Negate(q)) == q
  {
  }

  lemma NegateLeft(a: Quat, b: Quat)
    ensures Multiply(Negate(a), b) == Negate(Multiply(a, b))
  {
    FourTerms(a.w, b.x, a.x, b.w, a.y, b.z, a.z, b.y);
    FourTerms(a.w, b.y, a.x, b.z, a.y, b.w, a.z, b.x);
    FourTerms(a.w, b.z, a.x, b.y, a.y, b.x, a.z, b.w);
    FourTerms(a.w, b.w, a.x, b.x, a.y, b.y, a.z, b.z);
  }

  lemma NegateRight(a: Quat, b: Quat)
    ensures Multiply(a, Negate(b)) == Negate(Multiply(a, b))
  {
    FourTerms(b.x, a.w, b.w, a.x, b.z, a.y, b.y, a.z);
    FourTerms(b.y, a.w, b.z, a.x, b.w, a.y, b.x, a.z);
    FourTerms(b.z, a.w, b.y, a.x, b.x, a.y, b.w, a.z);
    FourTerms(b.w, a.w, b.x, a.x, b.y, a.y, b.z, a.z);
  }

  lemma FourTerms(a: real, b: real, c: real, d: real, e: real, f: real, g: real, h: real)
    ensures (-a) * b == -(a * b) && (-c) * d == -(c * d) && (-e) * f == -(e * f) && (-g) * h == -(g * h)
    ensures b * (-a) == -(b * a) && d * (-c) == -(d * c) && f * (-e) == -(f * e) && h * (-g) == -(h * g)
  {
  }

  lemma SignedInner(a: Quat, b: Quat, negative: bool)
    ensures Inner(Signed(a, negative), b) == if negative then -Inner(a, b) else Inner(a, b)
  {
  }

  /**
  For every head and hand rotation: the rotation that the reader reconstructs for the hand is a
  unit quaternion that its last normalisation leaves alone, and its dot product with the hand's
  own rotation is at least 1 - 12e-6 in magnitude, although head and relative rotation are packed
  apart.
  */
  lemma HandRotationIsClose(head: Quat, hand: Quat, s1: real, t1: real, u1: real, s2: real, t2: real, u2: real, u: real)
    requires Unit(head) && Unit(hand) && IsRoot(s1, Norm2(head)) && IsRoot(s2, Norm2(Multiply(Inverse(head), hand)))
    requires var p := PackQuat(head, s1); IsResidualRoot(p, t1) && IsRoot(u1, Norm2(Unpack(p, t1)))
    requires var p := PackQuat(Multiply(Inverse(head), hand), s2);
             IsResidualRoot(p, t2) && IsRoot(u2, Norm2(Unpack(p, t2)))
    requires var headRot := Normalize(Unpack(PackQuat(head, s1), t1), u1);
             var relRot := Normalize(Unpack(PackQuat(Multiply(Inverse(head), hand), s2), t2), u2);
             IsRoot(u, Norm2(Multiply(headRot, relRot)))
    ensures var headRot := Normalize(Unpack(PackQuat(head, s1), t1), u1);
            var relRot := Normalize(Unpack(PackQuat(Multiply(Inverse(head), hand), s2), t2), u2);
            var r := Normalize(Multiply(headRot, relRot), u);
            Unit(r) && r == Multiply(headRot, relRot) && Abs(Inner(hand, r)) >= 1.0 - 0.000012
  {
    hide Norm2, Inner, Multiply, Inverse, Normalize, PackQuat, Unpack, IsRoot, IsResidualRoot, Signed;
    RelativeIsExact(head, hand);
    var relative := Multiply(Inverse(head), hand);
    var i := UnpackedIsClose(head, s1, t1, u1);
    var j := UnpackedIsClose(relative, s2, t2, u2);
    var c, d := Unpack(PackQuat(head, s1), t1), Unpack(PackQuat(relative, s2), t2);
    SignedIsUnit(head, i);
    SignedIsUnit(relative, j);
    ProductsAreClose(Signed(head, i), Signed(relative, j), c, d, 0.000003);
    SignsMultiply(head, relative, i, j);
    SignedInner(hand, Multiply(c, d), i != j);
    NormalizeFixesUnit(Multiply(c, d), u);
  }
}
