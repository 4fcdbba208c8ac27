/**
Smallest-three quaternion packing (src/protocol/pose_codec.cpp:114-199): the largest component
is dropped, the other three become ten bits each. Over exact reals, with roots as arguments: the
bounds on what packing loses are those of the ten bits, and rounding of floating-point numbers is
not part of them.
*/
module SmallestThree {
  import opened Quaternions
  import opened Quantise

  /** kQuatComponentMax; the lower bound is its negative. */
  const COMPONENT_MAX: real := 0.70710677

  type Packed = x: int | 0 <= x < 0x1_0000_0000

  // ---------------------------------------------------------------- one component

  function Clamp(x: real): (r: real)
    ensures -COMPONENT_MAX <= r <= COMPONENT_MAX
  {
    if x < -COMPONENT_MAX then -COMPONENT_MAX else if x > COMPONENT_MAX then COMPONENT_MAX else x
  }

  /** The ten bits of a component. */
  function Code(x: real): (r: nat)
    ensures r < 1024
  {
    var normalized := (Clamp(x) + COMPONENT_MAX) / (COMPONENT_MAX + COMPONENT_MAX);
    var scaled := Round(normalized * 1023.0);
    if scaled < 0 then 0 else if scaled > 1023 then 1023 else scaled
  }

  function Decode(v: nat): real {
    -COMPONENT_MAX + (COMPONENT_MAX + COMPONENT_MAX) * (v as real * (1.0 / 1023.0))
  }

  /** More than half a quantisation step plus what the clamp can take away. */
  const STEP_ERROR: real := 0.0006913

  lemma SquareGrows(b: real, x: real)
    requires 0.0 <= b <= x
    ensures b * b <= x * x
  {
    MultiplyKeepsOrder(b, x, b);
    MultiplyKeepsOrder(b, x, x);
  }

  lemma BelowRootHalf(x: real)
    requires 2.0 * (x * x) <= 1.0
    ensures -0.707106782 <= x <= 0.707106782
  {
    if x > 0.707106782 {
      SquareGrows(0.707106782, x);
    }
    if x < -0.707106782 {
      SquareGrows(0.707106782, -x);
    }
  }

  lemma CodeIsClose(x: real)
    requires 2.0 * (x * x) <= 1.0
    ensures Abs(Decode(Code(x)) - x) <= STEP_ERROR
  {
    BelowRootHalf(x);
    var normalized := (Clamp(x) + COMPONENT_MAX) / (COMPONENT_MAX + COMPONENT_MAX);
    var t := normalized * 1023.0;
    assert 0.0 <= t <= 1023.0;
    RoundIsMonotone(0.0, t);
    RoundIsMonotone(t, 1023.0);
    RoundFixesIntegers(0);
    RoundFixesIntegers(1023);
    RoundIsNearestEven(t, 0);
  }

  // ---------------------------------------------------------------- the error of one packing

  /** |x| <= k, with the product bound that follows. */
  lemma ProductBound(x: real, y: real, k: real, e: real)
    requires Abs(x) <= k && Abs(y) <= e
    ensures -(k * e) <= x * y <= k * e
  {
    var ax, ay := Abs(x), Abs(y);
    MultiplyKeepsOrder(ax, k, ay);
    MultiplyKeepsOrder(ay, e, k);
    assert ax * ay <= k * e;
    ProductOfNonNegatives(ax, ay);
    assert x * y == ax * ay || x * y == -(ax * ay);
  }

  lemma SquareBound(y: real, e: real)
    requires Abs(y) <= e
    ensures 0.0 <= y * y <= e * e
  {
    ProductBound(y, y, e, e);
  }

  /** What one component's error does to its square. */
  lemma SquareShift(x: real, d: real, m: real)
    requires Abs(x) <= m && Abs(d - x) <= STEP_ERROR
    ensures -(2.0 * m * STEP_ERROR) <= d * d - x * x <= 2.0 * m * STEP_ERROR + STEP_ERROR * STEP_ERROR
  {
    var err := d - x;
    ProductBound(x, err, m, STEP_ERROR);
    SquareBound(err, STEP_ERROR);
    assert d * d == x * x + 2.0 * (x * err) + err * err;
  }

  lemma LargestIsHalf(a: real, b: real, c: real, m: real)
    requires a * a + b * b + c * c + m * m == 1.0
    requires Abs(a) <= m && Abs(b) <= m && Abs(c) <= m
    ensures m >= 0.5
  {
    SquareBound(a, m);
    SquareBound(b, m);
    SquareBound(c, m);
    if m < 0.5 {
      SquareBound(m, 0.5);
      MultiplyKeepsOrder(m, 0.5, m);
    }
  }

  /** The residual that the decoder takes the root of, between bounds in the dropped component. */
  lemma ResidualBounds(a: real, b: real, c: real, m: real, da: real, db: real, dc: real)
    requires a * a + b * b + c * c + m * m == 1.0
    requires Abs(a) <= m && Abs(b) <= m && Abs(c) <= m
    requires Abs(da - a) <= STEP_ERROR && Abs(db - b) <= STEP_ERROR && Abs(dc - c) <= STEP_ERROR
    ensures var r := 1.0 - (da * da + db * db + dc * dc);
            && m * m - 6.0 * m * STEP_ERROR - 3.0 * (STEP_ERROR * STEP_ERROR) <= r <= m * m + 6.0 * m * STEP_ERROR
            && r >= 0.24
    ensures m >= 0.5
  {
    LargestIsHalf(a, b, c, m);
    SquareShift(a, da, m);
    SquareShift(b, db, m);
    SquareShift(c, dc, m);
    HalfSquare(m);
    ResidualSum(a * a, b * b, c * c, m * m, da * da, db * db, dc * dc, m * STEP_ERROR);
  }

  lemma HalfSquare(m: real)
    requires m >= 0.5
    ensures m * m - 6.0 * m * STEP_ERROR >= 0.25 - 3.0 * STEP_ERROR
  {
    var k := m - 6.0 * STEP_ERROR;
    MultiplyKeepsOrder(0.5, m, k);
    assert m * k == m * m - 6.0 * m * STEP_ERROR;
  }

  /** The squares as plain numbers; `me` stands for the dropped component times the step error. */
  lemma ResidualSum(aa: real, bb: real, cc: real, mm: real, daa: real, dbb: real, dcc: real, me: real)
    requires aa + bb + cc + mm == 1.0
    requires -(2.0 * me) <= daa - aa <= 2.0 * me + STEP_ERROR * STEP_ERROR
    requires -(2.0 * me) <= dbb - bb <= 2.0 * me + STEP_ERROR * STEP_ERROR
    requires -(2.0 * me) <= dcc - cc <= 2.0 * me + STEP_ERROR * STEP_ERROR
    ensures var r := 1.0 - (daa + dbb + dcc);
            mm - 6.0 * me - 3.0 * (STEP_ERROR * STEP_ERROR) <= r <= mm + 6.0 * me
  {
  }

  /** The recovered component is within 0.0021 of the dropped one. */
  lemma RootIsClose(m: real, r: real, t: real)
    requires m >= 0.5 && IsRoot(t, r)
    requires m * m - 6.0 * m * STEP_ERROR - 3.0 * (STEP_ERROR * STEP_ERROR) <= r <= m * m + 6.0 * m * STEP_ERROR
    ensures Abs(t - m) <= 0.0021
  {
    var hi, lo := m + 0.0021, m - 0.0021;
    assert hi * hi == m * m + 0.0042 * m + 0.0021 * 0.0021;
    assert lo * lo == m * m - 0.0042 * m + 0.0021 * 0.0021;
    if t > hi {
      StrictSquare(hi, t);
    }
    if t < lo {
      StrictSquare(t, lo);
    }
  }

  lemma StrictSquare(s: real, t: real)
    requires 0.0 <= s < t
    ensures s * s < t * t
  {
    var d, p := t - s, t + s;
    assert d * p > 0.0;
    assert d * p == t * t - s * s;
  }

  /** Two unit vectors that differ by little have a dot product close to one. */
  lemma DotIsClose(a: real, b: real, c: real, m: real, da: real, db: real, dc: real, t: real)
    requires a * a + b * b + c * c + m * m == 1.0 && da * da + db * db + dc * dc + t * t == 1.0
    requires Abs(da - a) <= STEP_ERROR && Abs(db - b) <= STEP_ERROR && Abs(dc - c) <= STEP_ERROR
    requires Abs(t - m) <= 0.0021
    ensures a * da + b * db + c * dc + m * t >= 1.0 - 0.000003
  {
    DotTerm(a, da, STEP_ERROR);
    DotTerm(b, db, STEP_ERROR);
    DotTerm(c, dc, STEP_ERROR);
    DotTerm(m, t, 0.0021);
    DotSum(a * a, b * b, c * c, m * m, da * da, db * db, dc * dc, t * t, a * da, b * db, c * dc, m * t);
  }

  lemma DotTerm(x: real, d: real, k: real)
    requires Abs(d - x) <= k
    ensures 2.0 * (x * d) >= x * x + d * d - k * k
  {
    var err := d - x;
    SquareBound(err, k);
    assert err * err == d * d - 2.0 * (x * d) + x * x;
  }

  lemma DotSum(aa: real, bb: real, cc: real, mm: real, daa: real, dbb: real, dcc: real, tt: real,
               ad: real, bd: real, cd: real, mt: real)
    requires aa + bb + cc + mm == 1.0 && daa + dbb + dcc + tt == 1.0
    requires 2.0 * ad >= aa + daa - STEP_ERROR * STEP_ERROR && 2.0 * bd >= bb + dbb - STEP_ERROR * STEP_ERROR
    requires 2.0 * cd >= cc + dcc - STEP_ERROR * STEP_ERROR && 2.0 * mt >= mm + tt - 0.0021 * 0.0021
    ensures ad + bd + cd + mt >= 1.0 - 0.000003
  {
  }

  // ---------------------------------------------------------------- packing

  /** Four components in the order x, y, z, w. */
  type Values = v: seq<real> | |v| == 4 witness [0.0, 0.0, 0.0, 1.0]

  function Components(q: Quat): Values {
    [q.x, q.y, q.z, q.w]
  }

  /** The first index of greatest magnitude, from `i` on against the best so far. */
  function LargestFrom(v: Values, i: nat, best: nat): (r: nat)
    requires i <= 4 && best < 4
    ensures r < 4
    decreases 4 - i
  {
    if i == 4 then best else LargestFrom(v, i + 1, if Abs(v[i]) > Abs(v[best]) then i else best)
  }

  function Largest(v: Values): (r: nat)
    ensures r < 4
  {
    LargestFrom(v, 1, 0)
  }

  lemma {:induction false} LargestFromIsMax(v: Values, i: nat, best: nat)
    requires i <= 4 && best < 4 && forall j :: 0 <= j < i ==> Abs(v[j]) <= Abs(v[best])
    ensures forall j :: 0 <= j < 4 ==> Abs(v[j]) <= Abs(v[LargestFrom(v, i, best)])
    decreases 4 - i
  {
    if i < 4 {
      LargestFromIsMax(v, i + 1, if Abs(v[i]) > Abs(v[best]) then i else best);
    }
  }

  function Flip(v: Values): Values {
    [-v[0], -v[1], -v[2], -v[3]]
  }

  /** The sign choice that makes the largest component non-negative. */
  function Canonical(v: Values): Values {
    if v[Largest(v)] < 0.0 then Flip(v) else v
  }

  /** The three components that are sent. */
  function Rest3(v: Values, drop: nat): (r: seq<real>)
    requires drop < 4
    ensures |r| == 3
  {
    v[..drop] + v[drop + 1..]
  }

  /** The bits of three codes and an index, `writes` codes in. */
  function Assemble(index: nat, codes: seq<nat>, writes: nat): nat
    requires writes <= |codes| && |codes| == 3
  {
    index * 0x4000_0000
    + (if writes > 0 then codes[0] * 0x10_0000 else 0)
    + (if writes > 1 then codes[1] * 0x400 else 0)
    + (if writes > 2 then codes[2] else 0)
  }

  function Codes(r: seq<real>): (c: seq<nat>)
    requires |r| == 3
    ensures |c| == 3 && forall i :: 0 <= i < 3 ==> c[i] < 1024
  {
    [Code(r[0]), Code(r[1]), Code(r[2])]
  }

  function Pack(v: Values): Packed {
    var index := Largest(v);
    Assemble(index, Codes(Rest3(Canonical(v), index)), 3)
  }

  /** compress_quaternion_smallest_three; `s` is the magnitude. */
  method Compress(q: Quat, s: real) returns (packed: Packed)
    requires IsRoot(s, Norm2(q))
    ensures packed == Pack(Components(Normalize(q, s)))
  {
    hide Normalize, Code;
    var n := Normalize(q, s);
    var values: Values := [n.x, n.y, n.z, n.w];
    var largest := 0;
    for i := 1 to 4
      invariant largest < 4 && LargestFrom(values, i, largest) == Largest(values)
    {
      if Abs(values[i]) > Abs(values[largest]) {
        largest := i;
      }
    }
    if values[largest] < 0.0 {
      values := [-values[0], -values[1], -values[2], -values[3]];
    }
    assert values == Canonical(Components(n));
    ghost var rest := Rest3(values, largest);
    var bits, writeIndex := largest * 0x4000_0000, 0;
    for i := 0 to 4
      invariant writeIndex == if i <= largest then i else i - 1
      invariant bits == Assemble(largest, Codes(rest), writeIndex)
    {
      if i != largest {
        assert rest[writeIndex] == values[i];
        var scaled := Code(values[i]);
        bits := bits + scaled * Shifted(writeIndex);
        writeIndex := writeIndex + 1;
      }
    }
    packed := bits;
  }

  /** One shifted left by 20, 10 or 0 bits. */
  function Shifted(writeIndex: nat): nat {
    if writeIndex == 0 then 0x10_0000 else if writeIndex == 1 then 0x400 else 1
  }

  lemma {:induction false} LargestFromIsFirst(v: Values, i: nat, best: nat)
    requires i <= 4 && best < i
    requires forall j :: 0 <= j < i ==> Abs(v[j]) <= Abs(v[best])
    requires forall j :: 0 <= j < best ==> Abs(v[j]) < Abs(v[best])
    ensures var r := LargestFrom(v, i, best);
            && (forall j :: 0 <= j < 4 ==> Abs(v[j]) <= Abs(v[r])) && (forall j :: 0 <= j < r ==> Abs(v[j]) < Abs(v[r]))
    decreases 4 - i
  {
    if i < 4 {
      LargestFromIsFirst(v, i + 1, if Abs(v[i]) > Abs(v[best]) then i else best);
    }
  }

  /**
  The layout of the word: bits 31 and 30 hold the index of the first component of greatest
  magnitude; then ten bits each the other three in order, all with the sign that makes that one
  positive.
  */
  lemma PackedLayout(v: Values) returns (index: nat, sign: real)
    ensures index < 4 && sign == if v[index] < 0.0 then -1.0 else 1.0
    ensures forall j :: 0 <= j < 4 ==> Abs(v[j]) <= Abs(v[index])
    ensures forall j :: 0 <= j < index ==> Abs(v[j]) < Abs(v[index])
    ensures var first, second, third := if index == 0 then 1 else 0, if index <= 1 then 2 else 1, if index <= 2 then 3 else 2;
            Pack(v) == index * 1073741824 + Code(sign * v[first]) * 1048576 + Code(sign * v[second]) * 1024 + Code(sign * v[third])
  {
    hide Code, LargestFrom, Assemble, Abs;
    LargestFromIsFirst(v, 1, 0);
    index := Largest(v);
    sign := if v[index] < 0.0 then -1.0 else 1.0;
    var o := Canonical(v);
    assert o[0] == sign * v[0] && o[1] == sign * v[1] && o[2] == sign * v[2] && o[3] == sign * v[3];
    var rest := Rest3(o, index);
    assert rest[0] == o[if index == 0 then 1 else 0] && rest[1] == o[if index <= 1 then 2 else 1];
    assert rest[2] == o[if index <= 2 then 3 else 2];
    AssembleAll(index, Codes(rest));
  }

  lemma AssembleAll(index: nat, codes: seq<nat>)
    requires |codes| == 3
    ensures Assemble(index, codes, 3) == index * 1073741824 + codes[0] * 1048576 + codes[1] * 1024 + codes[2]
  {
  }

  /** Ten bits divide the span from -0.70710677 to 0.70710677 into 1023 steps; the nearest is taken. */
  lemma CodeIsNearest(x: real, n: int)
    requires -0.70710677 <= x <= 0.70710677
    ensures var t := (x + 0.70710677) / 1.41421354 * 1023.0;
            Abs(Code(x) as real - t) <= Abs(n as real - t) && Decode(Code(x)) == Code(x) as real * 1.41421354 / 1023.0 - 0.70710677
  {
    var t := (x + 0.70710677) / 1.41421354 * 1023.0;
    assert 0.0 <= t <= 1023.0;
    RoundIsMonotone(0.0, t);
    RoundIsMonotone(t, 1023.0);
    RoundFixesIntegers(0);
    RoundFixesIntegers(1023);
    RoundIsNearestEven(t, n);
  }

  // ---------------------------------------------------------------- unpacking

  function IndexOf(p: Packed): (r: nat)
    ensures r < 4
  {
    p / 0x4000_0000
  }

  function CodesOf(p: Packed): (c: seq<nat>)
    ensures |c| == 3
  {
    [p / 0x10_0000 % 1024, p / 0x400 % 1024, p % 1024]
  }

  lemma FieldsSurvive(index: nat, codes: seq<nat>)
    requires index < 4 && |codes| == 3 && forall i :: 0 <= i < 3 ==> codes[i] < 1024
    ensures var p := Assemble(index, codes, 3);
            p < 0x1_0000_0000 && IndexOf(p) == index && CodesOf(p) == codes
  {
    var p := Assemble(index, codes, 3);
    var high := index * 1024 + codes[0];
    var mid := high * 1024 + codes[1];
    assert p == mid * 1024 + codes[2];
    assert p / 0x400 == mid && p / 0x10_0000 == high;
  }

  function Decoded(c: seq<nat>): (r: seq<real>)
    requires |c| == 3
    ensures |r| == 3
  {
    [Decode(c[0]), Decode(c[1]), Decode(c[2])]
  }

  /** The decoder's guard before it takes the root. */
  function Positive(x: real): real {
    if x > 0.0 then x else 0.0
  }

  function Residual(r: seq<real>): real
    requires |r| == 3
  {
    1.0 - (r[0] * r[0] + r[1] * r[1] + r[2] * r[2])
  }

  function Insert(r: seq<real>, index: nat, x: real): Values
    requires |r| == 3 && index < 4
  {
    r[..index] + [x] + r[index..]
  }

  function QuatOf(v: Values): Quat {
    Quat(v[0], v[1], v[2], v[3])
  }

  function SumOfFirst(r: seq<real>, k: nat): real
    requires k <= |r|
  {
    if k == 0 then 0.0 else SumOfFirst(r, k - 1) + r[k - 1] * r[k - 1]
  }

  /** The second loop of the decoder: the squares of all components but the largest. */
  method SumSquares(values: Values, largest: nat, ghost r: seq<real>) returns (sum: real)
    requires largest < 4 && |r| == 3
    requires forall j :: 0 <= j < largest ==> values[j] == r[j]
    requires forall j :: largest < j < 4 ==> values[j] == r[j - 1]
    ensures 1.0 - sum == Residual(r)
  {
    sum := 0.0;
    for i := 0 to 4
      invariant sum == SumOfFirst(r, if i <= largest then i else i - 1)
    {
      if i != largest {
        sum := sum + values[i] * values[i];
      }
    }
    assert SumOfFirst(r, 1) == r[0] * r[0];
    assert SumOfFirst(r, 2) == r[0] * r[0] + r[1] * r[1];
  }

  /**
  decompress_quaternion_smallest_three; `t` is the root of the residual that the program
  computes and reports here, `u` the magnitude.
  */
  method Decompress(p: Packed, t: real, u: real) returns (q: Quat, residual: real)
    requires var r := Decoded(CodesOf(p)); IsRoot(t, Positive(Residual(r)))
    requires IsRoot(u, Norm2(QuatOf(Insert(Decoded(CodesOf(p)), IndexOf(p), t))))
    ensures residual == Residual(Decoded(CodesOf(p)))
    ensures q == Normalize(QuatOf(Insert(Decoded(CodesOf(p)), IndexOf(p), t)), u)
  {
    hide Normalize, Decode, Residual;
    var largest := IndexOf(p);
    var readValues := CodesOf(p);
    ghost var parts := Decoded(readValues);
    var values: Values := [0.0, 0.0, 0.0, 0.0];
    var readIndex := 0;
    for i := 0 to 4
      invariant readIndex == if i <= largest then i else i - 1
      invariant forall j :: 0 <= j < i && j < largest ==> values[j] == parts[j]
      invariant forall j :: largest < j < i ==> values[j] == parts[j - 1]
    {
      if i != largest {
        values := values[i := Decode(readValues[readIndex])];
        readIndex := readIndex + 1;
      }
    }
    var sum := SumSquares(values, largest, parts);
    residual := 1.0 - sum;
    values := values[largest := t];
    assert values == Insert(parts, largest, t);
    q := Normalize(QuatOf(values), u);
  }

  // ---------------------------------------------------------------- accuracy

  function Sum2(v: Values): real {
    v[0] * v[0] + v[1] * v[1] + v[2] * v[2] + v[3] * v[3]
  }

  function Dot(v: Values, d: Values): real {
    v[0] * d[0] + v[1] * d[1] + v[2] * d[2] + v[3] * d[3]
  }

  /** Unit length, with the component at `index` positive and the greatest in magnitude. */
  ghost predicate Led(v: Values, index: nat) {
    index < 4 && Sum2(v) == 1.0 && v[index] > 0.0 && forall i :: 0 <= i < 4 ==> Abs(v[i]) <= v[index]
  }

  lemma FlipKeeps(v: Values)
    ensures Sum2(Flip(v)) == Sum2(v) && forall i :: 0 <= i < 4 ==> Abs(Flip(v)[i]) == Abs(v[i])
  {
  }

  lemma AllZero(v: Values)
    requires forall i :: 0 <= i < 4 ==> Abs(v[i]) <= 0.0
    ensures Sum2(v) == 0.0
  {
    assert v[0] == 0.0 && v[1] == 0.0 && v[2] == 0.0 && v[3] == 0.0;
  }

  lemma CanonicalIsLed(v: Values)
    requires Sum2(v) == 1.0
    ensures Led(Canonical(v), Largest(v))
  {
    hide Sum2, Flip, LargestFrom;
    LargestFromIsMax(v, 1, 0);
    FlipKeeps(v);
    var top := v[Largest(v)];
    if top == 0.0 {
      AllZero(v);
    } else if top < 0.0 {
      FlipAt(v, Largest(v));
    }
  }

  lemma FlipAt(v: Values, i: nat)
    requires i < 4
    ensures Flip(v)[i] == -v[i]
  {
  }

  /** Dropping the component at `index` and putting it back. */
  lemma DropAndInsert(v: Values, index: nat, d: Values)
    requires index < 4
    ensures var r, e := Rest3(v, index), Rest3(d, index);
            && Sum2(v) == r[0] * r[0] + r[1] * r[1] + r[2] * r[2] + v[index] * v[index]
            && Dot(v, d) == r[0] * e[0] + r[1] * e[1] + r[2] * e[2] + v[index] * d[index]
  {
  }

  lemma OtherIsSmall(x: real, m: real, rest: real)
    requires x * x + m * m + rest == 1.0 && rest >= 0.0 && Abs(x) <= m
    ensures 2.0 * (x * x) <= 1.0
  {
    SquareBound(x, m);
  }

  /** Three components and the fourth, `m`, of a unit quaternion led by `m`. */
  ghost predicate Three(o: seq<real>, m: real) {
    && |o| == 3
    && o[0] * o[0] + o[1] * o[1] + o[2] * o[2] + m * m == 1.0
    && Abs(o[0]) <= m && Abs(o[1]) <= m && Abs(o[2]) <= m
  }

  /** Decoded components `r` and `t` that come close to `o` and `m`. */
  ghost predicate ThreeClose(o: seq<real>, m: real, r: seq<real>, t: real) {
    && |o| == 3 && |r| == 3
    && r[0] * r[0] + r[1] * r[1] + r[2] * r[2] + t * t == 1.0
    && (forall i :: 0 <= i < 3 ==> Abs(r[i] - o[i]) <= STEP_ERROR)
    && Abs(t - m) <= 0.0021
    && o[0] * r[0] + o[1] * r[1] + o[2] * r[2] + m * t >= 1.0 - 0.000003
  }

  /** What the decoder makes of the three components that were sent, and of the one that was not. */
  lemma ThreeAreAccurate(o: seq<real>, m: real, t: real)
    requires Three(o, m)
    requires var r := Decoded(Codes(o)); IsRoot(t, Positive(Residual(r)))
    ensures var r := Decoded(Codes(o)); Residual(r) >= 0.24 && ThreeClose(o, m, r, t)
  {
    hide Decoded, Codes, IsRoot, Abs, Positive;
    var r := Decoded(Codes(o));
    RestIsClose(o, m);
    ScalarsAreAccurate(o[0], o[1], o[2], m, r[0], r[1], r[2], Residual(r), t);
  }

  lemma ScalarsAreAccurate(a: real, b: real, c: real, m: real, da: real, db: real, dc: real, residual: real, t: real)
    requires a * a + b * b + c * c + m * m == 1.0
    requires Abs(a) <= m && Abs(b) <= m && Abs(c) <= m
    requires Abs(da - a) <= STEP_ERROR && Abs(db - b) <= STEP_ERROR && Abs(dc - c) <= STEP_ERROR
    requires residual == 1.0 - (da * da + db * db + dc * dc) && IsRoot(t, Positive(residual))
    ensures residual >= 0.24
    ensures da * da + db * db + dc * dc + t * t == 1.0
    ensures Abs(t - m) <= 0.0021
    ensures a * da + b * db + c * dc + m * t >= 1.0 - 0.000003
  {
    hide Abs;
    ResidualBounds(a, b, c, m, da, db, dc);
    RootIsClose(m, residual, t);
    DotIsClose(a, b, c, m, da, db, dc, t);
  }

  /** What comes out of the decoder for a canonical unit quaternion, before it is normalised. */
  ghost predicate Accurate(v: Values, d: Values) {
    Sum2(d) == 1.0 && Dot(v, d) >= 1.0 - 0.000003 && forall i :: 0 <= i < 4 ==> Abs(d[i] - v[i]) <= 0.0022
  }

  lemma LedIsThree(v: Values, index: nat)
    requires Led(v, index)
    ensures index < 4 && Three(Rest3(v, index), v[index])
  {
    hide Sum2, Abs;
    DropAndInsert(v, index, v);
    var o := Rest3(v, index);
    assert o[0] in v && o[1] in v && o[2] in v;
  }

  lemma CloseIsAccurate(v: Values, index: nat, r: seq<real>, t: real)
    requires index < 4 && ThreeClose(Rest3(v, index), v[index], r, t)
    ensures Accurate(v, Insert(r, index, t))
  {
    hide Sum2, Dot, Abs;
    var d := Insert(r, index, t);
    assert Rest3(d, index) == r && d[index] == t;
    DropAndInsert(v, index, d);
    DropAndInsert(d, index, d);
    CloseEverywhere(v, d, index);
  }

  lemma UnpackIsAccurate(v: Values, index: nat, t: real)
    requires Led(v, index)
    requires var r := Decoded(Codes(Rest3(v, index))); IsRoot(t, Positive(Residual(r)))
    ensures var r := Decoded(Codes(Rest3(v, index)));
            Residual(r) >= 0.24 && Accurate(v, Insert(r, index, t))
  {
    hide Decoded, Codes, Residual, IsRoot, Positive, Three, ThreeClose, Accurate, Insert;
    LedIsThree(v, index);
    ThreeAreAccurate(Rest3(v, index), v[index], t);
    CloseIsAccurate(v, index, Decoded(Codes(Rest3(v, index))), t);
  }

  lemma CloseEverywhere(v: Values, d: Values, index: nat)
    requires index < 4 && Abs(d[index] - v[index]) <= 0.0021
    requires forall k :: 0 <= k < 3 ==> Abs(Rest3(d, index)[k] - Rest3(v, index)[k]) <= STEP_ERROR
    ensures forall i :: 0 <= i < 4 ==> Abs(d[i] - v[i]) <= 0.0022
  {
    forall i | 0 <= i < 4 ensures Abs(d[i] - v[i]) <= 0.0022 {
      if i != index {
        var k := if i < index then i else i - 1;
        assert Rest3(d, index)[k] == d[i] && Rest3(v, index)[k] == v[i];
      }
    }
  }

  lemma RestIsClose(o: seq<real>, m: real)
    requires Three(o, m)
    ensures forall i :: 0 <= i < 3 ==> Abs(Decoded(Codes(o))[i] - o[i]) <= STEP_ERROR
  {
    hide Code, Decode;
    SquareBound(o[0], m);
    SquareBound(o[1], m);
    SquareBound(o[2], m);
    OtherIsSmall(o[0], m, o[1] * o[1] + o[2] * o[2]);
    OtherIsSmall(o[1], m, o[0] * o[0] + o[2] * o[2]);
    OtherIsSmall(o[2], m, o[0] * o[0] + o[1] * o[1]);
    CodeIsClose(o[0]);
    CodeIsClose(o[1]);
    CodeIsClose(o[2]);
  }

  /**
  For every quaternion, packing and unpacking gives back the sign-canonical unit quaternion up
  to 0.0022 in each component, with a dot product of at least 1 - 3e-6. The decoder's residual
  stays above 0.24, so its clamp never acts, and its final normalisation changes nothing.
  */
  lemma PackingIsAccurate(q: Quat, s: real, t: real, u: real)
    requires IsRoot(s, Norm2(q))
    requires var r := Decoded(CodesOf(Pack(Components(Normalize(q, s)))));
             IsRoot(t, Positive(Residual(r)))
    requires var p := Pack(Components(Normalize(q, s)));
             IsRoot(u, Norm2(QuatOf(Insert(Decoded(CodesOf(p)), IndexOf(p), t))))
    ensures var v := Canonical(Components(Normalize(q, s)));
            var p := Pack(Components(Normalize(q, s)));
            var raw := QuatOf(Insert(Decoded(CodesOf(p)), IndexOf(p), t));
            var d := Components(Normalize(raw, u));
            && Residual(Decoded(CodesOf(p))) >= 0.24
            && Normalize(raw, u) == raw
            && (forall i :: 0 <= i < 4 ==> Abs(d[i] - v[i]) <= 0.0022)
            && Dot(v, d) >= 1.0 - 0.000003
  {
    hide Normalize, Code, Decode, Codes, Decoded, Largest, Canonical, IndexOf, CodesOf, Assemble, Sum2, Norm2, Dot,
         Residual, Insert, Led;
    var n := Components(Normalize(q, s));
    var index := Largest(n);
    NormalizeIsUnit(q, s);
    SumOfComponents(Normalize(q, s));
    CanonicalIsLed(n);
    LedIndex(Canonical(n), index);
    FieldsSurvive(index, Codes(Rest3(Canonical(n), index)));
    UnpackIsAccurate(Canonical(n), index, t);
    var raw := QuatOf(Insert(Decoded(CodesOf(Pack(n))), IndexOf(Pack(n)), t));
    SumOfComponents(raw);
    assert Components(raw) == Insert(Decoded(CodesOf(Pack(n))), IndexOf(Pack(n)), t);
    NormalizeFixesUnit(raw, u);
  }

  lemma SumOfComponents(q: Quat)
    ensures Sum2(Components(q)) == Norm2(q)
  {
  }

  lemma LedIndex(v: Values, index: nat)
    requires Led(v, index)
    ensures index < 4
  {
  }

  // ---------------------------------------------------------------- opposite quaternions

  lemma {:induction false} LargestIgnoresSign(v: Values, i: nat, best: nat)
    requires i <= 4 && best < 4
    ensures LargestFrom(Flip(v), i, best) == LargestFrom(v, i, best)
    decreases 4 - i
  {
    if i < 4 {
      assert Abs(Flip(v)[i]) == Abs(v[i]) && Abs(Flip(v)[best]) == Abs(v[best]);
      LargestIgnoresSign(v, i + 1, if Abs(v[i]) > Abs(v[best]) then i else best);
    }
  }

  /** q and -q denote the same rotation and pack to the same bits. */
  lemma OppositesPackAlike(q: Quat, s: real)
    requires IsRoot(s, Norm2(q))
    ensures IsRoot(s, Norm2(Negate(q)))
    ensures Pack(Components(Normalize(Negate(q), s))) == Pack(Components(Normalize(q, s)))
  {
    NormalizeNegates(q, s);
    if !Degenerate(q) {
      hide Normalize, Codes, Norm2, Sum2, LargestFrom, Assemble, Negate;
      var v := Components(Normalize(q, s));
      NormalizeIsUnit(q, s);
      SumOfComponents(Normalize(q, s));
      CanonicalIsLed(v);
      LargestIgnoresSign(v, 1, 0);
      NegateIsFlip(Normalize(q, s));
      assert Flip(Flip(v)) == v;
      assert Canonical(Flip(v)) == Canonical(v);
    }
  }

  lemma NegateIsFlip(q: Quat)
    ensures Components(Negate(q)) == Flip(Components(q))
  {
  }
}
