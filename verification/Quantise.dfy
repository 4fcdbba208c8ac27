/**
Rounding and quantising of pose_codec (src/protocol/pose_codec.cpp:9-60), over exact reals:
floating-point rounding, infinities and NaN are outside this model.
*/
module Quantise {
  import opened Bytes

  const ABS_POS_SCALE: real := 0.01
  const LOCO_POS_SCALE: real := 0.01
  const REL_POS_SCALE: real := 0.005
  const YAW_SCALE: real := 0.1

  function Abs(x: real): real {
    if x < 0.0 then -x else x
  }

  /** round_half_to_even. */
  function Round(x: real): int {
    var lower := x.Floor;
    var fraction := x - lower as real;
    if fraction > 0.5 then lower + 1
    else if fraction < 0.5 then lower
    else if lower % 2 == 0 then lower else lower + 1
  }

  /** The result is a nearest integer, and the even one of two. */
  lemma RoundIsNearestEven(x: real, n: int)
    ensures Abs(Round(x) as real - x) <= Abs(n as real - x)
    ensures Abs(Round(x) as real - x) <= 0.5
    ensures Abs(Round(x) as real - x) == 0.5 ==> Round(x) % 2 == 0
  {
    var lower := x.Floor;
    assert n <= lower || n >= lower + 1;
  }

  lemma RoundIsMonotone(x: real, y: real)
    requires x <= y
    ensures Round(x) <= Round(y)
  {
    assert x.Floor <= y.Floor;
  }

  lemma RoundFixesIntegers(n: int)
    ensures Round(n as real) == n
  {
    assert (n as real).Floor == n;
  }

  // ---------------------------------------------------------------- quantisers

  /** clamp_rounded. */
  function ClampRounded(scaled: real, lo: int, hi: int): (r: int)
    requires lo <= hi
    ensures lo <= r <= hi
  {
    var rounded := Round(scaled);
    if rounded < lo then lo else if rounded > hi then hi else rounded
  }

  /** quantize_signed and quantize_signed_int24, for their two ranges. */
  function Quantize(value: real, scale: real, lo: int, hi: int): (r: int)
    requires lo <= 0 <= hi
    ensures lo <= r <= hi
  {
    if scale <= 0.0 then 0 else ClampRounded(value / scale, lo, hi)
  }

  function Dequantize(q: int, scale: real): real {
    q as real * scale
  }

  /** Within the representable range. */
  predicate InRange(value: real, scale: real, lo: int, hi: int) {
    Dequantize(lo, scale) <= value <= Dequantize(hi, scale)
  }

  lemma ProductOfNonNegatives(a: real, b: real)
    requires a >= 0.0 && b >= 0.0
    ensures a * b >= 0.0
  {
  }

  lemma MultiplyKeepsOrder(a: real, b: real, k: real)
    requires a <= b && k >= 0.0
    ensures a * k <= b * k
  {
    ProductOfNonNegatives(b - a, k);
    assert (b - a) * k == b * k - a * k;
  }

  lemma DivideKeepsOrder(a: real, b: real, k: real)
    requires a <= b && k > 0.0
    ensures a / k <= b / k
  {
    assert 1.0 / k > 0.0;
    MultiplyKeepsOrder(a, b, 1.0 / k);
    assert a * (1.0 / k) == a / k && b * (1.0 / k) == b / k;
  }

  lemma DivideBounds(value: real, scale: real, lo: int, hi: int)
    requires scale > 0.0 && InRange(value, scale, lo, hi)
    ensures lo as real <= value / scale <= hi as real
  {
    DivideKeepsOrder(Dequantize(lo, scale), value, scale);
    DivideKeepsOrder(value, Dequantize(hi, scale), scale);
    assert Dequantize(lo, scale) / scale == lo as real && Dequantize(hi, scale) / scale == hi as real;
  }

  /** In range, quantising is off by at most half a step. */
  lemma QuantizeIsClose(value: real, scale: real, lo: int, hi: int)
    requires scale > 0.0 && lo <= 0 <= hi && InRange(value, scale, lo, hi)
    ensures Abs(Dequantize(Quantize(value, scale, lo, hi), scale) - value) <= 0.5 * scale
  {
    var x := value / scale;
    DivideBounds(value, scale, lo, hi);
    RoundIsMonotone(lo as real, x);
    RoundIsMonotone(x, hi as real);
    RoundFixesIntegers(lo);
    RoundFixesIntegers(hi);
    RoundIsNearestEven(x, 0);
    ScaledBack(Round(x) as real, x, value, scale);
  }

  lemma ScaleHalf(d: real, scale: real)
    requires scale > 0.0 && -0.5 <= d <= 0.5
    ensures -0.5 * scale <= d * scale <= 0.5 * scale
  {
    ProductOfNonNegatives(0.5 - d, scale);
    ProductOfNonNegatives(d + 0.5, scale);
    assert (0.5 - d) * scale == 0.5 * scale - d * scale;
    assert (0.5 + d) * scale == 0.5 * scale + d * scale;
  }

  lemma ScaledBack(r: real, x: real, value: real, scale: real)
    requires scale > 0.0 && x * scale == value && Abs(r - x) <= 0.5
    ensures Abs(r * scale - value) <= 0.5 * scale
  {
    var d := r - x;
    ScaleHalf(d, scale);
    var error := d * scale;
    assert error == r * scale - x * scale;
    assert -0.5 * scale <= error <= 0.5 * scale;
  }

  /** Quantising keeps order. */
  lemma QuantizeIsMonotone(a: real, b: real, scale: real, lo: int, hi: int)
    requires scale > 0.0 && lo <= 0 <= hi && a <= b
    ensures Quantize(a, scale, lo, hi) <= Quantize(b, scale, lo, hi)
  {
    DivideKeepsOrder(a, b, scale);
    RoundIsMonotone(a / scale, b / scale);
  }

  /** Grid points are exact, and points beyond the range saturate. */
  lemma QuantizeFixesGrid(n: int, scale: real, lo: int, hi: int)
    requires scale > 0.0 && lo <= 0 <= hi
    ensures Quantize(Dequantize(n, scale), scale, lo, hi) == if n < lo then lo else if n > hi then hi else n
  {
    assert Dequantize(n, scale) / scale == n as real;
    RoundFixesIntegers(n);
  }

  lemma QuantizeSaturates(value: real, scale: real, lo: int, hi: int)
    requires scale > 0.0 && lo <= 0 <= hi
    ensures value >= Dequantize(hi, scale) ==> Quantize(value, scale, lo, hi) == hi
    ensures value <= Dequantize(lo, scale) ==> Quantize(value, scale, lo, hi) == lo
  {
    QuantizeFixesGrid(hi, scale, lo, hi);
    QuantizeFixesGrid(lo, scale, lo, hi);
    if value >= Dequantize(hi, scale) {
      QuantizeIsMonotone(Dequantize(hi, scale), value, scale, lo, hi);
    }
    if value <= Dequantize(lo, scale) {
      QuantizeIsMonotone(value, Dequantize(lo, scale), scale, lo, hi);
    }
  }

  // ---------------------------------------------------------------- head-relative positions

  function QuantizeHead(x: real): int {
    Quantize(x, ABS_POS_SCALE, INT24_MIN, INT24_MAX)
  }

  function QuantizeRelative(x: real): int {
    Quantize(x, REL_POS_SCALE, INT16_MIN, INT16_MAX)
  }

  /** What the receiver makes of one coordinate of a hand or virtual transform. */
  function DecodedCoordinate(head: int, relative: int): real {
    Dequantize(head, ABS_POS_SCALE) + Dequantize(relative, REL_POS_SCALE)
  }

  /**
  Head and delta are rounded separately, so their errors add up; the decoded coordinate is still
  within 7.5 mm of the original.
  */
  lemma RelativePositionIsClose(head: real, position: real)
    requires InRange(head, ABS_POS_SCALE, INT24_MIN, INT24_MAX)
    requires InRange(position - head, REL_POS_SCALE, INT16_MIN, INT16_MAX)
    ensures Abs(DecodedCoordinate(QuantizeHead(head), QuantizeRelative(position - head)) - position) <= 0.0075
  {
    QuantizeIsClose(head, ABS_POS_SCALE, INT24_MIN, INT24_MAX);
    QuantizeIsClose(position - head, REL_POS_SCALE, INT16_MIN, INT16_MAX);
  }
}
