/**
The fields of the wire format (src/protocol/binary_writer.cpp, binary_writer.hpp and
binary_reader.cpp): little-endian integers, an eight-byte double taken as opaque bytes, and
length-prefixed text.
*/
module Wire {
  import opened Bytes
  import opened Codecs
  import Utf8

  type U8 = Byte
  type U16 = x: int | 0 <= x < 0x1_0000
  type U32 = x: int | 0 <= x < 0x1_0000_0000
  type I16 = x: int | -0x8000 <= x < 0x8000
  /** The bytes of an IEEE-754 binary64, least significant first. */
  type Double = s: Text | |s| == 8 witness [0, 0, 0, 0, 0, 0, 0, 0]

  function At(a: Text, i: nat): Byte {
    if i < |a| then a[i] else 0
  }

  // ---------------------------------------------------------------- integers

  function EncU8(x: U8): Text { [x] }

  function ValU8(a: Text): U8 { At(a, 0) }

  function EncU16(x: U16): Text { [x % 256, x / 256] }

  function ValU16(a: Text): U16 { At(a, 0) + 256 * At(a, 1) }

  function EncU32(x: U32): Text {
    [x % 256, x / 256 % 256, x / 256 / 256 % 256, x / 256 / 256 / 256]
  }

  function ValU32(a: Text): U32 {
    At(a, 0) + 256 * At(a, 1) + 0x1_0000 * At(a, 2) + 0x100_0000 * At(a, 3)
  }

  /** Two's complement on sixteen bits. */
  function EncI16(x: I16): Text {
    EncU16(if x < 0 then x + 0x1_0000 else x)
  }

  function ValI16(a: Text): I16 {
    var u := ValU16(a);
    if u < 0x8000 then u else u - 0x1_0000
  }

  function Clamp24(x: int): int {
    if x < INT24_MIN then INT24_MIN else if x > INT24_MAX then INT24_MAX else x
  }

  /** write_i24: saturates, then keeps the low 24 bits. */
  function EncI24(x: int): Text {
    var c := Clamp24(x);
    var u := if c < 0 then c + 0x100_0000 else c;
    [u % 256, u / 256 % 256, u / 256 / 256]
  }

  /** read_i24: extends the sign bit. */
  function ValI24(a: Text): int {
    var u := At(a, 0) + 256 * At(a, 1) + 0x1_0000 * At(a, 2);
    if u < 0x80_0000 then u else u - 0x100_0000
  }

  function EncDouble(x: Double): Text { x }

  function ValDouble(a: Text): Double {
    seq(8, i requires 0 <= i < 8 => At(a, i))
  }

  function Same<T>(x: T): T { x }

  function Always<T>(x: T): bool { true }

  function Second<A, B>(p: (A, B)): B { p.1 }

  const Int8: Codec<U8> := Fixed(1, EncU8, ValU8, Same)
  const Int16: Codec<U16> := Fixed(2, EncU16, ValU16, Same)
  const Int32: Codec<U32> := Fixed(4, EncU32, ValU32, Same)
  const Signed16: Codec<I16> := Fixed(2, EncI16, ValI16, Same)
  const Signed24: Codec<int> := Fixed(3, EncI24, ValI24, Clamp24)
  const Float64: Codec<Double> := Fixed(8, EncDouble, ValDouble, Same)

  /** Every number that is written is read back, the 24-bit one after saturation. */
  lemma UnsignedLawful()
    ensures Lawful(Int8) && Lawful(Int16) && Lawful(Int32)
  {
    hide Lawful;
    FixedLawful(1, EncU8, ValU8, Same);
    FixedLawful(2, EncU16, ValU16, Same);
    Int32Lawful();
  }

  lemma DigitsOf32(x: U32)
    ensures ValU32(EncU32(x)) == x
  {
    var q := x / 256;
    assert x == x % 256 + 256 * q;
    assert q == q % 256 + 256 * (q / 256);
  }

  lemma Int32Lawful()
    ensures Lawful(Int32)
  {
    hide Lawful;
    forall x: U32 ensures |EncU32(x)| == 4 && ValU32(EncU32(x)) == x {
      DigitsOf32(x);
    }
    FixedLawful(4, EncU32, ValU32, Same);
  }

  lemma SignedLawful()
    ensures Lawful(Signed16) && Lawful(Signed24)
  {
    hide Lawful;
    FixedLawful(2, EncI16, ValI16, Same);
    FixedLawful(3, EncI24, ValI24, Clamp24);
  }

  lemma DoubleLawful()
    ensures Lawful(Float64)
  {
    hide Lawful;
    forall x: Double ensures |EncDouble(x)| == 8 && ValDouble(EncDouble(x)) == x {
    }
    FixedLawful(8, EncDouble, ValDouble, Same);
  }

  // ---------------------------------------------------------------- text

  function Raw8(n: U8): Codec<Text> { Raw(n) }

  function Raw16(n: U16): Codec<Text> { Raw(n) }

  function Cut8(s: Text): (U8, Text) {
    var t := Utf8.ByteCut(s, 255);
    (|t|, t)
  }

  function Cut16(s: Text): (U16, Text) {
    var t := Utf8.ByteCut(s, 0xFFFF);
    (|t|, t)
  }

  /** write_string8: cut to 255 bytes on a character boundary. */
  function Text8(): Codec<Text> {
    Reshape(Depend(Int8, Always, Raw8), Second, Cut8)
  }

  /** write_string16: cut to 65535 bytes on a character boundary. */
  function Text16(): Codec<Text> {
    Reshape(Depend(Int16, Always, Raw16), Second, Cut16)
  }

  /** Text of any length is written, and what is read back is the cut text. */
  lemma Text8Lawful()
    ensures Lawful(Text8())
    ensures forall s :: Text8().fits(s) && Text8().norm(s) == Utf8.ByteCut(s, 255)
  {
    hide Lawful;
    UnsignedLawful();
    forall n: U8 ensures Lawful(Raw8(n)) {
      RawLawful(n);
    }
    DependLawful(Int8, Always, Raw8);
    ReshapeLawful(Depend(Int8, Always, Raw8), Second, Cut8);
    forall s ensures Text8().fits(s) && Text8().norm(s) == Utf8.ByteCut(s, 255) {
      ReshapeAt(Depend(Int8, Always, Raw8), Second, Cut8, s);
      DependAt(Int8, Always, Raw8, Cut8(s).0, Cut8(s).1);
    }
  }

  lemma Text16Lawful()
    ensures Lawful(Text16())
    ensures forall s :: Text16().fits(s) && Text16().norm(s) == Utf8.ByteCut(s, 0xFFFF)
  {
    hide Lawful;
    UnsignedLawful();
    forall n: U16 ensures Lawful(Raw16(n)) {
      RawLawful(n);
    }
    DependLawful(Int16, Always, Raw16);
    ReshapeLawful(Depend(Int16, Always, Raw16), Second, Cut16);
    forall s ensures Text16().fits(s) && Text16().norm(s) == Utf8.ByteCut(s, 0xFFFF) {
      ReshapeAt(Depend(Int16, Always, Raw16), Second, Cut16, s);
      DependAt(Int16, Always, Raw16, Cut16(s).0, Cut16(s).1);
    }
  }

  // ---------------------------------------------------------------- lists

  function Items8<T>(c: Codec<T>): U8 -> Codec<seq<T>> {
    (n: U8) => Items(c, n)
  }

  function Items16<T>(c: Codec<T>): U16 -> Codec<seq<T>> {
    (n: U16) => Items(c, n)
  }

  function Counted16<T>(xs: seq<T>): (U16, seq<T>) {
    (|xs| % 0x1_0000, xs)
  }

  function Counted8<T>(xs: seq<T>): (U8, seq<T>) {
    (Min(|xs|, 255), xs[..Min(|xs|, 255)])
  }

  /** A list with a 16-bit count; the count wraps, the items are all written. */
  function List16<T>(c: Codec<T>): Codec<seq<T>> {
    Reshape(Depend(Int16, Always, Items16(c)), Second, Counted16)
  }

  /** A list with an 8-bit count, cut to 255 items. */
  function List8<T>(c: Codec<T>): Codec<seq<T>> {
    Reshape(Depend(Int8, Always, Items8(c)), Second, Counted8)
  }

  lemma List16Lawful<T(!new)>(c: Codec<T>)
    requires Lawful(c)
    ensures Lawful(List16(c))
    ensures forall xs :: List16(c).fits(xs) <==> |xs| <= 0xFFFF && FitAll(c, xs)
    ensures forall xs :: List16(c).norm(xs) == NormAll(c, xs)
  {
    hide Lawful, FitAll, NormAll;
    UnsignedLawful();
    forall n: U16 ensures Lawful(Items16(c)(n)) {
      ItemsLawful(c, n);
    }
    DependLawful(Int16, Always, Items16(c));
    ReshapeLawful(Depend(Int16, Always, Items16(c)), Second, Counted16);
    forall xs: seq<T>
      ensures List16(c).fits(xs) <==> |xs| <= 0xFFFF && FitAll(c, xs)
      ensures List16(c).norm(xs) == NormAll(c, xs)
    {
      ReshapeAt(Depend(Int16, Always, Items16(c)), Second, Counted16, xs);
      DependAt(Int16, Always, Items16(c), Counted16(xs).0, xs);
    }
  }

  lemma List8Lawful<T(!new)>(c: Codec<T>)
    requires Lawful(c)
    ensures Lawful(List8(c))
    ensures forall xs :: FitAll(c, xs) ==> List8(c).fits(xs)
    ensures forall xs :: List8(c).norm(xs) == NormAll(c, xs[..Min(|xs|, 255)])
  {
    hide Lawful, NormAll;
    UnsignedLawful();
    forall n: U8 ensures Lawful(Items8(c)(n)) {
      ItemsLawful(c, n);
    }
    DependLawful(Int8, Always, Items8(c));
    ReshapeLawful(Depend(Int8, Always, Items8(c)), Second, Counted8);
    forall xs: seq<T>
      ensures FitAll(c, xs) ==> List8(c).fits(xs)
      ensures List8(c).norm(xs) == NormAll(c, xs[..Min(|xs|, 255)])
    {
      ReshapeAt(Depend(Int8, Always, Items8(c)), Second, Counted8, xs);
      DependAt(Int8, Always, Items8(c), Counted8(xs).0, Counted8(xs).1);
    }
  }

  lemma {:induction false} ItemsSplit<T>(c: Codec<T>, xs: seq<T>, k: nat)
    requires k <= |xs|
    ensures ItemsEnc(c, xs) == ItemsEnc(c, xs[..k]) + ItemsEnc(c, xs[k..])
  {
    if k == 0 {
      assert xs[k..] == xs;
    } else {
      assert xs[..k][1..] == xs[1..][..k - 1] && xs[1..][k - 1..] == xs[k..];
      ItemsSplit(c, xs[1..], k - 1);
    }
  }

  /**
  A list of any length: the decoder recovers as many items as the wrapped count says, and
  the rest of the list stays unread. So nothing is lost exactly up to 65535 items.
  */
  lemma CountWraps<T(!new)>(c: Codec<T>, xs: seq<T>, rest: Text)
    requires Lawful(c) && FitAll(c, xs)
    ensures var k := |xs| % 0x1_0000;
            List16(c).dec(List16(c).enc(xs) + rest) == Some((NormAll(c, xs[..k]), ItemsEnc(c, xs[k..]) + rest))
  {
    hide NormAll, ItemsEnc, ItemsDec, EncU16, ValU16, Depend, Reshape, Fixed;
    var k: U16 := |xs| % 0x1_0000;
    var kept, lost := ItemsEnc(c, xs[..k]), ItemsEnc(c, xs[k..]);
    var list := Depend(Int16, Always, Items16(c));
    ItemsSplit(c, xs, k);
    ReshapeAt(list, Second, Counted16, xs);
    DependAt(Int16, Always, Items16(c), k, xs);
    var a := List16(c).enc(xs) + rest;
    assert a == Int16.enc(k) + (kept + (lost + rest));
    UnsignedLawful();
    Int16Reads(k, kept + (lost + rest));
    ItemsInverse(c, xs[..k], lost + rest);
    DependReads(Int16, Always, Items16(c), a, k, kept + (lost + rest), NormAll(c, xs[..k]), lost + rest);
    ReshapeReads(list, Second, Counted16, a, (k, NormAll(c, xs[..k])), lost + rest);
  }

  lemma Int16Reads(k: U16, rest: Text)
    ensures Int16.dec(Int16.enc(k) + rest) == Some((k, rest))
  {
    UnsignedLawful();
    assert Int16.fits(k) && Int16.norm(k) == k;
  }
}
