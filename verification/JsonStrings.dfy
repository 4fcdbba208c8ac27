/**
JSON string literals (src/core/json_util.cpp): the printer's escapes and the parser's reading
of them. A parsing function takes the text that is left and gives back what it read and the
text after it, or nothing.
*/
module JsonStrings {
  import opened Bytes
  import Utf8

  const QUOTE: Byte := 0x22
  const BACKSLASH: Byte := 0x5C
  const LETTER_U: Byte := 0x75

  // ---------------------------------------------------------------- printing

  /** The letter of the two-character escape of a byte, where there is one. */
  function ShortEscape(c: Byte): Option<Byte> {
    match c
    case 0x22 => Some(0x22)
    case 0x5C => Some(0x5C)
    case 0x08 => Some(0x62)
    case 0x0C => Some(0x66)
    case 0x0A => Some(0x6E)
    case 0x0D => Some(0x72)
    case 0x09 => Some(0x74)
    case _ => None
  }

  /** A lower-case hexadecimal digit. */
  function HexDigit(n: nat): Byte
    requires n < 16
  {
    if n < 10 then 0x30 + n else 0x61 + (n - 10)
  }

  function HexDigits4(n: nat): Text
    requires n < 0x1_0000
  {
    [HexDigit(n / 4096), HexDigit(n / 256 % 16), HexDigit(n / 16 % 16), HexDigit(n % 16)]
  }

  function Escape(c: Byte): Text {
    if ShortEscape(c).Some? then [BACKSLASH, ShortEscape(c).value]
    else if c < 0x20 then [BACKSLASH, LETTER_U] + HexDigits4(c)
    else [c]
  }

  function Escaped(s: Text): Text {
    if s == [] then [] else Escape(s[0]) + Escaped(s[1..])
  }

  function Quoted(s: Text): Text {
    [QUOTE] + Escaped(s) + [QUOTE]
  }

  lemma {:induction false} EscapedAppend(s: Text, t: Text)
    ensures Escaped(s + t) == Escaped(s) + Escaped(t)
  {
    if s == [] {
      assert s + t == t;
    } else {
      assert (s + t)[1..] == s[1..] + t;
      EscapedAppend(s[1..], t);
    }
  }

  /** The switch of encode_json_string. */
  method EscapeByte(c: Byte) returns (e: Text)
    ensures e == Escape(c)
  {
    match c {
      case 0x22 => e := [BACKSLASH, 0x22];
      case 0x5C => e := [BACKSLASH, 0x5C];
      case 0x08 => e := [BACKSLASH, 0x62];
      case 0x0C => e := [BACKSLASH, 0x66];
      case 0x0A => e := [BACKSLASH, 0x6E];
      case 0x0D => e := [BACKSLASH, 0x72];
      case 0x09 => e := [BACKSLASH, 0x74];
      case _ =>
        if c < 0x20 {
          e := [BACKSLASH, LETTER_U] + HexDigits4(c);
        } else {
          e := [c];
        }
    }
  }

  /** encode_json_string. */
  method EncodeString(value: Text) returns (out: Text)
    ensures out == Quoted(value)
  {
    hide Escape;
    out := [QUOTE];
    for i := 0 to |value|
      invariant out == [QUOTE] + Escaped(value[..i])
    {
      var e := EscapeByte(value[i]);
      EscapedSnoc(value, i);
      out := out + e;
    }
    assert value[..|value|] == value;
    out := out + [QUOTE];
  }

  lemma EscapedSnoc(s: Text, i: nat)
    requires i < |s|
    ensures Escaped(s[..i + 1]) == Escaped(s[..i]) + Escape(s[i])
  {
    hide Escape;
    EscapedAppend(s[..i], [s[i]]);
    assert s[..i + 1] == s[..i] + [s[i]];
    assert Escaped([s[i]]) == Escape(s[i]);
  }

  /** No control character is left unescaped (section 7 of RFC 8259). */
  lemma {:induction false} EscapedHasNoControls(s: Text)
    ensures forall i :: 0 <= i < |Escaped(s)| ==> Escaped(s)[i] >= 0x20
  {
    if s != [] {
      EscapedHasNoControls(s[1..]);
    }
  }

  // ---------------------------------------------------------------- reading

  function HexValue(c: Byte): Option<nat> {
    if 0x30 <= c <= 0x39 then Some(c - 0x30)
    else if 0x61 <= c <= 0x66 then Some(c - 0x61 + 10)
    else if 0x41 <= c <= 0x46 then Some(c - 0x41 + 10)
    else None
  }

  /** The number that the hexadecimal digits of `s` spell. */
  function HexNumber(s: Text): Option<nat> {
    if s == [] then Some(0) else
      var high :- HexNumber(s[..|s| - 1]);
      var low :- HexValue(s[|s| - 1]);
      Some(high * 16 + low)
  }

  function Hex4(a: Text): Option<nat> {
    if |a| < 4 then None else HexNumber(a[..4])
  }

  /** append_utf8. */
  function Utf8Of(point: nat): Text
    requires point < 0x11_0000
  {
    if point < 0x80 then [point]
    else if point < 0x800 then [0xC0 + point / 64, 0x80 + point % 64]
    else if point < 0x1_0000 then [0xE0 + point / 4096, 0x80 + point / 64 % 64, 0x80 + point % 64]
    else [0xF0 + point / 262144, 0x80 + point / 4096 % 64, 0x80 + point / 64 % 64, 0x80 + point % 64]
  }

  predicate IsHigh(n: nat) {
    0xD800 <= n <= 0xDBFF
  }

  predicate IsLow(n: nat) {
    0xDC00 <= n <= 0xDFFF
  }

  function Paired(high: nat, low: nat): (r: nat)
    requires IsHigh(high) && IsLow(low)
    ensures 0x1_0000 <= r < 0x11_0000
  {
    0x1_0000 + (high - 0xD800) * 1024 + (low - 0xDC00)
  }

  /** The low half that completes a pair, when one follows. */
  function LowHalf(a: Text): Option<nat> {
    if |a| >= 2 && a[0] == BACKSLASH && a[1] == LETTER_U && Hex4(a[2..]).Some? && IsLow(Hex4(a[2..]).value)
    then Hex4(a[2..]) else None
  }

  lemma {:induction false} HexBound(s: Text, bound: nat)
    requires HexNumber(s).Some? && (|s| == 4 ==> bound == 0x1_0000) && (|s| == 3 ==> bound == 0x1000)
    requires (|s| == 2 ==> bound == 0x100) && (|s| == 1 ==> bound == 16) && |s| <= 4 && (|s| == 0 ==> bound == 1)
    ensures HexNumber(s).value < bound
  {
    if s != [] {
      HexBound(s[..|s| - 1], bound / 16);
    }
  }

  /** What follows the two characters of a Unicode escape. */
  function UnicodeEscape(a: Text): Option<(Text, Text)> {
    var point :- Hex4(a);
    HexBound(a[..4], 0x1_0000);
    var rest := a[4..];
    if IsHigh(point) && LowHalf(rest).Some? then Some((Utf8Of(Paired(point, LowHalf(rest).value)), rest[6..]))
    else Some((Utf8Of(point), rest))
  }

  function ShortMeaning(c: Byte): Option<Byte> {
    match c
    case 0x22 => Some(0x22)
    case 0x5C => Some(0x5C)
    case 0x2F => Some(0x2F)
    case 0x62 => Some(0x08)
    case 0x66 => Some(0x0C)
    case 0x6E => Some(0x0A)
    case 0x72 => Some(0x0D)
    case 0x74 => Some(0x09)
    case _ => None
  }

  /** One character or escape, after the opening quote and before the closing one. */
  function Piece(a: Text): (r: Option<(Text, Text)>)
    requires a != []
    ensures r.Some? ==> |r.value.1| < |a|
  {
    if a[0] != BACKSLASH then Some(([a[0]], a[1..]))
    else if |a| < 2 then None
    else if a[1] == LETTER_U then UnicodeEscape(a[2..])
    else
      var meaning :- ShortMeaning(a[1]);
      Some(([meaning], a[2..]))
  }

  /** The rest of a string literal, after its opening quote. */
  function Characters(a: Text): (r: Option<(Text, Text)>)
    ensures r.Some? ==> |r.value.1| < |a|
    decreases |a|
  {
    if a == [] then None
    else if a[0] == QUOTE then Some(([], a[1..]))
    else
      var (piece, b) :- Piece(a);
      var (more, rest) :- Characters(b);
      Some((piece + more, rest))
  }

  function StringLiteral(a: Text): (r: Option<(Text, Text)>)
    ensures r.Some? ==> |r.value.1| < |a|
  {
    if a == [] || a[0] != QUOTE then None else Characters(a[1..])
  }

  // ---------------------------------------------------------------- reading undoes printing

  lemma HexDigitReads(n: nat)
    requires n < 16
    ensures HexValue(HexDigit(n)) == Some(n)
  {
  }

  lemma HexOfFour(a: Byte, b: Byte, c: Byte, d: Byte)
    requires HexValue(a).Some? && HexValue(b).Some? && HexValue(c).Some? && HexValue(d).Some?
    ensures HexNumber([a, b, c, d])
         == Some(HexValue(a).value * 4096 + HexValue(b).value * 256 + HexValue(c).value * 16 + HexValue(d).value)
  {
    hide HexValue;
    assert [a, b, c, d][..3] == [a, b, c] && [a, b, c][..2] == [a, b] && [a, b][..1] == [a] && [a][..0] == [];
    assert HexNumber([]) == Some(0);
    assert HexNumber([a]) == HexValue(a);
    assert HexNumber([a, b]) == Some(HexValue(a).value * 16 + HexValue(b).value);
    assert HexNumber([a, b, c]).Some?;
  }

  lemma Digits(n: nat)
    requires n < 0x1_0000
    ensures n / 4096 * 4096 + n / 256 % 16 * 256 + n / 16 % 16 * 16 + n % 16 == n
  {
    LastDigit(n);
    LastDigit(n / 16);
    LastDigit(n / 256);
    assert n / 16 / 16 == n / 256 && n / 256 / 16 == n / 4096;
  }

  lemma LastDigit(n: nat)
    ensures n / 16 * 16 + n % 16 == n
  {
  }

  lemma Hex4Reads(n: nat, rest: Text)
    requires n < 0x1_0000
    ensures Hex4(HexDigits4(n) + rest) == Some(n)
  {
    var d := HexDigits4(n);
    HexDigitReads(n / 4096);
    HexDigitReads(n / 256 % 16);
    HexDigitReads(n / 16 % 16);
    HexDigitReads(n % 16);
    HexOfFour(d[0], d[1], d[2], d[3]);
    Digits(n);
    assert (d + rest)[..4] == d;
  }

  /** Every escape that the printer writes is read back as the byte it stands for. */
  lemma PieceUndoesEscape(c: Byte, rest: Text)
    ensures var a := Escape(c) + rest; a[0] != QUOTE && Piece(a) == Some(([c], rest))
  {
    var a := Escape(c) + rest;
    if ShortEscape(c).Some? {
      assert a[2..] == rest;
    } else if c < 0x20 {
      assert a[2..] == HexDigits4(c) + rest;
      Hex4Reads(c, rest);
      assert a[2..][4..] == rest;
      assert Utf8Of(c) == [c];
    } else {
      assert a[1..] == rest;
    }
  }

  lemma {:induction false} CharactersUndoEscaped(s: Text, rest: Text)
    ensures Characters(Escaped(s) + [QUOTE] + rest) == Some((s, rest))
  {
    var a := Escaped(s) + [QUOTE] + rest;
    if s == [] {
      assert a[1..] == rest;
    } else {
      var more := Escaped(s[1..]) + [QUOTE] + rest;
      assert a == Escape(s[0]) + more;
      PieceUndoesEscape(s[0], more);
      CharactersUndoEscaped(s[1..], rest);
      assert [s[0]] + s[1..] == s;
    }
  }

  /** A printed string literal reads back as the same bytes, whatever bytes they are. */
  lemma StringRoundTrip(s: Text, rest: Text)
    ensures StringLiteral(Quoted(s) + rest) == Some((s, rest))
  {
    hide Characters, Escaped;
    CharactersUndoEscaped(s, rest);
    assert (Quoted(s) + rest)[1..] == Escaped(s) + [QUOTE] + rest;
  }

  // ---------------------------------------------------------------- Unicode escapes

  /** A Unicode scalar value. */
  predicate IsScalar(n: nat) {
    n < 0x11_0000 && !IsHigh(n) && !IsLow(n)
  }

  /** The code point that a well-formed character spells. */
  function PointOf(c: Text): nat
    requires Utf8.IsCharacter(c)
  {
    match |c|
    case 1 => c[0]
    case 2 => (c[0] as int - 0xC0) * 64 + (c[1] as int - 0x80)
    case 3 => (c[0] as int - 0xE0) * 4096 + (c[1] as int - 0x80) * 64 + (c[2] as int - 0x80)
    case _ => (c[0] as int - 0xF0) * 262144 + (c[1] as int - 0x80) * 4096 + (c[2] as int - 0x80) * 64 + (c[3] as int - 0x80)
  }

  lemma TwoSixes(n: nat)
    ensures n / 64 * 64 + n % 64 == n
  {
  }

  lemma ThreeSixes(n: nat)
    ensures n / 4096 * 4096 + n / 64 % 64 * 64 + n % 64 == n
  {
    TwoSixes(n);
    TwoSixes(n / 64);
    assert n / 64 / 64 == n / 4096;
  }

  lemma FourSixes(n: nat)
    ensures n / 262144 * 262144 + n / 4096 % 64 * 4096 + n / 64 % 64 * 64 + n % 64 == n
  {
    ThreeSixes(n);
    TwoSixes(n / 4096);
    assert n / 4096 / 64 == n / 262144;
  }

  lemma ShortPoint(point: nat)
    requires point < 0x800
    ensures Utf8.IsCharacter(Utf8Of(point)) && PointOf(Utf8Of(point)) == point
  {
    TwoSixes(point);
  }

  lemma MiddlePoint(point: nat)
    requires 0x800 <= point < 0x1_0000
    ensures Utf8.IsCharacter(Utf8Of(point)) <==> !(0xD800 <= point <= 0xDFFF)
    ensures Utf8.IsCharacter(Utf8Of(point)) ==> PointOf(Utf8Of(point)) == point
  {
    var a, b := point / 4096, point / 64 % 64;
    ThreeSixes(point);
    assert point / 64 == a * 64 + b;
    assert (a == 13 && b >= 32) <==> 0xD800 <= point <= 0xDFFF;
  }

  lemma LongPoint(point: nat)
    requires 0x1_0000 <= point < 0x11_0000
    ensures Utf8.IsCharacter(Utf8Of(point)) && PointOf(Utf8Of(point)) == point
  {
    FourSixes(point);
  }

  /** append_utf8 writes one well-formed character, and the right one, for exactly the scalars. */
  lemma Utf8OfIsCharacter(point: nat)
    requires point < 0x11_0000
    ensures Utf8.IsCharacter(Utf8Of(point)) <==> IsScalar(point)
    ensures IsScalar(point) ==> PointOf(Utf8Of(point)) == point
  {
    hide Utf8.IsCharacter, PointOf;
    if point < 0x800 {
      ShortPoint(point);
    } else if point < 0x1_0000 {
      MiddlePoint(point);
    } else {
      LongPoint(point);
    }
  }

  /** The UTF-16 escape of a scalar: one unit, or a surrogate pair. */
  function Utf16Escape(point: nat): Text
    requires IsScalar(point)
  {
    if point < 0x1_0000 then [BACKSLASH, LETTER_U] + HexDigits4(point)
    else
      var v := point - 0x1_0000;
      [BACKSLASH, LETTER_U] + HexDigits4(0xD800 + v / 1024) + [BACKSLASH, LETTER_U] + HexDigits4(0xDC00 + v % 1024)
  }

  /** A unit that no low half completes. */
  lemma ReadsUnit(n: nat, rest: Text)
    requires n < 0x1_0000 && !(IsHigh(n) && LowHalf(rest).Some?)
    ensures Piece([BACKSLASH, LETTER_U] + HexDigits4(n) + rest) == Some((Utf8Of(n), rest))
  {
    hide Hex4, Utf8Of, LowHalf;
    var a := [BACKSLASH, LETTER_U] + HexDigits4(n) + rest;
    assert a[2..] == HexDigits4(n) + rest;
    Hex4Reads(n, rest);
    assert a[2..][4..] == rest;
  }

  lemma ReadsLowHalf(low: nat, rest: Text)
    requires IsLow(low)
    ensures LowHalf([BACKSLASH, LETTER_U] + HexDigits4(low) + rest) == Some(low)
  {
    hide Hex4;
    var tail := [BACKSLASH, LETTER_U] + HexDigits4(low) + rest;
    assert tail[2..] == HexDigits4(low) + rest;
    Hex4Reads(low, rest);
  }

  lemma ReadsPair(high: nat, low: nat, rest: Text)
    requires IsHigh(high) && IsLow(low)
    ensures Piece([BACKSLASH, LETTER_U] + HexDigits4(high) + [BACKSLASH, LETTER_U] + HexDigits4(low) + rest)
         == Some((Utf8Of(Paired(high, low)), rest))
  {
    hide Hex4, Utf8Of, LowHalf, Paired;
    var a := [BACKSLASH, LETTER_U] + HexDigits4(high) + [BACKSLASH, LETTER_U] + HexDigits4(low) + rest;
    var tail := [BACKSLASH, LETTER_U] + HexDigits4(low) + rest;
    assert a[2..] == HexDigits4(high) + tail;
    Hex4Reads(high, tail);
    assert a[2..][4..] == tail;
    ReadsLowHalf(low, rest);
    assert tail[6..] == rest;
  }

  lemma PieceReadsUtf16(point: nat, rest: Text)
    requires IsScalar(point)
    ensures var a := Utf16Escape(point) + rest; a[0] != QUOTE && Piece(a) == Some((Utf8Of(point), rest))
  {
    hide Piece, Utf8Of, HexDigits4;
    if point < 0x1_0000 {
      ReadsUnit(point, rest);
    } else {
      var v := point - 0x1_0000;
      ReadsPair(0xD800 + v / 1024, 0xDC00 + v % 1024, rest);
    }
  }

  predicate AllScalars(points: seq<nat>) {
    forall i :: 0 <= i < |points| ==> IsScalar(points[i])
  }

  function Utf16Text(points: seq<nat>): Text
    requires AllScalars(points)
  {
    if points == [] then [] else Utf16Escape(points[0]) + Utf16Text(points[1..])
  }

  function Utf8Text(points: seq<nat>): Text
    requires AllScalars(points)
  {
    if points == [] then [] else Utf8Of(points[0]) + Utf8Text(points[1..])
  }

  /** Text escaped as UTF-16 units, pairs included, is read as its UTF-8 form. */
  lemma {:induction false} Utf16EscapesBecomeUtf8(points: seq<nat>, rest: Text)
    requires AllScalars(points)
    ensures StringLiteral([QUOTE] + Utf16Text(points) + [QUOTE] + rest) == Some((Utf8Text(points), rest))
  {
    assert ([QUOTE] + Utf16Text(points) + [QUOTE] + rest)[1..] == Utf16Text(points) + [QUOTE] + rest;
    CharactersReadUtf16(points, rest);
  }

  lemma {:induction false} CharactersReadUtf16(points: seq<nat>, rest: Text)
    requires AllScalars(points)
    ensures Characters(Utf16Text(points) + [QUOTE] + rest) == Some((Utf8Text(points), rest))
  {
    var a := Utf16Text(points) + [QUOTE] + rest;
    if points == [] {
      assert a[1..] == rest;
    } else {
      var more := Utf16Text(points[1..]) + [QUOTE] + rest;
      assert a == Utf16Escape(points[0]) + more;
      PieceReadsUtf16(points[0], more);
      CharactersReadUtf16(points[1..], rest);
    }
  }

  // ---------------------------------------------------------------- any sixteen-bit units

  predicate AllUnits(units: seq<nat>) {
    forall i :: 0 <= i < |units| ==> units[i] < 0x1_0000
  }

  /** Every unit written as an escape of four hexadecimal digits. */
  function UnitEscapes(units: seq<nat>): Text
    requires AllUnits(units)
  {
    if units == [] then [] else [BACKSLASH, LETTER_U] + HexDigits4(units[0]) + UnitEscapes(units[1..])
  }

  /** The list starts with the two halves of a pair. */
  predicate StartsWithPair(units: seq<nat>) {
    |units| >= 2 && IsHigh(units[0]) && IsLow(units[1])
  }

  /** What the parser makes of the units: pairs become one character, all else stands alone. */
  function TextOfUnits(units: seq<nat>): Text
    requires AllUnits(units)
  {
    if units == [] then []
    else if StartsWithPair(units) then Utf8Of(Paired(units[0], units[1])) + TextOfUnits(units[2..])
    else Utf8Of(units[0]) + TextOfUnits(units[1..])
  }

  /** Well-formed UTF-16: every high half is followed by a low one, and every low half follows a high one. */
  predicate WellFormedUnits(units: seq<nat>) {
    && (forall i :: 0 <= i < |units| && IsHigh(units[i]) ==> i + 1 < |units| && IsLow(units[i + 1]))
    && (forall i :: 0 <= i < |units| && IsLow(units[i]) ==> i > 0 && IsHigh(units[i - 1]))
  }

  /** Text that is a sequence of well-formed characters. */
  ghost predicate ValidUtf8(text: Text) {
    exists cs :: Utf8.AreCharacters(cs) && Utf8.Join(cs) == text
  }

  lemma NoLowHalf(units: seq<nat>, rest: Text)
    requires AllUnits(units) && (units == [] || !IsLow(units[0]))
    ensures LowHalf(UnitEscapes(units) + [QUOTE] + rest).None?
  {
    hide Hex4;
    var a := UnitEscapes(units) + [QUOTE] + rest;
    if units == [] {
      assert a[0] == QUOTE;
    } else {
      var tail := UnitEscapes(units[1..]) + [QUOTE] + rest;
      assert a == [BACKSLASH, LETTER_U] + HexDigits4(units[0]) + tail;
      assert a[2..] == HexDigits4(units[0]) + tail;
      Hex4Reads(units[0], tail);
    }
  }

  lemma EscapeIsNoQuote(units: seq<nat>, end: Text)
    requires AllUnits(units) && units != []
    ensures (UnitEscapes(units) + end)[0] != QUOTE
  {
  }

  lemma {:induction false} CharactersReadUnits(units: seq<nat>, rest: Text)
    requires AllUnits(units)
    ensures Characters(UnitEscapes(units) + [QUOTE] + rest) == Some((TextOfUnits(units), rest))
    decreases |units|
  {
    hide Piece, Utf8Of, HexDigits4, LowHalf, Paired;
    var a := UnitEscapes(units) + [QUOTE] + rest;
    if units == [] {
      assert a[1..] == rest;
    } else {
      EscapeIsNoQuote(units, [QUOTE] + rest);
      assert a == UnitEscapes(units) + ([QUOTE] + rest);
      var next := UnitEscapes(units[1..]) + [QUOTE] + rest;
      assert a == [BACKSLASH, LETTER_U] + HexDigits4(units[0]) + next;
      if StartsWithPair(units) {
        var more := UnitEscapes(units[2..]) + [QUOTE] + rest;
        assert units[1..][1..] == units[2..] && units[1..][0] == units[1];
        assert next == [BACKSLASH, LETTER_U] + HexDigits4(units[1]) + more;
        ReadsPair(units[0], units[1], more);
        assert a == [BACKSLASH, LETTER_U] + HexDigits4(units[0]) + [BACKSLASH, LETTER_U] + HexDigits4(units[1]) + more;
        CharactersReadUnits(units[2..], rest);
      } else {
        if IsHigh(units[0]) {
          NoLowHalf(units[1..], rest);
        }
        ReadsUnit(units[0], next);
        CharactersReadUnits(units[1..], rest);
      }
    }
  }

  /** The first byte of a character, or of what append_utf8 writes, fixes its length. */
  function LengthFrom(b: Byte): nat {
    if b < 0x80 then 1 else if b < 0xE0 then 2 else if b < 0xF0 then 3 else 4
  }

  lemma CharacterLength(c: Text)
    requires Utf8.IsCharacter(c)
    ensures c != [] && |c| == LengthFrom(c[0])
  {
  }

  lemma Utf8OfLength(point: nat)
    requires point < 0x11_0000
    ensures Utf8Of(point) != [] && |Utf8Of(point)| == LengthFrom(Utf8Of(point)[0])
  {
  }

  /** Characters that spell text beginning with a code point begin with exactly its character. */
  lemma FirstIsCodePoint(cs: seq<Text>, point: nat, more: Text)
    requires point < 0x11_0000 && Utf8.AreCharacters(cs) && Utf8.Join(cs) == Utf8Of(point) + more
    ensures cs != [] && IsScalar(point) && cs[0] == Utf8Of(point) && Utf8.Join(cs[1..]) == more
  {
    hide Utf8Of, Utf8.IsCharacter, LengthFrom;
    Utf8OfLength(point);
    var u := Utf8Of(point);
    CharacterLength(cs[0]);
    assert cs[0][0] == Utf8.Join(cs)[0] == u[0];
    assert cs[0] == Utf8.Join(cs)[..|cs[0]|] && u == Utf8.Join(cs)[..|u|];
    assert more == Utf8.Join(cs)[|u|..];
    Utf8OfIsCharacter(point);
  }

  /** Removing a well-formed start leaves well-formed units exactly if all of them were. */
  lemma WellFormedTail(units: seq<nat>)
    requires units != []
    ensures StartsWithPair(units) ==> (WellFormedUnits(units) <==> WellFormedUnits(units[2..]))
    ensures !StartsWithPair(units) ==>
              (WellFormedUnits(units) <==> !IsHigh(units[0]) && !IsLow(units[0]) && WellFormedUnits(units[1..]))
  {
    var n := if StartsWithPair(units) then 2 else 1;
    var tail := units[n..];
    assert forall i :: 0 <= i < |tail| ==> tail[i] == units[i + n];
    if WellFormedUnits(tail) && (n == 2 || (!IsHigh(units[0]) && !IsLow(units[0]))) {
      forall i | 0 <= i < |units| && IsHigh(units[i])
        ensures i + 1 < |units| && IsLow(units[i + 1])
      {
        assert i >= n ==> tail[i - n] == units[i];
      }
      forall i | 0 <= i < |units| && IsLow(units[i])
        ensures i > 0 && IsHigh(units[i - 1])
      {
        assert i >= n ==> tail[i - n] == units[i];
      }
    }
    if WellFormedUnits(units) {
      TailOfWellFormed(units, n);
    }
  }

  lemma TailOfWellFormed(units: seq<nat>, n: nat)
    requires WellFormedUnits(units) && 0 < n <= |units| && !IsHigh(units[n - 1])
    ensures WellFormedUnits(units[n..])
  {
    var tail := units[n..];
    forall i | 0 <= i < |tail| && IsHigh(tail[i])
      ensures i + 1 < |tail| && IsLow(tail[i + 1])
    {
      assert IsHigh(units[i + n]);
    }
    forall i | 0 <= i < |tail| && IsLow(tail[i])
      ensures i > 0 && IsHigh(tail[i - 1])
    {
      assert IsLow(units[i + n]);
    }
  }

  lemma {:induction false} WellFormedIsUtf8(units: seq<nat>) returns (cs: seq<Text>)
    requires AllUnits(units) && WellFormedUnits(units)
    ensures Utf8.AreCharacters(cs) && Utf8.Join(cs) == TextOfUnits(units)
    decreases |units|
  {
    hide Utf8Of, Utf8.IsCharacter, WellFormedUnits, Paired;
    cs := [];
    if units != [] {
      WellFormedTail(units);
      var point := if StartsWithPair(units) then Paired(units[0], units[1]) else units[0];
      var rest := WellFormedIsUtf8(if StartsWithPair(units) then units[2..] else units[1..]);
      Utf8OfIsCharacter(point);
      cs := [Utf8Of(point)] + rest;
      assert cs[1..] == rest;
    }
  }

  lemma {:induction false} Utf8IsWellFormed(units: seq<nat>, cs: seq<Text>)
    requires AllUnits(units) && Utf8.AreCharacters(cs) && Utf8.Join(cs) == TextOfUnits(units)
    ensures WellFormedUnits(units)
    decreases |units|
  {
    hide Utf8Of, Utf8.IsCharacter, WellFormedUnits, Paired;
    if units == [] {
      NoUnits();
    } else {
      WellFormedTail(units);
      if StartsWithPair(units) {
        FirstIsCodePoint(cs, Paired(units[0], units[1]), TextOfUnits(units[2..]));
        Utf8IsWellFormed(units[2..], cs[1..]);
      } else {
        FirstIsCodePoint(cs, units[0], TextOfUnits(units[1..]));
        Utf8IsWellFormed(units[1..], cs[1..]);
      }
    }
  }

  lemma NoUnits()
    ensures WellFormedUnits([])
  {
  }

  /**
  Any list of sixteen-bit units written as escapes is accepted. The text it becomes is valid
  UTF-8 if and only if the units are well-formed UTF-16: no half of a pair, high or low, alone.
  */
  lemma UnitsDecideUtf8(units: seq<nat>, rest: Text)
    requires AllUnits(units)
    ensures StringLiteral([QUOTE] + UnitEscapes(units) + [QUOTE] + rest) == Some((TextOfUnits(units), rest))
    ensures ValidUtf8(TextOfUnits(units)) <==> WellFormedUnits(units)
  {
    hide WellFormedUnits, TextOfUnits, UnitEscapes, Utf8.AreCharacters, Characters;
    assert ([QUOTE] + UnitEscapes(units) + [QUOTE] + rest)[1..] == UnitEscapes(units) + [QUOTE] + rest;
    CharactersReadUnits(units, rest);
    if WellFormedUnits(units) {
      var cs := WellFormedIsUtf8(units);
    }
    if ValidUtf8(TextOfUnits(units)) {
      var cs :| Utf8.AreCharacters(cs) && Utf8.Join(cs) == TextOfUnits(units);
      Utf8IsWellFormed(units, cs);
    }
  }

  /** A half of a pair on its own, high or low, is accepted and gives text that is not UTF-8. */
  lemma LoneSurrogateIsNotUtf8(half: nat, rest: Text)
    requires IsHigh(half) || IsLow(half)
    ensures StringLiteral([QUOTE] + UnitEscapes([half]) + [QUOTE] + rest) == Some((Utf8Of(half), rest))
    ensures !ValidUtf8(Utf8Of(half))
  {
    hide UnitEscapes, ValidUtf8, StringLiteral, Utf8Of;
    UnitsDecideUtf8([half], rest);
    assert [half][1..] == [];
    assert TextOfUnits([]) == [] && TextOfUnits([half]) == Utf8Of(half) + TextOfUnits([]);
    assert Utf8Of(half) + [] == Utf8Of(half);
    assert [half][0] == half;
  }
}
