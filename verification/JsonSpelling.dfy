/**
How JSON tokens are spelled (src/core/json_util.cpp:151-158, 208-340): punctuation and literals,
escapes, hexadecimal digits, numbers and string literals.
*/
module JsonSpelling {
  import opened Bytes
  import opened JsonStrings
  import opened Json

  /** The ASCII bytes of some text. */
  function Ascii(s: string): Text
    requires forall i :: 0 <= i < |s| ==> s[i] < 128 as char
  {
    seq(|s|, i requires 0 <= i < |s| => s[i] as int)
  }

  // ---------------------------------------------------------------- spelling

  /** The tokens are those of sections 2 and 3 of RFC 8259, and 64 levels may be open. */
  lemma Spelling()
    ensures TRUE == Ascii("true") && FALSE == Ascii("false") && NULL == Ascii("null")
    ensures [OPEN_ARRAY] == Ascii("[") && [CLOSE_ARRAY] == Ascii("]")
    ensures [OPEN_OBJECT] == Ascii("{") && [CLOSE_OBJECT] == Ascii("}")
    ensures [COMMA] == Ascii(",") && [COLON] == Ascii(":") && MAX_DEPTH == 64
  {
  }

  /** The two-character escapes of section 7 of RFC 8259: a letter and the byte it stands for. */
  const SHORT: map<Byte, Byte> :=
    map[0x22 := 0x22, 0x5C := 0x5C, 0x2F := 0x2F, 0x62 := 0x08, 0x66 := 0x0C, 0x6E := 0x0A, 0x72 := 0x0D, 0x74 := 0x09]

  /** A backslash and any byte but u: read if and only if it is one of the eight, as what it stands for. */
  lemma ShortEscapesAreStandard(letter: Byte, rest: Text)
    requires letter != 0x75
    ensures Piece([0x5C, letter] + rest) == if letter in SHORT then Some(([SHORT[letter]], rest)) else None
  {
    assert ([0x5C, letter] + rest)[2..] == rest;
  }

  /** Every byte that needs an escape is printed with its letter if it has one; the slash is not escaped. */
  lemma PrintedEscapesAreStandard(letter: Byte)
    requires letter in SHORT && letter != 0x2F
    ensures Escape(SHORT[letter]) == [0x5C, letter]
  {
  }

  /** Any other byte is printed as it is, or as four hexadecimal digits if it is a control character. */
  lemma OtherEscapes(b: Byte)
    requires b == 0x2F || (forall letter | letter in SHORT :: SHORT[letter] != b)
    ensures b >= 0x20 ==> Escape(b) == [b]
    ensures b < 0x20 ==> |Escape(b)| == 6 && Escape(b)[..4] == Ascii("\\u00") && Hex4(Escape(b)[2..]) == Some(b)
  {
    assert 0x22 in SHORT && 0x5C in SHORT && 0x62 in SHORT && 0x66 in SHORT && 0x6E in SHORT && 0x72 in SHORT && 0x74 in SHORT;
    if b < 0x20 {
      Hex4Reads(b, []);
      assert HexDigits4(b) + [] == HexDigits4(b);
      assert Escape(b)[2..] == HexDigits4(b);
    }
  }

  /** A digit has its value in either case of letter, and no other byte is a digit. */
  lemma HexDigitsAreStandard(b: Byte)
    ensures var lower, upper := Ascii("0123456789abcdef"), Ascii("0123456789ABCDEF");
            && (forall i :: 0 <= i < 16 && (lower[i] == b || upper[i] == b) ==> HexValue(b) == Some(i))
            && (b !in lower && b !in upper ==> HexValue(b).None?)
  {
    var lower, upper := Ascii("0123456789abcdef"), Ascii("0123456789ABCDEF");
    assert forall i :: 0 <= i < 10 ==> lower[i] == 0x30 + i == upper[i];
    assert forall i :: 10 <= i < 16 ==> lower[i] == 0x61 + (i - 10) && upper[i] == 0x41 + (i - 10);
    if 0x30 <= b <= 0x39 {
      assert lower[b - 0x30] == b;
    } else if 0x61 <= b <= 0x66 {
      assert lower[b - 0x61 + 10] == b;
    } else if 0x41 <= b <= 0x46 {
      assert upper[b - 0x41 + 10] == b;
    }
  }

  // ---------------------------------------------------------------- numbers

  predicate Digits(s: Text) {
    forall i :: 0 <= i < |s| ==> 0x30 <= s[i] <= 0x39
  }

  /** An optional sign, plus or minus. */
  predicate Sign(s: Text) {
    s == [] || s == Ascii("-") || s == Ascii("+")
  }

  /** Nothing, or a point and any digits. */
  predicate FractionPart(s: Text) {
    s == [] || (s[0] == 0x2E && Digits(s[1..]))
  }

  /** Nothing, or the letter e in either case, a sign if any, and any digits. */
  predicate ExponentPart(s: Text, sign: Text, digits: Text) {
    s == [] || ((s == Ascii("e") + sign + digits || s == Ascii("E") + sign + digits) && Sign(sign) && Digits(digits))
  }

  /** The text `rest` does not go on with one of the bytes. */
  predicate EndsBefore(rest: Text, bytes: set<int>) {
    rest == [] || rest[0] !in bytes
  }

  const TEN: set<int> := set d | 0x30 <= d <= 0x39

  lemma {:induction false} DigitsRead(s: Text, rest: Text)
    requires Digits(s) && EndsBefore(rest, TEN)
    ensures AfterDigits(s + rest) == rest
  {
    if s == [] {
      assert s + rest == rest;
    } else {
      assert (s + rest)[0] == s[0] && (s + rest)[1..] == s[1..] + rest;
      DigitsRead(s[1..], rest);
    }
  }

  lemma SignReads(sign: Text, rest: Text)
    requires Sign(sign) && (sign == [] ==> EndsBefore(rest, {0x2B, 0x2D}))
    ensures AfterSign(sign + rest) == rest
  {
    assert sign == [] ==> sign + rest == rest;
    assert sign != [] ==> (sign + rest)[1..] == rest;
  }

  lemma FractionReads(part: Text, rest: Text)
    requires FractionPart(part) && EndsBefore(rest, TEN) && (part == [] ==> EndsBefore(rest, {0x2E}))
    ensures Fraction(part + rest) == (|part| > 1, rest)
  {
    if part == [] {
      assert part + rest == rest;
    } else {
      assert (part + rest)[1..] == part[1..] + rest;
      DigitsRead(part[1..], rest);
    }
  }

  lemma ExponentReads(part: Text, sign: Text, digits: Text, rest: Text)
    requires ExponentPart(part, sign, digits) && EndsBefore(rest, TEN)
    requires part == [] ==> EndsBefore(rest, {0x65, 0x45})
    requires part != [] && sign == [] && digits == [] ==> EndsBefore(rest, {0x2B, 0x2D})
    ensures AfterExponent(part + rest) == rest
  {
    if part == [] {
      assert part + rest == rest;
    } else {
      assert (part + rest)[1..] == sign + (digits + rest);
      SignReads(sign, digits + rest);
      DigitsRead(digits, rest);
    }
  }

  /**
  A number: a sign if any, digits, a fraction if any and an exponent if any, with a digit before the
  exponent. It is read to its end, wherever what follows cannot belong to it; without such a digit
  there is no number.
  */
  lemma NumbersAreRead(sign: Text, whole: Text, fraction: Text, exponent: Text, expSign: Text, expDigits: Text, rest: Text)
    requires Sign(sign) && Digits(whole) && FractionPart(fraction) && ExponentPart(exponent, expSign, expDigits)
    requires EndsBefore(rest, TEN + {0x2B, 0x2D, 0x2E, 0x65, 0x45})
    ensures var number := sign + whole + fraction + exponent;
            NumberLexeme(number + rest) == if |whole| > 0 || |fraction| > 1 then Some((number, rest)) else None
  {
    hide Sign, Digits, AfterSign, AfterDigits, AfterExponent;
    var number := sign + whole + fraction + exponent;
    var a := number + rest;
    var e := exponent + rest;
    var f := fraction + e;
    var w := whole + f;
    assert a == sign + w;
    assert a[..|a| - |rest|] == number;
    PartsEnd(sign, whole, fraction, exponent, expSign, expDigits, rest);
    SignReads(sign, w);
    DigitsRead(whole, f);
    FractionReads(fraction, e);
    ExponentReads(exponent, expSign, expDigits, rest);
  }

  /** No part of a number begins as the one before it goes on. */
  lemma PartsEnd(sign: Text, whole: Text, fraction: Text, exponent: Text, expSign: Text, expDigits: Text, rest: Text)
    requires Sign(sign) && Digits(whole) && FractionPart(fraction) && ExponentPart(exponent, expSign, expDigits)
    requires EndsBefore(rest, TEN + {0x2B, 0x2D, 0x2E, 0x65, 0x45})
    ensures var e := exponent + rest; var f := fraction + e; var w := whole + f;
            && EndsBefore(e, TEN + {0x2E}) && EndsBefore(f, TEN) && EndsBefore(w, {0x2B, 0x2D})
  {
    var e := exponent + rest;
    var f := fraction + e;
    assert exponent == [] ==> e == rest;
    assert fraction == [] ==> f == e;
    assert whole == [] ==> whole + f == f;
  }

  lemma {:induction false} DigitsGiven(a: Text) returns (s: Text)
    ensures Digits(s) && a == s + AfterDigits(a) && EndsBefore(AfterDigits(a), TEN)
  {
    s := [];
    if a != [] && IsDigit(a[0]) {
      var more := DigitsGiven(a[1..]);
      s := [a[0]] + more;
    }
  }

  lemma SignGiven(a: Text) returns (s: Text)
    ensures Sign(s) && a == s + AfterSign(a)
  {
    s := if AfterSign(a) == a then [] else a[..1];
    assert AfterSign(a) == a || (a == [a[0]] + a[1..] && s == [a[0]]);
  }

  lemma FractionGiven(a: Text) returns (s: Text)
    ensures FractionPart(s) && a == s + Fraction(a).1 && (Fraction(a).0 <==> |s| > 1)
  {
    hide AfterDigits, Digits;
    s := [];
    if a != [] && a[0] == 0x2E {
      var digits := DigitsGiven(a[1..]);
      s := [0x2E] + digits;
    }
  }

  lemma ExponentGiven(a: Text) returns (s: Text, sign: Text, digits: Text)
    ensures ExponentPart(s, sign, digits) && a == s + AfterExponent(a)
  {
    hide AfterDigits, AfterSign, Digits, Sign;
    s, sign, digits := [], [], [];
    if a != [] && (a[0] == 0x65 || a[0] == 0x45) {
      sign := SignGiven(a[1..]);
      digits := DigitsGiven(AfterSign(a[1..]));
      s := [a[0]] + sign + digits;
    }
  }

  /** Whatever is read as a number has that shape, and is what was there. */
  lemma NumberHasParts(a: Text)
    returns (sign: Text, whole: Text, fraction: Text, exponent: Text, expSign: Text, expDigits: Text)
    requires NumberLexeme(a).Some?
    ensures Sign(sign) && Digits(whole) && FractionPart(fraction) && ExponentPart(exponent, expSign, expDigits)
    ensures NumberLexeme(a).value.0 == sign + whole + fraction + exponent && (|whole| > 0 || |fraction| > 1)
    ensures a == NumberLexeme(a).value.0 + NumberLexeme(a).value.1
  {
    hide AfterDigits, AfterSign, Digits, Sign, Fraction, AfterExponent, FractionPart, ExponentPart;
    sign := SignGiven(a);
    var w := AfterSign(a);
    whole := DigitsGiven(w);
    var f := AfterDigits(w);
    fraction := FractionGiven(f);
    var e := Fraction(f).1;
    exponent, expSign, expDigits := ExponentGiven(e);
    var rest := AfterExponent(e);
    var number := sign + whole + fraction + exponent;
    assert a == number + rest;
    assert a[..|a| - |rest|] == number;
  }

  /** A text that is a number as a whole. */
  predicate IsNumber(s: Text) {
    NumberLexeme(s) == Some((s, []))
  }

  /** A number is read the same before any text that cannot go on with it. */
  lemma NumberBefore(number: Text, rest: Text)
    requires IsNumber(number) && EndsBefore(rest, TEN + {0x2B, 0x2D, 0x2E, 0x65, 0x45})
    ensures NumberLexeme(number + rest) == Some((number, rest))
  {
    hide NumberLexeme, Sign, Digits, FractionPart, ExponentPart;
    var sign, whole, fraction, exponent, expSign, expDigits := NumberHasParts(number);
    NumbersAreRead(sign, whole, fraction, exponent, expSign, expDigits, rest);
  }

  lemma NumberFound(a: Text)
    requires NumberLexeme(a).Some?
    ensures IsNumber(NumberLexeme(a).value.0) && a == NumberLexeme(a).value.0 + NumberLexeme(a).value.1
  {
    hide NumberLexeme, Sign, Digits, FractionPart, ExponentPart;
    var sign, whole, fraction, exponent, expSign, expDigits := NumberHasParts(a);
    NumbersAreRead(sign, whole, fraction, exponent, expSign, expDigits, []);
    var number := NumberLexeme(a).value.0;
    assert number + [] == number;
  }

  lemma NumberStart(a: Text)
    requires NumberLexeme(a).Some?
    ensures a != [] && a[0] in TEN + {0x2B, 0x2D, 0x2E}
  {
  }

  // ---------------------------------------------------------------- string literals

  /** Four bytes that are not all digits are no escape. */
  lemma BadHexIsRefused(a: Text)
    requires |a| < 4 || exists i :: 0 <= i < 4 && HexValue(a[i]).None?
    ensures Piece([0x5C, 0x75] + a).None?
  {
    hide HexValue, Utf8Of, LowHalf;
    assert ([0x5C, 0x75] + a)[2..] == a;
    if |a| >= 4 {
      var i :| 0 <= i < 4 && HexValue(a[i]).None?;
      HexNeedsAll(a[..4], i);
    }
  }

  lemma {:induction false} HexNeedsAll(s: Text, i: nat)
    requires i < |s| && HexValue(s[i]).None?
    ensures HexNumber(s).None?
  {
    if i < |s| - 1 {
      HexNeedsAll(s[..|s| - 1], i);
    }
  }

  /** Bytes other than the quote and the backslash stand for themselves, control characters too. */
  lemma {:induction false} RawBytesAreKept(s: Text, rest: Text)
    requires forall i :: 0 <= i < |s| ==> s[i] != 0x22 && s[i] != 0x5C
    ensures Characters(s + ([0x22] + rest)) == Some((s, rest)) && Characters(s).None?
  {
    var a := s + ([0x22] + rest);
    if s == [] {
      assert a[1..] == rest;
    } else {
      assert a[1..] == s[1..] + ([0x22] + rest);
      RawBytesAreKept(s[1..], rest);
      assert [s[0]] + s[1..] == s;
    }
  }

  /** A text that is a string literal as a whole. */
  predicate IsLiteral(s: Text) {
    StringLiteral(s).Some? && StringLiteral(s).value.1 == []
  }

  /** The text that it stands for. */
  function TextOf(s: Text): Text
    requires IsLiteral(s)
  {
    StringLiteral(s).value.0
  }

  lemma HexIsLocal(c: Text, rest: Text)
    requires |c| >= 4
    ensures Hex4(c + rest) == Hex4(c)
  {
    assert (c + rest)[..4] == c[..4];
  }

  lemma LowHalfGrows(c: Text, rest: Text)
    requires LowHalf(c).Some? || |c| >= 6
    ensures LowHalf(c + rest) == LowHalf(c)
  {
    hide Hex4;
    assert LowHalf(c).Some? ==> |c[2..]| >= 4 by { ShortHex(c); }
    if |c| >= 6 {
      assert (c + rest)[2..] == c[2..] + rest;
      HexIsLocal(c[2..], rest);
    }
  }

  lemma HalfHasSix(a: Text)
    ensures LowHalf(a).Some? ==> |a| >= 6
  {
  }

  lemma ShortHex(c: Text)
    ensures |c| >= 2 && Hex4(c[2..]).Some? ==> |c[2..]| >= 4
  {
  }

  lemma QuoteIsNoHex(a: Text, i: nat)
    requires i < 4 && i < |a| && a[i] == QUOTE
    ensures Hex4(a).None?
  {
    if |a| >= 4 {
      HexNeedsAll(a[..4], i);
    }
  }

  /** A quote among the next six bytes leaves no room for a low half. */
  lemma LowHalfNeedsRoom(a: Text, i: nat)
    requires i < 6 && i < |a| && a[i] == QUOTE
    ensures LowHalf(a).None?
  {
    hide Hex4;
    if |a| >= 2 && i >= 2 {
      QuoteIsNoHex(a[2..], i - 2);
    }
  }

  lemma {:induction false} EndsWithQuote(c: Text)
    requires Characters(c).Some? && Characters(c).value.1 == []
    ensures c != [] && c[|c| - 1] == QUOTE
    decreases |c|
  {
    hide Piece;
    if c[0] != QUOTE {
      PieceIsSuffix(c);
      EndsWithQuote(Piece(c).value.1);
    }
  }

  lemma UnicodeIsSuffix(c: Text)
    requires UnicodeEscape(c).Some?
    ensures var b := UnicodeEscape(c).value.1; |b| + 4 <= |c| && b == c[|c| - |b|..]
  {
    hide Hex4, LowHalf, Utf8Of, Paired;
    EnoughDigits(c);
    HalfHasSix(c[4..]);
    assert |c| >= 10 ==> c[4..][6..] == c[10..];
  }

  lemma PieceIsSuffix(c: Text)
    requires c != [] && Piece(c).Some?
    ensures var b := Piece(c).value.1; |b| < |c| && b == c[|c| - |b|..]
  {
    hide UnicodeEscape, ShortMeaning;
    if c[0] == BACKSLASH && c[1] == LETTER_U {
      UnicodeIsSuffix(c[2..]);
    }
  }

  /** A piece is read the same with anything after the closing quote. */
  lemma PieceIsLocal(c: Text, rest: Text)
    requires c != [] && c[|c| - 1] == QUOTE && Piece(c).Some? && Piece(c).value.1 != []
    ensures Piece(c + rest) == Some((Piece(c).value.0, Piece(c).value.1 + rest))
  {
    hide Hex4, LowHalf, Utf8Of, Paired, ShortMeaning;
    var a := c + rest;
    if c[0] != BACKSLASH {
      assert a[1..] == c[1..] + rest;
    } else if c[1] == LETTER_U {
      assert a[2..] == c[2..] + rest;
      UnicodeIsLocal(c[2..], rest);
    } else {
      assert a[2..] == c[2..] + rest;
    }
  }

  lemma UnicodeIsLocal(c: Text, rest: Text)
    requires c != [] && c[|c| - 1] == QUOTE && UnicodeEscape(c).Some?
    ensures UnicodeEscape(c + rest) == Some((UnicodeEscape(c).value.0, UnicodeEscape(c).value.1 + rest))
  {
    hide Hex4, LowHalf, Utf8Of, Paired;
    var a := c + rest;
    EnoughDigits(c);
    HexIsLocal(c, rest);
    var d := c[4..];
    assert a[4..] == d + rest;
    if |d| >= 6 {
      LowHalfGrows(d, rest);
      assert a[4..][6..] == d[6..] + rest;
    } else {
      ShortHalf(c);
      assert (d + rest)[|d| - 1] == QUOTE && d[|d| - 1] == QUOTE;
      LowHalfNeedsRoom(d, |d| - 1);
      LowHalfNeedsRoom(d + rest, |d| - 1);
    }
  }

  lemma EnoughDigits(c: Text)
    requires UnicodeEscape(c).Some?
    ensures |c| >= 4
  {
    hide LowHalf, Utf8Of, Paired;
  }

  /** The closing quote is none of the four digits. */
  lemma ShortHalf(c: Text)
    requires UnicodeEscape(c).Some? && c != [] && c[|c| - 1] == QUOTE
    ensures |c| > 4
  {
    hide LowHalf, Utf8Of, Paired;
    if |c| <= 4 {
      QuoteIsNoHex(c, |c| - 1);
    }
  }

  lemma {:induction false} CharactersAreLocal(c: Text, rest: Text)
    requires Characters(c).Some? && Characters(c).value.1 == []
    ensures Characters(c + rest) == Some((Characters(c).value.0, rest))
    decreases |c|
  {
    hide Piece;
    assert (c + rest)[0] == c[0];
    if c[0] == QUOTE {
      assert c[1..] == [] && (c + rest)[1..] == rest;
    } else {
      EndsWithQuote(c);
      var b := Piece(c).value.1;
      EndsWithQuote(b);
      PieceIsLocal(c, rest);
      CharactersAreLocal(b, rest);
    }
  }

  /** A string literal is read the same before any text. */
  lemma LiteralBefore(s: Text, rest: Text)
    requires IsLiteral(s)
    ensures StringLiteral(s + rest) == Some((TextOf(s), rest))
  {
    hide Characters;
    assert (s + rest)[1..] == s[1..] + rest;
    CharactersAreLocal(s[1..], rest);
  }

  lemma PieceOfCut(c: Text, rest: Text)
    requires c != [] && Piece(c + rest).Some? && |Piece(c + rest).value.1| >= |rest|
    ensures Piece(c).Some? && Piece(c).value.0 == Piece(c + rest).value.0 && Piece(c).value.1 + rest == Piece(c + rest).value.1
  {
    hide Hex4, LowHalf, Utf8Of, Paired, ShortMeaning;
    var a := c + rest;
    if c[0] != BACKSLASH {
      assert a[1..] == c[1..] + rest;
    } else if a[1] == LETTER_U {
      LongEnough(a);
      assert a[2..] == c[2..] + rest;
      UnicodeOfCut(c[2..], rest);
    } else {
      assert a[2..] == c[2..] + rest;
    }
  }

  lemma LongEnough(a: Text)
    requires |a| >= 2 && a[0] == BACKSLASH && a[1] == LETTER_U && Piece(a).Some?
    ensures |Piece(a).value.1| + 6 <= |a|
  {
    hide UnicodeEscape;
    UnicodeIsSuffix(a[2..]);
  }

  lemma UnicodeOfCut(c: Text, rest: Text)
    requires UnicodeEscape(c + rest).Some? && |UnicodeEscape(c + rest).value.1| >= |rest|
    ensures UnicodeEscape(c).Some? && UnicodeEscape(c).value.0 == UnicodeEscape(c + rest).value.0
    ensures UnicodeEscape(c).value.1 + rest == UnicodeEscape(c + rest).value.1
  {
    hide Hex4, LowHalf, Utf8Of, Paired;
    var a := c + rest;
    EnoughDigits(a);
    UnicodeIsSuffix(a);
    HexIsLocal(c, rest);
    var d := c[4..];
    assert a[4..] == d + rest;
    HalfHasSix(d);
    HalfHasSix(d + rest);
    if |d| >= 6 {
      LowHalfGrows(d, rest);
      assert a[4..][6..] == d[6..] + rest;
    }
  }

  lemma {:induction false} CharactersOfCut(a: Text) returns (c: Text)
    requires Characters(a).Some?
    ensures a == c + Characters(a).value.1 && Characters(c) == Some((Characters(a).value.0, []))
    decreases |a|
  {
    hide Piece;
    var rest := Characters(a).value.1;
    if a[0] == QUOTE {
      c := [QUOTE];
      assert c[1..] == [];
    } else {
      var b := Piece(a).value.1;
      var d := CharactersOfCut(b);
      PieceIsSuffix(a);
      c := a[..|a| - |rest|];
      assert a == c + rest;
      PieceOfCut(c, rest);
      SameStart(Piece(c).value.1, d, rest);
    }
  }

  lemma SameStart(a: Text, b: Text, rest: Text)
    requires a + rest == b + rest
    ensures a == b
  {
    assert a == (a + rest)[..|a|] && b == (b + rest)[..|b|];
  }

  /** What was read as a string literal is one as a whole. */
  lemma LiteralFound(a: Text) returns (s: Text)
    requires StringLiteral(a).Some?
    ensures a == s + StringLiteral(a).value.1 && IsLiteral(s) && TextOf(s) == StringLiteral(a).value.0
  {
    hide Characters;
    var c := CharactersOfCut(a[1..]);
    s := [QUOTE] + c;
    assert s[1..] == c;
  }
}
