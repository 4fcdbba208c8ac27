/**
Which bytes the JSON parser lets pass outside string literals (src/core/json_util.cpp:112-149,
342-412), whatever the text.
*/
module JsonBytes {
  import opened Bytes
  import opened JsonStrings
  import opened Json
  import opened JsonSpelling
  import opened JsonGrammar

  /** A blank, or a byte of a bracket, comma, colon, number or literal. */
  predicate TokenByte(b: Byte) {
    Blank(b) || b in Ascii("{}[],:+-.0123456789eEtruefalsn")
  }

  /** Outside its string literals the text has nothing but such bytes. */
  predicate Outside(a: Text)
    decreases |a|
  {
    a == [] || (
      if a[0] == QUOTE then StringLiteral(a).Some? && Outside(StringLiteral(a).value.1)
      else TokenByte(a[0]) && Outside(a[1..]))
  }

  lemma OutsideOne(a: Text)
    requires a != [] && a[0] != QUOTE && TokenByte(a[0]) && Outside(a[1..])
    ensures Outside(a)
  {
  }

  lemma {:induction false} OutsideSpace(a: Text)
    requires Outside(SkipSpace(a))
    ensures Outside(a)
  {
    if a != [] && IsSpace(a[0]) {
      OutsideSpace(a[1..]);
    }
  }

  lemma {:induction false} OutsideBytes(token: Text, a: Text)
    requires (forall i :: 0 <= i < |token| ==> token[i] != QUOTE && TokenByte(token[i])) && Outside(a)
    ensures Outside(token + a)
  {
    hide TokenByte;
    if token == [] {
      assert token + a == a;
    } else {
      assert (token + a)[1..] == token[1..] + a;
      OutsideBytes(token[1..], a);
    }
  }

  lemma OutsideString(a: Text)
    requires StringLiteral(a).Some? && Outside(StringLiteral(a).value.1)
    ensures Outside(a)
  {
  }

  lemma LiteralBytes(word: Text)
    requires word == TRUE || word == FALSE || word == NULL
    ensures forall i :: 0 <= i < |word| ==> word[i] != QUOTE && TokenByte(word[i])
  {
    var all := Ascii("{}[],:+-.0123456789eEtruefalsn");
    assert all[21] == 0x74 && all[22] == 0x72 && all[23] == 0x75 && all[24] == 0x65;
    assert all[25] == 0x66 && all[26] == 0x61 && all[27] == 0x6C && all[28] == 0x73 && all[29] == 0x6E;
  }

  lemma PunctuationBytes()
    ensures TokenByte(OPEN_ARRAY) && TokenByte(CLOSE_ARRAY) && TokenByte(OPEN_OBJECT) && TokenByte(CLOSE_OBJECT)
    ensures TokenByte(COMMA) && TokenByte(COLON)
  {
    var all := Ascii("{}[],:+-.0123456789eEtruefalsn");
    assert all[0] == OPEN_OBJECT && all[1] == CLOSE_OBJECT && all[2] == OPEN_ARRAY && all[3] == CLOSE_ARRAY;
    assert all[4] == COMMA && all[5] == COLON;
  }

  lemma NumberBytes(b: Byte)
    requires IsDigit(b) || b in {0x2B, 0x2D, 0x2E, 0x65, 0x45}
    ensures b != QUOTE && TokenByte(b)
  {
    var all := Ascii("{}[],:+-.0123456789eEtruefalsn");
    assert all[6] == 0x2B && all[7] == 0x2D && all[8] == 0x2E && all[19] == 0x65 && all[20] == 0x45;
    if IsDigit(b) {
      assert all[9 + (b - 0x30)] == b;
    }
  }

  lemma {:induction false} OutsideDigits(a: Text)
    requires Outside(AfterDigits(a))
    ensures Outside(a)
  {
    hide TokenByte;
    if a != [] && IsDigit(a[0]) {
      NumberBytes(a[0]);
      OutsideDigits(a[1..]);
    }
  }

  lemma OutsideSign(a: Text)
    requires Outside(AfterSign(a))
    ensures Outside(a)
  {
    hide TokenByte;
    if a != [] && (a[0] == 0x2D || a[0] == 0x2B) {
      NumberBytes(a[0]);
    }
  }

  lemma OutsideNumber(a: Text)
    requires NumberLexeme(a).Some? && Outside(NumberLexeme(a).value.1)
    ensures Outside(a)
  {
    hide TokenByte, Outside, AfterDigits, AfterSign;
    var whole := AfterSign(a);
    var b := AfterDigits(whole);
    var c := Fraction(b).1;
    OutsideExponent(c);
    OutsideFraction(b);
    OutsideDigits(whole);
    OutsideSign(a);
  }

  lemma OutsideFraction(a: Text)
    requires Outside(Fraction(a).1)
    ensures Outside(a)
  {
    hide TokenByte, AfterDigits;
    if a != [] && a[0] == 0x2E {
      OutsideDigits(a[1..]);
      NumberBytes(a[0]);
      OutsideOne(a);
    }
  }

  lemma OutsideExponent(a: Text)
    requires Outside(AfterExponent(a))
    ensures Outside(a)
  {
    hide TokenByte, AfterDigits, AfterSign;
    if a != [] && (a[0] == 0x65 || a[0] == 0x45) {
      OutsideDigits(AfterSign(a[1..]));
      OutsideSign(a[1..]);
      NumberBytes(a[0]);
      OutsideOne(a);
    }
  }

  lemma OutsideLiteral(word: Text, v: Json, a: Text)
    requires (word == TRUE || word == FALSE || word == NULL) && Literal(word, v, a).Some? && Outside(Literal(word, v, a).value.1)
    ensures Outside(a)
  {
    hide TokenByte, Outside;
    LiteralBytes(word);
    OutsideBytes(word, a[|word|..]);
    assert word + a[|word|..] == a;
  }

  /** A punctuation byte after a gap. */
  lemma OutsideMark(a: Text)
    requires SkipSpace(a) != [] && SkipSpace(a)[0] in {OPEN_ARRAY, CLOSE_ARRAY, OPEN_OBJECT, CLOSE_OBJECT, COMMA, COLON}
    requires Outside(SkipSpace(a)[1..])
    ensures Outside(a)
  {
    hide TokenByte;
    PunctuationBytes();
    OutsideOne(SkipSpace(a));
    OutsideSpace(a);
  }

  lemma {:induction false} OutsideValue(a: Text, depth: nat)
    requires Value(a, depth).Some? && Outside(Value(a, depth).value.1)
    ensures Outside(a)
    decreases |a|, 1
  {
    hide Outside, Items, Members, StringLiteral, NumberLexeme, SkipSpace, TokenByte;
    var b := SkipSpace(a);
    if b[0] == OPEN_OBJECT {
      var c := SkipSpace(b[1..]);
      if c != [] && c[0] == CLOSE_OBJECT {
        OutsideMark(b[1..]);
      } else {
        OutsideMembers(c, depth, []);
        OutsideSpace(b[1..]);
      }
      OutsideMark(a);
    } else if b[0] == OPEN_ARRAY {
      var c := SkipSpace(b[1..]);
      if c != [] && c[0] == CLOSE_ARRAY {
        OutsideMark(b[1..]);
      } else {
        OutsideItems(c, depth, []);
        OutsideSpace(b[1..]);
      }
      OutsideMark(a);
    } else {
      OutsideScalar(b, Value(a, depth).value.0, Value(a, depth).value.1);
      OutsideSpace(a);
    }
  }

  lemma OutsideScalar(b: Text, v: Json, rest: Text)
    requires b != [] && b[0] != OPEN_OBJECT && b[0] != OPEN_ARRAY && Outside(rest)
    requires match b[0]
             case 0x22 => StringLiteral(b).Some? && StringLiteral(b).value.1 == rest
             case 0x74 => Literal(TRUE, Bool(true), b) == Some((v, rest))
             case 0x66 => Literal(FALSE, Bool(false), b) == Some((v, rest))
             case 0x6E => Literal(NULL, Null, b) == Some((v, rest))
             case _ => NumberLexeme(b).Some? && NumberLexeme(b).value.1 == rest
    ensures Outside(b)
  {
    hide Outside, StringLiteral, NumberLexeme, Literal;
    match b[0]
    case 0x22 => OutsideString(b);
    case 0x74 => OutsideLiteral(TRUE, Bool(true), b);
    case 0x66 => OutsideLiteral(FALSE, Bool(false), b);
    case 0x6E => OutsideLiteral(NULL, Null, b);
    case _ => OutsideNumber(b);
  }

  lemma {:induction false} OutsideItems(a: Text, depth: nat, done: seq<Json>)
    requires Items(a, depth, done).Some? && Outside(Items(a, depth, done).value.1)
    ensures Outside(a)
    decreases |a|, 2
  {
    hide Outside, Value, SkipSpace;
    var (v, b) := Value(a, depth + 1).value;
    var c := SkipSpace(b);
    if c[0] == COMMA {
      OutsideItems(c[1..], depth, done + [v]);
    }
    OutsideMark(b);
    OutsideValue(a, depth + 1);
  }

  lemma OutsideKey(a: Text)
    requires Key(a).Some? && Outside(Key(a).value.1)
    ensures Outside(a)
  {
    hide Outside, StringLiteral, SkipSpace;
    OutsideMark(StringLiteral(SkipSpace(a)).value.1);
    OutsideString(SkipSpace(a));
    OutsideSpace(a);
  }

  lemma {:induction false} OutsideMembers(a: Text, depth: nat, done: seq<Member>)
    requires Members(a, depth, done).Some? && Outside(Members(a, depth, done).value.1)
    ensures Outside(a)
    decreases |a|, 2
  {
    hide Outside, Value, SkipSpace, Key, Put;
    var (key, b) := Key(a).value;
    var (v, c) := Value(b, depth + 1).value;
    var d := SkipSpace(c);
    if d[0] == COMMA {
      OutsideMembers(d[1..], depth, Put(done, key, v));
    }
    OutsideMark(c);
    OutsideValue(b, depth + 1);
    OutsideKey(a);
  }

  /** Whatever the text: if the parser accepts it, there is no other byte outside its strings. */
  lemma OnlyTokenBytesPass(a: Text)
    requires Parse(a).Some?
    ensures Outside(a)
  {
    hide Value, Outside, SkipSpace;
    var rest := Value(SkipSpace(a), 0).value.1;
    NothingOutside();
    OutsideSpace(rest);
    OutsideValue(SkipSpace(a), 0);
    OutsideSpace(a);
  }

  lemma NothingOutside()
    ensures Outside([])
  {
  }

  // ---------------------------------------------------------------- gaps of any other bytes

  /** Blanks, and bytes that occur in no token. */
  predicate NoTokens(a: Text) {
    forall i :: 0 <= i < |a| ==> Blank(a[i]) || (!TokenByte(a[i]) && a[i] != QUOTE)
  }

  lemma {:induction false} GapMustBeBlank(gap: Text, a: Text)
    requires NoTokens(gap) && Outside(gap + a)
    ensures AllBlank(gap) && Outside(a)
  {
    if gap == [] {
      assert gap + a == a;
    } else {
      assert (gap + a)[1..] == gap[1..] + a && (gap + a)[0] == gap[0];
      NotAQuote(gap[0]);
      GapMustBeBlank(gap[1..], a);
    }
  }

  lemma NotAQuote(b: Byte)
    ensures Blank(b) ==> b != QUOTE
  {
  }

  /** A token that passes leaves what follows it to pass. */
  lemma {:induction false} PassToken(token: Text, a: Text)
    requires Outside(token + a) && (Plain(token) || IsLiteral(token))
    ensures Outside(a)
    decreases |token|
  {
    hide TokenByte, StringLiteral;
    if token == [] {
      assert token + a == a;
    } else if Plain(token) {
      assert (token + a)[1..] == token[1..] + a && (token + a)[0] == token[0];
      PassToken(token[1..], a);
    } else {
      LiteralStart(token);
      assert (token + a)[0] == QUOTE;
      LiteralBefore(token, a);
    }
  }

  predicate Plain(token: Text) {
    forall i :: 0 <= i < |token| ==> token[i] != QUOTE
  }

  predicate GoodTokens(tokens: seq<Text>) {
    forall i :: 0 <= i < |tokens| ==> Plain(tokens[i]) || IsLiteral(tokens[i])
  }

  lemma NumberIsPlain(number: Text)
    requires IsNumber(number)
    ensures Plain(number)
  {
    hide NumberLexeme;
    var sign, whole, fraction, exponent, expSign, expDigits := NumberHasParts(number);
  }

  lemma {:induction false} GoodValue(u: Raw)
    requires Good(u)
    ensures GoodTokens(Tokens(u))
    decreases u
  {
    hide ItemTokens, MemberTokens, NumberLexeme, IsLiteral;
    match u
    case Listed(items) => GoodListTokens(items);
    case Braced(members) => GoodMemberTokens(members);
    case Numeral(number) => NumberIsPlain(number);
    case _ =>
  }

  lemma {:induction false} GoodListTokens(items: seq<Raw>)
    requires GoodItems(items)
    ensures GoodTokens(ItemTokens(items))
    decreases items, 1
  {
    hide Tokens, Good, IsLiteral;
    if items != [] {
      ItemTokensSplit(items);
      GoodValue(items[0]);
      GoodListTokens(items[1..]);
    }
  }

  lemma {:induction false} GoodMemberTokens(members: seq<Pair>)
    requires GoodMembers(members)
    ensures GoodTokens(MemberTokens(members))
    decreases members, 1
  {
    hide Tokens, Good, IsLiteral;
    if members != [] {
      MemberTokensSplit(members);
      GoodValue(members[0].value);
      GoodMemberTokens(members[1..]);
    }
  }

  ghost predicate GapsOfOthers(gaps: seq<Text>) {
    forall i :: 0 <= i < |gaps| ==> NoTokens(gaps[i])
  }

  lemma {:induction false} GapsMustBeBlank(tokens: seq<Text>, gaps: seq<Text>, last: Text)
    requires |gaps| == |tokens| && GoodTokens(tokens) && GapsOfOthers(gaps) && NoTokens(last)
    requires Outside(Spread(tokens, gaps) + last)
    ensures BlankGaps(gaps) && AllBlank(last)
  {
    hide IsLiteral, Plain, NoTokens, Outside, AllBlank;
    if tokens == [] {
      assert Spread(tokens, gaps) + last == last + [];
      GapMustBeBlank(last, []);
    } else {
      assert tokens == [tokens[0]] + tokens[1..];
      SpreadOne(tokens[0], tokens[1..], gaps, last);
      var more := Spread(tokens[1..], gaps[1..]) + last;
      GapMustBeBlank(gaps[0], tokens[0] + more);
      PassToken(tokens[0], more);
      GapsMustBeBlank(tokens[1..], gaps[1..], last);
      assert forall i :: 1 <= i < |gaps| ==> gaps[i] == gaps[1..][i - 1];
    }
  }

  /**
  Between, before and after the tokens of a value put any bytes that occur in no token: the text is
  accepted, as what the value means, if and only if every one of them is one of the four blanks.
  */
  lemma OnlyBlanksMayStand(u: Raw, gaps: seq<Text>, last: Text)
    requires Good(u) && Depth(u) <= 64 && |gaps| == |Tokens(u)| && GapsOfOthers(gaps) && NoTokens(last)
    ensures Parse(Spread(Tokens(u), gaps) + last) == if BlankGaps(gaps) && AllBlank(last) then Some(Meaning(u)) else None
  {
    hide Parse, Tokens, Spread, Good, Meaning, Depth, AllBlank, BlankGaps, NoTokens, GoodTokens, Outside;
    var a := Spread(Tokens(u), gaps) + last;
    if BlankGaps(gaps) && AllBlank(last) {
      SpelledIsParsed(a, u, gaps, last);
    } else if Parse(a).Some? {
      OnlyTokenBytesPass(a);
      GoodValue(u);
      GapsMustBeBlank(Tokens(u), gaps, last);
    }
  }

  /** Bytes that occur in tokens can change what is read: any number put into an empty array is an element. */
  lemma NumberBecomesElement(number: Text)
    requires IsNumber(number)
    ensures Parse(Ascii("[") + Ascii("]")) == Some(Array([]))
    ensures Parse(Ascii("[") + (number + Ascii("]"))) == Some(Array([Number(number)]))
  {
    hide Parse, NumberLexeme, Spread, Ascii;
    var open, close, inside := Ascii("["), Ascii("]"), Numeral(number);
    NoneInside();
    Tight2(open, close);
    SpelledIsParsed(open + close, Listed([]), [[], []], []);
    OneInside(number);
    Tight3(open, number, close);
    SpelledIsParsed(open + (number + close), Listed([inside]), [[], [], []], []);
  }

  lemma NoneInside()
    ensures var u := Listed([]);
            Tokens(u) == [Ascii("["), Ascii("]")] && Good(u) && Depth(u) == 0 && Meaning(u) == Array([])
  {
    hide Ascii;
    NoneLeft();
  }

  lemma OneInside(number: Text)
    requires IsNumber(number)
    ensures var u := Listed([Numeral(number)]);
            && Tokens(u) == [Ascii("["), number, Ascii("]")] && Good(u) && Depth(u) <= 1
            && Meaning(u) == Array([Number(number)])
  {
    hide NumberLexeme, Ascii;
    var items := [Numeral(number)];
    ItemTokensSplit(items);
    NoneLeft();
    DepthInside(Listed(items));
    assert items[0] == Numeral(number);
  }

  /** A digit, for example. */
  lemma DigitBecomesElement()
    ensures Parse(Ascii("[") + (Ascii("1") + Ascii("]"))) == Some(Array([Number(Ascii("1"))]))
  {
    hide Parse;
    var one := Ascii("1");
    NumbersAreRead([], one, [], [], [], [], []);
    assert [] + one + [] + [] == one && one + [] == one;
    NumberBecomesElement(one);
  }

  lemma Tight2(a: Text, b: Text)
    ensures Spread([a, b], [[], []]) + [] == a + b
  {
    hide Spread;
    var gaps: seq<Text> := [[], []];
    assert [a, b] == [a] + [b] && gaps[1..] == [[]];
    SpreadOne(a, [b], gaps, []);
    OneSpread([], b, []);
    assert [] + (a + b) == a + b && [] + (b + []) == b;
  }

  lemma Tight3(a: Text, b: Text, c: Text)
    ensures Spread([a, b, c], [[], [], []]) + [] == a + (b + c)
  {
    hide Spread;
    var gaps: seq<Text> := [[], [], []];
    assert [a, b, c] == [a] + [b, c] && gaps[1..] == [[], []];
    SpreadOne(a, [b, c], gaps, []);
    Tight2(b, c);
  }
}
