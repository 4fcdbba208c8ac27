/**
The JSON printer's and parser's loops (src/core/json_util.cpp), proved against the grammar of
module Json. The parser is a cursor in a text; error texts are left out, so a failing method
gives back `None` and leaves the cursor anywhere in bounds. Each method is proved to agree with its
function of that module on every text.
*/
module JsonParser {
  import opened Bytes
  import opened JsonStrings
  import opened Json
  import opened JsonGrammar
  import opened JsonRoundTrip

  // ---------------------------------------------------------------- printing

  /** One more part, after its separator, of a printed list whose remainder was `whole`. */
  lemma OneMore(out: Text, separator: Text, e: Text, more: Text, whole: Text)
    requires whole == separator + e + more
    ensures out + separator + e + more == out + whole && (separator == [] ==> out + separator == out)
  {
  }

  lemma ItemAt(items: seq<Json>, i: nat, shown: Text -> Text)
    requires i < |items|
    ensures DumpItems(items[i..], shown) == [] + Dump(items[i], shown) + MoreItems(items[i + 1..], shown)
    ensures MoreItems(items[i..], shown) == [COMMA] + Dump(items[i], shown) + MoreItems(items[i + 1..], shown)
    ensures items[0..] == items
  {
    hide Dump;
    var s := items[i..];
    assert s[1..] == items[i + 1..];
    assert DumpItems(s, shown) == Dump(s[0], shown) + MoreItems(s[1..], shown);
    hide DumpItems;
    assert MoreItems(s, shown) == [COMMA] + DumpItems(s, shown);
    hide MoreItems;
    Regroup([COMMA], Dump(s[0], shown), MoreItems(s[1..], shown));
  }

  lemma MemberAt(members: seq<Member>, i: nat, shown: Text -> Text)
    requires i < |members|
    ensures DumpMembers(members[i..], shown) == [] + DumpMember(members[i], shown) + MoreMembers(members[i + 1..], shown)
    ensures MoreMembers(members[i..], shown) == [COMMA] + DumpMember(members[i], shown) + MoreMembers(members[i + 1..], shown)
    ensures members[0..] == members
  {
    hide DumpMember;
    var s := members[i..];
    assert s[1..] == members[i + 1..];
    assert DumpMembers(s, shown) == DumpMember(s[0], shown) + MoreMembers(s[1..], shown);
    hide DumpMembers;
    assert MoreMembers(s, shown) == [COMMA] + DumpMembers(s, shown);
    hide MoreMembers;
    Regroup([COMMA], DumpMember(s[0], shown), MoreMembers(s[1..], shown));
  }

  lemma ValueAt(values: seq<Text>, i: nat)
    requires i < |values|
    ensures Commas(values[i..]) == [] + Quoted(values[i]) + MoreCommas(values[i + 1..])
    ensures MoreCommas(values[i..]) == [COMMA] + Quoted(values[i]) + MoreCommas(values[i + 1..])
    ensures values[0..] == values
  {
    hide Quoted;
    var s := values[i..];
    assert s[1..] == values[i + 1..];
    assert Commas(s) == Quoted(s[0]) + MoreCommas(s[1..]);
    hide Commas;
    assert MoreCommas(s) == [COMMA] + Commas(s);
    hide MoreCommas;
    Regroup([COMMA], Quoted(s[0]), MoreCommas(s[1..]));
  }

  /** JsonValue::dump. */
  method DumpText(v: Json, shown: Text -> Text) returns (out: Text)
    ensures out == Dump(v, shown)
    decreases v
  {
    hide Quoted, DumpItems, DumpMembers;
    match v
    case Null => out := NULL;
    case Bool(b) => out := if b then TRUE else FALSE;
    case Number(lexeme) => out := shown(lexeme);
    case String(text) => out := EncodeString(text);
    case Array(items) => out := DumpArray(items, shown);
    case Object(members) => out := DumpObject(members, shown);
  }

  method DumpArray(items: seq<Json>, shown: Text -> Text) returns (out: Text)
    ensures out == Dump(Array(items), shown)
    decreases items
  {
    hide DumpItems, MoreItems;
    out := [OPEN_ARRAY];
    ghost var all := [OPEN_ARRAY] + DumpItems(items, shown);
    for i := 0 to |items|
      invariant i == 0 ==> out == [OPEN_ARRAY]
      invariant i > 0 ==> out + MoreItems(items[i..], shown) == all
    {
      ghost var before := out;
      if i != 0 {
        out := out + [COMMA];
      }
      var e := DumpText(items[i], shown);
      ItemAt(items, i, shown);
      OneMore(before, if i == 0 then [] else [COMMA], e, MoreItems(items[i + 1..], shown),
              if i == 0 then DumpItems(items[i..], shown) else MoreItems(items[i..], shown));
      out := out + e;
    }
    NoItems(items, shown);
    out := out + [CLOSE_ARRAY];
  }

  lemma NoItems(items: seq<Json>, shown: Text -> Text)
    ensures MoreItems(items[|items|..], shown) == [] && (items == [] ==> DumpItems(items, shown) == [])
  {
  }

  method DumpObject(members: seq<Member>, shown: Text -> Text) returns (out: Text)
    ensures out == Dump(Object(members), shown)
    decreases members
  {
    hide DumpMembers, MoreMembers, Quoted;
    out := [OPEN_OBJECT];
    ghost var all := [OPEN_OBJECT] + DumpMembers(members, shown);
    for i := 0 to |members|
      invariant i == 0 ==> out == [OPEN_OBJECT]
      invariant i > 0 ==> out + MoreMembers(members[i..], shown) == all
    {
      ghost var before := out;
      if i != 0 {
        out := out + [COMMA];
      }
      var k := EncodeString(members[i].key);
      var e := DumpText(members[i].value, shown);
      MemberAt(members, i, shown);
      OneMore(before, if i == 0 then [] else [COMMA], k + [COLON] + e, MoreMembers(members[i + 1..], shown),
              if i == 0 then DumpMembers(members[i..], shown) else MoreMembers(members[i..], shown));
      out := out + (k + [COLON] + e);
    }
    NoMembers(members, shown);
    out := out + [CLOSE_OBJECT];
  }

  lemma NoMembers(members: seq<Member>, shown: Text -> Text)
    ensures MoreMembers(members[|members|..], shown) == [] && (members == [] ==> DumpMembers(members, shown) == [])
  {
  }

  /** encode_json_string_array. */
  method EncodeStringArray(values: seq<Text>) returns (out: Text)
    ensures out == ListText(values)
  {
    hide Quoted, Commas, MoreCommas;
    out := [OPEN_ARRAY];
    ghost var all := [OPEN_ARRAY] + Commas(values);
    for i := 0 to |values|
      invariant i == 0 ==> out == [OPEN_ARRAY]
      invariant i > 0 ==> out + MoreCommas(values[i..]) == all
    {
      ghost var before := out;
      if i != 0 {
        out := out + [COMMA];
      }
      var e := EncodeString(values[i]);
      ValueAt(values, i);
      OneMore(before, if i == 0 then [] else [COMMA], e, MoreCommas(values[i + 1..]),
              if i == 0 then Commas(values[i..]) else MoreCommas(values[i..]));
      out := out + e;
    }
    NoValues(values);
    out := out + [CLOSE_ARRAY];
  }

  lemma NoValues(values: seq<Text>)
    ensures MoreCommas(values[|values|..]) == [] && (values == [] ==> Commas(values) == [])
  {
  }

  // ---------------------------------------------------------------- parsing

  /** A method gave back `r` and left the text `after`, where the grammar says `expected`. */
  ghost predicate Agrees<T>(expected: Option<(T, Text)>, r: Option<T>, after: Text) {
    (r.Some? <==> expected.Some?) && (r.Some? ==> expected == Some((r.value, after)))
  }

  /** What is left of `expected` once its first part has been read as `done`. */
  ghost function Prefixed(done: Text, expected: Option<(Text, Text)>): Option<(Text, Text)> {
    if expected.Some? then Some((done + expected.value.0, expected.value.1)) else None
  }

  class JsonParser {
    const text: Text
    var index: nat

    ghost predicate Valid()
      reads this
    {
      index <= |text|
    }

    ghost function Rest(): Text
      requires Valid()
      reads this
    {
      text[index..]
    }

    constructor (text: Text)
      ensures Valid() && this.text == text && Rest() == text
    {
      this.text, index := text, 0;
    }

    method SkipWhitespace()
      requires Valid()
      modifies this
      ensures Valid() && Rest() == SkipSpace(old(Rest())) && index >= old(index)
      ensures forall i :: old(index) <= i < index ==> text[i] in {0x20, 0x09, 0x0A, 0x0D}
      ensures index == |text| || text[index] !in {0x20, 0x09, 0x0A, 0x0D}
    {
      while index < |text|
        invariant Valid() && index >= old(index) && SkipSpace(Rest()) == SkipSpace(old(Rest()))
        invariant forall i :: old(index) <= i < index ==> text[i] in {0x20, 0x09, 0x0A, 0x0D}
        decreases |text| - index
      {
        if IsSpace(text[index]) {
          assert Rest()[1..] == text[index + 1..];
          index := index + 1;
        } else {
          break;
        }
      }
    }

    /** literal. */
    method ReadLiteral(word: Text) returns (ok: bool)
      requires Valid()
      modifies this
      ensures Valid() && index >= old(index) && ok == (word <= old(Rest()))
      ensures Rest() == if ok then old(Rest())[|word|..] else old(Rest())
    {
      if index + |word| > |text| || text[index..index + |word|] != word {
        assert index + |word| <= |text| ==> Rest()[..|word|] == text[index..index + |word|];
        return false;
      }
      assert Rest()[..|word|] == word;
      index := index + |word|;
      return true;
    }

    method ReadDigits() returns (any: bool)
      requires Valid()
      modifies this
      ensures Valid() && index >= old(index) && Rest() == AfterDigits(old(Rest())) && any == (index > old(index))
    {
      any := false;
      while index < |text| && IsDigit(text[index])
        invariant Valid() && index >= old(index) && any == (index > old(index))
        invariant AfterDigits(Rest()) == AfterDigits(old(Rest()))
        decreases |text| - index
      {
        assert Rest()[1..] == text[index + 1..];
        index := index + 1;
        any := true;
      }
    }

    method ReadSign()
      requires Valid()
      modifies this
      ensures Valid() && index >= old(index) && Rest() == AfterSign(old(Rest()))
    {
      if index < |text| && (text[index] == 0x2D || text[index] == 0x2B) {
        assert Rest()[1..] == text[index + 1..];
        index := index + 1;
      }
    }

    method ParseNumber() returns (r: Option<Text>)
      requires Valid()
      modifies this
      ensures Valid() && index >= old(index) && Agrees(NumberLexeme(old(Rest())), r, Rest())
    {
      hide AfterDigits, AfterSign, Fraction, AfterExponent;
      var start := index;
      ReadSign();
      var hasDigits := ReadDigits();
      var more := ReadFraction();
      hasDigits := hasDigits || more;
      if hasDigits {
        ReadExponent();
      }
      if !hasDigits {
        return None;
      }
      assert text[start..index] == old(Rest())[..index - start];
      return Some(text[start..index]);
    }

    method ReadFraction() returns (any: bool)
      requires Valid()
      modifies this
      ensures Valid() && index >= old(index) && (any, Rest()) == Fraction(old(Rest()))
    {
      hide AfterDigits;
      any := false;
      if index < |text| && text[index] == 0x2E {
        assert Rest()[1..] == text[index + 1..];
        index := index + 1;
        any := ReadDigits();
      }
    }

    method ReadExponent()
      requires Valid()
      modifies this
      ensures Valid() && index >= old(index) && Rest() == AfterExponent(old(Rest()))
    {
      hide AfterDigits, AfterSign;
      if index < |text| && (text[index] == 0x65 || text[index] == 0x45) {
        assert Rest()[1..] == text[index + 1..];
        index := index + 1;
        ReadSign();
        var _ := ReadDigits();
      }
    }

    method ParseHex4() returns (r: Option<nat>)
      requires Valid()
      modifies this
      ensures Valid() && index >= old(index) && r == Hex4(old(Rest()))
      ensures Rest() == if r.Some? then old(Rest())[4..] else old(Rest())
    {
      if index + 4 > |text| {
        return None;
      }
      var value := 0;
      for i := 0 to 4
        invariant index == old(index) && HexNumber(Rest()[..i]) == Some(value)
      {
        var digit := HexValue(text[index + i]);
        assert Rest()[..i + 1][..i] == Rest()[..i] && Rest()[..i + 1][i] == text[index + i];
        if digit.None? {
          HexStops(Rest(), i + 1);
          return None;
        }
        value := value * 16 + digit.value;
      }
      index := index + 4;
      return Some(value);
    }

    /** The case of a Unicode escape in parse_string. */
    method ParseUnicode() returns (r: Option<Text>)
      requires Valid()
      modifies this
      ensures Valid() && index >= old(index) && Agrees(UnicodeEscape(old(Rest())), r, Rest())
    {
      hide Hex4, Utf8Of, Paired;
      var first := ParseHex4();
      if first.None? {
        return None;
      }
      FourDigits(old(Rest()));
      var point := first.value;
      if IsHigh(point) && index + 1 < |text| && text[index] == BACKSLASH && text[index + 1] == LETTER_U {
        var saved := index;
        assert Rest()[2..] == text[index + 2..];
        if |Rest()| >= 6 {
          assert Rest()[6..] == Rest()[2..][4..];
        }
        index := index + 2;
        var low := ParseHex4();
        if low.Some? && IsLow(low.value) {
          FourDigits(text[saved + 2..]);
          point := Paired(point, low.value);
        } else {
          index := saved;
        }
      }
      return Some(Utf8Of(point));
    }

    /** The body of the loop of parse_string, for a character that is not the closing quote. */
    method ParsePiece() returns (r: Option<Text>)
      requires Valid() && index < |text|
      modifies this
      ensures Valid() && index >= old(index) && Agrees(Piece(old(Rest())), r, Rest())
    {
      hide UnicodeEscape;
      var c := text[index];
      assert Rest()[1..] == text[index + 1..];
      if c != BACKSLASH {
        index := index + 1;
        return Some([c]);
      }
      index := index + 1;
      if index >= |text| {
        return None;
      }
      assert old(Rest())[2..] == text[index + 1..];
      var escape := text[index];
      index := index + 1;
      if escape == LETTER_U {
        r := ParseUnicode();
      } else {
        var meaning := ShortMeaning(escape);
        r := if meaning.Some? then Some([meaning.value]) else None;
      }
    }

    method ParseString() returns (r: Option<Text>)
      requires Valid()
      modifies this
      ensures Valid() && index >= old(index) && Agrees(StringLiteral(old(Rest())), r, Rest())
    {
      hide Piece, Characters;
      if index >= |text| || text[index] != QUOTE {
        return None;
      }
      assert Rest()[1..] == text[index + 1..];
      index := index + 1;
      ghost var start := Rest();
      var out: Text := [];
      NothingPrefixed(Characters(start));
      while index < |text|
        invariant Valid() && index > old(index) && Prefixed(out, Characters(Rest())) == Characters(start)
        decreases |text| - index
      {
        ghost var a := Rest();
        CharactersTurn(out, a);
        if text[index] == QUOTE {
          assert a[1..] == text[index + 1..];
          index := index + 1;
          return Some(out);
        }
        var piece := ParsePiece();
        if piece.None? {
          return None;
        }
        out := out + piece.value;
      }
      NoCharacters();
      return None;
    }

    method ParseValue(depth: nat) returns (r: Option<Json>)
      requires Valid()
      modifies this
      ensures Valid() && index >= old(index) && Agrees(Value(old(Rest()), depth), r, Rest())
      decreases |text| - index, 1
    {
      hide SkipSpace, Items, Members, StringLiteral, NumberLexeme;
      if depth > MAX_DEPTH {
        return None;
      }
      SkipWhitespace();
      if index >= |text| {
        return None;
      }
      match text[index]
      case 0x7B =>
        ObjectBody(old(Rest()), Rest(), depth);
        var members := ParseObject(depth);
        r := if members.Some? then Some(Object(members.value)) else None;
      case 0x5B =>
        ArrayBody(old(Rest()), Rest(), depth);
        var items := ParseArray(depth);
        r := if items.Some? then Some(Array(items.value)) else None;
      case 0x22 =>
        var s := ParseString();
        r := if s.Some? then Some(String(s.value)) else None;
      case 0x74 =>
        var ok := ReadLiteral(TRUE);
        r := if ok then Some(Bool(true)) else None;
      case 0x66 =>
        var ok := ReadLiteral(FALSE);
        r := if ok then Some(Bool(false)) else None;
      case 0x6E =>
        var ok := ReadLiteral(NULL);
        r := if ok then Some(Null) else None;
      case _ =>
        var lexeme := ParseNumber();
        r := if lexeme.Some? then Some(Number(lexeme.value)) else None;
    }

    method ParseArray(depth: nat) returns (r: Option<seq<Json>>)
      requires Valid() && index < |text|
      modifies this
      ensures Valid() && index >= old(index) && Agrees(AfterBracket(old(Rest())[1..], depth), r, Rest())
      decreases |text| - index, 0
    {
      hide SkipSpace, Items, Value;
      assert Rest()[1..] == text[index + 1..];
      index := index + 1;
      SkipWhitespace();
      ghost var start := Rest();
      if index < |text| && text[index] == CLOSE_ARRAY {
        assert Rest()[1..] == text[index + 1..];
        index := index + 1;
        return Some([]);
      }
      var done := [];
      while true
        invariant Valid() && index > old(index) && Items(Rest(), depth, done) == Items(start, depth, [])
        decreases |text| - index
      {
        ItemsStep(Rest(), depth, done);
        var v := ParseValue(depth + 1);
        if v.None? {
          return None;
        }
        done := done + [v.value];
        SkipWhitespace();
        if index >= |text| {
          return None;
        }
        assert Rest()[1..] == text[index + 1..];
        if text[index] == COMMA {
          index := index + 1;
          continue;
        }
        if text[index] == CLOSE_ARRAY {
          index := index + 1;
          return Some(done);
        }
        return None;
      }
    }

    method ParseObject(depth: nat) returns (r: Option<seq<Member>>)
      requires Valid() && index < |text|
      modifies this
      ensures Valid() && index >= old(index) && Agrees(AfterBrace(old(Rest())[1..], depth), r, Rest())
      decreases |text| - index, 0
    {
      hide SkipSpace, Members, Value, Key, Put;
      assert Rest()[1..] == text[index + 1..];
      index := index + 1;
      SkipWhitespace();
      ghost var start := Rest();
      if index < |text| && text[index] == CLOSE_OBJECT {
        assert Rest()[1..] == text[index + 1..];
        index := index + 1;
        return Some([]);
      }
      var done := [];
      while true
        invariant Valid() && index > old(index) && Members(Rest(), depth, done) == Members(start, depth, [])
        decreases |text| - index
      {
        MembersStep(Rest(), depth, done);
        var key := ParseKey();
        if key.None? {
          return None;
        }
        var v := ParseValue(depth + 1);
        if v.None? {
          return None;
        }
        done := Put(done, key.value, v.value);
        SkipWhitespace();
        if index >= |text| {
          return None;
        }
        assert Rest()[1..] == text[index + 1..];
        if text[index] == COMMA {
          index := index + 1;
          continue;
        }
        if text[index] == CLOSE_OBJECT {
          index := index + 1;
          return Some(done);
        }
        return None;
      }
    }

    /** The key of a member and its colon. */
    method ParseKey() returns (r: Option<Text>)
      requires Valid()
      modifies this
      ensures Valid() && index >= old(index) && Agrees(Key(old(Rest())), r, Rest())
    {
      hide StringLiteral, SkipSpace;
      SkipWhitespace();
      r := ParseString();
      if r.None? {
        return;
      }
      SkipWhitespace();
      if index >= |text| || text[index] != COLON {
        return None;
      }
      assert Rest()[1..] == text[index + 1..];
      index := index + 1;
    }

    /** JsonParser::parse. */
    method ParseText() returns (r: Option<Json>)
      requires Valid() && index == 0
      modifies this
      ensures Valid() && r == Parse(text)
    {
      hide Value, SkipSpace;
      SkipWhitespace();
      r := ParseValue(0);
      if r.None? {
        return;
      }
      SkipWhitespace();
      if index != |text| {
        return None;
      }
    }
  }

  lemma {:induction false} HexStops(a: Text, n: nat)
    requires 0 < n <= 4 <= |a| && HexNumber(a[..n]).None?
    ensures Hex4(a).None?
    decreases 4 - n
  {
    if n < 4 {
      assert a[..n + 1][..n] == a[..n];
      HexStops(a, n + 1);
    }
  }

  lemma FourDigits(a: Text)
    requires Hex4(a).Some?
    ensures |a| >= 4 && Hex4(a).value < 0x1_0000
  {
    HexBound(a[..4], 0x1_0000);
  }

  lemma NothingPrefixed(expected: Option<(Text, Text)>)
    ensures Prefixed([], expected) == expected
  {
    if expected.Some? {
      assert [] + expected.value.0 == expected.value.0;
    }
  }

  lemma NoCharacters()
    ensures Characters([]).None?
  {
  }

  /** One turn of the loop of parse_string. */
  lemma CharactersTurn(out: Text, a: Text)
    requires a != []
    ensures a[0] == QUOTE ==> Prefixed(out, Characters(a)) == Some((out, a[1..]))
    ensures a[0] != QUOTE && Piece(a).None? ==> Characters(a).None?
    ensures a[0] != QUOTE && Piece(a).Some? ==>
              Prefixed(out, Characters(a)) == Prefixed(out + Piece(a).value.0, Characters(Piece(a).value.1))
  {
    hide Piece;
    if a[0] == QUOTE {
      assert Characters(a) == Some(([], a[1..])) && out + [] == out;
    } else if Piece(a).Some? && Characters(Piece(a).value.1).Some? {
      Regroup(out, Piece(a).value.0, Characters(Piece(a).value.1).value.0);
    }
  }

  /** The text after an opening bracket. */
  function AfterBracket(a: Text, depth: nat): Option<(seq<Json>, Text)> {
    var c := SkipSpace(a);
    if c != [] && c[0] == CLOSE_ARRAY then Some(([], c[1..])) else Items(c, depth, [])
  }

  function AfterBrace(a: Text, depth: nat): Option<(seq<Member>, Text)> {
    var c := SkipSpace(a);
    if c != [] && c[0] == CLOSE_OBJECT then Some(([], c[1..])) else Members(c, depth, [])
  }

  lemma ArrayBody(a: Text, b: Text, depth: nat)
    requires b != [] && b[0] == OPEN_ARRAY && depth <= MAX_DEPTH && SkipSpace(a) == b
    ensures Value(a, depth) == (var (items, rest) :- AfterBracket(b[1..], depth); Some((Array(items), rest)))
  {
    hide Items, SkipSpace;
  }

  lemma ObjectBody(a: Text, b: Text, depth: nat)
    requires b != [] && b[0] == OPEN_OBJECT && depth <= MAX_DEPTH && SkipSpace(a) == b
    ensures Value(a, depth) == (var (members, rest) :- AfterBrace(b[1..], depth); Some((Object(members), rest)))
  {
    hide Members, SkipSpace;
  }

  ghost function ItemsNext(c: Text, depth: nat, done: seq<Json>): Option<(seq<Json>, Text)> {
    if c == [] then None
    else if c[0] == COMMA then Items(c[1..], depth, done)
    else if c[0] == CLOSE_ARRAY then Some((done, c[1..]))
    else None
  }

  lemma ItemsStep(a: Text, depth: nat, done: seq<Json>)
    ensures Value(a, depth + 1).None? ==> Items(a, depth, done).None?
    ensures Value(a, depth + 1).Some? ==>
              Items(a, depth, done) ==
                ItemsNext(SkipSpace(Value(a, depth + 1).value.1), depth, done + [Value(a, depth + 1).value.0])
  {
    hide Value, SkipSpace;
  }

  ghost function MembersNext(c: Text, depth: nat, done: seq<Member>): Option<(seq<Member>, Text)> {
    if c == [] then None
    else if c[0] == COMMA then Members(c[1..], depth, done)
    else if c[0] == CLOSE_OBJECT then Some((done, c[1..]))
    else None
  }

  lemma MembersStep(a: Text, depth: nat, done: seq<Member>)
    ensures Key(a).None? ==> Members(a, depth, done).None?
    ensures Key(a).Some? && Value(Key(a).value.1, depth + 1).None? ==> Members(a, depth, done).None?
    ensures Key(a).Some? && Value(Key(a).value.1, depth + 1).Some? ==>
              var (key, b) := Key(a).value;
              var (v, c) := Value(b, depth + 1).value;
              Members(a, depth, done) == MembersNext(SkipSpace(c), depth, Put(done, key, v))
  {
    hide Value, SkipSpace, Key, Put;
  }

  /** The switch of decode_json_string_array. */
  method ArgumentText(v: Json, shown: Text -> Text) returns (r: Text)
    ensures r == Argument(v, shown)
  {
    hide Dump;
    match v
    case String(text) => r := text;
    case Null => r := [];
    case _ => r := DumpText(v, shown);
  }

  /** decode_json_string_array. */
  method DecodeStringArray(json: Text, shown: Text -> Text) returns (r: Option<seq<Text>>)
    ensures r == DecodeList(json, shown)
    ensures r.Some? <==> Parse(json).Some? && Parse(json).value.Array?
    ensures r.Some? ==> |r.value| == |Parse(json).value.items| && forall i :: 0 <= i < |r.value| ==>
              match Parse(json).value.items[i]
              case String(text) => r.value[i] == text
              case Null => r.value[i] == []
              case v => r.value[i] == Dump(v, shown)
  {
    hide Parse, Dump, Arguments;
    var parser := new JsonParser(json);
    var value := parser.ParseText();
    if value.None? || !value.value.Array? {
      return None;
    }
    var items := value.value.items;
    var out: seq<Text> := [];
    for i := 0 to |items|
      invariant |out| == i && forall j :: 0 <= j < i ==> out[j] == Argument(items[j], shown)
    {
      var e := ArgumentText(items[i], shown);
      out := out + [e];
    }
    ArgumentsAre(items, shown, out);
    return Some(out);
  }

  lemma ArgumentsAre(items: seq<Json>, shown: Text -> Text, out: seq<Text>)
    requires |out| == |items| && forall j :: 0 <= j < |items| ==> out[j] == Argument(items[j], shown)
    ensures out == Arguments(items, shown)
  {
    hide Argument;
  }
}
