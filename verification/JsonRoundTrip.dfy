/**
Printing and parsing JSON are inverse (src/core/json_util.cpp): whatever a number-free value
prints as is read back as that value, to exactly the nesting that the parser allows; what the
parser gives back is always such a value, numbers aside.
*/
module JsonRoundTrip {
  import opened Bytes
  import opened JsonStrings
  import opened Json
  import opened JsonSpelling
  import opened JsonGrammar

  predicate NumberFreeItems(items: seq<Json>) {
    forall i :: 0 <= i < |items| ==> NumberFree(items[i])
  }

  predicate NumberFreeMembers(members: seq<Member>) {
    forall i :: 0 <= i < |members| ==> NumberFree(members[i].value)
  }

  predicate WellFormedItems(items: seq<Json>) {
    forall i :: 0 <= i < |items| ==> WellFormed(items[i])
  }

  predicate WellFormedMembers(members: seq<Member>) {
    forall i :: 0 <= i < |members| ==> WellFormed(members[i].value)
  }

  // ---------------------------------------------------------------- a value as it is printed

  function RawOf(v: Json): Raw
    decreases v
  {
    match v
    case Null => Word(NULL)
    case Bool(b) => Word(if b then TRUE else FALSE)
    case Number(lexeme) => Numeral(lexeme)
    case String(text) => Literally(Quoted(text))
    case Array(items) => Listed(RawItems(items))
    case Object(members) => Braced(RawMembers(members))
  }

  function RawItems(items: seq<Json>): seq<Raw>
    decreases items
  {
    if items == [] then [] else [RawOf(items[0])] + RawItems(items[1..])
  }

  function RawMembers(members: seq<Member>): seq<Pair>
    decreases members
  {
    if members == [] then []
    else [Pair(Quoted(members[0].key), RawOf(members[0].value))] + RawMembers(members[1..])
  }

  lemma QuotedIsLiteral(s: Text)
    ensures IsLiteral(Quoted(s)) && TextOf(Quoted(s)) == s
  {
    hide Quoted, StringLiteral;
    StringRoundTrip(s, []);
    assert Quoted(s) + [] == Quoted(s);
  }

  lemma {:induction false} RawIsGood(v: Json)
    requires NumberFree(v)
    ensures Good(RawOf(v)) && Depth(RawOf(v)) == Nesting(v)
    decreases v
  {
    hide RawItems, RawMembers, NestingOfItems, NestingOfMembers, DepthOfItems, DepthOfMembers, IsLiteral, Quoted;
    Spelling();
    match v
    case String(text) => QuotedIsLiteral(text);
    case Array(items) => RawItemsAreGood(items);
    case Object(members) => RawMembersAreGood(members);
    case _ =>
  }

  lemma {:induction false} RawItemsAreGood(items: seq<Json>)
    requires NumberFreeItems(items)
    ensures GoodItems(RawItems(items)) && DepthOfItems(RawItems(items)) == NestingOfItems(items) && |RawItems(items)| == |items|
    decreases items, 0
  {
    hide Good, Depth, Nesting, RawOf, NumberFree;
    if items != [] {
      RawIsGood(items[0]);
      RawItemsAreGood(items[1..]);
      GoodMore(RawOf(items[0]), RawItems(items[1..]));
      assert RawItems(items)[1..] == RawItems(items[1..]);
    }
  }

  lemma {:induction false} RawMembersAreGood(members: seq<Member>)
    requires NumberFreeMembers(members)
    ensures GoodMembers(RawMembers(members)) && DepthOfMembers(RawMembers(members)) == NestingOfMembers(members)
    ensures |RawMembers(members)| == |members|
    decreases members, 0
  {
    hide Good, Depth, Nesting, RawOf, NumberFree, IsLiteral, Quoted;
    if members != [] {
      RawIsGood(members[0].value);
      QuotedIsLiteral(members[0].key);
      RawMembersAreGood(members[1..]);
      GoodMoreMembers(Pair(Quoted(members[0].key), RawOf(members[0].value)), RawMembers(members[1..]));
      assert RawMembers(members)[1..] == RawMembers(members[1..]);
    }
  }

  // ---------------------------------------------------------------- what it means

  lemma SortedPrefix(a: seq<Member>, b: seq<Member>)
    requires Sorted(a + b)
    ensures Sorted(a)
  {
    forall i, j | 0 <= i < j < |a|
      ensures Before(a[i].key, a[j].key)
    {
      assert (a + b)[i] == a[i] && (a + b)[j] == a[j];
    }
  }

  lemma {:induction false} PutAllInOrder(done: seq<Member>, members: seq<Member>)
    requires Sorted(done + members)
    ensures PutAll(done, members) == done + members
    decreases |members|
  {
    hide Sorted, Put;
    if members == [] {
      assert done + members == done;
    } else {
      var m, more := members[0], members[1..];
      assert done + members == (done + [m]) + more;
      SortedPrefix(done + [m], more);
      PutAtEnd(done, m);
      PutAllInOrder(done + [m], more);
    }
  }

  lemma {:induction false} RawMeans(v: Json)
    requires NumberFree(v) && WellFormed(v) && Good(RawOf(v))
    ensures Meaning(RawOf(v)) == v
    decreases v
  {
    hide RawItems, RawMembers, Meanings, MemberMeanings, IsLiteral, TextOf, Quoted, PutAll;
    Spelling();
    match v
    case String(text) => QuotedIsLiteral(text);
    case Array(items) => RawItemsMean(items);
    case Object(members) =>
      RawMembersMean(members);
      assert [] + members == members;
      PutAllInOrder([], members);
    case _ =>
  }

  lemma {:induction false} RawItemsMean(items: seq<Json>)
    requires NumberFreeItems(items) && WellFormedItems(items) && GoodItems(RawItems(items))
    ensures Meanings(RawItems(items)) == items
    decreases items, 0
  {
    hide Good, Meaning, RawOf, NumberFree, WellFormed;
    if items != [] {
      assert RawItems(items)[1..] == RawItems(items[1..]) && RawItems(items)[0] == RawOf(items[0]);
      RawMeans(items[0]);
      RawItemsMean(items[1..]);
    }
  }

  lemma {:induction false} RawMembersMean(members: seq<Member>)
    requires NumberFreeMembers(members) && WellFormedMembers(members) && GoodMembers(RawMembers(members))
    ensures MemberMeanings(RawMembers(members)) == members
    decreases members, 0
  {
    hide Good, Meaning, RawOf, NumberFree, WellFormed, IsLiteral, Quoted, TextOf;
    if members != [] {
      QuotedIsLiteral(members[0].key);
      var raw := RawMembers(members);
      assert raw[1..] == RawMembers(members[1..]) && raw[0] == Pair(Quoted(members[0].key), RawOf(members[0].value));
      assert Good(raw[0].value);
      RawMeans(members[0].value);
      RawMembersMean(members[1..]);
    }
  }

  // ---------------------------------------------------------------- its text

  function NoGaps(n: nat): (gaps: seq<Text>)
    ensures |gaps| == n && BlankGaps(gaps)
  {
    seq(n, i => [])
  }

  /** The tokens with nothing between them. */
  function Tight(tokens: seq<Text>): Text {
    Spread(tokens, NoGaps(|tokens|))
  }

  lemma TightJoins(a: seq<Text>, b: seq<Text>)
    ensures Tight(a + b) == Tight(a) + Tight(b)
  {
    hide Spread;
    assert NoGaps(|a + b|) == NoGaps(|a|) + NoGaps(|b|);
    SpreadJoins(a, NoGaps(|a|), b, NoGaps(|b|));
  }

  lemma TightOne(token: Text)
    ensures Tight([token]) == token
  {
    hide Spread;
    assert NoGaps(1) == [[]];
    OneSpread([], token, []);
    assert Spread([token], [[]]) + [] == Spread([token], [[]]) && [] + (token + []) == token;
  }

  /** Printing puts nothing between the tokens. */
  lemma {:induction false} PrintedIsTight(v: Json, shown: Text -> Text)
    requires NumberFree(v)
    ensures Dump(v, shown) == Tight(Tokens(RawOf(v)))
    decreases v
  {
    hide RawItems, RawMembers, ItemTokens, MemberTokens, DumpItems, DumpMembers, Tight, Quoted, Ascii;
    Spelling();
    var u := RawOf(v);
    match v
    case Array(items) =>
      ItemsAreTight(items, shown);
      TightInside([OPEN_ARRAY], ItemTokens(RawItems(items)), [CLOSE_ARRAY]);
    case Object(members) =>
      MembersAreTight(members, shown);
      TightInside([OPEN_OBJECT], MemberTokens(RawMembers(members)), [CLOSE_OBJECT]);
    case _ => TightOne(Dump(v, shown));
  }

  lemma TightInside(open: Text, tokens: seq<Text>, close: Text)
    ensures Tight([open] + (tokens + [close])) == open + Tight(tokens) + close
  {
    hide Tight;
    TightJoins([open], tokens + [close]);
    TightJoins(tokens, [close]);
    TightOne(open);
    TightOne(close);
    Regroup(open, Tight(tokens), close);
  }

  lemma NothingIsTight()
    ensures Tight([]) == []
  {
  }

  lemma {:induction false} ItemsAreTight(items: seq<Json>, shown: Text -> Text)
    requires NumberFreeItems(items)
    ensures DumpItems(items, shown) == Tight(ItemTokens(RawItems(items)))
    ensures MoreItems(items, shown) == Tight(MoreItemTokens(RawItems(items)))
    decreases items, 0
  {
    hide Dump, Tokens, RawOf, NumberFree, Tight, Ascii;
    Spelling();
    NothingIsTight();
    if items != [] {
      var raw := RawItems(items);
      assert raw[1..] == RawItems(items[1..]) && raw[0] == RawOf(items[0]);
      PrintedIsTight(items[0], shown);
      ItemsAreTight(items[1..], shown);
      TightJoins(Tokens(raw[0]), MoreItemTokens(raw[1..]));
      TightJoins([[COMMA]], ItemTokens(raw));
      TightOne([COMMA]);
    }
  }

  lemma {:induction false} MembersAreTight(members: seq<Member>, shown: Text -> Text)
    requires NumberFreeMembers(members)
    ensures DumpMembers(members, shown) == Tight(MemberTokens(RawMembers(members)))
    ensures MoreMembers(members, shown) == Tight(MoreMemberTokens(RawMembers(members)))
    decreases members, 0
  {
    hide Dump, Tokens, RawOf, NumberFree, Tight, Ascii, Quoted;
    Spelling();
    NothingIsTight();
    if members != [] {
      var m, raw := members[0], RawMembers(members);
      assert raw[1..] == RawMembers(members[1..]) && raw[0] == Pair(Quoted(m.key), RawOf(m.value));
      PrintedIsTight(m.value, shown);
      MembersAreTight(members[1..], shown);
      TightMember(Quoted(m.key), Tokens(raw[0].value), MoreMemberTokens(raw[1..]));
      TightJoins([[COMMA]], MemberTokens(raw));
      TightOne([COMMA]);
    }
  }

  lemma TightMember(key: Text, own: seq<Text>, more: seq<Text>)
    ensures Tight([key, Ascii(":")] + (own + more)) == key + [COLON] + Tight(own) + Tight(more)
  {
    hide Tight, Ascii;
    Spelling();
    assert [key, Ascii(":")] + (own + more) == [key] + ([[COLON]] + (own + more));
    TightJoins([key], [[COLON]] + (own + more));
    TightJoins([[COLON]], own + more);
    TightJoins(own, more);
    TightOne(key);
    TightOne([COLON]);
    Regroup(key, [COLON], Tight(own) + Tight(more));
    Regroup(key + [COLON], Tight(own), Tight(more));
  }

  // ---------------------------------------------------------------- parse and dump

  lemma NestingInside(v: Json)
    ensures v.Array? && v.items != [] ==> Nesting(v) == 1 + NestingOfItems(v.items)
    ensures v.Object? && v.members != [] ==> Nesting(v) == 1 + NestingOfMembers(v.members)
    ensures v == Array([]) || v == Object([]) ==> Nesting(v) == 0
  {
  }

  /**
  A number-free value prints to text that is read back as the same value, up to its exact end,
  if and only if it does not nest deeper than the parser allows; beyond that it is refused.
  */
  lemma ValueReads(v: Json, shown: Text -> Text, rest: Text, depth: nat)
    requires NumberFree(v) && WellFormed(v)
    ensures Value(Dump(v, shown) + rest, depth) == if depth + Nesting(v) <= 64 then Some((v, rest)) else None
  {
    hide Value, Dump, NumberFree, WellFormed, Nesting, Tokens, Good, Depth, Meaning, Spread;
    RawIsGood(v);
    RawMeans(v);
    PrintedIsTight(v, shown);
    RawOfIsNoNumeral(v);
    RawReads(RawOf(v), NoGaps(|Tokens(RawOf(v))|), rest, depth);
  }

  lemma RawOfIsNoNumeral(v: Json)
    requires NumberFree(v)
    ensures !RawOf(v).Numeral?
  {
  }

  /** parse(dump(v)) == v exactly for the values that nest at most 64 deep. */
  lemma ParseUndoesDump(v: Json, shown: Text -> Text)
    requires NumberFree(v) && WellFormed(v)
    ensures Parse(Dump(v, shown)) == if Nesting(v) <= 64 then Some(v) else None
  {
    hide Parse, Dump, NumberFree, WellFormed, Nesting, Tokens, Good, Depth, Meaning, Spread;
    RawIsGood(v);
    RawMeans(v);
    PrintedIsTight(v, shown);
    var a := Dump(v, shown);
    assert a == a + [];
    SpelledIsParsed(a, RawOf(v), NoGaps(|Tokens(RawOf(v))|), []);
  }

  // ---------------------------------------------------------------- what the parser gives back

  /** Objects in order, and no deeper than the room that is left. */
  predicate Proper(v: Json, depth: nat) {
    WellFormed(v) && depth + Nesting(v) <= MAX_DEPTH
  }

  predicate ProperItems(items: seq<Json>, depth: nat) {
    WellFormedItems(items) && (items == [] || depth + NestingOfItems(items) <= MAX_DEPTH)
  }

  predicate ProperMembers(members: seq<Member>, depth: nat) {
    Sorted(members) && WellFormedMembers(members) && (members == [] || depth + NestingOfMembers(members) <= MAX_DEPTH)
  }

  lemma {:induction false} NestingOfItemsBound(items: seq<Json>, depth: nat)
    ensures items == [] || (depth + NestingOfItems(items) <= MAX_DEPTH
            <==> forall i :: 0 <= i < |items| ==> depth + Nesting(items[i]) <= MAX_DEPTH)
  {
    hide Nesting;
    if items != [] {
      NestingOfItemsBound(items[1..], depth);
      assert forall i :: 1 <= i < |items| ==> items[i] == items[1..][i - 1];
    }
  }

  lemma {:induction false} NestingOfMembersBound(members: seq<Member>, depth: nat)
    ensures members == [] || (depth + NestingOfMembers(members) <= MAX_DEPTH
            <==> forall i :: 0 <= i < |members| ==> depth + Nesting(members[i].value) <= MAX_DEPTH)
  {
    hide Nesting;
    if members != [] {
      NestingOfMembersBound(members[1..], depth);
      assert forall i :: 1 <= i < |members| ==> members[i] == members[1..][i - 1];
    }
  }

  lemma ProperSnoc(items: seq<Json>, v: Json, depth: nat)
    requires ProperItems(items, depth) && Proper(v, depth)
    ensures ProperItems(items + [v], depth)
  {
    hide WellFormed, Nesting, NestingOfItems;
    NestingOfItemsBound(items, depth);
    NestingOfItemsBound(items + [v], depth);
  }

  /** Every member of Put is the new one or an old one. */
  lemma {:induction false} PutMembers(ms: seq<Member>, key: Text, value: Json)
    ensures Put(ms, key, value) != []
    ensures forall i :: 0 <= i < |Put(ms, key, value)| ==>
              Put(ms, key, value)[i] == Member(key, value) || Put(ms, key, value)[i] in ms
  {
    hide Before;
    if ms != [] {
      PutMembers(ms[1..], key, value);
    }
  }

  lemma ProperPut(ms: seq<Member>, key: Text, v: Json, depth: nat)
    requires ProperMembers(ms, depth) && Proper(v, depth)
    ensures ProperMembers(Put(ms, key, v), depth)
  {
    hide WellFormed, Nesting, NestingOfMembers, Sorted, Put;
    PutKeepsSorted(ms, key, v);
    PutMembers(ms, key, v);
    NestingOfMembersBound(ms, depth);
    NestingOfMembersBound(Put(ms, key, v), depth);
  }

  lemma {:induction false} ItemsAreProper(a: Text, depth: nat, done: seq<Json>)
    requires Items(a, depth, done).Some? && ProperItems(done, depth + 1)
    ensures ProperItems(Items(a, depth, done).value.0, depth + 1) && Items(a, depth, done).value.0 != []
    decreases |a|, 2
  {
    hide Value, ProperItems, Proper;
    var (v, b) := Value(a, depth + 1).value;
    ValueIsProper(a, depth + 1);
    ProperSnoc(done, v, depth + 1);
    var c := SkipSpace(b);
    if c[0] == COMMA {
      ItemsAreProper(c[1..], depth, done + [v]);
    }
  }

  lemma {:induction false} MembersAreProper(a: Text, depth: nat, done: seq<Member>)
    requires Members(a, depth, done).Some? && ProperMembers(done, depth + 1)
    ensures ProperMembers(Members(a, depth, done).value.0, depth + 1) && Members(a, depth, done).value.0 != []
    decreases |a|, 2
  {
    hide Value, ProperMembers, Proper, Put, Key;
    var (key, b) := Key(a).value;
    var (v, c) := Value(b, depth + 1).value;
    ValueIsProper(b, depth + 1);
    ProperPut(done, key, v, depth + 1);
    PutMembers(done, key, v);
    var d := SkipSpace(c);
    if d[0] == COMMA {
      MembersAreProper(d[1..], depth, Put(done, key, v));
    }
  }

  lemma ProperContainer(v: Json, depth: nat)
    requires v.Array? || v.Object?
    requires depth <= MAX_DEPTH
    requires v.Array? ==> ProperItems(v.items, depth + 1)
    requires v.Object? ==> ProperMembers(v.members, depth + 1)
    ensures Proper(v, depth)
  {
  }

  lemma ProperEmpty(depth: nat)
    ensures ProperItems([], depth) && ProperMembers([], depth)
  {
  }

  lemma ProperScalar(v: Json, depth: nat)
    requires !v.Array? && !v.Object? && depth <= MAX_DEPTH
    ensures Proper(v, depth)
  {
  }

  /** Whatever the text, a value that the parser accepts is well formed and within the limit. */
  lemma {:induction false} ValueIsProper(a: Text, depth: nat)
    requires Value(a, depth).Some?
    ensures Proper(Value(a, depth).value.0, depth)
    decreases |a|, 1
  {
    hide Items, Members, StringLiteral, NumberLexeme, ProperItems, ProperMembers, Proper, SkipSpace;
    var v := Value(a, depth).value.0;
    var b := SkipSpace(a);
    var c := SkipSpace(b[1..]);
    ProperEmpty(depth + 1);
    if v.Array? {
      if v.items != [] {
        ItemsAreProper(c, depth, []);
      }
      ProperContainer(v, depth);
    } else if v.Object? {
      if v.members != [] {
        MembersAreProper(c, depth, []);
      }
      ProperContainer(v, depth);
    } else {
      ProperScalar(v, depth);
    }
  }

  /** Printing what was parsed and parsing again changes nothing more. */
  lemma ParsedSurvives(a: Text, shown: Text -> Text)
    requires Parse(a).Some? && NumberFree(Parse(a).value)
    ensures Parse(Dump(Parse(a).value, shown)) == Parse(a)
  {
    hide Value, Dump, NumberFree, WellFormed, Nesting;
    ValueIsProper(SkipSpace(a), 0);
    ParseUndoesDump(Parse(a).value, shown);
  }

  // ---------------------------------------------------------------- lists of strings

  function Strings(values: seq<Text>): (r: seq<Json>)
    ensures |r| == |values| && forall i :: 0 <= i < |r| ==> r[i] == String(values[i])
  {
    if values == [] then [] else [String(values[0])] + Strings(values[1..])
  }

  /** encode_json_string_array, on values. */
  function ListText(values: seq<Text>): Text {
    [OPEN_ARRAY] + Commas(values) + [CLOSE_ARRAY]
  }

  function Commas(values: seq<Text>): Text
    decreases |values|, 0
  {
    if values == [] then [] else Quoted(values[0]) + MoreCommas(values[1..])
  }

  function MoreCommas(values: seq<Text>): Text
    decreases |values|, 1
  {
    if values == [] then [] else [COMMA] + Commas(values)
  }

  /** What an element of an argument array becomes. */
  function Argument(v: Json, shown: Text -> Text): Text {
    match v
    case String(text) => text
    case Null => []
    case _ => Dump(v, shown)
  }

  function Arguments(items: seq<Json>, shown: Text -> Text): seq<Text> {
    seq(|items|, i requires 0 <= i < |items| => Argument(items[i], shown))
  }

  /** decode_json_string_array. */
  function DecodeList(a: Text, shown: Text -> Text): Option<seq<Text>> {
    var v :- Parse(a);
    if v.Array? then Some(Arguments(v.items, shown)) else None
  }

  lemma {:induction false} CommasAreItems(values: seq<Text>, shown: Text -> Text)
    ensures Commas(values) == DumpItems(Strings(values), shown)
    decreases |values|
  {
    hide Quoted;
    if values != [] {
      var items := Strings(values);
      assert items[0] == String(values[0]) && Dump(items[0], shown) == Quoted(values[0]);
      assert items[1..] == Strings(values[1..]);
      CommasAreItems(values[1..], shown);
    }
  }

  lemma {:induction false} FlatStrings(items: seq<Json>)
    requires forall i :: 0 <= i < |items| ==> items[i].String?
    ensures NestingOfItems(items) == 0
  {
    if items != [] {
      FlatStrings(items[1..]);
    }
  }

  /** Every list of byte strings survives its JSON form, whatever bytes they hold. */
  lemma ListRoundTrip(values: seq<Text>, shown: Text -> Text)
    ensures DecodeList(ListText(values), shown) == Some(values)
  {
    hide Parse, DumpItems, Commas, NumberFree, WellFormed, Nesting;
    var v := Array(Strings(values));
    CommasAreItems(values, shown);
    assert ListText(values) == Dump(v, shown);
    StringArrayIsFlat(Strings(values));
    ParseUndoesDump(v, shown);
    assert Arguments(v.items, shown) == values;
  }

  lemma StringArrayIsFlat(items: seq<Json>)
    requires forall i :: 0 <= i < |items| ==> items[i].String?
    ensures NumberFree(Array(items)) && WellFormed(Array(items)) && Nesting(Array(items)) <= 1
  {
    hide Nesting, NestingOfItems;
    FlatStrings(items);
    NestingInside(Array(items));
  }

  /** An argument that was itself JSON parses back to the element it came from. */
  lemma NestedArgumentSurvives(a: Text, shown: Text -> Text, i: nat)
    requires Parse(a).Some? && Parse(a).value.Array? && i < |Parse(a).value.items|
    requires var e := Parse(a).value.items[i]; NumberFree(e) && !e.String? && !e.Null?
    ensures DecodeList(a, shown).Some? && |DecodeList(a, shown).value| == |Parse(a).value.items|
    ensures Parse(DecodeList(a, shown).value[i]) == Some(Parse(a).value.items[i])
  {
    hide Value, Dump, NumberFree, Nesting, NestingOfItems;
    var v := Parse(a).value;
    var e := v.items[i];
    ValueIsProper(SkipSpace(a), 0);
    NestingInside(v);
    NestingOfItemsBound(v.items, 1);
    ParseUndoesDump(e, shown);
  }

  // ---------------------------------------------------------------- texts that others wrote

  /**
  The printed tokens of a value, with blanks before, between and after them, parse to that value;
  any other byte after them is refused.
  */
  lemma SpacedTextParses(v: Json, gaps: seq<Text>, last: Text, more: Text)
    requires NumberFree(v) && WellFormed(v) && Nesting(v) <= 64
    requires |gaps| == |Tokens(RawOf(v))| && BlankGaps(gaps) && AllBlank(last) && (more == [] || !Blank(more[0]))
    ensures Parse(Spread(Tokens(RawOf(v)), gaps) + last + more) == if more == [] then Some(v) else None
  {
    hide Value, Tokens, Spread, NumberFree, WellFormed, Nesting, SkipSpace, AllBlank, BlankGaps, Good, Meaning, Depth;
    RawIsGood(v);
    RawMeans(v);
    RawOfIsNoNumeral(v);
    var u := RawOf(v);
    var a := Spread(Tokens(u), gaps) + (last + more);
    Regroup(Spread(Tokens(u), gaps), last, more);
    RawReads(u, gaps, last + more, 0);
    SkipTwice(a);
    ValueSkips(SkipSpace(a), a, 0);
    BlanksAreSkipped(last, more);
    OthersAreNotSkipped(more);
  }

  /** The value that the last member with a key has. */
  function LastValue(members: seq<Member>, key: Text): Option<Json> {
    if members == [] then None
    else if members[|members| - 1].key == key then Some(members[|members| - 1].value)
    else LastValue(members[..|members| - 1], key)
  }

  lemma {:induction false} LastValueOfTail(members: seq<Member>, key: Text)
    requires members != []
    ensures LastValue(members, key) == (
              if LastValue(members[1..], key).Some? then LastValue(members[1..], key)
              else if members[0].key == key then Some(members[0].value) else None)
  {
    var n := |members| - 1;
    if n == 0 {
      assert members[..0] == [];
    } else {
      assert members[1..][..n - 1] == members[..n][1..] && members[1..][n - 1] == members[n];
      LastValueOfTail(members[..n], key);
    }
  }

  lemma {:induction false} PutAllIsLast(done: seq<Member>, members: seq<Member>, key: Text)
    requires Sorted(done)
    ensures Sorted(PutAll(done, members))
    ensures Find(PutAll(done, members), key) == if LastValue(members, key).Some? then LastValue(members, key) else Find(done, key)
    decreases |members|
  {
    hide Sorted, Put, Find, LastValue;
    if members == [] {
      NoLastValue(key);
    } else {
      var m := members[0];
      PutKeepsSorted(done, m.key, m.value);
      PutIsUpdate(done, m.key, m.value, key);
      LastValueOfTail(members, key);
      PutAllIsLast(Put(done, m.key, m.value), members[1..], key);
    }
  }

  lemma NoLastValue(key: Text)
    ensures LastValue([], key).None?
  {
  }

  lemma NothingSorted()
    ensures Sorted([])
  {
  }

  /** Of an object's members with the same key, in any order with others, the last one is kept. */
  lemma LastMemberWins(a: Text, u: Raw, gaps: seq<Text>, last: Text, key: Text)
    requires Spells(a, u, gaps, last) && u.Braced? && Depth(u) <= 64
    ensures Parse(a).Some? && Parse(a).value.Object? && WellFormed(Parse(a).value)
    ensures Find(Parse(a).value.members, key) == LastValue(MemberMeanings(u.members), key)
  {
    hide Parse, Depth, Value, Spread, WellFormed, LastValue, Find, PutAll, Proper;
    SpelledIsParsed(a, u, gaps, last);
    NothingSorted();
    PutAllIsLast([], MemberMeanings(u.members), key);
    ParsedIsProper(a);
    NothingFound(key);
  }

  lemma NothingFound(key: Text)
    ensures Find([], key).None?
  {
  }

  lemma ParsedIsProper(a: Text)
    requires Parse(a).Some?
    ensures WellFormed(Parse(a).value) && Nesting(Parse(a).value) <= 64
  {
    hide Value, WellFormed, Nesting;
    ValueIsProper(SkipSpace(a), 0);
  }

  /**
  An argument list, however it is spaced, is decoded element by element: a string as its text, null
  as the empty text, anything else that has no numbers as JSON that parses to it again.
  */
  lemma SpacedArguments(a: Text, items: seq<Raw>, gaps: seq<Text>, last: Text, shown: Text -> Text, i: nat)
    returns (args: seq<Text>)
    requires Spells(a, Listed(items), gaps, last) && Depth(Listed(items)) <= 64 && i < |items|
    ensures DecodeList(a, shown) == Some(args) && |args| == |items| && GoodItems(items)
    ensures items[i].Literally? ==> args[i] == TextOf(items[i].literal)
    ensures items[i] == Word(Ascii("null")) ==> args[i] == []
    ensures items[i].Numeral? ==> args[i] == shown(items[i].number)
    ensures !items[i].Literally? && items[i] != Word(Ascii("null")) && NumberFree(Meaning(items[i]))
            ==> Parse(args[i]) == Some(Meaning(items[i]))
  {
    hide Parse, Tokens, Spread, Dump, Nesting, Depth, NumberFree, IsLiteral, TextOf;
    SpelledIsParsed(a, Listed(items), gaps, last);
    args := Arguments(Meanings(items), shown);
    MeaningAt(items, i);
    var v := Meaning(items[i]);
    if NumberFree(v) && !v.String? && !v.Null? {
      NestedArgumentSurvives(a, shown, i);
    }
    NumberShown(v, shown);
  }

  lemma NumberShown(v: Json, shown: Text -> Text)
    ensures v.Number? ==> Dump(v, shown) == shown(v.lexeme)
  {
  }

  lemma {:induction false} MeaningAt(items: seq<Raw>, i: nat)
    requires GoodItems(items) && i < |items|
    ensures Meanings(items)[i] == Meaning(items[i])
  {
    hide Good, Meaning;
    if i > 0 {
      MeaningAt(items[1..], i - 1);
    }
  }

  /** A list of strings with blanks between its tokens is decoded as that list. */
  lemma SpacedStrings(values: seq<Text>, gaps: seq<Text>, last: Text, shown: Text -> Text)
    requires |gaps| == |Tokens(RawOf(Array(Strings(values))))| && BlankGaps(gaps) && AllBlank(last)
    ensures DecodeList(Spread(Tokens(RawOf(Array(Strings(values)))), gaps) + last, shown) == Some(values)
  {
    hide Tokens, Spread, AllBlank, BlankGaps, Parse, Nesting, NumberFree, WellFormed, RawOf;
    StringArrayIsFlat(Strings(values));
    var a := Spread(Tokens(RawOf(Array(Strings(values)))), gaps) + last;
    SpacedTextParses(Array(Strings(values)), gaps, last, []);
    assert a + [] == a;
    assert Arguments(Strings(values), shown) == values;
  }

  /** A printed list that was cut anywhere is not read as a list. */
  lemma CutListIsRefused(values: seq<Text>, shown: Text -> Text, cut: Text)
    requires cut <= ListText(values) && cut != ListText(values)
    ensures DecodeList(cut, shown).None?
  {
    hide Parse, Dump, DumpItems, Commas, NumberFree, WellFormed, Nesting, Tokens, Spread, Good, Meaning, Value;
    var full, more := ListText(values), ListText(values)[|cut|..];
    assert full == cut + more && full + [] == full && more != [];
    if DecodeList(cut, shown).Some? {
      var u, gaps, last := ParsedIsSpelled(cut);
      MeaningOfList(u);
      Regroup(Spread(Tokens(u), gaps), last, more);
      RawReads(u, gaps, last + more, 0);
      ListTextReads(values, shown);
    }
  }

  lemma MeaningOfList(u: Raw)
    requires Good(u) && Meaning(u).Array?
    ensures u.Listed?
  {
    hide Meanings, MemberMeanings, Ascii;
  }

  lemma ListTextReads(values: seq<Text>, shown: Text -> Text)
    ensures Value(ListText(values), 0) == Some((Array(Strings(values)), []))
  {
    hide Value, DumpItems, Commas, NumberFree, WellFormed, Nesting;
    var v := Array(Strings(values));
    CommasAreItems(values, shown);
    assert ListText(values) == Dump(v, shown) && ListText(values) + [] == ListText(values);
    StringArrayIsFlat(Strings(values));
    ValueReads(v, shown, [], 0);
  }
}
