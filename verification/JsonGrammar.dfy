/**
The texts that the JSON parser accepts (src/core/json_util.cpp:112-149, 160-206, 342-412), as a
grammar: blanks between tokens, values as written with their members in source order. The
white-space bytes are those of section 2 of RFC 8259, written out.
*/
module JsonGrammar {
  import opened Bytes
  import opened JsonStrings
  import opened Json
  import opened JsonSpelling

  predicate Blank(b: Byte) {
    b == 0x20 || b == 0x09 || b == 0x0A || b == 0x0D
  }

  predicate AllBlank(a: Text) {
    forall i :: 0 <= i < |a| ==> Blank(a[i])
  }

  predicate BlankGaps(gaps: seq<Text>) {
    forall i :: 0 <= i < |gaps| ==> AllBlank(gaps[i])
  }

  /** A start that is neither white space nor a closing bracket. */
  predicate Solid(a: Text) {
    a != [] && !IsSpace(a[0]) && a[0] != CLOSE_ARRAY && a[0] != CLOSE_OBJECT
  }

  lemma TooDeep(a: Text, depth: nat)
    requires depth > MAX_DEPTH
    ensures Value(a, depth).None?
  {
  }

  lemma ItemsStuck(a: Text, depth: nat, done: seq<Json>)
    requires Value(a, depth + 1).None?
    ensures Items(a, depth, done).None?
  {
  }

  lemma MembersStuck(a: Text, depth: nat, done: seq<Member>)
    requires Key(a).Some? && Value(Key(a).value.1, depth + 1).None?
    ensures Members(a, depth, done).None?
  {
  }

  lemma Regroup(a: Text, b: Text, c: Text)
    ensures a + b + c == a + (b + c)
  {
  }

  // ---------------------------------------------------------------- values as they are written

  /** A value with the text of its literals, its members in the order in which they stand. */
  datatype Raw =
    | Word(word: Text)
    | Numeral(number: Text)
    | Literally(literal: Text)
    | Listed(items: seq<Raw>)
    | Braced(members: seq<Pair>)

  datatype Pair = Pair(literal: Text, value: Raw)

  predicate Good(u: Raw)
    decreases u
  {
    match u
    case Word(word) => word == Ascii("true") || word == Ascii("false") || word == Ascii("null")
    case Numeral(number) => IsNumber(number)
    case Literally(literal) => IsLiteral(literal)
    case Listed(items) => forall i :: 0 <= i < |items| ==> Good(items[i])
    case Braced(members) => forall i :: 0 <= i < |members| ==> IsLiteral(members[i].literal) && Good(members[i].value)
  }

  predicate GoodItems(items: seq<Raw>) {
    forall i :: 0 <= i < |items| ==> Good(items[i])
  }

  predicate GoodMembers(members: seq<Pair>) {
    forall i :: 0 <= i < |members| ==> IsLiteral(members[i].literal) && Good(members[i].value)
  }

  /** The members assigned one after the other. */
  function PutAll(done: seq<Member>, members: seq<Member>): seq<Member>
    decreases |members|
  {
    if members == [] then done else PutAll(Put(done, members[0].key, members[0].value), members[1..])
  }

  /** The value that is meant. */
  function Meaning(u: Raw): Json
    requires Good(u)
    decreases u, 0
  {
    match u
    case Word(word) => if word == Ascii("null") then Null else Bool(word == Ascii("true"))
    case Numeral(number) => Number(number)
    case Literally(literal) => String(TextOf(literal))
    case Listed(items) => Array(Meanings(items))
    case Braced(members) => Object(PutAll([], MemberMeanings(members)))
  }

  function Meanings(items: seq<Raw>): (r: seq<Json>)
    requires GoodItems(items)
    ensures |r| == |items|
    decreases items, 1
  {
    if items == [] then [] else [Meaning(items[0])] + Meanings(items[1..])
  }

  function MemberMeanings(members: seq<Pair>): (r: seq<Member>)
    requires GoodMembers(members)
    ensures |r| == |members|
    decreases members, 1
  {
    if members == [] then []
    else [Member(TextOf(members[0].literal), Meaning(members[0].value))] + MemberMeanings(members[1..])
  }

  /** How many containers are open around the innermost value. */
  function Depth(u: Raw): nat
    decreases u
  {
    match u
    case Listed(items) => if items == [] then 0 else 1 + DepthOfItems(items)
    case Braced(members) => if members == [] then 0 else 1 + DepthOfMembers(members)
    case _ => 0
  }

  function DepthOfItems(items: seq<Raw>): nat
    decreases items
  {
    if items == [] then 0 else Max(Depth(items[0]), DepthOfItems(items[1..]))
  }

  function DepthOfMembers(members: seq<Pair>): nat
    decreases members
  {
    if members == [] then 0 else Max(Depth(members[0].value), DepthOfMembers(members[1..]))
  }

  // ---------------------------------------------------------------- tokens

  function Tokens(u: Raw): seq<Text>
    decreases u
  {
    match u
    case Word(word) => [word]
    case Numeral(number) => [number]
    case Literally(literal) => [literal]
    case Listed(items) => [Ascii("[")] + (ItemTokens(items) + [Ascii("]")])
    case Braced(members) => [Ascii("{")] + (MemberTokens(members) + [Ascii("}")])
  }

  function ItemTokens(items: seq<Raw>): seq<Text>
    decreases items, 0
  {
    if items == [] then [] else Tokens(items[0]) + MoreItemTokens(items[1..])
  }

  function MoreItemTokens(items: seq<Raw>): seq<Text>
    decreases items, 1
  {
    if items == [] then [] else [Ascii(",")] + ItemTokens(items)
  }

  function MemberTokens(members: seq<Pair>): seq<Text>
    decreases members, 0
  {
    if members == [] then []
    else [members[0].literal, Ascii(":")] + (Tokens(members[0].value) + MoreMemberTokens(members[1..]))
  }

  function MoreMemberTokens(members: seq<Pair>): seq<Text>
    decreases members, 1
  {
    if members == [] then [] else [Ascii(",")] + MemberTokens(members)
  }

  /** The tokens, each after its gap. */
  function Spread(tokens: seq<Text>, gaps: seq<Text>): Text
    requires |gaps| == |tokens|
  {
    if tokens == [] then [] else gaps[0] + tokens[0] + Spread(tokens[1..], gaps[1..])
  }

  lemma {:induction false} SpreadSplits(a: seq<Text>, b: seq<Text>, gaps: seq<Text>)
    requires |gaps| == |a| + |b|
    ensures Spread(a + b, gaps) == Spread(a, gaps[..|a|]) + Spread(b, gaps[|a|..])
  {
    if a == [] {
      assert a + b == b && gaps[..0] == [] && gaps[0..] == gaps;
    } else {
      assert (a + b)[1..] == a[1..] + b && (a + b)[0] == a[0];
      assert gaps[1..][..|a| - 1] == gaps[..|a|][1..] && gaps[1..][|a| - 1..] == gaps[|a|..];
      SpreadSplits(a[1..], b, gaps[1..]);
      var head := gaps[0] + a[0];
      Regroup(head, Spread(a[1..], gaps[..|a|][1..]), Spread(b, gaps[|a|..]));
    }
  }

  /** The other way round: two spread lists after one another. */
  lemma SpreadJoins(a: seq<Text>, g: seq<Text>, b: seq<Text>, h: seq<Text>)
    requires |g| == |a| && |h| == |b|
    ensures Spread(a + b, g + h) == Spread(a, g) + Spread(b, h)
  {
    SpreadSplits(a, b, g + h);
    assert (g + h)[..|a|] == g && (g + h)[|a|..] == h;
  }

  /** A token, its gap and what follows. */
  lemma SpreadOne(token: Text, more: seq<Text>, gaps: seq<Text>, rest: Text)
    requires |gaps| == 1 + |more|
    ensures Spread([token] + more, gaps) + rest == gaps[0] + (token + (Spread(more, gaps[1..]) + rest))
  {
    assert ([token] + more)[1..] == more && ([token] + more)[0] == token;
    var tail := Spread(more, gaps[1..]);
    assert gaps[0] + token + tail + rest == gaps[0] + (token + (tail + rest));
  }

  /** A last token, its gap and what follows. */
  lemma SpreadLast(token: Text, gaps: seq<Text>, rest: Text)
    requires |gaps| == 1
    ensures Spread([token], gaps) + rest == gaps[0] + (token + rest)
  {
    hide Spread;
    assert [token] + [] == [token];
    SpreadOne(token, [], gaps, rest);
    SpreadNothing(gaps[1..], rest);
  }

  lemma SpreadNothing(gaps: seq<Text>, rest: Text)
    requires gaps == []
    ensures Spread([], gaps) + rest == rest
  {
  }

  /** A key and its colon, spread. */
  lemma SpreadKey(key: Text, more: seq<Text>, gaps: seq<Text>, rest: Text)
    requires |gaps| == 2 + |more|
    ensures Spread([key, Ascii(":")] + more, gaps) + rest
         == gaps[0] + (key + (gaps[1] + ([COLON] + (Spread(more, gaps[2..]) + rest))))
  {
    hide Spread, Ascii;
    Spelling();
    assert [key, Ascii(":")] + more == [key] + ([[COLON]] + more);
    SpreadOne(key, [[COLON]] + more, gaps, rest);
    SpreadOne([COLON], more, gaps[1..], rest);
    assert gaps[1..][1..] == gaps[2..];
  }

  lemma BlankParts(gaps: seq<Text>, n: nat)
    requires BlankGaps(gaps) && n <= |gaps|
    ensures BlankGaps(gaps[..n]) && BlankGaps(gaps[n..])
    ensures forall i :: 0 <= i < |gaps| ==> AllBlank(gaps[i])
  {
  }

  lemma BlankJoin(g: seq<Text>, h: seq<Text>)
    requires BlankGaps(g) && BlankGaps(h)
    ensures BlankGaps(g + h)
  {
    hide AllBlank;
  }

  lemma ItemTokensSplit(items: seq<Raw>)
    requires items != []
    ensures ItemTokens(items) == Tokens(items[0]) + MoreItemTokens(items[1..])
    ensures MoreItemTokens(items[1..]) == if items[1..] == [] then [] else [Ascii(",")] + ItemTokens(items[1..])
    ensures DepthOfItems(items) == Max(Depth(items[0]), DepthOfItems(items[1..]))
    ensures GoodItems(items) ==> Meanings(items) == [Meaning(items[0])] + Meanings(items[1..])
  {
    hide Tokens, Depth, Good, Meaning, Ascii;
  }

  lemma MemberTokensSplit(members: seq<Pair>)
    requires members != []
    ensures MemberTokens(members)
         == [members[0].literal, Ascii(":")] + (Tokens(members[0].value) + MoreMemberTokens(members[1..]))
    ensures MoreMemberTokens(members[1..]) == if members[1..] == [] then [] else [Ascii(",")] + MemberTokens(members[1..])
    ensures DepthOfMembers(members) == Max(Depth(members[0].value), DepthOfMembers(members[1..]))
    ensures GoodMembers(members) ==>
              MemberMeanings(members) == [Member(TextOf(members[0].literal), Meaning(members[0].value))] + MemberMeanings(members[1..])
  {
    hide Tokens, Depth, Good, Meaning, Ascii, IsLiteral, TextOf;
  }

  lemma NoneLeft()
    ensures DepthOfItems([]) == 0 && DepthOfMembers([]) == 0 && Meanings([]) == [] && MemberMeanings([]) == []
    ensures ItemTokens([]) == [] && MemberTokens([]) == []
  {
  }

  lemma DepthInside(u: Raw)
    ensures u.Listed? && u.items != [] ==> Depth(u) == 1 + DepthOfItems(u.items)
    ensures u.Braced? && u.members != [] ==> Depth(u) == 1 + DepthOfMembers(u.members)
    ensures u == Listed([]) || u == Braced([]) ==> Depth(u) == 0
  {
  }

  // ---------------------------------------------------------------- white space

  /** Skipping takes all blanks and nothing else, whatever follows them. */
  lemma {:induction false} BlanksAreSkipped(gap: Text, a: Text)
    requires AllBlank(gap)
    ensures SkipSpace(gap + a) == SkipSpace(a)
  {
    if gap == [] {
      assert gap + a == a;
    } else {
      assert (gap + a)[1..] == gap[1..] + a && (gap + a)[0] == gap[0];
      BlanksAreSkipped(gap[1..], a);
    }
  }

  lemma OthersAreNotSkipped(a: Text)
    requires a == [] || !Blank(a[0])
    ensures SkipSpace(a) == a
  {
  }

  /** What skip_whitespace does, by the bytes alone: the longest blank start goes. */
  lemma {:induction false} SkipIsExact(a: Text) returns (gap: Text)
    ensures AllBlank(gap) && a == gap + SkipSpace(a) && (SkipSpace(a) == [] || !Blank(SkipSpace(a)[0]))
  {
    gap := [];
    if a != [] && Blank(a[0]) {
      var more := SkipIsExact(a[1..]);
      gap := [a[0]] + more;
    }
  }

  lemma GapThenToken(gap: Text, a: Text)
    requires AllBlank(gap) && a != [] && !Blank(a[0])
    ensures SkipSpace(gap + a) == a
  {
    BlanksAreSkipped(gap, a);
    OthersAreNotSkipped(a);
  }

  lemma SkipTwice(a: Text)
    ensures SkipSpace(SkipSpace(a)) == SkipSpace(a)
  {
    var _ := SkipIsExact(a);
    OthersAreNotSkipped(SkipSpace(a));
  }

  lemma ValueSkips(a: Text, b: Text, depth: nat)
    requires SkipSpace(a) == SkipSpace(b)
    ensures Value(a, depth) == Value(b, depth)
  {
    hide Items, Members, StringLiteral, NumberLexeme, SkipSpace;
  }

  lemma ItemsSkip(a: Text, b: Text, depth: nat, done: seq<Json>)
    requires SkipSpace(a) == SkipSpace(b)
    ensures Items(a, depth, done) == Items(b, depth, done)
  {
    hide Value, SkipSpace;
    ValueSkips(a, b, depth + 1);
  }

  lemma MembersSkip(a: Text, b: Text, depth: nat, done: seq<Member>)
    requires SkipSpace(a) == SkipSpace(b)
    ensures Members(a, depth, done) == Members(b, depth, done)
  {
    hide Value, SkipSpace, StringLiteral, Put;
  }

  // ---------------------------------------------------------------- what is written is read

  /** What may follow a value: after a number, nothing that could belong to it. */
  predicate MayFollow(u: Raw, rest: Text) {
    u.Numeral? ==> EndsBefore(rest, TEN + {0x2B, 0x2D, 0x2E, 0x65, 0x45})
  }

  /** A scalar at the start of the text. */
  lemma ScalarReads(u: Raw, rest: Text, depth: nat)
    requires Good(u) && MayFollow(u, rest) && (u.Word? || u.Numeral? || u.Literally?) && depth <= MAX_DEPTH
    ensures Tokens(u) == [Tokens(u)[0]] && Value(Tokens(u)[0] + rest, depth) == Some((Meaning(u), rest))
  {
    hide NumberLexeme, StringLiteral, Items, Members, SkipSpace, Ascii;
    var token := Tokens(u)[0];
    var a := token + rest;
    Spelling();
    match u
    case Word(word) =>
      assert word <= a && a[|word|..] == rest;
      OthersAreNotSkipped(a);
    case Numeral(number) =>
      NumberBefore(number, rest);
      NumberStart(a);
      OthersAreNotSkipped(a);
    case Literally(literal) =>
      LiteralBefore(literal, rest);
      LiteralStart(literal);
      OthersAreNotSkipped(a);
  }

  lemma LiteralStart(literal: Text)
    requires IsLiteral(literal)
    ensures literal != [] && literal[0] == QUOTE
  {
    hide Characters;
  }

  /** The first token of a value starts with a byte that is neither blank nor a closing bracket. */
  lemma TokensStart(u: Raw)
    requires Good(u)
    ensures Tokens(u) != [] && Solid(Tokens(u)[0])
  {
    hide ItemTokens, MemberTokens, NumberLexeme, StringLiteral;
    match u
    case Numeral(number) => NumberStart(number);
    case Literally(literal) => LiteralStart(literal);
    case _ =>
  }

  /** Opening a container: what follows is its first element, or its end. */
  lemma ArrayOpens(gap: Text, a: Text, depth: nat)
    requires AllBlank(gap) && depth <= MAX_DEPTH
    ensures var c := SkipSpace(a);
            Value(gap + ([OPEN_ARRAY] + a), depth) ==
              if c != [] && c[0] == CLOSE_ARRAY then Some((Array([]), c[1..]))
              else var (items, rest) :- Items(a, depth, []); Some((Array(items), rest))
  {
    hide Items, Members, StringLiteral, NumberLexeme, SkipSpace;
    GapThenToken(gap, [OPEN_ARRAY] + a);
    assert ([OPEN_ARRAY] + a)[1..] == a;
    SkipTwice(a);
    ItemsSkip(SkipSpace(a), a, depth, []);
  }

  lemma ObjectOpens(gap: Text, a: Text, depth: nat)
    requires AllBlank(gap) && depth <= MAX_DEPTH
    ensures var c := SkipSpace(a);
            Value(gap + ([OPEN_OBJECT] + a), depth) ==
              if c != [] && c[0] == CLOSE_OBJECT then Some((Object([]), c[1..]))
              else var (members, rest) :- Members(a, depth, []); Some((Object(members), rest))
  {
    hide Items, Members, StringLiteral, NumberLexeme, SkipSpace;
    GapThenToken(gap, [OPEN_OBJECT] + a);
    assert ([OPEN_OBJECT] + a)[1..] == a;
    SkipTwice(a);
    MembersSkip(SkipSpace(a), a, depth, []);
  }

  /** One turn of a loop over elements: the value, and after a gap a comma or the end. */
  lemma SpacedItemsTurn(a: Text, depth: nat, done: seq<Json>, v: Json, gap: Text, next: Byte, b: Text)
    requires Value(a, depth + 1) == Some((v, gap + ([next] + b))) && AllBlank(gap)
    ensures next == COMMA ==> Items(a, depth, done) == Items(b, depth, done + [v])
    ensures next == CLOSE_ARRAY ==> Items(a, depth, done) == Some((done + [v], b))
  {
    hide Value, SkipSpace;
    if next == COMMA || next == CLOSE_ARRAY {
      GapThenToken(gap, [next] + b);
      assert ([next] + b)[1..] == b;
    }
  }

  lemma SpacedMembersTurn(a: Text, depth: nat, done: seq<Member>, key: Text, b: Text, v: Json, gap: Text, next: Byte, c: Text)
    requires Key(a) == Some((key, b)) && Value(b, depth + 1) == Some((v, gap + ([next] + c))) && AllBlank(gap)
    ensures next == COMMA ==> Members(a, depth, done) == Members(c, depth, Put(done, key, v))
    ensures next == CLOSE_OBJECT ==> Members(a, depth, done) == Some((Put(done, key, v), c))
  {
    hide Value, SkipSpace, Key, Put;
    if next == COMMA || next == CLOSE_OBJECT {
      GapThenToken(gap, [next] + c);
      assert ([next] + c)[1..] == c;
    }
  }

  lemma SpacedKey(literal: Text, g0: Text, g1: Text, b: Text)
    requires IsLiteral(literal) && AllBlank(g0) && AllBlank(g1)
    ensures Key(g0 + (literal + (g1 + ([COLON] + b)))) == Some((TextOf(literal), b))
  {
    hide SkipSpace, StringLiteral;
    LiteralStart(literal);
    var tail := g1 + ([COLON] + b);
    GapThenToken(g0, literal + tail);
    LiteralBefore(literal, tail);
    GapThenToken(g1, [COLON] + b);
    assert ([COLON] + b)[1..] == b;
  }

  /** A gap and a comma or bracket cannot belong to a number. */
  lemma MarkFollows(u: Raw, gap: Text, next: Byte, b: Text)
    requires AllBlank(gap) && (next == COMMA || next == CLOSE_ARRAY || next == CLOSE_OBJECT)
    ensures MayFollow(u, gap + ([next] + b))
  {
    if gap != [] {
      assert (gap + ([next] + b))[0] == gap[0];
    }
  }

  /** The elements that are left, and their closing bracket. */
  lemma {:induction false} ItemsAreRead(items: seq<Raw>, gaps: seq<Text>, rest: Text, depth: nat, done: seq<Json>)
    requires items != [] && GoodItems(items) && depth <= MAX_DEPTH
    requires |gaps| == |ItemTokens(items)| + 1 && BlankGaps(gaps)
    ensures Items(Spread(ItemTokens(items) + [[CLOSE_ARRAY]], gaps) + rest, depth, done)
         == if depth + 1 + DepthOfItems(items) <= MAX_DEPTH then Some((done + Meanings(items), rest)) else None
    decreases items, 0
  {
    hide Value, Tokens, ItemTokens, MoreItemTokens, Good, Meaning, Meanings, Depth, DepthOfItems, Items, Spread, AllBlank, Ascii;
    hide MayFollow;
    Spelling();
    var u, more := items[0], items[1..];
    ItemTokensSplit(items);
    var own, tail := Tokens(u), MoreItemTokens(more) + [[CLOSE_ARRAY]];
    assert ItemTokens(items) + [[CLOSE_ARRAY]] == own + tail;
    SpreadSplits(own, tail, gaps);
    var g1, g2 := gaps[..|own|], gaps[|own|..];
    BlankParts(gaps, |own|);
    var b := Spread(tail, g2) + rest;
    Regroup(Spread(own, g1), Spread(tail, g2), rest);
    var a := Spread(own, g1) + b;
    assert done + Meanings(items) == (done + [Meaning(u)]) + Meanings(more);
    NoneLeft();
    if more == [] {
      assert tail == [[CLOSE_ARRAY]];
      SpreadLast([CLOSE_ARRAY], g2, rest);
      MarkFollows(u, g2[0], CLOSE_ARRAY, rest);
    } else {
      assert tail == [[COMMA]] + (ItemTokens(more) + [[CLOSE_ARRAY]]);
      SpreadOne([COMMA], ItemTokens(more) + [[CLOSE_ARRAY]], g2, rest);
      MarkFollows(u, g2[0], COMMA, Spread(ItemTokens(more) + [[CLOSE_ARRAY]], g2[1..]) + rest);
    }
    RawReads(u, g1, b, depth + 1);
    if depth + 1 + Depth(u) > MAX_DEPTH {
      ItemsStuck(a, depth, done);
    } else if more == [] {
      SpacedItemsTurn(a, depth, done, Meaning(u), g2[0], CLOSE_ARRAY, rest);
      assert done + Meanings(items) == done + [Meaning(u)];
    } else {
      SpacedItemsTurn(a, depth, done, Meaning(u), g2[0], COMMA, Spread(ItemTokens(more) + [[CLOSE_ARRAY]], g2[1..]) + rest);
      BlankParts(g2, 1);
      ItemsAreRead(more, g2[1..], rest, depth, done + [Meaning(u)]);
    }
  }

  /** The members that are left, with any keys, and their closing bracket. */
  lemma {:induction false} MembersAreRead(members: seq<Pair>, gaps: seq<Text>, rest: Text, depth: nat, done: seq<Member>)
    requires members != [] && GoodMembers(members) && depth <= MAX_DEPTH
    requires |gaps| == |MemberTokens(members)| + 1 && BlankGaps(gaps)
    ensures Members(Spread(MemberTokens(members) + [[CLOSE_OBJECT]], gaps) + rest, depth, done)
         == if depth + 1 + DepthOfMembers(members) <= MAX_DEPTH then Some((PutAll(done, MemberMeanings(members)), rest)) else None
    decreases members, 0
  {
    hide Value, Tokens, MemberTokens, MoreMemberTokens, Good, Meaning, MemberMeanings, Depth, DepthOfMembers, Members, Spread;
    hide AllBlank, Ascii, MayFollow, Key, Put, PutAll, IsLiteral, TextOf;
    Spelling();
    var m, more := members[0], members[1..];
    MemberTokensSplit(members);
    var own, tail := Tokens(m.value), MoreMemberTokens(more) + [[CLOSE_OBJECT]];
    assert MemberTokens(members) + [[CLOSE_OBJECT]] == [m.literal, Ascii(":")] + (own + tail);
    SpreadKey(m.literal, own + tail, gaps, rest);
    var g := gaps[2..];
    BlankParts(gaps, 2);
    SpreadSplits(own, tail, g);
    var g1, g2 := g[..|own|], g[|own|..];
    BlankParts(g, |own|);
    var c := Spread(tail, g2) + rest;
    Regroup(Spread(own, g1), Spread(tail, g2), rest);
    var b := Spread(own, g1) + c;
    var key, v := TextOf(m.literal), Meaning(m.value);
    SpacedKey(m.literal, gaps[0], gaps[1], b);
    var a := gaps[0] + (m.literal + (gaps[1] + ([COLON] + b)));
    var next := Put(done, key, v);
    NoneLeft();
    PutAllSplit(done, Member(key, v), MemberMeanings(more));
    if more == [] {
      assert tail == [[CLOSE_OBJECT]];
      SpreadLast([CLOSE_OBJECT], g2, rest);
      MarkFollows(m.value, g2[0], CLOSE_OBJECT, rest);
    } else {
      assert tail == [[COMMA]] + (MemberTokens(more) + [[CLOSE_OBJECT]]);
      SpreadOne([COMMA], MemberTokens(more) + [[CLOSE_OBJECT]], g2, rest);
      MarkFollows(m.value, g2[0], COMMA, Spread(MemberTokens(more) + [[CLOSE_OBJECT]], g2[1..]) + rest);
    }
    RawReads(m.value, g1, c, depth + 1);
    if depth + 1 + Depth(m.value) > MAX_DEPTH {
      MembersStuck(a, depth, done);
    } else if more == [] {
      SpacedMembersTurn(a, depth, done, key, b, v, g2[0], CLOSE_OBJECT, rest);
    } else {
      SpacedMembersTurn(a, depth, done, key, b, v, g2[0], COMMA,
                        Spread(MemberTokens(more) + [[CLOSE_OBJECT]], g2[1..]) + rest);
      BlankParts(g2, 1);
      MembersAreRead(more, g2[1..], rest, depth, next);
    }
  }

  lemma PutAllSplit(done: seq<Member>, m: Member, more: seq<Member>)
    ensures PutAll(done, [m] + more) == PutAll(Put(done, m.key, m.value), more)
    ensures more == [] ==> PutAll(done, [m] + more) == Put(done, m.key, m.value)
  {
    hide Put;
    assert ([m] + more)[1..] == more;
  }

  /** The inside of a container that is not empty does not start with a closing bracket. */
  lemma InsideIsSolid(tokens: seq<Text>, gaps: seq<Text>, rest: Text)
    requires tokens != [] && |gaps| == |tokens| && BlankGaps(gaps) && Solid(tokens[0])
    ensures Solid(SkipSpace(Spread(tokens, gaps) + rest))
  {
    hide Spread, SkipSpace;
    assert tokens == [tokens[0]] + tokens[1..];
    SpreadOne(tokens[0], tokens[1..], gaps, rest);
    var a := tokens[0] + (Spread(tokens[1..], gaps[1..]) + rest);
    assert a[0] == tokens[0][0];
    GapThenToken(gaps[0], a);
  }

  /**
  A value as it may be written, with any blanks before and between its tokens, is read up to the
  exact end of its last token as what it means, if and only if it does not nest too deep.
  */
  lemma {:induction false} RawReads(u: Raw, gaps: seq<Text>, rest: Text, depth: nat)
    requires Good(u) && MayFollow(u, rest) && |gaps| == |Tokens(u)| && BlankGaps(gaps)
    ensures Value(Spread(Tokens(u), gaps) + rest, depth) == if depth + Depth(u) <= MAX_DEPTH then Some((Meaning(u), rest)) else None
    decreases u
  {
    if depth > MAX_DEPTH {
      TooDeep(Spread(Tokens(u), gaps) + rest, depth);
    } else if u.Listed? {
      ListReads(u.items, gaps, rest, depth);
    } else if u.Braced? {
      BracesRead(u.members, gaps, rest, depth);
    } else {
      ScalarSpread(u, gaps, rest, depth);
    }
  }

  lemma ScalarSpread(u: Raw, gaps: seq<Text>, rest: Text, depth: nat)
    requires Good(u) && MayFollow(u, rest) && (u.Word? || u.Numeral? || u.Literally?) && depth <= MAX_DEPTH
    requires |gaps| == |Tokens(u)| && BlankGaps(gaps)
    ensures Value(Spread(Tokens(u), gaps) + rest, depth) == Some((Meaning(u), rest))
  {
    hide Good, Value, Tokens, Spread, SkipSpace, MayFollow, AllBlank, Meaning;
    ScalarReads(u, rest, depth);
    var token := Tokens(u)[0];
    SpreadLast(token, gaps, rest);
    BlanksAreSkipped(gaps[0], token + rest);
    ValueSkips(gaps[0] + (token + rest), token + rest, depth);
  }

  lemma {:induction false} ListReads(items: seq<Raw>, gaps: seq<Text>, rest: Text, depth: nat)
    requires Good(Listed(items)) && depth <= MAX_DEPTH
    requires |gaps| == |Tokens(Listed(items))| && BlankGaps(gaps)
    ensures Value(Spread(Tokens(Listed(items)), gaps) + rest, depth)
         == if depth + Depth(Listed(items)) <= MAX_DEPTH then Some((Meaning(Listed(items)), rest)) else None
    decreases items, 1
  {
    hide Value, Items, ItemTokens, Spread, Depth, DepthOfItems, SkipSpace, AllBlank, Ascii, Meanings;
    Spelling();
    DepthInside(Listed(items));
    NoneLeft();
    var inside := ItemTokens(items) + [[CLOSE_ARRAY]];
    assert Tokens(Listed(items)) == [[OPEN_ARRAY]] + inside;
    var a := Spread(inside, gaps[1..]) + rest;
    SpreadOne([OPEN_ARRAY], inside, gaps, rest);
    BlankParts(gaps, 1);
    ArrayOpens(gaps[0], a, depth);
    if items == [] {
      assert inside == [[CLOSE_ARRAY]];
      SpreadLast([CLOSE_ARRAY], gaps[1..], rest);
      GapThenToken(gaps[1], [CLOSE_ARRAY] + rest);
      assert ([CLOSE_ARRAY] + rest)[1..] == rest;
    } else {
      ItemTokensSplit(items);
      TokensStart(items[0]);
      assert inside[0] == Tokens(items[0])[0];
      InsideIsSolid(inside, gaps[1..], rest);
      ItemsAreRead(items, gaps[1..], rest, depth, []);
      assert [] + Meanings(items) == Meanings(items);
    }
  }

  lemma {:induction false} BracesRead(members: seq<Pair>, gaps: seq<Text>, rest: Text, depth: nat)
    requires Good(Braced(members)) && depth <= MAX_DEPTH
    requires |gaps| == |Tokens(Braced(members))| && BlankGaps(gaps)
    ensures Value(Spread(Tokens(Braced(members)), gaps) + rest, depth)
         == if depth + Depth(Braced(members)) <= MAX_DEPTH then Some((Meaning(Braced(members)), rest)) else None
    decreases members, 1
  {
    hide Value, Members, MemberTokens, Spread, Depth, DepthOfMembers, SkipSpace, AllBlank, Ascii, MemberMeanings, Put;
    hide IsLiteral, TextOf;
    Spelling();
    DepthInside(Braced(members));
    NoneLeft();
    var inside := MemberTokens(members) + [[CLOSE_OBJECT]];
    assert Tokens(Braced(members)) == [[OPEN_OBJECT]] + inside;
    var a := Spread(inside, gaps[1..]) + rest;
    SpreadOne([OPEN_OBJECT], inside, gaps, rest);
    BlankParts(gaps, 1);
    ObjectOpens(gaps[0], a, depth);
    if members == [] {
      assert inside == [[CLOSE_OBJECT]];
      SpreadLast([CLOSE_OBJECT], gaps[1..], rest);
      GapThenToken(gaps[1], [CLOSE_OBJECT] + rest);
      assert ([CLOSE_OBJECT] + rest)[1..] == rest;
    } else {
      MemberTokensSplit(members);
      LiteralStart(members[0].literal);
      assert inside[0] == members[0].literal;
      InsideIsSolid(inside, gaps[1..], rest);
      MembersAreRead(members, gaps[1..], rest, depth, []);
    }
  }

  // ---------------------------------------------------------------- what is read was written so

  /** The text `a` begins with the value `u`, with these gaps, and goes on with `rest`. */
  ghost predicate Written(a: Text, u: Raw, gaps: seq<Text>, rest: Text) {
    Good(u) && |gaps| == |Tokens(u)| && BlankGaps(gaps) && a == Spread(Tokens(u), gaps) + rest
  }

  /** A gap, a token and the text after it. */
  lemma OneSpread(gap: Text, token: Text, rest: Text)
    ensures Spread([token], [gap]) + rest == gap + (token + rest)
  {
    hide Spread;
    SpreadLast(token, [gap], rest);
  }

  lemma ScalarWritten(a: Text, depth: nat) returns (u: Raw, gaps: seq<Text>)
    requires Value(a, depth).Some?
    requires SkipSpace(a)[0] != OPEN_ARRAY && SkipSpace(a)[0] != OPEN_OBJECT
    ensures Written(a, u, gaps, Value(a, depth).value.1) && Meaning(u) == Value(a, depth).value.0 && Depth(u) == 0
  {
    hide StringLiteral, NumberLexeme, Items, Members, SkipSpace, Spread, AllBlank;
    var gap := SkipIsExact(a);
    var b := SkipSpace(a);
    var rest := Value(a, depth).value.1;
    Spelling();
    var token: Text;
    match b[0] {
      case 0x22 =>
        token := LiteralFound(b);
        u := Literally(token);
      case 0x74 => token, u := TRUE, Word(TRUE);
      case 0x66 => token, u := FALSE, Word(FALSE);
      case 0x6E => token, u := NULL, Word(NULL);
      case _ =>
        NumberFound(b);
        token := NumberLexeme(b).value.0;
        u := Numeral(token);
    }
    assert b == token + rest;
    gaps := [gap];
    OneSpread(gap, token, rest);
  }

  lemma ValueWritten(a: Text, depth: nat) returns (u: Raw, gaps: seq<Text>)
    requires Value(a, depth).Some?
    ensures Written(a, u, gaps, Value(a, depth).value.1) && Meaning(u) == Value(a, depth).value.0
    ensures depth + Depth(u) <= MAX_DEPTH
    decreases |a|, 1
  {
    hide StringLiteral, NumberLexeme, Items, Members, SkipSpace, Written, Meaning, Literal, Depth;
    var b := SkipSpace(a);
    if b[0] == OPEN_ARRAY {
      u, gaps := ArrayWritten(a, depth);
    } else if b[0] == OPEN_OBJECT {
      u, gaps := ObjectWritten(a, depth);
    } else {
      u, gaps := ScalarWritten(a, depth);
    }
  }

  lemma ContainerSpread(g: Text, open: Text, inside: seq<Text>, gaps: seq<Text>, rest: Text)
    requires |gaps| == |inside|
    ensures Spread([open] + inside, [g] + gaps) + rest == g + (open + (Spread(inside, gaps) + rest))
  {
    hide Spread;
    SpreadOne(open, inside, [g] + gaps, rest);
    assert ([g] + gaps)[1..] == gaps;
  }

  /** What follows an opening bracket and the blanks after it. */
  lemma ArrayInside(c: Text, depth: nat) returns (items: seq<Raw>, gaps: seq<Text>, rest: Text)
    requires (c != [] && c[0] == CLOSE_ARRAY) || Items(c, depth, []).Some?
    requires depth <= MAX_DEPTH
    ensures GoodItems(items) && |gaps| == |ItemTokens(items)| + 1 && BlankGaps(gaps)
    ensures c == Spread(ItemTokens(items) + [[CLOSE_ARRAY]], gaps) + rest && depth + Depth(Listed(items)) <= MAX_DEPTH
    ensures (if c != [] && c[0] == CLOSE_ARRAY then Some(([], c[1..])) else Items(c, depth, [])) == Some((Meanings(items), rest))
    decreases |c|, 3
  {
    hide Items, Spread, AllBlank, Good, Depth, DepthOfItems, ItemTokens;
    NoneLeft();
    items, gaps := [], [[]];
    if c != [] && c[0] == CLOSE_ARRAY {
      rest := c[1..];
      OneSpread([], [CLOSE_ARRAY], rest);
      assert c == [CLOSE_ARRAY] + rest;
      assert [] + [[CLOSE_ARRAY]] == [[CLOSE_ARRAY]];
      BlankOne([]);
    } else {
      items, gaps := ItemsWritten(c, depth, []);
      rest := Items(c, depth, []).value.1;
      assert [] + Meanings(items) == Meanings(items);
    }
    DepthInside(Listed(items));
  }

  lemma ObjectInside(c: Text, depth: nat) returns (members: seq<Pair>, gaps: seq<Text>, rest: Text)
    requires (c != [] && c[0] == CLOSE_OBJECT) || Members(c, depth, []).Some?
    requires depth <= MAX_DEPTH
    ensures GoodMembers(members) && |gaps| == |MemberTokens(members)| + 1 && BlankGaps(gaps)
    ensures c == Spread(MemberTokens(members) + [[CLOSE_OBJECT]], gaps) + rest && depth + Depth(Braced(members)) <= MAX_DEPTH
    ensures (if c != [] && c[0] == CLOSE_OBJECT then Some(([], c[1..])) else Members(c, depth, []))
         == Some((PutAll([], MemberMeanings(members)), rest))
    decreases |c|, 3
  {
    hide Members, Spread, AllBlank, Good, Depth, DepthOfMembers, MemberTokens;
    NoneLeft();
    members, gaps := [], [[]];
    if c != [] && c[0] == CLOSE_OBJECT {
      rest := c[1..];
      OneSpread([], [CLOSE_OBJECT], rest);
      assert c == [CLOSE_OBJECT] + rest;
      assert [] + [[CLOSE_OBJECT]] == [[CLOSE_OBJECT]];
      BlankOne([]);
    } else {
      members, gaps := MembersWritten(c, depth, []);
      rest := Members(c, depth, []).value.1;
    }
    DepthInside(Braced(members));
  }

  lemma ArrayWritten(a: Text, depth: nat) returns (u: Raw, gaps: seq<Text>)
    requires Value(a, depth).Some? && SkipSpace(a)[0] == OPEN_ARRAY
    ensures Written(a, u, gaps, Value(a, depth).value.1) && Meaning(u) == Value(a, depth).value.0
    ensures depth + Depth(u) <= MAX_DEPTH
    decreases |a|, 0
  {
    hide StringLiteral, NumberLexeme, Items, Members, SkipSpace, Spread, AllBlank, Good, Depth, Ascii, ItemTokens, Meanings;
    Spelling();
    var gap := SkipIsExact(a);
    var b := SkipSpace(a);
    var inner := SkipIsExact(b[1..]);
    var items, g, rest := ArrayInside(SkipSpace(b[1..]), depth);
    u := Listed(items);
    GoodContainers(u);
    var inside := ItemTokens(items) + [[CLOSE_ARRAY]];
    var h := MoveGap(inner, inside, g, rest);
    gaps := [gap] + h;
    ContainerSpread(gap, [OPEN_ARRAY], inside, h, rest);
    assert b == [OPEN_ARRAY] + b[1..];
    BlankOne(gap);
    BlankJoin([gap], h);
  }

  lemma GoodContainers(u: Raw)
    ensures u.Listed? ==> (Good(u) <==> GoodItems(u.items))
    ensures u.Braced? ==> (Good(u) <==> GoodMembers(u.members))
  {
    hide IsLiteral;
  }

  lemma BlankOne(gap: Text)
    requires AllBlank(gap)
    ensures BlankGaps([gap])
    ensures AllBlank([])
  {
  }

  /** Blanks before the first token belong to its gap. */
  lemma MoveGap(gap: Text, tokens: seq<Text>, gaps: seq<Text>, rest: Text) returns (g: seq<Text>)
    requires AllBlank(gap) && BlankGaps(gaps) && |gaps| == |tokens| && tokens != []
    ensures BlankGaps(g) && |g| == |tokens| && Spread(tokens, g) + rest == gap + (Spread(tokens, gaps) + rest)
  {
    hide Spread;
    g := [gap + gaps[0]] + gaps[1..];
    var token, more := tokens[0], tokens[1..];
    assert tokens == [token] + more && g[1..] == gaps[1..];
    SpreadOne(token, more, gaps, rest);
    SpreadOne(token, more, g, rest);
    var tail := token + (Spread(more, gaps[1..]) + rest);
    Regroup(gap, gaps[0], tail);
  }

  lemma ItemsWritten(a: Text, depth: nat, done: seq<Json>) returns (items: seq<Raw>, gaps: seq<Text>)
    requires Items(a, depth, done).Some?
    ensures items != [] && GoodItems(items) && |gaps| == |ItemTokens(items)| + 1 && BlankGaps(gaps)
    ensures a == Spread(ItemTokens(items) + [[CLOSE_ARRAY]], gaps) + Items(a, depth, done).value.1
    ensures Items(a, depth, done).value.0 == done + Meanings(items) && depth + 1 + DepthOfItems(items) <= MAX_DEPTH
    decreases |a|, 2
  {
    hide Value, SkipSpace, Spread, AllBlank, Good, Meaning, Meanings, Tokens, ItemTokens, MoreItemTokens, Ascii;
    hide Depth, DepthOfItems;
    Spelling();
    NoneLeft();
    var (v, b) := Value(a, depth + 1).value;
    var u, own := ValueWritten(a, depth + 1);
    var gap := SkipIsExact(b);
    var c := SkipSpace(b);
    var rest := Items(a, depth, done).value.1;
    var more: seq<Raw>, tail: seq<Text>, g: seq<Text> := [], [[CLOSE_ARRAY]], [gap];
    BlankOne(gap);
    if c[0] == COMMA {
      assert c == [COMMA] + c[1..];
      var h;
      more, h := ItemsWritten(c[1..], depth, done + [v]);
      tail, g := [[COMMA]] + (ItemTokens(more) + [[CLOSE_ARRAY]]), [gap] + h;
      ContainerSpread(gap, [COMMA], ItemTokens(more) + [[CLOSE_ARRAY]], h, rest);
      BlankJoin([gap], h);
      assert done + ([v] + Meanings(more)) == (done + [v]) + Meanings(more);
    } else {
      assert c == [CLOSE_ARRAY] + rest;
      OneSpread(gap, [CLOSE_ARRAY], rest);
    }
    items, gaps := [u] + more, own + g;
    assert items[1..] == more;
    ItemTokensSplit(items);
    GoodMore(u, more);
    BlankJoin(own, g);
    SpreadJoins(Tokens(u), own, tail, g);
    Regroup(Spread(Tokens(u), own), Spread(tail, g), rest);
    assert ItemTokens(items) + [[CLOSE_ARRAY]] == Tokens(u) + tail;
  }

  lemma GoodMore(u: Raw, more: seq<Raw>)
    requires Good(u) && GoodItems(more)
    ensures GoodItems([u] + more)
  {
    hide Good;
  }

  lemma KeyWritten(a: Text) returns (literal: Text, g0: Text, g1: Text)
    requires Key(a).Some?
    ensures IsLiteral(literal) && TextOf(literal) == Key(a).value.0 && AllBlank(g0) && AllBlank(g1)
    ensures a == g0 + (literal + (g1 + ([COLON] + Key(a).value.1)))
  {
    hide StringLiteral, SkipSpace, AllBlank;
    g0 := SkipIsExact(a);
    literal := LiteralFound(SkipSpace(a));
    var b := StringLiteral(SkipSpace(a)).value.1;
    g1 := SkipIsExact(b);
    assert SkipSpace(b) == [COLON] + Key(a).value.1;
  }

  lemma MembersWritten(a: Text, depth: nat, done: seq<Member>) returns (members: seq<Pair>, gaps: seq<Text>)
    requires Members(a, depth, done).Some?
    ensures members != [] && GoodMembers(members) && |gaps| == |MemberTokens(members)| + 1 && BlankGaps(gaps)
    ensures a == Spread(MemberTokens(members) + [[CLOSE_OBJECT]], gaps) + Members(a, depth, done).value.1
    ensures Members(a, depth, done).value.0 == PutAll(done, MemberMeanings(members))
    ensures depth + 1 + DepthOfMembers(members) <= MAX_DEPTH
    decreases |a|, 2
  {
    hide Value, SkipSpace, Spread, AllBlank, Good, Meaning, MemberMeanings, Tokens, MemberTokens, MoreMemberTokens, Ascii;
    hide Depth, DepthOfMembers, Key, Put, PutAll, IsLiteral, TextOf;
    Spelling();
    NoneLeft();
    var (key, b) := Key(a).value;
    var literal, g0, g1 := KeyWritten(a);
    var (v, c) := Value(b, depth + 1).value;
    var u, own := ValueWritten(b, depth + 1);
    var gap := SkipIsExact(c);
    var d := SkipSpace(c);
    var rest := Members(a, depth, done).value.1;
    var more: seq<Pair>, tail: seq<Text>, g: seq<Text> := [], [[CLOSE_OBJECT]], [gap];
    BlankOne(gap);
    if d[0] == COMMA {
      assert d == [COMMA] + d[1..];
      var h;
      more, h := MembersWritten(d[1..], depth, Put(done, key, v));
      tail, g := [[COMMA]] + (MemberTokens(more) + [[CLOSE_OBJECT]]), [gap] + h;
      ContainerSpread(gap, [COMMA], MemberTokens(more) + [[CLOSE_OBJECT]], h, rest);
      BlankJoin([gap], h);
    } else {
      assert d == [CLOSE_OBJECT] + rest;
      OneSpread(gap, [CLOSE_OBJECT], rest);
    }
    PutAllSplit(done, Member(key, v), MemberMeanings(more));
    var m := Pair(literal, u);
    members := [m] + more;
    gaps := [g0, g1] + (own + g);
    assert members[1..] == more;
    MemberTokensSplit(members);
    GoodMoreMembers(m, more);
    BlankJoin(own, g);
    BlankTwo(g0, g1);
    BlankJoin([g0, g1], own + g);
    SpreadJoins(Tokens(u), own, tail, g);
    Regroup(Spread(Tokens(u), own), Spread(tail, g), rest);
    SpreadKey(literal, Tokens(u) + tail, gaps, rest);
    assert gaps[2..] == own + g;
    assert MemberTokens(members) + [[CLOSE_OBJECT]] == [literal, Ascii(":")] + (Tokens(u) + tail);
  }

  lemma BlankTwo(g0: Text, g1: Text)
    requires AllBlank(g0) && AllBlank(g1)
    ensures BlankGaps([g0, g1])
  {
    hide AllBlank;
  }

  lemma GoodMoreMembers(m: Pair, more: seq<Pair>)
    requires IsLiteral(m.literal) && Good(m.value) && GoodMembers(more)
    ensures GoodMembers([m] + more)
  {
    hide Good, IsLiteral;
  }

  lemma ObjectWritten(a: Text, depth: nat) returns (u: Raw, gaps: seq<Text>)
    requires Value(a, depth).Some? && SkipSpace(a)[0] == OPEN_OBJECT
    ensures Written(a, u, gaps, Value(a, depth).value.1) && Meaning(u) == Value(a, depth).value.0
    ensures depth + Depth(u) <= MAX_DEPTH
    decreases |a|, 0
  {
    hide StringLiteral, NumberLexeme, Items, Members, SkipSpace, Spread, AllBlank, Good, Depth, Ascii, MemberTokens, MemberMeanings;
    hide PutAll;
    Spelling();
    var gap := SkipIsExact(a);
    var b := SkipSpace(a);
    var inner := SkipIsExact(b[1..]);
    var members, g, rest := ObjectInside(SkipSpace(b[1..]), depth);
    u := Braced(members);
    GoodContainers(u);
    var inside := MemberTokens(members) + [[CLOSE_OBJECT]];
    var h := MoveGap(inner, inside, g, rest);
    gaps := [gap] + h;
    ContainerSpread(gap, [OPEN_OBJECT], inside, h, rest);
    assert b == [OPEN_OBJECT] + b[1..];
    BlankOne(gap);
    BlankJoin([gap], h);
  }

  // ---------------------------------------------------------------- whole texts

  /** The text is the value `u` with these gaps and nothing but blanks after it. */
  ghost predicate Spells(a: Text, u: Raw, gaps: seq<Text>, last: Text) {
    Written(a, u, gaps, last) && AllBlank(last)
  }

  lemma SpelledIsParsed(a: Text, u: Raw, gaps: seq<Text>, last: Text)
    requires Spells(a, u, gaps, last)
    ensures Parse(a) == if Depth(u) <= 64 then Some(Meaning(u)) else None
  {
    hide Value, Tokens, Spread, Good, Depth, SkipSpace, AllBlank, Meaning;
    BlanksFollow(u, last);
    RawReads(u, gaps, last, 0);
    SkipTwice(a);
    ValueSkips(SkipSpace(a), a, 0);
    BlanksAreSkipped(last, []);
    assert last + [] == last;
    OthersAreNotSkipped([]);
  }

  lemma BlanksFollow(u: Raw, last: Text)
    requires AllBlank(last)
    ensures MayFollow(u, last)
  {
  }

  lemma ParsedIsSpelled(a: Text) returns (u: Raw, gaps: seq<Text>, last: Text)
    requires Parse(a).Some?
    ensures Spells(a, u, gaps, last) && Depth(u) <= 64 && Parse(a).value == Meaning(u)
  {
    hide Value, Tokens, Spread, Good, Depth, SkipSpace, AllBlank, Meaning;
    SkipTwice(a);
    ValueSkips(SkipSpace(a), a, 0);
    u, gaps := ValueWritten(a, 0);
    var rest := Value(a, 0).value.1;
    last := SkipIsExact(rest);
    assert last + [] == last;
  }

  /**
  The parser accepts exactly the texts of this grammar with at most 64 containers open, and reads
  each as what it means.
  */
  lemma ParsesExactly(a: Text, v: Json)
    ensures Parse(a) == Some(v) <==>
            exists u, gaps, last :: Spells(a, u, gaps, last) && Depth(u) <= 64 && Meaning(u) == v
  {
    hide Parse, Depth, Meaning, AllBlank, BlankGaps, Spread, Tokens;
    if Parse(a) == Some(v) {
      var u, gaps, last := ParsedIsSpelled(a);
    }
    if exists u, gaps, last :: Spells(a, u, gaps, last) && Depth(u) <= 64 && Meaning(u) == v {
      var u, gaps, last :| Spells(a, u, gaps, last) && Depth(u) <= 64 && Meaning(u) == v;
      SpelledIsParsed(a, u, gaps, last);
    }
  }
}
