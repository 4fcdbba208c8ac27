/**
JSON values, their printed form and the grammar that the parser accepts
(src/core/json_util.cpp). A number is kept as the text that the parser took for one; how it is
printed is the argument `shown`. An object is its members in key order, as a `std::map` keeps
them.
*/
module Json {
  import opened Bytes
  import opened JsonStrings

  datatype Json =
    | Null
    | Bool(value: bool)
    | Number(lexeme: Text)
    | String(text: Text)
    | Array(items: seq<Json>)
    | Object(members: seq<Member>)

  datatype Member = Member(key: Text, value: Json)

  // ---------------------------------------------------------------- objects

  /** The order of `std::string`. */
  predicate Before(a: Text, b: Text) {
    b != [] && (a == [] || a[0] < b[0] || (a[0] == b[0] && Before(a[1..], b[1..])))
  }

  lemma {:induction false} BeforeIsTotal(a: Text, b: Text)
    ensures a == b || Before(a, b) || Before(b, a)
  {
    if a != [] && b != [] && a[0] == b[0] {
      BeforeIsTotal(a[1..], b[1..]);
      assert a == [a[0]] + a[1..] && b == [b[0]] + b[1..];
    }
  }

  lemma {:induction false} BeforeIsStrict(a: Text, b: Text)
    ensures !(Before(a, b) && Before(b, a)) && !Before(a, a)
  {
    if a != [] {
      BeforeIsStrict(a[1..], if b != [] then b[1..] else b);
    }
  }

  lemma {:induction false} BeforeIsTransitive(a: Text, b: Text, c: Text)
    requires Before(a, b) && Before(b, c)
    ensures Before(a, c)
  {
    if a != [] && a[0] == b[0] == c[0] {
      BeforeIsTransitive(a[1..], b[1..], c[1..]);
    }
  }

  predicate Sorted(ms: seq<Member>) {
    forall i, j :: 0 <= i < j < |ms| ==> Before(ms[i].key, ms[j].key)
  }

  /** Assignment to a key of the map. */
  function Put(ms: seq<Member>, key: Text, value: Json): (r: seq<Member>) {
    if ms == [] then [Member(key, value)]
    else if ms[0].key == key then [Member(key, value)] + ms[1..]
    else if Before(key, ms[0].key) then [Member(key, value)] + ms
    else [ms[0]] + Put(ms[1..], key, value)
  }

  /** The map's find. */
  function Find(ms: seq<Member>, key: Text): Option<Json> {
    if ms == [] then None else if ms[0].key == key then Some(ms[0].value) else Find(ms[1..], key)
  }

  predicate AllAfter(key: Text, ms: seq<Member>) {
    forall i :: 0 <= i < |ms| ==> Before(key, ms[i].key)
  }

  lemma {:induction false} PutKeepsAfter(low: Text, ms: seq<Member>, key: Text, value: Json)
    requires AllAfter(low, ms) && Before(low, key)
    ensures AllAfter(low, Put(ms, key, value))
  {
    if ms != [] {
      PutKeepsAfter(low, ms[1..], key, value);
    }
  }

  lemma SortedCons(m: Member, ms: seq<Member>)
    ensures Sorted([m] + ms) <==> AllAfter(m.key, ms) && Sorted(ms)
  {
    var all := [m] + ms;
    if Sorted(all) {
      forall i | 0 <= i < |ms|
        ensures Before(m.key, ms[i].key)
      {
        assert all[0] == m && all[i + 1] == ms[i];
      }
      forall i, j | 0 <= i < j < |ms|
        ensures Before(ms[i].key, ms[j].key)
      {
        assert all[i + 1] == ms[i] && all[j + 1] == ms[j];
      }
    }
  }

  lemma {:induction false} PutKeepsSorted(ms: seq<Member>, key: Text, value: Json)
    requires Sorted(ms)
    ensures Sorted(Put(ms, key, value))
  {
    hide Sorted, AllAfter, Before;
    if ms == [] {
      SortedCons(Member(key, value), []);
      NothingAfter(key);
      assert [Member(key, value)] + [] == [Member(key, value)];
    } else {
      var k, tail := ms[0].key, ms[1..];
      assert ms == [ms[0]] + tail;
      SortedCons(ms[0], tail);
      if k == key {
        SortedCons(Member(key, value), tail);
      } else if Before(key, k) {
        AfterChain(key, ms[0], tail);
        SortedCons(Member(key, value), ms);
      } else {
        BeforeIsTotal(k, key);
        PutKeepsSorted(tail, key, value);
        PutKeepsAfter(k, tail, key, value);
        SortedCons(ms[0], Put(tail, key, value));
      }
    }
  }

  lemma NothingAfter(key: Text)
    ensures AllAfter(key, []) && Sorted([])
  {
  }

  lemma AfterChain(low: Text, m: Member, tail: seq<Member>)
    requires Before(low, m.key) && AllAfter(m.key, tail)
    ensures AllAfter(low, [m] + tail)
  {
    forall i | 0 <= i < |tail|
      ensures Before(low, tail[i].key)
    {
      BeforeIsTransitive(low, m.key, tail[i].key);
    }
  }

  /** Put changes one entry and no other. */
  lemma {:induction false} PutIsUpdate(ms: seq<Member>, key: Text, value: Json, other: Text)
    requires Sorted(ms)
    ensures Find(Put(ms, key, value), other) == if other == key then Some(value) else Find(ms, other)
  {
    hide Sorted;
    if ms != [] {
      assert ms == [ms[0]] + ms[1..];
      SortedCons(ms[0], ms[1..]);
      PutIsUpdate(ms[1..], key, value, other);
      var r := Put(ms, key, value);
      assert r[1..] == if ms[0].key == key then ms[1..] else if Before(key, ms[0].key) then ms
                       else Put(ms[1..], key, value);
    }
  }

  /** A key after all others goes to the end. */
  lemma {:induction false} PutAtEnd(ms: seq<Member>, m: Member)
    requires Sorted(ms + [m])
    ensures Put(ms, m.key, m.value) == ms + [m]
  {
    if ms != [] {
      assert (ms + [m])[0] == ms[0] && (ms + [m])[|ms|] == m;
      assert Before(ms[0].key, m.key);
      BeforeIsStrict(ms[0].key, m.key);
      assert ms + [m] == [ms[0]] + (ms[1..] + [m]);
      SortedCons(ms[0], ms[1..] + [m]);
      PutAtEnd(ms[1..], m);
    }
  }

  // ---------------------------------------------------------------- values

  /** Objects at every level have their members in key order, each key once. */
  predicate WellFormed(v: Json)
    decreases v
  {
    match v
    case Array(items) => forall i :: 0 <= i < |items| ==> WellFormed(items[i])
    case Object(members) => Sorted(members) && forall i :: 0 <= i < |members| ==> WellFormed(members[i].value)
    case _ => true
  }

  predicate NumberFree(v: Json)
    decreases v
  {
    match v
    case Number(_) => false
    case Array(items) => forall i :: 0 <= i < |items| ==> NumberFree(items[i])
    case Object(members) => forall i :: 0 <= i < |members| ==> NumberFree(members[i].value)
    case _ => true
  }

  function Max(a: nat, b: nat): nat {
    if a < b then b else a
  }

  /** How many containers are open around the innermost value. */
  function Nesting(v: Json): nat
    decreases v
  {
    match v
    case Array(items) => if items == [] then 0 else 1 + NestingOfItems(items)
    case Object(members) => if members == [] then 0 else 1 + NestingOfMembers(members)
    case _ => 0
  }

  function NestingOfItems(items: seq<Json>): nat
    decreases items
  {
    if items == [] then 0 else Max(Nesting(items[0]), NestingOfItems(items[1..]))
  }

  function NestingOfMembers(members: seq<Member>): nat
    decreases members
  {
    if members == [] then 0 else Max(Nesting(members[0].value), NestingOfMembers(members[1..]))
  }

  // ---------------------------------------------------------------- printing

  const OPEN_ARRAY: Byte := 0x5B
  const CLOSE_ARRAY: Byte := 0x5D
  const OPEN_OBJECT: Byte := 0x7B
  const CLOSE_OBJECT: Byte := 0x7D
  const COMMA: Byte := 0x2C
  const COLON: Byte := 0x3A

  const NULL: Text := [0x6E, 0x75, 0x6C, 0x6C]
  const TRUE: Text := [0x74, 0x72, 0x75, 0x65]
  const FALSE: Text := [0x66, 0x61, 0x6C, 0x73, 0x65]

  function Dump(v: Json, shown: Text -> Text): Text
    decreases v
  {
    match v
    case Null => NULL
    case Bool(b) => if b then TRUE else FALSE
    case Number(lexeme) => shown(lexeme)
    case String(text) => Quoted(text)
    case Array(items) => [OPEN_ARRAY] + DumpItems(items, shown) + [CLOSE_ARRAY]
    case Object(members) => [OPEN_OBJECT] + DumpMembers(members, shown) + [CLOSE_OBJECT]
  }

  function DumpItems(items: seq<Json>, shown: Text -> Text): Text
    decreases items, 0
  {
    if items == [] then [] else Dump(items[0], shown) + MoreItems(items[1..], shown)
  }

  function MoreItems(items: seq<Json>, shown: Text -> Text): Text
    decreases items, 1
  {
    if items == [] then [] else [COMMA] + DumpItems(items, shown)
  }

  function DumpMember(m: Member, shown: Text -> Text): Text
    decreases m
  {
    Quoted(m.key) + [COLON] + Dump(m.value, shown)
  }

  function DumpMembers(members: seq<Member>, shown: Text -> Text): Text
    decreases members, 0
  {
    if members == [] then [] else DumpMember(members[0], shown) + MoreMembers(members[1..], shown)
  }

  function MoreMembers(members: seq<Member>, shown: Text -> Text): Text
    decreases members, 1
  {
    if members == [] then [] else [COMMA] + DumpMembers(members, shown)
  }

  // ---------------------------------------------------------------- the grammar

  const MAX_DEPTH := 64

  predicate IsSpace(c: Byte) {
    c == 0x20 || c == 0x09 || c == 0x0A || c == 0x0D
  }

  function SkipSpace(a: Text): (r: Text)
    ensures |r| <= |a|
  {
    if a != [] && IsSpace(a[0]) then SkipSpace(a[1..]) else a
  }

  predicate IsDigit(c: Byte) {
    0x30 <= c <= 0x39
  }

  function AfterDigits(a: Text): (r: Text)
    ensures |r| <= |a|
  {
    if a != [] && IsDigit(a[0]) then AfterDigits(a[1..]) else a
  }

  function AfterSign(a: Text): (r: Text)
    ensures |r| <= |a| <= |r| + 1
  {
    if a != [] && (a[0] == 0x2D || a[0] == 0x2B) then a[1..] else a
  }

  /** An optional fraction: whether it has digits, and what follows. */
  function Fraction(a: Text): (r: (bool, Text))
    ensures |r.1| + (if r.0 then 1 else 0) <= |a|
  {
    if a != [] && a[0] == 0x2E then (|AfterDigits(a[1..])| < |a| - 1, AfterDigits(a[1..])) else (false, a)
  }

  function AfterExponent(a: Text): (r: Text)
    ensures |r| <= |a|
  {
    if a != [] && (a[0] == 0x65 || a[0] == 0x45) then AfterDigits(AfterSign(a[1..])) else a
  }

  /** What parse_number takes: looser than the standard in signs, leading zeros and exponents. */
  function NumberLexeme(a: Text): (r: Option<(Text, Text)>)
    ensures r.Some? ==> |r.value.1| < |a|
  {
    var whole := AfterSign(a);
    var b := AfterDigits(whole);
    var (more, c) := Fraction(b);
    if |b| < |whole| || more then Some((a[..|a| - |AfterExponent(c)|], AfterExponent(c))) else None
  }

  function Literal(word: Text, v: Json, a: Text): (r: Option<(Json, Text)>)
    ensures word != [] && r.Some? ==> |r.value.1| < |a|
  {
    if word <= a then Some((v, a[|word|..])) else None
  }

  function Value(a: Text, depth: nat): (r: Option<(Json, Text)>)
    ensures r.Some? ==> |r.value.1| < |a|
    decreases |a|, 1
  {
    if depth > MAX_DEPTH || SkipSpace(a) == [] then None
    else
      var b := SkipSpace(a);
      match b[0]
      case 0x7B =>
        var c := SkipSpace(b[1..]);
        if c != [] && c[0] == CLOSE_OBJECT then Some((Object([]), c[1..])) else
        var (members, rest) :- Members(c, depth, []);
        Some((Object(members), rest))
      case 0x5B =>
        var c := SkipSpace(b[1..]);
        if c != [] && c[0] == CLOSE_ARRAY then Some((Array([]), c[1..])) else
        var (items, rest) :- Items(c, depth, []);
        Some((Array(items), rest))
      case 0x22 =>
        var (text, rest) :- StringLiteral(b);
        Some((String(text), rest))
      case 0x74 => Literal(TRUE, Bool(true), b)
      case 0x66 => Literal(FALSE, Bool(false), b)
      case 0x6E => Literal(NULL, Null, b)
      case _ =>
        var (lexeme, rest) :- NumberLexeme(b);
        Some((Number(lexeme), rest))
  }

  /** The loop of parse_array: one element and what follows it, after the elements `done`. */
  function Items(a: Text, depth: nat, done: seq<Json>): (r: Option<(seq<Json>, Text)>)
    ensures r.Some? ==> |r.value.1| < |a|
    decreases |a|, 2
  {
    var (v, b) :- Value(a, depth + 1);
    var c := SkipSpace(b);
    if c == [] then None
    else if c[0] == COMMA then Items(c[1..], depth, done + [v])
    else if c[0] == CLOSE_ARRAY then Some((done + [v], c[1..]))
    else None
  }

  /** A key and its colon. */
  function Key(a: Text): (r: Option<(Text, Text)>)
    ensures r.Some? ==> |r.value.1| < |a|
  {
    var (key, b) :- StringLiteral(SkipSpace(a));
    var c := SkipSpace(b);
    if c == [] || c[0] != COLON then None else Some((key, c[1..]))
  }

  /** The loop of parse_object. */
  function Members(a: Text, depth: nat, done: seq<Member>): (r: Option<(seq<Member>, Text)>)
    ensures r.Some? ==> |r.value.1| < |a|
    decreases |a|, 2
  {
    var (key, b) :- Key(a);
    var (v, c) :- Value(b, depth + 1);
    var d := SkipSpace(c);
    if d == [] then None
    else if d[0] == COMMA then Members(d[1..], depth, Put(done, key, v))
    else if d[0] == CLOSE_OBJECT then Some((Put(done, key, v), d[1..]))
    else None
  }

  /** JsonValue::parse. */
  function Parse(a: Text): Option<Json> {
    var (v, rest) :- Value(SkipSpace(a), 0);
    if SkipSpace(rest) == [] then Some(v) else None
  }
}
