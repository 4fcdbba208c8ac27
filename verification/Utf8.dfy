/**
Length limits on UTF-8 text (src/protocol/binary_writer.cpp and the length checks of
src/core/network_variable_manager.cpp).
*/
module Utf8 {
  // The program looks only at continuation bytes; the reference here is a string given as its list
  // of characters, each well formed in the sense of section 4 of RFC 3629.

  import opened Bytes

  predicate IsContinuation(b: Byte) {
    0x80 <= b < 0xC0
  }

  function Starts(b: Byte): nat {
    if IsContinuation(b) then 0 else 1
  }

  /** The bytes that start a character. */
  function CodePoints(s: Text): nat {
    if s == [] then 0 else CodePoints(s[..|s| - 1]) + Starts(s[|s| - 1])
  }

  /** code_point_length. */
  method CodePointLength(s: Text) returns (count: nat)
    ensures count == CodePoints(s)
  {
    count := 0;
    for i := 0 to |s|
      invariant count == CodePoints(s[..i])
    {
      assert s[..i + 1][..i] == s[..i];
      if !IsContinuation(s[i]) {
        count := count + 1;
      }
    }
    assert s[..|s|] == s;
  }

  // ---------------------------------------------------------------- the two cuts

  /** The start of the character that straddles position `cut`. */
  function WalkBack(s: Text, cut: nat): (r: nat)
    requires cut < |s|
    ensures r <= cut
  {
    if cut > 0 && IsContinuation(s[cut]) then WalkBack(s, cut - 1) else cut
  }

  function ByteCut(s: Text, max: nat): (r: Text)
    ensures |r| <= max && r <= s
    ensures |s| <= max <==> r == s
  {
    if |s| <= max then s else s[..WalkBack(s, max)]
  }

  /** truncate_utf8_bytes. */
  method TruncateBytes(s: Text, max: nat) returns (r: Text)
    ensures r == ByteCut(s, max)
  {
    if |s| <= max {
      return s;
    }
    var cut: nat := max;
    while cut > 0 && IsContinuation(s[cut])
      invariant cut <= max && WalkBack(s, cut) == WalkBack(s, max)
    {
      cut := cut - 1;
    }
    r := s[..cut];
  }

  /** Where the character after the first `max` ones starts, looking from `index` on. */
  function WalkOn(s: Text, index: nat, seen: nat, max: nat): (r: nat)
    requires index <= |s|
    ensures index <= r <= |s|
    decreases |s| - index
  {
    if index == |s| || (!IsContinuation(s[index]) && seen == max) then index
    else WalkOn(s, index + 1, seen + Starts(s[index]), max)
  }

  function CodePointCut(s: Text, max: nat): Text {
    s[..WalkOn(s, 0, 0, max)]
  }

  /** truncate_utf8_code_points. */
  method TruncateCodePoints(s: Text, max: nat) returns (r: Text)
    ensures r == CodePointCut(s, max)
  {
    var seen, index := 0, 0;
    while index < |s|
      invariant index <= |s| && WalkOn(s, index, seen, max) == WalkOn(s, 0, 0, max)
    {
      if !IsContinuation(s[index]) {
        if seen == max {
          return s[..index];
        }
        seen := seen + 1;
      }
      index := index + 1;
    }
    r := s;
  }

  // ---------------------------------------------------------------- arbitrary bytes

  /** On any byte string, the code-point cut changes nothing exactly within the limit. */
  lemma CodePointCutKeepsShort(s: Text, max: nat)
    ensures CodePointCut(s, max) == s <==> CodePoints(s) <= max
  {
    assert s[..0] == [];
    WalkOnStops(s, 0, 0, max);
  }

  lemma {:induction false} WalkOnStops(s: Text, index: nat, seen: nat, max: nat)
    requires index <= |s| && seen == CodePoints(s[..index]) && seen <= max
    ensures WalkOn(s, index, seen, max) == |s| <==> CodePoints(s) <= max
    decreases |s| - index
  {
    if index == |s| {
      assert s[..index] == s;
    } else {
      assert s[..index + 1][..index] == s[..index];
      if !IsContinuation(s[index]) && seen == max {
        CodePointsGrow(s, index + 1);
      } else {
        WalkOnStops(s, index + 1, seen + Starts(s[index]), max);
      }
    }
  }

  lemma {:induction false} CodePointsGrow(s: Text, n: nat)
    requires n <= |s|
    ensures CodePoints(s[..n]) <= CodePoints(s)
  {
    if n == |s| {
      assert s[..n] == s;
    } else {
      assert s[..|s| - 1][..n] == s[..n];
      CodePointsGrow(s[..|s| - 1], n);
    }
  }

  // ---------------------------------------------------------------- whole characters

  predicate Tail(b: Byte) {
    0x80 <= b <= 0xBF
  }

  /** The UTF8-char production of section 4 of RFC 3629. */
  predicate IsCharacter(c: Text) {
    match |c|
    case 1 => c[0] <= 0x7F
    case 2 => 0xC2 <= c[0] <= 0xDF && Tail(c[1])
    case 3 =>
      && (|| (c[0] == 0xE0 && 0xA0 <= c[1] <= 0xBF)
          || (0xE1 <= c[0] <= 0xEC && Tail(c[1]))
          || (c[0] == 0xED && 0x80 <= c[1] <= 0x9F)
          || (0xEE <= c[0] <= 0xEF && Tail(c[1])))
      && Tail(c[2])
    case 4 =>
      && (|| (c[0] == 0xF0 && 0x90 <= c[1] <= 0xBF)
          || (0xF1 <= c[0] <= 0xF3 && Tail(c[1]))
          || (c[0] == 0xF4 && 0x80 <= c[1] <= 0x8F))
      && Tail(c[2]) && Tail(c[3])
    case _ => false
  }

  predicate AreCharacters(cs: seq<Text>) {
    forall i :: 0 <= i < |cs| ==> IsCharacter(cs[i])
  }

  function Join(cs: seq<Text>): Text {
    if cs == [] then [] else cs[0] + Join(cs[1..])
  }

  /** How many whole characters from the front fit into `max` bytes. */
  function Fitting(cs: seq<Text>, max: nat): (n: nat)
    ensures n <= |cs|
  {
    if cs == [] || |cs[0]| > max then 0 else 1 + Fitting(cs[1..], max - |cs[0]|)
  }

  /** Fitting is the largest count whose characters stay within the limit. */
  lemma {:induction false} FittingIsMaximal(cs: seq<Text>, max: nat)
    ensures |Join(cs[..Fitting(cs, max)])| <= max
    ensures forall n :: Fitting(cs, max) < n <= |cs| ==> |Join(cs[..n])| > max
  {
    if cs != [] {
      forall n | 1 <= n <= |cs|
        ensures |Join(cs[..n])| == |cs[0]| + |Join(cs[1..][..n - 1])|
      {
        assert cs[..n][1..] == cs[1..][..n - 1];
      }
      if |cs[0]| <= max {
        FittingIsMaximal(cs[1..], max - |cs[0]|);
      }
    }
  }

  /** On valid UTF-8 the byte cut keeps exactly the whole characters that fit. */
  lemma {:induction false} ByteCutKeepsWholeCharacters(cs: seq<Text>, max: nat)
    requires AreCharacters(cs)
    ensures ByteCut(Join(cs), max) == Join(cs[..Fitting(cs, max)])
  {
    if cs != [] {
      var c, rest := cs[0], Join(cs[1..]);
      var n := Fitting(cs, max);
      if |c| > max {
        WalkBackInCharacter(c, rest, max);
        assert cs[..n] == [];
      } else {
        ByteCutKeepsWholeCharacters(cs[1..], max - |c|);
        assert cs[..n][1..] == cs[1..][..n - 1];
        assert cs[1..] == [] || (IsCharacter(cs[1]) && rest[0] == cs[1][0]);
        ByteCutPastCharacter(c, rest, max);
      }
    }
  }

  lemma ByteCutPastCharacter(c: Text, rest: Text, max: nat)
    requires |c| <= max && (rest == [] || !IsContinuation(rest[0]))
    ensures ByteCut(c + rest, max) == c + ByteCut(rest, max - |c|)
  {
    if |c + rest| > max {
      WalkBackPastCharacter(c, rest, max - |c|);
      var cut := WalkBack(rest, max - |c|);
      assert (c + rest)[..|c| + cut] == c + rest[..cut];
    }
  }

  lemma {:induction false} WalkBackInCharacter(c: Text, rest: Text, cut: nat)
    requires IsCharacter(c) && cut < |c|
    ensures WalkBack(c + rest, cut) == 0
  {
    if cut > 0 {
      WalkBackInCharacter(c, rest, cut - 1);
    }
  }

  lemma {:induction false} WalkBackPastCharacter(c: Text, rest: Text, cut: nat)
    requires cut < |rest| && !IsContinuation(rest[0])
    ensures WalkBack(c + rest, |c| + cut) == |c| + WalkBack(rest, cut)
  {
    assert (c + rest)[|c| + cut] == rest[cut];
    if cut > 0 {
      WalkBackPastCharacter(c, rest, cut - 1);
    }
  }

  /** On valid UTF-8 the code-point cut keeps exactly the first `max` characters. */
  lemma CodePointCutKeepsFirstCharacters(cs: seq<Text>, max: nat)
    requires AreCharacters(cs)
    ensures CodePointCut(Join(cs), max) == Join(cs[..Min(max, |cs|)])
  {
    WalkOnCharacters([], cs, 0, max);
    assert [] + Join(cs) == Join(cs);
    JoinPrefix(cs, Min(max, |cs|));
  }

  lemma {:induction false} JoinPrefix(cs: seq<Text>, n: nat)
    requires n <= |cs|
    ensures Join(cs[..n]) <= Join(cs)
  {
    if n > 0 {
      assert cs[..n][1..] == cs[1..][..n - 1];
      JoinPrefix(cs[1..], n - 1);
    }
  }

  lemma {:induction false} WalkOnCharacters(before: Text, cs: seq<Text>, seen: nat, max: nat)
    requires AreCharacters(cs) && seen <= max
    ensures WalkOn(before + Join(cs), |before|, seen, max)
         == |before| + |Join(cs[..Min(max - seen, |cs|)])|
    decreases |cs|
  {
    var s := before + Join(cs);
    if cs == [] {
    } else if seen == max {
      assert IsCharacter(cs[0]) && s[|before|] == cs[0][0];
    } else {
      var c, n := cs[0], Min(max - seen, |cs|);
      var after := before + c;
      assert s == after + Join(cs[1..]);
      assert forall i :: 0 <= i < |c| ==> s[|before| + i] == c[i];
      WalkOnThrough(s, |before| + 1, |c| - 1, seen + 1, max);
      WalkOnCharacters(after, cs[1..], seen + 1, max);
      assert cs[..n][1..] == cs[1..][..n - 1];
    }
  }

  lemma {:induction false} WalkOnThrough(s: Text, index: nat, tail: nat, seen: nat, max: nat)
    requires index + tail <= |s| && forall i :: index <= i < index + tail ==> IsContinuation(s[i])
    ensures WalkOn(s, index, seen, max) == WalkOn(s, index + tail, seen, max)
    decreases tail
  {
    if tail > 0 {
      WalkOnThrough(s, index + 1, tail - 1, seen, max);
    }
  }

  /** The program's length of valid UTF-8 is its number of characters. */
  lemma {:induction false} CodePointsOfCharacters(cs: seq<Text>)
    requires AreCharacters(cs)
    ensures CodePoints(Join(cs)) == |cs|
    ensures |cs| <= |Join(cs)| <= 4 * |cs|
  {
    if cs != [] {
      CodePointsOfCharacters(cs[1..]);
      CodePointsAdd(cs[0], Join(cs[1..]));
      CodePointsOfOne(cs[0]);
    }
  }

  lemma {:induction false} CodePointsAdd(a: Text, b: Text)
    ensures CodePoints(a + b) == CodePoints(a) + CodePoints(b)
  {
    if b == [] {
      assert a + b == a;
    } else {
      assert (a + b)[..|a + b| - 1] == a + b[..|b| - 1];
      CodePointsAdd(a, b[..|b| - 1]);
    }
  }

  lemma CodePointsOfOne(c: Text)
    requires IsCharacter(c)
    ensures CodePoints(c) == 1 && |c| <= 4
  {
    assert c[..1] == [c[0]] && CodePoints(c[..1]) == 1;
    if |c| >= 2 {
      assert c[..2][..1] == c[..1] && CodePoints(c[..2]) == 1;
    }
    if |c| >= 3 {
      assert c[..3][..2] == c[..2] && CodePoints(c[..3]) == 1;
    }
    if |c| >= 4 {
      assert c[..4][..3] == c[..3] && CodePoints(c[..4]) == 1;
    }
    assert c[..|c|] == c;
  }
}
