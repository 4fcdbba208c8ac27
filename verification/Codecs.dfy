/**
Binary formats as pairs of an encoder and a decoder, with the laws that every message of the
protocol is proved to obey.
*/
module Codecs {
  // A decoder takes the bytes that remain to be read and gives back a value and the bytes after it,
  // or nothing. `norm` is what an encoder keeps of a value (it may cut text or clamp a number) and
  // `fits` says which values it can write at all.

  import opened Bytes

  datatype Codec<!T> = Codec(
    enc: T -> Text,
    dec: Text -> Option<(T, Text)>,
    norm: T -> T,
    fits: T -> bool)

  /** Decoding what was encoded gives the kept value and stops at the exact end. */
  ghost predicate Inverse<T(!new)>(c: Codec<T>) {
    forall x, rest :: c.fits(x) ==> c.dec(c.enc(x) + rest) == Some((c.norm(x), rest))
  }

  /** The bytes of `a` before `rest`. */
  function Consumed(a: Text, rest: Text): Text
    requires |rest| <= |a|
  {
    a[..|a| - |rest|]
  }

  /** An accepted input is read front to back, and only what was read matters. */
  ghost predicate LocalAt<T(!new)>(c: Codec<T>, a: Text) {
    c.dec(a).Some? ==>
      var (v, rest) := c.dec(a).value;
      && |rest| <= |a| && a == Consumed(a, rest) + rest
      && forall more :: c.dec(Consumed(a, rest) + more) == Some((v, more))
  }

  ghost predicate Local<T(!new)>(c: Codec<T>) {
    forall a :: LocalAt(c, a)
  }

  ghost predicate Lawful<T(!new)>(c: Codec<T>) {
    Inverse(c) && Local(c)
  }

  /** Bytes after the ones that were read change nothing. */
  lemma AppendingChangesNothing<T(!new)>(c: Codec<T>, a: Text, more: Text)
    requires Local(c) && c.dec(a).Some?
    ensures var (v, rest) := c.dec(a).value; c.dec(a + more) == Some((v, rest + more))
  {
    assert LocalAt(c, a);
    var rest := c.dec(a).value.1;
    assert a + more == Consumed(a, rest) + (rest + more);
  }

  /** Cutting off any byte that an accepted input had consumed makes the decoder reject. */
  lemma CutIsRejected<T(!new)>(c: Codec<T>, a: Text, n: nat)
    requires Local(c) && c.dec(a).Some? && n < |a| - |c.dec(a).value.1|
    ensures c.dec(a[..n]).None?
  {
    assert a[..n] + a[n..] == a;
    if c.dec(a[..n]).Some? {
      AppendingChangesNothing(c, a[..n], a[n..]);
    }
  }

  // ---------------------------------------------------------------- sequences of fields

  function PairDec<A, B>(first: Codec<A>, second: Codec<B>, a: Text): Option<((A, B), Text)> {
    var (x, more) :- first.dec(a);
    var (y, rest) :- second.dec(more);
    Some(((x, y), rest))
  }

  function Pair<A, B>(first: Codec<A>, second: Codec<B>): Codec<(A, B)> {
    Codec((p: (A, B)) => first.enc(p.0) + second.enc(p.1),
          a => PairDec(first, second, a),
          (p: (A, B)) => (first.norm(p.0), second.norm(p.1)),
          (p: (A, B)) => first.fits(p.0) && second.fits(p.1))
  }

  lemma PairAt<A, B>(first: Codec<A>, second: Codec<B>, x: A, y: B)
    ensures Pair(first, second).enc((x, y)) == first.enc(x) + second.enc(y)
    ensures Pair(first, second).norm((x, y)) == (first.norm(x), second.norm(y))
    ensures Pair(first, second).fits((x, y)) <==> first.fits(x) && second.fits(y)
  {
  }

  lemma PairLawful<A(!new), B(!new)>(first: Codec<A>, second: Codec<B>)
    requires Lawful(first) && Lawful(second)
    ensures Lawful(Pair(first, second))
  {
    var c := Pair(first, second);
    forall p: (A, B), rest | c.fits(p) ensures c.dec(c.enc(p) + rest) == Some((c.norm(p), rest)) {
      var front, back := first.enc(p.0), second.enc(p.1);
      assert c.enc(p) + rest == front + (back + rest);
      assert first.dec(front + (back + rest)) == Some((first.norm(p.0), back + rest));
      assert second.dec(back + rest) == Some((second.norm(p.1), rest));
    }
    forall a ensures LocalAt(c, a) {
      PairLocal(first, second, a);
    }
  }

  lemma PairLocal<A(!new), B(!new)>(first: Codec<A>, second: Codec<B>, a: Text)
    requires Local(first) && Local(second)
    ensures LocalAt(Pair(first, second), a)
  {
    var c := Pair(first, second);
    if c.dec(a).Some? {
      assert LocalAt(first, a);
      var (x, more) := first.dec(a).value;
      assert LocalAt(second, more);
      var (y, rest) := second.dec(more).value;
      var front, back := Consumed(a, more), Consumed(more, rest);
      assert Consumed(a, rest) == front + back;
      forall s ensures c.dec(Consumed(a, rest) + s) == Some(((x, y), s)) {
        assert Consumed(a, rest) + s == front + (back + s);
        assert first.dec(front + (back + s)) == Some((x, back + s));
        assert second.dec(back + s) == Some((y, s));
      }
    }
  }

  // ---------------------------------------------------------------- fields of fixed size

  /** A field of `size` bytes that is read by `value`. */
  function Fixed<T>(size: nat, enc: T -> Text, value: Text -> T, norm: T -> T): Codec<T> {
    Codec(enc,
          a => if |a| < size then None else Some((value(a[..size]), a[size..])),
          norm,
          x => true)
  }

  lemma FixedReads<T>(size: nat, enc: T -> Text, value: Text -> T, norm: T -> T, a: Text)
    ensures Fixed(size, enc, value, norm).dec(a) ==
              if |a| < size then None else Some((value(a[..size]), a[size..]))
  {
  }

  lemma FixedLawful<T(!new)>(size: nat, enc: T -> Text, value: Text -> T, norm: T -> T)
    requires forall x :: |enc(x)| == size && value(enc(x)) == norm(x)
    ensures Lawful(Fixed(size, enc, value, norm))
  {
    var c := Fixed(size, enc, value, norm);
    forall x, rest ensures c.dec(c.enc(x) + rest) == Some((c.norm(x), rest)) {
      assert (enc(x) + rest)[..size] == enc(x) && (enc(x) + rest)[size..] == rest;
    }
    forall a ensures LocalAt(c, a) {
      if c.dec(a).Some? {
        assert Consumed(a, a[size..]) == a[..size];
        forall more ensures c.dec(a[..size] + more) == Some((value(a[..size]), more)) {
          assert (a[..size] + more)[..size] == a[..size] && (a[..size] + more)[size..] == more;
        }
      }
    }
  }

  // ---------------------------------------------------------------- conditional and dependent parts

  /** A part that is present exactly when `present` says so. */
  function When<T>(present: bool, c: Codec<T>): Codec<Option<T>> {
    if present then
      Codec((x: Option<T>) => if x.Some? then c.enc(x.value) else [],
            a => var (v, rest) :- c.dec(a); Some((Some(v), rest)),
            (x: Option<T>) => if x.Some? then Some(c.norm(x.value)) else None,
            (x: Option<T>) => x.Some? && c.fits(x.value))
    else
      Codec((x: Option<T>) => [], a => Some((None, a)), (x: Option<T>) => None, (x: Option<T>) => true)
  }

  lemma WhenLawful<T(!new)>(present: bool, c: Codec<T>)
    requires Lawful(c)
    ensures Lawful(When(present, c))
  {
    var w := When(present, c);
    forall x: Option<T>, rest | w.fits(x) ensures w.dec(w.enc(x) + rest) == Some((w.norm(x), rest)) {
      if !present {
        assert w.enc(x) + rest == rest;
      }
    }
    forall a ensures LocalAt(w, a) {
      if present {
        assert LocalAt(c, a);
      } else {
        assert Consumed(a, a) == [] && [] + a == a;
        assert forall more: Text :: [] + more == more;
      }
    }
  }

  function DependDec<H, T>(head: Codec<H>, ok: H -> bool, body: H -> Codec<T>, a: Text): Option<((H, T), Text)> {
    var (h, more) :- head.dec(a);
    if !ok(h) then None
    else
      var (t, rest) :- body(h).dec(more);
      Some(((h, t), rest))
  }

  /** A head that decides whether and how the rest is read. */
  function Depend<H(==), T>(head: Codec<H>, ok: H -> bool, body: H -> Codec<T>): Codec<(H, T)> {
    Codec((p: (H, T)) => head.enc(p.0) + body(p.0).enc(p.1),
          a => DependDec(head, ok, body, a),
          (p: (H, T)) => (p.0, body(p.0).norm(p.1)),
          (p: (H, T)) => head.fits(p.0) && head.norm(p.0) == p.0 && ok(p.0) && body(p.0).fits(p.1))
  }

  lemma DependAt<H, T>(head: Codec<H>, ok: H -> bool, body: H -> Codec<T>, h: H, t: T)
    ensures Depend(head, ok, body).enc((h, t)) == head.enc(h) + body(h).enc(t)
    ensures Depend(head, ok, body).norm((h, t)) == (h, body(h).norm(t))
    ensures Depend(head, ok, body).fits((h, t)) <==>
              head.fits(h) && head.norm(h) == h && ok(h) && body(h).fits(t)
  {
  }

  lemma DependReads<H, T>(head: Codec<H>, ok: H -> bool, body: H -> Codec<T>, a: Text, h: H, more: Text, t: T, rest: Text)
    requires head.dec(a) == Some((h, more)) && ok(h) && body(h).dec(more) == Some((t, rest))
    ensures Depend(head, ok, body).dec(a) == Some(((h, t), rest))
  {
  }

  lemma DependLawful<H(!new), T(!new)>(head: Codec<H>, ok: H -> bool, body: H -> Codec<T>)
    requires Lawful(head) && forall h :: Lawful(body(h))
    ensures Lawful(Depend(head, ok, body))
  {
    var c := Depend(head, ok, body);
    forall p: (H, T), rest | c.fits(p) ensures c.dec(c.enc(p) + rest) == Some((c.norm(p), rest)) {
      var front, back := head.enc(p.0), body(p.0).enc(p.1);
      assert Lawful(body(p.0));
      assert c.enc(p) + rest == front + (back + rest);
      assert head.dec(front + (back + rest)) == Some((head.norm(p.0), back + rest));
      assert body(p.0).dec(back + rest) == Some((body(p.0).norm(p.1), rest));
    }
    forall a ensures LocalAt(c, a) {
      DependLocal(head, ok, body, a);
    }
  }

  lemma DependLocal<H(!new), T(!new)>(head: Codec<H>, ok: H -> bool, body: H -> Codec<T>, a: Text)
    requires Local(head) && forall h :: Lawful(body(h))
    ensures LocalAt(Depend(head, ok, body), a)
  {
    var c := Depend(head, ok, body);
    if c.dec(a).Some? {
      assert LocalAt(head, a);
      var (h, more) := head.dec(a).value;
      assert Lawful(body(h)) && LocalAt(body(h), more);
      var (t, rest) := body(h).dec(more).value;
      var front, back := Consumed(a, more), Consumed(more, rest);
      assert Consumed(a, rest) == front + back;
      forall s ensures c.dec(Consumed(a, rest) + s) == Some(((h, t), s)) {
        assert Consumed(a, rest) + s == front + (back + s);
        assert head.dec(front + (back + s)) == Some((h, back + s));
        assert body(h).dec(back + s) == Some((t, s));
      }
    }
  }

  // ---------------------------------------------------------------- a given number of items

  function ItemsEnc<T>(c: Codec<T>, xs: seq<T>): Text {
    if xs == [] then [] else c.enc(xs[0]) + ItemsEnc(c, xs[1..])
  }

  function ItemsDec<T>(c: Codec<T>, n: nat, a: Text): (r: Option<(seq<T>, Text)>)
    ensures r.Some? ==> |r.value.0| == n
  {
    if n == 0 then Some(([], a))
    else
      var (x, more) :- c.dec(a);
      var (xs, rest) :- ItemsDec(c, n - 1, more);
      Some(([x] + xs, rest))
  }

  function NormAll<T>(c: Codec<T>, xs: seq<T>): seq<T> {
    seq(|xs|, i requires 0 <= i < |xs| => c.norm(xs[i]))
  }

  predicate FitAll<T>(c: Codec<T>, xs: seq<T>) {
    forall i :: 0 <= i < |xs| ==> c.fits(xs[i])
  }

  /** Exactly `n` items, one after the other. */
  function Items<T>(c: Codec<T>, n: nat): Codec<seq<T>> {
    Codec((xs: seq<T>) => ItemsEnc(c, xs),
          a => ItemsDec(c, n, a),
          (xs: seq<T>) => NormAll(c, xs),
          (xs: seq<T>) => |xs| == n && FitAll(c, xs))
  }

  lemma {:induction false} ItemsInverse<T(!new)>(c: Codec<T>, xs: seq<T>, rest: Text)
    requires Inverse(c) && FitAll(c, xs)
    ensures ItemsDec(c, |xs|, ItemsEnc(c, xs) + rest) == Some((NormAll(c, xs), rest))
  {
    if xs == [] {
      assert ItemsEnc(c, xs) + rest == rest;
    } else {
      var tail := xs[1..];
      assert ItemsEnc(c, xs) + rest == c.enc(xs[0]) + (ItemsEnc(c, tail) + rest);
      assert c.fits(xs[0]);
      assert c.dec(c.enc(xs[0]) + (ItemsEnc(c, tail) + rest)) == Some((c.norm(xs[0]), ItemsEnc(c, tail) + rest));
      ItemsInverse(c, tail, rest);
      assert NormAll(c, xs) == [c.norm(xs[0])] + NormAll(c, tail);
    }
  }

  lemma {:induction false} ItemsLocal<T(!new)>(c: Codec<T>, n: nat, a: Text)
    requires Local(c)
    ensures LocalAt(Items(c, n), a)
  {
    var w := Items(c, n);
    if n == 0 {
      assert Consumed(a, a) == [] && [] + a == a;
      assert forall more: Text :: [] + more == more;
    } else if w.dec(a).Some? {
      assert LocalAt(c, a);
      var (x, more) := c.dec(a).value;
      ItemsLocal(c, n - 1, more);
      var (xs, rest) := Items(c, n - 1).dec(more).value;
      var front, back := Consumed(a, more), Consumed(more, rest);
      assert Consumed(a, rest) == front + back;
      forall s ensures w.dec(Consumed(a, rest) + s) == Some(([x] + xs, s)) {
        assert Consumed(a, rest) + s == front + (back + s);
        assert c.dec(front + (back + s)) == Some((x, back + s));
        assert Items(c, n - 1).dec(back + s) == Some((xs, s));
      }
    }
  }

  lemma ItemsLawful<T(!new)>(c: Codec<T>, n: nat)
    requires Lawful(c)
    ensures Lawful(Items(c, n))
  {
    var w := Items(c, n);
    forall xs: seq<T>, rest | w.fits(xs) ensures w.dec(w.enc(xs) + rest) == Some((w.norm(xs), rest)) {
      ItemsInverse(c, xs, rest);
    }
    forall a ensures LocalAt(w, a) {
      ItemsLocal(c, n, a);
    }
  }

  // ---------------------------------------------------------------- reshaping

  /** The same bytes under another value type. */
  function Reshape<A, B>(c: Codec<A>, to: A -> B, from: B -> A): Codec<B> {
    Codec((y: B) => c.enc(from(y)),
          a => var (x, rest) :- c.dec(a); Some((to(x), rest)),
          (y: B) => to(c.norm(from(y))),
          (y: B) => c.fits(from(y)))
  }

  lemma ReshapeAt<A, B>(c: Codec<A>, to: A -> B, from: B -> A, y: B)
    ensures Reshape(c, to, from).enc(y) == c.enc(from(y))
    ensures Reshape(c, to, from).norm(y) == to(c.norm(from(y)))
    ensures Reshape(c, to, from).fits(y) <==> c.fits(from(y))
  {
  }

  lemma ReshapeReads<A, B>(c: Codec<A>, to: A -> B, from: B -> A, a: Text, x: A, rest: Text)
    requires c.dec(a) == Some((x, rest))
    ensures Reshape(c, to, from).dec(a) == Some((to(x), rest))
  {
  }

  lemma ReshapeLawful<A(!new), B(!new)>(c: Codec<A>, to: A -> B, from: B -> A)
    requires Lawful(c)
    ensures Lawful(Reshape(c, to, from))
  {
    var w := Reshape(c, to, from);
    forall a ensures LocalAt(w, a) {
      assert LocalAt(c, a);
    }
  }

  /** A fixed run of bytes in front. */
  function Headed<T>(prefix: Text, c: Codec<T>): Codec<T> {
    Codec((x: T) => prefix + c.enc(x),
          a => if prefix <= a then c.dec(a[|prefix|..]) else None,
          c.norm,
          c.fits)
  }

  lemma HeadedLawful<T(!new)>(prefix: Text, c: Codec<T>)
    requires Lawful(c)
    ensures Lawful(Headed(prefix, c))
  {
    var w := Headed(prefix, c);
    forall x, rest | w.fits(x) ensures w.dec(w.enc(x) + rest) == Some((w.norm(x), rest)) {
      assert prefix + c.enc(x) + rest == prefix + (c.enc(x) + rest);
      assert (prefix + (c.enc(x) + rest))[|prefix|..] == c.enc(x) + rest;
    }
    forall a ensures LocalAt(w, a) {
      HeadedLocal(prefix, c, a);
    }
  }

  lemma HeadedLocal<T(!new)>(prefix: Text, c: Codec<T>, a: Text)
    requires Local(c)
    ensures LocalAt(Headed(prefix, c), a)
  {
    var w := Headed(prefix, c);
    if w.dec(a).Some? {
      var tail := a[|prefix|..];
      assert LocalAt(c, tail);
      var (v, rest) := c.dec(tail).value;
      var back := Consumed(tail, rest);
      assert Consumed(a, rest) == prefix + back;
      forall s ensures w.dec(Consumed(a, rest) + s) == Some((v, s)) {
        assert Consumed(a, rest) + s == prefix + (back + s);
        assert (prefix + (back + s))[|prefix|..] == back + s;
        assert c.dec(back + s) == Some((v, s));
      }
    }
  }

  /** Exactly `n` bytes as they are. */
  function Raw(n: nat): Codec<Text> {
    Codec((s: Text) => s,
          a => if |a| < n then None else Some((a[..n], a[n..])),
          (s: Text) => s,
          (s: Text) => |s| == n)
  }

  lemma RawReads(n: nat, a: Text)
    ensures Raw(n).dec(a) == if |a| < n then None else Some((a[..n], a[n..]))
  {
  }

  lemma RawLawful(n: nat)
    ensures Lawful(Raw(n))
  {
    var c := Raw(n);
    forall s: Text, rest | c.fits(s) ensures c.dec(c.enc(s) + rest) == Some((c.norm(s), rest)) {
      assert (s + rest)[..n] == s && (s + rest)[n..] == rest;
    }
    forall a ensures LocalAt(c, a) {
      if |a| >= n {
        assert Consumed(a, a[n..]) == a[..n];
        forall more ensures c.dec(a[..n] + more) == Some((a[..n], more)) {
          assert (a[..n] + more)[..n] == a[..n] && (a[..n] + more)[n..] == more;
        }
      }
    }
  }
}
