/**
BinaryReader and BinaryWriter (src/protocol/binary_reader.cpp, binary_writer.cpp and .hpp): a
growing buffer, and a bounds-checked cursor whose failure latches. Each read is proved to be
one step of the format in module Wire, on whatever bytes are left, and each write to append that
field's encoding to the buffer and change nothing else.
*/
module BinaryIO {
  import opened Bytes
  import opened Codecs
  import opened Wire
  import Utf8

  /**
  A read of format `c` that started with flag `was` and bytes `before`, and ended with flag
  `now`, bytes `after` and value `v`: it succeeds exactly when nothing had failed and the
  format accepts, and then it leaves what the format leaves.
  */
  ghost predicate Reads<T(!new)>(c: Codec<T>, was: bool, before: Text, now: bool, after: Text, v: T) {
    && (now <==> was && c.dec(before).Some?)
    && (now ==> c.dec(before) == Some((v, after)))
  }

  lemma ReadsPair<A(!new), B(!new)>(first: Codec<A>, second: Codec<B>, was: bool, a: Text, mid: bool, b: Text, x: A,
                                    now: bool, r: Text, y: B)
    requires Reads(first, was, a, mid, b, x) && Reads(second, mid, b, now, r, y)
    ensures Reads(Pair(first, second), was, a, now, r, (x, y))
  {
  }

  lemma ReadsReshape<A(!new), B(!new)>(c: Codec<A>, to: A -> B, from: B -> A, was: bool, a: Text, now: bool, r: Text, x: A)
    requires Reads(c, was, a, now, r, x)
    ensures Reads(Reshape(c, to, from), was, a, now, r, to(x))
  {
  }

  lemma ReadsDepend<H(!new), T(!new)>(head: Codec<H>, ok: H -> bool, body: H -> Codec<T>, was: bool, a: Text,
                                      mid: bool, b: Text, h: H, now: bool, r: Text, t: T)
    requires Reads(head, was, a, mid, b, h) && (mid ==> ok(h) && Reads(body(h), mid, b, now, r, t)) && (!mid ==> !now)
    ensures Reads(Depend(head, ok, body), was, a, now, r, (h, t))
  {
  }

  // ---------------------------------------------------------------- item loops

  /** Reading one more item after `n`. */
  lemma {:induction false} ItemsSnoc<T>(c: Codec<T>, n: nat, a: Text)
    ensures ItemsDec(c, n + 1, a) ==
              (var (xs, b) :- ItemsDec(c, n, a); var (x, r) :- c.dec(b); Some((xs + [x], r)))
  {
    if n == 0 {
      if c.dec(a).Some? {
        var (x, r) := c.dec(a).value;
        assert ItemsDec(c, 0, r) == Some(([], r));
        assert [x] + [] == [] + [x];
      }
    } else if c.dec(a).Some? {
      var (x, more) := c.dec(a).value;
      ItemsSnoc(c, n - 1, more);
      if ItemsDec(c, n, more).Some? {
        var (xs, b) := ItemsDec(c, n - 1, more).value;
        var (y, r) := c.dec(b).value;
        assert [x] + (xs + [y]) == ([x] + xs) + [y];
      }
    }
  }

  lemma ReadsItem<T(!new)>(c: Codec<T>, n: nat, was: bool, a: Text, mid: bool, b: Text, xs: seq<T>, now: bool, r: Text, x: T)
    requires Reads(Items(c, n), was, a, mid, b, xs) && Reads(c, mid, b, now, r, x)
    ensures Reads(Items(c, n + 1), was, a, now, r, xs + [x])
  {
    ItemsSnoc(c, n, a);
  }

  lemma ReadsNoItem<T(!new)>(c: Codec<T>, ok: bool, a: Text)
    ensures Reads(Items(c, 0), ok, a, ok, a, [])
  {
  }

  /** A list that fails after `n` items fails whatever its length. */
  lemma {:induction false} ItemsFail<T(!new)>(c: Codec<T>, n: nat, total: nat, a: Text)
    requires n <= total && ItemsDec(c, n, a).None?
    ensures ItemsDec(c, total, a).None?
    decreases total
  {
    if n < total {
      ItemsFail(c, n, total - 1, a);
      ItemsSnoc(c, total - 1, a);
    }
  }

  // ---------------------------------------------------------------- reader

  class BinaryReader {
    const data: Text
    var offset: nat
    var ok: bool

    ghost predicate Valid()
      reads this
    {
      offset <= |data|
    }

    /** The bytes that are left. */
    ghost function Rest(): Text
      requires Valid()
      reads this
    {
      data[offset..]
    }

    constructor (data: Text)
      ensures Valid() && this.data == data && ok && offset == 0 && Rest() == data
    {
      this.data, offset, ok := data, 0, true;
    }

    /** require: false latches, and the cursor stays. */
    method Require(count: nat) returns (r: bool)
      requires Valid()
      modifies `ok
      ensures r == ok && ok == (old(ok) && count <= |Rest()|)
    {
      if !ok {
        return false;
      }
      if offset + count > |data| {
        ok := false;
        return false;
      }
      return true;
    }

    method ReadU8() returns (v: U8)
      requires Valid()
      modifies this
      ensures Valid() && Reads(Int8, old(ok), old(Rest()), ok, Rest(), v) && (!ok ==> v == 0 && offset == old(offset))
    {
      FixedReads(1, EncU8, ValU8, Same, Rest());
      var fits := Require(1);
      if !fits {
        return 0;
      }
      v := data[offset];
      assert Rest()[..1] == [v];
      offset := offset + 1;
      assert Rest() == old(Rest())[1..];
    }

    method ReadU16() returns (v: U16)
      requires Valid()
      modifies this
      ensures Valid() && Reads(Int16, old(ok), old(Rest()), ok, Rest(), v) && (!ok ==> v == 0 && offset == old(offset))
    {
      FixedReads(2, EncU16, ValU16, Same, Rest());
      var fits := Require(2);
      if !fits {
        return 0;
      }
      var b0: int := data[offset];
      var b1: int := data[offset + 1];
      v := b0 + 256 * b1;
      assert ValU16(Rest()[..2]) == v;
      offset := offset + 2;
      assert Rest() == old(Rest())[2..];
    }

    method ReadU32() returns (v: U32)
      requires Valid()
      modifies this
      ensures Valid() && Reads(Int32, old(ok), old(Rest()), ok, Rest(), v) && (!ok ==> v == 0 && offset == old(offset))
    {
      FixedReads(4, EncU32, ValU32, Same, Rest());
      var fits := Require(4);
      if !fits {
        return 0;
      }
      var b0: int := data[offset];
      var b1: int := data[offset + 1];
      var b2: int := data[offset + 2];
      var b3: int := data[offset + 3];
      v := b0 + 256 * b1 + 0x1_0000 * b2 + 0x100_0000 * b3;
      assert ValU32(Rest()[..4]) == v;
      offset := offset + 4;
      assert Rest() == old(Rest())[4..];
    }

    method ReadI16() returns (v: I16)
      requires Valid()
      modifies this
      ensures Valid() && Reads(Signed16, old(ok), old(Rest()), ok, Rest(), v) && (!ok ==> v == 0 && offset == old(offset))
    {
      FixedReads(2, EncU16, ValU16, Same, Rest());
      FixedReads(2, EncI16, ValI16, Same, Rest());
      var u := ReadU16();
      var signed: int := u;
      v := if signed < 0x8000 then signed else signed - 0x1_0000;
    }

    method ReadI24() returns (v: int)
      requires Valid()
      modifies this
      ensures Valid() && Reads(Signed24, old(ok), old(Rest()), ok, Rest(), v) && (!ok ==> v == 0 && offset == old(offset))
    {
      FixedReads(3, EncI24, ValI24, Clamp24, Rest());
      var fits := Require(3);
      if !fits {
        return 0;
      }
      var b0: int := data[offset];
      var b1: int := data[offset + 1];
      var b2: int := data[offset + 2];
      v := b0 + 256 * b1 + 0x1_0000 * b2;
      if v >= 0x80_0000 {
        v := v - 0x100_0000;
      }
      assert ValI24(Rest()[..3]) == v;
      offset := offset + 3;
      assert Rest() == old(Rest())[3..];
    }

    method ReadF64() returns (v: Double)
      requires Valid()
      modifies this
      ensures Valid() && Reads(Float64, old(ok), old(Rest()), ok, Rest(), v) && (!ok ==> offset == old(offset))
    {
      FixedReads(8, EncDouble, ValDouble, Same, Rest());
      var fits := Require(8);
      if !fits {
        return [0, 0, 0, 0, 0, 0, 0, 0];
      }
      var bits: Text := [];
      for i := 0 to 8
        invariant |bits| == i && forall j :: 0 <= j < i ==> bits[j] == data[offset + j]
      {
        bits := bits + [data[offset + i]];
      }
      v := bits;
      assert ValDouble(Rest()[..8]) == v;
      offset := offset + 8;
      assert Rest() == old(Rest())[8..];
    }

    /** The bytes of a text whose length has been read. */
    method ReadBytes(count: nat) returns (v: Text)
      requires Valid()
      modifies this
      ensures Valid() && Reads(Raw(count), old(ok), old(Rest()), ok, Rest(), v) && (!ok ==> v == [] && offset == old(offset))
    {
      RawReads(count, Rest());
      var fits := Require(count);
      if !fits {
        return [];
      }
      v := data[offset..offset + count];
      assert Rest()[..count] == v;
      offset := offset + count;
      assert Rest() == old(Rest())[count..];
    }

    method ReadString8() returns (v: Text)
      requires Valid()
      modifies this
      ensures Valid() && Reads(Text8(), old(ok), old(Rest()), ok, Rest(), v) && (!ok ==> v == [])
    {
      hide Fixed, Raw, Depend, Reshape;
      var length := ReadU8();
      ghost var mid, b := ok, Rest();
      v := ReadBytes(length);
      ReadsDepend(Int8, Always, Raw8, old(ok), old(Rest()), mid, b, length, ok, Rest(), v);
      ReadsReshape(Depend(Int8, Always, Raw8), Second, Cut8, old(ok), old(Rest()), ok, Rest(), (length, v));
    }

    method ReadString16() returns (v: Text)
      requires Valid()
      modifies this
      ensures Valid() && Reads(Text16(), old(ok), old(Rest()), ok, Rest(), v) && (!ok ==> v == [])
    {
      hide Fixed, Raw, Depend, Reshape;
      var length := ReadU16();
      ghost var mid, b := ok, Rest();
      v := ReadBytes(length);
      ReadsDepend(Int16, Always, Raw16, old(ok), old(Rest()), mid, b, length, ok, Rest(), v);
      ReadsReshape(Depend(Int16, Always, Raw16), Second, Cut16, old(ok), old(Rest()), ok, Rest(), (length, v));
    }

    /** begin_message: the type byte, and the version byte where the message has one. */
    method BeginMessage(kind: Byte, hasVersion: bool) returns (r: bool)
      requires Valid() && ok && kind != 0
      modifies this
      ensures Valid()
      ensures var prefix: Text := if hasVersion then [kind, 8] else [kind];
              && (r <==> prefix <= old(Rest()))
              && (r ==> ok && Rest() == old(Rest())[|prefix|..])
    {
      ghost var start := Rest();
      FixedReads(1, EncU8, ValU8, Same, start);
      var first := ReadU8();
      if first != kind {
        return false;
      }
      assert start[0] == kind;
      if hasVersion {
        FixedReads(1, EncU8, ValU8, Same, Rest());
        var second := ReadU8();
        if second != 8 {
          return false;
        }
        assert start[1] == 8;
      }
      return ok;
    }
  }

  // ---------------------------------------------------------------- writer

  lemma Text8Written(v: Text)
    ensures Text8().enc(v) == Int8.enc(|Utf8.ByteCut(v, 255)|) + Utf8.ByteCut(v, 255)
  {
    hide Fixed, Depend, Reshape, Utf8.WalkBack;
    ReshapeAt(Depend(Int8, Always, Raw8), Second, Cut8, v);
    DependAt(Int8, Always, Raw8, Cut8(v).0, Cut8(v).1);
  }

  class BinaryWriter {
    var buffer: Text

    constructor ()
      ensures buffer == []
    {
      buffer := [];
    }

    method WriteU8(v: U8)
      modifies this
      ensures buffer == old(buffer) + Int8.enc(v)
    {
      buffer := buffer + [v];
    }

    method WriteU16(v: U16)
      modifies this
      ensures buffer == old(buffer) + Int16.enc(v)
    {
      buffer := buffer + [v % 256];
      buffer := buffer + [v / 256];
    }

    method WriteU32(v: U32)
      modifies this
      ensures buffer == old(buffer) + Int32.enc(v)
    {
      buffer := buffer + [v % 256];
      buffer := buffer + [v / 256 % 256];
      buffer := buffer + [v / 256 / 256 % 256];
      buffer := buffer + [v / 256 / 256 / 256];
    }

    method WriteI16(v: I16)
      modifies this
      ensures buffer == old(buffer) + Signed16.enc(v)
    {
      WriteU16(if v < 0 then v + 0x1_0000 else v);
    }

    method WriteI24(v: int)
      modifies this
      ensures buffer == old(buffer) + Signed24.enc(v)
    {
      var clamped := v;
      if clamped < INT24_MIN {
        clamped := INT24_MIN;
      }
      if clamped > INT24_MAX {
        clamped := INT24_MAX;
      }
      var u := if clamped < 0 then clamped + 0x100_0000 else clamped;
      buffer := buffer + [u % 256];
      buffer := buffer + [u / 256 % 256];
      buffer := buffer + [u / 256 / 256];
    }

    method WriteF64(v: Double)
      modifies this
      ensures buffer == old(buffer) + Float64.enc(v)
    {
      for i := 0 to 8
        invariant buffer == old(buffer) + v[..i]
      {
        buffer := buffer + [v[i]];
      }
      assert v[..8] == v;
    }

    method WriteString8(v: Text)
      modifies this
      ensures buffer == old(buffer) + Text8().enc(v)
    {
      hide Text8, Int8, Utf8.ByteCut;
      Text8Written(v);
      var cut := Utf8.TruncateBytes(v, 255);
      WriteU8(|cut|);
      buffer := buffer + cut;
    }

    method WriteString16(v: Text)
      modifies this
      ensures buffer == old(buffer) + Text16().enc(v)
    {
      hide Fixed, Depend, Reshape, Utf8.WalkBack;
      ReshapeAt(Depend(Int16, Always, Raw16), Second, Cut16, v);
      DependAt(Int16, Always, Raw16, Cut16(v).0, Cut16(v).1);
      var length := |v|;
      if |v| > 0xFFFF {
        var cut := Utf8.TruncateBytes(v, 0xFFFF);
        length := |cut|;
      }
      WriteU16(length);
      buffer := buffer + v[..length];
      assert v[..length] == Utf8.ByteCut(v, 0xFFFF);
    }
  }
}
