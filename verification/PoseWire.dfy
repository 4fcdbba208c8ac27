/**
The pose body of protocol v8 at the level of bytes and quantised integers
(src/protocol/protocol_v8.cpp:21-239): a flag byte decides which parts follow.
*/
module PoseWire {
  import opened Bytes
  import opened Codecs
  import opened Wire

  // Bit positions of the flag bytes.
  const STEALTH := 0
  const PHYSICAL_VALID := 1
  const HEAD_VALID := 2
  const RIGHT_VALID := 3
  const LEFT_VALID := 4
  const VIRTUALS_VALID := 5
  const MOVING_FLOOR_LOCAL := 6

  const PHYSICAL_IS_XRORIGIN_DELTA := 4
  const ENCODING_DEFAULT: Byte := 31

  const MAX_VIRTUALS := 50

  // ---------------------------------------------------------------- flags

  /** The low `n` bits of `x`, least significant first. */
  function Bits(x: nat, n: nat): (b: seq<bool>)
    ensures |b| == n
    decreases n
  {
    if n == 0 then [] else [x % 2 == 1] + Bits(x / 2, n - 1)
  }

  function FromBits(b: seq<bool>): nat {
    if b == [] then 0 else (if b[0] then 1 else 0) + 2 * FromBits(b[1..])
  }

  function Pow2(n: nat): nat {
    if n == 0 then 1 else 2 * Pow2(n - 1)
  }

  lemma {:induction false} BitsCompose(b: seq<bool>)
    ensures Bits(FromBits(b), |b|) == b && FromBits(b) < Pow2(|b|)
  {
    if b != [] {
      BitsCompose(b[1..]);
    }
  }

  lemma {:induction false} BitsDecompose(x: nat, n: nat)
    requires x < Pow2(n)
    ensures FromBits(Bits(x, n)) == x
  {
    if n > 0 {
      BitsDecompose(x / 2, n - 1);
      assert Bits(x, n)[1..] == Bits(x / 2, n - 1);
    }
  }

  lemma EightBits()
    ensures Pow2(8) == 256
  {
    assert Pow2(2) == 4 && Pow2(4) == 16 && Pow2(6) == 64;
  }

  predicate Has(flags: Byte, bit: nat)
    requires bit < 8
  {
    Bits(flags, 8)[bit]
  }

  /** The byte with the given eight bits. */
  function ByteOf(b: seq<bool>): Byte
    requires |b| == 8
  {
    BitsCompose(b);
    EightBits();
    FromBits(b)
  }

  /** sanitize_pose_flags. */
  function Sanitize(flags: Byte): Byte {
    if Has(flags, STEALTH) then 1
    else if !Has(flags, HEAD_VALID) then
      ByteOf(Bits(flags, 8)[RIGHT_VALID := false][LEFT_VALID := false][VIRTUALS_VALID := false])
    else flags
  }

  /** compute_encoding_flags. */
  function EncodingFlags(flags: Byte): Byte {
    if Has(flags, MOVING_FLOOR_LOCAL) then
      ByteOf(Bits(ENCODING_DEFAULT, 8)[PHYSICAL_IS_XRORIGIN_DELTA := false])
    else ENCODING_DEFAULT
  }

  lemma NextBit(x: nat, n: nat, bit: nat)
    requires bit < n
    ensures Bits(x, n)[bit] == if bit == 0 then x % 2 == 1 else Bits(x / 2, n - 1)[bit - 1]
  {
  }

  lemma StealthBit(bit: nat)
    requires bit < 8
    ensures Has(1, bit) <==> bit == STEALTH
  {
    hide Bits;
    NextBit(1, 8, bit);
    AllClear(7);
  }

  lemma {:induction false} AllClear(n: nat)
    ensures forall i :: 0 <= i < n ==> !Bits(0, n)[i]
  {
    if n > 0 {
      AllClear(n - 1);
    }
  }

  /** What sanitising does to each bit: stealth stands alone; without a head no hands, no virtuals. */
  lemma SanitizeByBits(flags: Byte, bit: nat)
    requires bit < 8
    ensures Has(Sanitize(flags), bit) <==>
              if Has(flags, STEALTH) then bit == STEALTH
              else Has(flags, bit) && (bit in {RIGHT_VALID, LEFT_VALID, VIRTUALS_VALID} ==> Has(flags, HEAD_VALID))
  {
    if Has(flags, STEALTH) {
      StealthBit(bit);
    } else if !Has(flags, HEAD_VALID) {
      BitsCompose(Bits(flags, 8)[RIGHT_VALID := false][LEFT_VALID := false][VIRTUALS_VALID := false]);
    }
  }

  lemma SameBits(f: Byte, g: Byte)
    requires forall bit :: 0 <= bit < 8 ==> Has(f, bit) == Has(g, bit)
    ensures f == g
  {
    EightBits();
    BitsDecompose(f, 8);
    BitsDecompose(g, 8);
    assert Bits(f, 8) == Bits(g, 8) by {
      assert forall bit :: 0 <= bit < 8 ==> Bits(f, 8)[bit] == Has(f, bit) && Bits(g, 8)[bit] == Has(g, bit);
    }
  }

  /** Sanitising settles at once. */
  lemma SanitizeSettles(flags: Byte)
    ensures Sanitize(Sanitize(flags)) == Sanitize(flags)
  {
    hide Has, Sanitize;
    var f := Sanitize(flags);
    forall bit | 0 <= bit < 8 ensures Has(Sanitize(f), bit) == Has(f, bit) {
      SanitizeByBits(flags, bit);
      SanitizeByBits(f, bit);
      SanitizeByBits(flags, STEALTH);
      SanitizeByBits(flags, HEAD_VALID);
    }
    SameBits(Sanitize(f), f);
  }

  /** The derived encoding byte marks a physical pose as a delta exactly off the moving floor. */
  lemma EncodingMarksDelta(flags: Byte)
    ensures Has(EncodingFlags(flags), PHYSICAL_IS_XRORIGIN_DELTA) <==> !Has(flags, MOVING_FLOOR_LOCAL)
  {
    DefaultHasDelta();
    BitsCompose(Bits(ENCODING_DEFAULT, 8)[PHYSICAL_IS_XRORIGIN_DELTA := false]);
  }

  /** All of the derived encoding byte: its low five bits, the last one only off the moving floor. */
  lemma EncodingByBits(flags: Byte, bit: nat)
    requires bit < 8
    ensures Has(EncodingFlags(flags), bit) <==> bit < 5 && (bit == 4 ==> !Has(flags, 6))
  {
    hide Bits, Halved;
    BitsCompose(Bits(ENCODING_DEFAULT, 8)[PHYSICAL_IS_XRORIGIN_DELTA := false]);
    BitIs(31, 8, bit);
    Halvings(31);
  }

  function Halved(x: nat, times: nat): nat {
    if times == 0 then x else Halved(x, times - 1) / 2
  }

  lemma {:induction false} HalvedFirst(x: nat, times: nat)
    ensures Halved(x, times + 1) == Halved(x / 2, times)
  {
    if times > 0 {
      HalvedFirst(x, times - 1);
    }
  }

  /** A bit is what is odd after as many halvings. */
  lemma {:induction false} BitIs(x: nat, n: nat, bit: nat)
    requires bit < n
    ensures Bits(x, n)[bit] == (Halved(x, bit) % 2 == 1)
    decreases bit
  {
    hide Bits;
    NextBit(x, n, bit);
    if bit > 0 {
      BitIs(x / 2, n - 1, bit - 1);
      HalvedFirst(x, bit - 1);
    }
  }

  lemma Halvings(x: nat)
    ensures Halved(x, 0) == x && Halved(x, 1) == x / 2 && Halved(x, 2) == x / 4 && Halved(x, 3) == x / 8
    ensures Halved(x, 4) == x / 16 && Halved(x, 5) == x / 32 && Halved(x, 6) == x / 64 && Halved(x, 7) == x / 128
  {
    assert Halved(x, 1) == Halved(x, 0) / 2 && Halved(x, 2) == Halved(x, 1) / 2 && Halved(x, 3) == Halved(x, 2) / 2;
    assert Halved(x, 4) == Halved(x, 3) / 2 && Halved(x, 5) == Halved(x, 4) / 2;
    assert Halved(x, 6) == Halved(x, 5) / 2 && Halved(x, 7) == Halved(x, 6) / 2;
  }

  /** The flags by their masks. */
  lemma FlagMasks(flags: Byte)
    ensures Has(flags, STEALTH) <==> flags % 2 == 1
    ensures Has(flags, PHYSICAL_VALID) <==> flags / 2 % 2 == 1
    ensures Has(flags, HEAD_VALID) <==> flags / 4 % 2 == 1
    ensures Has(flags, RIGHT_VALID) <==> flags / 8 % 2 == 1
    ensures Has(flags, LEFT_VALID) <==> flags / 16 % 2 == 1
    ensures Has(flags, VIRTUALS_VALID) <==> flags / 32 % 2 == 1
    ensures Has(flags, MOVING_FLOOR_LOCAL) <==> flags / 64 % 2 == 1
  {
    hide Bits, Halved;
    Halvings(flags);
    BitIs(flags, 8, 0);
    BitIs(flags, 8, 1);
    BitIs(flags, 8, 2);
    BitIs(flags, 8, 3);
    BitIs(flags, 8, 4);
    BitIs(flags, 8, 5);
    BitIs(flags, 8, 6);
  }

  lemma DefaultHasDelta()
    ensures Has(ENCODING_DEFAULT, PHYSICAL_IS_XRORIGIN_DELTA)
  {
    hide Bits;
    NextBit(31, 8, 4);
    NextBit(15, 7, 3);
    NextBit(7, 6, 2);
    NextBit(3, 5, 1);
    NextBit(1, 4, 0);
  }

  // ---------------------------------------------------------------- parts

  datatype Header = Header(seqNo: U16, flags: U8, encoding: U8)

  /** Locomotion delta, or the physical pose on a moving floor. */
  datatype Loco = Loco(x: I16, y: I16, z: I16, yaw: I16)

  datatype Head = Head(x: int, y: int, z: int, rotation: U32)

  /** A hand or virtual transform relative to the head. */
  datatype Relative = Relative(x: I16, y: I16, z: I16, rotation: U32)

  datatype Payload = Payload(
    loco: Option<Loco>, head: Option<Head>, right: Option<Relative>, left: Option<Relative>, virtuals: seq<Relative>)

  predicate HasLoco(h: Header) { Has(h.flags, PHYSICAL_VALID) }
  predicate HasHead(h: Header) { Has(h.flags, HEAD_VALID) }
  predicate HasRight(h: Header) { HasHead(h) && Has(h.flags, RIGHT_VALID) }
  predicate HasLeft(h: Header) { HasHead(h) && Has(h.flags, LEFT_VALID) }
  predicate HasVirtuals(h: Header) { HasHead(h) && Has(h.flags, VIRTUALS_VALID) }

  /** read_pose_body rejects a physical pose that is neither a delta nor on a moving floor. */
  predicate Accepts(h: Header) {
    HasLoco(h) && !Has(h.flags, MOVING_FLOOR_LOCAL) ==> Has(h.encoding, PHYSICAL_IS_XRORIGIN_DELTA)
  }

  function ToHeader(p: (U16, (U8, U8))): Header { Header(p.0, p.1.0, p.1.1) }
  function FromHeader(h: Header): (U16, (U8, U8)) { (h.seqNo, (h.flags, h.encoding)) }
  function ToLoco(p: (I16, (I16, (I16, I16)))): Loco { Loco(p.0, p.1.0, p.1.1.0, p.1.1.1) }
  function FromLoco(l: Loco): (I16, (I16, (I16, I16))) { (l.x, (l.y, (l.z, l.yaw))) }
  function ToHead(p: (int, (int, (int, U32)))): Head { Head(p.0, p.1.0, p.1.1.0, p.1.1.1) }
  function FromHead(h: Head): (int, (int, (int, U32))) { (h.x, (h.y, (h.z, h.rotation))) }
  function ToRelative(p: (I16, (I16, (I16, U32)))): Relative { Relative(p.0, p.1.0, p.1.1.0, p.1.1.1) }
  function FromRelative(r: Relative): (I16, (I16, (I16, U32))) { (r.x, (r.y, (r.z, r.rotation))) }

  function HeaderCodec(): Codec<Header> {
    Reshape(Pair(Int16, Pair(Int8, Int8)), ToHeader, FromHeader)
  }

  function LocoCodec(): Codec<Loco> {
    Reshape(Four(Signed16, Signed16, Signed16, Signed16), ToLoco, FromLoco)
  }

  function HeadCodec(): Codec<Head> {
    Reshape(Four(Signed24, Signed24, Signed24, Int32), ToHead, FromHead)
  }

  function RelativeCodec(): Codec<Relative> {
    Reshape(Four(Signed16, Signed16, Signed16, Int32), ToRelative, FromRelative)
  }

  lemma HeaderLawful()
    ensures Lawful(HeaderCodec())
    ensures forall h :: HeaderCodec().fits(h) && HeaderCodec().norm(h) == h
  {
    hide Lawful;
    UnsignedLawful();
    PairLawful(Int8, Int8);
    PairLawful(Int16, Pair(Int8, Int8));
    ReshapeLawful(Pair(Int16, Pair(Int8, Int8)), ToHeader, FromHeader);
    forall h ensures HeaderCodec().fits(h) && HeaderCodec().norm(h) == h {
      ReshapeAt(Pair(Int16, Pair(Int8, Int8)), ToHeader, FromHeader, h);
      PairAt(Int8, Int8, h.flags, h.encoding);
      PairAt(Int16, Pair(Int8, Int8), h.seqNo, (h.flags, h.encoding));
    }
  }

  function Four<A, B, C, D>(a: Codec<A>, b: Codec<B>, c: Codec<C>, d: Codec<D>): Codec<(A, (B, (C, D)))> {
    Pair(a, Pair(b, Pair(c, d)))
  }

  lemma FourLawful<A(!new), B(!new), C(!new), D(!new)>(a: Codec<A>, b: Codec<B>, c: Codec<C>, d: Codec<D>)
    requires Lawful(a) && Lawful(b) && Lawful(c) && Lawful(d)
    ensures Lawful(Four(a, b, c, d))
  {
    hide Lawful, Pair;
    PairLawful(c, d);
    PairLawful(b, Pair(c, d));
    PairLawful(a, Pair(b, Pair(c, d)));
  }

  lemma FourAt<A, B, C, D>(a: Codec<A>, b: Codec<B>, c: Codec<C>, d: Codec<D>, w: A, x: B, y: C, z: D)
    ensures Four(a, b, c, d).enc((w, (x, (y, z)))) == a.enc(w) + (b.enc(x) + (c.enc(y) + d.enc(z)))
    ensures Four(a, b, c, d).norm((w, (x, (y, z)))) == (a.norm(w), (b.norm(x), (c.norm(y), d.norm(z))))
    ensures Four(a, b, c, d).fits((w, (x, (y, z)))) <==> a.fits(w) && b.fits(x) && c.fits(y) && d.fits(z)
  {
    PairAt(c, d, y, z);
    PairAt(b, Pair(c, d), x, (y, z));
    PairAt(a, Pair(b, Pair(c, d)), w, (x, (y, z)));
  }

  lemma LocoLawful()
    ensures Lawful(LocoCodec())
    ensures forall l :: LocoCodec().fits(l) && LocoCodec().norm(l) == l
  {
    hide Lawful, Four;
    SignedLawful();
    FourLawful(Signed16, Signed16, Signed16, Signed16);
    ReshapeLawful(Four(Signed16, Signed16, Signed16, Signed16), ToLoco, FromLoco);
    forall l: Loco ensures LocoCodec().fits(l) && LocoCodec().norm(l) == l {
      ReshapeAt(Four(Signed16, Signed16, Signed16, Signed16), ToLoco, FromLoco, l);
      FourAt(Signed16, Signed16, Signed16, Signed16, l.x, l.y, l.z, l.yaw);
    }
  }

  function Saturate(h: Head): Head {
    Head(Clamp24(h.x), Clamp24(h.y), Clamp24(h.z), h.rotation)
  }

  lemma HeadLawful()
    ensures Lawful(HeadCodec())
    ensures forall h :: HeadCodec().fits(h) && HeadCodec().norm(h) == Saturate(h)
  {
    hide Lawful, Four;
    UnsignedLawful();
    SignedLawful();
    FourLawful(Signed24, Signed24, Signed24, Int32);
    ReshapeLawful(Four(Signed24, Signed24, Signed24, Int32), ToHead, FromHead);
    forall h: Head ensures HeadCodec().fits(h) && HeadCodec().norm(h) == Saturate(h) {
      ReshapeAt(Four(Signed24, Signed24, Signed24, Int32), ToHead, FromHead, h);
      FourAt(Signed24, Signed24, Signed24, Int32, h.x, h.y, h.z, h.rotation);
    }
  }

  lemma RelativeLawful()
    ensures Lawful(RelativeCodec())
    ensures forall r :: RelativeCodec().fits(r) && RelativeCodec().norm(r) == r
  {
    hide Lawful, Four;
    UnsignedLawful();
    SignedLawful();
    FourLawful(Signed16, Signed16, Signed16, Int32);
    ReshapeLawful(Four(Signed16, Signed16, Signed16, Int32), ToRelative, FromRelative);
    forall r: Relative ensures RelativeCodec().fits(r) && RelativeCodec().norm(r) == r {
      ReshapeAt(Four(Signed16, Signed16, Signed16, Int32), ToRelative, FromRelative, r);
      FourAt(Signed16, Signed16, Signed16, Int32, r.x, r.y, r.z, r.rotation);
    }
  }

  // ---------------------------------------------------------------- virtual transforms

  function Upto50(n: U8): Codec<seq<Relative>> {
    Items(RelativeCodec(), Min(n, MAX_VIRTUALS))
  }

  /** What the wire keeps of a virtual list. */
  function Capped(valid: bool, vs: seq<Relative>): seq<Relative> {
    if valid then vs[..Min(|vs|, MAX_VIRTUALS)] else []
  }

  function KeepIf(valid: bool): ((U8, seq<Relative>)) -> seq<Relative> {
    (p: (U8, seq<Relative>)) => if valid then p.1 else []
  }

  function CutIf(valid: bool): seq<Relative> -> (U8, seq<Relative>) {
    (vs: seq<Relative>) => (|Capped(valid, vs)|, Capped(valid, vs))
  }

  /** A counted list of at most fifty; without the flag it is written empty, and read but dropped. */
  function VirtualsCodec(valid: bool): Codec<seq<Relative>> {
    Reshape(Depend(Int8, Always, Upto50), KeepIf(valid), CutIf(valid))
  }

  lemma NormNothing(xs: seq<Relative>)
    ensures NormAll(RelativeCodec(), xs) == xs && FitAll(RelativeCodec(), xs)
  {
    RelativeLawful();
  }

  lemma VirtualsLawful(valid: bool)
    ensures Lawful(VirtualsCodec(valid))
    ensures forall vs :: VirtualsCodec(valid).fits(vs) && VirtualsCodec(valid).norm(vs) == Capped(valid, vs)
  {
    hide Lawful, RelativeCodec, Depend, Reshape, Items;
    UnsignedLawful();
    RelativeLawful();
    forall n: U8 ensures Lawful(Upto50(n)) {
      ItemsLawful(RelativeCodec(), Min(n, MAX_VIRTUALS));
    }
    DependLawful(Int8, Always, Upto50);
    ReshapeLawful(Depend(Int8, Always, Upto50), KeepIf(valid), CutIf(valid));
    forall vs: seq<Relative>
      ensures VirtualsCodec(valid).fits(vs) && VirtualsCodec(valid).norm(vs) == Capped(valid, vs)
    {
      VirtualsAt(valid, vs);
    }
  }

  lemma VirtualsAt(valid: bool, vs: seq<Relative>)
    ensures VirtualsCodec(valid).fits(vs) && VirtualsCodec(valid).norm(vs) == Capped(valid, vs)
  {
    hide RelativeCodec, NormAll, FitAll, Depend, Reshape;
    var kept := Capped(valid, vs);
    ReshapeAt(Depend(Int8, Always, Upto50), KeepIf(valid), CutIf(valid), vs);
    DependAt(Int8, Always, Upto50, |kept|, kept);
    NormNothing(kept);
  }

  // ---------------------------------------------------------------- the body

  type Nested = (Option<Loco>, (Option<Head>, (Option<Relative>, (Option<Relative>, seq<Relative>))))

  function ToPayload(p: Nested): Payload {
    Payload(p.0, p.1.0, p.1.1.0, p.1.1.1.0, p.1.1.1.1)
  }

  function FromPayload(p: Payload): Nested {
    (p.loco, (p.head, (p.right, (p.left, p.virtuals))))
  }

  function NestedCodec(h: Header): Codec<Nested> {
    Pair(When(HasLoco(h), LocoCodec()),
         Pair(When(HasHead(h), HeadCodec()),
              Pair(When(HasRight(h), RelativeCodec()),
                   Pair(When(HasLeft(h), RelativeCodec()), VirtualsCodec(HasVirtuals(h))))))
  }

  function PayloadCodec(h: Header): Codec<Payload> {
    Reshape(NestedCodec(h), ToPayload, FromPayload)
  }

  /** The flags of `h` say which optional parts a payload has. */
  predicate Matches(h: Header, p: Payload) {
    && (p.loco.Some? <==> HasLoco(h))
    && (p.head.Some? <==> HasHead(h))
    && (p.right.Some? <==> HasRight(h))
    && (p.left.Some? <==> HasLeft(h))
  }

  /** What the wire keeps of a payload. */
  function Kept(h: Header, p: Payload): Payload
    requires Matches(h, p)
  {
    p.(head := if p.head.Some? then Some(Saturate(p.head.value)) else None,
       virtuals := Capped(HasVirtuals(h), p.virtuals))
  }

  lemma NestedLawful(h: Header)
    ensures Lawful(NestedCodec(h))
  {
    hide Lawful, LocoCodec, HeadCodec, RelativeCodec, VirtualsCodec, When, Pair;
    LocoLawful();
    HeadLawful();
    RelativeLawful();
    VirtualsLawful(HasVirtuals(h));
    WhenLawful(HasLoco(h), LocoCodec());
    WhenLawful(HasHead(h), HeadCodec());
    WhenLawful(HasRight(h), RelativeCodec());
    WhenLawful(HasLeft(h), RelativeCodec());
    var left := Pair(When(HasLeft(h), RelativeCodec()), VirtualsCodec(HasVirtuals(h)));
    var right := Pair(When(HasRight(h), RelativeCodec()), left);
    var head := Pair(When(HasHead(h), HeadCodec()), right);
    PairLawful(When(HasLeft(h), RelativeCodec()), VirtualsCodec(HasVirtuals(h)));
    PairLawful(When(HasRight(h), RelativeCodec()), left);
    PairLawful(When(HasHead(h), HeadCodec()), right);
    PairLawful(When(HasLoco(h), LocoCodec()), head);
  }

  lemma PayloadLawful(h: Header)
    ensures Lawful(PayloadCodec(h))
  {
    hide Lawful, NestedCodec;
    NestedLawful(h);
    ReshapeLawful(NestedCodec(h), ToPayload, FromPayload);
  }

  /** A payload that matches its flags is written, and read back as what the wire keeps. */
  lemma PayloadFits(h: Header, p: Payload)
    requires Matches(h, p)
    ensures PayloadCodec(h).fits(p) && PayloadCodec(h).norm(p) == Kept(h, p)
  {
    hide LocoCodec, HeadCodec, RelativeCodec, VirtualsCodec, Lawful, Pair, Reshape;
    LocoLawful();
    HeadLawful();
    RelativeLawful();
    VirtualsLawful(HasVirtuals(h));
    ReshapeAt(NestedCodec(h), ToPayload, FromPayload, p);
    var left := Pair(When(HasLeft(h), RelativeCodec()), VirtualsCodec(HasVirtuals(h)));
    var right := Pair(When(HasRight(h), RelativeCodec()), left);
    var head := Pair(When(HasHead(h), HeadCodec()), right);
    PairAt(When(HasLeft(h), RelativeCodec()), VirtualsCodec(HasVirtuals(h)), p.left, p.virtuals);
    PairAt(When(HasRight(h), RelativeCodec()), left, p.right, (p.left, p.virtuals));
    PairAt(When(HasHead(h), HeadCodec()), right, p.head, (p.right, (p.left, p.virtuals)));
    PairAt(When(HasLoco(h), LocoCodec()), head, p.loco, (p.head, (p.right, (p.left, p.virtuals))));
  }

  /** The pose body: write_pose_body after quantising, read_pose_body before dequantising. */
  function BodyCodec(): Codec<(Header, Payload)> {
    Depend(HeaderCodec(), Accepts, PayloadCodec)
  }

  lemma BodyLawful()
    ensures Lawful(BodyCodec())
  {
    hide Lawful, HeaderCodec, PayloadCodec;
    HeaderLawful();
    forall h ensures Lawful(PayloadCodec(h)) {
      PayloadLawful(h);
    }
    DependLawful(HeaderCodec(), Accepts, PayloadCodec);
  }

  /** The header that write_pose_body derives from the caller's flags. */
  function DerivedHeader(seqNo: U16, flags: U8): Header {
    Header(seqNo, Sanitize(flags), EncodingFlags(Sanitize(flags)))
  }

  /** For every flag byte, a body with the derived header is written and read back exactly. */
  lemma BodyRoundTrip(seqNo: U16, flags: U8, p: Payload, rest: Text)
    requires Matches(DerivedHeader(seqNo, flags), p)
    ensures var h := DerivedHeader(seqNo, flags);
            BodyCodec().fits((h, p)) && BodyCodec().norm((h, p)) == (h, Kept(h, p))
            && BodyCodec().dec(BodyCodec().enc((h, p)) + rest) == Some(((h, Kept(h, p)), rest))
  {
    hide HeaderCodec, PayloadCodec;
    var h := DerivedHeader(seqNo, flags);
    EncodingMarksDelta(h.flags);
    HeaderLawful();
    PayloadFits(h, p);
    BodyLawful();
    DependAt(HeaderCodec(), Accepts, PayloadCodec, h, p);
    assert BodyCodec().fits((h, p));
  }
}
