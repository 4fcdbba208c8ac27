/**
The bytes of protocol v8 as docs/PROTOCOL_V8.md lays them out (sections 3, 4.5 and 5), and what
each message keeps of the values put into it. The formats of module Messages are compositions of
encoders; here each is one flat list of fields, with its type byte, widths and byte order.
*/
module WireLayout {
  import opened Bytes
  import opened Codecs
  import opened Wire
  import opened PoseWire
  import opened Messages
  import Utf8

  // ---------------------------------------------------------------- fields

  /** `n` bytes, least significant first. */
  function Little(x: nat, n: nat): (r: Text)
    ensures |r| == n
    decreases n
  {
    if n == 0 then [] else [x % 256] + Little(x / 256, n - 1)
  }

  function Power(base: nat, n: nat): nat {
    if n == 0 then 1 else base * Power(base, n - 1)
  }

  /** The number that bytes spell, each worth 256 times the one before it. */
  function Spelled(a: Text): nat {
    if a == [] then 0 else a[0] + 256 * Spelled(a[1..])
  }

  lemma {:induction false} LittleSpells(x: nat, n: nat)
    requires x < Power(256, n)
    ensures Spelled(Little(x, n)) == x
  {
    if n > 0 {
      LittleSpells(x / 256, n - 1);
      assert Little(x, n)[1..] == Little(x / 256, n - 1);
    }
  }

  lemma LittleStep(x: nat, n: nat)
    requires n > 0
    ensures Little(x, n) == [x % 256] + Little(x / 256, n - 1) && Little(x, 0) == []
  {
  }

  lemma LittleUnfolds(x: nat)
    ensures Little(x, 1) == [x % 256] && Little(x, 2) == [x % 256, x / 256 % 256]
    ensures Little(x, 3) == [x % 256, x / 256 % 256, x / 256 / 256 % 256]
    ensures Little(x, 4) == [x % 256, x / 256 % 256, x / 256 / 256 % 256, x / 256 / 256 / 256 % 256]
  {
    hide Little;
    var y, z, w := x / 256, x / 256 / 256, x / 256 / 256 / 256;
    LittleStep(x, 1);
    LittleStep(x, 2);
    LittleStep(x, 3);
    LittleStep(x, 4);
    LittleStep(y, 1);
    LittleStep(y, 2);
    LittleStep(y, 3);
    LittleStep(z, 1);
    LittleStep(z, 2);
    LittleStep(w, 1);
    assert Little(x / 256, 0) == [] && Little(y / 256, 0) == [] by {
      LittleStep(x / 256, 1);
      LittleStep(y / 256, 1);
    }
    LittleStep(z / 256, 1);
    LittleStep(w / 256, 1);
  }

  /** Unsigned fields, least significant byte first. */
  lemma UnsignedLayout(a: U8, b: U16, c: U32)
    ensures Int8.enc(a) == Little(a, 1) && Int16.enc(b) == Little(b, 2) && Int32.enc(c) == Little(c, 4)
  {
    LittleUnfolds(a);
    LittleUnfolds(b);
    LittleUnfolds(c);
  }

  /** Signed fields in two's complement: the number modulo the size of its field, the 24-bit one after saturating. */
  lemma SignedLayout(d: I16, e: int)
    ensures Clamp24(e) == if e < -0x80_0000 then -0x80_0000 else if e > 0x7F_FFFF then 0x7F_FFFF else e
    ensures Signed16.enc(d) == Little(d % 0x1_0000, 2)
    ensures Signed24.enc(e) == Little(Clamp24(e) % 0x100_0000, 3)
  {
    hide Little;
    LittleUnfolds(d % 0x1_0000);
    LittleUnfolds(Clamp24(e) % 0x100_0000);
    Wraps(d);
    Wraps(Clamp24(e));
  }

  lemma Wraps(x: int)
    ensures -0x8000 <= x < 0x8000 ==> x % 0x1_0000 == if x < 0 then x + 0x1_0000 else x
    ensures -0x80_0000 <= x < 0x80_0000 ==> x % 0x100_0000 == if x < 0 then x + 0x100_0000 else x
  {
  }

  /** Text as str8: its length in one byte, cut to 255 bytes on a character boundary. */
  function Str8(s: Text): Text {
    var t := Utf8.ByteCut(s, 255);
    Little(|t|, 1) + t
  }

  /** Text as str16: its length in two bytes, cut to 65535. */
  function Str16(s: Text): Text {
    var t := Utf8.ByteCut(s, 0xFFFF);
    Little(|t|, 2) + t
  }

  lemma TextLayout(s: Text)
    ensures Text8().enc(s) == Str8(s) && Text16().enc(s) == Str16(s)
  {
    hide Utf8.ByteCut, Little, Reshape, Depend;
    ReshapeAt(Depend(Int8, Always, Raw8), Second, Cut8, s);
    DependAt(Int8, Always, Raw8, Cut8(s).0, Cut8(s).1);
    ReshapeAt(Depend(Int16, Always, Raw16), Second, Cut16, s);
    DependAt(Int16, Always, Raw16, Cut16(s).0, Cut16(s).1);
    UnsignedLayout(Cut8(s).0, Cut16(s).0, 0);
  }

  function VariableName(s: Text): Text { Str8(Utf8.CodePointCut(s, 64)) }

  function VariableValue(s: Text): Text { Str16(Utf8.CodePointCut(s, 1024)) }

  lemma VariableTextLayout(name: Text, value: Text)
    ensures NameText().enc(name) == VariableName(name) && ValueText().enc(value) == VariableValue(value)
  {
    hide Text8, Text16, Str8, Str16, Utf8.CodePointCut;
    TextLayout(Utf8.CodePointCut(name, 64));
    TextLayout(Utf8.CodePointCut(value, 1024));
    ReshapeAt(Text8(), Same, ClampName, name);
    ReshapeAt(Text16(), Same, ClampValue, value);
  }

  /** The bytes of all items, in order. */
  function Each<T>(xs: seq<T>, bytes: T -> Text): Text {
    if xs == [] then [] else bytes(xs[0]) + Each(xs[1..], bytes)
  }

  lemma {:induction false} EachItem<T>(c: Codec<T>, xs: seq<T>, bytes: T -> Text)
    requires forall x :: x in xs ==> c.enc(x) == bytes(x)
    ensures ItemsEnc(c, xs) == Each(xs, bytes)
  {
    if xs != [] {
      EachItem(c, xs[1..], bytes);
    }
  }

  lemma List16Layout<T>(c: Codec<T>, xs: seq<T>, bytes: T -> Text)
    requires forall x :: x in xs ==> c.enc(x) == bytes(x)
    ensures List16(c).enc(xs) == Little(|xs| % 0x1_0000, 2) + Each(xs, bytes)
  {
    hide Little, Each, ItemsEnc, Reshape, Depend, Fixed;
    EachItem(c, xs, bytes);
    UnsignedLayout(0, |xs| % 0x1_0000, 0);
    ReshapeAt(Depend(Int16, Always, Items16(c)), Second, Counted16, xs);
    DependAt(Int16, Always, Items16(c), Counted16(xs).0, xs);
  }

  lemma List8Layout<T>(c: Codec<T>, xs: seq<T>, bytes: T -> Text)
    requires forall x :: x in xs ==> c.enc(x) == bytes(x)
    ensures var n := if |xs| <= 255 then |xs| else 255;
            List8(c).enc(xs) == Little(n, 1) + Each(xs[..n], bytes)
  {
    hide Little, Each, ItemsEnc, Reshape, Depend, Fixed;
    var n := if |xs| <= 255 then |xs| else 255;
    EachItem(c, xs[..n], bytes);
    UnsignedLayout(n, 0, 0);
    ReshapeAt(Depend(Int8, Always, Items8(c)), Second, Counted8, xs);
    DependAt(Int8, Always, Items8(c), Counted8(xs).0, Counted8(xs).1);
  }

  // ---------------------------------------------------------------- calls and mappings

  /** Section 5.5. */
  lemma RpcLayout(sender: U16, device: Text, targets: seq<U16>, name: Text, args: Text)
    ensures var n := if |targets| <= 255 then |targets| else 255;
            Rpc().enc((sender, (device, (targets, (name, args))))) ==
              [3] + (Little(sender, 2) + (Str8(device) + ((Little(n, 1) + Each(targets[..n], (t: U16) => Little(t, 2)))
                + (Str8(name) + Str16(args)))))
  {
    hide Text8, Text16, List8, Str8, Str16, Little, Fixed, Each;
    TextLayout(device);
    TextLayout(name);
    TextLayout(args);
    UnsignedLayout(0, sender, 0);
    forall t: U16 ensures Int16.enc(t) == Little(t, 2) {
      UnsignedLayout(0, t, 0);
    }
    List8Layout(Int16, targets, (t: U16) => Little(t, 2));
  }

  /** A call arrives as it was sent: at most 255 targets, texts cut to their length fields. */
  lemma RpcKeeps(sender: U16, device: Text, targets: seq<U16>, name: Text, args: Text, rest: Text)
    ensures Rpc().dec(Rpc().enc((sender, (device, (targets, (name, args))))) + rest) ==
              Some(((sender, (Utf8.ByteCut(device, 255),
                     (targets[..Min(|targets|, 255)], (Utf8.ByteCut(name, 255), Utf8.ByteCut(args, 0xFFFF))))), rest))
  {
    hide Lawful, Text8, Text16, List8, Pair, Utf8.ByteCut, Headed;
    ControlLawful();
    Text8Lawful();
    Text16Lawful();
    UnsignedLawful();
    List8Lawful(Int16);
    assert FitAll(Int16, targets);
    var kept := targets[..Min(|targets|, 255)];
    assert NormAll(Int16, kept) == kept;
    PairAt(Text8(), Text16(), name, args);
    var tail := Pair(List8(Int16), Pair(Text8(), Text16()));
    PairAt(List8(Int16), Pair(Text8(), Text16()), targets, (name, args));
    PairAt(Text8(), tail, device, (targets, (name, args)));
    PairAt(Int16, Pair(Text8(), tail), sender, (device, (targets, (name, args))));
    HeadedKeeps([3], Pair(Int16, Pair(Text8(), tail)), (sender, (device, (targets, (name, args)))));
    LawfulReads(Rpc(), (sender, (device, (targets, (name, args)))), rest);
  }

  lemma HeadedKeeps<T>(prefix: Text, c: Codec<T>, x: T)
    ensures Headed(prefix, c).fits(x) == c.fits(x) && Headed(prefix, c).norm(x) == c.norm(x)
  {
  }

  type Mapping = (U16, (bool, Text))

  /** One entry of section 5.4: the stealth byte is 1 or 0. */
  function MappingBytes(m: Mapping): Text {
    Little(m.0, 2) + ([if m.1.0 then 1 else 0] + Str8(m.1.1))
  }

  lemma MappingEntryAt(m: Mapping)
    ensures MappingEntry().enc(m) == MappingBytes(m) && MappingEntry().fits(m)
    ensures MappingEntry().norm(m) == (m.0, (m.1.0, Utf8.ByteCut(m.1.1, 255)))
  {
    hide Text8, Str8, Little, Fixed, Utf8.ByteCut;
    TextLayout(m.1.1);
    UnsignedLayout(0, m.0, 0);
    Text8Lawful();
    FlagAt(m.1.0);
    PairAt(Flag(), Text8(), m.1.0, m.1.1);
    PairAt(Int16, Pair(Flag(), Text8()), m.0, m.1);
    Int16Keeps(m.0);
  }

  lemma Int16Keeps(x: U16)
    ensures Int16.fits(x) && Int16.norm(x) == x && Int8.fits(0)
    ensures forall b: U8 :: Int8.fits(b) && Int8.norm(b) == b
    ensures forall c: U32 :: Int32.fits(c) && Int32.norm(c) == c
  {
  }

  /** A stealth flag is the byte 1 or 0, and is read back as it was. */
  lemma FlagAt(on: bool)
    ensures Flag().enc(on) == [if on then 1 else 0] && Flag().fits(on) && Flag().norm(on) == on
  {
    hide Fixed;
    ReshapeAt(Int8, IsOne, OneIf, on);
    Int8At(OneIf(on));
  }

  lemma Int8At(b: U8)
    ensures Int8.enc(b) == [b] && Int8.fits(b) && Int8.norm(b) == b
  {
  }

  /** Any other byte than 1 means that the client is not in stealth. */
  lemma OnlyOneIsStealth(b: U8, rest: Text)
    ensures Flag().dec([b] + rest) == Some((b == 1, rest))
  {
    var a := [b] + rest;
    assert a[..1] == [b] && a[1..] == rest;
    FixedReads(1, EncU8, ValU8, Same, a);
    ReshapeReads(Int8, IsOne, OneIf, a, b, rest);
  }

  lemma MappingLayout(major: U8, minor: U8, patch: U8, ms: seq<Mapping>)
    ensures DeviceIdMapping().enc((major, (minor, (patch, ms)))) ==
              [6] + ([major] + ([minor] + ([patch] + (Little(|ms| % 0x1_0000, 2) + Each(ms, MappingBytes)))))
  {
    hide MappingEntry, List16, Little, Each, MappingBytes, Fixed, Pair;
    forall m ensures MappingEntry().enc(m) == MappingBytes(m) {
      MappingEntryAt(m);
    }
    List16Layout(MappingEntry(), ms, MappingBytes);
    var list := List16(MappingEntry());
    Int8At(major);
    Int8At(minor);
    Int8At(patch);
    PairAt(Int8, list, patch, ms);
    PairAt(Int8, Pair(Int8, list), minor, (patch, ms));
    PairAt(Int8, Pair(Int8, Pair(Int8, list)), major, (minor, (patch, ms)));
  }

  /** Device ids of up to 255 bytes, stealth flags and numbers arrive as they were sent. */
  lemma MappingArrives(major: U8, minor: U8, patch: U8, ms: seq<Mapping>, rest: Text)
    requires |ms| <= 0xFFFF && forall i :: 0 <= i < |ms| ==> |ms[i].1.1| <= 255
    ensures var m := (major, (minor, (patch, ms)));
            DeviceIdMapping().dec(DeviceIdMapping().enc(m) + rest) == Some((m, rest))
  {
    hide Lawful, MappingEntry, List16, Pair, Headed;
    ControlLawful();
    EntryLawful();
    List16Lawful(MappingEntry());
    forall i | 0 <= i < |ms| ensures MappingEntry().fits(ms[i]) && MappingEntry().norm(ms[i]) == ms[i] {
      MappingEntryAt(ms[i]);
    }
    assert NormAll(MappingEntry(), ms) == ms;
    Int16Keeps(0);
    var list := List16(MappingEntry());
    PairAt(Int8, list, patch, ms);
    PairAt(Int8, Pair(Int8, list), minor, (patch, ms));
    PairAt(Int8, Pair(Int8, Pair(Int8, list)), major, (minor, (patch, ms)));
    HeadedKeeps([6], Pair(Int8, Pair(Int8, Pair(Int8, list))), (major, (minor, (patch, ms))));
    LawfulReads(DeviceIdMapping(), (major, (minor, (patch, ms))), rest);
  }

  // ---------------------------------------------------------------- variables

  /** Sections 5.6, 5.8 and 5.10 and the hello of 5.1. */
  lemma VariableLayouts(sender: U16, device: Text, target: U16, name: Text, value: Text, flags: U8)
    ensures GlobalVarSet().enc((sender, (device, (name, value)))) ==
              [7] + (Little(sender, 2) + (Str8(device) + (VariableName(name) + VariableValue(value))))
    ensures ClientVarSet().enc((sender, (device, (target, (name, value))))) ==
              [9] + (Little(sender, 2) + (Str8(device) + (Little(target, 2) + (VariableName(name) + VariableValue(value)))))
    ensures ClientVarClear().enc((sender, device)) == [18] + (Little(sender, 2) + Str8(device))
    ensures ClientHello().enc((flags, device)) == [19, 8] + ([flags] + Str8(device))
  {
    hide Text8, NameText, ValueText, Str8, VariableName, VariableValue, Little;
    TextLayout(device);
    VariableTextLayout(name, value);
    UnsignedLayout(flags, sender, 0);
    UnsignedLayout(0, target, 0);
  }

  type Entry = (Text, (Text, U16))

  /** Name, value, last writer. */
  function EntryBytes(e: Entry): Text {
    VariableName(e.0) + (VariableValue(e.1.0) + Little(e.1.1, 2))
  }

  function EntriesBytes(es: seq<Entry>): Text {
    Little(|es| % 0x1_0000, 2) + Each(es, EntryBytes)
  }

  /** One client's table. */
  function BlockBytes(b: (U16, seq<Entry>)): Text {
    Little(b.0, 2) + EntriesBytes(b.1)
  }

  lemma EntryLayout(es: seq<Entry>)
    ensures List16(VariableEntry()).enc(es) == EntriesBytes(es)
  {
    hide NameText, ValueText, VariableName, VariableValue, Little, List16, Fixed, Each;
    forall e: Entry ensures VariableEntry().enc(e) == EntryBytes(e) {
      VariableTextLayout(e.0, e.1.0);
      UnsignedLayout(0, e.1.1, 0);
    }
    List16Layout(VariableEntry(), es, EntryBytes);
  }

  /** Sections 5.7 and 5.9. */
  lemma SnapshotLayouts(es: seq<Entry>, blocks: seq<(U16, seq<Entry>)>)
    ensures GlobalVarSync().enc(es) == [8] + EntriesBytes(es)
    ensures ClientVarSync().enc(blocks) == [10] + (Little(|blocks| % 0x1_0000, 2) + Each(blocks, BlockBytes))
  {
    hide VariableEntry, List16, EntriesBytes, Little, Each, Fixed;
    EntryLayout(es);
    forall b: (U16, seq<Entry>) ensures Pair(Int16, List16(VariableEntry())).enc(b) == BlockBytes(b) {
      EntryLayout(b.1);
      UnsignedLayout(0, b.0, 0);
    }
    List16Layout(Pair(Int16, List16(VariableEntry())), blocks, BlockBytes);
  }

  /** The texts are within every limit on the way. */
  predicate Short(e: Entry) {
    Utf8.CodePoints(e.0) <= 64 && |e.0| <= 255 && Utf8.CodePoints(e.1.0) <= 1024 && |e.1.0| <= 0xFFFF
  }

  predicate AllShort(es: seq<Entry>) {
    |es| <= 0xFFFF && forall i :: 0 <= i < |es| ==> Short(es[i])
  }

  lemma EntryKeeps(e: Entry)
    requires Short(e)
    ensures VariableEntry().fits(e) && VariableEntry().norm(e) == e
  {
    hide Text8, Text16, Fixed, Utf8.ByteCut, Utf8.CodePointCut, Utf8.CodePoints;
    Text8Lawful();
    Text16Lawful();
    Utf8.CodePointCutKeepsShort(e.0, 64);
    Utf8.CodePointCutKeepsShort(e.1.0, 1024);
    ReshapeAt(Text8(), Same, ClampName, e.0);
    ReshapeAt(Text16(), Same, ClampValue, e.1.0);
    ShortIsKept(e.0, 255);
    ShortIsKept(e.1.0, 0xFFFF);
    Int16Keeps(e.1.1);
    PairAt(ValueText(), Int16, e.1.0, e.1.1);
    PairAt(NameText(), Pair(ValueText(), Int16), e.0, e.1);
  }

  lemma ShortIsKept(s: Text, limit: nat)
    requires |s| <= limit
    ensures Utf8.ByteCut(s, limit) == s
  {
  }

  lemma EntriesKeep(es: seq<Entry>)
    requires AllShort(es)
    ensures List16(VariableEntry()).fits(es) && List16(VariableEntry()).norm(es) == es
  {
    hide Lawful, VariableEntry, List16, Short;
    EntryLawful();
    List16Lawful(VariableEntry());
    forall i | 0 <= i < |es| ensures VariableEntry().fits(es[i]) && VariableEntry().norm(es[i]) == es[i] {
      EntryKeeps(es[i]);
    }
    assert NormAll(VariableEntry(), es) == es;
  }

  /** Snapshots of variables that were accepted arrive entry by entry, in order, with their writers. */
  lemma SnapshotsArrive(es: seq<Entry>, blocks: seq<(U16, seq<Entry>)>, rest: Text)
    requires AllShort(es) && |blocks| <= 0xFFFF && forall i :: 0 <= i < |blocks| ==> AllShort(blocks[i].1)
    ensures GlobalVarSync().dec(GlobalVarSync().enc(es) + rest) == Some((es, rest))
    ensures ClientVarSync().dec(ClientVarSync().enc(blocks) + rest) == Some((blocks, rest))
  {
    hide Lawful, VariableEntry, List16, Pair, Headed, AllShort, Fixed;
    VariablesLawful();
    EntryLawful();
    EntriesKeep(es);
    HeadedKeeps([8], List16(VariableEntry()), es);
    LawfulReads(GlobalVarSync(), es, rest);
    var block := Pair(Int16, List16(VariableEntry()));
    BlockLawful();
    List16Lawful(block);
    forall i | 0 <= i < |blocks| ensures block.fits(blocks[i]) && block.norm(blocks[i]) == blocks[i] {
      EntriesKeep(blocks[i].1);
      Int16Keeps(blocks[i].0);
      PairAt(Int16, List16(VariableEntry()), blocks[i].0, blocks[i].1);
    }
    assert NormAll(block, blocks) == blocks;
    HeadedKeeps([10], List16(block), blocks);
    LawfulReads(ClientVarSync(), blocks, rest);
  }

  lemma BlockLawful()
    ensures Lawful(Pair(Int16, List16(VariableEntry())))
  {
    hide Lawful, VariableEntry, List16, Pair;
    FieldsLawful();
    EntryLawful();
    List16Lawful(VariableEntry());
    PairLawful(Int16, List16(VariableEntry()));
  }

  // ---------------------------------------------------------------- poses

  function LocoBytes(l: Loco): Text {
    Little(l.x % 0x1_0000, 2) + (Little(l.y % 0x1_0000, 2) + (Little(l.z % 0x1_0000, 2) + Little(l.yaw % 0x1_0000, 2)))
  }

  /** Coordinates in range; beyond it they saturate first. */
  function HeadBytes(h: Head): Text {
    Little(Clamp24(h.x) % 0x100_0000, 3) + (Little(Clamp24(h.y) % 0x100_0000, 3)
      + (Little(Clamp24(h.z) % 0x100_0000, 3) + Little(h.rotation, 4)))
  }

  function RelativeBytes(r: Relative): Text {
    Little(r.x % 0x1_0000, 2) + (Little(r.y % 0x1_0000, 2) + (Little(r.z % 0x1_0000, 2) + Little(r.rotation, 4)))
  }

  lemma LocoLayout(l: Loco)
    ensures LocoCodec().enc(l) == LocoBytes(l)
  {
    hide Little, Fixed, Four, Reshape, EncI16;
    SignedLayout(l.x, 0);
    SignedLayout(l.y, 0);
    SignedLayout(l.z, 0);
    SignedLayout(l.yaw, 0);
    ReshapeAt(Four(Signed16, Signed16, Signed16, Signed16), ToLoco, FromLoco, l);
    FourAt(Signed16, Signed16, Signed16, Signed16, l.x, l.y, l.z, l.yaw);
  }

  lemma HeadLayout(h: Head)
    ensures HeadCodec().enc(h) == HeadBytes(h)
  {
    hide Little, Fixed, Four, Reshape, Clamp24, EncI24;
    SignedLayout(0, h.x);
    SignedLayout(0, h.y);
    SignedLayout(0, h.z);
    UnsignedLayout(0, 0, h.rotation);
    ReshapeAt(Four(Signed24, Signed24, Signed24, Int32), ToHead, FromHead, h);
    FourAt(Signed24, Signed24, Signed24, Int32, h.x, h.y, h.z, h.rotation);
  }

  lemma RelativeLayout(r: Relative)
    ensures RelativeCodec().enc(r) == RelativeBytes(r)
  {
    hide Little, Fixed, Four, Reshape, EncI16;
    SignedLayout(r.x, 0);
    SignedLayout(r.y, 0);
    SignedLayout(r.z, 0);
    UnsignedLayout(0, 0, r.rotation);
    ReshapeAt(Four(Signed16, Signed16, Signed16, Int32), ToRelative, FromRelative, r);
    FourAt(Signed16, Signed16, Signed16, Int32, r.x, r.y, r.z, r.rotation);
  }

  /** The part, if there is one. */
  function IfAny<T>(part: Option<T>, bytes: T -> Text): Text {
    if part.Some? then bytes(part.value) else []
  }

  lemma WhenLayout<T>(present: bool, c: Codec<T>, part: Option<T>, bytes: T -> Text)
    requires (part.Some? <==> present) && (part.Some? ==> c.enc(part.value) == bytes(part.value))
    ensures When(present, c).enc(part) == IfAny(part, bytes)
  {
  }

  /** At most fifty virtual transforms, none without the flag, after their number. */
  lemma VirtualsLayout(valid: bool, vs: seq<Relative>)
    ensures var kept := if !valid then [] else if |vs| <= 50 then vs else vs[..50];
            VirtualsCodec(valid).enc(vs) == Little(|kept|, 1) + Each(kept, RelativeBytes)
  {
    hide RelativeCodec, RelativeBytes, Little, Each, ItemsEnc, Reshape, Depend, Fixed;
    var kept := Capped(valid, vs);
    assert kept == if !valid then [] else if |vs| <= 50 then vs else vs[..50];
    forall r ensures RelativeCodec().enc(r) == RelativeBytes(r) {
      RelativeLayout(r);
    }
    EachItem(RelativeCodec(), kept, RelativeBytes);
    UnsignedLayout(|kept|, 0, 0);
    ReshapeAt(Depend(Int8, Always, Upto50), KeepIf(valid), CutIf(valid), vs);
    assert CutIf(valid)(vs) == (|kept|, kept);
    DependAt(Int8, Always, Upto50, |kept|, kept);
    assert Upto50(|kept|).enc(kept) == ItemsEnc(RelativeCodec(), kept);
  }

  /** The flag byte has the bit of that mask. */
  predicate Flagged(h: Header, mask: nat)
    requires mask > 0
  {
    h.flags / mask % 2 == 1
  }

  /** Section 4.5, after quantising. */
  function BodyBytes(h: Header, p: Payload): Text {
    var kept := if !(Flagged(h, 4) && Flagged(h, 32)) then [] else if |p.virtuals| <= 50 then p.virtuals else p.virtuals[..50];
    Little(h.seqNo, 2) + ([h.flags] + ([h.encoding]
      + (IfAny(p.loco, LocoBytes) + (IfAny(p.head, HeadBytes) + (IfAny(p.right, RelativeBytes)
      + (IfAny(p.left, RelativeBytes) + (Little(|kept|, 1) + Each(kept, RelativeBytes))))))))
  }

  lemma HeaderLayout(h: Header)
    ensures HeaderCodec().enc(h) == Little(h.seqNo, 2) + ([h.flags] + [h.encoding])
  {
    hide Little, Fixed, Pair, Reshape;
    ReshapeAt(Pair(Int16, Pair(Int8, Int8)), ToHeader, FromHeader, h);
    PairAt(Int8, Int8, h.flags, h.encoding);
    PairAt(Int16, Pair(Int8, Int8), h.seqNo, (h.flags, h.encoding));
    UnsignedLayout(0, h.seqNo, 0);
    Int8At(h.flags);
    Int8At(h.encoding);
  }

  lemma PartLayouts(p: Payload)
    ensures p.loco.Some? ==> LocoCodec().enc(p.loco.value) == LocoBytes(p.loco.value)
    ensures p.head.Some? ==> HeadCodec().enc(p.head.value) == HeadBytes(p.head.value)
    ensures p.right.Some? ==> RelativeCodec().enc(p.right.value) == RelativeBytes(p.right.value)
    ensures p.left.Some? ==> RelativeCodec().enc(p.left.value) == RelativeBytes(p.left.value)
  {
    hide LocoCodec, HeadCodec, RelativeCodec, LocoBytes, HeadBytes, RelativeBytes;
    if p.loco.Some? {
      LocoLayout(p.loco.value);
    }
    if p.head.Some? {
      HeadLayout(p.head.value);
    }
    if p.right.Some? {
      RelativeLayout(p.right.value);
    }
    if p.left.Some? {
      RelativeLayout(p.left.value);
    }
  }

  lemma PayloadLayout(h: Header, p: Payload)
    requires Matches(h, p)
    ensures var kept := if !HasVirtuals(h) then [] else if |p.virtuals| <= 50 then p.virtuals else p.virtuals[..50];
            PayloadCodec(h).enc(p) ==
              IfAny(p.loco, LocoBytes) + (IfAny(p.head, HeadBytes) + (IfAny(p.right, RelativeBytes)
                + (IfAny(p.left, RelativeBytes) + (Little(|kept|, 1) + Each(kept, RelativeBytes)))))
  {
    hide LocoCodec, HeadCodec, RelativeCodec, VirtualsCodec, When, Pair, Reshape, HasLoco, HasHead, HasRight, HasLeft, HasVirtuals;
    hide LocoBytes, HeadBytes, RelativeBytes, Little, Each, IfAny;
    PartLayouts(p);
    WhenLayout(HasLoco(h), LocoCodec(), p.loco, LocoBytes);
    WhenLayout(HasHead(h), HeadCodec(), p.head, HeadBytes);
    WhenLayout(HasRight(h), RelativeCodec(), p.right, RelativeBytes);
    WhenLayout(HasLeft(h), RelativeCodec(), p.left, RelativeBytes);
    VirtualsLayout(HasVirtuals(h), p.virtuals);
    var left := Pair(When(HasLeft(h), RelativeCodec()), VirtualsCodec(HasVirtuals(h)));
    var right := Pair(When(HasRight(h), RelativeCodec()), left);
    var head := Pair(When(HasHead(h), HeadCodec()), right);
    PairAt(When(HasLeft(h), RelativeCodec()), VirtualsCodec(HasVirtuals(h)), p.left, p.virtuals);
    PairAt(When(HasRight(h), RelativeCodec()), left, p.right, (p.left, p.virtuals));
    PairAt(When(HasHead(h), HeadCodec()), right, p.head, (p.right, (p.left, p.virtuals)));
    PairAt(When(HasLoco(h), LocoCodec()), head, p.loco, (p.head, (p.right, (p.left, p.virtuals))));
    ReshapeAt(NestedCodec(h), ToPayload, FromPayload, p);
  }

  lemma VirtualsFlagged(h: Header)
    ensures HasVirtuals(h) <==> Flagged(h, 4) && Flagged(h, 32)
  {
    hide Has;
    FlagMasks(h.flags);
  }

  lemma BodyLayout(h: Header, p: Payload)
    requires Matches(h, p)
    ensures BodyCodec().enc((h, p)) == BodyBytes(h, p)
  {
    hide HeaderCodec, PayloadCodec, Depend, HasVirtuals, Flagged, Matches, Little, Each, IfAny;
    VirtualsFlagged(h);
    HeaderLayout(h);
    PayloadLayout(h, p);
    DependAt(HeaderCodec(), Accepts, PayloadCodec, h, p);
    Flatten(Little(h.seqNo, 2), h.flags, h.encoding, PayloadCodec(h).enc(p));
  }

  lemma Flatten(a: Text, b: Byte, c: Byte, d: Text)
    ensures a + ([b] + [c]) + d == a + ([b] + ([c] + d))
  {
  }

  /** Client number, pose time, body. */
  function RoomClientBytes(x: RoomClientValue): Text {
    Little(x.0, 2) + (x.1.0 + BodyBytes(x.1.1.0, x.1.1.1))
  }

  lemma RoomClientLayout(x: RoomClientValue)
    requires Matches(x.1.1.0, x.1.1.1)
    ensures RoomClient().enc(x) == RoomClientBytes(x)
  {
    hide BodyCodec, BodyBytes, Little, Fixed, Matches, Pair;
    BodyLayout(x.1.1.0, x.1.1.1);
    UnsignedLayout(0, x.0, 0);
    DoubleAt(x.1.0);
    PairAt(Float64, BodyCodec(), x.1.0, x.1.1);
    PairAt(Int16, Pair(Float64, BodyCodec()), x.0, x.1);
  }

  lemma DoubleAt(t: Double)
    ensures Float64.enc(t) == t
  {
  }

  /** Sections 5.2 and 5.3. */
  lemma PoseLayouts(device: Text, h: Header, p: Payload, room: Text, time: Double, clients: seq<RoomClientValue>)
    requires Matches(h, p) && forall i :: 0 <= i < |clients| ==> Matches(clients[i].1.1.0, clients[i].1.1.1)
    ensures ClientPose().enc((device, (h, p))) == [11, 8] + (Str8(device) + BodyBytes(h, p))
    ensures RoomPose().enc((room, (time, clients))) ==
              [12, 8] + (Str8(room) + (time + (Little(|clients| % 0x1_0000, 2) + Each(clients, RoomClientBytes))))
  {
    hide Text8, BodyCodec, BodyBytes, RoomClient, RoomClientBytes, Str8, Little, Each, List16, Fixed, Matches, Pair;
    TextLayout(device);
    TextLayout(room);
    BodyLayout(h, p);
    DoubleAt(time);
    forall x | x in clients ensures RoomClient().enc(x) == RoomClientBytes(x) {
      RoomClientLayout(x);
    }
    List16Layout(RoomClient(), clients, RoomClientBytes);
    PairAt(Text8(), BodyCodec(), device, (h, p));
    PairAt(Float64, List16(RoomClient()), time, clients);
    PairAt(Text8(), Pair(Float64, List16(RoomClient())), room, (time, clients));
  }

  /** The handshake of a stealth client: no sequence number, the stealth flag, the default encoding, no parts. */
  function StealthHandshake(device: Text): Text {
    [11, 8] + (Str8(device) + ([0, 0] + ([1] + ([31] + [0]))))
  }

  /**
  A pose message with the derived header is the stealth handshake, byte for byte, if and only if
  its sequence number is 0 and its caller set the stealth bit.
  */
  lemma HandshakeIsStealthPose(device: Text, seqNo: U16, flags: U8, p: Payload)
    requires Matches(DerivedHeader(seqNo, flags), p)
    ensures ClientPose().enc((device, (DerivedHeader(seqNo, flags), p))) == StealthHandshake(device) <==>
              seqNo == 0 && flags % 2 == 1
  {
    hide BodyCodec, Str8, BodyBytes, ClientPose, Matches, DerivedHeader;
    var h := DerivedHeader(seqNo, flags);
    PoseLayouts(device, h, p, [], [0, 0, 0, 0, 0, 0, 0, 0], []);
    SameAfter([11, 8], Str8(device), BodyBytes(h, p), [0, 0] + ([1] + ([31] + [0])));
    StealthBody(seqNo, flags, p);
  }

  lemma StealthBody(seqNo: U16, flags: U8, p: Payload)
    requires Matches(DerivedHeader(seqNo, flags), p)
    ensures BodyBytes(DerivedHeader(seqNo, flags), p) == [0, 0] + ([1] + ([31] + [0])) <==> seqNo == 0 && flags % 2 == 1
  {
    hide BodyBytes, Has, Sanitize, EncodingFlags, Matches;
    var h := DerivedHeader(seqNo, flags);
    StealthHeader(flags);
    if seqNo == 0 && flags % 2 == 1 {
      NoParts(h, p);
    } else {
      BodyStart(h, p);
      var end := [0, 0] + ([1] + ([31] + [0]));
      assert end[0] == 0 && end[1] == 0 && end[2] == 1;
    }
  }

  lemma BodyStart(h: Header, p: Payload)
    ensures |BodyBytes(h, p)| >= 3
    ensures BodyBytes(h, p)[0] == h.seqNo % 256 && BodyBytes(h, p)[1] == h.seqNo / 256 && BodyBytes(h, p)[2] == h.flags
  {
    hide Little, IfAny, Each;
    LittleUnfolds(h.seqNo);
  }

  lemma SameAfter(a: Text, b: Text, c: Text, d: Text)
    ensures a + (b + c) == a + (b + d) <==> c == d
  {
    if a + (b + c) == a + (b + d) {
      assert c == (a + (b + c))[|a| + |b|..] && d == (a + (b + d))[|a| + |b|..];
    }
  }

  /** Sanitised flags are 1 exactly if the stealth bit was set, and then the encoding is the default. */
  lemma StealthHeader(flags: U8)
    ensures Sanitize(flags) == 1 <==> flags % 2 == 1
    ensures flags % 2 == 1 ==> EncodingFlags(Sanitize(flags)) == 31
  {
    hide Bits;
    FlagMasks(flags);
    FlagMasks(1);
    if !Has(flags, STEALTH) {
      SanitizeByBits(flags, STEALTH);
    }
  }

  lemma NoParts(h: Header, p: Payload)
    requires Matches(h, p) && h == Header(0, 1, 31)
    ensures BodyBytes(h, p) == [0, 0] + ([1] + ([31] + [0]))
  {
    hide LocoBytes, HeadBytes, RelativeBytes, Has, Little;
    FlagMasks(1);
    LittleUnfolds(0);
  }

  // ---------------------------------------------------------------- objects

  type ObjectValue = (U32, (U16, (U16, (Double, Head))))

  /** Object id, owner, sequence number, pose time, position and rotation. */
  function ObjectBytes(o: ObjectValue): Text {
    Little(o.0, 4) + (Little(o.1.0, 2) + (Little(o.1.1.0, 2) + (o.1.1.1.0 + HeadBytes(o.1.1.1.1))))
  }

  lemma ObjectLayout(o: ObjectValue)
    ensures RoomObject().enc(o) == ObjectBytes(o)
  {
    hide Little, Fixed, HeadCodec, HeadBytes, Pair;
    HeadLayout(o.1.1.1.1);
    UnsignedLayout(0, o.1.0, o.0);
    UnsignedLayout(0, o.1.1.0, 0);
    DoubleAt(o.1.1.1.0);
    PairAt(Float64, HeadCodec(), o.1.1.1.0, o.1.1.1.1);
    PairAt(Int16, Pair(Float64, HeadCodec()), o.1.1.0, o.1.1.1);
    PairAt(Int16, Pair(Int16, Pair(Float64, HeadCodec())), o.1.0, o.1.1);
    PairAt(Int32, Pair(Int16, Pair(Int16, Pair(Float64, HeadCodec()))), o.0, o.1);
  }

  /** The object messages of section 5. */
  lemma ObjectLayouts(device: Text, id: U32, seqNo: U16, pose: Head, time: Double, objects: seq<ObjectValue>)
    ensures ObjectPose().enc((device, (id, (seqNo, pose)))) ==
              [13, 8] + (Str8(device) + (Little(id, 4) + (Little(seqNo, 2) + HeadBytes(pose))))
    ensures RoomObjects().enc((time, objects)) ==
              [14, 8] + (time + (Little(|objects| % 0x1_0000, 2) + Each(objects, ObjectBytes)))
  {
    hide Text8, Str8, Little, Each, List16, Fixed, HeadCodec, HeadBytes, RoomObject, ObjectBytes, Pair;
    TextLayout(device);
    HeadLayout(pose);
    UnsignedLayout(0, seqNo, id);
    DoubleAt(time);
    forall o: ObjectValue ensures RoomObject().enc(o) == ObjectBytes(o) {
      ObjectLayout(o);
    }
    List16Layout(RoomObject(), objects, ObjectBytes);
    PairAt(Int16, HeadCodec(), seqNo, pose);
    PairAt(Int32, Pair(Int16, HeadCodec()), id, (seqNo, pose));
    PairAt(Text8(), Pair(Int32, Pair(Int16, HeadCodec())), device, (id, (seqNo, pose)));
    PairAt(Float64, List16(RoomObject()), time, objects);
  }

  lemma OwnershipLayouts(device: Text, operation: U8, id: U32, owner: U16, before: U16, reason: U8)
    ensures OwnershipRequest().enc((device, (operation, id))) == [15, 8] + (Str8(device) + ([operation] + Little(id, 4)))
    ensures OwnershipChanged().enc((id, (owner, before))) == [16] + (Little(id, 4) + (Little(owner, 2) + Little(before, 2)))
    ensures OwnershipRejected().enc((id, (owner, reason))) == [17] + (Little(id, 4) + (Little(owner, 2) + [reason]))
  {
    hide Text8, Str8, Little, Fixed;
    TextLayout(device);
    UnsignedLayout(0, owner, id);
    UnsignedLayout(0, before, 0);
    Int8At(operation);
    Int8At(reason);
  }
}
