/**
The serialisers of room poses, calls and variables (src/protocol/protocol_v8.cpp) as the
program runs them: appending field after field to one buffer. Poses start from quantised values.
Each is proved to append exactly the encoding of its format in module Messages, so the laws of
that format hold for the bytes that the loops write.
*/
module MessageOutput {
  import opened Bytes
  import opened Codecs
  import opened Wire
  import opened PoseWire
  import opened BinaryIO
  import Messages
  import Utf8
  import NetworkVariables

  // Grouping of what is appended, so that the buffer can be compared with nested encodings.

  lemma Append3(b: Text, x: Text, y: Text, z: Text)
    ensures b + x + y + z == b + (x + (y + z))
  {
  }

  lemma Append4(b: Text, w: Text, x: Text, y: Text, z: Text)
    ensures b + w + x + y + z == b + (w + (x + (y + z)))
  {
    Append3(b + w, x, y, z);
    assert b + w + (x + (y + z)) == b + (w + (x + (y + z)));
  }

  lemma Append5(b: Text, v: Text, w: Text, x: Text, y: Text, z: Text)
    ensures b + v + w + x + y + z == b + (v + (w + (x + (y + z))))
  {
    Append4(b + v, w, x, y, z);
    assert b + v + (w + (x + (y + z))) == b + (v + (w + (x + (y + z))));
  }

  lemma Append6(b: Text, u: Text, v: Text, w: Text, x: Text, y: Text, z: Text)
    ensures b + u + v + w + x + y + z == b + (u + (v + (w + (x + (y + z)))))
  {
    Append4(b + u + v, w, x, y, z);
    Append3(b, u, v, w + (x + (y + z)));
  }

  method WriteHeader(writer: BinaryWriter, h: Header)
    modifies writer
    ensures writer.buffer == old(writer.buffer) + HeaderCodec().enc(h)
  {
    hide Fixed, Pair, Reshape;
    ReshapeAt(Pair(Int16, Pair(Int8, Int8)), ToHeader, FromHeader, h);
    PairAt(Int8, Int8, h.flags, h.encoding);
    PairAt(Int16, Pair(Int8, Int8), h.seqNo, (h.flags, h.encoding));
    writer.WriteU16(h.seqNo);
    writer.WriteU8(h.flags);
    writer.WriteU8(h.encoding);
    Append3(old(writer.buffer), Int16.enc(h.seqNo), Int8.enc(h.flags), Int8.enc(h.encoding));
  }

  method WriteLoco(writer: BinaryWriter, l: Loco)
    modifies writer
    ensures writer.buffer == old(writer.buffer) + LocoCodec().enc(l)
  {
    hide Fixed, Pair, Reshape;
    ReshapeAt(Four(Signed16, Signed16, Signed16, Signed16), ToLoco, FromLoco, l);
    FourAt(Signed16, Signed16, Signed16, Signed16, l.x, l.y, l.z, l.yaw);
    writer.WriteI16(l.x);
    writer.WriteI16(l.y);
    writer.WriteI16(l.z);
    writer.WriteI16(l.yaw);
    Append4(old(writer.buffer), Signed16.enc(l.x), Signed16.enc(l.y), Signed16.enc(l.z), Signed16.enc(l.yaw));
  }

  method WriteHead(writer: BinaryWriter, h: Head)
    modifies writer
    ensures writer.buffer == old(writer.buffer) + HeadCodec().enc(h)
  {
    hide Fixed, Pair, Reshape;
    ReshapeAt(Four(Signed24, Signed24, Signed24, Int32), ToHead, FromHead, h);
    FourAt(Signed24, Signed24, Signed24, Int32, h.x, h.y, h.z, h.rotation);
    writer.WriteI24(h.x);
    writer.WriteI24(h.y);
    writer.WriteI24(h.z);
    writer.WriteU32(h.rotation);
    Append4(old(writer.buffer), Signed24.enc(h.x), Signed24.enc(h.y), Signed24.enc(h.z), Int32.enc(h.rotation));
  }

  method WriteRelative(writer: BinaryWriter, r: Relative)
    modifies writer
    ensures writer.buffer == old(writer.buffer) + RelativeCodec().enc(r)
  {
    hide Fixed, Pair, Reshape;
    ReshapeAt(Four(Signed16, Signed16, Signed16, Int32), ToRelative, FromRelative, r);
    FourAt(Signed16, Signed16, Signed16, Int32, r.x, r.y, r.z, r.rotation);
    writer.WriteI16(r.x);
    writer.WriteI16(r.y);
    writer.WriteI16(r.z);
    writer.WriteU32(r.rotation);
    Append4(old(writer.buffer), Signed16.enc(r.x), Signed16.enc(r.y), Signed16.enc(r.z), Int32.enc(r.rotation));
  }

  /** One more item at the end. */
  lemma ItemsGrow<T>(c: Codec<T>, xs: seq<T>, i: nat)
    requires i < |xs|
    ensures ItemsEnc(c, xs[..i + 1]) == ItemsEnc(c, xs[..i]) + c.enc(xs[i])
  {
    ItemsSplit(c, xs[..i + 1], i);
    assert xs[..i + 1][..i] == xs[..i] && xs[..i + 1][i..] == [xs[i]];
    assert ItemsEnc(c, [xs[i]]) == c.enc(xs[i]) + ItemsEnc(c, []);
  }

  lemma NoItems<T>(c: Codec<T>, xs: seq<T>)
    ensures ItemsEnc(c, xs[..0]) == []
  {
  }

  method WriteRelatives(writer: BinaryWriter, vs: seq<Relative>)
    modifies writer
    ensures writer.buffer == old(writer.buffer) + ItemsEnc(RelativeCodec(), vs)
  {
    hide RelativeCodec, ItemsEnc;
    NoItems(RelativeCodec(), vs);
    for i := 0 to |vs|
      invariant writer.buffer == old(writer.buffer) + ItemsEnc(RelativeCodec(), vs[..i])
    {
      WriteRelative(writer, vs[i]);
      ItemsGrow(RelativeCodec(), vs, i);
    }
    assert vs[..|vs|] == vs;
  }

  lemma VirtualsBytes(valid: bool, vs: seq<Relative>)
    ensures VirtualsCodec(valid).enc(vs) ==
              Int8.enc(|Capped(valid, vs)|) + ItemsEnc(RelativeCodec(), Capped(valid, vs))
  {
    hide Fixed, RelativeCodec, Depend, Reshape, ItemsEnc;
    var kept := Capped(valid, vs);
    ReshapeAt(Depend(Int8, Always, Upto50), KeepIf(valid), CutIf(valid), vs);
    DependAt(Int8, Always, Upto50, |kept|, kept);
  }

  method WriteVirtuals(writer: BinaryWriter, valid: bool, vs: seq<Relative>)
    modifies writer
    ensures writer.buffer == old(writer.buffer) + VirtualsCodec(valid).enc(vs)
  {
    hide Fixed, RelativeCodec, VirtualsCodec, ItemsEnc;
    VirtualsBytes(valid, vs);
    var count: nat := 0;
    if valid {
      count := Min(|vs|, MAX_VIRTUALS);
    }
    assert vs[..count] == Capped(valid, vs);
    writer.WriteU8(count);
    WriteRelatives(writer, vs[..count]);
  }

  lemma WhenWrites<T>(present: bool, c: Codec<T>, x: Option<T>)
    requires x.Some? <==> present
    ensures When(present, c).enc(x) == if present then c.enc(x.value) else []
  {
  }

  lemma PayloadBytes(h: Header, p: Payload)
    ensures PayloadCodec(h).enc(p) ==
              When(HasLoco(h), LocoCodec()).enc(p.loco)
              + (When(HasHead(h), HeadCodec()).enc(p.head)
                 + (When(HasRight(h), RelativeCodec()).enc(p.right)
                    + (When(HasLeft(h), RelativeCodec()).enc(p.left) + VirtualsCodec(HasVirtuals(h)).enc(p.virtuals))))
  {
    hide LocoCodec, HeadCodec, RelativeCodec, VirtualsCodec, When, Pair, Reshape;
    ReshapeAt(NestedCodec(h), ToPayload, FromPayload, p);
    var left := Pair(When(HasLeft(h), RelativeCodec()), VirtualsCodec(HasVirtuals(h)));
    var right := Pair(When(HasRight(h), RelativeCodec()), left);
    var head := Pair(When(HasHead(h), HeadCodec()), right);
    PairAt(When(HasLeft(h), RelativeCodec()), VirtualsCodec(HasVirtuals(h)), p.left, p.virtuals);
    PairAt(When(HasRight(h), RelativeCodec()), left, p.right, (p.left, p.virtuals));
    PairAt(When(HasHead(h), HeadCodec()), right, p.head, (p.right, (p.left, p.virtuals)));
    PairAt(When(HasLoco(h), LocoCodec()), head, p.loco, (p.head, (p.right, (p.left, p.virtuals))));
  }

  /** write_pose_body, after quantising. */
  method WritePoseBody(writer: BinaryWriter, h: Header, p: Payload)
    requires Matches(h, p)
    modifies writer
    ensures writer.buffer == old(writer.buffer) + BodyCodec().enc((h, p))
  {
    hide HeaderCodec, LocoCodec, HeadCodec, RelativeCodec, VirtualsCodec, When, PayloadCodec, Depend, Has;
    DependAt(HeaderCodec(), Accepts, PayloadCodec, h, p);
    PayloadBytes(h, p);
    WhenWrites(HasLoco(h), LocoCodec(), p.loco);
    WhenWrites(HasHead(h), HeadCodec(), p.head);
    WhenWrites(HasRight(h), RelativeCodec(), p.right);
    WhenWrites(HasLeft(h), RelativeCodec(), p.left);
    WriteHeader(writer, h);
    ghost var b1 := writer.buffer;
    if HasLoco(h) {
      WriteLoco(writer, p.loco.value);
    }
    ghost var b2 := writer.buffer;
    assert b2 == b1 + When(HasLoco(h), LocoCodec()).enc(p.loco);
    if HasHead(h) {
      WriteHead(writer, p.head.value);
    }
    ghost var b3 := writer.buffer;
    assert b3 == b2 + When(HasHead(h), HeadCodec()).enc(p.head);
    if HasRight(h) {
      WriteRelative(writer, p.right.value);
    }
    ghost var b4 := writer.buffer;
    assert b4 == b3 + When(HasRight(h), RelativeCodec()).enc(p.right);
    if HasLeft(h) {
      WriteRelative(writer, p.left.value);
    }
    ghost var b5 := writer.buffer;
    assert b5 == b4 + When(HasLeft(h), RelativeCodec()).enc(p.left);
    WriteVirtuals(writer, HasVirtuals(h), p.virtuals);
    Append6(old(writer.buffer), HeaderCodec().enc(h), When(HasLoco(h), LocoCodec()).enc(p.loco),
            When(HasHead(h), HeadCodec()).enc(p.head), When(HasRight(h), RelativeCodec()).enc(p.right),
            When(HasLeft(h), RelativeCodec()).enc(p.left), VirtualsCodec(HasVirtuals(h)).enc(p.virtuals));
  }

  method WriteRoomClients(writer: BinaryWriter, clients: seq<Messages.RoomClientValue>)
    requires forall i :: 0 <= i < |clients| ==> Matches(clients[i].1.1.0, clients[i].1.1.1)
    modifies writer
    ensures writer.buffer == old(writer.buffer) + ItemsEnc(Messages.RoomClient(), clients)
  {
    hide Messages.RoomClient, ItemsEnc, Matches;
    NoItems(Messages.RoomClient(), clients);
    for i := 0 to |clients|
      invariant writer.buffer == old(writer.buffer) + ItemsEnc(Messages.RoomClient(), clients[..i])
    {
      WriteRoomClient(writer, clients[i]);
      ItemsGrow(Messages.RoomClient(), clients, i);
    }
    assert clients[..|clients|] == clients;
  }

  lemma RoomPoseBytes(room: Text, time: Double, clients: seq<Messages.RoomClientValue>)
    ensures Messages.RoomPose().enc((room, (time, clients))) ==
              [12, 8] + (Text8().enc(room) + (Float64.enc(time)
                         + (Int16.enc(|clients| % 0x1_0000) + ItemsEnc(Messages.RoomClient(), clients))))
  {
    hide Fixed, Pair, Reshape, Depend, Text8, Messages.RoomClient, ItemsEnc;
    var c := Messages.RoomClient();
    PairAt(Float64, List16(c), time, clients);
    PairAt(Text8(), Pair(Float64, List16(c)), room, (time, clients));
    ReshapeAt(Depend(Int16, Always, Items16(c)), Second, Counted16, clients);
    DependAt(Int16, Always, Items16(c), Counted16(clients).0, clients);
  }

  /** serialize_room_pose, from quantised bodies. */
  method SerializeRoomPose(room: Text, time: Double, clients: seq<Messages.RoomClientValue>) returns (r: Text)
    requires forall i :: 0 <= i < |clients| ==> Matches(clients[i].1.1.0, clients[i].1.1.1)
    ensures r == Messages.RoomPose().enc((room, (time, clients)))
  {
    hide Fixed, Text8, Messages.RoomPose, Messages.RoomClient, ItemsEnc, Matches;
    RoomPoseBytes(room, time, clients);
    var writer := new BinaryWriter();
    TypeAndVersion();
    writer.WriteU8(12);
    writer.WriteU8(8);
    assert writer.buffer == [12, 8];
    writer.WriteString8(room);
    writer.WriteF64(time);
    writer.WriteU16(|clients| % 0x1_0000);
    WriteRoomClients(writer, clients);
    r := writer.buffer;
    Append4([12, 8], Text8().enc(room), Float64.enc(time), Int16.enc(|clients| % 0x1_0000),
            ItemsEnc(Messages.RoomClient(), clients));
  }

  lemma TypeAndVersion()
    ensures Int8.enc(12) == [12] && Int8.enc(8) == [8]
  {
  }

  method WriteRoomClient(writer: BinaryWriter, v: Messages.RoomClientValue)
    requires Matches(v.1.1.0, v.1.1.1)
    modifies writer
    ensures writer.buffer == old(writer.buffer) + Messages.RoomClient().enc(v)
  {
    hide Fixed, Pair, BodyCodec, Matches;
    PairAt(Float64, BodyCodec(), v.1.0, v.1.1);
    PairAt(Int16, Pair(Float64, BodyCodec()), v.0, v.1);
    writer.WriteU16(v.0);
    writer.WriteF64(v.1.0);
    WritePoseBody(writer, v.1.1.0, v.1.1.1);
    Append3(old(writer.buffer), Int16.enc(v.0), Float64.enc(v.1.0), BodyCodec().enc(v.1.1));
  }

  // ---------------------------------------------------------------- variables

  type Variable = (Text, (Text, U16))

  /** The name and value that every variable message carries. */
  method WriteNameAndValue(writer: BinaryWriter, name: Text, value: Text)
    modifies writer
    ensures writer.buffer == old(writer.buffer) + Messages.NameText().enc(name) + Messages.ValueText().enc(value)
  {
    hide Text8, Text16, Reshape, Utf8.CodePointCut;
    ReshapeAt(Text8(), Same, Messages.ClampName, name);
    ReshapeAt(Text16(), Same, Messages.ClampValue, value);
    var n := Utf8.TruncateCodePoints(name, NetworkVariables.MAX_NAME_CHARS);
    writer.WriteString8(n);
    var v := Utf8.TruncateCodePoints(value, NetworkVariables.MAX_VALUE_CHARS);
    writer.WriteString16(v);
  }

  method WriteVariable(writer: BinaryWriter, e: Variable)
    modifies writer
    ensures writer.buffer == old(writer.buffer) + Messages.VariableEntry().enc(e)
  {
    hide Fixed, Pair, Messages.NameText, Messages.ValueText;
    PairAt(Messages.ValueText(), Int16, e.1.0, e.1.1);
    PairAt(Messages.NameText(), Pair(Messages.ValueText(), Int16), e.0, e.1);
    WriteNameAndValue(writer, e.0, e.1.0);
    writer.WriteU16(e.1.1);
    Append3(old(writer.buffer), Messages.NameText().enc(e.0), Messages.ValueText().enc(e.1.0), Int16.enc(e.1.1));
  }

  /** A list with its wrapping 16-bit count. */
  lemma List16Bytes<T>(c: Codec<T>, xs: seq<T>)
    ensures List16(c).enc(xs) == Int16.enc(|xs| % 0x1_0000) + ItemsEnc(c, xs)
  {
    hide Fixed, Depend, Reshape, ItemsEnc;
    ReshapeAt(Depend(Int16, Always, Items16(c)), Second, Counted16, xs);
    DependAt(Int16, Always, Items16(c), Counted16(xs).0, xs);
  }

  method WriteVariables(writer: BinaryWriter, es: seq<Variable>)
    modifies writer
    ensures writer.buffer == old(writer.buffer) + List16(Messages.VariableEntry()).enc(es)
  {
    hide Messages.VariableEntry, ItemsEnc, Fixed, List16;
    List16Bytes(Messages.VariableEntry(), es);
    NoItems(Messages.VariableEntry(), es);
    writer.WriteU16(|es| % 0x1_0000);
    ghost var start := writer.buffer;
    for i := 0 to |es|
      invariant writer.buffer == start + ItemsEnc(Messages.VariableEntry(), es[..i])
    {
      WriteVariable(writer, es[i]);
      ItemsGrow(Messages.VariableEntry(), es, i);
    }
    assert es[..|es|] == es;
  }

  type Block = (U16, seq<Variable>)

  function BlockCodec(): Codec<Block> {
    Pair(Int16, List16(Messages.VariableEntry()))
  }

  method WriteBlock(writer: BinaryWriter, b: Block)
    modifies writer
    ensures writer.buffer == old(writer.buffer) + BlockCodec().enc(b)
  {
    hide Fixed, Pair, Messages.VariableEntry, List16;
    PairAt(Int16, List16(Messages.VariableEntry()), b.0, b.1);
    writer.WriteU16(b.0);
    WriteVariables(writer, b.1);
  }

  lemma ClientVarSyncBytes(blocks: seq<Block>)
    ensures Messages.ClientVarSync().enc(blocks) == [10] + (Int16.enc(|blocks| % 0x1_0000) + ItemsEnc(BlockCodec(), blocks))
  {
    hide Fixed, Pair, Messages.VariableEntry, List16, ItemsEnc;
    List16Bytes(BlockCodec(), blocks);
  }

  /** serialize_client_var_sync. */
  method SerializeClientVarSync(blocks: seq<Block>) returns (r: Text)
    ensures r == Messages.ClientVarSync().enc(blocks)
  {
    hide Fixed, BlockCodec, Messages.ClientVarSync, ItemsEnc;
    ClientVarSyncBytes(blocks);
    NoItems(BlockCodec(), blocks);
    var writer := new BinaryWriter();
    OneByte(10);
    writer.WriteU8(10);
    writer.WriteU16(|blocks| % 0x1_0000);
    ghost var start := writer.buffer;
    for i := 0 to |blocks|
      invariant writer.buffer == start + ItemsEnc(BlockCodec(), blocks[..i])
    {
      WriteBlock(writer, blocks[i]);
      ItemsGrow(BlockCodec(), blocks, i);
    }
    assert blocks[..|blocks|] == blocks;
    r := writer.buffer;
  }

  lemma OneByte(b: U8)
    ensures Int8.enc(b) == [b]
  {
  }

  lemma GlobalVarSetBytes(sender: U16, device: Text, name: Text, value: Text)
    ensures Messages.GlobalVarSet().enc((sender, (device, (name, value))))
         == [7] + (Int16.enc(sender) + (Text8().enc(device) + (Messages.NameText().enc(name) + Messages.ValueText().enc(value))))
  {
    hide Fixed, Pair, Text8, Messages.NameText, Messages.ValueText;
    PairAt(Messages.NameText(), Messages.ValueText(), name, value);
    PairAt(Text8(), Pair(Messages.NameText(), Messages.ValueText()), device, (name, value));
    PairAt(Int16, Pair(Text8(), Pair(Messages.NameText(), Messages.ValueText())), sender, (device, (name, value)));
  }

  /** serialize_global_var_set. */
  method SerializeGlobalVarSet(sender: U16, device: Text, name: Text, value: Text) returns (r: Text)
    ensures r == Messages.GlobalVarSet().enc((sender, (device, (name, value))))
  {
    hide Int8, Int16, Text8, Messages.NameText, Messages.ValueText, Messages.GlobalVarSet;
    GlobalVarSetBytes(sender, device, name, value);
    var writer := new BinaryWriter();
    OneByte(7);
    writer.WriteU8(7);
    assert writer.buffer == [7];
    writer.WriteU16(sender);
    writer.WriteString8(device);
    WriteNameAndValue(writer, name, value);
    r := writer.buffer;
    Append4([7], Int16.enc(sender), Text8().enc(device), Messages.NameText().enc(name), Messages.ValueText().enc(value));
  }

  // ---------------------------------------------------------------- calls

  lemma RpcBytes(sender: U16, device: Text, targets: seq<U16>, name: Text, arguments: Text)
    ensures Messages.Rpc().enc((sender, (device, (targets, (name, arguments)))))
         == [3] + (Int16.enc(sender) + (Text8().enc(device)
              + (List8(Int16).enc(targets) + (Text8().enc(name) + Text16().enc(arguments)))))
  {
    hide Fixed, Pair, Text8, Text16, List8;
    PairAt(Text8(), Text16(), name, arguments);
    PairAt(List8(Int16), Pair(Text8(), Text16()), targets, (name, arguments));
    PairAt(Text8(), Pair(List8(Int16), Pair(Text8(), Text16())), device, (targets, (name, arguments)));
    PairAt(Int16, Pair(Text8(), Pair(List8(Int16), Pair(Text8(), Text16()))), sender, (device, (targets, (name, arguments))));
  }

  /** A list of at most 255 items with its 8-bit count. */
  lemma List8Bytes<T>(c: Codec<T>, xs: seq<T>)
    ensures List8(c).enc(xs) == Int8.enc(Min(|xs|, 255)) + ItemsEnc(c, xs[..Min(|xs|, 255)])
  {
    hide Fixed, Depend, Reshape, ItemsEnc;
    ReshapeAt(Depend(Int8, Always, Items8(c)), Second, Counted8, xs);
    DependAt(Int8, Always, Items8(c), Counted8(xs).0, Counted8(xs).1);
  }

  /** The loop of serialize_rpc over its targets. */
  method WriteTargets(writer: BinaryWriter, targets: seq<U16>)
    modifies writer
    ensures writer.buffer == old(writer.buffer) + List8(Int16).enc(targets)
  {
    hide Int8, Int16, List8, ItemsEnc;
    List8Bytes(Int16, targets);
    var count := Min(|targets|, 255);
    ghost var kept := targets[..count];
    NoItems(Int16, kept);
    writer.WriteU8(count);
    ghost var start := writer.buffer;
    for i := 0 to count
      invariant writer.buffer == start + ItemsEnc(Int16, kept[..i])
    {
      writer.WriteU16(targets[i]);
      ItemsGrow(Int16, kept, i);
    }
    assert kept[..count] == kept;
  }

  /** serialize_rpc. */
  method SerializeRpc(sender: U16, device: Text, targets: seq<U16>, name: Text, arguments: Text) returns (r: Text)
    ensures r == Messages.Rpc().enc((sender, (device, (targets, (name, arguments)))))
  {
    hide Int8, Int16, Text8, Text16, List8, Messages.Rpc;
    RpcBytes(sender, device, targets, name, arguments);
    var writer := new BinaryWriter();
    OneByte(3);
    writer.WriteU8(3);
    assert writer.buffer == [3];
    writer.WriteU16(sender);
    writer.WriteString8(device);
    WriteTargets(writer, targets);
    writer.WriteString8(name);
    writer.WriteString16(arguments);
    r := writer.buffer;
    Append5([3], Int16.enc(sender), Text8().enc(device), List8(Int16).enc(targets), Text8().enc(name), Text16().enc(arguments));
  }
}
