/**
The richest deserialisers of src/protocol/protocol_v8.cpp as the program runs them: advancing a
cursor, with early exits. Each is proved to be the format of module Messages, and so inherits
its laws: it accepts exactly what the format accepts, never reads out of bounds, and gives back what
the format gives back, whatever the bytes are.
*/
module MessageIO {
  import opened Bytes
  import opened Codecs
  import opened Wire
  import opened PoseWire
  import opened BinaryIO
  import Messages

  // ---------------------------------------------------------------- reading lists

  lemma ReadsWhen<T(!new)>(present: bool, c: Codec<T>, was: bool, a: Text, now: bool, r: Text, x: Option<T>)
    requires if present then x.Some? && Reads(c, was, a, now, r, x.value) else x.None? && now == was && r == a
    ensures Reads(When(present, c), was, a, now, r, x)
  {
  }

  lemma ReadsHeaded<T(!new)>(prefix: Text, c: Codec<T>, a: Text, now: bool, r: Text, x: T)
    requires prefix <= a && Reads(c, true, a[|prefix|..], now, r, x)
    ensures Reads(Headed(prefix, c), true, a, now, r, x)
  {
  }

  // ---------------------------------------------------------------- pose bodies

  method ReadRelative(reader: BinaryReader) returns (v: Relative)
    requires reader.Valid()
    modifies reader
    ensures reader.Valid() && Reads(RelativeCodec(), old(reader.ok), old(reader.Rest()), reader.ok, reader.Rest(), v)
  {
    hide Reads, Pair, Reshape, Fixed;
    ghost var ok0, a := reader.ok, reader.Rest();
    var x := reader.ReadI16();
    ghost var ok1, b := reader.ok, reader.Rest();
    var y := reader.ReadI16();
    ghost var ok2, c := reader.ok, reader.Rest();
    var z := reader.ReadI16();
    ghost var ok3, d := reader.ok, reader.Rest();
    var rotation := reader.ReadU32();
    ghost var ok4, e := reader.ok, reader.Rest();
    v := Relative(x, y, z, rotation);
    ReadsPair(Signed16, Int32, ok2, c, ok3, d, z, ok4, e, rotation);
    ReadsPair(Signed16, Pair(Signed16, Int32), ok1, b, ok2, c, y, ok4, e, (z, rotation));
    ReadsPair(Signed16, Pair(Signed16, Pair(Signed16, Int32)), ok0, a, ok1, b, x, ok4, e, (y, (z, rotation)));
    ReadsReshape(Four(Signed16, Signed16, Signed16, Int32), ToRelative, FromRelative, ok0, a, ok4, e, (x, (y, (z, rotation))));
  }

  method ReadLoco(reader: BinaryReader) returns (v: Loco)
    requires reader.Valid()
    modifies reader
    ensures reader.Valid() && Reads(LocoCodec(), old(reader.ok), old(reader.Rest()), reader.ok, reader.Rest(), v)
  {
    hide Reads, Pair, Reshape, Fixed;
    ghost var ok0, a := reader.ok, reader.Rest();
    var x := reader.ReadI16();
    ghost var ok1, b := reader.ok, reader.Rest();
    var y := reader.ReadI16();
    ghost var ok2, c := reader.ok, reader.Rest();
    var z := reader.ReadI16();
    ghost var ok3, d := reader.ok, reader.Rest();
    var yaw := reader.ReadI16();
    ghost var ok4, e := reader.ok, reader.Rest();
    v := Loco(x, y, z, yaw);
    ReadsPair(Signed16, Signed16, ok2, c, ok3, d, z, ok4, e, yaw);
    ReadsPair(Signed16, Pair(Signed16, Signed16), ok1, b, ok2, c, y, ok4, e, (z, yaw));
    ReadsPair(Signed16, Pair(Signed16, Pair(Signed16, Signed16)), ok0, a, ok1, b, x, ok4, e, (y, (z, yaw)));
    ReadsReshape(Four(Signed16, Signed16, Signed16, Signed16), ToLoco, FromLoco, ok0, a, ok4, e, (x, (y, (z, yaw))));
  }

  method ReadHead(reader: BinaryReader) returns (v: Head)
    requires reader.Valid()
    modifies reader
    ensures reader.Valid() && Reads(HeadCodec(), old(reader.ok), old(reader.Rest()), reader.ok, reader.Rest(), v)
  {
    hide Reads, Pair, Reshape, Fixed;
    ghost var ok0, a := reader.ok, reader.Rest();
    var x := reader.ReadI24();
    ghost var ok1, b := reader.ok, reader.Rest();
    var y := reader.ReadI24();
    ghost var ok2, c := reader.ok, reader.Rest();
    var z := reader.ReadI24();
    ghost var ok3, d := reader.ok, reader.Rest();
    var rotation := reader.ReadU32();
    ghost var ok4, e := reader.ok, reader.Rest();
    v := Head(x, y, z, rotation);
    ReadsPair(Signed24, Int32, ok2, c, ok3, d, z, ok4, e, rotation);
    ReadsPair(Signed24, Pair(Signed24, Int32), ok1, b, ok2, c, y, ok4, e, (z, rotation));
    ReadsPair(Signed24, Pair(Signed24, Pair(Signed24, Int32)), ok0, a, ok1, b, x, ok4, e, (y, (z, rotation)));
    ReadsReshape(Four(Signed24, Signed24, Signed24, Int32), ToHead, FromHead, ok0, a, ok4, e, (x, (y, (z, rotation))));
  }

  method ReadHeader(reader: BinaryReader) returns (v: Header)
    requires reader.Valid()
    modifies reader
    ensures reader.Valid() && Reads(HeaderCodec(), old(reader.ok), old(reader.Rest()), reader.ok, reader.Rest(), v)
  {
    hide Reads, Pair, Reshape, Fixed;
    ghost var ok0, a := reader.ok, reader.Rest();
    var seqNo := reader.ReadU16();
    ghost var ok1, b := reader.ok, reader.Rest();
    var flags := reader.ReadU8();
    ghost var ok2, c := reader.ok, reader.Rest();
    var encoding := reader.ReadU8();
    ghost var ok3, d := reader.ok, reader.Rest();
    v := Header(seqNo, flags, encoding);
    ReadsPair(Int8, Int8, ok1, b, ok2, c, flags, ok3, d, encoding);
    ReadsPair(Int16, Pair(Int8, Int8), ok0, a, ok1, b, seqNo, ok3, d, (flags, encoding));
    ReadsReshape(Pair(Int16, Pair(Int8, Int8)), ToHeader, FromHeader, ok0, a, ok3, d, (seqNo, (flags, encoding)));
  }

  /** The counted virtual list: capped at fifty, and dropped when the flag is off. */
  method ReadVirtuals(reader: BinaryReader, valid: bool) returns (ok: bool, vs: seq<Relative>)
    requires reader.Valid()
    modifies reader
    ensures reader.Valid() && Reads(VirtualsCodec(valid), old(reader.ok), old(reader.Rest()), ok, reader.Rest(), vs)
    ensures ok ==> reader.ok
  {
    hide Reads, RelativeCodec, Depend, Reshape, Items, Fixed;
    ghost var ok0, a := reader.ok, reader.Rest();
    var count := reader.ReadU8();
    ghost var ok1, b := reader.ok, reader.Rest();
    var list := Depend(Int8, Always, Upto50);
    if !reader.ok {
      vs := [];
      VirtualsStop(valid, ok0, a, b, count);
      return false, [];
    }
    var n := Min(count, MAX_VIRTUALS);
    var all: seq<Relative> := [];
    vs := [];
    ReadsNoItem(RelativeCodec(), reader.ok, b);
    for i := 0 to n
      invariant reader.Valid() && reader.ok
      invariant vs == if valid then all else []
      invariant Reads(Items(RelativeCodec(), i), ok1, b, reader.ok, reader.Rest(), all)
    {
      ghost var mid, m := reader.ok, reader.Rest();
      var entry := ReadRelative(reader);
      ReadsItem(RelativeCodec(), i, ok1, b, mid, m, all, reader.ok, reader.Rest(), entry);
      all := all + [entry];
      if !reader.ok {
        ItemsStop(RelativeCodec(), i + 1, n, b, reader.Rest(), all);
        VirtualsRead(valid, ok0, a, ok1, b, count, false, reader.Rest(), all);
        return false, KeepIf(valid)((count, all));
      }
      if valid {
        vs := vs + [entry];
      }
    }
    VirtualsRead(valid, ok0, a, ok1, b, count, reader.ok, reader.Rest(), all);
    ok := reader.ok;
  }

  lemma ItemsStop<T(!new)>(c: Codec<T>, n: nat, total: nat, a: Text, r: Text, xs: seq<T>)
    requires n <= total && Reads(Items(c, n), true, a, false, r, xs)
    ensures forall r', xs' :: Reads(Items(c, total), true, a, false, r', xs')
  {
    ItemsFail(c, n, total, a);
  }

  lemma VirtualsRead(valid: bool, was: bool, a: Text, mid: bool, b: Text, count: U8, now: bool, r: Text, all: seq<Relative>)
    requires Reads(Int8, was, a, mid, b, count) && mid
    requires Reads(Items(RelativeCodec(), Min(count, MAX_VIRTUALS)), mid, b, now, r, all)
    ensures Reads(VirtualsCodec(valid), was, a, now, r, if valid then all else [])
  {
    hide Reads, RelativeCodec, Depend, Reshape, Items, Fixed;
    ReadsDepend(Int8, Always, Upto50, was, a, mid, b, count, now, r, all);
    ReadsReshape(Depend(Int8, Always, Upto50), KeepIf(valid), CutIf(valid), was, a, now, r, (count, all));
  }

  lemma VirtualsStop(valid: bool, was: bool, a: Text, b: Text, count: U8)
    requires Reads(Int8, was, a, false, b, count)
    ensures Reads(VirtualsCodec(valid), was, a, false, b, [])
  {
    hide RelativeCodec, Reshape, Items, Fixed;
    ReadsDepend(Int8, Always, Upto50, was, a, false, b, count, false, b, []);
    ReadsReshape(Depend(Int8, Always, Upto50), KeepIf(valid), CutIf(valid), was, a, false, b, (count, []));
  }

  lemma ReadsSkipped<T(!new)>(c: Codec<T>, a: Text, r: Text, x: T)
    ensures Reads(c, false, a, false, r, x)
  {
  }

  /** The parts of a body, read one after the other. */
  lemma BodyReads(h: Header, p: Payload, was: bool, a: Text, ok1: bool, b: Text, ok2: bool, c: Text, ok3: bool, d: Text,
                  ok4: bool, e: Text, ok5: bool, f: Text, now: bool, r: Text)
    requires Reads(HeaderCodec(), was, a, ok1, b, h) && ok1 && Accepts(h)
    requires Reads(When(HasLoco(h), LocoCodec()), ok1, b, ok2, c, p.loco)
    requires Reads(When(HasHead(h), HeadCodec()), ok2, c, ok3, d, p.head)
    requires Reads(When(HasRight(h), RelativeCodec()), ok3, d, ok4, e, p.right)
    requires Reads(When(HasLeft(h), RelativeCodec()), ok4, e, ok5, f, p.left)
    requires Reads(VirtualsCodec(HasVirtuals(h)), ok5, f, now, r, p.virtuals)
    ensures Reads(BodyCodec(), was, a, now, r, (h, p))
  {
    hide Reads, Pair, Reshape, Depend, When, HeaderCodec, LocoCodec, HeadCodec, RelativeCodec, VirtualsCodec;
    var left := Pair(When(HasLeft(h), RelativeCodec()), VirtualsCodec(HasVirtuals(h)));
    var right := Pair(When(HasRight(h), RelativeCodec()), left);
    var head := Pair(When(HasHead(h), HeadCodec()), right);
    ReadsPair(When(HasLeft(h), RelativeCodec()), VirtualsCodec(HasVirtuals(h)), ok4, e, ok5, f, p.left, now, r, p.virtuals);
    ReadsPair(When(HasRight(h), RelativeCodec()), left, ok3, d, ok4, e, p.right, now, r, (p.left, p.virtuals));
    ReadsPair(When(HasHead(h), HeadCodec()), right, ok2, c, ok3, d, p.head, now, r, (p.right, (p.left, p.virtuals)));
    ReadsPair(When(HasLoco(h), LocoCodec()), head, ok1, b, ok2, c, p.loco, now, r,
              (p.head, (p.right, (p.left, p.virtuals))));
    ReadsReshape(NestedCodec(h), ToPayload, FromPayload, ok1, b, now, r, FromPayload(p));
    ReadsDepend(HeaderCodec(), Accepts, PayloadCodec, was, a, ok1, b, h, now, r, p);
  }

  /** A header that cannot be read or is not acceptable ends the body. */
  lemma BodyStops(h: Header, p: Payload, was: bool, a: Text, ok1: bool, b: Text, r: Text)
    requires Reads(HeaderCodec(), was, a, ok1, b, h) && (ok1 ==> !Accepts(h))
    ensures Reads(BodyCodec(), was, a, false, r, (h, p))
  {
  }

  method ReadOptionalRelative(reader: BinaryReader, present: bool) returns (v: Option<Relative>)
    requires reader.Valid()
    modifies reader
    ensures reader.Valid()
    ensures Reads(When(present, RelativeCodec()), old(reader.ok), old(reader.Rest()), reader.ok, reader.Rest(), v)
  {
    hide Reads, RelativeCodec;
    v := None;
    if present {
      var x := ReadRelative(reader);
      v := Some(x);
    }
    ReadsWhen(present, RelativeCodec(), old(reader.ok), old(reader.Rest()), reader.ok, reader.Rest(), v);
  }

  /** read_pose_body, before dequantising. */
  method ReadPoseBody(reader: BinaryReader) returns (ok: bool, h: Header, p: Payload)
    requires reader.Valid()
    modifies reader
    ensures reader.Valid() && Reads(BodyCodec(), old(reader.ok), old(reader.Rest()), ok, reader.Rest(), (h, p))
    ensures ok ==> reader.ok
  {
    hide Reads, When, HeaderCodec, LocoCodec, HeadCodec, RelativeCodec, VirtualsCodec, BodyCodec, Has;
    ghost var was, a := reader.ok, reader.Rest();
    h := ReadHeader(reader);
    ghost var ok1, b := reader.ok, reader.Rest();
    p := Payload(None, None, None, None, []);
    if !reader.ok {
      BodyStops(h, p, was, a, ok1, b, b);
      return false, h, p;
    }
    if HasLoco(h) {
      if !Has(h.flags, MOVING_FLOOR_LOCAL) && !Has(h.encoding, PHYSICAL_IS_XRORIGIN_DELTA) {
        BodyStops(h, p, was, a, ok1, b, b);
        return false, h, p;
      }
      var loco := ReadLoco(reader);
      p := p.(loco := Some(loco));
    }
    ghost var ok2, c := reader.ok, reader.Rest();
    ReadsWhen(HasLoco(h), LocoCodec(), ok1, b, ok2, c, p.loco);
    if HasHead(h) {
      var head := ReadHead(reader);
      p := p.(head := Some(head));
    }
    ghost var ok3, d := reader.ok, reader.Rest();
    ReadsWhen(HasHead(h), HeadCodec(), ok2, c, ok3, d, p.head);
    if HasHead(h) && !reader.ok {
      ReadsSkipped(When(HasRight(h), RelativeCodec()), d, d, p.right);
      ReadsSkipped(When(HasLeft(h), RelativeCodec()), d, d, p.left);
      ReadsSkipped(VirtualsCodec(HasVirtuals(h)), d, d, p.virtuals);
      BodyReads(h, p, was, a, ok1, b, ok2, c, ok3, d, false, d, false, d, false, d);
      return false, h, p;
    }
    var right := ReadOptionalRelative(reader, HasRight(h));
    ghost var ok4, e := reader.ok, reader.Rest();
    var left := ReadOptionalRelative(reader, HasLeft(h));
    ghost var ok5, f := reader.ok, reader.Rest();
    var virtuals;
    ok, virtuals := ReadVirtuals(reader, HasVirtuals(h));
    p := p.(right := right, left := left, virtuals := virtuals);
    BodyReads(h, p, was, a, ok1, b, ok2, c, ok3, d, ok4, e, ok5, f, ok, reader.Rest());
  }

  // ---------------------------------------------------------------- room poses

  /** One record of a room pose. */
  method ReadRoomClient(reader: BinaryReader) returns (ok: bool, v: Messages.RoomClientValue)
    requires reader.Valid()
    modifies reader
    ensures reader.Valid() && Reads(Messages.RoomClient(), old(reader.ok), old(reader.Rest()), ok, reader.Rest(), v)
    ensures ok ==> reader.ok
  {
    hide Reads, Pair, BodyCodec, Fixed;
    ghost var ok0, a := reader.ok, reader.Rest();
    var clientNo := reader.ReadU16();
    ghost var ok1, b := reader.ok, reader.Rest();
    var poseTime := reader.ReadF64();
    ghost var ok2, c := reader.ok, reader.Rest();
    var h, p := Header(0, 0, 0), Payload(None, None, None, None, []);
    if reader.ok {
      ok, h, p := ReadPoseBody(reader);
    } else {
      ok := false;
      ReadsSkipped(BodyCodec(), c, c, (h, p));
    }
    v := (clientNo, (poseTime, (h, p)));
    ReadsPair(Float64, BodyCodec(), ok1, b, ok2, c, poseTime, ok, reader.Rest(), (h, p));
    ReadsPair(Int16, Pair(Float64, BodyCodec()), ok0, a, ok1, b, clientNo, ok, reader.Rest(), (poseTime, (h, p)));
  }

  lemma List16Reads<T(!new)>(c: Codec<T>, was: bool, a: Text, mid: bool, b: Text, count: U16, now: bool, r: Text, xs: seq<T>)
    requires Reads(Int16, was, a, mid, b, count)
    requires if mid then Reads(Items(c, count), mid, b, now, r, xs) else !now
    ensures Reads(List16(c), was, a, now, r, xs)
  {
    hide Reads, Reshape, Depend, Items, Fixed;
    ReadsDepend(Int16, Always, Items16(c), was, a, mid, b, count, now, r, xs);
    ReadsReshape(Depend(Int16, Always, Items16(c)), Second, Counted16, was, a, now, r, (count, xs));
  }

  /** The fields of a room pose after the type and version bytes. */
  lemma RoomPoseReads(a: Text, ok1: bool, b: Text, room: Text, ok2: bool, c: Text, time: Double, now: bool, r: Text,
                      clients: seq<Messages.RoomClientValue>)
    requires Reads(Text8(), true, a, ok1, b, room) && Reads(Float64, ok1, b, ok2, c, time)
    requires Reads(List16(Messages.RoomClient()), ok2, c, now, r, clients)
    ensures Reads(Pair(Text8(), Pair(Float64, List16(Messages.RoomClient()))), true, a, now, r, (room, (time, clients)))
  {
    hide Reads, Pair, Text8, List16, Messages.RoomClient, Fixed;
    ReadsPair(Float64, List16(Messages.RoomClient()), ok1, b, ok2, c, time, now, r, clients);
    ReadsPair(Text8(), Pair(Float64, List16(Messages.RoomClient())), true, a, ok1, b, room, now, r, (time, clients));
  }

  /** deserialize_room_pose, before dequantising: accepts exactly what the format accepts. */
  method DeserializeRoomPose(data: Text) returns (ok: bool, room: Text, time: Double, clients: seq<Messages.RoomClientValue>)
    ensures ok <==> Messages.RoomPose().dec(data).Some?
    ensures ok ==> Messages.RoomPose().dec(data).value.0 == (room, (time, clients))
  {
    hide Text8, List16, Pair, Messages.RoomClient, Fixed, Items, ItemsDec, Reads;
    var reader := new BinaryReader(data);
    room, time, clients := [], [0, 0, 0, 0, 0, 0, 0, 0], [];
    var begun := reader.BeginMessage(12, true);
    if !begun {
      return false, room, time, clients;
    }
    ghost var a := reader.Rest();
    room := reader.ReadString8();
    ghost var ok1, b := reader.ok, reader.Rest();
    time := reader.ReadF64();
    ghost var ok2, c := reader.ok, reader.Rest();
    var count := reader.ReadU16();
    ghost var ok3, d := reader.ok, reader.Rest();
    ok, clients := ReadClients(reader, count);
    List16Reads(Messages.RoomClient(), ok2, c, ok3, d, count, ok, reader.Rest(), clients);
    RoomPoseReads(a, ok1, b, room, ok2, c, time, ok, reader.Rest(), clients);
    ReadsHeaded([12, 8], Pair(Text8(), Pair(Float64, List16(Messages.RoomClient()))), data, ok, reader.Rest(),
                (room, (time, clients)));
    ReadsMeans(Messages.RoomPose(), data, ok, reader.Rest(), (room, (time, clients)));
  }

  lemma ReadsMeans<T(!new)>(c: Codec<T>, a: Text, now: bool, r: Text, x: T)
    requires Reads(c, true, a, now, r, x)
    ensures now <==> c.dec(a).Some?
    ensures now ==> c.dec(a) == Some((x, r))
  {
  }

  /** The client loop of deserialize_room_pose, with its early exit. */
  method ReadClients(reader: BinaryReader, count: U16) returns (ok: bool, clients: seq<Messages.RoomClientValue>)
    requires reader.Valid()
    modifies reader
    ensures reader.Valid()
    ensures if old(reader.ok)
            then Reads(Items(Messages.RoomClient(), count), true, old(reader.Rest()), ok, reader.Rest(), clients)
            else !ok
  {
    hide Reads, Messages.RoomClient, Items;
    clients := [];
    if !reader.ok {
      return false, [];
    }
    ghost var start := reader.Rest();
    ok := true;
    ReadsNoItem(Messages.RoomClient(), true, start);
    for i := 0 to count
      invariant reader.Valid() && ok && reader.ok
      invariant Reads(Items(Messages.RoomClient(), i), true, start, ok, reader.Rest(), clients)
    {
      ghost var m := reader.Rest();
      var client;
      ok, client := ReadRoomClient(reader);
      ReadsItem(Messages.RoomClient(), i, true, start, true, m, clients, ok, reader.Rest(), client);
      clients := clients + [client];
      if !ok {
        ItemsStop(Messages.RoomClient(), i + 1, count, start, reader.Rest(), clients);
        return;
      }
    }
  }

  // ---------------------------------------------------------------- client variables

  type EntryValue = (Text, (Text, U16))

  method ReadEntry(reader: BinaryReader) returns (v: EntryValue)
    requires reader.Valid()
    modifies reader
    ensures reader.Valid() && Reads(Messages.VariableEntry(), old(reader.ok), old(reader.Rest()), reader.ok, reader.Rest(), v)
  {
    hide Reads, Pair, Reshape, Text8, Text16, Fixed;
    ghost var ok0, a := reader.ok, reader.Rest();
    var name := reader.ReadString8();
    ReadsReshape(Text8(), Same, Messages.ClampName, ok0, a, reader.ok, reader.Rest(), name);
    ghost var ok1, b := reader.ok, reader.Rest();
    var value := reader.ReadString16();
    ReadsReshape(Text16(), Same, Messages.ClampValue, ok1, b, reader.ok, reader.Rest(), value);
    ghost var ok2, c := reader.ok, reader.Rest();
    var writer := reader.ReadU16();
    v := (name, (value, writer));
    ReadsPair(Messages.ValueText(), Int16, ok1, b, ok2, c, value, reader.ok, reader.Rest(), writer);
    ReadsPair(Messages.NameText(), Pair(Messages.ValueText(), Int16), ok0, a, ok1, b, name, reader.ok, reader.Rest(),
              (value, writer));
  }

  /** The inner loop of deserialize_client_var_sync, with its early exit. */
  method ReadEntries(reader: BinaryReader, count: U16) returns (ok: bool, entries: seq<EntryValue>)
    requires reader.Valid() && reader.ok
    modifies reader
    ensures reader.Valid() && (ok ==> reader.ok)
    ensures Reads(Items(Messages.VariableEntry(), count), true, old(reader.Rest()), ok, reader.Rest(), entries)
  {
    hide Reads, Messages.VariableEntry, Items;
    entries := [];
    ghost var start := reader.Rest();
    ReadsNoItem(Messages.VariableEntry(), true, start);
    for i := 0 to count
      invariant reader.Valid() && reader.ok
      invariant Reads(Items(Messages.VariableEntry(), i), true, start, reader.ok, reader.Rest(), entries)
    {
      ghost var m := reader.Rest();
      var entry := ReadEntry(reader);
      ReadsItem(Messages.VariableEntry(), i, true, start, true, m, entries, reader.ok, reader.Rest(), entry);
      entries := entries + [entry];
      if !reader.ok {
        ItemsStop(Messages.VariableEntry(), i + 1, count, start, reader.Rest(), entries);
        return false, entries;
      }
    }
    ok := true;
  }

  /** One client's block. */
  method ReadBlock(reader: BinaryReader) returns (ok: bool, v: (U16, seq<EntryValue>))
    requires reader.Valid()
    modifies reader
    ensures reader.Valid() && (ok ==> reader.ok)
    ensures Reads(Pair(Int16, List16(Messages.VariableEntry())), old(reader.ok), old(reader.Rest()), ok, reader.Rest(), v)
  {
    hide Reads, Pair, List16, Messages.VariableEntry, Items, Fixed;
    ghost var ok0, a := reader.ok, reader.Rest();
    var clientNo := reader.ReadU16();
    ghost var ok1, b := reader.ok, reader.Rest();
    var count := reader.ReadU16();
    ghost var ok2, c := reader.ok, reader.Rest();
    var entries: seq<EntryValue> := [];
    ok := reader.ok;
    if reader.ok {
      ok, entries := ReadEntries(reader, count);
    }
    List16Reads(Messages.VariableEntry(), ok1, b, ok2, c, count, ok, reader.Rest(), entries);
    v := (clientNo, entries);
    ReadsPair(Int16, List16(Messages.VariableEntry()), ok0, a, ok1, b, clientNo, ok, reader.Rest(), entries);
  }

  /** deserialize_client_var_sync: two nested counted loops with early exits. */
  method DeserializeClientVarSync(data: Text) returns (ok: bool, blocks: seq<(U16, seq<EntryValue>)>)
    ensures ok <==> Messages.ClientVarSync().dec(data).Some?
    ensures ok ==> Messages.ClientVarSync().dec(data).value.0 == blocks
  {
    hide Reads, Pair, List16, Messages.VariableEntry, Items, ItemsDec, Fixed;
    var c := Pair(Int16, List16(Messages.VariableEntry()));
    var reader := new BinaryReader(data);
    blocks := [];
    var begun := reader.BeginMessage(10, false);
    if !begun {
      return false, [];
    }
    ghost var a := reader.Rest();
    var count := reader.ReadU16();
    ghost var ok1, start := reader.ok, reader.Rest();
    ok := reader.ok;
    ReadsNoItem(c, ok, start);
    var i := 0;
    while ok && i < count
      invariant reader.Valid() && (ok ==> reader.ok) && i <= count
      invariant ok1 ==> Reads(Items(c, if ok then i else count), ok1, start, ok, reader.Rest(), blocks)
      invariant !ok1 ==> !ok
      decreases count - i, ok
    {
      ghost var m := reader.Rest();
      var block;
      ok, block := ReadBlock(reader);
      ReadsItem(c, i, ok1, start, true, m, blocks, ok, reader.Rest(), block);
      blocks := blocks + [block];
      i := i + 1;
      if !ok {
        ItemsStop(c, i, count, start, reader.Rest(), blocks);
      }
    }
    List16Reads(c, true, a, ok1, start, count, ok, reader.Rest(), blocks);
    ReadsHeaded([10], List16(c), data, ok, reader.Rest(), blocks);
    ReadsMeans(Messages.ClientVarSync(), data, ok, reader.Rest(), blocks);
  }

  // ---------------------------------------------------------------- calls

  /** The target loop of deserialize_rpc, which runs to its end even after a failed read. */
  method ReadTargets(reader: BinaryReader, count: U8) returns (targets: seq<U16>)
    requires reader.Valid() && reader.ok
    modifies reader
    ensures reader.Valid()
    ensures Reads(Items(Int16, count), true, old(reader.Rest()), reader.ok, reader.Rest(), targets)
  {
    hide Reads, Items, Fixed;
    targets := [];
    ghost var start := reader.Rest();
    ReadsNoItem(Int16, true, start);
    for i := 0 to count
      invariant reader.Valid()
      invariant Reads(Items(Int16, i), true, start, reader.ok, reader.Rest(), targets)
    {
      ghost var mid, m := reader.ok, reader.Rest();
      var target := reader.ReadU16();
      ReadsItem(Int16, i, true, start, mid, m, targets, reader.ok, reader.Rest(), target);
      targets := targets + [target];
    }
  }

  lemma List8Reads(was: bool, a: Text, b: Text, count: U8, now: bool, r: Text, xs: seq<U16>)
    requires Reads(Int8, was, a, true, b, count) && Reads(Items(Int16, count), true, b, now, r, xs)
    ensures Reads(List8(Int16), was, a, now, r, xs)
  {
    hide Reads, Reshape, Depend, Items, Fixed;
    ReadsDepend(Int8, Always, Items8(Int16), was, a, true, b, count, now, r, xs);
    ReadsReshape(Depend(Int8, Always, Items8(Int16)), Second, Counted8, was, a, now, r, (count, xs));
  }

  lemma List8Stops(was: bool, a: Text, b: Text, count: U8, r: Text)
    requires Reads(Int8, was, a, false, b, count)
    ensures Reads(List8(Int16), was, a, false, r, [])
  {
    hide Reads, Reshape, Depend, Items, Fixed;
    ReadsDepend(Int8, Always, Items8(Int16), was, a, false, b, count, false, r, []);
    ReadsReshape(Depend(Int8, Always, Items8(Int16)), Second, Counted8, was, a, false, r, (count, []));
  }

  lemma RpcReads(a: Text, ok1: bool, b: Text, sender: U16, ok2: bool, c: Text, device: Text, ok3: bool, d: Text,
                 targets: seq<U16>, ok4: bool, e: Text, name: Text, now: bool, r: Text, arguments: Text)
    requires Reads(Int16, true, a, ok1, b, sender) && Reads(Text8(), ok1, b, ok2, c, device)
    requires Reads(List8(Int16), ok2, c, ok3, d, targets)
    requires Reads(Text8(), ok3, d, ok4, e, name) && Reads(Text16(), ok4, e, now, r, arguments)
    ensures Reads(Pair(Int16, Pair(Text8(), Pair(List8(Int16), Pair(Text8(), Text16())))), true, a, now, r,
                  (sender, (device, (targets, (name, arguments)))))
  {
    hide Reads, Pair, List8, Text8, Text16, Fixed;
    ReadsPair(Text8(), Text16(), ok3, d, ok4, e, name, now, r, arguments);
    ReadsPair(List8(Int16), Pair(Text8(), Text16()), ok2, c, ok3, d, targets, now, r, (name, arguments));
    ReadsPair(Text8(), Pair(List8(Int16), Pair(Text8(), Text16())), ok1, b, ok2, c, device, now, r,
              (targets, (name, arguments)));
    ReadsPair(Int16, Pair(Text8(), Pair(List8(Int16), Pair(Text8(), Text16()))), true, a, ok1, b, sender, now, r,
              (device, (targets, (name, arguments))));
  }

  /** deserialize_rpc. */
  method DeserializeRpc(data: Text)
    returns (ok: bool, sender: U16, device: Text, targets: seq<U16>, name: Text, arguments: Text)
    ensures ok <==> Messages.Rpc().dec(data).Some?
    ensures ok ==> Messages.Rpc().dec(data).value.0 == (sender, (device, (targets, (name, arguments))))
  {
    hide Reads, Pair, List8, Text8, Text16, Items, Fixed;
    var reader := new BinaryReader(data);
    sender, device, targets, name, arguments := 0, [], [], [], [];
    var begun := reader.BeginMessage(3, false);
    if !begun {
      return false, sender, device, targets, name, arguments;
    }
    ghost var a := reader.Rest();
    sender := reader.ReadU16();
    ghost var ok1, b := reader.ok, reader.Rest();
    device := reader.ReadString8();
    ghost var ok2, c := reader.ok, reader.Rest();
    var count := reader.ReadU8();
    ghost var d := reader.Rest();
    if reader.ok {
      targets := ReadTargets(reader, count);
      List8Reads(ok2, c, d, count, reader.ok, reader.Rest(), targets);
      ghost var ok3, e := reader.ok, reader.Rest();
      name := reader.ReadString8();
      ghost var ok4, f := reader.ok, reader.Rest();
      arguments := reader.ReadString16();
      ok := reader.ok;
      RpcReads(a, ok1, b, sender, ok2, c, device, ok3, e, targets, ok4, f, name, ok, reader.Rest(), arguments);
    } else {
      List8Stops(ok2, c, d, count, d);
      ReadsSkipped(Text8(), d, d, name);
      ReadsSkipped(Text16(), d, d, arguments);
      ok := false;
      RpcReads(a, ok1, b, sender, ok2, c, device, false, d, targets, false, d, name, false, d, arguments);
    }
    ReadsHeaded([3], Pair(Int16, Pair(Text8(), Pair(List8(Int16), Pair(Text8(), Text16())))), data, ok, reader.Rest(),
                (sender, (device, (targets, (name, arguments)))));
    ReadsMeans(Messages.Rpc(), data, ok, reader.Rest(), (sender, (device, (targets, (name, arguments)))));
  }
}
