/**
From poses in metres to the wire and back (src/protocol/protocol_v8.cpp:21-218, 347-360,
488-511). Rotations enter as the packed words of module SmallestThree, and the yaw of a pose on
a moving floor as a number of degrees: how they are derived from quaternions is not part of
this module.
*/
module PoseValues {
  import opened Bytes
  import opened Codecs
  import opened Wire
  import opened PoseWire
  import opened Quaternions
  import opened Quantise
  import Messages
  import MessageOutput
  import Utf8

  datatype Transform = Transform(position: Vec3, rotation: U32)

  datatype Body = Body(
    seqNo: U16,
    flags: U8,
    originDelta: Vec3,
    originDeltaYaw: real,
    physical: Vec3,
    physicalYaw: real,
    head: Transform,
    right: Transform,
    left: Transform,
    virtuals: seq<Transform>)

  datatype Client = Client(clientNo: U16, poseTime: Double, body: Body)

  // ---------------------------------------------------------------- quantising

  function Q16(value: real, scale: real): I16 {
    Quantize(value, scale, INT16_MIN, INT16_MAX)
  }

  function QuantizeLoco(position: Vec3, yaw: real): Loco {
    Loco(Q16(position.x, LOCO_POS_SCALE), Q16(position.y, LOCO_POS_SCALE), Q16(position.z, LOCO_POS_SCALE),
         Q16(yaw, YAW_SCALE))
  }

  function QuantizeHeadPose(t: Transform): PoseWire.Head {
    Head(QuantizeHead(t.position.x), QuantizeHead(t.position.y), QuantizeHead(t.position.z), t.rotation)
  }

  /** A hand or virtual transform relative to the head as the sender has it, not as it is sent. */
  function QuantizeRelativePose(t: Transform, head: Vec3): Relative {
    Relative(QuantizeRelative(t.position.x - head.x), QuantizeRelative(t.position.y - head.y),
             QuantizeRelative(t.position.z - head.z), t.rotation)
  }

  function QuantizeVirtuals(vs: seq<Transform>, head: Vec3): (r: seq<Relative>)
    ensures |r| == |vs| && forall i :: 0 <= i < |vs| ==> r[i] == QuantizeRelativePose(vs[i], head)
  {
    seq(|vs|, i requires 0 <= i < |vs| => QuantizeRelativePose(vs[i], head))
  }

  function HeaderOf(b: Body): Header {
    DerivedHeader(b.seqNo, b.flags)
  }

  /** What write_pose_body puts into the parts that the sanitised flags call for. */
  function PayloadOf(b: Body): Payload {
    var h := HeaderOf(b);
    Payload(
      if !HasLoco(h) then None
      else if Has(h.flags, MOVING_FLOOR_LOCAL) then Some(QuantizeLoco(b.physical, b.physicalYaw))
      else Some(QuantizeLoco(b.originDelta, b.originDeltaYaw)),
      if HasHead(h) then Some(QuantizeHeadPose(b.head)) else None,
      if HasRight(h) then Some(QuantizeRelativePose(b.right, b.head.position)) else None,
      if HasLeft(h) then Some(QuantizeRelativePose(b.left, b.head.position)) else None,
      Capped(HasVirtuals(h), QuantizeVirtuals(b.virtuals, b.head.position)))
  }

  /** Nothing that was quantised is altered further by the wire. */
  lemma NothingMoreIsLost(b: Body)
    ensures Matches(HeaderOf(b), PayloadOf(b)) && Kept(HeaderOf(b), PayloadOf(b)) == PayloadOf(b)
  {
    hide Has, Quantize;
    var p := PayloadOf(b);
    if p.head.Some? {
      assert Saturate(p.head.value) == p.head.value;
    }
    assert Capped(HasVirtuals(HeaderOf(b)), p.virtuals) == p.virtuals;
  }

  // ---------------------------------------------------------------- round trips

  function WireOf(c: Client): Messages.RoomClientValue {
    (c.clientNo, (c.poseTime, (HeaderOf(c.body), PayloadOf(c.body))))
  }

  function WireOfAll(cs: seq<Client>): (r: seq<Messages.RoomClientValue>)
    ensures |r| == |cs| && forall i :: 0 <= i < |cs| ==> r[i] == WireOf(cs[i])
  {
    seq(|cs|, i requires 0 <= i < |cs| => WireOf(cs[i]))
  }

  lemma ClientFits(c: Client)
    ensures Messages.RoomClient().fits(WireOf(c)) && Messages.RoomClient().norm(WireOf(c)) == WireOf(c)
  {
    hide BodyCodec, PayloadOf, Pair, Matches, Kept, Fixed;
    var h, p := HeaderOf(c.body), PayloadOf(c.body);
    NothingMoreIsLost(c.body);
    BodyRoundTrip(c.body.seqNo, c.body.flags, p, []);
    PairAt(Float64, BodyCodec(), c.poseTime, (h, p));
    PairAt(Int16, Pair(Float64, BodyCodec()), c.clientNo, (c.poseTime, (h, p)));
    NumbersFit(c.clientNo, c.poseTime);
  }

  lemma NumbersFit(n: U16, d: Double)
    ensures Int16.fits(n) && Int16.norm(n) == n && Float64.fits(d) && Float64.norm(d) == d
  {
  }

  lemma ClientsFit(cs: seq<Client>)
    ensures FitAll(Messages.RoomClient(), WireOfAll(cs))
    ensures NormAll(Messages.RoomClient(), WireOfAll(cs)) == WireOfAll(cs)
  {
    hide Messages.RoomClient, WireOf;
    forall i | 0 <= i < |cs|
      ensures Messages.RoomClient().fits(WireOfAll(cs)[i])
      ensures Messages.RoomClient().norm(WireOfAll(cs)[i]) == WireOfAll(cs)[i]
    {
      ClientFits(cs[i]);
    }
  }

  /**
  A room pose with any flags, any virtual lists and any room id: decoding the encoding succeeds,
  stops at the exact end and gives back the sanitised flags, the derived encoding flags and every
  quantised integer and packed rotation. The room id comes back cut to 255 bytes.
  */
  lemma RoomPoseRoundTrip(room: Text, time: Double, cs: seq<Client>, rest: Text)
    requires |cs| <= 0xFFFF
    ensures var m := (room, (time, WireOfAll(cs)));
            Messages.RoomPose().dec(Messages.RoomPose().enc(m) + rest) ==
              Some(((Utf8.ByteCut(room, 255), (time, WireOfAll(cs))), rest))
  {
    hide Text8, List16, Messages.RoomClient, Pair, Lawful, FitAll, NormAll, WireOfAll, Fixed;
    var m := (room, (time, WireOfAll(cs)));
    var c := Messages.RoomClient();
    Messages.PosesLawful();
    Messages.RoomClientLawful();
    List16Lawful(c);
    ClientsFit(cs);
    CountOfAll(cs);
    Text8Lawful();
    NumbersFit(0, time);
    PairAt(Float64, List16(c), time, WireOfAll(cs));
    PairAt(Text8(), Pair(Float64, List16(c)), room, (time, WireOfAll(cs)));
    Messages.LawfulReads(Messages.RoomPose(), m, rest);
  }

  /**
  serialize_room_pose, from the bodies: what it writes decodes to what RoomPoseRoundTrip says,
  with nothing left over.
  */
  method SerializeRoom(room: Text, time: Double, cs: seq<Client>) returns (r: Text)
    ensures r == Messages.RoomPose().enc((room, (time, WireOfAll(cs))))
    ensures |cs| <= 0xFFFF ==> Messages.RoomPose().dec(r) == Some(((Utf8.ByteCut(room, 255), (time, WireOfAll(cs))), []))
  {
    hide Messages.RoomPose, Matches, Utf8.ByteCut;
    var wire := WireOfAll(cs);
    forall i | 0 <= i < |wire|
      ensures Matches(wire[i].1.1.0, wire[i].1.1.1)
    {
      NothingMoreIsLost(cs[i].body);
    }
    r := MessageOutput.SerializeRoomPose(room, time, wire);
    if |cs| <= 0xFFFF {
      RoomPoseRoundTrip(room, time, cs, []);
      assert r + [] == r;
    }
  }

  lemma CountOfAll(cs: seq<Client>)
    ensures |WireOfAll(cs)| == |cs|
  {
  }

  /**
  The client list at any length: the 16-bit count wraps, and what is recovered is exactly the
  clients that the wrapped count covers.
  */
  lemma ClientListRoundTrip(cs: seq<Client>, rest: Text)
    ensures var list := List16(Messages.RoomClient());
            var k := |cs| % 0x1_0000;
            && list.dec(list.enc(WireOfAll(cs)) + rest).Some?
            && list.dec(list.enc(WireOfAll(cs)) + rest).value.0 == WireOfAll(cs[..k])
            && (list.dec(list.enc(WireOfAll(cs)) + rest) == Some((WireOfAll(cs), rest)) <==> |cs| <= 0xFFFF)
  {
    hide List16, Messages.RoomClient, ItemsEnc;
    var c := Messages.RoomClient();
    var k := |cs| % 0x1_0000;
    Messages.RoomClientLawful();
    ClientsFit(cs);
    ClientsFit(cs[..k]);
    CountWraps(c, WireOfAll(cs), rest);
    assert WireOfAll(cs)[..k] == WireOfAll(cs[..k]);
    if |cs| <= 0xFFFF {
      assert k == |cs| && cs[..k] == cs;
      NothingLeft(c, WireOfAll(cs));
      assert [] + rest == rest;
    }
  }

  lemma NothingLeft<T>(c: Codec<T>, xs: seq<T>)
    ensures ItemsEnc(c, xs[|xs|..]) == []
  {
  }

  // ---------------------------------------------------------------- how far off a hand arrives

  predicate HeadInRange(p: Vec3) {
    && InRange(p.x, ABS_POS_SCALE, INT24_MIN, INT24_MAX)
    && InRange(p.y, ABS_POS_SCALE, INT24_MIN, INT24_MAX)
    && InRange(p.z, ABS_POS_SCALE, INT24_MIN, INT24_MAX)
  }

  predicate DeltaInRange(p: Vec3, head: Vec3) {
    && InRange(p.x - head.x, REL_POS_SCALE, INT16_MIN, INT16_MAX)
    && InRange(p.y - head.y, REL_POS_SCALE, INT16_MIN, INT16_MAX)
    && InRange(p.z - head.z, REL_POS_SCALE, INT16_MIN, INT16_MAX)
  }

  /** The position that read_pose_body reconstructs for a hand or virtual transform. */
  function DecodedPosition(head: PoseWire.Head, r: Relative): Vec3 {
    Vec3(DecodedCoordinate(head.x, r.x), DecodedCoordinate(head.y, r.y), DecodedCoordinate(head.z, r.z))
  }

  predicate Within(a: Vec3, b: Vec3, bound: real) {
    Abs(a.x - b.x) <= bound && Abs(a.y - b.y) <= bound && Abs(a.z - b.z) <= bound
  }

  /** Over the wire, hands and virtuals in range arrive within 7.5 mm in every coordinate. */
  lemma PositionsArriveClose(b: Body, rest: Text)
    requires HeadInRange(b.head.position)
    ensures var h := HeaderOf(b);
            var read := BodyCodec().dec(BodyCodec().enc((h, PayloadOf(b))) + rest);
            && read == Some(((h, PayloadOf(b)), rest))
            && var p := read.value.0.1;
            && (p.right.Some? && DeltaInRange(b.right.position, b.head.position) ==>
                  p.head.Some? && Within(DecodedPosition(p.head.value, p.right.value), b.right.position, 0.0075))
            && (p.left.Some? && DeltaInRange(b.left.position, b.head.position) ==>
                  p.head.Some? && Within(DecodedPosition(p.head.value, p.left.value), b.left.position, 0.0075))
            && |p.virtuals| <= |b.virtuals|
            && (forall i | 0 <= i < |p.virtuals| && DeltaInRange(b.virtuals[i].position, b.head.position) ::
                  p.head.Some? && Within(DecodedPosition(p.head.value, p.virtuals[i]), b.virtuals[i].position, 0.0075))
  {
    hide BodyCodec, Has, Within, DeltaInRange, HeadInRange, Kept, Matches, QuantizeRelativePose, QuantizeHeadPose;
    NothingMoreIsLost(b);
    BodyRoundTrip(b.seqNo, b.flags, PayloadOf(b), rest);
    var p := PayloadOf(b);
    ArrivesClose(b.head, b.right);
    ArrivesClose(b.head, b.left);
    forall i | 0 <= i < |p.virtuals| && DeltaInRange(b.virtuals[i].position, b.head.position)
      ensures p.head.Some? && Within(DecodedPosition(p.head.value, p.virtuals[i]), b.virtuals[i].position, 0.0075)
    {
      ArrivesClose(b.head, b.virtuals[i]);
    }
  }

  lemma ArrivesClose(head: Transform, t: Transform)
    requires HeadInRange(head.position)
    ensures DeltaInRange(t.position, head.position) ==>
              Within(DecodedPosition(QuantizeHeadPose(head), QuantizeRelativePose(t, head.position)), t.position, 0.0075)
  {
    hide Quantize, DecodedCoordinate, InRange, Abs;
    if DeltaInRange(t.position, head.position) {
      RelativePositionIsClose(head.position.x, t.position.x);
      RelativePositionIsClose(head.position.y, t.position.y);
      RelativePositionIsClose(head.position.z, t.position.z);
    }
  }

  // ---------------------------------------------------------------- everything that arrives

  function LocoPosition(l: Loco): Vec3 {
    Vec3(Dequantize(l.x, LOCO_POS_SCALE), Dequantize(l.y, LOCO_POS_SCALE), Dequantize(l.z, LOCO_POS_SCALE))
  }

  function LocoYaw(l: Loco): real {
    Dequantize(l.yaw, YAW_SCALE)
  }

  /** What read_pose_body assigns to the physical pose from the wire; it needs a moving floor. */
  function DecodedPhysical(h: Header, p: Payload): Option<(Vec3, real)> {
    if p.loco.Some? && Has(h.flags, MOVING_FLOOR_LOCAL) then Some((LocoPosition(p.loco.value), LocoYaw(p.loco.value))) else None
  }

  /** What it assigns to the delta of the origin. */
  function DecodedDelta(h: Header, p: Payload): Option<(Vec3, real)> {
    if p.loco.Some? && !Has(h.flags, MOVING_FLOOR_LOCAL) then Some((LocoPosition(p.loco.value), LocoYaw(p.loco.value))) else None
  }

  function HeadPosition(h: PoseWire.Head): Vec3 {
    Vec3(Dequantize(h.x, ABS_POS_SCALE), Dequantize(h.y, ABS_POS_SCALE), Dequantize(h.z, ABS_POS_SCALE))
  }

  /** The range of a signed 16-bit number of centimetres, and of tenths of a degree. */
  predicate LocoInRange(position: Vec3, yaw: real) {
    && -327.68 <= position.x <= 327.67 && -327.68 <= position.y <= 327.67 && -327.68 <= position.z <= 327.67
    && -3276.8 <= yaw <= 3276.7
  }

  lemma LocoIsClose(position: Vec3, yaw: real)
    requires LocoInRange(position, yaw)
    ensures var l := QuantizeLoco(position, yaw);
            Within(LocoPosition(l), position, 0.005) && Abs(LocoYaw(l) - yaw) <= 0.05
  {
    hide Quantize, Abs;
    QuantizeIsClose(position.x, LOCO_POS_SCALE, INT16_MIN, INT16_MAX);
    QuantizeIsClose(position.y, LOCO_POS_SCALE, INT16_MIN, INT16_MAX);
    QuantizeIsClose(position.z, LOCO_POS_SCALE, INT16_MIN, INT16_MAX);
    QuantizeIsClose(yaw, YAW_SCALE, INT16_MIN, INT16_MAX);
  }

  lemma HeadIsClose(t: Transform)
    requires HeadInRange(t.position)
    ensures Within(HeadPosition(QuantizeHeadPose(t)), t.position, 0.005)
  {
    hide Quantize, Abs, InRange;
    QuantizeIsClose(t.position.x, ABS_POS_SCALE, INT24_MIN, INT24_MAX);
    QuantizeIsClose(t.position.y, ABS_POS_SCALE, INT24_MIN, INT24_MAX);
    QuantizeIsClose(t.position.z, ABS_POS_SCALE, INT24_MIN, INT24_MAX);
  }

  /** Where the locomotion part goes: the physical pose on a moving floor, the origin's delta off it. */
  lemma LocomotionArrives(b: Body, rest: Text)
    ensures var h := HeaderOf(b);
            var read := BodyCodec().dec(BodyCodec().enc((h, PayloadOf(b))) + rest);
            && read == Some(((h, PayloadOf(b)), rest))
            && var p := read.value.0.1;
            && (Has(h.flags, PHYSICAL_VALID) && Has(h.flags, MOVING_FLOOR_LOCAL) ==>
                  && DecodedPhysical(h, p).Some? && DecodedDelta(h, p).None?
                  && (LocoInRange(b.physical, b.physicalYaw) ==>
                        && Within(DecodedPhysical(h, p).value.0, b.physical, 0.005)
                        && Abs(DecodedPhysical(h, p).value.1 - b.physicalYaw) <= 0.05))
            && (Has(h.flags, PHYSICAL_VALID) && !Has(h.flags, MOVING_FLOOR_LOCAL) ==>
                  && DecodedDelta(h, p).Some? && DecodedPhysical(h, p).None?
                  && (LocoInRange(b.originDelta, b.originDeltaYaw) ==>
                        && Within(DecodedDelta(h, p).value.0, b.originDelta, 0.005)
                        && Abs(DecodedDelta(h, p).value.1 - b.originDeltaYaw) <= 0.05))
            && (!Has(h.flags, PHYSICAL_VALID) ==> DecodedPhysical(h, p).None? && DecodedDelta(h, p).None?)
  {
    hide BodyCodec, Has, Within, LocoInRange, Kept, Matches, QuantizeLoco, LocoPosition, LocoYaw, Abs;
    NothingMoreIsLost(b);
    BodyRoundTrip(b.seqNo, b.flags, PayloadOf(b), rest);
    if LocoInRange(b.physical, b.physicalYaw) {
      LocoIsClose(b.physical, b.physicalYaw);
    }
    if LocoInRange(b.originDelta, b.originDeltaYaw) {
      LocoIsClose(b.originDelta, b.originDeltaYaw);
    }
  }

  /**
  The rest of a body: the sequence number and sanitised flags, the head's position within 5 mm,
  and every rotation word in its own place; a part arrives exactly if its flags say so.
  */
  lemma PartsArrive(b: Body, rest: Text)
    ensures var sent := HeaderOf(b);
            var read := BodyCodec().dec(BodyCodec().enc((sent, PayloadOf(b))) + rest);
            && read.Some? && read.value.1 == rest
            && var (h, p) := read.value.0;
            && h.seqNo == b.seqNo && h.flags == Sanitize(b.flags)
            && (p.head.Some? <==> Has(h.flags, HEAD_VALID))
            && (p.head.Some? ==> p.head.value.rotation == b.head.rotation)
            && (p.head.Some? && HeadInRange(b.head.position) ==>
                  Within(HeadPosition(p.head.value), b.head.position, 0.005))
            && (p.right.Some? <==> Has(h.flags, HEAD_VALID) && Has(h.flags, RIGHT_VALID))
            && (p.right.Some? ==> p.right.value.rotation == b.right.rotation)
            && (p.left.Some? <==> Has(h.flags, HEAD_VALID) && Has(h.flags, LEFT_VALID))
            && (p.left.Some? ==> p.left.value.rotation == b.left.rotation)
            && |p.virtuals| == (if Has(h.flags, HEAD_VALID) && Has(h.flags, VIRTUALS_VALID)
                                then if |b.virtuals| < 50 then |b.virtuals| else 50
                                else 0)
            && (forall i | 0 <= i < |p.virtuals| :: p.virtuals[i].rotation == b.virtuals[i].rotation)
  {
    hide BodyCodec, Has, Within, HeadInRange, Kept, Matches, HeadPosition, Sanitize, EncodingFlags;
    NothingMoreIsLost(b);
    BodyRoundTrip(b.seqNo, b.flags, PayloadOf(b), rest);
    if HeadInRange(b.head.position) {
      HeadIsClose(b.head);
    }
  }
}
