/**
The messages of protocol v8 (src/protocol/protocol_v8.cpp:241-750), field by field in wire
order. A message value is the tuple of its fields; every format obeys the laws of module
Codecs, so each decoder undoes its encoder, depends only on the bytes it consumes, ignores
what follows and rejects every shorter input.
*/
module Messages {
  import opened Bytes
  import opened Codecs
  import opened Wire
  import opened PoseWire
  import Utf8
  import NetworkVariables

  const VERSION: Byte := 8

  // ---------------------------------------------------------------- shared fields

  function ClampName(s: Text): Text { Utf8.CodePointCut(s, NetworkVariables.MAX_NAME_CHARS) }

  function ClampValue(s: Text): Text { Utf8.CodePointCut(s, NetworkVariables.MAX_VALUE_CHARS) }

  /** A variable name: cut to 64 characters, then to 255 bytes. */
  function NameText(): Codec<Text> { Reshape(Text8(), Same, ClampName) }

  /** A variable value: cut to 1024 characters, then to 65535 bytes. */
  function ValueText(): Codec<Text> { Reshape(Text16(), Same, ClampValue) }

  /** Name, value, last writer. */
  function VariableEntry(): Codec<(Text, (Text, U16))> { Pair(NameText(), Pair(ValueText(), Int16)) }

  function IsOne(b: U8): bool { b == 1 }

  function OneIf(on: bool): U8 { if on then 1 else 0 }

  function Flag(): Codec<bool> { Reshape(Int8, IsOne, OneIf) }

  /** Client number, stealth flag, device id. */
  function MappingEntry(): Codec<(U16, (bool, Text))> { Pair(Int16, Pair(Flag(), Text8())) }

  /** Client number, pose time, body. */
  type RoomClientValue = (U16, (Double, (Header, Payload)))

  function RoomClient(): Codec<RoomClientValue> { Pair(Int16, Pair(Float64, BodyCodec())) }

  /** Object id, owner, sequence number, pose time, position and rotation. */
  function RoomObject(): Codec<(U32, (U16, (U16, (Double, Head))))> {
    Pair(Int32, Pair(Int16, Pair(Int16, Pair(Float64, HeadCodec()))))
  }

  // ---------------------------------------------------------------- formats

  /** Flags, device id. */
  function ClientHello(): Codec<(U8, Text)> { Headed([19, VERSION], Pair(Int8, Text8())) }

  /** Device id, body. */
  function ClientPose(): Codec<(Text, (Header, Payload))> { Headed([11, VERSION], Pair(Text8(), BodyCodec())) }

  /** Room id, broadcast time, clients. */
  function RoomPose(): Codec<(Text, (Double, seq<RoomClientValue>))> {
    Headed([12, VERSION], Pair(Text8(), Pair(Float64, List16(RoomClient()))))
  }

  /** Sender, device id, targets, function name, arguments. */
  function Rpc(): Codec<(U16, (Text, (seq<U16>, (Text, Text))))> {
    Headed([3], Pair(Int16, Pair(Text8(), Pair(List8(Int16), Pair(Text8(), Text16())))))
  }

  /** Server version, mappings. */
  function DeviceIdMapping(): Codec<(U8, (U8, (U8, seq<(U16, (bool, Text))>)))> {
    Headed([6], Pair(Int8, Pair(Int8, Pair(Int8, List16(MappingEntry())))))
  }

  /** Sender, device id, name, value. */
  function GlobalVarSet(): Codec<(U16, (Text, (Text, Text)))> {
    Headed([7], Pair(Int16, Pair(Text8(), Pair(NameText(), ValueText()))))
  }

  function GlobalVarSync(): Codec<seq<(Text, (Text, U16))>> { Headed([8], List16(VariableEntry())) }

  /** Sender, device id, target, name, value. */
  function ClientVarSet(): Codec<(U16, (Text, (U16, (Text, Text))))> {
    Headed([9], Pair(Int16, Pair(Text8(), Pair(Int16, Pair(NameText(), ValueText())))))
  }

  /** One block per client: number, entries. */
  function ClientVarSync(): Codec<seq<(U16, seq<(Text, (Text, U16))>)>> {
    Headed([10], List16(Pair(Int16, List16(VariableEntry()))))
  }

  /** Sender, device id. */
  function ClientVarClear(): Codec<(U16, Text)> { Headed([18], Pair(Int16, Text8())) }

  /** Device id, object id, sequence number, position and rotation. */
  function ObjectPose(): Codec<(Text, (U32, (U16, Head)))> {
    Headed([13, VERSION], Pair(Text8(), Pair(Int32, Pair(Int16, HeadCodec()))))
  }

  /** Broadcast time, objects. */
  function RoomObjects(): Codec<(Double, seq<(U32, (U16, (U16, (Double, Head))))>)> {
    Headed([14, VERSION], Pair(Float64, List16(RoomObject())))
  }

  /** Device id, operation, object id. */
  function OwnershipRequest(): Codec<(Text, (U8, U32))> { Headed([15, VERSION], Pair(Text8(), Pair(Int8, Int32))) }

  /** Object id, new owner, previous owner. */
  function OwnershipChanged(): Codec<(U32, (U16, U16))> { Headed([16], Pair(Int32, Pair(Int16, Int16))) }

  /** Object id, current owner, reason. */
  function OwnershipRejected(): Codec<(U32, (U16, U8))> { Headed([17], Pair(Int32, Pair(Int16, Int8))) }

  // ---------------------------------------------------------------- laws

  lemma FieldsLawful()
    ensures Lawful(Int8) && Lawful(Int16) && Lawful(Int32) && Lawful(Float64)
    ensures Lawful(Text8()) && Lawful(Text16()) && Lawful(NameText()) && Lawful(ValueText()) && Lawful(Flag())
  {
    hide Lawful, Text8, Text16;
    UnsignedLawful();
    DoubleLawful();
    Text8Lawful();
    Text16Lawful();
    ReshapeLawful(Text8(), Same, ClampName);
    ReshapeLawful(Text16(), Same, ClampValue);
    ReshapeLawful(Int8, IsOne, OneIf);
  }

  lemma EntryLawful()
    ensures Lawful(VariableEntry()) && Lawful(MappingEntry())
  {
    hide Lawful, Text8, Text16, NameText, ValueText, Flag, Pair;
    FieldsLawful();
    PairLawful(ValueText(), Int16);
    PairLawful(NameText(), Pair(ValueText(), Int16));
    PairLawful(Flag(), Text8());
    PairLawful(Int16, Pair(Flag(), Text8()));
  }

  lemma RoomClientLawful()
    ensures Lawful(RoomClient())
  {
    hide Lawful, BodyCodec, Pair;
    FieldsLawful();
    BodyLawful();
    PairLawful(Float64, BodyCodec());
    PairLawful(Int16, Pair(Float64, BodyCodec()));
  }

  /** Room and client poses obey the laws. */
  lemma PosesLawful()
    ensures Lawful(RoomPose()) && Lawful(ClientPose())
  {
    hide Lawful, BodyCodec, RoomClient, Text8, List16, Pair, Headed;
    FieldsLawful();
    BodyLawful();
    RoomClientLawful();
    List16Lawful(RoomClient());
    PairLawful(Float64, List16(RoomClient()));
    PairLawful(Text8(), Pair(Float64, List16(RoomClient())));
    HeadedLawful([12, VERSION], Pair(Text8(), Pair(Float64, List16(RoomClient()))));
    PairLawful(Text8(), BodyCodec());
    HeadedLawful([11, VERSION], Pair(Text8(), BodyCodec()));
  }

  /** The variable messages obey the laws. */
  lemma VariablesLawful()
    ensures Lawful(GlobalVarSet()) && Lawful(ClientVarSet()) && Lawful(ClientVarClear())
    ensures Lawful(GlobalVarSync()) && Lawful(ClientVarSync())
  {
    hide Lawful, Text8, NameText, ValueText, VariableEntry, List16, Pair, Headed;
    FieldsLawful();
    EntryLawful();
    var nameValue := Pair(NameText(), ValueText());
    PairLawful(NameText(), ValueText());
    PairLawful(Text8(), nameValue);
    PairLawful(Int16, Pair(Text8(), nameValue));
    HeadedLawful([7], Pair(Int16, Pair(Text8(), nameValue)));
    PairLawful(Int16, nameValue);
    PairLawful(Text8(), Pair(Int16, nameValue));
    PairLawful(Int16, Pair(Text8(), Pair(Int16, nameValue)));
    HeadedLawful([9], Pair(Int16, Pair(Text8(), Pair(Int16, nameValue))));
    PairLawful(Int16, Text8());
    HeadedLawful([18], Pair(Int16, Text8()));
    List16Lawful(VariableEntry());
    HeadedLawful([8], List16(VariableEntry()));
    PairLawful(Int16, List16(VariableEntry()));
    List16Lawful(Pair(Int16, List16(VariableEntry())));
    HeadedLawful([10], List16(Pair(Int16, List16(VariableEntry()))));
  }

  /** The call, hello and mapping messages obey the laws. */
  lemma ControlLawful()
    ensures Lawful(Rpc()) && Lawful(ClientHello()) && Lawful(DeviceIdMapping())
  {
    hide Lawful, Text8, Text16, MappingEntry, List8, List16, Pair, Headed;
    FieldsLawful();
    EntryLawful();
    PairLawful(Text8(), Text16());
    List8Lawful(Int16);
    var tail := Pair(List8(Int16), Pair(Text8(), Text16()));
    PairLawful(List8(Int16), Pair(Text8(), Text16()));
    PairLawful(Text8(), tail);
    PairLawful(Int16, Pair(Text8(), tail));
    HeadedLawful([3], Pair(Int16, Pair(Text8(), tail)));
    PairLawful(Int8, Text8());
    HeadedLawful([19, VERSION], Pair(Int8, Text8()));
    List16Lawful(MappingEntry());
    PairLawful(Int8, List16(MappingEntry()));
    PairLawful(Int8, Pair(Int8, List16(MappingEntry())));
    PairLawful(Int8, Pair(Int8, Pair(Int8, List16(MappingEntry()))));
    HeadedLawful([6], Pair(Int8, Pair(Int8, Pair(Int8, List16(MappingEntry())))));
  }

  /** The object messages obey the laws. */
  lemma ObjectsLawful()
    ensures Lawful(ObjectPose()) && Lawful(RoomObjects())
    ensures Lawful(OwnershipRequest()) && Lawful(OwnershipChanged()) && Lawful(OwnershipRejected())
  {
    hide Lawful, Text8, HeadCodec, RoomObject, List16, Pair, Headed;
    FieldsLawful();
    HeadLawful();
    PairLawful(Int16, HeadCodec());
    PairLawful(Int32, Pair(Int16, HeadCodec()));
    PairLawful(Text8(), Pair(Int32, Pair(Int16, HeadCodec())));
    HeadedLawful([13, VERSION], Pair(Text8(), Pair(Int32, Pair(Int16, HeadCodec()))));
    RoomObjectLawful();
    List16Lawful(RoomObject());
    PairLawful(Float64, List16(RoomObject()));
    HeadedLawful([14, VERSION], Pair(Float64, List16(RoomObject())));
    PairLawful(Int8, Int32);
    PairLawful(Text8(), Pair(Int8, Int32));
    HeadedLawful([15, VERSION], Pair(Text8(), Pair(Int8, Int32)));
    PairLawful(Int16, Int16);
    PairLawful(Int32, Pair(Int16, Int16));
    HeadedLawful([16], Pair(Int32, Pair(Int16, Int16)));
    PairLawful(Int16, Int8);
    PairLawful(Int32, Pair(Int16, Int8));
    HeadedLawful([17], Pair(Int32, Pair(Int16, Int8)));
  }

  lemma RoomObjectLawful()
    ensures Lawful(RoomObject())
  {
    hide Lawful, HeadCodec, Pair;
    FieldsLawful();
    HeadLawful();
    PairLawful(Float64, HeadCodec());
    PairLawful(Int16, Pair(Float64, HeadCodec()));
    PairLawful(Int16, Pair(Int16, Pair(Float64, HeadCodec())));
    PairLawful(Int32, Pair(Int16, Pair(Int16, Pair(Float64, HeadCodec()))));
  }

  // ---------------------------------------------------------------- variable messages carry accepted variables

  /**
  A variable that passed validation reaches the other side unchanged exactly when the byte
  lengths fit the length prefixes.
  */
  lemma AcceptedVariableSurvives(sender: U16, device: Text, name: Text, value: Text, rest: Text)
    requires NetworkVariables.ValidName(name) && NetworkVariables.ValidValue(value)
    ensures var m := (sender, (device, (name, value)));
            GlobalVarSet().dec(GlobalVarSet().enc(m) + rest) == Some((m, rest)) <==>
              |device| <= 255 && |name| <= 255 && |value| <= 0xFFFF
  {
    hide Lawful, Text8, Text16, Pair, Reshape, Headed, Utf8.ByteCut, Utf8.CodePoints, Utf8.CodePointCut, Fixed;
    var m := (sender, (device, (name, value)));
    var cut := (sender, (Utf8.ByteCut(device, 255), (Utf8.ByteCut(name, 255), Utf8.ByteCut(value, 0xFFFF))));
    VariablesLawful();
    VariableKeeps(sender, device, name, value);
    LawfulReads(GlobalVarSet(), m, rest);
    assert cut == m <==> |device| <= 255 && |name| <= 255 && |value| <= 0xFFFF;
  }

  lemma LawfulReads<T(!new)>(c: Codec<T>, x: T, rest: Text)
    requires Lawful(c) && c.fits(x)
    ensures c.dec(c.enc(x) + rest) == Some((c.norm(x), rest))
  {
  }

  lemma VariableKeeps(sender: U16, device: Text, name: Text, value: Text)
    requires NetworkVariables.ValidName(name) && NetworkVariables.ValidValue(value)
    ensures GlobalVarSet().fits((sender, (device, (name, value))))
    ensures GlobalVarSet().norm((sender, (device, (name, value)))) ==
              (sender, (Utf8.ByteCut(device, 255), (Utf8.ByteCut(name, 255), Utf8.ByteCut(value, 0xFFFF))))
  {
    hide Lawful, Text8, Text16, Pair, Reshape, Utf8.ByteCut, Utf8.CodePoints, Utf8.CodePointCut;
    Text8Lawful();
    Text16Lawful();
    Utf8.CodePointCutKeepsShort(name, NetworkVariables.MAX_NAME_CHARS);
    Utf8.CodePointCutKeepsShort(value, NetworkVariables.MAX_VALUE_CHARS);
    ReshapeAt(Text8(), Same, ClampName, name);
    ReshapeAt(Text16(), Same, ClampValue, value);
    PairAt(NameText(), ValueText(), name, value);
    PairAt(Text8(), Pair(NameText(), ValueText()), device, (name, value));
    PairAt(Int16, Pair(Text8(), Pair(NameText(), ValueText())), sender, (device, (name, value)));
  }

  /** The same for a client variable. */
  lemma AcceptedClientVariableSurvives(sender: U16, device: Text, target: U16, name: Text, value: Text, rest: Text)
    requires NetworkVariables.ValidName(name) && NetworkVariables.ValidValue(value)
    ensures var m := (sender, (device, (target, (name, value))));
            ClientVarSet().dec(ClientVarSet().enc(m) + rest) == Some((m, rest)) <==>
              |device| <= 255 && |name| <= 255 && |value| <= 0xFFFF
  {
    hide Lawful, Text8, Text16, Pair, Reshape, Headed, Utf8.ByteCut, Utf8.CodePoints, Utf8.CodePointCut, Fixed;
    var m := (sender, (device, (target, (name, value))));
    var cut := (sender, (Utf8.ByteCut(device, 255), (target, (Utf8.ByteCut(name, 255), Utf8.ByteCut(value, 0xFFFF)))));
    VariablesLawful();
    ClientVariableKeeps(sender, device, target, name, value);
    LawfulReads(ClientVarSet(), m, rest);
    assert cut == m <==> |device| <= 255 && |name| <= 255 && |value| <= 0xFFFF;
  }

  lemma ClientVariableKeeps(sender: U16, device: Text, target: U16, name: Text, value: Text)
    requires NetworkVariables.ValidName(name) && NetworkVariables.ValidValue(value)
    ensures ClientVarSet().fits((sender, (device, (target, (name, value)))))
    ensures ClientVarSet().norm((sender, (device, (target, (name, value))))) ==
              (sender, (Utf8.ByteCut(device, 255), (target, (Utf8.ByteCut(name, 255), Utf8.ByteCut(value, 0xFFFF)))))
  {
    hide Lawful, Text8, Text16, Pair, Reshape, Utf8.ByteCut, Utf8.CodePoints, Utf8.CodePointCut;
    Text8Lawful();
    Text16Lawful();
    Utf8.CodePointCutKeepsShort(name, NetworkVariables.MAX_NAME_CHARS);
    Utf8.CodePointCutKeepsShort(value, NetworkVariables.MAX_VALUE_CHARS);
    ReshapeAt(Text8(), Same, ClampName, name);
    ReshapeAt(Text16(), Same, ClampValue, value);
    var nameValue := Pair(NameText(), ValueText());
    PairAt(NameText(), ValueText(), name, value);
    PairAt(Int16, nameValue, target, (name, value));
    PairAt(Text8(), Pair(Int16, nameValue), device, (target, (name, value)));
    PairAt(Int16, Pair(Text8(), Pair(Int16, nameValue)), sender, (device, (target, (name, value))));
  }

  /**
  For valid UTF-8 the value always fits, and the name fits unless it is sixty-four characters
  of four bytes each.
  */
  lemma ValidTextFits(name: seq<Text>, value: seq<Text>)
    requires Utf8.AreCharacters(name) && Utf8.AreCharacters(value)
    requires NetworkVariables.ValidName(Utf8.Join(name)) && NetworkVariables.ValidValue(Utf8.Join(value))
    ensures |Utf8.Join(value)| <= 0xFFFF
    ensures |Utf8.Join(name)| <= 255 <==> !(|name| == 64 && forall i :: 0 <= i < |name| ==> |name[i]| == 4)
  {
    Utf8.CodePointsOfCharacters(name);
    Utf8.CodePointsOfCharacters(value);
    AllFour(name);
  }

  /** Such a name passes validation, and write_string8 drops its last character. */
  lemma LongestNameIsCut(name: seq<Text>)
    requires Utf8.AreCharacters(name) && |name| == 64 && forall i :: 0 <= i < |name| ==> |name[i]| == 4
    ensures NetworkVariables.ValidName(Utf8.Join(name))
    ensures Utf8.ByteCut(Utf8.Join(name), 255) == Utf8.Join(name[..63]) && |Utf8.Join(name[..63])| == 252
  {
    hide Utf8.IsCharacter, Utf8.ByteCut;
    Utf8.CodePointsOfCharacters(name);
    Utf8.ByteCutKeepsWholeCharacters(name, 255);
    Utf8.FittingIsMaximal(name, 255);
    var n := Utf8.Fitting(name, 255);
    AllFour(name[..n]);
    AllFour(name[..63]);
  }

  lemma {:induction false} AllFour(cs: seq<Text>)
    requires Utf8.AreCharacters(cs)
    ensures |Utf8.Join(cs)| == 4 * |cs| <==> forall i :: 0 <= i < |cs| ==> |cs[i]| == 4
  {
    if cs != [] {
      AllFour(cs[1..]);
      Utf8.CodePointsOfCharacters(cs[1..]);
      Utf8.CodePointsOfOne(cs[0]);
      if forall i :: 0 <= i < |cs[1..]| ==> |cs[1..][i]| == 4 {
        assert |cs[0]| == 4 ==> forall i :: 0 <= i < |cs| ==> |cs[i]| == 4 by {
          assert forall i :: 1 <= i < |cs| ==> cs[i] == cs[1..][i - 1];
        }
      } else {
        var i :| 0 <= i < |cs[1..]| && |cs[1..][i]| != 4;
        assert cs[i + 1] == cs[1..][i];
      }
    }
  }
}
