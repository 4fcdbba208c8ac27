/**
A call from one client's send to another's event queue: try_send_now of src/core/rpc_manager.cpp
writes the message, and process_control_message of src/core/netsync_client.cpp reads it. The
server is taken to relay the message as it is.
*/
module CallDelivery {
  import opened Bytes
  import opened Codecs
  import opened Wire
  import opened Messages
  import opened WireLayout
  import Utf8
  import RpcCalls
  import JsonRoundTrip

  /** The sender's number on the wire: a negative one becomes 0, and sixteen bits are kept. */
  function Sender(localNo: int): U16 {
    (if localNo < 0 then 0 else localNo) % 0x1_0000
  }

  /** The message of a call that passes the checks. */
  function MessageOf(rpc: RpcCalls.Rpc, localNo: int, device: Text): (U16, (Text, (seq<U16>, (Text, Text))))
    requires RpcCalls.Sendable(rpc)
  {
    (Sender(localNo), (device, (rpc.targets, (rpc.functionName, JsonRoundTrip.ListText(rpc.arguments)))))
  }

  /** RpcReceived. */
  datatype Received = Received(clientNo: nat, name: Text, args: seq<Text>)

  /** What the receiver makes of a payload: nothing if it is malformed, no arguments if they are no list. */
  function Receive(payload: Text, shown: Text -> Text): Option<Received> {
    var (m, rest) :- Rpc().dec(payload);
    var args := JsonRoundTrip.DecodeList(m.1.1.1.1, shown);
    Some(Received(m.0, m.1.1.1.0, if args.Some? then args.value else []))
  }

  /**
  Every call that passes the checks arrives, with the sender's number, its target list, and its name
  cut to 255 bytes; its arguments arrive one by one as they were given if their JSON text has at most
  65535 bytes, and otherwise none does.
  */
  lemma CallArrives(rpc: RpcCalls.Rpc, localNo: int, device: Text, shown: Text -> Text)
    requires |rpc.targets| <= 255 && forall i :: 0 <= i < |rpc.targets| ==> 0 <= rpc.targets[i] <= 0xFFFF
    ensures var payload := Rpc().enc(MessageOf(rpc, localNo, device));
            var fits := |JsonRoundTrip.ListText(rpc.arguments)| <= 0xFFFF;
            && Rpc().dec(payload).Some? && Rpc().dec(payload).value.0.1.1.0 == rpc.targets
            && Receive(payload, shown) ==
                 Some(Received(Sender(localNo), Utf8.ByteCut(rpc.functionName, 255), if fits then rpc.arguments else []))
  {
    hide Rpc, JsonRoundTrip.ListText, JsonRoundTrip.DecodeList;
    var text := JsonRoundTrip.ListText(rpc.arguments);
    var payload := Rpc().enc(MessageOf(rpc, localNo, device));
    RpcKeeps(Sender(localNo), device, rpc.targets, rpc.functionName, text, []);
    assert payload + [] == payload;
    assert rpc.targets[..|rpc.targets|] == rpc.targets;
    if |text| <= 0xFFFF {
      JsonRoundTrip.ListRoundTrip(rpc.arguments, shown);
    } else {
      JsonRoundTrip.CutListIsRefused(rpc.arguments, shown, Utf8.ByteCut(text, 0xFFFF));
    }
  }
}
