# STYLY NetSync v8 client core: a verified model

This project models the core of the STYLY NetSync client for Godot, protocol version 8, in Dafny
and proves what the program promises about it. Run `dafny verify dfyconfig.toml` to check it.

| files | component |
|---|---|
| `Debounce`, `Dedupe`, `DebounceLane`, `Snapshots`, `VariableHistory`, `NetworkVariables` | network variables: debounced sends, what is not sent twice, server snapshots |
| `OutboundLanes`, `Transport`, `TransportLanes` | the transport's control lane and latest-wins slots, under two threads |
| `RateLimiter`, `RpcCalls`, `RpcManager` | the call rate limit and the queue of calls made before the handshake |
| `Codecs`, `Wire`, `PoseWire`, `Messages`, `WireLayout`, `BinaryIO`, `MessageIO`, `MessageOutput`, `Utf8` | the binary protocol |
| `CallDelivery` | a call from the sender's queue to the receiver's events |
| `Quantise`, `Quaternions`, `SmallestThree`, `HandRotation`, `PoseValues` | what quantising loses |
| `Handedness`, `Rotations` | the coordinate boundary, and what its matrix and the quaternion product mean |
| `JsonStrings`, `Json`, `JsonSpelling`, `JsonGrammar`, `JsonRoundTrip`, `JsonBytes`, `JsonParser` | JSON: the grammar that the parser accepts, exactly, and printing |
| `Presence`, `PresenceHistory`, `DeviceMapping` | who is in the room |

## How the model is built

Where the program changes objects in place, the model has a class with the same fields
(`NetworkVariableManager`, `ZmqTransport`, `RpcManager`, `BinaryReader`, `BinaryWriter`,
`JsonParser`, `DeviceMapping`, `NetSyncClient`). Each method is proved to be one or more steps of a
state machine or a grammar defined on values, and the properties are proved about every run of
that machine. Ghost fields record what the program forgets: messages sent, values intended,
packets accepted. They are never read by the program's own code.

- **Network variables.** One key's four map entries form a `Track`. Its events are sets, flushes,
  snapshot entries and clears, each with the sender's answer; a run is any list of them with a
  clock that does not go back. `NetworkVariableManager` keeps one track per key, and a record of
  each key's events; its invariant says that every track is the run of its record.
- **Transport.** Each block under the mutex and each socket send is one step. The producer's
  steps may fall between any two steps of the network thread. In `ZmqTransport` the producer's
  activity and the socket's answers are arguments of the network thread's methods.
- **Protocol.** A message format is an encoder and a decoder with two laws: `Inverse` (decoding
  what was encoded gives the kept value and stops at the exact end) and `Local` (an accepted input
  is consumed from the front, and only the consumed bytes matter). The reader's and writer's
  methods are proved to be steps of these formats.
- **Numbers.** Coordinates and clocks are exact reals. A square root is an argument that is
  required to be the root. An `f64` field of a message is eight opaque bytes.
- **JSON.** A number keeps the text that was read; how it is printed is an argument. `Json` holds
  the parser's functions; `JsonGrammar` describes the accepted texts without them, as tokens with
  blanks between (`JsonSpelling` says what one token is), and both are proved to agree on every text.

Each machine is also tied to what was called. Functions that read only the events (the messages
that went out, the calls that were made, the time that passed, the snapshots that came) say what
its state must be: `Dedupe`, `VariableHistory`, `PresenceHistory`, `TransportLanes`, and the last
parts of `RpcCalls` and `OutboundLanes`. `WireLayout` does the same for the bytes, after
docs/PROTOCOL_V8.md.

What the sender, the socket and the clock do is an argument everywhere. The order in which the
program traverses a map is left open, except in `Presence`, where it decides the order of events.

## Where the code differs from what one might expect

Each of these has a counterexample or an exact condition among the lemmas.

- Sends of one variable can be less than 100 ms apart: an overdue deadline survives a new leading
  send (`Debounce.TrailingMayFollowLeadingAtOnce`). They are all apart if and only if no accepted
  flush comes before the cooldown is over (`Debounce.ApartIffNoneEarly`). Between clears there are
  at most two per 100 ms window; a clear lifts even that (`Debounce.ClearLiftsTheBound`).
- For client variables the last message sent need not carry the latest accepted value, because a
  server snapshot overwrites the record of the last sent value
  (`Debounce.ClientSnapshotShadowsWire`, exact condition over runs in `Debounce.WireLatestOverRuns`).
- A name of 64 four-byte characters passes validation and then loses its last character on the
  wire (`Messages.LongestNameIsCut`, exact conditions in `Messages.AcceptedVariableSurvives` and
  `Messages.ValidTextFits`).
- The rate limit holds between clears: `clear_pending` forgets the quota
  (`RpcCalls.ClearLiftsTheLimit`, the bound in `RpcCalls.SenderSeesAtMostLimit`).
- A queued call whose targets do not fit blocks the whole queue until it is 5 s old, and takes a
  grant at every flush (`RpcCalls.StuckHeadBlocksForLife`, `RpcCalls.StuckHeadBlocks`).
- A list of more than 65535 entries is written whole behind a count that has wrapped
  (`Wire.CountWraps`, `PoseValues.ClientListRoundTrip`).
- A surrogate escape on its own, high or low, is accepted in JSON and gives text that is not UTF-8
  (`JsonStrings.LoneSurrogateIsNotUtf8`, exact condition in `JsonStrings.UnitsDecideUtf8`).
- A call whose arguments take more than 65535 bytes as JSON is sent with the text cut, and the
  receiver delivers it without any arguments (`CallDelivery.CallArrives`).
- A device id listed under two numbers, or under number 0, lets the local device be announced as
  a remote one (`Presence.DuplicateIdIsAnnounced`, exact condition after one message in
  `Presence.MappingExposesLocal` and over sessions in `Presence.SessionsAnnounceIffUnshielded`).

## Model

| member | source | states |
|---|---|---|
| `Debounce.RunKeepsInv` | src/core/network_variable_manager.cpp:69-216 | in every run, under any refusals, pending and due exist together, deadlines and cooldowns match the sends made, and the latest intent is pending or carried |
| `Debounce.IntentIsLatestSet` | src/core/network_variable_manager.cpp:87-135 | the intent the invariant speaks of is the latest set since the last clear, read off the events alone |
| `Debounce.LatestIntentNeverLost` | src/core/network_variable_manager.cpp:69-216 | the latest accepted value is pending, or nothing is pending and a message or client snapshot since that set carried it; no later message carries another value |
| `Debounce.GlobalLatestIntent` | src/core/network_variable_manager.cpp:69-135 | for a global variable the latest accepted value is pending or is the last message the sender took |
| `Debounce.Settles` | src/core/network_variable_manager.cpp:383-412 | an accepted flush 100 ms or more after the latest set leaves nothing pending until the next set, and for globals the wire's last value is the latest one |
| `Debounce.FlushSettles` | src/core/network_variable_manager.cpp:114-134 | every deadline is at most 100 ms after the set behind it, so one such flush empties the key |
| `Debounce.SendsAreSpaced` | src/core/network_variable_manager.cpp:118-134 | a leading send is at least 100 ms after every earlier send, and trailing sends are at least 100 ms apart |
| `Debounce.AtMostTwoPerWindow` | src/core/network_variable_manager.cpp:118-134 | over a whole run, among events with no clear between them, any half-open 100 ms window holds at most two sends of a key, global or client |
| `Debounce.SendsAreRecorded` | src/core/network_variable_manager.cpp:69-85 | the messages counted here are exactly what a key's evidence gains, snapshots apart |
| `Debounce.PairIsSpaced` | src/core/network_variable_manager.cpp:118-134 | any two sends of a run with no clear between them: a leading one is 100 ms after any, a trailing one 100 ms after a trailing one |
| `Debounce.ClearLiftsTheBound` | src/core/network_variable_manager.cpp:466-475 | a run with two clears in which one key is sent three times at the same moment |
| `Debounce.TrailingMayFollowLeadingAtOnce` | src/core/network_variable_manager.cpp:118-127 | a run in which two sends of one key happen at the same moment |
| `Debounce.ApartIffNoneEarly` | src/core/network_variable_manager.cpp:383-412 | all sends of a run with no clear between them are at least 100 ms apart if and only if no accepted flush found a value overdue, different from the last sent one and still within the cooldown |
| `Debounce.StepKeepsApart` | src/core/network_variable_manager.cpp:118-134 | so from a run whose sends are apart a set always keeps them apart, and a flush does exactly when it is not early |
| `Debounce.WireLatestIffNotShadowed` | src/core/network_variable_manager.cpp:355-362 | a step keeps "pending or last sent is the latest value" if and only if it does not dedupe against a value that only a snapshot carried |
| `Debounce.WireLatestOverRuns` | src/core/network_variable_manager.cpp:310-379 | over whole runs, the latest value is pending or is the last message sent if and only if no event from the latest set on was shadowed |
| `Debounce.LostStaysLost` | src/core/network_variable_manager.cpp:383-412 | a value lost that way is not sent before the next set or clear |
| `Debounce.ClientSnapshotShadowsWire` | src/core/network_variable_manager.cpp:355-362 | a run after which a client variable's latest value was never sent |
| `Debounce.SetKeepsInv` | src/core/network_variable_manager.cpp:87-135 | a set keeps the invariant of its key, whatever the sender answers |
| `Debounce.FlushKeepsInv` | src/core/network_variable_manager.cpp:383-412 | so does a flush |
| `Debounce.GlobalSyncKeepsInv` | src/core/network_variable_manager.cpp:281-291 | so does an entry of a global snapshot |
| `Debounce.ClientReportKeepsInv` | src/core/network_variable_manager.cpp:355-362 | so does an entry of a client snapshot |
| `Dedupe.LastSentIsOnServer` | src/core/network_variable_manager.cpp:277-291 | the value that sets are compared with is exactly the one that the server has as far as the messages sent and the snapshots show |
| `Dedupe.NewValueIsPending` | src/core/network_variable_manager.cpp:104-134 | a set of a value that the server does not have is pending afterwards, whatever the sender says |
| `Dedupe.SetAfterNewsIsKept` | src/core/network_variable_manager.cpp:277-291 | if the latest snapshot entry since the last message carried w, setting anything but w is not swallowed |
| `Dedupe.SetAfterRemovalIsKept` | src/core/network_variable_manager.cpp:336-345 | after a client snapshot without the name, a set of any value, the old one included, is not swallowed |
| `Dedupe.SendsAreNews` | src/core/network_variable_manager.cpp:87-135 | no message carries a value that the server has already |
| `Dedupe.CoolMayLead` | src/core/network_variable_manager.cpp:104-134 | the cooldown is over exactly if every send since the last clear is at least 100 ms ago |
| `Dedupe.SetSendsIff` | src/core/network_variable_manager.cpp:104-134 | a set sends at once if and only if the sender accepts, the value is news and the last send is 100 ms ago, and sends that value |
| `Dedupe.PendingCopyIsSent` | src/core/network_variable_manager.cpp:383-443 | what is pending between a message and the next set is a copy of it |
| `Dedupe.NoEcho` | src/core/network_variable_manager.cpp:277-291 | after a message and before the next set a snapshot entry or a removal drops the trailing copy, so it is never sent over somebody else's change |
| `DebounceLane.TrySendNow` | src/core/network_variable_manager.cpp:69-85 | after an accepted message the last one on the wire for the key carries the value, and that is what later values are compared with; pending values, deadlines and cooldowns of all keys stay, and a refusal changes nothing |
| `DebounceLane.SetVariable` | src/core/network_variable_manager.cpp:107-135 | the four map updates of a set are exactly one set step on that key and touch no other key |
| `DebounceLane.SetLeading` | src/core/network_variable_manager.cpp:118-127 | the branch outside the cooldown |
| `DebounceLane.SetWaiting` | src/core/network_variable_manager.cpp:129-134 | the branch inside the cooldown |
| `DebounceLane.FlushOne` | src/core/network_variable_manager.cpp:396-410 | one overdue key: dropped if it equals the last sent value, else sent, else kept |
| `DebounceLane.FlushPending` | src/core/network_variable_manager.cpp:383-412 | every key takes exactly its own flush step, and the result says whether any overdue value is left |
| `DebounceLane.ReconcileGlobal` | src/core/network_variable_manager.cpp:281-291 | the reconciliation of one snapshot entry is exactly one step of that key; `Dedupe.LastSentIsOnServer` says what it remembers |
| `DebounceLane.ForgetClient` | src/core/network_variable_manager.cpp:336-345 | a name that left a client's table |
| `DebounceLane.AdoptClient` | src/core/network_variable_manager.cpp:355-362 | a name that a client snapshot lists |
| `DebounceLane.RemoveMissing` | src/core/network_variable_manager.cpp:332-353 | the loop over names that disappeared: keys forgotten and removals reported |
| `DebounceLane.AdoptListed` | src/core/network_variable_manager.cpp:355-375 | the loop over listed names: keys adopted and changes reported |
| `DebounceLane.ReplaceTable` | src/core/network_variable_manager.cpp:325-377 | a client's table replaced: an exact diff, and each key takes exactly its own step |
| `DebounceLane.SetKeepsLane` | src/core/network_variable_manager.cpp:87-216 | a set keeps the invariant of every key |
| `DebounceLane.FlushKeepsLane` | src/core/network_variable_manager.cpp:383-443 | a flush keeps the invariant of every key |
| `DebounceLane.GlobalSyncKeepsLane` | src/core/network_variable_manager.cpp:269-308 | a global snapshot keeps it |
| `DebounceLane.ReplaceKeepsLane` | src/core/network_variable_manager.cpp:310-379 | a client snapshot keeps it |
| `DebounceLane.WithoutClientKeepsLane` | src/core/network_variable_manager.cpp:451-464 | forgetting a client keeps it |
| `Snapshots.AdoptEntry` | src/core/network_variable_manager.cpp:293-306 | one entry changes the table and reports a change only if the value differs |
| `Snapshots.GlobalChangesAreExact` | src/core/network_variable_manager.cpp:269-308 | replaying the reported changes over the old table gives the new one, none is trivial and each old value is right, repeated names included |
| `Snapshots.GlobalChangesAreListed` | src/core/network_variable_manager.cpp:298-306 | every reported change has client number 0, removes nothing, and is an entry of the snapshot |
| `Snapshots.LastEntryWins` | src/core/network_variable_manager.cpp:269-308 | the last entry for a name decides its value |
| `Snapshots.UnlistedStays` | src/core/network_variable_manager.cpp:269-308 | names a global snapshot does not list, and the empty name, keep their value |
| `Snapshots.DiffExtends` | src/core/network_variable_manager.cpp:332-375 | adding an honest change for an untouched name keeps a change list an exact diff |
| `Snapshots.DiffReaches` | src/core/network_variable_manager.cpp:310-379 | replaying a block's diff leads to the block's table, and every change is honest |
| `Snapshots.BlockExtends` | src/core/network_variable_manager.cpp:310-379 | so does a sequence of blocks, the same client repeated or not |
| `Snapshots.LastBlockWins` | src/core/network_variable_manager.cpp:310-379 | the last block for a client is its table |
| `Snapshots.UnnamedClientStays` | src/core/network_variable_manager.cpp:310-379 | clients that no block names keep their table |
| `Snapshots.RemoveAll` | src/core/network_variable_manager.cpp:250-262 | clearing a table reports exactly its entries as removed |
| `VariableHistory.RecordSet` | src/core/network_variable_manager.cpp:87-216 | after a set every key's maps are still those of a run of its events |
| `VariableHistory.RecordFlush` | src/core/network_variable_manager.cpp:383-443 | so are they after a flush |
| `VariableHistory.RecordGlobalSync` | src/core/network_variable_manager.cpp:269-308 | after a global snapshot |
| `VariableHistory.RecordClientSync` | src/core/network_variable_manager.cpp:310-379 | after a client snapshot |
| `VariableHistory.RecordClear` | src/core/network_variable_manager.cpp:451-475 | and after a clear |
| `VariableHistory.NewsWithGlobalSync` | src/core/network_variable_manager.cpp:293-306 | the table of globals holds for every name the value of its latest snapshot entry |
| `VariableHistory.SetOverNewsIsKept` | src/core/network_variable_manager.cpp:277-291 | a set of another value than that is pending afterwards, or a message since that entry carried it |
| `NetworkVariables.Validate` | src/core/network_variable_manager.cpp:56-65 | names of 1 to 64 characters and values of at most 1024 are accepted, and nothing else |
| `NetworkVariables.NetworkVariableManager.constructor` | src/core/network_variable_manager.hpp:112-125 | a new manager satisfies the invariant of every key |
| `NetworkVariables.NetworkVariableManager.SetGlobal` | src/core/network_variable_manager.cpp:87-135 | acceptance by name, value and 100 entries, then one set step on that key; a value that differs from the known one is pending or was sent since it was learnt |
| `NetworkVariables.NetworkVariableManager.SetClient` | src/core/network_variable_manager.cpp:168-216 | the same for a client variable |
| `NetworkVariables.NetworkVariableManager.Tick` | src/core/network_variable_manager.cpp:445-449 | both lanes are flushed, and the result says whether nothing overdue is left |
| `NetworkVariables.NetworkVariableManager.HandleGlobalSync` | src/core/network_variable_manager.cpp:269-308 | the table is updated, the reported changes replay to it under client number 0 without removals, and every key takes its entries' steps |
| `NetworkVariables.NetworkVariableManager.ApplyBlock` | src/core/network_variable_manager.cpp:314-377 | one client block: table replaced, exact diff, keys reconciled |
| `NetworkVariables.NetworkVariableManager.HandleClientSync` | src/core/network_variable_manager.cpp:310-379 | all blocks in order, with one exact change list; the initial sync counts as received |
| `NetworkVariables.NetworkVariableManager.ClearPendingForClient` | src/core/network_variable_manager.cpp:451-464 | that client's keys start afresh and no others change |
| `NetworkVariables.NetworkVariableManager.ClearMyClientVariables` | src/core/network_variable_manager.cpp:238-265 | refused without a number or by the sender, with no effect; else the own table is emptied, reported and forgotten |
| `NetworkVariables.NetworkVariableManager.ClearPendingSends` | src/core/network_variable_manager.cpp:466-475 | every key starts afresh |
| `NetworkVariables.NetworkVariableManager.GlobalValueIsKept` | src/core/network_variable_manager.cpp:69-135 | whatever calls were made, the latest accepted value of a global variable is pending with a deadline, or nothing is pending and the last message sent carries it |
| `NetworkVariables.NetworkVariableManager.GlobalValueSettles` | src/core/network_variable_manager.cpp:383-412 | a tick 100 ms or more after the latest set, with the sender accepting, leaves nothing pending for it until the next set |
| `NetworkVariables.NetworkVariableManager.ClientValueIsKept` | src/core/network_variable_manager.cpp:168-216 | the same for a client variable if and only if nothing since the latest set was shadowed |
| `NetworkVariables.NetworkVariableManager.RatesAreBounded` | src/core/network_variable_manager.cpp:118-134 | whatever calls were made, no variable is sent more than twice in 100 ms between clears |
| `OutboundLanes.ControlRunKeepsInv` | src/transport/zmq_transport.cpp:158-175 | every interleaving of enqueues and drain steps keeps the control lane's invariant |
| `OutboundLanes.ControlLaneIsSafe` | src/transport/zmq_transport.cpp:334-368 | accepted packets are sent or expired in order, then held, then queued; at most 257 are undelivered; sent means at most 5 s old |
| `OutboundLanes.ClockIsTime` | src/transport/zmq_transport.cpp:158-175 | the clock is the time that passed in the steps |
| `OutboundLanes.AcceptedAreCalls` | src/transport/zmq_transport.cpp:158-175 | what was accepted is exactly the enqueue calls that found room since the last reset, each with its payload and the time of its call |
| `OutboundLanes.SampleIsBegin` | src/transport/zmq_transport.cpp:334-368 | the clock sample of a drain is the time at which it began |
| `OutboundLanes.DeparturesAreSampled` | src/transport/zmq_transport.cpp:334-368 | every departure is stamped with the time at which its drain began |
| `OutboundLanes.FatesAreByTime` | src/transport/zmq_transport.cpp:334-368 | the j-th departure is the j-th accepted call with its payload, sent exactly if at most 5 s lie between that call and the beginning of the drain |
| `OutboundLanes.SendsAreTaken` | src/transport/zmq_transport.cpp:334-368 | nothing counts as sent that the socket did not take |
| `OutboundLanes.RefusedStays` | src/transport/zmq_transport.cpp:334-368 | a refused packet stays where it is, ends the drain, and is the first to be offered again |
| `OutboundLanes.DrainEnds` | src/transport/zmq_transport.cpp:334-368 | a drain ends within a number of its own steps that is fixed when it starts, however many packets arrive meanwhile |
| `OutboundLanes.AdvanceGetsCloser` | src/transport/zmq_transport.cpp:339-366 | each step of a drain lowers the number of steps left |
| `OutboundLanes.EnqueueKeepsDistance` | src/transport/zmq_transport.cpp:158-175 | an enqueue during a drain does not raise it, because the packet is too young to expire |
| `OutboundLanes.DrainSendsAtMostBatch` | src/transport/zmq_transport.cpp:339-366 | a drain sends at most 64 packets |
| `OutboundLanes.SlotRunKeepsInv` | src/transport/zmq_transport.cpp:370-433 | every interleaving of sets, clears, copies, sends and comparisons keeps the slot's invariant |
| `OutboundLanes.LatestAlwaysWins` | src/transport/zmq_transport.cpp:177-204 | over the set calls of any run: a waiting payload is the last one set, an empty slot set since the last clear means the last payload sent is the last one set, and nothing is sent after a newer one, or twice |
| `OutboundLanes.SetsAreCalls` | src/transport/zmq_transport.cpp:177-204 | the record of a slot is exactly the set calls that were made |
| `OutboundLanes.OffersAreSets` | src/transport/zmq_transport.cpp:370-433 | what is offered to the socket is the payload of one of those calls |
| `OutboundLanes.OffersAreTaken` | src/transport/zmq_transport.cpp:370-433 | nothing counts as sent that the socket did not take, and a refusal leaves the slot as it was |
| `OutboundLanes.QuietRoundSettles` | src/transport/zmq_transport.cpp:370-393 | with the socket accepting and the producer quiet, one round empties the slot and brings the wire up to date |
| `Transport.LanesRunKeepsInv` | src/transport/zmq_transport.cpp:325-433 | all lanes together stay safe in every run, clears of the slots included |
| `TransportLanes.LanesAreIndependent` | src/transport/zmq_transport.cpp:158-214 | in every run each lane is the run of its own steps, whatever happens on the others; clearing reaches all |
| `TransportLanes.ObjectsGetTheirLatest` | src/transport/zmq_transport.cpp:189-204 | under every interleaving of all lanes, what waits for an object is the payload last set for it, and once gone without a clear it was the last one sent |
| `Transport.ZmqTransport.constructor` | src/transport/zmq_transport.hpp:160-172 | a new transport is idle with empty lanes |
| `Transport.ZmqTransport.TryEnqueueControl` | src/transport/zmq_transport.cpp:158-175 | accepted exactly if there is room, and then the packet with its payload and the time of the call is last in the outbox; nothing else changes |
| `Transport.ZmqTransport.SetLatestTransform` | src/transport/zmq_transport.cpp:177-187 | the avatar slot takes one set step |
| `Transport.ZmqTransport.SetLatestObjectTransform` | src/transport/zmq_transport.cpp:189-204 | that object's slot takes one set step; object 0 is ignored |
| `Transport.ZmqTransport.ClearOutgoing` | src/transport/zmq_transport.cpp:206-214 | everything queued is dropped |
| `Transport.ZmqTransport.TakeHead` | src/transport/zmq_transport.cpp:340-348 | the locked block of a drain is one step of the machine |
| `Transport.ZmqTransport.ExpireHead` | src/transport/zmq_transport.cpp:350-356 | so is the expiry test |
| `Transport.ZmqTransport.OfferHead` | src/transport/zmq_transport.cpp:358-365 | so is the send |
| `Transport.ZmqTransport.DrainTurn` | src/transport/zmq_transport.cpp:339-366 | one turn of the loop is exactly the machine's steps with the producer's in between, brings the drain closer to its end, and stops only with nothing left or at a refused packet |
| `Transport.ZmqTransport.DrainControlSends` | src/transport/zmq_transport.cpp:334-368 | terminates under any producer activity and any answers; is a run of the machine that judges every packet at one clock sample, sends at most 64, reports whether it sent any, and ends only with a full batch, or in the turn after the packets that left, with nothing left or with the held packet refused in that turn |
| `Transport.ZmqTransport.OfferAvatar` | src/transport/zmq_transport.cpp:371-383 | what is offered is the payload that was latest at the copy |
| `Transport.ZmqTransport.SettleAvatar` | src/transport/zmq_transport.cpp:385-392 | the slot is cleared only if it still holds what was sent |
| `Transport.ZmqTransport.TrySendLatestTransform` | src/transport/zmq_transport.cpp:370-393 | exactly the copy, send and comparison steps with the producer's in between: sends the payload latest at the copy, once, or nothing |
| `Transport.ZmqTransport.OfferObject` | src/transport/zmq_transport.cpp:410-423 | the same for one object |
| `Transport.ZmqTransport.SettleObject` | src/transport/zmq_transport.cpp:425-430 | and for its comparison and erase |
| `Transport.ZmqTransport.ObjectTurn` | src/transport/zmq_transport.cpp:409-431 | exactly one object's steps with the producer's in between; no other object is disturbed, and it is sent unless cleared or refused |
| `Transport.ZmqTransport.TrySendLatestObjectTransforms` | src/transport/zmq_transport.cpp:395-433 | each object waiting at the start sends at most once, no other object sends, the result says whether any did, and with a willing socket and no clear all of them are sent |
| `Transport.ZmqTransport.FlushOutgoing` | src/transport/zmq_transport.cpp:325-332 | the control lane, then the avatar, then the objects, each with its own result, as one run that ends idle |
| `RateLimiter.PruneSplits` | src/core/rpc_manager.cpp:29-31 | pruning cuts the history exactly between grants older than the window and the rest |
| `RateLimiter.RunKeepsInv` | src/core/rpc_manager.cpp:23-41 | in every run the pruned deque is a suffix of all grants |
| `RateLimiter.GrantsAgreeWithCount` | src/core/rpc_manager.cpp:23-41 | the deque grants exactly when fewer than the limit of all past grants lie in the window |
| `RateLimiter.RefinesPlainLimiter` | src/core/rpc_manager.cpp:23-41 | every run of the deque makes the same grants as counting the full history |
| `RateLimiter.WindowHoldsLimit` | src/core/rpc_manager.cpp:23-41 | grants spaced that way put at most the limit into any closed window |
| `RateLimiter.RunHoldsLimit` | src/core/rpc_manager.cpp:23-41 | so every closed interval of the window's length has at most the limit of grants |
| `RpcCalls.LeaveKeepsBalance` | src/core/rpc_manager.cpp:108-133 | a departure from the queue keeps every entry in exactly one place |
| `RpcCalls.EnqueueKeepsBalance` | src/core/rpc_manager.cpp:86-106 | so does an enqueue, with its overflow |
| `RpcCalls.ExactlyOnePlace` | src/core/rpc_manager.cpp:86-133 | the i-th queued call is the i-th departure or its place in the queue: first in, first out |
| `RpcCalls.WithinGrows` | src/core/rpc_manager.cpp:43-84 | trying a call keeps calls that reach the sender matched by grants in every interval |
| `RpcCalls.RunKeepsInv` | src/core/rpc_manager.cpp:23-138 | in every run of sends, flushes and clears, under any refusals, and since the last clear: the queue balances, the deque agrees with the full history and the sender is reached only on quota |
| `RpcCalls.QueueIsConserved` | src/core/rpc_manager.cpp:86-133 | of what the queue has taken in every call is in exactly one place, in order; `RpcCalls.QueueTakesWhatWasCalled` says what that is |
| `RpcCalls.QueueTakesWhatWasCalled` | src/core/rpc_manager.cpp:86-106 | in every run the queue has taken in exactly the calls made before the client was ready since the last clear: name, arguments, targets and time, in order |
| `RpcCalls.CallsAreConserved` | src/core/rpc_manager.cpp:86-133 | each of them is, unchanged, gone with a fitting fate or waiting, in calling order |
| `RpcCalls.EventHandsOver` | src/core/rpc_manager.cpp:43-133 | what each event hands to the sender: a ready call itself exactly if the history of grants has room and its checks pass, a flush the calls it delivers and at most its refused head, nothing else |
| `RpcCalls.FlushHandsOverHeads` | src/core/rpc_manager.cpp:108-133 | a flush hands over the calls it takes off the front, in order and unchanged, and then at most the head that is refused |
| `RpcCalls.OnlyFullQueuesOverflow` | src/core/rpc_manager.cpp:96-100 | a call pushes another one out only when a hundred are waiting, and then the oldest |
| `RpcCalls.SenderSeesAtMostLimit` | src/core/rpc_manager.cpp:23-84 | over a whole run, any closed interval of the window's length with no clear in it has at most the limit of calls reach the sender |
| `RpcCalls.SinceClearAtMostLimit` | src/core/rpc_manager.cpp:23-84 | the same for the calls since the last clear |
| `RpcCalls.LogGrows` | src/core/rpc_manager.cpp:43-84 | nothing is ever taken off the log of calls that this counts |
| `RpcCalls.ClearLiftsTheLimit` | src/core/rpc_manager.cpp:135-138 | with limit 1 and a window of 1 s, a clear between two calls lets both reach the sender |
| `RpcCalls.FlushIsBounded` | src/core/rpc_manager.cpp:108-133 | a flush only takes calls off the front and delivers at most ten, each of which reached the sender |
| `RpcCalls.FlushStopsForCause` | src/core/rpc_manager.cpp:115-132 | a flush ends with an empty queue, with ten deliveries, or at a call that is not overdue and that quota, checks or sender turned down |
| `RpcCalls.FlushNeedsAnswers` | src/core/rpc_manager.cpp:108-133 | the n-th call of a flush goes out only on the n-th yes of the sender |
| `RpcCalls.StuckHeadBlocks` | src/core/rpc_manager.cpp:115-131 | a head that cannot pass the checks stops a flush without any delivery, and takes a grant whenever there is one |
| `RpcCalls.StuckHeadBlocksForLife` | src/core/rpc_manager.cpp:115-131 | so for as long as it is not overdue the whole queue waits behind it, however often it is flushed |
| `RpcCalls.StuckHeadExpires` | src/core/rpc_manager.cpp:117-122 | and the first ready flush after that drops it |
| `RpcManager.RpcManager.constructor` | src/core/rpc_manager.cpp:11-15 | a new manager is the start of a run, with the limit and the window raised to their least values |
| `RpcManager.RpcManager.TryConsumeQuota` | src/core/rpc_manager.cpp:23-41 | grants exactly when the full history has room, and otherwise says how long until the oldest hit leaves the window |
| `RpcManager.RpcManager.TrySendNow` | src/core/rpc_manager.cpp:43-84 | one try of the machine; the result is the sender's answer, and false if it was not reached |
| `RpcManager.RpcManager.Send` | src/core/rpc_manager.cpp:86-106 | one send event of the machine; a call before the handshake is queued last with its name, arguments, targets and time, a later one leaves the queue alone |
| `RpcManager.RpcManager.FlushPending` | src/core/rpc_manager.cpp:108-133 | terminates and is exactly one flush step of the machine; the result says whether anything waits; the expiry counter agrees |
| `RpcManager.RpcManager.PopHead` | src/core/rpc_manager.cpp:115-127 | the oldest call leaves with its fate |
| `RpcManager.RpcManager.ClearPending` | src/core/rpc_manager.cpp:135-138 | the run starts afresh |
| `Codecs.AppendingChangesNothing` | src/protocol/protocol_v8.cpp:453-750 | bytes after the consumed ones change neither the result nor what is consumed |
| `Codecs.CutIsRejected` | src/protocol/protocol_v8.cpp:453-750 | an accepted input cut anywhere inside its consumed part is rejected |
| `Wire.UnsignedLawful` | src/protocol/binary_reader.cpp:20-47 | unsigned fields: decoding undoes encoding and is local |
| `Wire.SignedLawful` | src/protocol/binary_reader.cpp:49-61 | the same for signed fields, sign extension of 24 bits and clamping included |
| `Wire.DoubleLawful` | src/protocol/binary_reader.cpp:63-76 | the same for the eight bytes of an f64 |
| `Wire.Text8Lawful` | src/protocol/binary_writer.cpp:43-47 | text with an 8-bit length comes back cut to 255 bytes |
| `Wire.Text16Lawful` | src/protocol/binary_writer.cpp:49-56 | text with a 16-bit length comes back cut to 65535 bytes |
| `Wire.List16Lawful` | src/protocol/protocol_v8.cpp:347-360 | a list with a 16-bit count is recovered whole up to 65535 items |
| `Wire.List8Lawful` | src/protocol/protocol_v8.cpp:276-289 | a list with an 8-bit count is recovered cut to 255 items |
| `Wire.CountWraps` | src/protocol/protocol_v8.cpp:347-360 | at any length exactly the items that the wrapped count covers are recovered |
| `PoseWire.SanitizeByBits` | src/protocol/protocol_v8.cpp:222-231 | what sanitising does to each flag bit |
| `PoseWire.SanitizeSettles` | src/protocol/protocol_v8.cpp:222-231 | sanitising twice is sanitising once |
| `PoseWire.EncodingMarksDelta` | src/protocol/protocol_v8.cpp:233-239 | the derived encoding flags are always ones that the reader accepts |
| `PoseWire.EncodingByBits` | src/protocol/protocol_v8.cpp:233-239 | the derived encoding byte has its low five bits, the last of them exactly off the moving floor |
| `PoseWire.FlagMasks` | src/protocol/message_types.hpp:50-57 | the seven flags are the bits with masks 1, 2, 4, 8, 16, 32 and 64 |
| `PoseWire.VirtualsLawful` | src/protocol/protocol_v8.cpp:82-90 | the virtual list comes back capped at 50, or empty if not valid |
| `PoseWire.PayloadFits` | src/protocol/protocol_v8.cpp:21-91 | a payload that matches its flags is written and read back as what the wire keeps |
| `PoseWire.BodyLawful` | src/protocol/protocol_v8.cpp:93-218 | the pose body obeys both laws |
| `PoseWire.BodyRoundTrip` | src/protocol/protocol_v8.cpp:21-218 | for every flag byte the body with its derived header is read back exactly |
| `Messages.PosesLawful` | src/protocol/protocol_v8.cpp:476-511 | room and client pose messages obey both laws |
| `Messages.VariablesLawful` | src/protocol/protocol_v8.cpp:562-658 | so do the five variable messages |
| `Messages.ControlLawful` | src/protocol/protocol_v8.cpp:465-560 | so do call, hello and device mapping |
| `Messages.ObjectsLawful` | src/protocol/protocol_v8.cpp:660-750 | so do the five object messages |
| `Messages.AcceptedVariableSurvives` | src/protocol/protocol_v8.cpp:291-299 | an accepted global variable survives its set message unchanged if and only if its byte lengths fit the length prefixes |
| `Messages.AcceptedClientVariableSurvives` | src/protocol/protocol_v8.cpp:301-310 | the same for a client variable |
| `Messages.ValidTextFits` | src/protocol/protocol_v8.cpp:13-19 | for valid UTF-8 the value always fits, and the name unless it is 64 four-byte characters |
| `Messages.LongestNameIsCut` | src/protocol/binary_writer.cpp:43-47 | a name of 64 four-byte characters is valid and is cut to its first 63, which are 252 bytes |
| `WireLayout.LittleSpells` | docs/PROTOCOL_V8.md:182-192 | the bytes of a field spell its number, each worth 256 times the one before |
| `WireLayout.UnsignedLayout` | docs/PROTOCOL_V8.md:182-188 | u8, u16 and u32 fields are those bytes |
| `WireLayout.SignedLayout` | docs/PROTOCOL_V8.md:187-189 | i16 and i24 fields are the bytes of the number modulo the size of the field |
| `WireLayout.TextLayout` | docs/PROTOCOL_V8.md:191-192 | str8 and str16 are the length and the bytes, cut to fit |
| `WireLayout.RpcLayout` | src/protocol/protocol_v8.cpp:276-289 | the bytes of a call, field by field |
| `WireLayout.RpcKeeps` | src/protocol/protocol_v8.cpp:513-532 | for every call: what the decoder gives back |
| `WireLayout.OnlyOneIsStealth` | src/protocol/protocol_v8.cpp:552-552 | a stealth flag is on exactly for the byte 1 |
| `WireLayout.MappingLayout` | src/protocol/protocol_v8.cpp:362-375 | the bytes of a device mapping |
| `WireLayout.MappingArrives` | src/protocol/protocol_v8.cpp:534-560 | numbers, stealth flags and device ids of up to 255 bytes arrive as they were sent |
| `WireLayout.VariableLayouts` | docs/PROTOCOL_V8.md:402-512 | the bytes of hello, global and client variable sets and clears |
| `WireLayout.SnapshotLayouts` | docs/PROTOCOL_V8.md:495-526 | the bytes of both snapshots |
| `WireLayout.SnapshotsArrive` | src/protocol/protocol_v8.cpp:575-647 | snapshots of variables within the limits arrive entry by entry, in order |
| `WireLayout.BodyLayout` | docs/PROTOCOL_V8.md:321-359 | the bytes of a pose body, with the parts that its flags call for |
| `WireLayout.PoseLayouts` | docs/PROTOCOL_V8.md:409-435 | the bytes of client and room poses |
| `WireLayout.HandshakeIsStealthPose` | src/protocol/protocol_v8.cpp:261-274 | a pose message is the stealth handshake, byte for byte, if and only if its sequence number is 0 and its caller set the stealth bit |
| `WireLayout.ObjectLayouts` | src/protocol/protocol_v8.cpp:320-332 | the bytes of object poses and room objects |
| `WireLayout.OwnershipLayouts` | src/protocol/protocol_v8.cpp:334-345 | the bytes of the ownership messages |
| `CallDelivery.CallArrives` | src/core/rpc_manager.cpp:43-84 | from send to event: every call that passes the checks arrives with sender, targets and name; its arguments arrive one by one as given if their JSON text has at most 65535 bytes, and otherwise none does |
| `BinaryIO.BinaryReader.constructor` | src/protocol/binary_reader.hpp:20-22 | a reader starts at the front with no failure |
| `BinaryIO.BinaryReader.Require` | src/protocol/binary_reader.cpp:9-18 | true exactly if nothing failed and the bytes are there; failure latches |
| `BinaryIO.BinaryReader.ReadU8` | src/protocol/binary_reader.cpp:20-25 | one step of the field's format; the offset stays within the data |
| `BinaryIO.BinaryReader.ReadU16` | src/protocol/binary_reader.cpp:27-35 | the same |
| `BinaryIO.BinaryReader.ReadU32` | src/protocol/binary_reader.cpp:37-47 | the same |
| `BinaryIO.BinaryReader.ReadI16` | src/protocol/binary_reader.hpp:27-27 | the same, signed |
| `BinaryIO.BinaryReader.ReadI24` | src/protocol/binary_reader.cpp:49-61 | the same, with sign extension |
| `BinaryIO.BinaryReader.ReadF64` | src/protocol/binary_reader.cpp:63-76 | the same, byte by byte |
| `BinaryIO.BinaryReader.ReadString8` | src/protocol/binary_reader.cpp:78-86 | the same, for text |
| `BinaryIO.BinaryReader.ReadString16` | src/protocol/binary_reader.cpp:88-96 | the same, for long text |
| `BinaryIO.BinaryReader.ReadBytes` | src/protocol/binary_reader.cpp:98-105 | the same, for raw bytes |
| `BinaryIO.BinaryReader.BeginMessage` | src/protocol/protocol_v8.cpp:453-461 | true exactly if the message starts with its type and, where it has one, the version |
| `BinaryIO.BinaryWriter.WriteU8` | src/protocol/binary_writer.hpp:21-21 | appends the field's encoding |
| `BinaryIO.BinaryWriter.WriteU16` | src/protocol/binary_writer.hpp:24-27 | the same |
| `BinaryIO.BinaryWriter.WriteU32` | src/protocol/binary_writer.hpp:30-35 | the same |
| `BinaryIO.BinaryWriter.WriteI16` | src/protocol/binary_writer.hpp:28-28 | the same, signed |
| `BinaryIO.BinaryWriter.WriteI24` | src/protocol/binary_writer.cpp:20-32 | the same, clamped to 24 bits |
| `BinaryIO.BinaryWriter.WriteF64` | src/protocol/binary_writer.cpp:34-41 | the same, byte by byte |
| `BinaryIO.BinaryWriter.WriteString8` | src/protocol/binary_writer.cpp:43-47 | appends the text cut to 255 bytes, with its length |
| `BinaryIO.BinaryWriter.WriteString16` | src/protocol/binary_writer.cpp:49-56 | appends the text cut to 65535 bytes, with its length |
| `BinaryIO.ItemsSnoc` | src/protocol/protocol_v8.cpp:501-509 | reading one more item extends the list read so far |
| `BinaryIO.ItemsFail` | src/protocol/protocol_v8.cpp:501-509 | a list that fails early fails at any length |
| `MessageIO.ReadPoseBody` | src/protocol/protocol_v8.cpp:93-218 | the reader's run over a body succeeds exactly when the format does, with its value and its end |
| `MessageIO.ReadVirtuals` | src/protocol/protocol_v8.cpp:197-215 | the same for the virtual list: a count above 50 is read as 50, and without its flag the values are consumed and discarded |
| `MessageIO.ReadRoomClient` | src/protocol/protocol_v8.cpp:502-508 | the same for one client of a room |
| `MessageIO.DeserializeRoomPose` | src/protocol/protocol_v8.cpp:488-511 | accepts exactly what the room-pose format accepts, with the same value |
| `MessageIO.DeserializeClientVarSync` | src/protocol/protocol_v8.cpp:614-647 | the same for client variable snapshots |
| `MessageIO.DeserializeRpc` | src/protocol/protocol_v8.cpp:513-532 | the same for calls |
| `MessageOutput.WritePoseBody` | src/protocol/protocol_v8.cpp:21-91 | appends exactly the format's encoding of the quantised body |
| `MessageOutput.WriteVirtuals` | src/protocol/protocol_v8.cpp:82-90 | the same for the virtual list, cut at 50 |
| `MessageOutput.SerializeRoomPose` | src/protocol/protocol_v8.cpp:347-360 | the bytes are the room-pose format's encoding |
| `MessageOutput.SerializeClientVarSync` | src/protocol/protocol_v8.cpp:389-403 | the bytes are the client-snapshot format's encoding |
| `MessageOutput.SerializeGlobalVarSet` | src/protocol/protocol_v8.cpp:291-299 | the bytes are the set-message format's encoding |
| `MessageOutput.SerializeRpc` | src/protocol/protocol_v8.cpp:276-289 | the bytes are the call format's encoding, at most 255 targets |
| `Utf8.CodePointLength` | src/core/network_variable_manager.cpp:14-22 | counts the bytes that start a character |
| `Utf8.CodePointsOfCharacters` | src/core/network_variable_manager.cpp:14-22 | on valid UTF-8 that count is the number of characters |
| `Utf8.TruncateBytes` | src/protocol/binary_writer.cpp:58-68 | the loop computes the byte cut |
| `Utf8.ByteCutKeepsWholeCharacters` | src/protocol/binary_writer.cpp:58-68 | on valid UTF-8 the byte cut keeps exactly the whole characters that fit |
| `Utf8.FittingIsMaximal` | src/protocol/binary_writer.cpp:58-68 | one character more would exceed the limit |
| `Utf8.TruncateCodePoints` | src/protocol/binary_writer.cpp:70-83 | the loop computes the code-point cut |
| `Utf8.CodePointCutKeepsFirstCharacters` | src/protocol/binary_writer.cpp:70-83 | on valid UTF-8 the code-point cut keeps exactly the first characters up to the limit |
| `Utf8.CodePointCutKeepsShort` | src/protocol/binary_writer.cpp:70-83 | text within the limit is not cut, valid UTF-8 or not |
| `Quantise.RoundIsNearestEven` | src/protocol/pose_codec.cpp:9-23 | no integer is closer, and a tie goes to the even one |
| `Quantise.RoundIsMonotone` | src/protocol/pose_codec.cpp:9-23 | rounding keeps order |
| `Quantise.RoundFixesIntegers` | src/protocol/pose_codec.cpp:9-23 | integers stay |
| `Quantise.QuantizeIsClose` | src/protocol/pose_codec.cpp:32-60 | in range, the decoded value is within half a step |
| `Quantise.QuantizeIsMonotone` | src/protocol/pose_codec.cpp:32-60 | quantising keeps order |
| `Quantise.QuantizeFixesGrid` | src/protocol/pose_codec.cpp:48-60 | grid points are exact, and clamp beyond the range |
| `Quantise.QuantizeSaturates` | src/protocol/pose_codec.cpp:32-44 | beyond the range the limit is written |
| `Quantise.RelativePositionIsClose` | src/protocol/protocol_v8.cpp:63-73 | a head-relative coordinate in range is decoded within 7.5 mm although head and delta are rounded apart |
| `Quaternions.NormalizeIsUnit` | src/protocol/pose_codec.cpp:62-69 | normalising gives a unit quaternion for every input |
| `Quaternions.NormalizeFixesUnit` | src/protocol/pose_codec.cpp:62-69 | a unit quaternion stays |
| `Quaternions.NormalizeNegates` | src/protocol/pose_codec.cpp:62-69 | opposite inputs give opposite results, unless degenerate |
| `Rotations.NormalizeKeepsDirection` | src/protocol/pose_codec.cpp:62-69 | above the threshold normalising divides by the magnitude, below it gives the identity |
| `SmallestThree.Compress` | src/protocol/pose_codec.cpp:114-163 | the loops compute the packed word |
| `SmallestThree.Decompress` | src/protocol/pose_codec.cpp:165-199 | the loops compute the residual and the unpacked quaternion |
| `SmallestThree.SumSquares` | src/protocol/pose_codec.cpp:188-195 | the second loop computes the residual |
| `SmallestThree.FieldsSurvive` | src/protocol/pose_codec.cpp:158-169 | the packed word has 32 bits and gives back its index and its three codes |
| `SmallestThree.PackedLayout` | docs/PROTOCOL_V8.md:281-303 | the word: the index of the first component of greatest magnitude in the top two bits, then ten bits each for the others in order, with the sign that makes that one positive |
| `SmallestThree.CodeIsNearest` | src/protocol/pose_codec.cpp:141-157 | each code is the nearest of 1024 steps from -0.70710677 to 0.70710677 |
| `SmallestThree.CodeIsClose` | src/protocol/pose_codec.cpp:141-157 | one coded component is off by at most half a step |
| `SmallestThree.UnpackIsAccurate` | src/protocol/pose_codec.cpp:165-199 | for every unit quaternion with its largest component positive the residual is at least 0.24 and the result is accurate |
| `SmallestThree.PackingIsAccurate` | src/protocol/pose_codec.cpp:114-199 | for every input: residual at least 0.24, so the clamp never acts; the last normalisation changes nothing; each component within 0.0022; dot product at least 1 - 3e-6 |
| `SmallestThree.OppositesPackAlike` | src/protocol/pose_codec.cpp:114-163 | q and -q give the same word |
| `HandRotation.InverseUndoes` | src/protocol/pose_codec.cpp:71-83 | multiplying by the inverse undoes multiplying, up to the squared magnitude |
| `HandRotation.NormMultiplies` | src/protocol/pose_codec.cpp:76-83 | the magnitude of a product is the product of the magnitudes |
| `HandRotation.RelativeIsExact` | src/protocol/protocol_v8.cpp:60-68 | before packing, head times relative rotation is the hand's rotation |
| `HandRotation.ProductsAreClose` | src/protocol/pose_codec.cpp:76-83 | products of unit quaternions whose factors have dot products of at least 1 - e have one of at least 1 - 4e |
| `HandRotation.HandRotationIsClose` | src/protocol/protocol_v8.cpp:175-188 | for every head and hand rotation, packed apart, the reconstructed hand rotation is a unit quaternion with a dot product of at least 1 - 12e-6 with the original, up to sign |
| `PoseValues.NothingMoreIsLost` | src/protocol/protocol_v8.cpp:21-91 | the wire alters nothing that quantising produced |
| `PoseValues.RoomPoseRoundTrip` | src/protocol/protocol_v8.cpp:347-360 | for any flags, virtual lists and room id, decoding the encoding succeeds at the exact end and recovers sanitised flags, derived encoding flags and every quantised number and packed rotation; `PoseValues.LocomotionArrives` and `PoseValues.PartsArrive` say which numbers those are |
| `PoseValues.SerializeRoom` | src/protocol/protocol_v8.cpp:347-360 | writes that encoding from the bodies, and it decodes with nothing left over |
| `PoseValues.ClientListRoundTrip` | src/protocol/protocol_v8.cpp:347-360 | at any number of clients, what the wrapped count covers is recovered; all of it if and only if there are at most 65535 |
| `PoseValues.PositionsArriveClose` | src/protocol/protocol_v8.cpp:63-73 | over the wire, hands and virtuals in range arrive within 7.5 mm in each coordinate |
| `PoseValues.LocomotionArrives` | src/protocol/protocol_v8.cpp:38-51 | over the wire, the physical pose on a moving floor and the origin's delta off it arrive, in range, within 5 mm and 0.05 degrees, and never in each other's place |
| `PoseValues.PartsArrive` | src/protocol/protocol_v8.cpp:21-91 | over the wire, sequence number, sanitised flags, the head's position within 5 mm, and every rotation word in its own place; a part arrives exactly if its flags say so |
| `Handedness.ReflectionMatrix` | src/godot/coordinate_converter.cpp:15-23 | the loops build the reflection of the third axis |
| `Handedness.MatrixMultiply` | src/godot/coordinate_converter.cpp:25-37 | the loops compute the matrix product |
| `Handedness.EntryOfProduct` | src/godot/coordinate_converter.cpp:29-33 | the inner loop computes one entry |
| `Handedness.ConjugateFlips` | src/godot/coordinate_converter.cpp:45-51 | reflecting on both sides flips exactly the entries that mix the third axis with another |
| `Handedness.MirrorIsConjugation` | src/godot/coordinate_converter.cpp:53-76 | the matrix of (-x,-y,z,w) is the reflected matrix of the quaternion, exactly |
| `Handedness.MirrorCommutesWithNormalize` | src/godot/coordinate_converter.cpp:53-54 | converting and normalising commute, so this holds for inputs of any magnitude |
| `Handedness.MirrorUndoesItself` | src/godot/coordinate_converter.cpp:114-133 | converting there and back changes nothing |
| `Handedness.MirrorRespectsMultiply` | src/protocol/pose_codec.cpp:76-83 | the conversion of a product is the product of the conversions |
| `Handedness.MirrorRespectsRotation` | src/godot/coordinate_converter.cpp:39-43 | converting a rotated vector is rotating the converted one |
| `Handedness.PivotIsNonZero` | src/godot/coordinate_converter.cpp:78-105 | the branch tests always pick a component that is not zero |
| `Handedness.FromBasisInverts` | src/godot/coordinate_converter.cpp:78-110 | through all four branches, without dividing by zero, the quaternion comes back up to sign with w at least 0 |
| `Handedness.BothRoutesAgree` | src/godot/coordinate_converter.cpp:45-133 | reading the reflected matrix back gives the closed form up to sign, for every quaternion |
| `Rotations.BasisRotates` | src/godot/coordinate_converter.cpp:53-76 | the matrix of a unit quaternion carries every vector where the quaternion does |
| `Rotations.PointChangesSign` | src/godot/coordinate_converter.cpp:114-133 | a position keeps its first two coordinates and changes the sign of the third |
| `JsonStrings.EncodeString` | src/core/json_util.cpp:49-91 | the loop writes the quoted, escaped text |
| `JsonStrings.EscapedHasNoControls` | src/core/json_util.cpp:49-91 | no control character is left unescaped (section 7 of RFC 8259) |
| `JsonStrings.PieceUndoesEscape` | src/core/json_util.cpp:249-315 | every escape that is printed reads back as its byte |
| `JsonStrings.StringRoundTrip` | src/core/json_util.cpp:242-317 | a printed literal reads back as the same bytes, whatever they are, and stops at its end |
| `JsonStrings.Utf8OfIsCharacter` | src/core/json_util.cpp:13-29 | append_utf8 writes one well-formed character (section 4 of RFC 3629) with the right code point exactly for Unicode scalar values |
| `JsonStrings.Utf16EscapesBecomeUtf8` | src/core/json_util.cpp:289-311 | text escaped as UTF-16 units, surrogate pairs included, is read as its UTF-8 form |
| `JsonStrings.LoneSurrogateIsNotUtf8` | src/core/json_util.cpp:289-311 | a surrogate on its own, high or low, is accepted, and the text it becomes is no sequence of characters |
| `JsonStrings.UnitsDecideUtf8` | src/core/json_util.cpp:289-311 | every list of sixteen-bit units written as escapes is accepted, and its text is valid UTF-8 if and only if every high surrogate is followed by a low one and every low one follows a high one |
| `Json.PutKeepsSorted` | src/core/json_util.cpp:397-397 | an object's members stay in key order |
| `Json.PutIsUpdate` | src/core/json_util.cpp:397-397 | assigning a key changes that entry and no other: the last of repeated keys wins |
| `JsonSpelling.ShortEscapesAreStandard` | src/core/json_util.cpp:249-288 | a backslash and any byte but u: read if and only if it is one of the eight letters of section 7 of RFC 8259, as what that stands for |
| `JsonSpelling.PrintedEscapesAreStandard` | src/core/json_util.cpp:49-91 | the printer writes the escape with that letter |
| `JsonSpelling.OtherEscapes` | src/core/json_util.cpp:49-91 | any other byte is printed as it is, or as \u00 and two digits if it is a control character |
| `JsonSpelling.HexDigitsAreStandard` | src/core/json_util.cpp:319-340 | a hexadecimal digit has its value in either case, and no other byte is one |
| `JsonSpelling.BadHexIsRefused` | src/core/json_util.cpp:289-340 | an escape without four digits is refused |
| `JsonSpelling.RawBytesAreKept` | src/core/json_util.cpp:242-260 | all bytes but quote and backslash stand for themselves, and a literal without its closing quote is refused |
| `JsonSpelling.NumbersAreRead` | src/core/json_util.cpp:208-240 | sign, digits, fraction and exponent, each optional, are read to their end exactly if there is a digit before the exponent |
| `JsonSpelling.NumberHasParts` | src/core/json_util.cpp:208-240 | and whatever is read as a number has that shape |
| `JsonSpelling.LiteralBefore` | src/core/json_util.cpp:242-317 | a string literal is read the same before any text |
| `JsonSpelling.LiteralFound` | src/core/json_util.cpp:242-317 | what was read as a string literal is one as a whole |
| `JsonGrammar.SkipIsExact` | src/core/json_util.cpp:140-149 | skipping takes the longest start of the bytes 0x20, 0x09, 0x0A and 0x0D, and nothing else |
| `JsonGrammar.RawReads` | src/core/json_util.cpp:160-206 | a value as it may be written, with any blanks before and between its tokens, is read to its exact end as what it means, if and only if it nests no deeper than allowed |
| `JsonGrammar.ValueWritten` | src/core/json_util.cpp:160-412 | whatever is read as a value was written so: tokens of the grammar with blanks between them |
| `JsonGrammar.SpelledIsParsed` | src/core/json_util.cpp:112-128 | a text of the grammar is parsed as what it means if at most 64 containers are open, and refused otherwise |
| `JsonGrammar.ParsesExactly` | src/core/json_util.cpp:112-412 | the parser accepts exactly the texts of the grammar with at most 64 containers open, and reads each as what it means |
| `JsonRoundTrip.ValueReads` | src/core/json_util.cpp:160-206 | a printed number-free value is read back up to its exact end if and only if it fits the depth that is left; else it is refused |
| `JsonRoundTrip.ParseUndoesDump` | src/core/json_util.cpp:433-476 | parse(dump(v)) is v for nesting up to 64 and a refusal beyond |
| `JsonRoundTrip.ValueIsProper` | src/core/json_util.cpp:160-412 | whatever the text, an accepted value is well formed and within the depth limit |
| `JsonRoundTrip.ParsedSurvives` | src/core/json_util.cpp:433-476 | printing what was parsed and parsing again changes nothing |
| `JsonRoundTrip.ListRoundTrip` | src/core/json_util.cpp:93-104 | decoding an encoded array returns the same list, for every list of arbitrary byte strings |
| `JsonRoundTrip.NestedArgumentSurvives` | src/core/json_util.cpp:478-499 | an element that was itself JSON is passed on as text that parses to that element |
| `JsonRoundTrip.PrintedIsTight` | src/core/json_util.cpp:433-471 | what is printed is those tokens with nothing between them |
| `JsonRoundTrip.SpacedTextParses` | src/core/json_util.cpp:112-128 | a value's printed tokens with blanks before, between and after them parse to it; any other byte after them is refused |
| `JsonRoundTrip.LastMemberWins` | src/core/json_util.cpp:373-412 | of members with the same key, in any order with others, the last one is kept |
| `JsonRoundTrip.SpacedArguments` | src/core/json_util.cpp:478-499 | an argument list, however it is spaced, is decoded element by element: strings as their text, null as the empty text, anything else as JSON that parses to it again |
| `JsonRoundTrip.SpacedStrings` | src/core/json_util.cpp:478-499 | a list of strings with blanks between its tokens is decoded as that list |
| `JsonRoundTrip.CutListIsRefused` | src/core/json_util.cpp:478-499 | a printed list that was cut anywhere is not decoded |
| `JsonBytes.OnlyTokenBytesPass` | src/core/json_util.cpp:112-240 | an accepted text has outside its strings no byte but blanks and those that occur in tokens |
| `JsonBytes.OnlyBlanksMayStand` | src/core/json_util.cpp:140-149 | with bytes that occur in no token put before, between and after the tokens of a value, the text is accepted, as that value, if and only if all of them are the four blanks |
| `JsonBytes.NumberBecomesElement` | src/core/json_util.cpp:342-371 | a number put into an empty array becomes an element |
| `JsonBytes.DigitBecomesElement` | src/core/json_util.cpp:342-371 | the text [1], for example |
| `JsonParser.DumpText` | src/core/json_util.cpp:433-471 | the recursive printer computes the printed form |
| `JsonParser.DumpArray` | src/core/json_util.cpp:443-453 | its array loop |
| `JsonParser.DumpObject` | src/core/json_util.cpp:454-468 | its object loop |
| `JsonParser.EncodeStringArray` | src/core/json_util.cpp:93-104 | the loop computes the encoded list |
| `JsonParser.DecodeStringArray` | src/core/json_util.cpp:478-499 | the loop computes the decoded list: an array and nothing else, strings as their text, null as the empty text, anything else printed |
| `JsonParser.JsonParser.constructor` | src/core/json_util.cpp:110-110 | the cursor starts at the front |
| `JsonParser.JsonParser.SkipWhitespace` | src/core/json_util.cpp:140-149 | the cursor passes exactly the bytes 0x20, 0x09, 0x0A and 0x0D that come next |
| `JsonParser.JsonParser.ReadLiteral` | src/core/json_util.cpp:151-158 | the cursor moves past the word exactly if it is next |
| `JsonParser.JsonParser.ParseNumber` | src/core/json_util.cpp:208-240 | takes exactly the number that the grammar takes |
| `JsonParser.JsonParser.ParseHex4` | src/core/json_util.cpp:319-340 | reads four hexadecimal digits or leaves the cursor |
| `JsonParser.JsonParser.ParseUnicode` | src/core/json_util.cpp:289-311 | one Unicode escape, with its low half if one follows |
| `JsonParser.JsonParser.ParseString` | src/core/json_util.cpp:242-317 | agrees with the grammar on every text, in bounds, and terminates |
| `JsonParser.JsonParser.ParseValue` | src/core/json_util.cpp:160-206 | the same for a value, by mutual recursion |
| `JsonParser.JsonParser.ParseArray` | src/core/json_util.cpp:342-371 | the same for an array |
| `JsonParser.JsonParser.ParseObject` | src/core/json_util.cpp:373-412 | the same for an object |
| `JsonParser.JsonParser.ParseText` | src/core/json_util.cpp:112-128 | the same for a whole text |
| `Presence.RunKeepsInv` | src/core/netsync_client.cpp:540-591 | in every session announced and pending clients partition the clients with a remote pose, and each client's connect and disconnect events alternate, ending as the client stands |
| `Presence.SnapshotNews` | src/core/device_mapping.cpp:61-98 | a snapshot announces exactly the remote clients that were not announced and have a known device id, with that id, and reports exactly the announced ones that are gone |
| `Presence.PosesAreAlive` | src/core/netsync_client.cpp:558-572 | the remote poses are exactly those of the clients alive |
| `Presence.LocalIsNeverAnnounced` | src/core/device_mapping.cpp:24-32 | over every session with distinct device ids and non-zero numbers the local device is never announced |
| `Presence.MappingExposesLocal` | src/core/device_mapping.cpp:9-35 | after a mapping message some snapshots, before the next mapping or reset, announce the local device if and only if the message leaves its id on a number that is 0 or not the last one given for it |
| `Presence.ExposedIffNotShielded` | src/core/netsync_client.cpp:553-563 | in any session some snapshots announce the local device if and only if a number other than the local one, or 0, has its id |
| `Presence.SessionsAnnounceIffUnshielded` | src/core/device_mapping.cpp:9-35 | over whole sessions: with given mapping and reset messages some snapshots get the local device announced if and only if those messages leave it unshielded at some point |
| `Presence.DuplicateIdIsAnnounced` | src/core/device_mapping.cpp:18-32 | a session in which a device id listed twice is announced |
| `PresenceHistory.LastEntryCounts` | src/core/device_mapping.cpp:9-35 | the last entry for a number gives its device id and stealth flag, the last one for a device id its number, also the local one |
| `PresenceHistory.UnlistedHasNone` | src/core/device_mapping.cpp:9-35 | what is not listed is in no table |
| `PresenceHistory.LastListingCounts` | src/core/netsync_client.cpp:553-572 | the last listing of a client gives its pose; the local client, once known, has none |
| `PresenceHistory.TablesAreLatest` | src/core/netsync_client.cpp:540-591 | over whole sessions the tables are those of the latest mapping and the latest snapshot since the latest reset |
| `PresenceHistory.AnnouncedByHistory` | src/core/device_mapping.cpp:61-98 | after any messages a client is announced if and only if some snapshot showed it while its device id was known and every one since then showed it too; it is pending if and only if the latest one shows it and it is not announced |
| `DeviceMapping.DeviceMapping.constructor` | src/core/device_mapping.hpp:62-74 | all five tables start empty |
| `DeviceMapping.DeviceMapping.Apply` | src/core/device_mapping.cpp:9-35 | the three tables are those of the message, the last entry winning, and the local number and its change flag follow |
| `DeviceMapping.DeviceMapping.UpdatePresence` | src/core/device_mapping.cpp:61-98 | announced and pending clients and both lists, in ascending order, are exactly those of the specification |
| `DeviceMapping.DeviceMapping.AnnounceAlive` | src/core/device_mapping.cpp:72-83 | the first loop announces or parks each client |
| `DeviceMapping.DeviceMapping.ForgetPending` | src/core/device_mapping.cpp:86-88 | the second loop forgets pending clients that left |
| `DeviceMapping.DeviceMapping.DropAnnounced` | src/core/device_mapping.cpp:90-97 | the third loop reports announced clients that left |
| `DeviceMapping.DeviceMapping.Clear` | src/core/device_mapping.cpp:100-107 | all five tables are emptied and the local number is forgotten |
| `DeviceMapping.NetSyncClient.ProcessMapping` | src/core/netsync_client.cpp:407-415 | one mapping step of the session |
| `DeviceMapping.NetSyncClient.CollectPoses` | src/core/netsync_client.cpp:558-571 | the loop collects the alive clients and their poses, the last listing winning |
| `DeviceMapping.NetSyncClient.ProcessRoomPose` | src/core/netsync_client.cpp:540-591 | a snapshot of this room is one step of the session with exactly its events; anything else changes nothing |
| `DeviceMapping.NetSyncClient.ResetSession` | src/core/netsync_client.cpp:189-194 | one reset step of the session |

## Left out

- ZeroMQ sockets, threads, discovery, interface enumeration and endpoint building: foreign calls; a send is a boolean argument.
- `clear_outgoing` and `stop` while `drain_control_sends` is running: `pending_control_` is also touched outside the mutex, which atomic steps do not describe.
- Transport.ZmqTransport.ClearOutgoing: requires that no drain is under way, for that reason.
- Transport.ZmqTransport.DrainTurn: requires that the producer does not clear between the steps of a drain, for that reason.
- Transport.ZmqTransport.DrainControlSends: the same.
- Transport.ZmqTransport.FlushOutgoing: the same for its first part; the other two may be cleared at any point.
- Transport.ZmqTransport.TrySendLatestObjectTransforms: the order in which the waiting objects are visited is left open; counters and log lines of the transport are not modelled.
- Clocks that go back: the network-variable, limiter, queue and transport results assume a nondecreasing clock.
- Initial-sync timeout and its reset, getters, callbacks and log lines of the network-variable manager.
- Changing the rate limit in mid-run, the warning cooldown, and the counter of rate-limited calls, which also counts retries.
- The server: `CallDelivery` takes a call as relayed unchanged, as docs/PROTOCOL_V8.md section 5.5 says.
- The other serialisers and deserialisers as loops over a buffer: hello, client pose, device mapping, client variable set and clear, global variable snapshot and the object messages are modelled on values, as formats that obey the laws and have the bytes of the protocol document; the order of their buffer updates is not captured.
- MessageOutput.WritePoseBody: takes the derived header and the quantised payload; `PoseValues` says how they come from a body.
- `PoseValues` takes rotations as packed words; how they are made and read is in `SmallestThree` and `HandRotation`.
- Floating-point rounding, NaN and infinity; trigonometric reconstruction of physical poses and yaw.
- JSON numbers (`strtod`, `snprintf`) beyond the text they are read from, error texts, and acceptance as in RFC 8259: the parser is looser on purpose.
- A reader's skip and its other accessors; negative or out-of-range client numbers in the presence tables.
- `ObjectSyncManager`, avatar send throttling, device-id files, discovery replies, `NetSyncBridge`, the GDScript addon, samples and build scripts: binding code, or simpler versions of what is modelled.
