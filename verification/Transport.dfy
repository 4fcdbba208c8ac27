/**
ZmqTransport's outbound queues (src/transport/zmq_transport.cpp). The class keeps the program's
fields; the ghost field `lanes` follows module OutboundLanes, and every method is proved to be a
run of those machines. What the producer thread does between two steps of the network thread is
an argument, and so are the socket's answers.
*/
module Transport {
  import opened Bytes
  import opened OutboundLanes

  // ---------------------------------------------------------------- all lanes together

  datatype Lanes = Lanes(control: Control, avatar: Slot, objects: map<nat, Slot>)

  datatype Step =
    | OnControl(control: ControlStep)
    | OnAvatar(slot: SlotStep)
    | OnObject(id: nat, slot: SlotStep)
    | ClearAll

  function ObjectSlot(l: Lanes, id: nat): Slot {
    if id in l.objects then l.objects[id] else EMPTY_SLOT
  }

  function LanesNext(l: Lanes, step: Step): Lanes {
    match step
    case OnControl(s) => l.(control := ControlNext(l.control, s))
    case OnAvatar(s) => l.(avatar := SlotNext(l.avatar, s))
    case OnObject(id, s) => l.(objects := l.objects[id := SlotNext(ObjectSlot(l, id), s)])
    case ClearAll =>
      Lanes(ControlNext(l.control, Reset), SlotNext(l.avatar, Drop),
            map id | id in l.objects :: SlotNext(l.objects[id], Drop))
  }

  function LanesRun(l: Lanes, steps: seq<Step>): Lanes {
    if steps == [] then l else LanesNext(LanesRun(l, steps[..|steps| - 1]), steps[|steps| - 1])
  }

  ghost predicate LanesInv(l: Lanes) {
    ControlInv(l.control) && SlotInv(l.avatar) && forall id :: id in l.objects ==> SlotInv(l.objects[id])
  }

  lemma LanesNextKeepsInv(l: Lanes, step: Step)
    requires LanesInv(l)
    ensures LanesInv(LanesNext(l, step))
  {
    hide ControlInv, SlotInv, ControlNext, SlotNext;
    EmptySlotInv();
    match step
    case OnControl(s) => ControlNextKeepsInv(l.control, s);
    case OnAvatar(s) => SlotNextKeepsInv(l.avatar, s);
    case OnObject(id, s) => SlotNextKeepsInv(ObjectSlot(l, id), s);
    case ClearAll =>
      ControlNextKeepsInv(l.control, Reset);
      SlotNextKeepsInv(l.avatar, Drop);
      forall id | id in l.objects
        ensures SlotInv(SlotNext(l.objects[id], Drop))
      {
        SlotNextKeepsInv(l.objects[id], Drop);
      }
  }

  lemma EmptySlotInv()
    ensures SlotInv(EMPTY_SLOT)
  {
  }

  /** Every lane stays safe in every run of all of them together. */
  lemma {:induction false} LanesRunKeepsInv(l: Lanes, steps: seq<Step>)
    requires LanesInv(l)
    ensures LanesInv(LanesRun(l, steps))
  {
    hide LanesNext, LanesInv;
    if steps != [] {
      LanesRunKeepsInv(l, steps[..|steps| - 1]);
      LanesNextKeepsInv(LanesRun(l, steps[..|steps| - 1]), steps[|steps| - 1]);
    }
  }

  lemma {:induction false} LanesRunAppend(l: Lanes, a: seq<Step>, b: seq<Step>)
    ensures LanesRun(LanesRun(l, a), b) == LanesRun(l, a + b)
  {
    hide LanesNext;
    if b == [] {
      assert a + b == a;
    } else {
      var n := |b| - 1;
      LanesRunAppend(l, a, b[..n]);
      assert (a + b)[..|a| + n] == a + b[..n] && (a + b)[|a| + n] == b[n];
    }
  }

  lemma LanesRunOne(l: Lanes, a: seq<Step>, step: Step)
    ensures LanesNext(LanesRun(l, a), step) == LanesRun(l, a + [step])
  {
    assert (a + [step])[..|a|] == a;
  }

  // ---------------------------------------------------------------- the producer

  datatype Action =
    | TryEnqueueControl(payload: Text, elapsed: Elapsed)
    | SetLatestTransform(payload: Text)
    | SetLatestObjectTransform(id: nat, payload: Text)
    | ClearOutgoing

  /** The steps of a producer action; object 0 is ignored. */
  function StepsOf(a: Action): seq<Step> {
    match a
    case TryEnqueueControl(payload, elapsed) => [OnControl(Enqueue(payload, elapsed))]
    case SetLatestTransform(payload) => [OnAvatar(Set(payload))]
    case SetLatestObjectTransform(id, payload) => if id == 0 then [] else [OnObject(id, Set(payload))]
    case ClearOutgoing => [ClearAll]
  }

  function AllSteps(actions: seq<Action>): seq<Step> {
    if actions == [] then [] else AllSteps(actions[..|actions| - 1]) + StepsOf(actions[|actions| - 1])
  }

  /** One turn of a drain: its own steps, with the producer's before the locked block and before the send. */
  function DrainSteps(l: Lanes, before: seq<Action>, during: seq<Action>, answer: bool): seq<Step> {
    var taken := AllSteps(before) + [OnControl(Advance(true))];
    if LanesRun(l, taken).control.phase.Idle? then taken
    else
      var judged := taken + [OnControl(Advance(true))];
      if LanesRun(l, judged).control.phase.Looping? then judged
      else judged + AllSteps(during) + [OnControl(Advance(answer))]
  }

  /** One round of the avatar slot. */
  function AvatarSteps(before: seq<Action>, answer: bool, after: seq<Action>): seq<Step> {
    [OnAvatar(Copy)] + AllSteps(before) + [OnAvatar(Offer(answer))]
    + if answer then AllSteps(after) + [OnAvatar(Settle)] else []
  }

  /** One turn of an object that was waiting when the turns began; it may be gone by now. */
  function ObjectSteps(l: Lanes, id: nat, first: seq<Action>, before: seq<Action>, answer: bool, after: seq<Action>): seq<Step> {
    if ObjectSlot(LanesRun(l, AllSteps(first)), id).held.None? then AllSteps(first)
    else
      AllSteps(first) + ([OnObject(id, Copy)] + AllSteps(before) + [OnObject(id, Offer(answer))])
      + if answer then AllSteps(after) + [OnObject(id, Settle)] else []
  }

  /** Producer activity at every point where the network thread is between two steps. */
  type Schedule = nat -> seq<Action>

  predicate NoClear(actions: seq<Action>) {
    forall i :: 0 <= i < |actions| ==> !actions[i].ClearOutgoing?
  }

  ghost predicate NeverClears(schedule: Schedule) {
    forall k :: NoClear(schedule(k))
  }

  ghost function PayloadOf(p: Option<Packet>): Option<Text> {
    if p.Some? then Some(p.value.payload) else None
  }

  /** No call of the network thread is under way. */
  ghost predicate Quiet(l: Lanes) {
    l.control.phase.Idle? && l.avatar.flight.Grounded? && forall id :: ObjectSlot(l, id).flight.Grounded?
  }

  class ZmqTransport {
    var outbox: seq<Packet>
    var hasPending: bool
    var pending: Packet
    var hasLatest: bool
    var latest: Packet
    var objects: map<nat, Packet>
    var clock: real
    ghost var lanes: Lanes

    ghost predicate Valid()
      reads this
    {
      && LanesInv(lanes)
      && lanes.control.outbox == outbox && lanes.control.clock == clock
      && lanes.control.held == (if hasPending then Some(pending) else None)
      && lanes.avatar.held == (if hasLatest then Some(latest.payload) else None)
      && forall id :: ObjectSlot(lanes, id).held == PayloadOf(Lookup(objects, id))
    }

    constructor (clock: real)
      ensures Valid() && Quiet(lanes) && Fresh(lanes.control) && lanes.avatar == EMPTY_SLOT && lanes.objects == map[]
    {
      this.clock, outbox, hasPending, hasLatest, objects := clock, [], false, false, map[];
      pending, latest := Packet([], 0.0), Packet([], 0.0);
      lanes := Lanes(Control([], None, Idle, clock, [], []), EMPTY_SLOT, map[]);
    }

    // ------------------------------------------------------------ producer thread

    /** `usable`: the transport runs and has met no error. */
    method TryEnqueueControl(payload: Text, elapsed: Elapsed, usable: bool) returns (ok: bool)
      requires Valid()
      modifies this
      ensures Valid() && ok == (usable && |old(outbox)| < OUTBOX_MAX)
      ensures outbox == if ok then old(outbox) + [Packet(payload, old(clock) + elapsed)] else old(outbox)
      ensures clock == if usable then old(clock) + elapsed else old(clock)
      ensures (hasPending, pending, hasLatest, latest, objects) == old((hasPending, pending, hasLatest, latest, objects))
      ensures lanes == if usable then LanesNext(old(lanes), OnControl(Enqueue(payload, elapsed))) else old(lanes)
    {
      hide LanesInv;
      if !usable {
        return false;
      }
      LanesNextKeepsInv(lanes, OnControl(Enqueue(payload, elapsed)));
      clock := clock + elapsed;
      ok := |outbox| < OUTBOX_MAX;
      if ok {
        outbox := outbox + [Packet(payload, clock)];
      }
      lanes := LanesNext(lanes, OnControl(Enqueue(payload, elapsed)));
      SameObjects(old(lanes), lanes);
    }

    method SetLatestTransform(payload: Text, usable: bool)
      requires Valid()
      modifies this
      ensures Valid()
      ensures if usable then hasLatest && latest.payload == payload else (hasLatest, latest) == old((hasLatest, latest))
      ensures (outbox, hasPending, pending, objects) == old((outbox, hasPending, pending, objects))
      ensures lanes == if usable then LanesNext(old(lanes), OnAvatar(Set(payload))) else old(lanes)
    {
      hide LanesInv;
      if !usable {
        return;
      }
      LanesNextKeepsInv(lanes, OnAvatar(Set(payload)));
      latest := Packet(payload, clock);
      hasLatest := true;
      lanes := LanesNext(lanes, OnAvatar(Set(payload)));
      SameObjects(old(lanes), lanes);
    }

    method SetLatestObjectTransform(id: nat, payload: Text, usable: bool)
      requires Valid()
      modifies this
      ensures Valid()
      ensures objects == if usable && id != 0 then old(objects)[id := Packet(payload, clock)] else old(objects)
      ensures (outbox, hasPending, pending, hasLatest, latest) == old((outbox, hasPending, pending, hasLatest, latest))
      ensures lanes == if usable && id != 0 then LanesNext(old(lanes), OnObject(id, Set(payload))) else old(lanes)
    {
      hide LanesInv;
      if id == 0 || !usable {
        return;
      }
      LanesNextKeepsInv(lanes, OnObject(id, Set(payload)));
      objects := objects[id := Packet(payload, clock)];
      lanes := LanesNext(lanes, OnObject(id, Set(payload)));
      OneObject(old(lanes), id, Set(payload));
    }

    /** clear_outgoing, while no drain of the control lane is under way. */
    method ClearOutgoing()
      requires Valid() && lanes.control.phase.Idle?
      modifies this
      ensures Valid() && lanes == LanesNext(old(lanes), ClearAll)
      ensures outbox == [] && !hasPending && !hasLatest && objects == map[]
    {
      hide LanesInv;
      LanesNextKeepsInv(lanes, ClearAll);
      outbox, hasLatest, latest, objects := [], false, Packet([], 0.0), map[];
      hasPending, pending := false, Packet([], 0.0);
      lanes := LanesNext(lanes, ClearAll);
      NoObjects(old(lanes));
    }

    /** One producer call on a usable transport. */
    method Act(action: Action)
      requires Valid() && (lanes.control.phase.Idle? || !action.ClearOutgoing?)
      modifies this
      ensures Valid() && lanes == LanesRun(old(lanes), StepsOf(action))
    {
      hide LanesNext, LanesRun, LanesInv, ObjectSlot, PayloadOf, Lookup;
      OneStep(lanes);
      match action {
        case TryEnqueueControl(payload, elapsed) => var _ := TryEnqueueControl(payload, elapsed, true);
        case SetLatestTransform(payload) => SetLatestTransform(payload, true);
        case SetLatestObjectTransform(id, payload) => SetLatestObjectTransform(id, payload, true);
        case ClearOutgoing => ClearOutgoing();
      }
    }

    /** The producer thread, between two steps of the network thread. */
    method Interfere(actions: seq<Action>)
      requires Valid() && (lanes.control.phase.Idle? || NoClear(actions))
      modifies this
      ensures Valid() && lanes == LanesRun(old(lanes), AllSteps(actions))
      ensures Undisturbed(old(lanes), lanes) && (NoClear(actions) ==> DrainUndisturbed(old(lanes), lanes))
    {
      hide LanesNext, LanesRun, LanesInv, Undisturbed, DrainUndisturbed, ObjectSlot, PayloadOf, Lookup, AllSteps, StepsOf;
      NothingDisturbs(lanes);
      NoActions(lanes, actions);
      for i := 0 to |actions|
        invariant Valid() && lanes == LanesRun(old(lanes), AllSteps(actions[..i]))
        invariant Undisturbed(old(lanes), lanes)
        invariant NoClear(actions) ==> DrainUndisturbed(old(lanes), lanes)
      {
        SamePhase(old(lanes), lanes);
        AllStepsSnoc(old(lanes), actions, i);
        ProducerDoesNotDisturb(old(lanes), lanes, actions[i]);
        Act(actions[i]);
      }
      assert actions[..|actions|] == actions;
    }

    // ------------------------------------------------------------ network thread: control lane

    /** The head of the outbox becomes the held packet; false when there is nothing to hold. */
    method TakeHead() returns (any: bool)
      requires Valid() && lanes.control.phase.Looping? && lanes.control.phase.sent < DRAIN_BATCH
      modifies this
      ensures Valid() && lanes == LanesNext(old(lanes), OnControl(Advance(true)))
      ensures any == lanes.control.phase.Judging? && !any == lanes.control.phase.Idle?
    {
      hide LanesInv, LanesNext, Advanced, ObjectSlot, PayloadOf, Lookup, Sends, StepsLeft, PhaseIsRight;
      AdvanceLanes(lanes, true);
      any := true;
      if !hasPending {
        if outbox == [] {
          any := false;
        } else {
          pending := outbox[0];
          outbox := outbox[1..];
          hasPending := true;
        }
      }
      lanes := LanesNext(lanes, OnControl(Advance(true)));
      SameObjects(old(lanes), lanes);
    }

    /** The expiry test on the held packet. */
    method ExpireHead(now: real) returns (expired: bool)
      requires Valid() && lanes.control.phase.Judging? && lanes.control.phase.now == now
      modifies this
      ensures Valid() && lanes == LanesNext(old(lanes), OnControl(Advance(true)))
      ensures expired == lanes.control.phase.Looping? && !expired == lanes.control.phase.Offering?
    {
      hide LanesInv, LanesNext, Advanced, ObjectSlot, PayloadOf, Lookup, Sends, StepsLeft, PhaseIsRight;
      AdvanceLanes(lanes, true);
      expired := now - pending.enqueuedAt > TTL;
      if expired {
        hasPending := false;
      }
      lanes := LanesNext(lanes, OnControl(Advance(true)));
      SameObjects(old(lanes), lanes);
    }

    /** The socket takes the held packet, or not. */
    method OfferHead(taken: bool)
      requires Valid() && lanes.control.phase.Offering?
      modifies this
      ensures Valid() && lanes == LanesNext(old(lanes), OnControl(Advance(taken)))
      ensures if taken then lanes.control.phase.Looping? else lanes.control.phase.Idle?
    {
      hide LanesInv, LanesNext, Advanced, ObjectSlot, PayloadOf, Lookup, Sends, StepsLeft, PhaseIsRight;
      AdvanceLanes(lanes, taken);
      if taken {
        hasPending := false;
      }
      lanes := LanesNext(lanes, OnControl(Advance(taken)));
      SameObjects(old(lanes), lanes);
    }

    /**
    One turn of the loop of drain_control_sends, with producer activity before its locked block
    and before its send.
    */
    method DrainTurn(now: real, before: seq<Action>, during: seq<Action>, answer: bool)
        returns (outcome: Outcome)
      requires Valid() && lanes.control.phase.Looping? && lanes.control.phase.sent < DRAIN_BATCH
      requires lanes.control.phase.now == now && NoClear(before) && NoClear(during)
      modifies this
      ensures Valid() && lanes == LanesRun(old(lanes), DrainSteps(old(lanes), before, during, answer))
      ensures SlotsUndisturbed(old(lanes), lanes) && Turned(old(lanes).control, lanes.control, outcome, answer)
    {
      hide LanesInv, LanesNext, LanesRun, Undisturbed, DrainUndisturbed, StepsLeft, Sends, SlotsUndisturbed, Overdue;
      NoSteps(lanes);
      Interfere(before);
      AfterInterference(old(lanes), [], old(lanes), lanes, AllSteps(before));
      ghost var steps := AllSteps(before);
      assert [] + steps == steps;
      AfterAdvance(old(lanes), steps, lanes, true);
      steps := steps + [OnControl(Advance(true))];
      var any := TakeHead();
      if !any {
        return Stopped;
      }
      AfterAdvance(old(lanes), steps, lanes, true);
      steps := steps + [OnControl(Advance(true))];
      var expired := ExpireHead(now);
      if expired {
        return Expired;
      }
      ghost var l1 := lanes;
      Interfere(during);
      AfterInterference(old(lanes), steps, l1, lanes, AllSteps(during));
      steps := steps + AllSteps(during);
      AfterAdvance(old(lanes), steps, lanes, answer);
      steps := steps + [OnControl(Advance(answer))];
      OfferHead(answer);
      outcome := if answer then Sent else Stopped;
    }

    /**
    drain_control_sends. `schedule` is what the producer does at the points in between, and
    `answers` is what the socket says; the loop ends whatever they are.
    */
    method DrainControlSends(elapsed: Elapsed, schedule: Schedule, answers: nat -> bool)
        returns (didWork: bool, ghost trace: seq<Step>)
      requires Valid() && lanes.control.phase.Idle? && NeverClears(schedule)
      modifies this
      ensures Valid() && lanes.control.phase.Idle? && SlotsUndisturbed(old(lanes), lanes)
      ensures lanes == LanesRun(old(lanes), trace)
      ensures SampledAt(old(lanes.control.departed), lanes.control.departed, old(clock) + elapsed)
      ensures Sends(lanes.control.departed) <= Sends(old(lanes.control.departed)) + DRAIN_BATCH
      ensures DrainStops(old(lanes).control, lanes.control, answers)
      ensures didWork <==> Sends(lanes.control.departed) > Sends(old(lanes.control.departed))
    {
      hide LanesInv, LanesNext, LanesRun, StepsLeft, Sends, SlotsUndisturbed, DrainSteps, SampledAt, MayStop;
      hide ObjectSlot, PayloadOf, Lookup, Undelivered;
      didWork := false;
      var sent, turn := 0, 0;
      BeginDrain(lanes, elapsed);
      clock := clock + elapsed;
      var now := clock;
      lanes := LanesNext(lanes, OnControl(Begin(elapsed)));
      trace := [OnControl(Begin(elapsed))];
      SameObjects(old(lanes), lanes);
      LanesInvHas(lanes);
      NoneSampled(lanes.control.departed, now);
      while sent < DRAIN_BATCH
        invariant Valid() && SlotsUndisturbed(old(lanes), lanes) && lanes == LanesRun(old(lanes), trace)
        invariant PhaseIsRight(lanes.control) && sent <= DRAIN_BATCH
        invariant lanes.control.phase == Looping(now, sent, Sends(old(lanes.control.departed)))
        invariant Sends(lanes.control.departed) == Sends(old(lanes.control.departed)) + sent && didWork == (sent > 0)
        invariant SampledAt(old(lanes.control.departed), lanes.control.departed, now)
        invariant |lanes.control.departed| == |old(lanes.control.departed)| + turn
        decreases StepsLeft(lanes.control)
      {
        ghost var l0 := lanes;
        assert NoClear(schedule(2 * turn)) && NoClear(schedule(2 * turn + 1));
        ghost var steps := DrainSteps(lanes, schedule(2 * turn), schedule(2 * turn + 1), answers(turn));
        var outcome := DrainTurn(now, schedule(2 * turn), schedule(2 * turn + 1), answers(turn));
        Chain(old(lanes), trace, l0, lanes, steps);
        SampledChain(old(lanes.control.departed), l0.control.departed, lanes.control.departed, now);
        LanesInvHas(lanes);
        trace := trace + steps;
        if outcome == Stopped {
          return;
        }
        if outcome == Sent {
          didWork, sent := true, sent + 1;
        }
        turn := turn + 1;
      }
      // The batch is full: the loop's own test ends the drain.
      AfterAdvance(old(lanes), trace, lanes, true);
      ghost var l1 := lanes;
      AdvanceLanes(lanes, true);
      trace := trace + [OnControl(Advance(true))];
      lanes := LanesNext(lanes, OnControl(Advance(true)));
      SameObjects(l1, lanes);
    }

    // ------------------------------------------------------------ network thread: slots

    /** A step of the network thread on the avatar slot. */
    ghost method StepAvatar(step: SlotStep)
      requires LanesInv(lanes)
      modifies `lanes
      ensures LanesInv(lanes) && lanes == LanesNext(old(lanes), OnAvatar(step))
      ensures lanes == old(lanes).(avatar := SlotNext(old(lanes).avatar, step))
      ensures forall id :: ObjectSlot(lanes, id) == ObjectSlot(old(lanes), id)
      ensures step.Copy? || step.Offer? ==> lanes.avatar.held == old(lanes.avatar.held)
    {
      LanesNextKeepsInv(lanes, OnAvatar(step));
      lanes := LanesNext(lanes, OnAvatar(step));
      SameObjects(old(lanes), lanes);
    }

    /** The first block of try_send_latest_transform and the send that follows. */
    method OfferAvatar(before: seq<Action>, answer: bool) returns (payload: Text)
      requires Valid() && lanes.control.phase.Idle? && lanes.avatar.flight.Grounded? && hasLatest
      modifies this
      ensures Valid() && ObjectsUndisturbed(old(lanes), lanes)
      ensures lanes == LanesRun(old(lanes), [OnAvatar(Copy)] + AllSteps(before) + [OnAvatar(Offer(answer))])
      ensures old(lanes.avatar.sets) != [] && Offered(old(lanes).avatar, lanes.avatar, payload, answer)
    {
      hide LanesInv, LanesNext, LanesRun, Undisturbed, ObjectsUndisturbed, Offered, NoClear, SlotNext, AllSteps, Lookup;
      hide DrainUndisturbed, ObjectSlot, PayloadOf;
      payload := latest.payload;
      ghost var l0 := lanes;
      StepAvatar(Copy);
      ghost var l1 := lanes;
      StillIdle(l0, l1, Copy);
      Interfere(before);
      ghost var l2 := lanes;
      StepAvatar(Offer(answer));
      AvatarOffered(l0, l1, AllSteps(before), l2, lanes, payload, answer);
    }

    /** The last block of try_send_latest_transform. */
    method SettleAvatar(payload: Text, after: seq<Action>)
      requires Valid() && lanes.control.phase.Idle?
      requires lanes.avatar.flight.Delivered? && lanes.avatar.flight.payload == payload
      modifies this
      ensures Valid() && ObjectsUndisturbed(old(lanes), lanes)
      ensures lanes == LanesRun(old(lanes), AllSteps(after) + [OnAvatar(Settle)])
      ensures lanes.avatar.flight.Grounded? && lanes.avatar.sent == old(lanes.avatar.sent)
    {
      hide LanesInv, LanesNext, LanesRun, SlotsUndisturbed;
      ghost var l0 := lanes;
      Interfere(after);
      ghost var l1 := lanes;
      StepAvatar(Settle);
      OnlyAvatar(l0, l0, l1, lanes);
      if hasLatest && latest.payload == payload {
        hasLatest := false;
        latest := Packet([], 0.0);
      }
      LanesRunOne(l0, AllSteps(after), OnAvatar(Settle));
    }

    /**
    try_send_latest_transform, with producer activity around the send. What goes out is the
    payload that was the latest at the copy.
    */
    method TrySendLatestTransform(before: seq<Action>, after: seq<Action>, answer: bool)
        returns (ok: bool)
      requires Valid() && lanes.control.phase.Idle? && lanes.avatar.flight.Grounded?
      modifies this
      ensures Valid() && lanes.avatar.flight.Grounded? && ObjectsUndisturbed(old(lanes), lanes)
      ensures lanes == LanesRun(old(lanes), if old(hasLatest) then AvatarSteps(before, answer, after) else [])
      ensures ok == (old(hasLatest) && answer)
      ensures ok ==> old(lanes.avatar.sets) != []
      ensures lanes.avatar.sent == if ok then old(lanes.avatar.sent) + [|old(lanes.avatar.sets)| - 1] else old(lanes.avatar.sent)
    {
      hide LanesInv, LanesNext, LanesRun, ObjectsUndisturbed;
      if !hasLatest {
        NoSteps(lanes);
        NothingChanges(lanes);
        return false;
      }
      ghost var l0 := lanes;
      ghost var trace := [OnAvatar(Copy)] + AllSteps(before) + [OnAvatar(Offer(answer))];
      var payload := OfferAvatar(before, answer);
      if !answer {
        assert trace + [] == trace;
        return false;
      }
      ghost var l1 := lanes;
      UndisturbedPhase(l0, l1);
      SettleAvatar(payload, after);
      LanesRunAppend(l0, trace, AllSteps(after) + [OnAvatar(Settle)]);
      UndisturbedChain(l0, l1, lanes);
      ok := true;
    }

    /** A step of the network thread on one object's slot. */
    ghost method StepObject(id: nat, step: SlotStep)
      requires LanesInv(lanes)
      modifies `lanes
      ensures LanesInv(lanes) && lanes == LanesNext(old(lanes), OnObject(id, step))
      ensures lanes.control == old(lanes).control && lanes.avatar == old(lanes).avatar
      ensures forall k :: ObjectSlot(lanes, k) == if k == id then SlotNext(ObjectSlot(old(lanes), id), step) else ObjectSlot(old(lanes), k)
      ensures step.Copy? || step.Offer? ==> ObjectSlot(lanes, id).held == ObjectSlot(old(lanes), id).held
    {
      LanesNextKeepsInv(lanes, OnObject(id, step));
      lanes := LanesNext(lanes, OnObject(id, step));
      OneObject(old(lanes), id, step);
    }

    /** An object's slot is copied and offered to the socket. */
    method OfferObject(id: nat, before: seq<Action>, answer: bool) returns (payload: Text)
      requires Valid() && lanes.control.phase.Idle? && ObjectSlot(lanes, id).flight.Grounded? && id in objects
      modifies this
      ensures Valid() && OthersUndisturbed(old(lanes), lanes, id) && (NoClear(before) ==> OthersStillFull(old(lanes), lanes, id))
      ensures lanes == LanesRun(old(lanes), [OnObject(id, Copy)] + AllSteps(before) + [OnObject(id, Offer(answer))])
      ensures ObjectSlot(old(lanes), id).sets != []
      ensures Offered(ObjectSlot(old(lanes), id), ObjectSlot(lanes, id), payload, answer)
    {
      hide LanesInv, LanesNext, LanesRun, Undisturbed, OthersUndisturbed, Offered, NoClear, SlotNext, AllSteps;
      hide DrainUndisturbed, ObjectSlot;
      payload := objects[id].payload;
      assert ObjectSlot(lanes, id).held == Some(payload);
      ghost var l0 := lanes;
      StepObject(id, Copy);
      ghost var l1 := lanes;
      Interfere(before);
      ghost var l2 := lanes;
      StepObject(id, Offer(answer));
      ObjectOffered(l0, id, l1, AllSteps(before), l2, lanes, payload, answer);
      if NoClear(before) {
        OthersFull(l0, id, l1, l2, lanes);
      }
    }

    /** The block that compares and erases. */
    method SettleObject(id: nat, payload: Text, after: seq<Action>)
      requires Valid() && lanes.control.phase.Idle?
      requires ObjectSlot(lanes, id).flight.Delivered? && ObjectSlot(lanes, id).flight.payload == payload
      modifies this
      ensures Valid() && OthersUndisturbed(old(lanes), lanes, id) && (NoClear(after) ==> OthersStillFull(old(lanes), lanes, id))
      ensures lanes == LanesRun(old(lanes), AllSteps(after) + [OnObject(id, Settle)])
      ensures ObjectSlot(lanes, id).flight.Grounded? && ObjectSlot(lanes, id).sent == ObjectSlot(old(lanes), id).sent
      ensures ObjectSlot(old(lanes), id).sets <= ObjectSlot(lanes, id).sets
    {
      hide LanesInv, LanesNext, LanesRun, Undisturbed, OthersUndisturbed, NoClear, AllSteps, DrainUndisturbed, ObjectSlot;
      ghost var l0 := lanes;
      Interfere(after);
      ghost var l1 := lanes;
      StepObject(id, Settle);
      OnlyObject(l0, id, l0, l1, lanes);
      assert ObjectSlot(l1, id).held == PayloadOf(Lookup(objects, id));
      if id in objects && objects[id].payload == payload {
        objects := objects - {id};
      }
      LanesRunOne(l0, AllSteps(after), OnObject(id, Settle));
      if NoClear(after) {
        OthersFull(l0, id, l0, l1, lanes);
      }
    }

    /** One turn of the loop of try_send_latest_object_transforms. */
    method ObjectTurn(id: nat, first: seq<Action>, before: seq<Action>, after: seq<Action>, answer: bool)
        returns (outcome: Outcome)
      requires Valid() && lanes.control.phase.Idle? && ObjectSlot(lanes, id).flight.Grounded?
      modifies this
      ensures Valid() && OthersUndisturbed(old(lanes), lanes, id)
      ensures lanes == LanesRun(old(lanes), ObjectSteps(old(lanes), id, first, before, answer, after))
      ensures outcome == Stopped ==> !answer
      ensures NoClear(first) && NoClear(before) && NoClear(after) ==>
                && OthersStillFull(old(lanes), lanes, id)
                && (ObjectSlot(old(lanes), id).held.Some? && answer ==> outcome == Sent)
      ensures OneRound(ObjectSlot(old(lanes), id), ObjectSlot(lanes, id), outcome == Sent)
    {
      hide LanesInv, LanesNext, LanesRun, OthersUndisturbed, NoClear, AllSteps, DrainUndisturbed, ObjectSlot, Undisturbed;
      ghost var l0 := lanes;
      Interfere(first);
      ghost var l1 := lanes;
      ghost var trace := AllSteps(first);
      ObjectInterlude(l0, l1, id);
      if NoClear(first) {
        InterludeKeepsFull(l0, l1, id);
      }
      assert ObjectSlot(l1, id).held == PayloadOf(Lookup(objects, id));
      if id !in objects {
        return Expired;
      }
      ghost var steps := [OnObject(id, Copy)] + AllSteps(before) + [OnObject(id, Offer(answer))];
      var payload := OfferObject(id, before, answer);
      ghost var l2 := lanes;
      LanesRunAppend(l0, trace, steps);
      OthersChain(l0, l1, l2, id);
      if NoClear(first) && NoClear(before) {
        FullChain(l0, l1, l2, id);
      }
      if !answer {
        assert trace + steps + [] == trace + steps;
        return Stopped;
      }
      SettleObject(id, payload, after);
      LanesRunAppend(l0, trace + steps, AllSteps(after) + [OnObject(id, Settle)]);
      OthersChain(l0, l2, lanes, id);
      if NoClear(first) && NoClear(before) && NoClear(after) {
        FullChain(l0, l2, lanes, id);
      }
      return Sent;
    }

    /**
    try_send_latest_object_transforms: each object that was waiting at the start is offered at
    most once, and the first refusal ends the call. With the socket willing and no clear in
    between, each of them is sent.
    */
    method TrySendLatestObjectTransforms(schedule: Schedule, answers: nat -> bool)
        returns (didWork: bool, ghost trace: seq<Step>)
      requires Valid() && Quiet(lanes)
      modifies this
      ensures Valid() && Quiet(lanes) && lanes == LanesRun(old(lanes), trace) && Steady(old(lanes.avatar), lanes.avatar)
      ensures ObjectsProgress(old(lanes), lanes, WaitingIds(old(lanes)), didWork)
      ensures Willing(schedule, answers) ==> AllSent(old(lanes), lanes, WaitingIds(old(lanes)))
    {
      hide LanesInv, LanesNext, LanesRun, Quiet, OthersUndisturbed, ObjectsProgress, ObjectSlot, Steady, OneRound, Served, ObjectSteps, OthersStillFull;
      hide WaitingIds, AllSent, Waiting;
      ghost var keys := objects.Keys;
      ghost var willing := Willing(schedule, answers);
      KeysWait(lanes, objects);
      NoneSent(lanes, keys);
      didWork, trace := false, [];
      NoneServed(lanes, keys);
      if objects == map[] {
        return;
      }
      var ids := objects.Keys;
      var turn := 0;
      while ids != {}
        invariant Valid() && ids <= keys && Served(old(lanes), lanes, trace, keys - ids, didWork)
        invariant willing ==> AllSent(old(lanes), lanes, keys - ids) && Waiting(lanes, ids)
        decreases |ids|
      {
        var id :| id in ids;
        ghost var l0 := lanes;
        ServedQuiet(old(lanes), l0, trace, keys - ids, didWork, id);
        ghost var steps := ObjectSteps(lanes, id, schedule(3 * turn), schedule(3 * turn + 1), answers(turn), schedule(3 * turn + 2));
        var outcome := ObjectTurn(id, schedule(3 * turn), schedule(3 * turn + 1), schedule(3 * turn + 2), answers(turn));
        OneServed(old(lanes), l0, trace, lanes, steps, keys, ids, id, didWork, outcome == Sent);
        if willing {
          assert NoClear(schedule(3 * turn)) && NoClear(schedule(3 * turn + 1)) && NoClear(schedule(3 * turn + 2));
          WaitingAt(l0, ids, id);
          OneSent(old(lanes), l0, trace, lanes, keys, ids, id, didWork);
        }
        trace := trace + steps;
        didWork := didWork || outcome == Sent;
        ids := ids - {id};
        if outcome == Stopped {
          AllServed(old(lanes), lanes, trace, keys - ids, keys, didWork);
          return;
        }
        turn := turn + 1;
      }
      assert keys - ids == keys;
      AllServed(old(lanes), lanes, trace, keys - ids, keys, didWork);
    }

    /**
    flush_outgoing: the control lane first, then the avatar, then the objects. `drained` and
    `flown` are the lanes after the first and after the second part.
    */
    method FlushOutgoing(elapsed: Elapsed, drain: Schedule, before: seq<Action>, after: seq<Action>, objectSchedule: Schedule,
                         controlAnswers: nat -> bool, avatarAnswer: bool, objectAnswers: nat -> bool)
        returns (didWork: bool, ghost drained: Lanes, ghost flown: Lanes)
      requires Valid() && Quiet(lanes) && NeverClears(drain)
      modifies this
      ensures Valid() && Quiet(lanes)
      ensures DrainStops(old(lanes).control, drained.control, controlAnswers)
      ensures SampledAt(old(lanes.control.departed), drained.control.departed, old(clock) + elapsed)
      ensures flown == LanesRun(drained, if drained.avatar.held.Some? then AvatarSteps(before, avatarAnswer, after) else [])
      ensures exists sent :: ObjectsProgress(flown, lanes, WaitingIds(flown), sent)
                && didWork == (Sends(drained.control.departed) > Sends(old(lanes.control.departed))
                               || (drained.avatar.held.Some? && avatarAnswer) || sent)
      ensures Willing(objectSchedule, objectAnswers) ==> AllSent(flown, lanes, WaitingIds(flown))
      ensures exists trace :: lanes == LanesRun(old(lanes), trace)
    {
      hide LanesInv, LanesNext, LanesRun, ObjectsProgress, NeverClears, AllSent, WaitingIds, Willing, DrainStops, SampledAt, AvatarSteps;
      ghost var l0 := lanes;
      var a, one := DrainControlSends(elapsed, drain, controlAnswers);
      drained := lanes;
      StillQuiet(l0, drained);
      ghost var two := if hasLatest then AvatarSteps(before, avatarAnswer, after) else [];
      var b := TrySendLatestTransform(before, after, avatarAnswer);
      flown := lanes;
      StillQuietObjects(drained, flown);
      var c, three := TrySendLatestObjectTransforms(objectSchedule, objectAnswers);
      LanesRunAppend(l0, one, two);
      LanesRunAppend(l0, one + two, three);
      didWork := a || b || c;
    }
  }

  datatype Outcome = Stopped | Expired | Sent

  /** `b` is `a` and departures judged at the clock sample `now`. */
  ghost predicate SampledAt(a: seq<Departure>, b: seq<Departure>, now: real) {
    a <= b && forall i :: |a| <= i < |b| ==> b[i].sampled == now
  }

  lemma NoneSampled(a: seq<Departure>, now: real)
    ensures SampledAt(a, a, now)
  {
  }

  lemma SampledChain(a: seq<Departure>, b: seq<Departure>, c: seq<Departure>, now: real)
    requires SampledAt(a, b, now) && SampledAt(b, c, now)
    ensures SampledAt(a, c, now)
  {
    forall i | |a| <= i < |c|
      ensures c[i].sampled == now
    {
      assert i < |b| ==> c[i] == b[i];
    }
  }

  /** Why a drain may stop: nothing is left, or the socket refused the held packet. */
  ghost predicate MayStop(c: Control, answer: bool) {
    Undelivered(c) == [] || (c.held.Some? && !answer)
  }

  /**
  A drain ends with a full batch, or in the turn after the packets that have left: with nothing
  left, or at a packet that the socket refused in that turn.
  */
  ghost predicate DrainStops(before: Control, after: Control, answers: nat -> bool) {
    && |before.departed| <= |after.departed|
    && (|| Sends(after.departed) == Sends(before.departed) + DRAIN_BATCH
        || MayStop(after, answers(|after.departed| - |before.departed|)))
  }

  /** What one turn of a drain leaves for the next. */
  ghost predicate Turned(c: Control, d: Control, outcome: Outcome, answer: bool)
    requires c.phase.Looping?
  {
    var n := if outcome == Sent then 1 else 0;
    && Sends(d.departed) == Sends(c.departed) + n && SampledAt(c.departed, d.departed, c.phase.now)
    && |d.departed| == |c.departed| + (if outcome == Stopped then 0 else 1)
    && (outcome == Stopped ==> MayStop(d, answer))
    && if outcome == Stopped then d.phase == Idle
       else
         && d.phase == Looping(c.phase.now, c.phase.sent + n, c.phase.before)
         && (PhaseIsRight(c) && PhaseIsRight(d) ==> StepsLeft(d) < StepsLeft(c))
  }

  /** A slot after the latest payload was copied out of it and offered to the socket. */
  ghost predicate Offered(a: Slot, b: Slot, payload: Text, answer: bool)
    requires a.sets != []
  {
    && a.held == Some(payload) && a.sets <= b.sets
    && if answer then b.flight == Delivered(|a.sets| - 1, payload) && b.sent == a.sent + [|a.sets| - 1]
       else b.flight == Grounded && b.sent == a.sent
  }

  lemma SlotOffered(a: Slot, c: Slot, payload: Text, answer: bool)
    requires SlotInv(a) && a.flight.Grounded? && a.held == Some(payload) && Steady(SlotNext(a, Copy), c)
    ensures a.sets != [] && Offered(a, SlotNext(c, Offer(answer)), payload, answer)
  {
    SetSlotHasHistory(a);
  }

  lemma AvatarOffered(l0: Lanes, l1: Lanes, steps: seq<Step>, l2: Lanes, l3: Lanes, payload: Text, answer: bool)
    requires LanesInv(l0) && l0.avatar.flight.Grounded? && l0.avatar.held == Some(payload)
    requires l1 == LanesNext(l0, OnAvatar(Copy)) && l2 == LanesRun(l1, steps) && l3 == LanesNext(l2, OnAvatar(Offer(answer)))
    requires Undisturbed(l1, l2)
    ensures ObjectsUndisturbed(l0, l3) && l3 == LanesRun(l0, [OnAvatar(Copy)] + steps + [OnAvatar(Offer(answer))])
    ensures l0.avatar.sets != [] && Offered(l0.avatar, l3.avatar, payload, answer)
  {
    hide SlotInv, SlotNext, Offered, Steady, LanesRun;
    ThreeParts(l0, OnAvatar(Copy), l1, steps, l2, OnAvatar(Offer(answer)));
    SameObjects(l0, l1);
    SameObjects(l2, l3);
    OnlyAvatar(l0, l1, l2, l3);
    SlotOffered(l0.avatar, l2.avatar, payload, answer);
  }

  lemma StillIdle(l: Lanes, next: Lanes, step: SlotStep)
    requires next == LanesNext(l, OnAvatar(step))
    ensures next.control.phase == l.control.phase
  {
  }

  /** Only the producer and the avatar's part of the network thread have run. */
  lemma OnlyAvatar(l0: Lanes, l1: Lanes, l2: Lanes, l3: Lanes)
    requires l1.control.phase == l0.control.phase && l3.control.phase == l2.control.phase
    requires forall id :: ObjectSlot(l1, id) == ObjectSlot(l0, id)
    requires forall id :: ObjectSlot(l3, id) == ObjectSlot(l2, id)
    requires Undisturbed(l1, l2)
    ensures ObjectsUndisturbed(l0, l3) && Steady(l1.avatar, l2.avatar)
  {
    forall id
      ensures Steady(ObjectSlot(l0, id), ObjectSlot(l3, id))
    {
      assert Steady(ObjectSlot(l1, id), ObjectSlot(l2, id));
    }
  }

  lemma NothingChanges(l: Lanes)
    ensures ObjectsUndisturbed(l, l)
  {
  }

  lemma UndisturbedPhase(a: Lanes, b: Lanes)
    requires ObjectsUndisturbed(a, b)
    ensures b.control.phase == a.control.phase
  {
  }

  lemma UndisturbedChain(a: Lanes, b: Lanes, c: Lanes)
    requires ObjectsUndisturbed(a, b) && ObjectsUndisturbed(b, c)
    ensures ObjectsUndisturbed(a, c)
  {
    forall id
      ensures Steady(ObjectSlot(a, id), ObjectSlot(c, id))
    {
      assert Steady(ObjectSlot(a, id), ObjectSlot(b, id)) && Steady(ObjectSlot(b, id), ObjectSlot(c, id));
    }
  }

  lemma ObjectOffered(l0: Lanes, id: nat, l1: Lanes, steps: seq<Step>, l2: Lanes, l3: Lanes, payload: Text, answer: bool)
    requires LanesInv(l0) && ObjectSlot(l0, id).flight.Grounded? && ObjectSlot(l0, id).held == Some(payload)
    requires l1 == LanesNext(l0, OnObject(id, Copy)) && l2 == LanesRun(l1, steps)
    requires l3 == LanesNext(l2, OnObject(id, Offer(answer))) && Undisturbed(l1, l2)
    ensures OthersUndisturbed(l0, l3, id)
    ensures l3 == LanesRun(l0, [OnObject(id, Copy)] + steps + [OnObject(id, Offer(answer))])
    ensures ObjectSlot(l0, id).sets != [] && Offered(ObjectSlot(l0, id), ObjectSlot(l3, id), payload, answer)
  {
    hide SlotInv, SlotNext, Offered, Steady, LanesRun;
    EmptySlotInv();
    assert SlotInv(ObjectSlot(l0, id));
    ThreeParts(l0, OnObject(id, Copy), l1, steps, l2, OnObject(id, Offer(answer)));
    OneObject(l0, id, Copy);
    OneObject(l2, id, Offer(answer));
    hide LanesNext, LanesInv, ObjectSlot;
    SamePhase(l1, l2);
    OnlyObject(l0, id, l1, l2, l3);
    SlotOffered(ObjectSlot(l0, id), ObjectSlot(l2, id), payload, answer);
  }

  /** Only the producer, and the network thread on object `id`, have run. */
  lemma OnlyObject(l0: Lanes, id: nat, l1: Lanes, l2: Lanes, l3: Lanes)
    requires l1.control.phase == l0.control.phase && l3.control.phase == l2.control.phase
    requires l1.avatar == l0.avatar && l3.avatar == l2.avatar
    requires forall k :: k != id ==> ObjectSlot(l1, k) == ObjectSlot(l0, k)
    requires forall k :: k != id ==> ObjectSlot(l3, k) == ObjectSlot(l2, k)
    requires Undisturbed(l1, l2)
    ensures OthersUndisturbed(l0, l3, id) && Steady(ObjectSlot(l1, id), ObjectSlot(l2, id))
  {
    forall k | k != id
      ensures Steady(ObjectSlot(l0, k), ObjectSlot(l3, k))
    {
      assert Steady(ObjectSlot(l1, k), ObjectSlot(l2, k));
    }
  }

  lemma ObjectInterlude(a: Lanes, b: Lanes, id: nat)
    requires Undisturbed(a, b)
    ensures OthersUndisturbed(a, b, id) && Steady(ObjectSlot(a, id), ObjectSlot(b, id))
    ensures b.control.phase == a.control.phase
  {
  }

  /** Only object `id` can have been emptied. */
  lemma OthersFull(l0: Lanes, id: nat, l1: Lanes, l2: Lanes, l3: Lanes)
    requires forall k :: k != id ==> ObjectSlot(l1, k) == ObjectSlot(l0, k)
    requires forall k :: k != id ==> ObjectSlot(l3, k) == ObjectSlot(l2, k)
    requires DrainUndisturbed(l1, l2)
    ensures OthersStillFull(l0, l3, id)
  {
    forall k | k != id && ObjectSlot(l0, k).held.Some?
      ensures ObjectSlot(l3, k).held.Some?
    {
      assert ObjectSlot(l1, k).held.Some? ==> ObjectSlot(l2, k).held.Some?;
    }
  }

  lemma InterludeKeepsFull(a: Lanes, b: Lanes, id: nat)
    requires DrainUndisturbed(a, b)
    ensures OthersStillFull(a, b, id) && (ObjectSlot(a, id).held.Some? ==> ObjectSlot(b, id).held.Some?)
  {
  }

  lemma FullChain(a: Lanes, b: Lanes, c: Lanes, id: nat)
    requires OthersStillFull(a, b, id) && OthersStillFull(b, c, id)
    ensures OthersStillFull(a, c, id)
  {
    forall k | k != id && ObjectSlot(a, k).held.Some?
      ensures ObjectSlot(c, k).held.Some?
    {
      assert ObjectSlot(b, k).held.Some?;
    }
  }

  lemma OthersChain(a: Lanes, b: Lanes, c: Lanes, id: nat)
    requires OthersUndisturbed(a, b, id) && OthersUndisturbed(b, c, id)
    ensures OthersUndisturbed(a, c, id) && c.control.phase == b.control.phase == a.control.phase
  {
    forall k | k != id
      ensures Steady(ObjectSlot(a, k), ObjectSlot(c, k))
    {
      assert Steady(ObjectSlot(a, k), ObjectSlot(b, k)) && Steady(ObjectSlot(b, k), ObjectSlot(c, k));
    }
  }

  /** A slot after a turn of the network thread: sent at most once more, and then what was latest. */
  ghost predicate OneRound(a: Slot, b: Slot, sent: bool) {
    && b.flight.Grounded? && a.sets <= b.sets
    && if sent then |b.sent| == |a.sent| + 1 && a.sent <= b.sent && b.sent[|a.sent|] >= |a.sets| - 1 else b.sent == a.sent
  }

  /** Objects in `served` had at most one turn, and no other object had any. */
  ghost predicate ObjectsProgress(a: Lanes, b: Lanes, served: set<nat>, sent: bool) {
    && (forall id :: id !in served ==> Steady(ObjectSlot(a, id), ObjectSlot(b, id)))
    && (forall id :: id in served ==> OneRound(ObjectSlot(a, id), ObjectSlot(b, id), false) || OneRound(ObjectSlot(a, id), ObjectSlot(b, id), true))
    && (sent <==> exists id :: id in served && OneRound(ObjectSlot(a, id), ObjectSlot(b, id), true))
  }

  lemma NoProgress(l: Lanes)
    ensures ObjectsProgress(l, l, {}, false) && Steady(l.avatar, l.avatar)
  {
  }

  lemma RoundThenSteady(a: Slot, b: Slot, c: Slot, sent: bool)
    requires OneRound(a, b, sent) && Steady(b, c)
    ensures OneRound(a, c, sent)
  {
  }

  lemma SteadyThenRound(a: Slot, b: Slot, c: Slot, sent: bool)
    requires Steady(a, b) && OneRound(b, c, sent)
    ensures OneRound(a, c, sent)
  {
  }

  lemma RoundIsOne(a: Slot, b: Slot)
    ensures !(OneRound(a, b, true) && OneRound(a, b, false))
  {
  }

  /** One more object has had its turn. */
  lemma TurnProgress(first: Lanes, l0: Lanes, l1: Lanes, served: set<nat>, id: nat, was: bool, now: bool)
    requires Quiet(l0) && ObjectsProgress(first, l0, served, was) && id !in served && Steady(first.avatar, l0.avatar)
    requires OthersUndisturbed(l0, l1, id) && OneRound(ObjectSlot(l0, id), ObjectSlot(l1, id), now)
    ensures ObjectsProgress(first, l1, served + {id}, was || now) && Quiet(l1) && Steady(first.avatar, l1.avatar)
  {
    hide OneRound;
    forall k | k !in served + {id}
      ensures Steady(ObjectSlot(first, k), ObjectSlot(l1, k))
    {
      assert Steady(ObjectSlot(first, k), ObjectSlot(l0, k)) && Steady(ObjectSlot(l0, k), ObjectSlot(l1, k));
    }
    hide Steady, ObjectSlot;
    assert Steady(ObjectSlot(first, id), ObjectSlot(l0, id));
    SteadyThenRound(ObjectSlot(first, id), ObjectSlot(l0, id), ObjectSlot(l1, id), now);
    forall k | k in served
      ensures OneRound(ObjectSlot(first, k), ObjectSlot(l0, k), true) <==> OneRound(ObjectSlot(first, k), ObjectSlot(l1, k), true)
      ensures OneRound(ObjectSlot(first, k), ObjectSlot(l1, k), false) || OneRound(ObjectSlot(first, k), ObjectSlot(l1, k), true)
    {
      assert Steady(ObjectSlot(l0, k), ObjectSlot(l1, k));
      var sent :| OneRound(ObjectSlot(first, k), ObjectSlot(l0, k), sent);
      RoundThenSteady(ObjectSlot(first, k), ObjectSlot(l0, k), ObjectSlot(l1, k), sent);
      RoundIsOne(ObjectSlot(first, k), ObjectSlot(l0, k));
      RoundIsOne(ObjectSlot(first, k), ObjectSlot(l1, k));
    }
    RoundIsOne(ObjectSlot(first, id), ObjectSlot(l1, id));
    StaysQuiet(l0, l1, id, now);
  }

  /** The objects in `done` have had their turn, and the network thread is between two turns. */
  ghost predicate Served(first: Lanes, l: Lanes, trace: seq<Step>, done: set<nat>, sent: bool) {
    && Quiet(l) && l == LanesRun(first, trace) && Steady(first.avatar, l.avatar)
    && ObjectsProgress(first, l, done, sent)
  }

  lemma NoneServed(l: Lanes, keys: set<nat>)
    requires Quiet(l)
    ensures Served(l, l, [], keys - keys, false)
    ensures keys == {} ==> ObjectsProgress(l, l, keys, false) && l == LanesRun(l, []) && Steady(l.avatar, l.avatar)
  {
    assert keys - keys == {};
    NoSteps(l);
    NoProgress(l);
  }

  /** The objects with something to send. */
  ghost function WaitingIds(l: Lanes): set<nat> {
    set id | id in l.objects && l.objects[id].held.Some?
  }

  lemma KeysWait(l: Lanes, objects: map<nat, Packet>)
    requires forall id :: ObjectSlot(l, id).held == PayloadOf(Lookup(objects, id))
    ensures WaitingIds(l) == objects.Keys && Waiting(l, objects.Keys)
  {
    forall id: nat
      ensures id in objects <==> id in l.objects && l.objects[id].held.Some?
      ensures id in objects ==> ObjectSlot(l, id).held.Some?
    {
      assert ObjectSlot(l, id).held == PayloadOf(Lookup(objects, id));
    }
  }

  ghost predicate Waiting(l: Lanes, ids: set<nat>) {
    forall id :: id in ids ==> ObjectSlot(l, id).held.Some?
  }

  lemma WaitingAt(l: Lanes, ids: set<nat>, id: nat)
    requires Waiting(l, ids) && id in ids
    ensures ObjectSlot(l, id).held.Some?
  {
  }

  /** The socket takes everything and the producer clears nothing. */
  ghost predicate Willing(schedule: Schedule, answers: nat -> bool) {
    NeverClears(schedule) && forall k :: answers(k)
  }

  /** Every object in `done` was sent once. */
  ghost predicate AllSent(a: Lanes, b: Lanes, done: set<nat>) {
    forall id :: id in done ==> OneRound(ObjectSlot(a, id), ObjectSlot(b, id), true)
  }

  lemma NoneSent(l: Lanes, keys: set<nat>)
    ensures AllSent(l, l, keys - keys) && (keys == {} ==> AllSent(l, l, keys))
  {
  }

  lemma OneSent(first: Lanes, l0: Lanes, trace: seq<Step>, l1: Lanes, keys: set<nat>, ids: set<nat>, id: nat, was: bool)
    requires Served(first, l0, trace, keys - ids, was) && AllSent(first, l0, keys - ids) && Waiting(l0, ids)
    requires id in ids && ids <= keys
    requires OthersUndisturbed(l0, l1, id) && OthersStillFull(l0, l1, id)
    requires OneRound(ObjectSlot(l0, id), ObjectSlot(l1, id), true)
    ensures AllSent(first, l1, keys - (ids - {id})) && Waiting(l1, ids - {id})
  {
    hide LanesRun, OneRound, Steady, ObjectSlot, Quiet;
    forall k | k in keys - (ids - {id})
      ensures OneRound(ObjectSlot(first, k), ObjectSlot(l1, k), true)
    {
      if k == id {
        assert Steady(ObjectSlot(first, id), ObjectSlot(l0, id));
        SteadyThenRound(ObjectSlot(first, id), ObjectSlot(l0, id), ObjectSlot(l1, id), true);
      } else {
        assert OneRound(ObjectSlot(first, k), ObjectSlot(l0, k), true) && Steady(ObjectSlot(l0, k), ObjectSlot(l1, k));
        RoundThenSteady(ObjectSlot(first, k), ObjectSlot(l0, k), ObjectSlot(l1, k), true);
      }
    }
    forall k | k in ids - {id}
      ensures ObjectSlot(l1, k).held.Some?
    {
      assert ObjectSlot(l0, k).held.Some?;
    }
  }

  lemma ServedQuiet(first: Lanes, l: Lanes, trace: seq<Step>, done: set<nat>, sent: bool, id: nat)
    requires Served(first, l, trace, done, sent)
    ensures l.control.phase.Idle? && ObjectSlot(l, id).flight.Grounded?
  {
  }

  lemma OneServed(first: Lanes, l0: Lanes, trace: seq<Step>, l1: Lanes, steps: seq<Step>,
                  keys: set<nat>, ids: set<nat>, id: nat, was: bool, now: bool)
    requires Served(first, l0, trace, keys - ids, was) && id in ids && ids <= keys && l1 == LanesRun(l0, steps)
    requires OthersUndisturbed(l0, l1, id) && OneRound(ObjectSlot(l0, id), ObjectSlot(l1, id), now)
    ensures Served(first, l1, trace + steps, keys - (ids - {id}), was || now)
  {
    hide LanesRun, ObjectsProgress, OthersUndisturbed, OneRound, Quiet, Steady, ObjectSlot;
    LanesRunAppend(first, trace, steps);
    TurnProgress(first, l0, l1, keys - ids, id, was, now);
    assert keys - (ids - {id}) == (keys - ids) + {id};
  }

  lemma AllServed(first: Lanes, l: Lanes, trace: seq<Step>, done: set<nat>, keys: set<nat>, sent: bool)
    requires Served(first, l, trace, done, sent) && done <= keys
    ensures Quiet(l) && l == LanesRun(first, trace) && Steady(first.avatar, l.avatar) && ObjectsProgress(first, l, keys, sent)
  {
    hide LanesRun, ObjectsProgress, Steady;
    ProgressGrows(first, l, done, keys, sent);
  }

  lemma StaysQuiet(l0: Lanes, l1: Lanes, id: nat, now: bool)
    requires Quiet(l0) && OthersUndisturbed(l0, l1, id) && OneRound(ObjectSlot(l0, id), ObjectSlot(l1, id), now)
    ensures Quiet(l1)
  {
    forall k
      ensures ObjectSlot(l1, k).flight.Grounded?
    {
      if k != id {
        assert Steady(ObjectSlot(l0, k), ObjectSlot(l1, k));
      }
    }
  }

  /** Objects that had no turn have sent nothing more. */
  lemma ProgressGrows(first: Lanes, l: Lanes, served: set<nat>, all: set<nat>, sent: bool)
    requires ObjectsProgress(first, l, served, sent) && served <= all && Quiet(l)
    ensures ObjectsProgress(first, l, all, sent)
  {
    forall id | id in all && id !in served
      ensures OneRound(ObjectSlot(first, id), ObjectSlot(l, id), false)
    {
      assert Steady(ObjectSlot(first, id), ObjectSlot(l, id));
    }
  }

  lemma StillQuiet(a: Lanes, b: Lanes)
    requires Quiet(a) && b.control.phase.Idle? && SlotsUndisturbed(a, b)
    ensures Quiet(b)
  {
    forall id
      ensures ObjectSlot(b, id).flight.Grounded?
    {
      assert Steady(ObjectSlot(a, id), ObjectSlot(b, id));
    }
  }

  lemma StillQuietObjects(a: Lanes, b: Lanes)
    requires Quiet(a) && b.avatar.flight.Grounded? && ObjectsUndisturbed(a, b)
    ensures Quiet(b)
  {
    forall id
      ensures ObjectSlot(b, id).flight.Grounded?
    {
      assert Steady(ObjectSlot(a, id), ObjectSlot(b, id));
    }
  }

  lemma SetSlotHasHistory(s: Slot)
    requires SlotInv(s)
    ensures s.held.Some? ==> s.sets != []
  {
  }

  lemma ThreeParts(l0: Lanes, a: Step, l1: Lanes, middle: seq<Step>, l2: Lanes, b: Step)
    requires l1 == LanesNext(l0, a) && l2 == LanesRun(l1, middle)
    ensures LanesNext(l2, b) == LanesRun(l0, [a] + middle + [b])
  {
    hide LanesNext;
    OneStep(l0);
    LanesRunAppend(l0, [a], middle);
    LanesRunOne(l0, [a] + middle, b);
  }

  lemma NoSteps(l: Lanes)
    ensures l == LanesRun(l, []) && SlotsUndisturbed(l, l)
  {
  }

  lemma Chain(first: Lanes, trace: seq<Step>, l: Lanes, next: Lanes, steps: seq<Step>)
    requires l == LanesRun(first, trace) && next == LanesRun(l, steps)
    requires SlotsUndisturbed(first, l) && SlotsUndisturbed(l, next)
    ensures next == LanesRun(first, trace + steps) && SlotsUndisturbed(first, next)
  {
    LanesRunAppend(first, trace, steps);
  }

  lemma AfterInterference(first: Lanes, trace: seq<Step>, l: Lanes, next: Lanes, steps: seq<Step>)
    requires l == LanesRun(first, trace) && next == LanesRun(l, steps) && LanesInv(l) && LanesInv(next)
    requires Undisturbed(l, next) && DrainUndisturbed(l, next) && SlotsUndisturbed(first, l)
    ensures next == LanesRun(first, trace + steps) && SlotsUndisturbed(first, next)
    ensures next.control.phase == l.control.phase && next.control.departed == l.control.departed
    ensures StepsLeft(next.control) == StepsLeft(l.control)
  {
    LanesRunAppend(first, trace, steps);
  }

  lemma AfterAdvance(first: Lanes, trace: seq<Step>, l: Lanes, taken: bool)
    requires l == LanesRun(first, trace) && LanesInv(l) && !l.control.phase.Idle? && SlotsUndisturbed(first, l)
    ensures var next := LanesNext(l, OnControl(Advance(taken)));
            && next == LanesRun(first, trace + [OnControl(Advance(taken))]) && SlotsUndisturbed(first, next)
            && LanesInv(next) && StepsLeft(next.control) < StepsLeft(l.control) && Moves(l.control, next.control, taken)
  {
    AdvanceLanes(l, taken);
    LanesRunOne(first, trace, OnControl(Advance(taken)));
  }

  lemma BeginDrain(l: Lanes, elapsed: Elapsed)
    requires LanesInv(l) && l.control.phase.Idle?
    ensures var next := LanesNext(l, OnControl(Begin(elapsed)));
            && LanesInv(next) && SlotsUndisturbed(l, next) && next == LanesRun(l, [OnControl(Begin(elapsed))])
            && next.control.phase == Looping(l.control.clock + elapsed, 0, Sends(l.control.departed))
            && next.control.departed == l.control.departed
            && next == l.(control := next.control)
            && next.control == l.control.(clock := l.control.clock + elapsed, phase := next.control.phase)
  {
    LanesNextKeepsInv(l, OnControl(Begin(elapsed)));
    OneStep(l);
  }

  lemma SameObjects(before: Lanes, after: Lanes)
    requires after.objects == before.objects
    ensures forall id :: ObjectSlot(after, id) == ObjectSlot(before, id)
  {
  }

  lemma OneObject(before: Lanes, id: nat, step: SlotStep)
    ensures var after := LanesNext(before, OnObject(id, step));
            forall k :: ObjectSlot(after, k) == if k == id then SlotNext(ObjectSlot(before, id), step) else ObjectSlot(before, k)
  {
  }

  lemma NoObjects(before: Lanes)
    ensures forall id :: ObjectSlot(LanesNext(before, ClearAll), id).held.None?
  {
  }

  /** What one step of a drain does to everything that the class keeps. */
  lemma AdvanceLanes(l: Lanes, taken: bool)
    requires LanesInv(l) && !l.control.phase.Idle?
    ensures var next := LanesNext(l, OnControl(Advance(taken)));
            && LanesInv(next) && next == l.(control := next.control) && Moves(l.control, next.control, taken)
            && StepsLeft(next.control) < StepsLeft(l.control)
  {
    LanesNextKeepsInv(l, OnControl(Advance(taken)));
    AdvanceGetsCloser(l.control, taken);
    AdvanceMoves(l.control, taken);
  }

  /** A step of a drain, as its caller sees it. */
  ghost predicate Moves(c: Control, d: Control, taken: bool)
    requires !c.phase.Idle?
  {
    var p := c.phase;
    && d.clock == c.clock
    && match p
       case Looping(now, sent, before) =>
         && d.departed == c.departed
         && if sent >= DRAIN_BATCH || (c.held.None? && c.outbox == []) then
              d.phase == Idle && d.outbox == c.outbox && d.held == c.held
            else
              && d.phase == Judging(now, sent, before)
              && if c.held.Some? then d.outbox == c.outbox && d.held == c.held
                 else d.outbox == c.outbox[1..] && d.held == Some(c.outbox[0])
       case Judging(now, sent, before) =>
         && c.held.Some? && d.outbox == c.outbox && Sends(d.departed) == Sends(c.departed)
         && if Overdue(c.held.value, now) then
              && d.phase == Looping(now, sent, before) && d.held == None
              && d.departed == c.departed + [Departure(c.held.value, false, now)]
            else d.phase == Offering(now, sent, before) && d.held == c.held && d.departed == c.departed
       case Offering(now, sent, before) =>
         && c.held.Some? && d.outbox == c.outbox
         && if taken then
              && d.phase == Looping(now, sent + 1, before) && d.held == None
              && Sends(d.departed) == Sends(c.departed) + 1
              && d.departed == c.departed + [Departure(c.held.value, true, now)]
            else d.phase == Idle && d.held == c.held && d.departed == c.departed
  }

  lemma AdvanceMoves(c: Control, taken: bool)
    requires ControlInv(c) && !c.phase.Idle?
    ensures Moves(c, Advanced(c, taken), taken)
  {
    hide Conserved, FatesAreRight;
    var d := Advanced(c, taken);
    if d.departed != c.departed {
      assert d.departed[..|d.departed| - 1] == c.departed;
    }
  }

  /** What the network thread is doing is the same before and after. */
  ghost predicate Undisturbed(a: Lanes, b: Lanes) {
    b.control.phase == a.control.phase && SlotsUndisturbed(a, b)
  }

  ghost predicate SlotsUndisturbed(a: Lanes, b: Lanes) {
    Steady(a.avatar, b.avatar) && forall id :: Steady(ObjectSlot(a, id), ObjectSlot(b, id))
  }

  /** A slot that only the producer has touched. */
  ghost predicate Steady(a: Slot, b: Slot) {
    b.flight == a.flight && b.sent == a.sent && a.sets <= b.sets
  }

  /** As if only the producer had run, except on object `id`. */
  ghost predicate OthersUndisturbed(a: Lanes, b: Lanes, id: nat) {
    && b.control.phase == a.control.phase && Steady(a.avatar, b.avatar)
    && forall k :: k != id ==> Steady(ObjectSlot(a, k), ObjectSlot(b, k))
  }

  ghost predicate ObjectsUndisturbed(a: Lanes, b: Lanes) {
    b.control.phase == a.control.phase && forall id :: Steady(ObjectSlot(a, id), ObjectSlot(b, id))
  }

  /** And a drain is as far from its end as it was, and every full slot is still full. */
  ghost predicate DrainUndisturbed(a: Lanes, b: Lanes) {
    && b.control.departed == a.control.departed
    && (PhaseIsRight(a.control) && PhaseIsRight(b.control) ==> StepsLeft(b.control) == StepsLeft(a.control))
    && StillFull(a, b)
  }

  ghost predicate StillFull(a: Lanes, b: Lanes) {
    forall id :: ObjectSlot(a, id).held.Some? ==> ObjectSlot(b, id).held.Some?
  }

  ghost predicate OthersStillFull(a: Lanes, b: Lanes, id: nat) {
    forall k :: k != id && ObjectSlot(a, k).held.Some? ==> ObjectSlot(b, k).held.Some?
  }

  lemma SamePhase(a: Lanes, b: Lanes)
    requires Undisturbed(a, b)
    ensures b.control.phase == a.control.phase
  {
  }

  lemma NothingDisturbs(l: Lanes)
    ensures Undisturbed(l, l) && DrainUndisturbed(l, l)
  {
  }

  lemma ProducerDoesNotDisturb(first: Lanes, l: Lanes, a: Action)
    requires LanesInv(first) && LanesInv(l) && Undisturbed(first, l) && (l.control.phase.Idle? || !a.ClearOutgoing?)
    ensures var next := LanesRun(l, StepsOf(a));
            && Undisturbed(first, next)
            && (DrainUndisturbed(first, l) && !a.ClearOutgoing? ==> DrainUndisturbed(first, next))
  {
    hide StepsLeft, LanesInv, ControlInv;
    OneStep(l);
    LanesInvHas(first);
    LanesInvHas(l);
    match a
    case TryEnqueueControl(payload, elapsed) =>
      EnqueueKeepsDistance(l.control, payload, elapsed);
      SameObjects(l, LanesRun(l, StepsOf(a)));
    case SetLatestTransform(payload) => SameObjects(l, LanesRun(l, StepsOf(a)));
    case SetLatestObjectTransform(id, payload) => OneObject(l, id, Set(payload));
    case ClearOutgoing =>
  }

  lemma LanesInvHas(l: Lanes)
    requires LanesInv(l)
    ensures ControlInv(l.control) && PhaseIsRight(l.control)
  {
  }

  lemma OneStep(l: Lanes)
    ensures forall step: Step :: LanesRun(l, [step]) == LanesNext(l, step)
    ensures LanesRun(l, []) == l
  {
    hide LanesNext;
    forall step: Step
      ensures LanesRun(l, [step]) == LanesNext(l, step)
    {
      assert [step][..0] == [];
      assert LanesRun(l, []) == l;
    }
  }

  lemma NoActions(l: Lanes, actions: seq<Action>)
    ensures l == LanesRun(l, AllSteps(actions[..0]))
  {
  }

  lemma AllStepsSnoc(l: Lanes, actions: seq<Action>, i: nat)
    requires i < |actions|
    ensures LanesRun(l, AllSteps(actions[..i + 1])) == LanesRun(LanesRun(l, AllSteps(actions[..i])), StepsOf(actions[i]))
  {
    hide LanesNext;
    assert actions[..i + 1][..i] == actions[..i];
    LanesRunAppend(l, AllSteps(actions[..i]), StepsOf(actions[i]));
  }
}
