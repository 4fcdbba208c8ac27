/**
The outbound side of the transport as a state machine (src/transport/zmq_transport.cpp).
*/
module OutboundLanes {
  // Every block under the mutex is one step, and so is every socket send between two blocks; steps
  // of the producer and of the network thread interleave freely. Besides the program's own state
  // the machine remembers what was handed in and what became of it.

  import opened Bytes

  const OUTBOX_MAX := 256
  const TTL: real := 5.0
  const DRAIN_BATCH := 64

  /** Time that passes before a step. */
  type Elapsed = t: real | t >= 0.0 witness 0.0

  // ---------------------------------------------------------------- the control lane

  datatype Packet = Packet(payload: Text, enqueuedAt: real)

  /** A packet that left the lane, and the clock sample of the drain that it left in. */
  datatype Departure = Departure(packet: Packet, sent: bool, sampled: real)

  /** Where drain_control_sends is; `before` counts the packets sent when it started. */
  datatype Phase =
    | Idle
    | Looping(now: real, sent: nat, before: nat)
    | Judging(now: real, sent: nat, before: nat)
    | Offering(now: real, sent: nat, before: nat)

  datatype Control = Control(
    outbox: seq<Packet>,
    held: Option<Packet>,
    phase: Phase,
    clock: real,
    accepted: seq<Packet>,
    departed: seq<Departure>)

  datatype ControlStep =
    | Enqueue(payload: Text, elapsed: Elapsed)
    | Begin(elapsed: Elapsed)
    | Advance(taken: bool)  // the next step of a drain; `taken` is the socket's answer, if asked
    | Reset

  function Sends(d: seq<Departure>): nat {
    if d == [] then 0 else Sends(d[..|d| - 1]) + (if d[|d| - 1].sent then 1 else 0)
  }

  function Depart(c: Control, sent: bool): Control
    requires c.held.Some? && !c.phase.Idle?
  {
    c.(held := None,
       departed := c.departed + [Departure(c.held.value, sent, c.phase.now)],
       phase := Looping(c.phase.now, if sent then c.phase.sent + 1 else c.phase.sent, c.phase.before))
  }

  predicate Overdue(p: Packet, now: real) {
    now - p.enqueuedAt > TTL
  }

  function Advanced(c: Control, taken: bool): Control {
    match c.phase
    case Idle => c
    case Looping(now, sent, before) =>
      if sent >= DRAIN_BATCH || (c.held.None? && c.outbox == []) then c.(phase := Idle)
      else if c.held.Some? then c.(phase := Judging(now, sent, before))
      else c.(held := Some(c.outbox[0]), outbox := c.outbox[1..], phase := Judging(now, sent, before))
    case Judging(now, sent, before) =>
      if c.held.None? then c
      else if Overdue(c.held.value, now) then Depart(c, false)
      else c.(phase := Offering(now, sent, before))
    case Offering(now, sent, before) =>
      if c.held.None? then c else if taken then Depart(c, true) else c.(phase := Idle)
  }

  function ControlNext(c: Control, step: ControlStep): Control {
    match step
    case Enqueue(payload, elapsed) =>
      var p := Packet(payload, c.clock + elapsed);
      if |c.outbox| >= OUTBOX_MAX then c.(clock := p.enqueuedAt)
      else c.(clock := p.enqueuedAt, outbox := c.outbox + [p], accepted := c.accepted + [p])
    case Begin(elapsed) =>
      if c.phase.Idle? then
        c.(clock := c.clock + elapsed, phase := Looping(c.clock + elapsed, 0, Sends(c.departed)))
      else c.(clock := c.clock + elapsed)
    case Advance(taken) => Advanced(c, taken)
    case Reset => if c.phase.Idle? then Control([], None, Idle, c.clock, [], []) else c
  }

  function ControlRun(c: Control, steps: seq<ControlStep>): Control {
    if steps == [] then c else ControlNext(ControlRun(c, steps[..|steps| - 1]), steps[|steps| - 1])
  }

  function Packets(d: seq<Departure>): seq<Packet> {
    if d == [] then [] else Packets(d[..|d| - 1]) + [d[|d| - 1].packet]
  }

  function Held(c: Control): seq<Packet> {
    if c.held.Some? then [c.held.value] else []
  }

  /** Accepted and not yet sent or expired. */
  function Undelivered(c: Control): seq<Packet> {
    Held(c) + c.outbox
  }

  /** Every accepted packet is in exactly one place, in the order of acceptance. */
  predicate Conserved(c: Control) {
    c.accepted == Packets(c.departed) + Undelivered(c)
  }

  /** A packet was sent exactly when it was at most 5 s old at its drain's clock sample. */
  predicate FatesAreRight(d: seq<Departure>) {
    forall i :: 0 <= i < |d| ==> (d[i].sent <==> d[i].sampled - d[i].packet.enqueuedAt <= 5.0)
  }

  predicate PhaseIsRight(c: Control) {
    c.phase.Idle? || (
      && c.phase.now <= c.clock && c.phase.sent <= DRAIN_BATCH
      && Sends(c.departed) == c.phase.before + c.phase.sent
      && (!c.phase.Looping? ==> c.held.Some? && c.phase.sent < DRAIN_BATCH)
      && (c.phase.Offering? ==> !Overdue(c.held.value, c.phase.now)))
  }

  predicate ControlInv(c: Control) {
    Conserved(c) && |c.outbox| <= OUTBOX_MAX && FatesAreRight(c.departed) && PhaseIsRight(c)
  }

  predicate Fresh(c: Control) {
    c.outbox == [] && c.held.None? && c.phase.Idle? && c.accepted == [] && c.departed == []
  }

  lemma DepartKeepsInv(c: Control, sent: bool)
    requires ControlInv(c) && c.held.Some? && !c.phase.Looping? && !c.phase.Idle?
    requires sent <==> !Overdue(c.held.value, c.phase.now)
    ensures ControlInv(Depart(c, sent))
  {
    var d := Depart(c, sent);
    assert d.departed[..|d.departed| - 1] == c.departed;
    assert Packets(d.departed) == Packets(c.departed) + [c.held.value];
    assert Packets(c.departed) + Undelivered(c) == Packets(d.departed) + Undelivered(d);
  }

  lemma AdvanceKeepsInv(c: Control, taken: bool)
    requires ControlInv(c)
    ensures ControlInv(Advanced(c, taken))
  {
    hide FatesAreRight, Packets, Sends;
    match c.phase
    case Idle =>
    case Looping(now, sent, before) =>
      var d := Advanced(c, taken);
      assert Undelivered(d) == Undelivered(c);
    case Judging(now, sent, before) =>
      if Overdue(c.held.value, now) {
        DepartKeepsInv(c, false);
      }
    case Offering(now, sent, before) =>
      if taken {
        DepartKeepsInv(c, true);
      }
  }

  lemma EnqueueKeepsInv(c: Control, payload: Text, elapsed: Elapsed)
    requires ControlInv(c)
    ensures ControlInv(ControlNext(c, Enqueue(payload, elapsed)))
  {
    hide FatesAreRight, Packets, Sends;
    var p := Packet(payload, c.clock + elapsed);
    assert Packets(c.departed) + (Held(c) + c.outbox) + [p] == Packets(c.departed) + (Held(c) + (c.outbox + [p]));
  }

  lemma ControlNextKeepsInv(c: Control, step: ControlStep)
    requires ControlInv(c)
    ensures ControlInv(ControlNext(c, step))
  {
    match step
    case Enqueue(payload, elapsed) => EnqueueKeepsInv(c, payload, elapsed);
    case Advance(taken) => AdvanceKeepsInv(c, taken);
    case Begin(_) =>
    case Reset =>
  }

  /** In every run accepted packets are sent or expired in order, then held, then queued. */
  lemma {:induction false} ControlRunKeepsInv(c: Control, steps: seq<ControlStep>)
    requires ControlInv(c)
    ensures ControlInv(ControlRun(c, steps))
  {
    if steps != [] {
      ControlRunKeepsInv(c, steps[..|steps| - 1]);
      ControlNextKeepsInv(ControlRun(c, steps[..|steps| - 1]), steps[|steps| - 1]);
    }
  }

  lemma ControlLaneIsSafe(c: Control, steps: seq<ControlStep>)
    requires Fresh(c)
    ensures var r := ControlRun(c, steps);
            && r.accepted == Packets(r.departed) + Undelivered(r)
            && |Undelivered(r)| <= 256 + 1
            && FatesAreRight(r.departed)
  {
    ControlRunKeepsInv(c, steps);
  }

  // ---------------------------------------------------------------- a drain ends

  function OverdueIn(ps: seq<Packet>, now: real): nat {
    if ps == [] then 0 else OverdueIn(ps[..|ps| - 1], now) + (if Overdue(ps[|ps| - 1], now) then 1 else 0)
  }

  lemma {:induction false} OverdueSplits(a: seq<Packet>, b: seq<Packet>, now: real)
    ensures OverdueIn(a + b, now) == OverdueIn(a, now) + OverdueIn(b, now)
  {
    if b == [] {
      assert a + b == a;
    } else {
      var n := |a + b| - 1;
      assert (a + b)[..n] == a + b[..|b| - 1] && (a + b)[n] == b[|b| - 1];
      OverdueSplits(a, b[..|b| - 1], now);
    }
  }

  /** What a drain can still do: turns left, and expired packets it may meet. */
  function Room(c: Control): nat
    requires !c.phase.Idle? && c.phase.sent <= DRAIN_BATCH
  {
    OverdueIn(Undelivered(c), c.phase.now) + (DRAIN_BATCH - c.phase.sent)
  }

  /** The steps that a drain may still take, whatever the producer adds meanwhile. */
  function StepsLeft(c: Control): nat
    requires PhaseIsRight(c)
  {
    match c.phase
    case Idle => 0
    case Looping(_, _, _) => 3 * Room(c) + 3
    case Judging(_, _, _) => 3 * Room(c) + 2
    case Offering(_, _, _) => 3 * Room(c) + 1
  }

  lemma DepartLeavesLess(c: Control, sent: bool)
    requires c.held.Some? && !c.phase.Idle? && c.phase.sent < DRAIN_BATCH
    requires sent <==> !Overdue(c.held.value, c.phase.now)
    ensures Room(Depart(c, sent)) + 1 == Room(c)
  {
    OverdueSplits([c.held.value], c.outbox, c.phase.now);
    assert [c.held.value][..0] == [];
    assert OverdueIn([c.held.value], c.phase.now) == if sent then 0 else 1;
    assert [] + c.outbox == c.outbox;
  }

  /** Each step of a drain brings its end closer. */
  lemma AdvanceGetsCloser(c: Control, taken: bool)
    requires ControlInv(c) && !c.phase.Idle?
    ensures ControlInv(Advanced(c, taken)) && StepsLeft(Advanced(c, taken)) < StepsLeft(c)
  {
    hide ControlInv, OverdueIn, Depart, Overdue;
    AdvanceKeepsInv(c, taken);
    InvHasPhase(c);
    InvHasPhase(Advanced(c, taken));
    match c.phase
    case Looping(now, sent, before) =>
      if sent < DRAIN_BATCH && (c.held.Some? || c.outbox != []) {
        assert Undelivered(Advanced(c, taken)) == Undelivered(c);
      }
    case Judging(now, sent, before) =>
      if Overdue(c.held.value, now) {
        DepartLeavesLess(c, false);
        DepartLoops(c, false);
      }
    case Offering(now, sent, before) =>
      if taken {
        DepartLeavesLess(c, true);
        DepartLoops(c, true);
      }
  }

  lemma DepartLoops(c: Control, sent: bool)
    requires c.held.Some? && !c.phase.Idle?
    ensures Depart(c, sent).phase.Looping?
  {
  }

  lemma InvHasPhase(c: Control)
    requires ControlInv(c)
    ensures PhaseIsRight(c)
  {
  }

  /** A packet that arrives during a drain is too young to prolong it. */
  lemma EnqueueKeepsDistance(c: Control, payload: Text, elapsed: Elapsed)
    requires ControlInv(c)
    ensures ControlInv(ControlNext(c, Enqueue(payload, elapsed)))
    ensures StepsLeft(ControlNext(c, Enqueue(payload, elapsed))) == StepsLeft(c)
  {
    hide Conserved, FatesAreRight, Sends, OverdueIn;
    EnqueueKeepsInv(c, payload, elapsed);
    var d := ControlNext(c, Enqueue(payload, elapsed));
    if !c.phase.Idle? && |c.outbox| < OUTBOX_MAX {
      var p := Packet(payload, c.clock + elapsed);
      YoungIsNotOverdue(p, c.phase.now);
      OverdueSplits(Undelivered(c), [p], c.phase.now);
      assert Undelivered(d) == Undelivered(c) + [p];
    }
  }

  lemma YoungIsNotOverdue(p: Packet, now: real)
    requires p.enqueuedAt >= now
    ensures OverdueIn([p], now) == 0
  {
    assert [p][..0] == [];
  }

  function Advances(steps: seq<ControlStep>): nat {
    if steps == [] then 0 else (if steps[0].Advance? then 1 else 0) + Advances(steps[1..])
  }

  lemma {:induction false} RunFromFirst(c: Control, steps: seq<ControlStep>)
    requires steps != []
    ensures ControlRun(c, steps) == ControlRun(ControlNext(c, steps[0]), steps[1..])
  {
    hide ControlNext;
    var n := |steps| - 1;
    if n == 0 {
      assert ControlRun(c, steps[..0]) == c;
    } else {
      RunFromFirst(c, steps[..n]);
      assert steps[..n][1..] == steps[1..][..n - 1];
    }
  }

  /** When, if ever, a run first finds the drain ended. */
  ghost predicate Ends(c: Control, steps: seq<ControlStep>) {
    exists k :: 0 <= k <= |steps| && ControlRun(c, steps[..k]).phase.Idle?
  }

  /**
  A drain ends, after at most `StepsLeft` of its own steps, in every run in which the network
  thread gets to take that many, however many packets the producer adds between them.
  */
  lemma {:induction false} DrainEnds(c: Control, steps: seq<ControlStep>)
    requires ControlInv(c) && Advances(steps) >= StepsLeft(c)
    ensures Ends(c, steps)
    decreases |steps|
  {
    hide ControlInv, StepsLeft, ControlNext;
    if c.phase.Idle? {
      assert ControlRun(c, steps[..0]) == c;
    } else {
      BusyHasStepsLeft(c);
      var next := ControlNext(c, steps[0]);
      StepIsFair(c, steps[0]);
      DrainEnds(next, steps[1..]);
      var k :| 0 <= k <= |steps[1..]| && ControlRun(next, steps[1..][..k]).phase.Idle?;
      RunFromFirst(c, steps[..k + 1]);
      assert steps[..k + 1][1..] == steps[1..][..k];
    }
  }

  lemma BusyHasStepsLeft(c: Control)
    requires ControlInv(c) && !c.phase.Idle?
    ensures StepsLeft(c) > 0
  {
  }

  lemma StepIsFair(c: Control, step: ControlStep)
    requires ControlInv(c) && !c.phase.Idle?
    ensures var next := ControlNext(c, step);
            ControlInv(next) && StepsLeft(next) + (if step.Advance? then 1 else 0) <= StepsLeft(c)
  {
    hide StepsLeft, ControlInv;
    match step
    case Enqueue(payload, elapsed) => EnqueueKeepsDistance(c, payload, elapsed);
    case Advance(taken) => AdvanceGetsCloser(c, taken);
    case Begin(elapsed) => TimeKeepsDistance(c, elapsed);
    case Reset =>
  }

  lemma TimeKeepsDistance(c: Control, elapsed: Elapsed)
    requires ControlInv(c)
    ensures var d := c.(clock := c.clock + elapsed); ControlInv(d) && StepsLeft(d) == StepsLeft(c)
  {
  }

  /** While it lasts a drain has sent at most 64 packets. */
  lemma DrainSendsAtMostBatch(c: Control, steps: seq<ControlStep>)
    requires Fresh(c) && !ControlRun(c, steps).phase.Idle?
    ensures var r := ControlRun(c, steps);
            r.phase.before <= Sends(r.departed) <= r.phase.before + 64
  {
    ControlRunKeepsInv(c, steps);
  }

  // ---------------------------------------------------------------- what was called, and when

  /** The time that passes in some steps. */
  function TimeOf(steps: seq<ControlStep>): real {
    if steps == [] then 0.0
    else
      var e := match steps[|steps| - 1]
               case Enqueue(_, elapsed) => elapsed
               case Begin(elapsed) => elapsed
               case _ => 0.0;
      TimeOf(steps[..|steps| - 1]) + e
  }

  lemma {:induction false} ClockIsTime(c: Control, steps: seq<ControlStep>)
    ensures ControlRun(c, steps).clock == c.clock + TimeOf(steps)
  {
    if steps != [] {
      ClockIsTime(c, steps[..|steps| - 1]);
    }
  }

  /** The enqueue calls since the last reset that found room, by their place among the steps. */
  function Accepting(c: Control, steps: seq<ControlStep>): (r: seq<nat>)
    ensures forall j :: 0 <= j < |r| ==> r[j] < |steps|
  {
    if steps == [] then []
    else
      var n := |steps| - 1;
      var before, front := ControlRun(c, steps[..n]), Accepting(c, steps[..n]);
      if steps[n].Enqueue? && |before.outbox| < 256 then front + [n]
      else if steps[n].Reset? && before.phase.Idle? then []
      else front
  }

  /** The packet of an enqueue call: its payload, and the time of the call. */
  function CallAt(c: Control, steps: seq<ControlStep>, i: nat): Packet
    requires i < |steps|
  {
    Packet(if steps[i].Enqueue? then steps[i].payload else [], c.clock + TimeOf(steps[..i + 1]))
  }

  lemma ClockMoves(c: Control, step: ControlStep)
    ensures step.Enqueue? && |c.outbox| < 256 ==>
              ControlNext(c, step).accepted == c.accepted + [Packet(step.payload, ControlNext(c, step).clock)]
  {
  }

  lemma AcceptedMoves(c: Control, step: ControlStep)
    ensures var d := ControlNext(c, step);
            if step.Enqueue? && |c.outbox| < 256 then true
            else if step.Reset? && c.phase.Idle? then d.accepted == []
            else d.accepted == c.accepted
  {
  }

  /** What was accepted since the last reset is exactly those calls, each with its payload and its time. */
  lemma {:induction false} AcceptedAreCalls(c: Control, steps: seq<ControlStep>)
    requires Fresh(c)
    ensures var accepted, calls := ControlRun(c, steps).accepted, Accepting(c, steps);
            && |accepted| == |calls|
            && forall j :: 0 <= j < |calls| ==> steps[calls[j]].Enqueue? && accepted[j] == CallAt(c, steps, calls[j])
  {
    hide ControlNext;
    if steps != [] {
      var n := |steps| - 1;
      var front := steps[..n];
      AcceptedAreCalls(c, front);
      AcceptedMoves(ControlRun(c, front), steps[n]);
      ClockIsTime(c, steps);
      ClockMoves(ControlRun(c, front), steps[n]);
      forall i: nat | i < n
        ensures CallAt(c, front, i) == CallAt(c, steps, i) && front[i] == steps[i]
      {
        assert front[..i + 1] == steps[..i + 1];
      }
      assert steps[..n + 1] == steps;
    }
  }

  /** Where the drain that is or was last under way began. */
  function LatestBegin(c: Control, steps: seq<ControlStep>): (r: nat)
    ensures r < |steps| || r == 0
  {
    if steps == [] then 0
    else
      var n := |steps| - 1;
      if steps[n].Begin? && ControlRun(c, steps[..n]).phase.Idle? then n else LatestBegin(c, steps[..n])
  }

  /** For every departure, where its drain began. */
  function DrainsOf(c: Control, steps: seq<ControlStep>): (r: seq<nat>)
    ensures forall j :: 0 <= j < |r| ==> r[j] < |steps|
  {
    if steps == [] then []
    else
      var n := |steps| - 1;
      var before, front := ControlRun(c, steps[..n]), DrainsOf(c, steps[..n]);
      var after := ControlRun(c, steps);
      if |after.departed| > |before.departed| then front + [LatestBegin(c, steps[..n])]
      else if steps[n].Reset? && before.phase.Idle? then []
      else front
  }

  /** While a drain is under way its clock sample is the time at which it began. */
  lemma {:induction false} SampleIsBegin(c: Control, steps: seq<ControlStep>)
    requires Fresh(c)
    ensures var r := ControlRun(c, steps);
            !r.phase.Idle? ==>
              && LatestBegin(c, steps) < |steps| && steps[LatestBegin(c, steps)].Begin?
              && r.phase.now == c.clock + TimeOf(steps[..LatestBegin(c, steps) + 1])
  {
    hide ControlNext;
    if steps != [] {
      var n := |steps| - 1;
      var front := steps[..n];
      SampleIsBegin(c, front);
      DrainMoves(ControlRun(c, front), steps[n]);
      ClockIsTime(c, steps);
      var b := LatestBegin(c, front);
      if b < n {
        assert front[..b + 1] == steps[..b + 1] && front[b] == steps[b];
      }
      assert steps[..n + 1] == steps;
    }
  }

  /** Every departure is stamped with the time at which its drain began. */
  lemma {:induction false} DeparturesAreSampled(c: Control, steps: seq<ControlStep>)
    requires Fresh(c)
    ensures var departed, drains := ControlRun(c, steps).departed, DrainsOf(c, steps);
            && |departed| == |drains|
            && forall j :: 0 <= j < |drains| ==>
                 steps[drains[j]].Begin? && departed[j].sampled == c.clock + TimeOf(steps[..drains[j] + 1])
  {
    hide ControlNext;
    if steps != [] {
      var n := |steps| - 1;
      var front := steps[..n];
      DeparturesAreSampled(c, front);
      SampleIsBegin(c, front);
      DepartedMoves(ControlRun(c, front), steps[n]);
      forall i: nat | i < n
        ensures front[..i + 1] == steps[..i + 1] && front[i] == steps[i]
      {
      }
    }
  }

  /** One departure more, stamped with the drain's sample. */
  predicate OneMore(c: Control, d: Control)
    requires !c.phase.Idle?
  {
    && |d.departed| == |c.departed| + 1 && d.departed[..|c.departed|] == c.departed
    && d.departed[|c.departed|].sampled == c.phase.now
  }

  lemma DrainMoves(c: Control, step: ControlStep)
    ensures var d := ControlNext(c, step);
            !d.phase.Idle? ==> if c.phase.Idle? then step.Begin? && d.phase.now == d.clock else d.phase.now == c.phase.now
    ensures step.Begin? && c.phase.Idle? ==> !ControlNext(c, step).phase.Idle?
  {
  }

  lemma DepartedMoves(c: Control, step: ControlStep)
    ensures var d := ControlNext(c, step);
            if step.Reset? && c.phase.Idle? then d.departed == []
            else d.departed == c.departed || (!c.phase.Idle? && OneMore(c, d))
  {
  }

  /**
  In every run the j-th departure is the j-th accepted call, with its payload, and it was sent
  exactly if at most 5 s lie between that call and the beginning of the drain.
  */
  lemma FatesAreByTime(c: Control, steps: seq<ControlStep>, j: nat)
    requires Fresh(c) && j < |ControlRun(c, steps).departed|
    ensures var r, calls, drains := ControlRun(c, steps), Accepting(c, steps), DrainsOf(c, steps);
            && j < |calls| && j < |drains| && steps[calls[j]].Enqueue? && steps[drains[j]].Begin?
            && r.departed[j].packet.payload == steps[calls[j]].payload
            && (r.departed[j].sent <==> TimeOf(steps[..drains[j] + 1]) - TimeOf(steps[..calls[j] + 1]) <= 5.0)
  {
    hide ControlRun, Accepting, DrainsOf, TimeOf, Sends;
    AcceptedAreCalls(c, steps);
    DeparturesAreSampled(c, steps);
    ControlRunKeepsInv(c, steps);
    PacketsAt(ControlRun(c, steps).departed, j);
  }

  lemma {:induction false} PacketsAt(d: seq<Departure>, j: nat)
    ensures |Packets(d)| == |d|
    ensures j < |d| ==> Packets(d)[j] == d[j].packet
  {
    if d != [] {
      PacketsAt(d[..|d| - 1], j);
    }
  }

  /** How often the socket said yes. */
  function YesSteps(steps: seq<ControlStep>): nat {
    if steps == [] then 0
    else YesSteps(steps[..|steps| - 1]) + (if steps[|steps| - 1] == Advance(true) then 1 else 0)
  }

  /** Nothing counts as sent that the socket did not take. */
  lemma {:induction false} SendsAreTaken(c: Control, steps: seq<ControlStep>)
    requires Fresh(c)
    ensures Sends(ControlRun(c, steps).departed) <= YesSteps(steps)
  {
    hide Overdue;
    if steps != [] {
      SendsAreTaken(c, steps[..|steps| - 1]);
    }
  }

  /** A refused packet stays where it is, and is the first to be offered again. */
  lemma RefusedStays(c: Control, steps: seq<ControlStep>)
    requires Fresh(c) && ControlRun(c, steps).phase.Offering?
    ensures var s, r := ControlRun(c, steps), ControlRun(c, steps + [Advance(false)]);
            r == s.(phase := Idle) && s.held.Some? && Undelivered(r)[0] == s.held.value
  {
    ControlRunKeepsInv(c, steps);
    assert (steps + [Advance(false)])[..|steps|] == steps;
  }

  // ---------------------------------------------------------------- a latest-wins slot

  /** A payload between its copy out of the slot and the comparison afterwards. */
  datatype Flight =
    | Grounded
    | Copied(version: nat, payload: Text)
    | Delivered(version: nat, payload: Text)

  /**
  One slot: the avatar's, or one object's. `sets` are all payloads ever set, `sent` the
  positions among them that reached the socket, `floor` how many were set before the last clear.
  */
  datatype Slot = Slot(held: Option<Text>, sets: seq<Text>, sent: seq<nat>, flight: Flight, floor: nat)

  const EMPTY_SLOT := Slot(None, [], [], Grounded, 0)

  datatype SlotStep =
    | Set(payload: Text)
    | Copy
    | Offer(taken: bool)
    | Settle
    | Drop

  function SlotNext(s: Slot, step: SlotStep): Slot {
    match step
    case Set(payload) => s.(held := Some(payload), sets := s.sets + [payload])
    case Copy =>
      if s.flight.Grounded? && s.held.Some? && s.sets != [] then s.(flight := Copied(|s.sets| - 1, s.held.value)) else s
    case Offer(taken) =>
      if !s.flight.Copied? then s
      else if taken then s.(sent := s.sent + [s.flight.version], flight := Delivered(s.flight.version, s.flight.payload))
      else s.(flight := Grounded)
    case Settle =>
      if !s.flight.Delivered? then s
      else s.(held := if s.held == Some(s.flight.payload) then None else s.held, flight := Grounded)
    case Drop => s.(held := None, floor := |s.sets|)
  }

  function SlotRun(s: Slot, steps: seq<SlotStep>): Slot {
    if steps == [] then s else SlotNext(SlotRun(s, steps[..|steps| - 1]), steps[|steps| - 1])
  }

  /** Sent positions go up: nothing older follows anything newer, and nothing is sent twice. */
  predicate GoesForward(s: Slot) {
    && (forall i :: 0 <= i < |s.sent| ==> s.sent[i] < |s.sets|)
    && (forall i, j :: 0 <= i < j < |s.sent| ==> s.sent[i] < s.sent[j])
  }

  /** All positions sent so far are below `v`. */
  predicate SentBelow(s: Slot, v: nat) {
    s.sent == [] || s.sent[|s.sent| - 1] < v
  }

  /** The last payload sent is the last one set. */
  predicate UpToDate(s: Slot) {
    && s.sets != [] && s.sent != [] && s.sent[|s.sent| - 1] < |s.sets|
    && s.sets[s.sent[|s.sent| - 1]] == s.sets[|s.sets| - 1]
  }

  predicate SlotInv(s: Slot) {
    && GoesForward(s) && s.floor <= |s.sets|
    && (s.held.Some? ==> |s.sets| > s.floor && s.held.value == s.sets[|s.sets| - 1])
    && (s.held.None? && |s.sets| > s.floor ==> UpToDate(s))
    && (s.held.None? && !s.flight.Grounded? ==> |s.sets| == s.floor)
    && (match s.flight
        case Grounded => s.held.Some? ==> SentBelow(s, |s.sets| - 1)
        case Copied(v, p) => v < |s.sets| && p == s.sets[v] && SentBelow(s, v)
        case Delivered(v, p) => v < |s.sets| && p == s.sets[v] && s.sent != [] && s.sent[|s.sent| - 1] == v)
  }

  lemma SetKeepsInv(s: Slot, payload: Text)
    requires SlotInv(s)
    ensures SlotInv(SlotNext(s, Set(payload)))
  {
  }

  lemma SlotNextKeepsInv(s: Slot, step: SlotStep)
    requires SlotInv(s)
    ensures SlotInv(SlotNext(s, step))
  {
    match step
    case Set(payload) => SetKeepsInv(s, payload);
    case _ =>
  }

  lemma {:induction false} SlotRunKeepsInv(s: Slot, steps: seq<SlotStep>)
    requires SlotInv(s)
    ensures SlotInv(SlotRun(s, steps))
  {
    if steps != [] {
      SlotRunKeepsInv(s, steps[..|steps| - 1]);
      SlotNextKeepsInv(SlotRun(s, steps[..|steps| - 1]), steps[|steps| - 1]);
    }
  }

  /** The payloads of the set calls among some steps. */
  function SetPayloads(steps: seq<SlotStep>): seq<Text> {
    if steps == [] then []
    else
      var front := SetPayloads(steps[..|steps| - 1]);
      if steps[|steps| - 1].Set? then front + [steps[|steps| - 1].payload] else front
  }

  /** How many set calls came before the last clear. */
  function SetsBeforeClear(steps: seq<SlotStep>): nat {
    if steps == [] then 0
    else if steps[|steps| - 1].Drop? then |SetPayloads(steps[..|steps| - 1])|
    else SetsBeforeClear(steps[..|steps| - 1])
  }

  lemma {:induction false} SetsAreCalls(steps: seq<SlotStep>)
    ensures SlotRun(EMPTY_SLOT, steps).sets == SetPayloads(steps)
    ensures SlotRun(EMPTY_SLOT, steps).floor == SetsBeforeClear(steps)
  {
    if steps != [] {
      SetsAreCalls(steps[..|steps| - 1]);
    }
  }

  /**
  Under every interleaving: an empty slot that was set since the last clear means that the last
  payload sent is the last one set, and no payload is sent after a newer one, or twice.
  */
  lemma LatestAlwaysWins(steps: seq<SlotStep>)
    ensures var s, sets := SlotRun(EMPTY_SLOT, steps), SetPayloads(steps);
            && s.sets == sets && GoesForward(s)
            && (s.held.Some? ==> sets != [] && s.held.value == sets[|sets| - 1])
            && (s.held.None? && |sets| > SetsBeforeClear(steps) ==>
                  s.sent != [] && s.sent[|s.sent| - 1] < |sets| && sets[s.sent[|s.sent| - 1]] == sets[|sets| - 1])
  {
    SlotRunKeepsInv(EMPTY_SLOT, steps);
    SetsAreCalls(steps);
  }

  /** What is handed to the socket is the payload of the copied set call. */
  lemma OffersAreSets(steps: seq<SlotStep>)
    ensures var s, sets := SlotRun(EMPTY_SLOT, steps), SetPayloads(steps);
            (s.flight.Copied? || s.flight.Delivered?) ==> s.flight.version < |sets| && s.flight.payload == sets[s.flight.version]
  {
    SlotRunKeepsInv(EMPTY_SLOT, steps);
    SetsAreCalls(steps);
  }

  function YesOffers(steps: seq<SlotStep>): nat {
    if steps == [] then 0
    else YesOffers(steps[..|steps| - 1]) + (if steps[|steps| - 1] == Offer(true) then 1 else 0)
  }

  /** Nothing counts as sent that the socket did not take, and a refusal leaves the slot as it was. */
  lemma {:induction false} OffersAreTaken(steps: seq<SlotStep>)
    ensures |SlotRun(EMPTY_SLOT, steps).sent| <= YesOffers(steps)
    ensures SlotRun(EMPTY_SLOT, steps + [Offer(false)]).held == SlotRun(EMPTY_SLOT, steps).held
    ensures SlotRun(EMPTY_SLOT, steps + [Offer(false)]).sent == SlotRun(EMPTY_SLOT, steps).sent
  {
    assert (steps + [Offer(false)])[..|steps|] == steps;
    if steps != [] {
      OffersAreTaken(steps[..|steps| - 1]);
    }
  }

  /** With the socket accepting and the producer quiet, one round brings a set slot up to date. */
  lemma QuietRoundSettles(steps: seq<SlotStep>)
    requires var s := SlotRun(EMPTY_SLOT, steps); s.flight.Grounded? && s.held.Some?
    ensures var s := SlotRun(EMPTY_SLOT, steps);
            var r := SlotNext(SlotNext(SlotNext(s, Copy), Offer(true)), Settle);
            r.held.None? && r.sets == s.sets && UpToDate(r)
  {
    SlotRunKeepsInv(EMPTY_SLOT, steps);
  }
}
