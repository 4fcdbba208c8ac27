/**
The lanes of the transport do not get into each other's way (src/transport/zmq_transport.cpp):
each is the run of its own steps, whatever happens on the others, and clearing reaches all of them.
*/
module TransportLanes {
  import opened Bytes
  import opened OutboundLanes
  import opened Transport

  function ControlSteps(steps: seq<Step>): seq<ControlStep> {
    if steps == [] then []
    else
      ControlSteps(steps[..|steps| - 1]) +
      match steps[|steps| - 1]
      case OnControl(s) => [s]
      case ClearAll => [ControlStep.Reset]
      case _ => []
  }

  function AvatarSteps(steps: seq<Step>): seq<SlotStep> {
    if steps == [] then []
    else
      AvatarSteps(steps[..|steps| - 1]) +
      match steps[|steps| - 1]
      case OnAvatar(s) => [s]
      case ClearAll => [Drop]
      case _ => []
  }

  function ObjectSteps(steps: seq<Step>, id: nat): seq<SlotStep> {
    if steps == [] then []
    else
      ObjectSteps(steps[..|steps| - 1], id) +
      match steps[|steps| - 1]
      case OnObject(k, s) => if k == id then [s] else []
      case ClearAll => [Drop]
      case _ => []
  }

  lemma ControlMore(c: Control, steps: seq<ControlStep>, more: seq<ControlStep>)
    requires |more| <= 1
    ensures ControlRun(c, steps + more) == if more == [] then ControlRun(c, steps) else ControlNext(ControlRun(c, steps), more[0])
  {
    hide ControlNext;
    assert more == [] ==> steps + more == steps;
    assert more != [] ==> (steps + more)[..|steps|] == steps && (steps + more)[|steps|] == more[0];
  }

  lemma SlotMore(s: Slot, steps: seq<SlotStep>, more: seq<SlotStep>)
    requires |more| <= 1
    ensures SlotRun(s, steps + more) == if more == [] then SlotRun(s, steps) else SlotNext(SlotRun(s, steps), more[0])
  {
    hide SlotNext;
    assert more == [] ==> steps + more == steps;
    assert more != [] ==> (steps + more)[..|steps|] == steps && (steps + more)[|steps|] == more[0];
  }

  lemma DropOfNothing()
    ensures SlotNext(EMPTY_SLOT, Drop) == EMPTY_SLOT
  {
  }

  /** Every lane is the run of its own steps. */
  lemma {:induction false} LanesAreIndependent(l: Lanes, steps: seq<Step>, id: nat)
    ensures LanesRun(l, steps).control == ControlRun(l.control, ControlSteps(steps))
    ensures LanesRun(l, steps).avatar == SlotRun(l.avatar, AvatarSteps(steps))
    ensures ObjectSlot(LanesRun(l, steps), id) == SlotRun(ObjectSlot(l, id), ObjectSteps(steps, id))
  {
    hide ControlNext, SlotNext;
    if steps != [] {
      var n := |steps| - 1;
      var front, step := steps[..n], steps[n];
      LanesAreIndependent(l, front, id);
      DropOfNothing();
      ControlMore(l.control, ControlSteps(front), if step.OnControl? then [step.control] else if step.ClearAll? then [ControlStep.Reset] else []);
      SlotMore(l.avatar, AvatarSteps(front), if step.OnAvatar? then [step.slot] else if step.ClearAll? then [Drop] else []);
      SlotMore(ObjectSlot(l, id), ObjectSteps(front, id),
               if step.OnObject? && step.id == id then [step.slot] else if step.ClearAll? then [Drop] else []);
    }
  }

  /**
  From a new transport, under every interleaving of all lanes: what is waiting for an object is the
  payload last set for it, and once it is gone, without a clear since, that payload was the last one sent.
  */
  lemma ObjectsGetTheirLatest(l: Lanes, steps: seq<Step>, id: nat)
    requires l.objects == map[]
    ensures var s, sets := ObjectSlot(LanesRun(l, steps), id), SetPayloads(ObjectSteps(steps, id));
            && (s.held.Some? ==> sets != [] && s.held.value == sets[|sets| - 1])
            && (s.held.None? && |sets| > SetsBeforeClear(ObjectSteps(steps, id)) ==>
                  s.sent != [] && s.sent[|s.sent| - 1] < |sets| && sets[s.sent[|s.sent| - 1]] == sets[|sets| - 1])
  {
    hide LanesRun, SetPayloads, SetsBeforeClear;
    LanesAreIndependent(l, steps, id);
    LatestAlwaysWins(ObjectSteps(steps, id));
  }
}
