/**
The send side of one network variable (src/core/network_variable_manager.cpp): debounced sends,
dedupe and reconciliation with server snapshots.
*/
module Debounce {
  // Leading-edge send, 100 ms cooldown, trailing latest-wins flush, dedupe against the last sent
  // value. A `Track` is everything the manager's four maps hold for one key, together with two
  // records that the program does not keep: the evidence seen so far (messages the sender
  // accepted and values a client snapshot reported) and the latest accepted intent. Every
  // manager operation acts on the keys it touches through one of the steps below, for global
  // and for client variables alike.

  import opened Bytes

  const INTERVAL: real := 0.1

  /** Whether a message left on the leading edge of a set or from a trailing flush. */
  datatype Edge = Leading | Trailing

  datatype Evidence =
    | Sent(value: Text, at: real, edge: Edge)
    | Reported(value: Text)

  /** The latest accepted set; the evidence that can fulfil it starts at index `since`. */
  datatype Intent = Intent(value: Text, setAt: real, since: nat)

  datatype Track = Track(
    lastSent: Option<Text>,
    nextAllowed: Option<real>,
    pending: Option<Text>,
    due: Option<real>,
    evidence: seq<Evidence>,
    intent: Option<Intent>)

  const FRESH := Track(None, None, None, None, [], None)

  datatype Event =
    | Set(now: real, value: Text, accept: bool)
    | Flush(now: real, accept: bool)
    | GlobalSync(value: Text)
    | ClientReport(value: Text)
    | ClientRemove
    | Clear

  // ---------------------------------------------------------------- steps

  /** A send the sender took: recorded as the last sent value, and opens a cooldown. */
  function Deliver(t: Track, now: real, value: Text, edge: Edge): Track {
    t.(lastSent := Some(value),
       nextAllowed := Some(now + INTERVAL),
       evidence := t.evidence + [Sent(value, now, edge)])
  }

  function DropPending(t: Track): Track {
    t.(pending := None, due := None)
  }

  predicate MayLead(t: Track, now: real) {
    t.nextAllowed.None? || now >= t.nextAllowed.value
  }

  /** A set outside the cooldown: send at once, and leave a trailing copy behind. */
  function LeadStep(t: Track, now: real, value: Text, accept: bool): Track {
    var sent := if accept then Deliver(t, now, value, Leading) else t;
    sent.(pending := Some(value), due := if t.due.None? then Some(now + INTERVAL) else t.due)
  }

  /** A set inside the cooldown: only the pending value changes, and the first deadline stays. */
  function WaitStep(t: Track, value: Text): Track {
    t.(pending := Some(value), due := if t.due.None? then t.nextAllowed else t.due)
  }

  /** set_global and set_client, once the name, the value and the table size are accepted. */
  function SetStep(t: Track, now: real, value: Text, accept: bool): Track {
    if t.lastSent == Some(value) then
      var since := if t.evidence == [] then 0 else |t.evidence| - 1;
      DropPending(t).(intent := Some(Intent(value, now, since)))
    else
      var t := t.(intent := Some(Intent(value, now, |t.evidence|)));
      if MayLead(t, now) then LeadStep(t, now, value, accept) else WaitStep(t, value)
  }

  predicate Ripe(t: Track, now: real) {
    t.due.Some? && t.due.value <= now && t.pending.Some?
  }

  /** One key's part of flush_pending_global and flush_pending_client. */
  function FlushStep(t: Track, now: real, accept: bool): Track {
    if !Ripe(t, now) then t
    else if t.lastSent == t.pending then DropPending(t)
    else if accept then DropPending(Deliver(t, now, t.pending.value, Trailing))
    else t
  }

  /** One entry of handle_global_sync. */
  function GlobalSyncStep(t: Track, value: Text): Track {
    if t.lastSent.None? then t
    else
      var kept := if t.pending == t.lastSent then DropPending(t) else t;
      if t.lastSent.value != value then kept.(lastSent := None) else kept
  }

  /** One entry of a handle_client_sync block. */
  function ClientReportStep(t: Track, value: Text): Track {
    var seen := t.(lastSent := Some(value), evidence := t.evidence + [Reported(value)]);
    if t.pending == Some(value) then DropPending(seen) else seen
  }

  /** A name that a handle_client_sync block no longer lists. */
  function ClientRemoveStep(t: Track): Track {
    if t.lastSent.None? then t
    else (if t.pending == t.lastSent then DropPending(t) else t).(lastSent := None)
  }

  function Step(t: Track, e: Event): Track {
    match e
    case Set(now, value, accept) => SetStep(t, now, value, accept)
    case Flush(now, accept) => FlushStep(t, now, accept)
    case GlobalSync(value) => GlobalSyncStep(t, value)
    case ClientReport(value) => ClientReportStep(t, value)
    case ClientRemove => ClientRemoveStep(t)
    case Clear => FRESH
  }

  /** The state after `es`, oldest event first. */
  function Run(es: seq<Event>): Track {
    if es == [] then FRESH else Step(Run(es[..|es| - 1]), es[|es| - 1])
  }

  // ---------------------------------------------------------------- time

  predicate HasTime(e: Event) {
    e.Set? || e.Flush?
  }

  /** The clock readings of a run never go backwards. */
  predicate Timed(es: seq<Event>) {
    forall i, j :: 0 <= i < j < |es| && HasTime(es[i]) && HasTime(es[j]) ==> es[i].now <= es[j].now
  }

  /** No reading in `es` lies after `clock`. */
  predicate Before(es: seq<Event>, clock: real) {
    forall i :: 0 <= i < |es| && HasTime(es[i]) ==> es[i].now <= clock
  }

  // ---------------------------------------------------------------- invariants

  function LastSend(evidence: seq<Evidence>): Option<Evidence>
    ensures var r := LastSend(evidence); r.Some? ==> r.value.Sent? && r.value in evidence
  {
    if evidence == [] then None
    else
      var e := evidence[|evidence| - 1];
      if e.Sent? then Some(e) else LastSend(evidence[..|evidence| - 1])
  }

  /** Leading sends keep their distance from every earlier send, trailing ones from each other. */
  ghost predicate Spaced(evidence: seq<Evidence>) {
    forall i, j :: 0 <= i < j < |evidence| && evidence[i].Sent? && evidence[j].Sent? ==>
      && evidence[i].at <= evidence[j].at
      && (evidence[j].edge.Leading? || evidence[i].edge.Trailing? ==>
            evidence[i].at + INTERVAL <= evidence[j].at)
  }

  /** What nextAllowed and due say about the sends that were made by `clock`. */
  ghost predicate Cooled(t: Track, clock: real) {
    && Spaced(t.evidence)
    && (forall i :: 0 <= i < |t.evidence| && t.evidence[i].Sent? ==>
          && t.evidence[i].at <= clock
          && t.nextAllowed.Some?
          && t.evidence[i].at + INTERVAL <= t.nextAllowed.value
          && (t.due.Some? && t.evidence[i].edge.Trailing? ==>
                t.evidence[i].at + INTERVAL <= t.due.value))
    && (t.nextAllowed.Some? ==> t.nextAllowed.value <= clock + INTERVAL)
    && (t.due.Some? ==> t.intent.Some? && t.due.value <= t.intent.value.setAt + INTERVAL)
    && (t.intent.Some? ==> t.intent.value.setAt <= clock)
  }

  /** The latest intent is still pending, or something since has carried it. */
  ghost predicate Kept(t: Track) {
    && (t.pending.Some? <==> t.due.Some?)
    && (t.lastSent.Some? ==> t.evidence != [] && t.evidence[|t.evidence| - 1].value == t.lastSent.value)
    && (t.intent.None? ==> t.pending.None?)
    && (t.intent.Some? ==>
          var i := t.intent.value;
          && i.since <= |t.evidence|
          && (t.pending.Some? ==> t.pending.value == i.value)
          && (t.pending.None? ==> exists j :: i.since <= j < |t.evidence| && t.evidence[j].value == i.value)
          && (forall j :: i.since <= j < |t.evidence| && t.evidence[j].Sent? ==> t.evidence[j].value == i.value)
          && (i.since == |t.evidence| ==> t.lastSent != Some(i.value)))
  }

  ghost predicate Inv(t: Track, clock: real) {
    Kept(t) && Cooled(t, clock)
  }

  lemma SetKeepsInv(t: Track, clock: real, now: real, value: Text, accept: bool)
    requires Inv(t, clock) && clock <= now
    ensures Inv(SetStep(t, now, value, accept), now)
  {
    SetKeepsKept(t, now, value, accept);
    SetKeepsCooled(t, clock, now, value, accept);
  }

  lemma SetKeepsKept(t: Track, now: real, value: Text, accept: bool)
    requires Kept(t)
    ensures Kept(SetStep(t, now, value, accept))
  {
  }

  lemma SetKeepsCooled(t: Track, clock: real, now: real, value: Text, accept: bool)
    requires Kept(t) && Cooled(t, clock) && clock <= now
    ensures Cooled(SetStep(t, now, value, accept), now)
  {
  }

  lemma FlushKeepsInv(t: Track, clock: real, now: real, accept: bool)
    requires Inv(t, clock) && clock <= now
    ensures Inv(FlushStep(t, now, accept), now)
  {
  }

  lemma GlobalSyncKeepsInv(t: Track, clock: real, value: Text)
    requires Inv(t, clock)
    ensures Inv(GlobalSyncStep(t, value), clock)
  {
    if t.lastSent.Some? && t.pending == t.lastSent {
      LastEvidenceCounts(t);
    }
  }

  lemma ClientReportKeepsInv(t: Track, clock: real, value: Text)
    requires Inv(t, clock)
    ensures Inv(ClientReportStep(t, value), clock)
  {
    var seen := t.evidence + [Reported(value)];
    assert forall j :: 0 <= j < |t.evidence| ==> seen[j] == t.evidence[j];
    assert seen[|t.evidence|].value == value;
  }

  lemma ClientRemoveKeepsInv(t: Track, clock: real)
    requires Inv(t, clock)
    ensures Inv(ClientRemoveStep(t), clock)
  {
    if t.lastSent.Some? && t.pending == t.lastSent {
      LastEvidenceCounts(t);
    }
  }

  /** When the pending value equals the last sent one, the newest evidence fulfils the intent. */
  lemma LastEvidenceCounts(t: Track)
    requires Kept(t) && t.intent.Some? && t.lastSent == Some(t.intent.value.value)
    ensures t.evidence != [] && t.intent.value.since <= |t.evidence| - 1
    ensures t.evidence[|t.evidence| - 1].value == t.intent.value.value
  {
  }

  // ---------------------------------------------------------------- whole runs

  /** Every state of every run satisfies the invariant. */
  lemma {:induction false} RunKeepsInv(es: seq<Event>, clock: real)
    requires Timed(es) && Before(es, clock)
    ensures Inv(Run(es), clock)
  {
    if es != [] {
      var front, last := es[..|es| - 1], es[|es| - 1];
      var t := Run(front);
      match last
      case Set(now, value, accept) =>
        RunKeepsInv(front, now);
        SetKeepsInv(t, now, now, value, accept);
        Later(Run(es), now, clock);
      case Flush(now, accept) =>
        RunKeepsInv(front, now);
        FlushKeepsInv(t, now, now, accept);
        Later(Run(es), now, clock);
      case GlobalSync(value) =>
        RunKeepsInv(front, clock);
        GlobalSyncKeepsInv(t, clock, value);
      case ClientReport(value) =>
        RunKeepsInv(front, clock);
        ClientReportKeepsInv(t, clock, value);
      case ClientRemove =>
        RunKeepsInv(front, clock);
        ClientRemoveKeepsInv(t, clock);
      case Clear =>
    }
  }

  lemma Later(t: Track, clock: real, later: real)
    requires Inv(t, clock) && clock <= later
    ensures Inv(t, later)
  {
  }

  /** The latest set of a run that no clear has wiped. */
  function LatestSet(es: seq<Event>): (r: Option<Event>)
    ensures r.Some? ==> r.value.Set? && r.value in es
  {
    if es == [] then None
    else
      var last := es[|es| - 1];
      if last.Set? then Some(last)
      else if last.Clear? then None
      else LatestSet(es[..|es| - 1])
  }

  /** The recorded intent is the latest set of the run, read off the events alone. */
  lemma {:induction false} IntentIsLatestSet(es: seq<Event>)
    ensures LatestSet(es).None? ==> Run(es).intent.None?
    ensures LatestSet(es).Some? ==>
              && Run(es).intent.Some?
              && Run(es).intent.value.value == LatestSet(es).value.value
              && Run(es).intent.value.setAt == LatestSet(es).value.now
  {
    if es != [] {
      IntentIsLatestSet(es[..|es| - 1]);
    }
  }

  /** The latest message the sender took since the last clear carries `value`. */
  predicate WireHolds(t: Track, value: Text) {
    LastSend(t.evidence).Some? && LastSend(t.evidence).value.value == value
  }

  /**
  The latest accepted value is never lost, whatever the sender refuses: it is pending, or
  nothing is pending and some message or client snapshot from that set on has carried it.
  No message from that set on carries anything else.
  */
  lemma LatestIntentNeverLost(es: seq<Event>)
    requires Timed(es) && LatestSet(es).Some?
    ensures var t, v := Run(es), LatestSet(es).value.value;
            && t.intent.Some? && t.intent.value.value == v && t.intent.value.since <= |t.evidence|
            && (t.pending.Some? <==> t.due.Some?)
            && (t.pending.Some? ==> t.pending.value == v)
            && (t.pending.None? ==> exists j :: t.intent.value.since <= j < |t.evidence| && t.evidence[j].value == v)
            && (forall j :: t.intent.value.since <= j < |t.evidence| && t.evidence[j].Sent? ==> t.evidence[j].value == v)
  {
    var clock := AfterAll(es);
    RunKeepsInv(es, clock);
    IntentIsLatestSet(es);
  }

  /** Some reading that no event of a run exceeds. */
  lemma {:induction false} AfterAll(es: seq<Event>) returns (clock: real)
    ensures Before(es, clock)
  {
    clock := 0.0;
    if es != [] {
      var last := es[|es| - 1];
      clock := AfterAll(es[..|es| - 1]);
      if HasTime(last) && last.now > clock {
        clock := last.now;
      }
    }
  }

  /** The events that touch a global variable. */
  predicate GlobalOnly(es: seq<Event>) {
    forall i :: 0 <= i < |es| ==> !es[i].ClientReport? && !es[i].ClientRemove?
  }

  lemma {:induction false} GlobalEvidenceIsSends(es: seq<Event>)
    requires GlobalOnly(es)
    ensures forall j :: 0 <= j < |Run(es).evidence| ==> Run(es).evidence[j].Sent?
  {
    if es != [] {
      GlobalEvidenceIsSends(es[..|es| - 1]);
    }
  }

  /** For a global variable: the latest value is pending, or it is the last message sent. */
  lemma GlobalLatestIntent(es: seq<Event>)
    requires Timed(es) && GlobalOnly(es) && LatestSet(es).Some?
    ensures var t, v := Run(es), LatestSet(es).value.value;
            t.pending == Some(v) || (t.pending.None? && t.due.None? && WireHolds(t, v))
  {
    LatestIntentNeverLost(es);
    GlobalEvidenceIsSends(es);
  }

  /** Nothing but snapshots and flushes. */
  predicate Quiet(es: seq<Event>) {
    forall i :: 0 <= i < |es| ==> !es[i].Set? && !es[i].Clear?
  }

  lemma {:induction false} QuietStaysSettled(es: seq<Event>, quiet: seq<Event>)
    requires Run(es).pending.None? && Run(es).due.None? && Quiet(quiet)
    ensures Run(es + quiet).pending.None? && Run(es + quiet).due.None?
    ensures LatestSet(es + quiet) == LatestSet(es)
  {
    if quiet == [] {
      assert es + quiet == es;
    } else {
      var n := |quiet| - 1;
      assert (es + quiet)[..|es + quiet| - 1] == es + quiet[..n];
      QuietStaysSettled(es, quiet[..n]);
    }
  }

  /**
  Bounded settling: the first accepted flush at least 100 ms after the latest set leaves
  nothing pending, and nothing becomes pending again before the next set.
  */
  lemma Settles(es: seq<Event>, now: real, quiet: seq<Event>)
    requires Timed(es + [Flush(now, true)] + quiet) && Quiet(quiet)
    requires LatestSet(es).Some? && now >= LatestSet(es).value.now + 0.1
    ensures var t, v := Run(es + [Flush(now, true)] + quiet), LatestSet(es).value.value;
            && t.pending.None? && t.due.None?
            && t.intent.Some? && t.intent.value.value == v
            && (exists j :: t.intent.value.since <= j < |t.evidence| && t.evidence[j].value == v)
            && (GlobalOnly(es + quiet) ==> WireHolds(t, v))
  {
    var flushed := es + [Flush(now, true)];
    assert forall i :: 0 <= i < |flushed| ==> (flushed + quiet)[i] == flushed[i];
    FlushSettles(es, now);
    QuietStaysSettled(flushed, quiet);
    LatestIntentNeverLost(flushed + quiet);
    if GlobalOnly(es + quiet) {
      GlobalOnlyInserts(es, Flush(now, true), quiet);
      GlobalLatestIntent(flushed + quiet);
    }
  }

  lemma FlushSettles(es: seq<Event>, now: real)
    requires Timed(es + [Flush(now, true)])
    requires LatestSet(es).Some? && now >= LatestSet(es).value.now + 0.1
    ensures var t := Run(es + [Flush(now, true)]); t.pending.None? && t.due.None?
    ensures LatestSet(es + [Flush(now, true)]) == LatestSet(es)
  {
    var flushed := es + [Flush(now, true)];
    assert flushed[..|es|] == es;
    assert Timed(es) && Before(es, now) by {
      assert flushed[|es|] == Flush(now, true);
      assert forall i :: 0 <= i < |es| ==> flushed[i] == es[i];
    }
    RunKeepsInv(es, now);
    IntentIsLatestSet(es);
  }

  lemma GlobalOnlyInserts(es: seq<Event>, e: Event, quiet: seq<Event>)
    requires GlobalOnly(es + quiet) && GlobalOnly([e])
    ensures GlobalOnly(es + [e] + quiet)
  {
    var all := es + [e] + quiet;
    forall i | 0 <= i < |all| ensures !all[i].ClientReport? && !all[i].ClientRemove? {
      if i < |es| {
        assert all[i] == (es + quiet)[i];
      } else if i == |es| {
        assert all[i] == [e][0];
      } else {
        assert all[i] == (es + quiet)[i - 1];
      }
    }
  }

  // ---------------------------------------------------------------- send rate

  /** The spacing of sends between two clears, for every run. */
  lemma SendsAreSpaced(es: seq<Event>)
    requires Timed(es)
    ensures Spaced(Run(es).evidence)
  {
    var clock := AfterAll(es);
    RunKeepsInv(es, clock);
  }

  /** The message that the sender takes in a step, if any. */
  function SendOf(t: Track, e: Event): (r: Option<Evidence>)
    ensures r.Some? ==> r.value.Sent? && HasTime(e) && r.value.at == e.now
  {
    match e
    case Set(now, value, accept) =>
      if t.lastSent != Some(value) && MayLead(t, now) && accept then Some(Sent(value, now, Leading)) else None
    case Flush(now, accept) =>
      if Ripe(t, now) && t.lastSent != t.pending && accept then Some(Sent(t.pending.value, now, Trailing)) else None
    case _ => None
  }

  /** Those messages are exactly what a track's evidence gains, snapshots apart. */
  lemma SendsAreRecorded(t: Track, e: Event)
    requires !e.Clear?
    ensures Step(t, e).evidence == t.evidence +
              (if SendOf(t, e).Some? then [SendOf(t, e).value] else if e.ClientReport? then [Reported(e.value)] else [])
  {
    assert t.evidence + [] == t.evidence;
  }

  /** The message sent by event `i` of a run, whether or not a clear has followed. */
  function SendAt(es: seq<Event>, i: nat): (r: Option<Evidence>)
    requires i < |es|
    ensures r.Some? ==> r.value.Sent? && HasTime(es[i]) && r.value.at == es[i].now
  {
    SendOf(Run(es[..i]), es[i])
  }

  lemma SendAtPrefix(es: seq<Event>, n: nat, i: nat)
    requires i < n <= |es|
    ensures SendAt(es[..n], i) == SendAt(es, i) && es[..n][i] == es[i]
  {
    assert es[..n][..i] == es[..i];
  }

  lemma TimedPrefix(es: seq<Event>, n: nat)
    requires Timed(es) && n <= |es|
    ensures Timed(es[..n])
  {
  }

  /** No clear among the events from `a` up to `b`. */
  predicate Unbroken(es: seq<Event>, a: nat, b: nat)
    requires b <= |es|
  {
    forall k :: a <= k < b ==> !es[k].Clear?
  }

  /** A step opens a cooldown exactly when it sends. */
  lemma CooldownMoves(t: Track, e: Event)
    requires !e.Clear?
    ensures Step(t, e).nextAllowed == if SendOf(t, e).Some? then Some(e.now + INTERVAL) else t.nextAllowed
  {
  }

  /** A send keeps the leading edge shut for 100 ms, until the next clear. */
  lemma {:induction false} CoolsAfterSend(es: seq<Event>, i: nat)
    requires Timed(es) && i < |es| && SendAt(es, i).Some? && Unbroken(es, i, |es|)
    ensures Run(es).nextAllowed.Some? && es[i].now + 0.1 <= Run(es).nextAllowed.value
  {
    hide Step, SendOf;
    var n := |es| - 1;
    CooldownMoves(Run(es[..n]), es[n]);
    if i < n {
      SendAtPrefix(es, n, i);
      TimedPrefix(es, n);
      CoolsAfterSend(es[..n], i);
    }
  }

  lemma ClearForgets(t: Track)
    ensures Step(t, Clear) == FRESH
  {
  }

  /** What shuts the leading edge is the latest send. */
  lemma {:induction false} CoolingIsFromSend(es: seq<Event>) returns (i: nat)
    requires Run(es).nextAllowed.Some?
    ensures i < |es| && SendAt(es, i).Some? && Unbroken(es, i, |es|)
    ensures Run(es).nextAllowed == Some(es[i].now + 0.1)
  {
    hide Step, SendOf;
    var n := |es| - 1;
    if es[n].Clear? {
      ClearForgets(Run(es[..n]));
    }
    CooldownMoves(Run(es[..n]), es[n]);
    if SendAt(es, n).Some? {
      i := n;
    } else {
      i := CoolingIsFromSend(es[..n]);
      SendAtPrefix(es, n, i);
    }
  }

  /** Where deadlines come from; a trailing send leaves none. */
  lemma DeadlineMoves(t: Track, e: Event)
    requires !e.Clear?
    ensures var d := Step(t, e).due;
            d.None? || d == t.due || (e.Set? && d == Some(e.now + INTERVAL)) || d == t.nextAllowed
    ensures SendOf(t, e).Some? && SendOf(t, e).value.edge.Trailing? ==> Step(t, e).due.None?
  {
  }

  /** After a trailing send every deadline is at least 100 ms away from it. */
  lemma {:induction false} DueAfterTrailing(es: seq<Event>, i: nat)
    requires Timed(es) && i < |es| && Unbroken(es, i, |es|)
    requires SendAt(es, i).Some? && SendAt(es, i).value.edge.Trailing?
    ensures Run(es).due.Some? ==> es[i].now + INTERVAL <= Run(es).due.value
  {
    hide Step, SendOf;
    var n := |es| - 1;
    DeadlineMoves(Run(es[..n]), es[n]);
    if i < n {
      SendAtPrefix(es, n, i);
      TimedPrefix(es, n);
      DueAfterTrailing(es[..n], i);
      CoolsAfterSend(es[..n], i);
    }
  }

  /** Two sends of a run with no clear between them. */
  lemma PairIsSpaced(es: seq<Event>, i: nat, j: nat)
    requires Timed(es) && i < j < |es| && Unbroken(es, i, j) && SendAt(es, i).Some? && SendAt(es, j).Some?
    ensures es[i].now <= es[j].now
    ensures SendAt(es, j).value.edge.Leading? || SendAt(es, i).value.edge.Trailing? ==> es[i].now + 0.1 <= es[j].now
  {
    SendAtPrefix(es, j, i);
    TimedPrefix(es, j);
    CoolsAfterSend(es[..j], i);
    if SendAt(es, i).value.edge.Trailing? {
      DueAfterTrailing(es[..j], i);
    }
  }

  /** The events from `a` up to `b` that send within the half-open 100 ms from `start`. */
  ghost function SendsIn(es: seq<Event>, a: nat, b: nat, start: real): set<nat>
    requires b <= |es|
  {
    set i: nat | a <= i < b && SendAt(es, i).Some? && start <= es[i].now < start + 0.1
  }

  /** Over the whole run, any half-open 100 ms window holds at most two sends of one key between clears. */
  lemma AtMostTwoPerWindow(es: seq<Event>, a: nat, b: nat, start: real)
    requires Timed(es) && a <= b <= |es| && Unbroken(es, a, b)
    ensures |SendsIn(es, a, b, start)| <= 2
  {
    hide SendAt;
    var w := SendsIn(es, a, b, start);
    if w != {} {
      var first := Least(w);
      var rest := w - {first};
      forall i, j | i in rest && j in rest && i < j
        ensures false
      {
        PairIsSpaced(es, first, i);
        PairIsSpaced(es, first, j);
        PairIsSpaced(es, i, j);
      }
      assert forall i, j :: i in rest && j in rest ==> i == j;
      AtMostOne(rest);
    }
  }

  lemma FirstSetSends(now: real, value: Text)
    ensures SendOf(FRESH, Set(now, value, true)).Some?
  {
  }

  /** A clear forgets the cooldown, so across clears there is no such bound. */
  lemma ClearLiftsTheBound()
    ensures var es := [Set(0.0, [1], true), Clear, Set(0.0, [2], true), Clear, Set(0.0, [3], true)];
            Timed(es) && |SendsIn(es, 0, 5, 0.0)| == 3
  {
    var es := [Set(0.0, [1], true), Clear, Set(0.0, [2], true), Clear, Set(0.0, [3], true)];
    assert es[..0] == [] && es[..2][..1] == es[..1] && es[..4][..3] == es[..3];
    hide Step, SendOf;
    ClearForgets(Run(es[..1]));
    ClearForgets(Run(es[..3]));
    assert Run(es[..0]) == FRESH && Run(es[..2]) == FRESH && Run(es[..4]) == FRESH;
    FirstSetSends(0.0, [1]);
    FirstSetSends(0.0, [2]);
    FirstSetSends(0.0, [3]);
    assert SendAt(es, 0).Some? && SendAt(es, 2).Some? && SendAt(es, 4).Some?;
    assert SendAt(es, 1).None? && SendAt(es, 3).None?;
    hide SendAt;
    assert SendsIn(es, 0, 5, 0.0) == {0, 2, 4};
  }

  lemma {:induction false} Least(w: set<nat>) returns (least: nat)
    requires w != {}
    ensures least in w && forall i :: i in w ==> least <= i
  {
    var one :| one in w;
    least := one;
    if w != {one} {
      var other := Least(w - {one});
      least := if other < one then other else one;
      assert forall i :: i in w ==> i == one || i in w - {one};
    }
  }

  lemma AtMostOne(w: set<nat>)
    requires forall a, b :: a in w && b in w ==> a == b
    ensures |w| <= 1
  {
    if w != {} {
      var a :| a in w;
      assert w == {a};
    }
  }

  /**
  Two sends may still be closer than 100 ms: a refused set leaves an overdue deadline behind,
  which survives the next leading send and lets a trailing one follow at once.
  */
  lemma TrailingMayFollowLeadingAtOnce()
    ensures var es := [Set(0.0, [1], false), Set(0.2, [2], true), Set(0.2, [3], false), Flush(0.2, true)];
            Timed(es) && Run(es).evidence == [Sent([2], 0.2, Leading), Sent([3], 0.2, Trailing)]
  {
    var es := [Set(0.0, [1], false), Set(0.2, [2], true), Set(0.2, [3], false), Flush(0.2, true)];
    var t1 := SetStep(FRESH, 0.0, [1], false);
    var t2 := SetStep(t1, 0.2, [2], true);
    var t3 := SetStep(t2, 0.2, [3], false);
    assert es[..1] == [es[0]] && es[..2][..1] == es[..1] && es[..3][..2] == es[..2];
    assert es[..1][..0] == [];
    assert Run(es[..1]) == t1;
    assert Run(es[..2]) == t2;
    assert Run(es[..3]) == t3;
  }

  /** An accepted trailing send that comes before the cooldown of an earlier send is over. */
  predicate Early(t: Track, e: Event) {
    && e.Flush? && e.accept && Ripe(t, e.now) && t.lastSent != t.pending
    && t.nextAllowed.Some? && e.now < t.nextAllowed.value
  }

  /** Any two sends with no clear between them are at least 100 ms apart. */
  ghost predicate Apart(es: seq<Event>) {
    forall i, j :: 0 <= i < j < |es| && SendAt(es, i).Some? && SendAt(es, j).Some? && Unbroken(es, i, j) ==>
      es[i].now + 0.1 <= es[j].now
  }

  ghost predicate NoneEarly(es: seq<Event>) {
    forall k :: 0 <= k < |es| ==> !Early(Run(es[..k]), es[k])
  }

  /** The sends of a run are all 100 ms apart if and only if no flush came early. */
  lemma ApartIffNoneEarly(es: seq<Event>)
    requires Timed(es)
    ensures Apart(es) <==> NoneEarly(es)
  {
    forall k | 0 <= k < |es| && Early(Run(es[..k]), es[k])
      ensures !Apart(es)
    {
      EarlyBreaks(es, k);
    }
    if NoneEarly(es) {
      forall i, j | 0 <= i < j < |es| && SendAt(es, i).Some? && SendAt(es, j).Some? && Unbroken(es, i, j)
        ensures es[i].now + 0.1 <= es[j].now
      {
        SendAtPrefix(es, j, i);
        TimedPrefix(es, j);
        CoolsAfterSend(es[..j], i);
        assert !Early(Run(es[..j]), es[j]);
      }
    }
  }

  lemma EarlyBreaks(es: seq<Event>, k: nat)
    requires k < |es| && Early(Run(es[..k]), es[k])
    ensures !Apart(es)
  {
    var i := CoolingIsFromSend(es[..k]);
    SendAtPrefix(es, k, i);
    assert SendAt(es, i).Some? && SendAt(es, k).Some?;
    assert Unbroken(es, i, k);
  }

  /** So a set never brings two sends too close, and a flush does exactly when it is early. */
  lemma StepKeepsApart(es: seq<Event>, e: Event)
    requires Timed(es + [e]) && Apart(es)
    ensures Apart(es + [e]) <==> !Early(Run(es), e)
    ensures e.Set? ==> Apart(es + [e])
  {
    hide Apart, Early;
    var all := es + [e];
    TimedPrefix(all, |es|);
    assert all[..|es|] == es;
    ApartIffNoneEarly(es);
    ApartIffNoneEarly(all);
    forall k | 0 <= k < |es|
      ensures !Early(Run(all[..k]), all[k])
    {
      assert all[..k] == es[..k] && all[k] == es[k];
    }
    NoSetIsEarly(Run(es), e);
  }

  lemma NoSetIsEarly(t: Track, e: Event)
    ensures e.Set? ==> !Early(t, e)
  {
  }

  // ---------------------------------------------------------------- client variables

  /** The property that globals have: the latest value is pending or is the last message sent. */
  ghost predicate WireLatest(t: Track) {
    t.intent.None?
    || t.pending == Some(t.intent.value.value)
    || (t.pending.None? && WireHolds(t, t.intent.value.value))
  }

  /**
  The guard under which a step gives up on sending because of a value that only a server
  snapshot carried: the value dedupes, and the last message sent is a different one.
  */
  predicate Shadowed(t: Track, e: Event) {
    match e
    case Set(_, value, _) => t.lastSent == Some(value) && !WireHolds(t, value)
    case Flush(now, _) => Ripe(t, now) && t.lastSent == t.pending && !WireHolds(t, t.pending.value)
    case GlobalSync(_) => t.pending.Some? && t.pending == t.lastSent && !WireHolds(t, t.pending.value)
    case ClientReport(value) => t.pending == Some(value) && !WireHolds(t, value)
    case ClientRemove => t.pending.Some? && t.pending == t.lastSent && !WireHolds(t, t.pending.value)
    case Clear => false
  }

  /** Exactly the shadowed steps break the property that the wire has the latest value. */
  lemma WireLatestIffNotShadowed(t: Track, clock: real, e: Event)
    requires Inv(t, clock) && WireLatest(t)
    ensures WireLatest(Step(t, e)) <==> !Shadowed(t, e)
  {
    hide Step, Shadowed, WireLatest, Cooled, Kept;
    match e
    case Set(_, _, _) => SetIsExact(t, clock, e);
    case Flush(_, _) => FlushIsExact(t, e);
    case ClientReport(_) => ReportIsExact(t, e);
    case _ => ReconcileIsExact(t, e);
  }

  lemma FlushIsExact(t: Track, e: Event)
    requires Kept(t) && WireLatest(t) && e.Flush?
    ensures WireLatest(Step(t, e)) <==> !Shadowed(t, e)
  {
    FlushShadows(t, e.now, e.accept);
  }

  lemma ReportIsExact(t: Track, e: Event)
    requires Kept(t) && WireLatest(t) && e.ClientReport?
    ensures WireLatest(Step(t, e)) <==> !Shadowed(t, e)
  {
    LastSendAppends(t.evidence, Reported(e.value));
  }

  lemma ReconcileIsExact(t: Track, e: Event)
    requires Kept(t) && WireLatest(t) && (e.GlobalSync? || e.ClientRemove? || e.Clear?)
    ensures WireLatest(Step(t, e)) <==> !Shadowed(t, e)
  {
  }

  /** Where the latest set of a run is. */
  function LatestSetIndex(es: seq<Event>): (i: nat)
    requires LatestSet(es).Some?
    ensures i < |es| && es[i] == LatestSet(es).value
  {
    if es[|es| - 1].Set? then |es| - 1 else LatestSetIndex(es[..|es| - 1])
  }

  /** No event from `a` on was shadowed in the state before it. */
  ghost predicate NoneShadowed(es: seq<Event>, a: nat) {
    forall k :: a <= k < |es| ==> !Shadowed(Run(es[..k]), es[k])
  }

  lemma ShadowedGrows(es: seq<Event>, a: nat)
    requires a < |es|
    ensures var n := |es| - 1;
            NoneShadowed(es, a) <==> NoneShadowed(es[..n], a) && !Shadowed(Run(es[..n]), es[n])
  {
    hide Shadowed, Run;
    var n := |es| - 1;
    var front := es[..n];
    forall k | 0 <= k < n
      ensures Run(front[..k]) == Run(es[..k]) && front[k] == es[k]
    {
      assert front[..k] == es[..k];
    }
  }

  lemma NothingShadowed(es: seq<Event>)
    ensures NoneShadowed(es, |es|)
  {
  }

  /** A lost value stays lost until the next set or clear. */
  lemma LostStaysLost(t: Track, clock: real, e: Event)
    requires Inv(t, clock) && !WireLatest(t) && !e.Set? && !e.Clear?
    ensures !WireLatest(Step(t, e))
  {
    if e.ClientReport? {
      LastSendAppends(t.evidence, Reported(e.value));
    }
  }

  /**
  Over whole runs, for global and client variables alike: the latest value is pending or is the
  last message sent if and only if no event from the latest set on was shadowed.
  */
  lemma {:induction false} WireLatestOverRuns(es: seq<Event>)
    requires Timed(es) && LatestSet(es).Some?
    ensures WireLatest(Run(es)) <==> NoneShadowed(es, LatestSetIndex(es))
  {
    hide WireLatest, Shadowed, Inv, Step, NoneShadowed;
    var n := |es| - 1;
    var front, e := es[..n], es[n];
    TimedPrefix(es, n);
    var clock := AfterAll(front);
    RunKeepsInv(front, clock);
    if e.Set? {
      SetIsExact(Run(front), clock, e);
      ShadowedGrows(es, n);
      NothingShadowed(front);
    } else {
      WireLatestOverRuns(front);
      ShadowedGrows(es, LatestSetIndex(front));
      if WireLatest(Run(front)) {
        WireLatestIffNotShadowed(Run(front), clock, e);
      } else {
        LostStaysLost(Run(front), clock, e);
      }
    }
  }

  /** A set is exact from any state that a run can reach. */
  lemma SetIsExact(t: Track, clock: real, e: Event)
    requires Inv(t, clock) && e.Set?
    ensures WireLatest(Step(t, e)) <==> !Shadowed(t, e)
  {
    SetShadows(t, e.now, e.value, e.accept);
  }

  lemma LastSendAppends(evidence: seq<Evidence>, e: Evidence)
    ensures LastSend(evidence + [e]) == if e.Sent? then Some(e) else LastSend(evidence)
  {
    assert (evidence + [e])[..|evidence|] == evidence;
  }

  lemma SetShadows(t: Track, now: real, value: Text, accept: bool)
    requires Kept(t)
    ensures WireLatest(SetStep(t, now, value, accept)) <==> !Shadowed(t, Set(now, value, accept))
  {
  }

  lemma FlushShadows(t: Track, now: real, accept: bool)
    requires Kept(t) && WireLatest(t)
    ensures WireLatest(FlushStep(t, now, accept)) <==> !Shadowed(t, Flush(now, accept))
  {
    if Ripe(t, now) {
      LastSendAppends(t.evidence, Sent(t.pending.value, now, Trailing));
    }
  }

  /** A client snapshot can leave the wire behind the latest accepted value. */
  lemma ClientSnapshotShadowsWire()
    ensures var es := [Set(0.0, [1], true), ClientReport([2]), Set(0.0, [2], true)];
            Timed(es) && LatestSet(es) == Some(es[2]) && Run(es).pending.None? && !WireHolds(Run(es), [2])
  {
    var es := [Set(0.0, [1], true), ClientReport([2]), Set(0.0, [2], true)];
    var t1 := SetStep(FRESH, 0.0, [1], true);
    var t2 := ClientReportStep(t1, [2]);
    assert es[..1] == [es[0]] && es[..2][..1] == es[..1] && es[..1][..0] == [];
    assert Run(es[..1]) == t1;
    assert Run(es[..2]) == t2;
    assert t2.evidence == [Sent([1], 0.0, Leading), Reported([2])];
    assert t2.evidence[..1] == [Sent([1], 0.0, Leading)];
    assert LastSend(t2.evidence) == LastSend(t2.evidence[..1]);
  }
}
