/**
What is sent and what is not (src/core/network_variable_manager.cpp:104-134, 277-291, 336-363,
396-406), by the events alone.
*/
module Dedupe {
  // The program compares each value with the last sent one; here that comparison is described by
  // the events of a run: which messages went out, and which snapshots came in.

  import opened Bytes
  import opened Debounce

  /** Event `i` tells that the server has `v`: it sent `v`, or a client snapshot listed it. */
  predicate Tells(es: seq<Event>, i: nat, v: Text)
    requires i < |es|
  {
    (SendAt(es, i).Some? && SendAt(es, i).value.value == v) || es[i] == ClientReport(v)
  }

  /** Event `i` does not contradict that the server has `v`. */
  predicate Allows(es: seq<Event>, i: nat, v: Text)
    requires i < |es|
  {
    && (SendAt(es, i).Some? ==> SendAt(es, i).value.value == v)
    && match es[i]
       case GlobalSync(w) => w == v
       case ClientReport(w) => w == v
       case ClientRemove => false
       case Clear => false
       case _ => true
  }

  /** As far as the run shows, the server has `v`. */
  ghost predicate OnServer(es: seq<Event>, v: Text) {
    exists i :: 0 <= i < |es| && Tells(es, i, v) && forall j :: i < j < |es| ==> Allows(es, j, v)
  }

  lemma TellsPrefix(es: seq<Event>, n: nat, i: nat, v: Text)
    requires i < n <= |es|
    ensures Tells(es[..n], i, v) == Tells(es, i, v) && Allows(es[..n], i, v) == Allows(es, i, v)
  {
    hide SendAt;
    SendAtPrefix(es, n, i);
  }

  /** One more event. */
  lemma OnServerMoves(es: seq<Event>, v: Text)
    requires es != []
    ensures var n := |es| - 1;
            OnServer(es, v) <==> Tells(es, n, v) || (OnServer(es[..n], v) && Allows(es, n, v))
  {
    hide Tells, Allows;
    var n := |es| - 1;
    if OnServer(es, v) {
      var i :| 0 <= i < |es| && Tells(es, i, v) && forall j :: i < j < |es| ==> Allows(es, j, v);
      if i < n {
        TellsPrefix(es, n, i, v);
        forall j | i < j < n
          ensures Allows(es[..n], j, v)
        {
          TellsPrefix(es, n, j, v);
        }
      }
    }
    if OnServer(es[..n], v) && Allows(es, n, v) {
      var i :| 0 <= i < n && Tells(es[..n], i, v) && forall j :: i < j < n ==> Allows(es[..n], j, v);
      TellsPrefix(es, n, i, v);
      forall j | i < j < |es|
        ensures Allows(es, j, v)
      {
        if j < n {
          TellsPrefix(es, n, j, v);
        }
      }
    }
  }

  /** How one event moves the last sent value. */
  lemma LastSentMoves(t: Track, e: Event)
    ensures var s := SendOf(t, e);
            Step(t, e).lastSent ==
              if s.Some? then Some(s.value.value)
              else match e
                   case GlobalSync(w) => if t.lastSent == Some(w) then Some(w) else None
                   case ClientReport(w) => Some(w)
                   case ClientRemove => None
                   case Clear => None
                   case _ => t.lastSent
  {
  }

  /** The value that later ones are compared with is exactly the one that the server has. */
  lemma {:induction false} LastSentIsOnServer(es: seq<Event>, v: Text)
    ensures Run(es).lastSent == Some(v) <==> OnServer(es, v)
  {
    hide Step, SendOf, OnServer;
    if es == [] {
      NothingOnServer(v);
    } else {
      var n := |es| - 1;
      LastSentIsOnServer(es[..n], v);
      OnServerMoves(es, v);
      LastSentMoves(Run(es[..n]), es[n]);
    }
  }

  lemma NothingOnServer(v: Text)
    ensures !OnServer([], v) && Run([]).lastSent.None?
  {
  }

  // ---------------------------------------------------------------- what a set does

  /** A set of a value that the server does not have leaves it pending, whatever the sender says. */
  lemma NewValueIsPending(es: seq<Event>, now: real, v: Text, accept: bool)
    requires !OnServer(es, v)
    ensures Run(es + [Set(now, v, accept)]).pending == Some(v)
  {
    LastSentIsOnServer(es, v);
    assert (es + [Set(now, v, accept)])[..|es|] == es;
  }

  /**
  A global variable: the latest snapshot entry since the last message carried `w`, so setting
  anything else is not swallowed, even if it is what this client had sent before.
  */
  lemma SetAfterNewsIsKept(es: seq<Event>, i: nat, w: Text, now: real, v: Text, accept: bool)
    requires GlobalOnly(es) && i < |es| && es[i] == GlobalSync(w) && v != w
    requires forall j :: i < j < |es| ==> SendAt(es, j).None? && !es[j].GlobalSync?
    ensures Run(es + [Set(now, v, accept)]).pending == Some(v)
  {
    forall k | 0 <= k < |es| && Tells(es, k, v)
      ensures k < i && !Allows(es, i, v)
    {
      assert !es[k].ClientReport?;
    }
    NewValueIsPending(es, now, v, accept);
  }

  /** A client variable that the snapshot no longer lists can be set to any value again. */
  lemma SetAfterRemovalIsKept(es: seq<Event>, i: nat, now: real, v: Text, accept: bool)
    requires i < |es| && es[i].ClientRemove?
    requires forall j :: i < j < |es| ==> SendAt(es, j).None? && !es[j].ClientReport?
    ensures Run(es + [Set(now, v, accept)]).pending == Some(v)
  {
    forall k | 0 <= k < |es| && Tells(es, k, v)
      ensures k < i && !Allows(es, i, v)
    {
    }
    NewValueIsPending(es, now, v, accept);
  }

  /** Nothing is ever sent that the server has already. */
  lemma SendsAreNews(es: seq<Event>, j: nat)
    requires j < |es| && SendAt(es, j).Some?
    ensures !OnServer(es[..j], SendAt(es, j).value.value)
  {
    LastSentIsOnServer(es[..j], SendAt(es, j).value.value);
  }

  /** Every earlier send with no clear since is at least 100 ms ago. */
  ghost predicate Cool(es: seq<Event>, now: real) {
    forall i :: 0 <= i < |es| && SendAt(es, i).Some? && Unbroken(es, i, |es|) ==> es[i].now + 0.1 <= now
  }

  lemma CoolMayLead(es: seq<Event>, now: real)
    requires Timed(es)
    ensures MayLead(Run(es), now) <==> Cool(es, now)
  {
    hide SendAt;
    if Run(es).nextAllowed.Some? {
      var i := CoolingIsFromSend(es);
      assert Cool(es, now) ==> es[i].now + 0.1 <= now;
    }
    forall i | MayLead(Run(es), now) && 0 <= i < |es| && SendAt(es, i).Some? && Unbroken(es, i, |es|)
      ensures es[i].now + 0.1 <= now
    {
      CoolsAfterSend(es, i);
    }
  }

  /** A set sends at once exactly if the sender accepts, the value is news and the last send is 100 ms ago. */
  lemma SetSendsIff(es: seq<Event>, now: real, v: Text, accept: bool)
    requires Timed(es)
    ensures SendOf(Run(es), Set(now, v, accept)).Some? <==> accept && !OnServer(es, v) && Cool(es, now)
    ensures SendOf(Run(es), Set(now, v, accept)).Some? ==> SendOf(Run(es), Set(now, v, accept)).value == Sent(v, now, Leading)
  {
    hide OnServer, Cool;
    LastSentIsOnServer(es, v);
    CoolMayLead(es, now);
  }

  // ---------------------------------------------------------------- no echo

  /**
  After a message and before the next set, a global snapshot entry or a removal drops the trailing
  copy of the message, so no flush sends it over somebody else's change. (A client snapshot that
  lists another value in between does not drop it.)
  */
  lemma {:induction false} NoEcho(es: seq<Event>, i: nat, k: nat)
    requires i < k < |es| && SendAt(es, i).Some? && (es[k].GlobalSync? || es[k].ClientRemove?)
    requires forall j :: i < j < |es| ==> !es[j].Set?
    requires forall j :: i < j < k ==> !es[j].ClientReport?
    ensures Run(es).pending.None?
  {
    hide Step, SendOf;
    var n := |es| - 1;
    SendAtPrefix(es, n, i);
    if k < n {
      SendAtPrefix(es, n, k);
      NoEcho(es[..n], i, k);
      NothingPendingStays(Run(es[..n]), es[n]);
    } else {
      PendingCopyIsSent(es[..n], i);
      NewsDrops(Run(es[..n]), es[n]);
    }
  }

  lemma NothingPendingStays(t: Track, e: Event)
    requires t.pending.None? && !e.Set?
    ensures Step(t, e).pending.None?
  {
  }

  lemma NewsDrops(t: Track, e: Event)
    requires (e.GlobalSync? || e.ClientRemove?) && (t.pending.None? || t.pending == t.lastSent)
    ensures Step(t, e).pending.None?
  {
  }

  /** What is pending after a message and before the next set is a copy of it. */
  lemma {:induction false} PendingCopyIsSent(es: seq<Event>, i: nat)
    requires i < |es| && SendAt(es, i).Some?
    requires forall j :: i < j < |es| ==> !es[j].Set? && !es[j].ClientReport?
    ensures Run(es).pending.None? || Run(es).pending == Run(es).lastSent
  {
    hide Step, SendOf;
    var n := |es| - 1;
    if i < n {
      SendAtPrefix(es, n, i);
      PendingCopyIsSent(es[..n], i);
      CopyStays(Run(es[..n]), es[n]);
    } else {
      SendLeavesCopy(Run(es[..n]), es[n]);
    }
  }

  lemma CopyStays(t: Track, e: Event)
    requires (t.pending.None? || t.pending == t.lastSent) && !e.Set? && !e.ClientReport?
    ensures Step(t, e).pending.None? || Step(t, e).pending == Step(t, e).lastSent
  {
  }

  lemma SendLeavesCopy(t: Track, e: Event)
    requires SendOf(t, e).Some?
    ensures Step(t, e).pending.None? || Step(t, e).pending == Step(t, e).lastSent
  {
  }
}
