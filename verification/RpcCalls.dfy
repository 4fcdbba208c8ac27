/**
Remote calls as a state machine (src/core/rpc_manager.cpp): the quota in front of the sender, and
the queue that holds calls made before the client is ready.
*/
module RpcCalls {
  // The quota is that of module RateLimiter. Besides the program's own state the machine remembers,
  // since the last clear, every grant, every call that reached the sender and what became of every
  // queued call. `Log` is what reached the sender over a whole run, clears included.

  import opened Bytes
  import RateLimiter

  const MAX_PENDING := 100
  const TTL: real := 5.0
  const MAX_FLUSH_PER_TICK := 10

  datatype Rpc = Rpc(functionName: Text, arguments: seq<Text>, targets: seq<int>)

  datatype Pending = Pending(rpc: Rpc, enqueuedAt: real)

  datatype Fate = Delivered | Expired | Overflowed

  /** A queued call that has left the queue, and when. */
  datatype Departure = Departure(entry: Pending, fate: Fate, at: real)

  /** The checks that try_send_now makes after the quota. */
  predicate Sendable(rpc: Rpc) {
    (forall i :: 0 <= i < |rpc.targets| ==> 0 <= rpc.targets[i] <= 0xFFFF) && |rpc.targets| <= 255
  }

  // ---------------------------------------------------------------- the queue's ledger

  /** Everything ever queued since the last clear, what has left, and what is still waiting. */
  datatype Ledger = Ledger(enqueued: seq<Pending>, left: seq<Departure>, pending: seq<Pending>)

  function Entries(left: seq<Departure>): (r: seq<Pending>)
    ensures |r| == |left| && forall i :: 0 <= i < |left| ==> r[i] == left[i].entry
  {
    seq(|left|, i requires 0 <= i < |left| => left[i].entry)
  }

  predicate FateFits(d: Departure) {
    match d.fate
    case Delivered => d.at - d.entry.enqueuedAt <= 5.0
    case Expired => d.at - d.entry.enqueuedAt > 5.0
    case Overflowed => true
  }

  /**
  Conservation: calls leave in the order in which they were queued, each is either gone with
  one fitting fate or still waiting, and the queue is bounded.
  */
  ghost predicate Balanced(l: Ledger) {
    && l.enqueued == Entries(l.left) + l.pending
    && |l.pending| <= 100
    && forall i :: 0 <= i < |l.left| ==> FateFits(l.left[i])
  }

  function CountFate(left: seq<Departure>, fate: Fate): nat {
    if left == [] then 0
    else CountFate(left[..|left| - 1], fate) + (if left[|left| - 1].fate == fate then 1 else 0)
  }

  /** The head of the queue leaves. */
  function Leave(l: Ledger, fate: Fate, now: real): Ledger
    requires l.pending != []
  {
    Ledger(l.enqueued, l.left + [Departure(l.pending[0], fate, now)], l.pending[1..])
  }

  /** A call is queued; the oldest one makes room when the queue is full. */
  function Enqueue(l: Ledger, entry: Pending, now: real): Ledger {
    var more := Ledger(l.enqueued + [entry], l.left, l.pending + [entry]);
    if |more.pending| > MAX_PENDING then Leave(more, Overflowed, now) else more
  }

  lemma LeaveKeepsBalance(l: Ledger, fate: Fate, now: real)
    requires Balanced(l) && l.pending != [] && FateFits(Departure(l.pending[0], fate, now))
    ensures Balanced(Leave(l, fate, now))
  {
    var left := l.left + [Departure(l.pending[0], fate, now)];
    assert Entries(left) == Entries(l.left) + [l.pending[0]];
    assert Entries(left) + l.pending[1..] == l.enqueued;
  }

  lemma EnqueueKeepsBalance(l: Ledger, entry: Pending, now: real)
    requires Balanced(l)
    ensures Balanced(Enqueue(l, entry, now))
  {
    var pending := l.pending + [entry];
    assert Entries(l.left) + pending == l.enqueued + [entry];
    if |pending| > MAX_PENDING {
      var left := l.left + [Departure(pending[0], Overflowed, now)];
      assert Entries(left) == Entries(l.left) + [pending[0]];
      assert Entries(left) + pending[1..] == l.enqueued + [entry];
    }
  }

  /** Every queued call is in exactly one place, at the position that its turn gives it. */
  lemma ExactlyOnePlace(l: Ledger, i: nat)
    requires Balanced(l) && i < |l.enqueued|
    ensures |l.enqueued| == |l.left| + |l.pending|
    ensures i < |l.left| ==> l.left[i].entry == l.enqueued[i]
    ensures i >= |l.left| ==> l.pending[i - |l.left|] == l.enqueued[i]
  {
  }

  // ---------------------------------------------------------------- sending

  /** The configuration, fixed for a run. */
  datatype Config = Config(limit: int, window: real, hasSender: bool)

  /** A call that was handed to the sender. */
  datatype Call = Call(rpc: Rpc, at: real)

  datatype State = State(queue: Ledger, quota: RateLimiter.State, reached: seq<Call>)

  const START := State(Ledger([], [], []), RateLimiter.START, [])

  /** How many calls reached the sender from `lo` to `hi`. */
  function CountCalls(calls: seq<Call>, lo: real, hi: real): nat {
    if calls == [] then 0
    else CountCalls(calls[..|calls| - 1], lo, hi) + (if lo <= calls[|calls| - 1].at <= hi then 1 else 0)
  }

  /** The call gets past the quota and the checks, and is handed to the sender. */
  predicate Reaches(s: State, now: real, rpc: Rpc, c: Config) {
    RateLimiter.Grants(s.quota, now, c.limit, c.window) && c.hasSender && Sendable(rpc)
  }

  /** try_send_now. */
  function Tried(s: State, now: real, rpc: Rpc, c: Config): State {
    s.(quota := RateLimiter.Consume(s.quota, now, c.limit, c.window),
       reached := if Reaches(s, now, rpc, c) then s.reached + [Call(rpc, now)] else s.reached)
  }

  predicate IsOverdue(p: Pending, now: real) {
    now - p.enqueuedAt > TTL
  }

  /** What the sender says to the n-th attempt of a flush. */
  predicate Answer(answers: seq<bool>, n: nat) {
    n < |answers| && answers[n]
  }

  /** flush_pending with the client ready and `sent` calls already delivered. */
  function Flushed(s: State, now: real, answers: seq<bool>, sent: nat, c: Config): State
    decreases |s.queue.pending|
  {
    if sent >= MAX_FLUSH_PER_TICK || s.queue.pending == [] then s
    else
      var head := s.queue.pending[0];
      if IsOverdue(head, now) then Flushed(s.(queue := Leave(s.queue, Expired, now)), now, answers, sent, c)
      else if Reaches(s, now, head.rpc, c) && Answer(answers, sent) then
        Flushed(Tried(s, now, head.rpc, c).(queue := Leave(s.queue, Delivered, now)), now, answers, sent + 1, c)
      else Tried(s, now, head.rpc, c)
  }

  datatype Event =
    | Send(now: real, ready: bool, rpc: Rpc)
    | Flush(now: real, ready: bool, answers: seq<bool>)
    | Clear(now: real)

  function Next(s: State, e: Event, c: Config): State {
    match e
    case Send(now, ready, rpc) =>
      if ready then Tried(s, now, rpc, c) else s.(queue := Enqueue(s.queue, Pending(rpc, now), now))
    case Flush(now, ready, answers) => if ready then Flushed(s, now, answers, 0, c) else s
    case Clear(_) => START
  }

  function Run(es: seq<Event>, c: Config): State {
    if es == [] then START else Next(Run(es[..|es| - 1], c), es[|es| - 1], c)
  }

  predicate Timed(es: seq<Event>) {
    forall i, j :: 0 <= i < j < |es| ==> es[i].now <= es[j].now
  }

  // ---------------------------------------------------------------- what every run keeps

  /** No interval sees more calls reach the sender than quota was granted. */
  ghost predicate Within(reached: seq<Call>, grants: seq<real>) {
    forall lo, hi :: CountCalls(reached, lo, hi) <= RateLimiter.Count(grants, lo, hi)
  }

  lemma WithinGrows(reached: seq<Call>, grants: seq<real>, rpc: Rpc, now: real)
    requires Within(reached, grants)
    ensures Within(reached, grants + [now]) && Within(reached + [Call(rpc, now)], grants + [now])
  {
    var more := reached + [Call(rpc, now)];
    assert (grants + [now])[..|grants|] == grants && more[..|reached|] == reached;
    forall lo, hi
      ensures CountCalls(reached, lo, hi) <= RateLimiter.Count(grants + [now], lo, hi)
      ensures CountCalls(more, lo, hi) <= RateLimiter.Count(grants + [now], lo, hi)
    {
      assert CountCalls(reached, lo, hi) <= RateLimiter.Count(grants, lo, hi);
    }
  }

  ghost predicate Inv(s: State, clock: real, c: Config) {
    && Balanced(s.queue)
    && RateLimiter.Inv(s.quota, clock, c.limit, c.window)
    && Within(s.reached, s.quota.grants)
  }

  lemma TriedKeepsInv(s: State, clock: real, now: real, rpc: Rpc, c: Config)
    requires Inv(s, clock, c) && clock <= now
    ensures Inv(Tried(s, now, rpc, c), now, c)
  {
    hide Balanced, RateLimiter.Inv, Within;
    RateLimiter.ConsumeKeepsInv(s.quota, clock, now, c.limit, c.window);
    WithinGrows(s.reached, s.quota.grants, rpc, now);
  }

  lemma LeavingKeepsInv(s: State, clock: real, fate: Fate, now: real, c: Config)
    requires Inv(s, clock, c) && s.queue.pending != [] && FateFits(Departure(s.queue.pending[0], fate, now))
    ensures Inv(s.(queue := Leave(s.queue, fate, now)), clock, c)
  {
    hide Balanced, RateLimiter.Inv, Within;
    LeaveKeepsBalance(s.queue, fate, now);
  }

  lemma {:induction false} FlushKeepsInv(s: State, clock: real, now: real, answers: seq<bool>, sent: nat, c: Config)
    requires Inv(s, clock, c) && clock <= now
    ensures Inv(Flushed(s, now, answers, sent, c), now, c)
    decreases |s.queue.pending|
  {
    hide Inv, RateLimiter.Consume, Reaches;
    InvLater(s, clock, now, c);
    if sent < MAX_FLUSH_PER_TICK && s.queue.pending != [] {
      var head := s.queue.pending[0];
      if IsOverdue(head, now) {
        LeavingKeepsInv(s, clock, Expired, now, c);
        FlushKeepsInv(s.(queue := Leave(s.queue, Expired, now)), clock, now, answers, sent, c);
      } else {
        TriedKeepsInv(s, clock, now, head.rpc, c);
        if Reaches(s, now, head.rpc, c) && Answer(answers, sent) {
          var t := Tried(s, now, head.rpc, c);
          LeavingKeepsInv(t, now, Delivered, now, c);
          FlushKeepsInv(t.(queue := Leave(t.queue, Delivered, now)), now, now, answers, sent + 1, c);
        }
      }
    }
  }

  lemma InvLater(s: State, clock: real, later: real, c: Config)
    requires Inv(s, clock, c) && clock <= later
    ensures Inv(s, later, c)
  {
  }

  lemma NextKeepsInv(s: State, clock: real, e: Event, c: Config)
    requires Inv(s, clock, c) && clock <= e.now
    ensures Inv(Next(s, e, c), e.now, c)
  {
    hide RateLimiter.Inv, Within, Balanced;
    match e
    case Send(now, ready, rpc) =>
      if ready {
        TriedKeepsInv(s, clock, now, rpc, c);
      } else {
        EnqueueKeepsBalance(s.queue, Pending(rpc, now), now);
        InvLater(s.(queue := Enqueue(s.queue, Pending(rpc, now), now)), clock, now, c);
      }
    case Flush(now, ready, answers) =>
      if ready {
        FlushKeepsInv(s, clock, now, answers, 0, c);
      } else {
        InvLater(s, clock, now, c);
      }
    case Clear(now) => StartInv(now, c);
  }

  lemma StartInv(clock: real, c: Config)
    ensures Inv(START, clock, c)
  {
    assert Entries([]) + [] == [];
  }

  /** In every run, under any refusals: the queue balances, and the sender is only reached on quota. */
  lemma {:induction false} RunKeepsInv(es: seq<Event>, c: Config)
    requires Timed(es)
    ensures Inv(Run(es, c), if es == [] then 0.0 else es[|es| - 1].now, c)
  {
    if es == [] {
      StartInv(0.0, c);
    } else {
      var n := |es| - 1;
      RunKeepsInv(es[..n], c);
      if n == 0 {
        StartInv(es[0].now, c);
        NextKeepsInv(START, es[0].now, es[0], c);
      } else {
        assert es[..n][n - 1] == es[n - 1];
        NextKeepsInv(Run(es[..n], c), es[n - 1].now, es[n], c);
      }
    }
  }

  /**
  Queued calls in every run: each is gone with one fitting fate or still waiting, in the order of
  queueing, and at most 100 wait.
  */
  lemma QueueIsConserved(es: seq<Event>, c: Config)
    requires Timed(es)
    ensures var q := Run(es, c).queue;
            && q.enqueued == Entries(q.left) + q.pending && |q.pending| <= 100
            && forall i :: 0 <= i < |q.left| ==> FateFits(q.left[i])
  {
    RunKeepsInv(es, c);
  }

  /** Since the last clear any closed interval of the window's length has at most `limit` calls reach the sender. */
  lemma SinceClearAtMostLimit(es: seq<Event>, c: Config, start: real)
    requires Timed(es) && c.limit > 0
    ensures CountCalls(Run(es, c).reached, start, start + c.window) <= c.limit
  {
    RunKeepsInv(es, c);
    RateLimiter.WindowHoldsLimit(Run(es, c).quota.grants, c.limit, c.window, start);
  }

  // ---------------------------------------------------------------- across clears

  /** What reached the sender before the last clear. */
  function LogBefore(es: seq<Event>, c: Config): seq<Call> {
    if es == [] then []
    else
      var front := es[..|es| - 1];
      if es[|es| - 1].Clear? then LogBefore(front, c) + Run(front, c).reached else LogBefore(front, c)
  }

  /** Every call that reached the sender in a run. */
  function Log(es: seq<Event>, c: Config): seq<Call> {
    LogBefore(es, c) + Run(es, c).reached
  }

  lemma NextKeepsReached(s: State, e: Event, c: Config)
    requires !e.Clear?
    ensures s.reached <= Next(s, e, c).reached
  {
    hide RateLimiter.Consume, Reaches;
    if e.Flush? && e.ready {
      FlushIsBounded(s, e.now, e.answers, 0, c);
    }
  }

  /** Nothing is ever taken off the log: an event can only add to it. */
  lemma LogGrows(es: seq<Event>, c: Config)
    requires es != []
    ensures Log(es[..|es| - 1], c) <= Log(es, c)
  {
    hide Next;
    var front, e := es[..|es| - 1], es[|es| - 1];
    if e.Clear? {
      ClearStarts(Run(front, c), e, c);
    } else {
      NextKeepsReached(Run(front, c), e, c);
    }
  }

  lemma ClearStarts(s: State, e: Event, c: Config)
    requires e.Clear?
    ensures Next(s, e, c) == START
  {
  }

  /** All of `calls` lie between `lo` and `hi`. */
  predicate Between(calls: seq<Call>, lo: real, hi: real) {
    forall i :: 0 <= i < |calls| ==> lo <= calls[i].at <= hi
  }

  lemma {:induction false} FlushStamps(s: State, now: real, answers: seq<bool>, sent: nat, c: Config, lo: real)
    requires Between(s.reached, lo, now) && lo <= now
    ensures Between(Flushed(s, now, answers, sent, c).reached, lo, now)
    decreases |s.queue.pending|
  {
    hide RateLimiter.Consume, Reaches;
    if sent < MAX_FLUSH_PER_TICK && s.queue.pending != [] {
      var head := s.queue.pending[0];
      if IsOverdue(head, now) {
        FlushStamps(s.(queue := Leave(s.queue, Expired, now)), now, answers, sent, c, lo);
      } else if Reaches(s, now, head.rpc, c) && Answer(answers, sent) {
        FlushStamps(Tried(s, now, head.rpc, c).(queue := Leave(s.queue, Delivered, now)), now, answers, sent + 1, c, lo);
      }
    }
  }

  lemma NextStamps(s: State, e: Event, c: Config, lo: real, hi: real)
    requires Between(s.reached, lo, hi) && lo <= e.now && hi <= e.now
    ensures Between(Next(s, e, c).reached, lo, e.now)
  {
    hide RateLimiter.Consume, Reaches, Flushed;
    if e.Flush? && e.ready {
      FlushStamps(s, e.now, e.answers, 0, c, lo);
    }
  }

  lemma BetweenLater(a: seq<Call>, lo: real, hi: real, later: real)
    requires Between(a, lo, hi) && hi <= later
    ensures Between(a, lo, later)
  {
  }

  lemma BetweenAppends(a: seq<Call>, b: seq<Call>, lo: real, mid: real, hi: real)
    requires Between(a, lo, mid) && Between(b, mid, hi) && lo <= mid <= hi
    ensures Between(a + b, lo, hi)
  {
  }

  /** The time of the last clear, or of the first event. */
  function LastClear(es: seq<Event>): real
    requires es != []
  {
    if es[|es| - 1].Clear? || |es| == 1 then es[|es| - 1].now else LastClear(es[..|es| - 1])
  }

  /** Calls carry the times of their segment: before the last clear, or from it on. */
  lemma {:induction false} LogIsTimed(es: seq<Event>, c: Config)
    requires Timed(es) && es != []
    ensures es[0].now <= LastClear(es) <= es[|es| - 1].now
    ensures Between(LogBefore(es, c), es[0].now, LastClear(es))
    ensures Between(Run(es, c).reached, LastClear(es), es[|es| - 1].now)
  {
    hide Next;
    var n := |es| - 1;
    var front, e := es[..n], es[n];
    if n == 0 {
      assert front == [];
      NextStamps(START, e, c, e.now, e.now);
    } else {
      LogIsTimed(front, c);
      assert front[n - 1] == es[n - 1] && front[0] == es[0];
      if e.Clear? {
        ClearStarts(Run(front, c), e, c);
        BetweenLater(Run(front, c).reached, LastClear(front), front[n - 1].now, e.now);
        BetweenAppends(LogBefore(front, c), Run(front, c).reached, es[0].now, LastClear(front), e.now);
      } else {
        NextStamps(Run(front, c), e, c, LastClear(front), front[n - 1].now);
      }
    }
  }

  lemma {:induction false} CountOutside(calls: seq<Call>, lo: real, hi: real, start: real, end: real)
    requires Between(calls, lo, hi) && (hi < start || end < lo)
    ensures CountCalls(calls, start, end) == 0
  {
    if calls != [] {
      CountOutside(calls[..|calls| - 1], lo, hi, start, end);
    }
  }

  lemma {:induction false} CountSplits(a: seq<Call>, b: seq<Call>, lo: real, hi: real)
    ensures CountCalls(a + b, lo, hi) == CountCalls(a, lo, hi) + CountCalls(b, lo, hi)
  {
    if b == [] {
      assert a + b == a;
    } else {
      var n := |a + b| - 1;
      assert (a + b)[..n] == a + b[..|b| - 1] && (a + b)[n] == b[|b| - 1];
      CountSplits(a, b[..|b| - 1], lo, hi);
    }
  }

  /** No clear happens in the closed interval. */
  predicate NoClearIn(es: seq<Event>, lo: real, hi: real) {
    forall i :: 0 <= i < |es| && es[i].Clear? ==> !(lo <= es[i].now <= hi)
  }

  /**
  Over a whole run, any closed interval of the window's length in which nothing is cleared has at
  most `limit` calls reach the sender.
  */
  lemma {:induction false} SenderSeesAtMostLimit(es: seq<Event>, c: Config, start: real)
    requires Timed(es) && c.limit > 0 && NoClearIn(es, start, start + c.window)
    ensures CountCalls(Log(es, c), start, start + c.window) <= c.limit
  {
    hide Next, CountCalls, Between;
    var end := start + c.window;
    CountSplits(LogBefore(es, c), Run(es, c).reached, start, end);
    SinceClearAtMostLimit(es, c, start);
    if es == [] {
      NoCalls(start, end);
    } else {
      var n := |es| - 1;
      var front, e := es[..n], es[n];
      LogIsTimed(es, c);
      if e.Clear? {
        ClearStarts(Run(front, c), e, c);
        NoCalls(start, end);
        SenderSeesAtMostLimit(front, c, start);
      } else {
        LastClearIsClear(es, c);
        if LogBefore(es, c) == [] {
          NoCalls(start, end);
        } else if LastClear(es) < start {
          CountOutside(LogBefore(es, c), es[0].now, LastClear(es), start, end);
        } else {
          LogBeforeClear(es, c);
          CountOutside(Run(es, c).reached, LastClear(es), e.now, start, end);
          SenderSeesAtMostLimit(front, c, start);
          CountSplits(LogBefore(front, c), Run(front, c).reached, start, end);
        }
      }
    }
  }

  lemma NoCalls(lo: real, hi: real)
    ensures CountCalls([], lo, hi) == 0
  {
  }

  /** What was logged before a clear was logged by a run that has one. */
  lemma LogBeforeClear(es: seq<Event>, c: Config)
    requires es != [] && !es[|es| - 1].Clear?
    ensures LogBefore(es, c) == LogBefore(es[..|es| - 1], c)
  {
  }

  lemma {:induction false} LastClearIsClear(es: seq<Event>, c: Config)
    requires es != []
    ensures LogBefore(es, c) != [] ==> exists i :: 0 <= i < |es| && es[i].Clear? && es[i].now == LastClear(es)
  {
    var n := |es| - 1;
    if !es[n].Clear? && LogBefore(es, c) != [] {
      assert es[..n] != [] by { assert LogBefore([], c) == []; }
      LastClearIsClear(es[..n], c);
      var i :| 0 <= i < n && es[..n][i].Clear? && es[..n][i].now == LastClear(es[..n]);
      assert es[i].Clear? && es[i].now == LastClear(es);
    }
  }

  /** A clear forgets the quota, so an interval with a clear inside can hold more. */
  lemma ClearLiftsTheLimit(rpc: Rpc)
    requires Sendable(rpc)
    ensures var es := [Send(0.0, true, rpc), Clear(0.1), Send(0.2, true, rpc)];
            Timed(es) && CountCalls(Log(es, Config(1, 1.0, true)), 0.0, 1.0) == 2
  {
    var c := Config(1, 1.0, true);
    var es := [Send(0.0, true, rpc), Clear(0.1), Send(0.2, true, rpc)];
    var one, two := es[..1], es[..2];
    assert one[..0] == [] && two[..1] == one && one[0] == es[0] && two[1] == es[1];
    FirstCallReaches(0.0, rpc, c);
    FirstCallReaches(0.2, rpc, c);
    hide Tried, Sendable;
    assert Run(one, c) == Tried(START, 0.0, rpc, c);
    assert Run(two, c) == START && Run(es, c) == Tried(START, 0.2, rpc, c);
    assert LogBefore(one, c) == [] && LogBefore(two, c) == LogBefore(one, c) + Run(one, c).reached;
    assert LogBefore(es, c) == LogBefore(two, c);
    TwoCalls(rpc);
  }

  lemma FirstCallReaches(now: real, rpc: Rpc, c: Config)
    requires Sendable(rpc) && c == Config(1, 1.0, true)
    ensures Tried(START, now, rpc, c).reached == [Call(rpc, now)]
  {
  }

  lemma TwoCalls(rpc: Rpc)
    ensures CountCalls([] + [Call(rpc, 0.0)] + [Call(rpc, 0.2)], 0.0, 1.0) == 2
  {
    var one, two := Call(rpc, 0.0), Call(rpc, 0.2);
    assert [] + [one] + [two] == [one] + [two];
    CountSplits([one], [two], 0.0, 1.0);
    assert [one][..0] == [] && [two][..0] == [];
    assert CountCalls([one], 0.0, 1.0) == 1 && CountCalls([two], 0.0, 1.0) == 1;
  }

  // ---------------------------------------------------------------- one flush

  function Deliveries(left: seq<Departure>): nat {
    CountFate(left, Delivered)
  }

  lemma CountOneMore(left: seq<Departure>, d: Departure, fate: Fate)
    ensures CountFate(left + [d], fate) == CountFate(left, fate) + (if d.fate == fate then 1 else 0)
  {
    assert (left + [d])[..|left|] == left;
  }

  /**
  A flush only takes calls off the front; at most ten go out, and each of them reached the sender
  in its turn; nothing overflows.
  */
  lemma {:induction false} FlushIsBounded(s: State, now: real, answers: seq<bool>, sent: nat, c: Config)
    requires sent <= MAX_FLUSH_PER_TICK
    ensures var r := Flushed(s, now, answers, sent, c);
            && s.queue.left <= r.queue.left && r.queue.enqueued == s.queue.enqueued && s.reached <= r.reached
            && 0 <= Deliveries(r.queue.left) - Deliveries(s.queue.left) <= 10 - sent
            && |r.reached| - |s.reached| >= Deliveries(r.queue.left) - Deliveries(s.queue.left)
            && CountFate(r.queue.left, Overflowed) == CountFate(s.queue.left, Overflowed)
    decreases |s.queue.pending|
  {
    hide RateLimiter.Consume, Reaches, CountFate;
    if sent < MAX_FLUSH_PER_TICK && s.queue.pending != [] {
      var head := s.queue.pending[0];
      var fate := if IsOverdue(head, now) then Expired else Delivered;
      CountOneMore(s.queue.left, Departure(head, fate, now), Delivered);
      CountOneMore(s.queue.left, Departure(head, fate, now), Overflowed);
      if IsOverdue(head, now) {
        FlushIsBounded(s.(queue := Leave(s.queue, Expired, now)), now, answers, sent, c);
      } else if Reaches(s, now, head.rpc, c) && Answer(answers, sent) {
        FlushIsBounded(Tried(s, now, head.rpc, c).(queue := Leave(s.queue, Delivered, now)), now, answers, sent + 1, c);
      }
    }
  }

  /** The head of the queue was tried in state `t`, and was turned down by quota, checks or sender. */
  ghost predicate TurnedDown(t: State, r: State, now: real, answer: bool, c: Config) {
    && t.queue == r.queue && r.queue.pending != [] && !IsOverdue(r.queue.pending[0], now)
    && r == Tried(t, now, r.queue.pending[0].rpc, c) && !(Reaches(t, now, r.queue.pending[0].rpc, c) && answer)
  }

  ghost predicate StoppedAt(r: State, now: real, answers: seq<bool>, n: nat, c: Config) {
    exists t :: TurnedDown(t, r, now, Answer(answers, n), c)
  }

  /** A flush ends with an empty queue, with ten deliveries, or at a call that was turned down. */
  lemma {:induction false} FlushStopsForCause(s: State, now: real, answers: seq<bool>, sent: nat, c: Config)
    requires sent <= MAX_FLUSH_PER_TICK
    ensures var r := Flushed(s, now, answers, sent, c);
            var n := sent + Deliveries(r.queue.left) - Deliveries(s.queue.left);
            || r.queue.pending == []
            || n == 10
            || (n >= 0 && StoppedAt(r, now, answers, n, c))
    decreases |s.queue.pending|
  {
    hide RateLimiter.Consume, CountFate, Reaches, TurnedDown;
    if sent < MAX_FLUSH_PER_TICK && s.queue.pending != [] {
      var head := s.queue.pending[0];
      var fate := if IsOverdue(head, now) then Expired else Delivered;
      CountOneMore(s.queue.left, Departure(head, fate, now), Delivered);
      if IsOverdue(head, now) {
        FlushStopsForCause(s.(queue := Leave(s.queue, Expired, now)), now, answers, sent, c);
      } else if Reaches(s, now, head.rpc, c) && Answer(answers, sent) {
        FlushStopsForCause(Tried(s, now, head.rpc, c).(queue := Leave(s.queue, Delivered, now)), now, answers, sent + 1, c);
      } else {
        TryingIsTurnedDown(s, now, Answer(answers, sent), c);
      }
    }
  }

  /** A flush delivers only what the sender takes: the n-th call goes out on the n-th yes. */
  lemma {:induction false} FlushNeedsAnswers(s: State, now: real, answers: seq<bool>, sent: nat, c: Config)
    requires sent <= 10
    ensures var r := Flushed(s, now, answers, sent, c);
            forall k :: sent <= k < sent + Deliveries(r.queue.left) - Deliveries(s.queue.left) ==> k < |answers| && answers[k]
    decreases |s.queue.pending|
  {
    hide RateLimiter.Consume, CountFate, Reaches;
    if sent < MAX_FLUSH_PER_TICK && s.queue.pending != [] {
      var head := s.queue.pending[0];
      var fate := if IsOverdue(head, now) then Expired else Delivered;
      CountOneMore(s.queue.left, Departure(head, fate, now), Delivered);
      if IsOverdue(head, now) {
        FlushNeedsAnswers(s.(queue := Leave(s.queue, Expired, now)), now, answers, sent, c);
      } else if Reaches(s, now, head.rpc, c) && Answer(answers, sent) {
        var t := Tried(s, now, head.rpc, c).(queue := Leave(s.queue, Delivered, now));
        FlushNeedsAnswers(t, now, answers, sent + 1, c);
        assert Deliveries(t.queue.left) == Deliveries(s.queue.left) + 1;
        assert sent < |answers| && answers[sent];
        assert Flushed(s, now, answers, sent, c) == Flushed(t, now, answers, sent + 1, c);
      }
    }
  }

  lemma TryingIsTurnedDown(s: State, now: real, answer: bool, c: Config)
    requires s.queue.pending != [] && !IsOverdue(s.queue.pending[0], now)
    requires !(Reaches(s, now, s.queue.pending[0].rpc, c) && answer)
    ensures TurnedDown(s, Tried(s, now, s.queue.pending[0].rpc, c), now, answer, c)
  {
  }

  // ---------------------------------------------------------------- a call that cannot be sent

  /** The head of the queue can never pass the checks. */
  predicate Stuck(s: State, c: Config) {
    s.queue.pending != [] && !(c.hasSender && Sendable(s.queue.pending[0].rpc))
  }

  /**
  A ready flush that meets such a head before it is overdue delivers nothing and moves nothing,
  and yet uses up a grant whenever there is one.
  */
  lemma StuckHeadBlocks(s: State, now: real, answers: seq<bool>, c: Config)
    requires Stuck(s, c) && !IsOverdue(s.queue.pending[0], now)
    ensures var r := Next(s, Flush(now, true, answers), c);
            && r.queue == s.queue && r.reached == s.reached
            && r.quota.grants == if RateLimiter.Grants(s.quota, now, c.limit, c.window) then s.quota.grants + [now] else s.quota.grants
  {
  }

  /** Flushes and ready calls, none later than 5 s after the head was queued. */
  predicate WithinLife(es: seq<Event>, head: Pending) {
    forall i :: 0 <= i < |es| ==> (es[i].Flush? || (es[i].Send? && es[i].ready)) && !IsOverdue(head, es[i].now)
  }

  /** The state after more events. */
  function RunFrom(s: State, es: seq<Event>, c: Config): State {
    if es == [] then s else Next(RunFrom(s, es[..|es| - 1], c), es[|es| - 1], c)
  }

  /** So the whole queue waits behind it for as long as it lives, however often it is flushed. */
  lemma {:induction false} StuckHeadBlocksForLife(s: State, es: seq<Event>, c: Config)
    requires Stuck(s, c) && WithinLife(es, s.queue.pending[0])
    ensures RunFrom(s, es, c).queue == s.queue
  {
    hide RateLimiter.Consume, Reaches;
    if es != [] {
      var n := |es| - 1;
      StuckHeadBlocksForLife(s, es[..n], c);
      var t := RunFrom(s, es[..n], c);
      if es[n].Flush? && es[n].ready {
        StuckHeadBlocks(t, es[n].now, es[n].answers, c);
      }
    }
  }

  /** Once it is overdue the next ready flush drops it. */
  lemma StuckHeadExpires(s: State, now: real, answers: seq<bool>, c: Config)
    requires s.queue.pending != [] && IsOverdue(s.queue.pending[0], now)
    ensures var r := Next(s, Flush(now, true, answers), c);
            s.queue.left + [Departure(s.queue.pending[0], Expired, now)] <= r.queue.left
  {
    FlushIsBounded(s.(queue := Leave(s.queue, Expired, now)), now, answers, 0, c);
  }

  // ---------------------------------------------------------------- the record is what was called

  /** The calls made before the client was ready, since the last clear, read off the events alone. */
  function QueuedCalls(es: seq<Event>): seq<Pending> {
    if es == [] then []
    else
      var front := QueuedCalls(es[..|es| - 1]);
      match es[|es| - 1]
      case Send(now, ready, rpc) => if ready then front else front + [Pending(rpc, now)]
      case Flush(_, _, _) => front
      case Clear(_) => []
  }

  lemma NextQueues(s: State, e: Event, c: Config)
    ensures Next(s, e, c).queue.enqueued ==
              match e
              case Send(now, ready, rpc) => if ready then s.queue.enqueued else s.queue.enqueued + [Pending(rpc, now)]
              case Flush(_, _, _) => s.queue.enqueued
              case Clear(_) => []
  {
    hide RateLimiter.Consume, Reaches, Flushed;
    if e.Flush? && e.ready {
      FlushIsBounded(s, e.now, e.answers, 0, c);
    }
  }

  /** What the queue has ever taken in is exactly those calls: function, arguments, targets and time. */
  lemma {:induction false} QueueTakesWhatWasCalled(es: seq<Event>, c: Config)
    ensures Run(es, c).queue.enqueued == QueuedCalls(es)
  {
    hide Next;
    if es != [] {
      QueueTakesWhatWasCalled(es[..|es| - 1], c);
      NextQueues(Run(es[..|es| - 1], c), es[|es| - 1], c);
    }
  }

  /** So every queued call of a run is, unchanged, gone with a fitting fate or waiting, in calling order. */
  lemma CallsAreConserved(es: seq<Event>, c: Config, i: nat)
    requires Timed(es) && i < |QueuedCalls(es)|
    ensures var q := Run(es, c).queue;
            && |QueuedCalls(es)| == |q.left| + |q.pending| && |q.pending| <= 100
            && (i < |q.left| ==> q.left[i].entry == QueuedCalls(es)[i] && FateFits(q.left[i]))
            && (i >= |q.left| ==> q.pending[i - |q.left|] == QueuedCalls(es)[i])
  {
    QueueTakesWhatWasCalled(es, c);
    RunKeepsInv(es, c);
    ExactlyOnePlace(Run(es, c).queue, i);
  }

  /** The calls that were delivered among some departures, as the sender saw them. */
  function DeliveredCalls(left: seq<Departure>): seq<Call> {
    if left == [] then []
    else
      var d := left[|left| - 1];
      DeliveredCalls(left[..|left| - 1]) + (if d.fate.Delivered? then [Call(d.entry.rpc, d.at)] else [])
  }

  lemma {:induction false} DeliveredAppends(a: seq<Departure>, b: seq<Departure>)
    ensures DeliveredCalls(a + b) == DeliveredCalls(a) + DeliveredCalls(b)
  {
    if b == [] {
      assert a + b == a;
    } else {
      var n := |b| - 1;
      assert (a + b)[..|a| + n] == a + b[..n] && (a + b)[|a| + n] == b[n];
      DeliveredAppends(a, b[..n]);
    }
  }

  /** What a flush hands to the sender: the calls it delivers, in order, and then at most the head that is refused. */
  ghost predicate FlushHandsOver(s: State, r: State, now: real) {
    && s.queue.left <= r.queue.left && s.reached <= r.reached
    && var delivered := DeliveredCalls(r.queue.left[|s.queue.left|..]);
       var handed := r.reached[|s.reached|..];
       || handed == delivered
       || (r.queue.pending != [] && handed == delivered + [Call(r.queue.pending[0].rpc, now)])
  }

  lemma HandOverSteps(s: State, t: State, r: State, now: real, calls: seq<Call>, d: Departure)
    requires FlushHandsOver(t, r, now) && t.queue.left == s.queue.left + [d] && t.reached == s.reached + calls
    requires calls == if d.fate.Delivered? then [Call(d.entry.rpc, d.at)] else []
    ensures FlushHandsOver(s, r, now)
  {
    hide DeliveredCalls;
    var more, later := r.queue.left[|t.queue.left|..], r.reached[|t.reached|..];
    SuffixSplits(s.queue.left, [d], r.queue.left);
    SuffixSplits(s.reached, calls, r.reached);
    DeliveredAppends([d], more);
    DeliveredOne(d);
    var delivered := DeliveredCalls(more);
    assert DeliveredCalls(r.queue.left[|s.queue.left|..]) == calls + delivered;
    if later != delivered {
      assert calls + (delivered + [Call(r.queue.pending[0].rpc, now)]) == (calls + delivered) + [Call(r.queue.pending[0].rpc, now)];
    }
  }

  lemma SuffixSplits<T>(a: seq<T>, x: seq<T>, r: seq<T>)
    requires a + x <= r
    ensures a <= r && r[|a|..] == x + r[|a + x|..]
  {
  }

  lemma DeliveredOne(d: Departure)
    ensures DeliveredCalls([d]) == if d.fate.Delivered? then [Call(d.entry.rpc, d.at)] else []
  {
    assert [d][..0] == [];
  }

  lemma {:induction false} FlushHandsOverHeads(s: State, now: real, answers: seq<bool>, sent: nat, c: Config)
    ensures FlushHandsOver(s, Flushed(s, now, answers, sent, c), now)
    decreases |s.queue.pending|
  {
    hide RateLimiter.Consume, Reaches, FlushHandsOver;
    if sent >= MAX_FLUSH_PER_TICK || s.queue.pending == [] {
      NothingHandedOver(s, now);
    } else {
      var head := s.queue.pending[0];
      if IsOverdue(head, now) {
        var t := s.(queue := Leave(s.queue, Expired, now));
        FlushHandsOverHeads(t, now, answers, sent, c);
        assert t.reached == s.reached + [];
        HandOverSteps(s, t, Flushed(t, now, answers, sent, c), now, [], Departure(head, Expired, now));
      } else if Reaches(s, now, head.rpc, c) && Answer(answers, sent) {
        var t := Tried(s, now, head.rpc, c).(queue := Leave(s.queue, Delivered, now));
        FlushHandsOverHeads(t, now, answers, sent + 1, c);
        HandOverSteps(s, t, Flushed(t, now, answers, sent + 1, c), now, [Call(head.rpc, now)], Departure(head, Delivered, now));
      } else {
        RefusedHandsOver(s, now, c);
      }
    }
  }

  lemma NothingHandedOver(s: State, now: real)
    ensures FlushHandsOver(s, s, now)
  {
  }

  lemma RefusedHandsOver(s: State, now: real, c: Config)
    requires s.queue.pending != []
    ensures FlushHandsOver(s, Tried(s, now, s.queue.pending[0].rpc, c), now)
  {
    hide RateLimiter.Consume, Reaches;
    var r := Tried(s, now, s.queue.pending[0].rpc, c);
    assert r.queue.left[|s.queue.left|..] == [] && DeliveredCalls([]) == [];
    assert r.reached[|s.reached|..] == [] || r.reached[|s.reached|..] == [Call(s.queue.pending[0].rpc, now)];
  }

  /**
  What one event hands to the sender: a ready call itself, if the full history of grants has room
  and its checks pass; a ready flush the calls it delivers and at most its refused head; nothing else.
  */
  lemma EventHandsOver(es: seq<Event>, e: Event, c: Config)
    requires Timed(es + [e])
    ensures var s, r := Run(es, c), Run(es + [e], c);
            match e
            case Send(now, ready, rpc) =>
              var granted := c.limit <= 0 || RateLimiter.Count(s.quota.grants, now - c.window, now) < c.limit;
              r.reached == s.reached + if ready && granted && c.hasSender && Sendable(rpc) then [Call(rpc, now)] else []
            case Flush(now, ready, answers) => if ready then FlushHandsOver(s, r, now) else r == s
            case Clear(_) => r == START
  {
    hide RateLimiter.Consume, Flushed, RateLimiter.Inv, FlushHandsOver;
    var s := Run(es, c);
    assert (es + [e])[..|es|] == es;
    assert s.reached + [] == s.reached;
    if e.Send? && e.ready && c.limit > 0 {
      var all := es + [e];
      assert forall i :: 0 <= i < |es| ==> all[i] == es[i];
      RunKeepsInv(es, c);
      if es == [] {
        StartInv(e.now, c);
        GrantRule(s, e.now, e.now, c);
      } else {
        assert all[|es| - 1].now <= all[|es|].now;
        GrantRule(s, es[|es| - 1].now, e.now, c);
      }
    } else if e.Flush? && e.ready {
      FlushHandsOverHeads(s, e.now, e.answers, 0, c);
    }
  }

  lemma GrantRule(s: State, clock: real, now: real, c: Config)
    requires Inv(s, clock, c) && clock <= now && c.limit > 0
    ensures RateLimiter.Grants(s.quota, now, c.limit, c.window) <==> RateLimiter.Count(s.quota.grants, now - c.window, now) < c.limit
  {
    RateLimiter.GrantsAgreeWithCount(s.quota, clock, now, c.limit, c.window);
  }

  /** A call pushes another one out only when a hundred are waiting, and then the oldest. */
  lemma OnlyFullQueuesOverflow(s: State, now: real, rpc: Rpc, c: Config)
    requires Balanced(s.queue)
    ensures var q := Next(s, Send(now, false, rpc), c).queue;
            if |s.queue.pending| < 100 then
              q.left == s.queue.left && q.pending == s.queue.pending + [Pending(rpc, now)]
            else
              && q.left == s.queue.left + [Departure(s.queue.pending[0], Overflowed, now)]
              && q.pending == s.queue.pending[1..] + [Pending(rpc, now)]
  {
  }
}
