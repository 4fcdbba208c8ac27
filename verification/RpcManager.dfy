/**
RpcManager (src/core/rpc_manager.cpp), proved against module RpcCalls. The manager is configured
once, when it is made; whether the sender accepts a message is a parameter of each call. Its
ghost field is the state of that machine, and its invariant says that the manager's own fields
are that state's queue and grants.
*/
module RpcManager {
  import opened Bytes
  import opened RpcCalls
  import RateLimiter

  class RpcManager {
    const rpcLimit: int
    const window: real
    const hasSender: bool
    var rateHits: seq<real>
    var pending: seq<Pending>
    var droppedExpired: nat
    var droppedOverflow: nat

    /** What the machine remembers; its deque and its queue are the fields above. */
    ghost var calls: State
    ghost var clock: real
    /** The drop counters at the last clear. */
    ghost var expiredBefore: nat
    ghost var overflowBefore: nat

    ghost function Setup(): Config {
      Config(rpcLimit, window, hasSender)
    }

    ghost predicate Valid()
      reads this
    {
      && Inv(calls, clock, Setup())
      && calls.quota.hits == rateHits && calls.queue.pending == pending
      && droppedExpired == expiredBefore + CountFate(calls.queue.left, Expired)
      && droppedOverflow == overflowBefore + CountFate(calls.queue.left, Overflowed)
    }

    constructor (limit: int, windowSeconds: real, hasSender: bool)
      ensures Valid() && calls == START && clock == 0.0
      ensures Setup() == Config(if limit < 0 then 0 else limit, if windowSeconds < 0.01 then 0.01 else windowSeconds, hasSender)
    {
      rpcLimit := if limit < 0 then 0 else limit;
      window := if windowSeconds < 0.01 then 0.01 else windowSeconds;
      this.hasSender := hasSender;
      rateHits, pending, droppedExpired, droppedOverflow := [], [], 0, 0;
      calls, clock := START, 0.0;
      expiredBefore, overflowBefore := 0, 0;
      new;
      StartInv(0.0, Setup());
    }

    /**
    try_consume_quota: grants exactly as the plain limiter does, and otherwise says when the
    oldest grant reaches the edge of its window. The fields change as the machine says.
    */
    method TryConsumeQuota(now: real) returns (granted: bool, retryAfter: real, count: nat)
      requires Valid() && clock <= now
      modifies `rateHits
      ensures rateHits == RateLimiter.Consume(calls.quota, now, rpcLimit, window).hits
      ensures granted <==> RateLimiter.Grants(calls.quota, now, rpcLimit, window)
      ensures rpcLimit > 0 ==> (granted <==> RateLimiter.Count(calls.quota.grants, now - window, now) < rpcLimit)
      ensures granted ==> retryAfter == 0.0
      ensures !granted ==> rateHits != [] && retryAfter >= 0.0 && now + retryAfter == rateHits[0] + window
      ensures count == if rpcLimit > 0 then |rateHits| else 0
    {
      hide RateLimiter.Inv, Within, Balanced;
      if rpcLimit <= 0 {
        return true, 0.0, 0;
      }
      RateLimiter.GrantsAgreeWithCount(calls.quota, clock, now, rpcLimit, window);
      while rateHits != [] && now - rateHits[0] > window
        modifies `rateHits
        invariant RateLimiter.Prune(rateHits, now, window) == RateLimiter.Prune(old(rateHits), now, window)
        decreases |rateHits|
      {
        rateHits := rateHits[1..];
      }
      if |rateHits| >= rpcLimit {
        var wait := window - (now - rateHits[0]);
        return false, if wait < 0.0 then 0.0 else wait, |rateHits|;
      }
      rateHits := rateHits + [now];
      return true, 0.0, |rateHits|;
    }

    /** try_send_now: a call reaches the sender only on granted quota and with targets that fit. */
    method TrySendNow(now: real, rpc: Rpc, accept: bool) returns (ok: bool)
      requires Valid() && clock <= now
      modifies `rateHits, `calls, `clock
      ensures Valid() && clock == now && calls == Tried(old(calls), now, rpc, Setup())
      ensures ok <==> Reaches(old(calls), now, rpc, Setup()) && accept
    {
      hide Inv, RateLimiter.Consume, RateLimiter.Grants;
      TriedKeepsInv(calls, clock, now, rpc, Setup());
      var granted, _, _ := TryConsumeQuota(now);
      calls := Tried(calls, now, rpc, Setup());
      clock := now;
      if !granted {
        return false;
      }
      if !hasSender {
        return false;
      }
      for i := 0 to |rpc.targets|
        invariant forall j :: 0 <= j < i ==> 0 <= rpc.targets[j] <= 0xFFFF
      {
        if rpc.targets[i] < 0 || rpc.targets[i] > 0xFFFF {
          return false;
        }
      }
      if |rpc.targets| > 255 {
        return false;
      }
      return accept;
    }

    /** send: queues the call until the client is ready, and tries it at once afterwards. */
    method Send(now: real, isReady: bool, rpc: Rpc, accept: bool)
      requires Valid() && clock <= now
      modifies `rateHits, `calls, `clock, `pending, `droppedOverflow
      ensures Valid() && clock == now
      ensures calls == Next(old(calls), RpcCalls.Send(now, isReady, rpc), Setup())
      ensures isReady ==> pending == old(pending)
      ensures !isReady ==> rateHits == old(rateHits) && pending[|pending| - 1..] == [Pending(rpc, now)]
    {
      hide Inv, Tried, Balanced;
      NextKeepsInv(calls, clock, RpcCalls.Send(now, isReady, rpc), Setup());
      if isReady {
        var _ := TrySendNow(now, rpc, accept);
        return;
      }
      QueueIsBounded(calls, clock, Setup());
      ghost var after := Next(calls, RpcCalls.Send(now, isReady, rpc), Setup());
      OverflowCounts(calls.queue, Pending(rpc, now), now);
      calls, clock := after, now;
      pending := pending + [Pending(rpc, now)];
      while |pending| > MAX_PENDING
        modifies `pending, `droppedOverflow
        invariant |pending| <= |old(pending)| + 1
        invariant |pending| == |old(pending)| + 1 ==>
                    pending == old(pending) + [Pending(rpc, now)] && droppedOverflow == old(droppedOverflow)
        invariant |pending| < |old(pending)| + 1 ==>
                    pending == after.queue.pending && droppedOverflow == old(droppedOverflow) + 1 && |old(pending)| == MAX_PENDING
        decreases |pending|
      {
        pending := pending[1..];
        droppedOverflow := droppedOverflow + 1;
      }
    }

    /**
    flush_pending: with the client ready, takes calls off the head of the queue as the machine
    does. `answers` are the sender's, attempt by attempt.
    */
    method FlushPending(now: real, isReady: bool, answers: seq<bool>) returns (drained: bool)
      requires Valid() && clock <= now
      modifies `rateHits, `calls, `clock, `pending, `droppedExpired
      ensures Valid() && clock <= now
      ensures calls == Next(old(calls), Flush(now, isReady, answers), Setup())
      ensures drained <==> !isReady || pending == []
      ensures !isReady ==> pending == old(pending) && rateHits == old(rateHits)
    {
      hide Inv, Tried, Flushed, Reaches, CountFate;
      if !isReady {
        return true;
      }
      var sent := 0;
      while sent < MAX_FLUSH_PER_TICK && pending != []
        invariant Valid() && clock <= now && sent <= MAX_FLUSH_PER_TICK
        invariant Flushed(calls, now, answers, sent, Setup()) == Flushed(old(calls), now, answers, 0, Setup())
        decreases |pending|
      {
        FlushTurn(calls, now, answers, sent, Setup());
        var head := pending[0];
        if now - head.enqueuedAt > TTL {
          PopHead(Expired, now);
          droppedExpired := droppedExpired + 1;
        } else {
          var ok := TrySendNow(now, head.rpc, Answer(answers, sent));
          if !ok {
            return false;
          }
          PopHead(Delivered, now);
          sent := sent + 1;
        }
      }
      FlushEnds(calls, now, answers, sent, Setup());
      return pending == [];
    }

    /** The head of the queue leaves with a fitting fate; its counter is the caller's. */
    method PopHead(fate: Fate, ghost now: real)
      requires Valid() && pending != [] && fate != Overflowed && FateFits(Departure(pending[0], fate, now))
      modifies `calls, `pending
      ensures calls == old(calls).(queue := Leave(old(calls).queue, fate, now)) && Inv(calls, clock, Setup())
      ensures pending == calls.queue.pending && |pending| < |old(pending)|
      ensures CountFate(calls.queue.left, Overflowed) == CountFate(old(calls).queue.left, Overflowed)
      ensures CountFate(calls.queue.left, Expired) == CountFate(old(calls).queue.left, Expired) + (if fate == Expired then 1 else 0)
    {
      hide Inv, CountFate;
      LeavingKeepsInv(calls, clock, fate, now, Setup());
      CountOneMore(calls.queue.left, Departure(pending[0], fate, now), Overflowed);
      CountOneMore(calls.queue.left, Departure(pending[0], fate, now), Expired);
      calls := calls.(queue := Leave(calls.queue, fate, now));
      pending := pending[1..];
    }

    /** clear_pending: forgets the queue and the quota. */
    method ClearPending()
      modifies `rateHits, `pending, `calls, `expiredBefore, `overflowBefore
      ensures Valid() && calls == START && pending == [] && rateHits == []
    {
      hide Inv;
      expiredBefore, overflowBefore := droppedExpired, droppedOverflow;
      pending, rateHits := [], [];
      calls := START;
      StartInv(clock, Setup());
    }
  }

  lemma QueueIsBounded(s: State, clock: real, c: Config)
    requires Inv(s, clock, c)
    ensures |s.queue.pending| <= MAX_PENDING
  {
  }

  lemma OverflowCounts(l: Ledger, entry: Pending, now: real)
    requires |l.pending| <= MAX_PENDING
    ensures var r := Enqueue(l, entry, now);
            && CountFate(r.left, Expired) == CountFate(l.left, Expired)
            && CountFate(r.left, Overflowed) == CountFate(l.left, Overflowed) + (if |l.pending| == MAX_PENDING then 1 else 0)
            && r.pending == if |l.pending| == MAX_PENDING then (l.pending + [entry])[1..] else l.pending + [entry]
  {
    var first := (l.pending + [entry])[0];
    CountOneMore(l.left, Departure(first, Overflowed, now), Expired);
    CountOneMore(l.left, Departure(first, Overflowed, now), Overflowed);
  }

  /** One turn of a flush. */
  lemma FlushTurn(s: State, now: real, answers: seq<bool>, sent: nat, c: Config)
    requires sent < MAX_FLUSH_PER_TICK && s.queue.pending != []
    ensures var head := s.queue.pending[0];
            Flushed(s, now, answers, sent, c) ==
              if IsOverdue(head, now) then Flushed(s.(queue := Leave(s.queue, Expired, now)), now, answers, sent, c)
              else if Reaches(s, now, head.rpc, c) && Answer(answers, sent) then
                Flushed(Tried(s, now, head.rpc, c).(queue := Leave(Tried(s, now, head.rpc, c).queue, Delivered, now)),
                        now, answers, sent + 1, c)
              else Tried(s, now, head.rpc, c)
  {
    hide Reaches, RateLimiter.Consume;
  }

  lemma FlushEnds(s: State, now: real, answers: seq<bool>, sent: nat, c: Config)
    requires sent >= MAX_FLUSH_PER_TICK || s.queue.pending == []
    ensures Flushed(s, now, answers, sent, c) == s
  {
  }
}
