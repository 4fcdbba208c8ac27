/**
The sliding-window quota of src/core/rpc_manager.cpp:23-41. The program keeps a deque of recent
grants and prunes its front; the reference is the full list of grants and a plain count.
*/
module RateLimiter {

  /** Drops the grants that have left the window at `now`. */
  function Prune(hits: seq<real>, now: real, window: real): (r: seq<real>)
    ensures |r| <= |hits|
  {
    if hits != [] && now - hits[0] > window then Prune(hits[1..], now, window) else hits
  }

  /** The deque and the complete list of grants. */
  datatype State = State(hits: seq<real>, grants: seq<real>)

  const START := State([], [])

  predicate Grants(s: State, now: real, limit: int, window: real) {
    limit <= 0 || |Prune(s.hits, now, window)| < limit
  }

  function Consume(s: State, now: real, limit: int, window: real): State {
    if limit <= 0 then s.(grants := s.grants + [now])
    else
      var hits := Prune(s.hits, now, window);
      if |hits| < limit then State(hits + [now], s.grants + [now]) else s.(hits := hits)
  }

  /** The state after quota was asked for at each of `times`, in order. */
  function Run(times: seq<real>, limit: int, window: real): State {
    if times == [] then START
    else Consume(Run(times[..|times| - 1], limit, window), times[|times| - 1], limit, window)
  }

  predicate Sorted(times: seq<real>) {
    forall i, j :: 0 <= i < j < |times| ==> times[i] <= times[j]
  }

  /** How many of `times` lie in the closed interval from `lo` to `hi`. */
  function Count(times: seq<real>, lo: real, hi: real): nat {
    if times == [] then 0
    else Count(times[..|times| - 1], lo, hi) + (if lo <= times[|times| - 1] <= hi then 1 else 0)
  }

  // ---------------------------------------------------------------- invariant

  /** Grants that are `limit` places apart never share a window. */
  predicate Spread(grants: seq<real>, limit: int, window: real)
    requires limit > 0
  {
    forall i, j :: 0 <= i < j < |grants| && j - i >= limit ==> grants[j] - grants[i] > window
  }

  /** The deque is the end of the grant list, and what it has lost is out of every later window. */
  ghost predicate Inv(s: State, clock: real, limit: int, window: real) {
    && |s.hits| <= |s.grants|
    && Sorted(s.grants)
    && (forall i :: 0 <= i < |s.grants| ==> s.grants[i] <= clock)
    && (limit > 0 ==>
          && s.hits == s.grants[|s.grants| - |s.hits|..]
          && (forall i :: 0 <= i < |s.grants| - |s.hits| ==> clock - s.grants[i] > window)
          && Spread(s.grants, limit, window))
  }

  /** Pruning an end of the grant list leaves exactly the grants that are still in the window. */
  lemma {:induction false} PruneSplits(grants: seq<real>, drop: nat, now: real, window: real)
    requires Sorted(grants) && drop <= |grants|
    requires forall i :: 0 <= i < drop ==> now - grants[i] > window
    ensures var r := Prune(grants[drop..], now, window);
            var skip := |grants| - |r|;
            && drop <= skip && r == grants[skip..]
            && (forall i :: 0 <= i < skip ==> now - grants[i] > window)
            && (forall i :: skip <= i < |grants| ==> now - grants[i] <= window)
    decreases |grants| - drop
  {
    if drop < |grants| && now - grants[drop] > window {
      assert grants[drop..][1..] == grants[drop + 1..];
      PruneSplits(grants, drop + 1, now, window);
    }
  }

  lemma GrantKeepsSpread(grants: seq<real>, skip: nat, now: real, limit: int, window: real)
    requires limit > 0 && Spread(grants, limit, window)
    requires skip <= |grants| && |grants| - skip < limit
    requires forall i :: 0 <= i < skip ==> now - grants[i] > window
    ensures Spread(grants + [now], limit, window)
  {
  }

  lemma GrantKeepsSorted(grants: seq<real>, now: real)
    requires Sorted(grants) && forall i :: 0 <= i < |grants| ==> grants[i] <= now
    ensures Sorted(grants + [now])
  {
  }

  lemma ConsumeKeepsInv(s: State, clock: real, now: real, limit: int, window: real)
    requires Inv(s, clock, limit, window) && clock <= now
    ensures Inv(Consume(s, now, limit, window), now, limit, window)
  {
    hide Prune, Sorted, Spread;
    GrantKeepsSorted(s.grants, now);
    if limit > 0 {
      PruneSplits(s.grants, |s.grants| - |s.hits|, now, window);
      var hits := Prune(s.hits, now, window);
      var skip := |s.grants| - |hits|;
      if |hits| < limit {
        GrantKeepsSpread(s.grants, skip, now, limit, window);
        assert hits + [now] == (s.grants + [now])[skip..];
      }
    }
  }

  lemma {:induction false} RunKeepsInv(times: seq<real>, clock: real, limit: int, window: real)
    requires Sorted(times) && forall i :: 0 <= i < |times| ==> times[i] <= clock
    ensures Inv(Run(times, limit, window), clock, limit, window)
  {
    if times != [] {
      var now := times[|times| - 1];
      RunKeepsInv(times[..|times| - 1], now, limit, window);
      ConsumeKeepsInv(Run(times[..|times| - 1], limit, window), now, now, limit, window);
    }
  }

  // ---------------------------------------------------------------- against the plain count

  lemma {:induction false} CountSkips(times: seq<real>, lo: real, hi: real, skip: nat)
    requires skip <= |times| && forall i :: 0 <= i < skip ==> times[i] < lo
    ensures Count(times, lo, hi) <= |times| - skip
    ensures (forall i :: skip <= i < |times| ==> lo <= times[i] <= hi) ==> Count(times, lo, hi) == |times| - skip
  {
    if times != [] {
      var front := times[..|times| - 1];
      CountSkips(front, lo, hi, if skip == |times| then skip - 1 else skip);
    }
  }

  /** The pruned deque grants exactly when the plain count over the window is below the limit. */
  lemma GrantsAgreeWithCount(s: State, clock: real, now: real, limit: int, window: real)
    requires Inv(s, clock, limit, window) && clock <= now && limit > 0
    ensures |Prune(s.hits, now, window)| == Count(s.grants, now - window, now)
    ensures Grants(s, now, limit, window) <==> Count(s.grants, now - window, now) < limit
  {
    hide Prune;
    PruneSplits(s.grants, |s.grants| - |s.hits|, now, window);
    CountSkips(s.grants, now - window, now, |s.grants| - |Prune(s.hits, now, window)|);
  }

  /** The same for whole runs: after any requests, the next one is granted by the plain rule. */
  lemma RefinesPlainLimiter(times: seq<real>, now: real, limit: int, window: real)
    requires Sorted(times + [now]) && limit > 0
    ensures var s := Run(times, limit, window);
            Run(times + [now], limit, window).grants ==
              if Count(s.grants, now - window, now) < limit then s.grants + [now] else s.grants
  {
    var all := times + [now];
    assert all[..|times|] == times;
    assert forall i :: 0 <= i < |times| ==> times[i] == all[i] && all[i] <= all[|times|];
    RunKeepsInv(times, now, limit, window);
    GrantsAgreeWithCount(Run(times, limit, window), now, now, limit, window);
  }

  /** Any closed interval of window length holds at most `limit` grants. */
  lemma {:induction false} WindowHoldsLimit(grants: seq<real>, limit: int, window: real, start: real)
    requires limit > 0 && Sorted(grants) && Spread(grants, limit, window)
    ensures Count(grants, start, start + window) <= limit
  {
    if grants != [] {
      var n := |grants|;
      if start <= grants[n - 1] <= start + window {
        var skip := if n > limit then n - limit else 0;
        forall i | 0 <= i < skip ensures grants[i] < start {
          assert grants[n - 1] - grants[i] > window;
        }
        CountSkips(grants, start, start + window, skip);
      } else {
        WindowHoldsLimit(grants[..n - 1], limit, window, start);
      }
    }
  }

  /** Over every run with a clock that does not go backwards. */
  lemma RunHoldsLimit(times: seq<real>, limit: int, window: real, start: real)
    requires Sorted(times) && limit > 0
    ensures Count(Run(times, limit, window).grants, start, start + window) <= limit
  {
    if times == [] {
    } else {
      RunKeepsInv(times, times[|times| - 1], limit, window);
      WindowHoldsLimit(Run(times, limit, window).grants, limit, window, start);
    }
  }
}
