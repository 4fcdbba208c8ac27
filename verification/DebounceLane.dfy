/**
The send side of all variables of one kind (src/core/network_variable_manager.cpp).
*/
module DebounceLane {
  // The maps that the manager keeps per kind, the code that edits them, and, for every key, the
  // `Track` of module Debounce that they spell out. Global and client variables run the same code
  // over different keys, so it is written once. The control sender is outside this model: a call is
  // told what the sender accepts. Where the program walks a `std::map`, the order is left open.

  import opened Bytes
  import opened Debounce
  import opened Snapshots

  /** The four maps, and the evidence and intent records of every key. */
  datatype Lane<!K(==)> = Lane(
    lastSent: map<K, Text>,
    nextAllowed: map<K, real>,
    pending: map<K, Text>,
    due: map<K, real>,
    evidence: map<K, seq<Evidence>>,
    intent: map<K, Intent>)
  {
    function At(k: K): Track {
      Track(Lookup(lastSent, k), Lookup(nextAllowed, k), Lookup(pending, k), Lookup(due, k),
            if k in evidence then evidence[k] else [], Lookup(intent, k))
    }
  }

  function Empty<K(!new)>(): (r: Lane<K>)
    ensures forall k :: r.At(k) == FRESH
  {
    Lane(map[], map[], map[], map[], map[], map[])
  }

  /** Only `k` moved, to `t`. */
  ghost predicate Moved<K(!new)>(a: Lane<K>, b: Lane<K>, k: K, t: Track) {
    b.At(k) == t && forall j :: j != k ==> b.At(j) == a.At(j)
  }

  // ---------------------------------------------------------------- one map at a time

  function PutPending<K(!new)>(l: Lane<K>, k: K, value: Text): (r: Lane<K>)
    ensures Moved(l, r, k, l.At(k).(pending := Some(value)))
  {
    l.(pending := l.pending[k := value])
  }

  function PutDue<K(!new)>(l: Lane<K>, k: K, at: real): (r: Lane<K>)
    ensures Moved(l, r, k, l.At(k).(due := Some(at)))
  {
    l.(due := l.due[k := at])
  }

  function ErasePending<K(!new)>(l: Lane<K>, k: K): (r: Lane<K>)
    ensures Moved(l, r, k, DropPending(l.At(k)))
  {
    l.(pending := l.pending - {k}, due := l.due - {k})
  }

  function PutNextAllowed<K(!new)>(l: Lane<K>, k: K, at: real): (r: Lane<K>)
    ensures Moved(l, r, k, l.At(k).(nextAllowed := Some(at)))
  {
    l.(nextAllowed := l.nextAllowed[k := at])
  }

  /** Records a value as the last sent one, with the evidence for it. */
  function PutLastSent<K(!new)>(l: Lane<K>, k: K, e: Evidence): (r: Lane<K>)
    ensures Moved(l, r, k, l.At(k).(lastSent := Some(e.value), evidence := l.At(k).evidence + [e]))
  {
    l.(lastSent := l.lastSent[k := e.value], evidence := l.evidence[k := l.At(k).evidence + [e]])
  }

  function EraseLastSent<K(!new)>(l: Lane<K>, k: K): (r: Lane<K>)
    ensures Moved(l, r, k, l.At(k).(lastSent := None))
  {
    l.(lastSent := l.lastSent - {k})
  }

  function PutIntent<K(!new)>(l: Lane<K>, k: K, i: Intent): (r: Lane<K>)
    ensures Moved(l, r, k, l.At(k).(intent := Some(i)))
  {
    l.(intent := l.intent[k := i])
  }

  // ---------------------------------------------------------------- the invariant of every key

  /** Every key's track satisfies the invariant of module Debounce. */
  ghost predicate LaneInv<K(!new)>(l: Lane<K>, clock: real) {
    forall k :: Inv(l.At(k), clock)
  }

  lemma LaterLane<K(!new)>(l: Lane<K>, clock: real, later: real)
    requires LaneInv(l, clock) && clock <= later
    ensures LaneInv(l, later)
  {
    forall k ensures Inv(l.At(k), later) {
      Later(l.At(k), clock, later);
    }
  }

  lemma MoveKeepsInv<K(!new)>(a: Lane<K>, b: Lane<K>, k: K, t: Track, clock: real)
    requires LaneInv(a, clock) && Moved(a, b, k, t) && Inv(t, clock)
    ensures LaneInv(b, clock)
  {
    hide Inv;
    forall j ensures Inv(b.At(j), clock) {
      assert Inv(a.At(j), clock);
    }
  }

  // ---------------------------------------------------------------- setting

  /** try_send_global_now and try_send_client_now. */
  method TrySendNow<K(!new)>(l: Lane<K>, k: K, value: Text, accept: bool, now: real, edge: Edge)
    returns (r: Lane<K>, ok: bool)
    ensures ok == accept
    ensures ok ==> WireHolds(r.At(k), value) && r.At(k).lastSent == Some(value)
    ensures ok ==> r.At(k).evidence == l.At(k).evidence + [Sent(value, now, edge)]
    ensures r.At(k) == l.At(k).(lastSent := r.At(k).lastSent, evidence := r.At(k).evidence)
    ensures forall j :: !ok || j != k ==> r.At(j) == l.At(j)
  {
    if !accept {
      return l, false;
    }
    LastSendAppends(l.At(k).evidence, Sent(value, now, edge));
    return PutLastSent(l, k, Sent(value, now, edge)), true;
  }

  /** The leading edge of set_global and set_client. */
  method SetLeading<K(!new)>(l: Lane<K>, now: real, k: K, value: Text, accept: bool) returns (r: Lane<K>)
    ensures Moved(l, r, k, LeadStep(l.At(k), now, value, accept))
  {
    hide PutPending, PutDue, PutNextAllowed, PutLastSent;
    var sent;
    r, sent := TrySendNow(l, k, value, accept, now, Leading);
    if sent {
      r := PutNextAllowed(r, k, now + INTERVAL);
    }
    r := PutPending(r, k, value);
    if k !in l.due {
      r := PutDue(r, k, now + INTERVAL);
    }
  }

  /** set_global and set_client inside the cooldown. */
  method SetWaiting<K(!new)>(l: Lane<K>, k: K, value: Text) returns (r: Lane<K>)
    requires k in l.nextAllowed
    ensures Moved(l, r, k, WaitStep(l.At(k), value))
  {
    hide PutPending, PutDue;
    r := PutPending(l, k, value);
    if k !in l.due {
      r := PutDue(r, k, l.nextAllowed[k]);
    }
  }

  /** set_global and set_client from the dedupe on. */
  method SetVariable<K(!new)>(l: Lane<K>, now: real, k: K, value: Text, accept: bool) returns (r: Lane<K>)
    ensures Moved(l, r, k, SetStep(l.At(k), now, value, accept))
  {
    hide ErasePending, PutIntent, LeadStep, WaitStep;
    var count := |l.At(k).evidence|;
    if k in l.lastSent && l.lastSent[k] == value {
      r := PutIntent(l, k, Intent(value, now, if count == 0 then 0 else count - 1));
      r := ErasePending(r, k);
      return;
    }
    r := PutIntent(l, k, Intent(value, now, count));
    var allowImmediate := k !in l.nextAllowed || now >= l.nextAllowed[k];
    if allowImmediate {
      r := SetLeading(r, now, k, value, accept);
    } else {
      r := SetWaiting(r, k, value);
    }
  }

  lemma SetKeepsLane<K(!new)>(a: Lane<K>, b: Lane<K>, k: K, clock: real, now: real, value: Text, accept: bool)
    requires LaneInv(a, clock) && clock <= now && Moved(a, b, k, SetStep(a.At(k), now, value, accept))
    ensures LaneInv(b, now)
  {
    hide Inv, SetStep;
    LaterLane(a, clock, now);
    SetKeepsInv(a.At(k), clock, now, value, accept);
    MoveKeepsInv(a, b, k, SetStep(a.At(k), now, value, accept), now);
  }

  // ---------------------------------------------------------------- flushing

  /** Every key took its flush step, with the sender accepting exactly `accept`. */
  ghost predicate Flushed<K(!new)>(a: Lane<K>, b: Lane<K>, now: real, accept: set<K>) {
    forall k :: b.At(k) == FlushStep(a.At(k), now, k in accept)
  }

  /** The keys and values that a flush at `now` has to deal with. */
  function ToFlush<K>(l: Lane<K>, now: real): map<K, Text> {
    map k | k in l.due && l.due[k] <= now && k in l.pending :: l.pending[k]
  }

  /** Half way through a flush: the keys in `todo` have not moved yet. */
  ghost predicate Flushing<K(!new)>(a: Lane<K>, b: Lane<K>, now: real, accept: set<K>, todo: set<K>) {
    && todo <= ToFlush(a, now).Keys
    && forall k :: b.At(k) == if k in todo then a.At(k) else FlushStep(a.At(k), now, k in accept)
  }

  /** No key that has moved is still overdue. */
  ghost predicate NoneOverdue<K(!new)>(l: Lane<K>, now: real, todo: set<K>) {
    forall k :: k !in todo ==> !Ripe(l.At(k), now)
  }

  /** One iteration of the second loop of flush_pending_global and flush_pending_client. */
  method FlushOne<K(!new)>(l: Lane<K>, now: real, k: K, value: Text, accept: bool) returns (r: Lane<K>, flushed: bool)
    requires Ripe(l.At(k), now) && Lookup(l.pending, k) == Some(value)
    ensures Moved(l, r, k, FlushStep(l.At(k), now, accept))
    ensures flushed <==> !Ripe(r.At(k), now)
  {
    hide ErasePending, PutNextAllowed, PutLastSent;
    if k in l.lastSent && l.lastSent[k] == value {
      return ErasePending(l, k), true;
    }
    r, flushed := TrySendNow(l, k, value, accept, now, Trailing);
    if flushed {
      r := PutNextAllowed(ErasePending(r, k), k, now + INTERVAL);
    }
  }

  /** flush_pending_global and flush_pending_client: true exactly when nothing overdue is left. */
  method FlushPending<K(!new)>(l: Lane<K>, now: real, accept: set<K>) returns (r: Lane<K>, allFlushed: bool)
    ensures Flushed(l, r, now, accept)
    ensures allFlushed <==> NoneOverdue(r, now, {})
  {
    hide FlushStep, Flushing, NoneOverdue;
    var toFlush := ToFlush(l, now);
    FlushStarts(l, now, accept);
    r, allFlushed := l, true;
    var todo := toFlush.Keys;
    while todo != {}
      invariant todo <= toFlush.Keys
      invariant Flushing(l, r, now, accept, todo)
      invariant allFlushed <==> NoneOverdue(r, now, todo)
      decreases |todo|
    {
      var k :| k in todo;
      ghost var before := r;
      FlushReaches(l, r, now, accept, todo, k);
      var flushed;
      r, flushed := FlushOne(r, now, k, toFlush[k], k in accept);
      FlushAdvances(l, before, r, now, accept, todo, k);
      todo := todo - {k};
      allFlushed := allFlushed && flushed;
    }
    FlushEnds(l, r, now, accept);
  }

  lemma FlushReaches<K(!new)>(a: Lane<K>, b: Lane<K>, now: real, accept: set<K>, todo: set<K>, k: K)
    requires Flushing(a, b, now, accept, todo) && k in todo
    ensures k in ToFlush(a, now) && Ripe(b.At(k), now) && Lookup(b.pending, k) == Some(ToFlush(a, now)[k])
  {
    assert b.At(k) == a.At(k);
  }

  lemma FlushEnds<K(!new)>(a: Lane<K>, b: Lane<K>, now: real, accept: set<K>)
    requires Flushing(a, b, now, accept, {})
    ensures Flushed(a, b, now, accept)
  {
  }

  lemma FlushStarts<K(!new)>(a: Lane<K>, now: real, accept: set<K>)
    ensures Flushing(a, a, now, accept, ToFlush(a, now).Keys)
    ensures NoneOverdue(a, now, ToFlush(a, now).Keys)
  {
    forall k | k !in ToFlush(a, now).Keys ensures FlushStep(a.At(k), now, k in accept) == a.At(k) {
      assert !Ripe(a.At(k), now);
    }
  }

  lemma FlushAdvances<K(!new)>(a: Lane<K>, b: Lane<K>, c: Lane<K>, now: real, accept: set<K>, todo: set<K>, k: K)
    requires Flushing(a, b, now, accept, todo) && k in todo
    requires Moved(b, c, k, FlushStep(b.At(k), now, k in accept))
    ensures Flushing(a, c, now, accept, todo - {k})
    ensures NoneOverdue(c, now, todo - {k}) <==> NoneOverdue(b, now, todo) && !Ripe(c.At(k), now)
  {
    hide FlushStep;
    forall j ensures c.At(j) == if j in todo - {k} then a.At(j) else FlushStep(a.At(j), now, j in accept) {
      assert j != k ==> c.At(j) == b.At(j);
    }
    if NoneOverdue(b, now, todo) && !Ripe(c.At(k), now) {
      assert forall j :: j !in todo - {k} ==> j == k || (j !in todo && c.At(j) == b.At(j));
    }
    if NoneOverdue(c, now, todo - {k}) {
      assert k !in todo - {k};
      forall j | j !in todo ensures !Ripe(b.At(j), now) {
        assert j !in todo - {k} && c.At(j) == b.At(j);
      }
    }
  }

  lemma FlushKeepsLane<K(!new)>(a: Lane<K>, b: Lane<K>, clock: real, now: real, accept: set<K>)
    requires LaneInv(a, clock) && clock <= now && Flushed(a, b, now, accept)
    ensures LaneInv(b, now)
  {
    hide Inv, FlushStep;
    forall k ensures Inv(b.At(k), now) {
      FlushKeepsInv(a.At(k), clock, now, k in accept);
    }
  }

  // ---------------------------------------------------------------- snapshots

  /** One variable's track through the entries of a global snapshot. */
  function GlobalSyncTrack(t: Track, name: Text, es: seq<Entry>): Track {
    if es == [] then t
    else
      var before, e := GlobalSyncTrack(t, name, es[..|es| - 1]), es[|es| - 1];
      if e.name == name && name != [] then GlobalSyncStep(before, e.value) else before
  }

  /** The send-side half of one handle_global_sync entry. */
  method ReconcileGlobal(l: Lane<Text>, name: Text, value: Text) returns (r: Lane<Text>)
    ensures Moved(l, r, name, GlobalSyncStep(l.At(name), value))
  {
    hide ErasePending, EraseLastSent;
    r := l;
    if name in l.lastSent {
      if name in l.pending && l.pending[name] == l.lastSent[name] {
        r := ErasePending(r, name);
      }
      if l.lastSent[name] != value {
        r := EraseLastSent(r, name);
      }
    }
  }

  ghost predicate GlobalSynced(a: Lane<Text>, b: Lane<Text>, es: seq<Entry>) {
    forall n :: b.At(n) == GlobalSyncTrack(a.At(n), n, es)
  }

  lemma GlobalSyncStarts(a: Lane<Text>)
    ensures GlobalSynced(a, a, [])
  {
  }

  lemma GlobalSyncAdvances(a: Lane<Text>, b: Lane<Text>, c: Lane<Text>, es: seq<Entry>, e: Entry)
    requires GlobalSynced(a, b, es)
    requires if e.name == [] then c == b else Moved(b, c, e.name, GlobalSyncStep(b.At(e.name), e.value))
    ensures GlobalSynced(a, c, es + [e])
  {
    assert (es + [e])[..|es|] == es;
    forall n ensures c.At(n) == GlobalSyncTrack(a.At(n), n, es + [e]) {
      assert b.At(n) == GlobalSyncTrack(a.At(n), n, es);
    }
  }

  lemma {:induction false} GlobalSyncKeepsLane(a: Lane<Text>, b: Lane<Text>, es: seq<Entry>, clock: real)
    requires LaneInv(a, clock) && GlobalSynced(a, b, es)
    ensures LaneInv(b, clock)
  {
    hide Inv;
    forall n ensures Inv(b.At(n), clock) {
      assert Inv(a.At(n), clock);
      GlobalSyncTrackInv(a.At(n), n, es, clock);
    }
  }

  lemma {:induction false} GlobalSyncTrackInv(t: Track, name: Text, es: seq<Entry>, clock: real)
    requires Inv(t, clock)
    ensures Inv(GlobalSyncTrack(t, name, es), clock)
  {
    hide Inv, GlobalSyncStep;
    if es != [] {
      GlobalSyncTrackInv(t, name, es[..|es| - 1], clock);
      GlobalSyncKeepsInv(GlobalSyncTrack(t, name, es[..|es| - 1]), clock, es[|es| - 1].value);
    }
  }

  datatype ClientKey = ClientKey(clientNo: int, name: Text)

  /** One variable's track when its client's table `prior` is replaced by `next`. */
  function ReplaceTrack(t: Track, prior: Table, next: Table, name: Text): Track {
    if name in next then ClientReportStep(t, next[name])
    else if name in prior then ClientRemoveStep(t)
    else t
  }

  /** The send-side half of a name that a client block no longer lists. */
  method ForgetClient(l: Lane<ClientKey>, key: ClientKey) returns (r: Lane<ClientKey>)
    ensures Moved(l, r, key, ClientRemoveStep(l.At(key)))
  {
    hide ErasePending, EraseLastSent;
    r := l;
    if key in l.lastSent {
      if key in l.pending && l.pending[key] == l.lastSent[key] {
        r := ErasePending(r, key);
      }
      r := EraseLastSent(r, key);
    }
  }

  /** The send-side half of a name that a client block lists. */
  method AdoptClient(l: Lane<ClientKey>, key: ClientKey, value: Text) returns (r: Lane<ClientKey>)
    ensures Moved(l, r, key, ClientReportStep(l.At(key), value))
  {
    hide ErasePending, PutLastSent;
    r := PutLastSent(l, key, Reported(value));
    if key in l.pending && l.pending[key] == value {
      r := ErasePending(r, key);
    }
  }

  /** Every variable of one client took the step of its table's replacement; no other moved. */
  ghost predicate Replaced(a: Lane<ClientKey>, b: Lane<ClientKey>, clientNo: int, prior: Table, next: Table) {
    forall k :: b.At(k) == if k.clientNo == clientNo then ReplaceTrack(a.At(k), prior, next, k.name) else a.At(k)
  }

  lemma ReplaceKeepsLane(a: Lane<ClientKey>, b: Lane<ClientKey>, clientNo: int, prior: Table, next: Table, clock: real)
    requires LaneInv(a, clock) && Replaced(a, b, clientNo, prior, next)
    ensures LaneInv(b, clock)
  {
    hide Inv, ClientReportStep, ClientRemoveStep;
    forall k ensures Inv(b.At(k), clock) {
      assert Inv(a.At(k), clock);
      if k.name in next {
        ClientReportKeepsInv(a.At(k), clock, next[k.name]);
      } else {
        ClientRemoveKeepsInv(a.At(k), clock);
      }
    }
  }

  /** Half way through a replacement: the names in `todo` have not moved yet. */
  ghost predicate Replacing(a: Lane<ClientKey>, b: Lane<ClientKey>, clientNo: int, prior: Table, next: Table, todo: set<Text>) {
    forall k :: b.At(k) ==
      if k.clientNo == clientNo && k.name !in todo then ReplaceTrack(a.At(k), prior, next, k.name) else a.At(k)
  }

  lemma ReplaceAdvances(a: Lane<ClientKey>, b: Lane<ClientKey>, c: Lane<ClientKey>,
                        clientNo: int, prior: Table, next: Table, todo: set<Text>, name: Text)
    requires Replacing(a, b, clientNo, prior, next, todo) && name in todo
    requires var k := ClientKey(clientNo, name); Moved(b, c, k, ReplaceTrack(b.At(k), prior, next, name))
    ensures Replacing(a, c, clientNo, prior, next, todo - {name})
  {
    hide ReplaceTrack;
    forall k ensures c.At(k) ==
        if k.clientNo == clientNo && k.name !in todo - {name} then ReplaceTrack(a.At(k), prior, next, k.name)
        else a.At(k)
    {
      assert k != ClientKey(clientNo, name) ==> c.At(k) == b.At(k);
    }
  }

  /** Half way through the removals of a block. */
  ghost predicate Removing(l: Lane<ClientKey>, r: Lane<ClientKey>, clientNo: int, prior: Table, next: Table,
                           todo: set<Text>, changes: seq<Change>)
  {
    && todo <= prior.Keys - next.Keys
    && Replacing(l, r, clientNo, prior, next, next.Keys + todo)
    && IsDiff(clientNo, prior, prior - (prior.Keys - next.Keys - todo), changes)
  }

  lemma RemoveStarts(l: Lane<ClientKey>, clientNo: int, prior: Table, next: Table)
    ensures Removing(l, l, clientNo, prior, next, prior.Keys - next.Keys, [])
  {
    var todo := prior.Keys - next.Keys;
    assert prior - (prior.Keys - next.Keys - todo) == prior;
    DiffStarts(clientNo, prior);
  }

  lemma RemoveAdvances(l: Lane<ClientKey>, b: Lane<ClientKey>, r: Lane<ClientKey>, clientNo: int, prior: Table,
                       next: Table, todo: set<Text>, changes: seq<Change>, name: Text)
    requires Removing(l, b, clientNo, prior, next, todo, changes) && name in todo
    requires var k := ClientKey(clientNo, name); Moved(b, r, k, ClientRemoveStep(b.At(k)))
    ensures Removing(l, r, clientNo, prior, next, todo - {name},
                     changes + [Change(clientNo, name, prior[name], [], true, true)])
  {
    hide IsDiff, Replacing, ClientRemoveStep;
    ReplaceAdvances(l, b, r, clientNo, prior, next, next.Keys + todo, name);
    assert next.Keys + todo - {name} == next.Keys + (todo - {name});
    var left := prior - (prior.Keys - next.Keys - todo);
    DiffExtends(clientNo, prior, left, changes, Change(clientNo, name, prior[name], [], true, true));
    assert left - {name} == prior - (prior.Keys - next.Keys - (todo - {name}));
  }

  /** The removals of one client block: the names of `prior` that `next` does not list. */
  method RemoveMissing(l: Lane<ClientKey>, clientNo: int, prior: Table, next: Table)
    returns (r: Lane<ClientKey>, changes: seq<Change>)
    ensures Removing(l, r, clientNo, prior, next, {}, changes)
  {
    hide Removing, ClientRemoveStep;
    r, changes := l, [];
    var todo := prior.Keys - next.Keys;
    RemoveStarts(l, clientNo, prior, next);
    while todo != {}
      invariant todo <= prior.Keys
      invariant Removing(l, r, clientNo, prior, next, todo, changes)
      decreases |todo|
    {
      var name :| name in todo;
      ghost var before := r;
      r := ForgetClient(r, ClientKey(clientNo, name));
      RemoveAdvances(l, before, r, clientNo, prior, next, todo, changes, name);
      changes := changes + [Change(clientNo, name, prior[name], [], true, true)];
      todo := todo - {name};
    }
  }

  /** The table between `prior` and `next`: the names in `todo` still have their prior value. */
  function Between(prior: Table, next: Table, todo: set<Text>): Table {
    map n | n in next && (n !in todo || n in prior) :: if n in todo then prior[n] else next[n]
  }

  /** Half way through the additions and updates of a block. */
  ghost predicate Adopting(l: Lane<ClientKey>, r: Lane<ClientKey>, clientNo: int, prior: Table, next: Table,
                           todo: set<Text>, changes: seq<Change>)
  {
    && todo <= next.Keys
    && Replacing(l, r, clientNo, prior, next, todo)
    && IsDiff(clientNo, prior, Between(prior, next, todo), changes)
  }

  lemma AdoptStarts(l: Lane<ClientKey>, r: Lane<ClientKey>, clientNo: int, prior: Table, next: Table, changes: seq<Change>)
    requires Removing(l, r, clientNo, prior, next, {}, changes)
    ensures Adopting(l, r, clientNo, prior, next, next.Keys, changes)
  {
    assert next.Keys + {} == next.Keys;
    assert prior - (prior.Keys - next.Keys - {}) == Between(prior, next, next.Keys);
  }

  /** What one listed name contributes to the change list. */
  function ListedChange(clientNo: int, prior: Table, name: Text, value: Text): seq<Change> {
    if Lookup(prior, name) == Some(value) then []
    else
      var had := name in prior;
      [Change(clientNo, name, if had then prior[name] else [], value, had, false)]
  }

  lemma AdoptAdvances(l: Lane<ClientKey>, b: Lane<ClientKey>, r: Lane<ClientKey>, clientNo: int, prior: Table,
                      next: Table, todo: set<Text>, changes: seq<Change>, name: Text)
    requires Adopting(l, b, clientNo, prior, next, todo, changes) && name in todo
    requires var k := ClientKey(clientNo, name); Moved(b, r, k, ClientReportStep(b.At(k), next[name]))
    ensures Adopting(l, r, clientNo, prior, next, todo - {name},
                     changes + ListedChange(clientNo, prior, name, next[name]))
  {
    hide IsDiff, Replacing, ClientReportStep;
    ReplaceAdvances(l, b, r, clientNo, prior, next, todo, name);
    var table, after := Between(prior, next, todo), Between(prior, next, todo - {name});
    var more := ListedChange(clientNo, prior, name, next[name]);
    assert Lookup(table, name) == Lookup(prior, name);
    if more == [] {
      assert table == after;
      assert changes + more == changes;
    } else {
      DiffExtends(clientNo, prior, table, changes, more[0]);
      assert after == table[name := next[name]];
    }
  }

  /** The additions and updates of one client block, after its removals. */
  method AdoptListed(l: Lane<ClientKey>, clientNo: int, prior: Table, next: Table, removals: seq<Change>,
                     ghost start: Lane<ClientKey>)
    returns (r: Lane<ClientKey>, changes: seq<Change>)
    requires Removing(start, l, clientNo, prior, next, {}, removals)
    ensures Adopting(start, r, clientNo, prior, next, {}, changes)
  {
    hide Removing, Adopting, ClientReportStep;
    r, changes := l, removals;
    var todo := next.Keys;
    AdoptStarts(start, l, clientNo, prior, next, removals);
    while todo != {}
      invariant todo <= next.Keys
      invariant Adopting(start, r, clientNo, prior, next, todo, changes)
      decreases |todo|
    {
      var name :| name in todo;
      ghost var before := r;
      r := AdoptClient(r, ClientKey(clientNo, name), next[name]);
      AdoptAdvances(start, before, r, clientNo, prior, next, todo, changes, name);
      if !(name in prior && prior[name] == next[name]) {
        var hadOld := name in prior;
        changes := changes + [Change(clientNo, name, if hadOld then prior[name] else [], next[name], hadOld, false)];
      } else {
        assert changes + [] == changes;
      }
      todo := todo - {name};
    }
  }

  /**
  One block of handle_client_sync: the changes are exactly the difference between the client's
  tables, and every variable of the client takes its step.
  */
  method ReplaceTable(l: Lane<ClientKey>, clientNo: int, prior: Table, next: Table)
    returns (r: Lane<ClientKey>, changes: seq<Change>)
    ensures Replaced(l, r, clientNo, prior, next)
    ensures IsDiff(clientNo, prior, next, changes)
  {
    hide IsDiff, ReplaceTrack, Removing;
    var removals;
    r, removals := RemoveMissing(l, clientNo, prior, next);
    r, changes := AdoptListed(r, clientNo, prior, next, removals, l);
    assert Between(prior, next, {}) == next;
  }

  /** One variable's track through the blocks of a client snapshot. */
  function ClientSyncTrack(t: Track, tables: map<int, Table>, key: ClientKey, bs: seq<Block>): Track {
    if bs == [] then t
    else
      var before, b := ClientSyncTrack(t, tables, key, bs[..|bs| - 1]), bs[|bs| - 1];
      if b.clientNo != key.clientNo then before
      else ReplaceTrack(before, TableOf(SyncTables(tables, bs[..|bs| - 1]), key.clientNo), BlockTable(b), key.name)
  }

  ghost predicate ClientSynced(a: Lane<ClientKey>, b: Lane<ClientKey>, tables: map<int, Table>, bs: seq<Block>) {
    forall k :: b.At(k) == ClientSyncTrack(a.At(k), tables, k, bs)
  }

  lemma ClientSyncStarts(a: Lane<ClientKey>, tables: map<int, Table>)
    ensures ClientSynced(a, a, tables, [])
  {
  }

  lemma ClientSyncAdvances(a: Lane<ClientKey>, b: Lane<ClientKey>, c: Lane<ClientKey>,
                           tables: map<int, Table>, bs: seq<Block>, block: Block)
    requires ClientSynced(a, b, tables, bs)
    requires Replaced(b, c, block.clientNo, TableOf(SyncTables(tables, bs), block.clientNo), BlockTable(block))
    ensures ClientSynced(a, c, tables, bs + [block])
  {
    hide ReplaceTrack, SyncTables;
    assert (bs + [block])[..|bs|] == bs;
    forall k ensures c.At(k) == ClientSyncTrack(a.At(k), tables, k, bs + [block]) {
      assert b.At(k) == ClientSyncTrack(a.At(k), tables, k, bs);
    }
  }

  // ---------------------------------------------------------------- clearing

  /** `m` without one client's keys. */
  function WithoutKeys<V>(m: map<ClientKey, V>, clientNo: int): map<ClientKey, V> {
    map k | k in m && k.clientNo != clientNo :: m[k]
  }

  /** The erasing loops of clear_pending_for_client. */
  function WithoutClient(l: Lane<ClientKey>, clientNo: int): (r: Lane<ClientKey>)
    ensures forall k :: r.At(k) == if k.clientNo == clientNo then FRESH else l.At(k)
  {
    Lane(WithoutKeys(l.lastSent, clientNo), WithoutKeys(l.nextAllowed, clientNo), WithoutKeys(l.pending, clientNo),
         WithoutKeys(l.due, clientNo), WithoutKeys(l.evidence, clientNo), WithoutKeys(l.intent, clientNo))
  }

  lemma WithoutClientKeepsLane(l: Lane<ClientKey>, clientNo: int, clock: real)
    requires LaneInv(l, clock)
    ensures LaneInv(WithoutClient(l, clientNo), clock)
  {
    forall k ensures Inv(WithoutClient(l, clientNo).At(k), clock) {
      assert Inv(l.At(k), clock);
    }
  }
}
