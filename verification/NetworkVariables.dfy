/**
NetworkVariableManager (src/core/network_variable_manager.cpp): the maps it keeps, changed in
place. Every operation is proved to move each key's track by exactly the steps of module
Debounce, and to keep the invariant that module proves for all runs, so the latest-intent and
send-rate results hold for every variable in every use of the manager.

The control sender is outside this model: a call is told what the sender accepts. Where the
program walks a `std::map`, the order is left open.
*/
module NetworkVariables {
  import opened Bytes
  import opened Debounce
  import opened DebounceLane
  import opened Snapshots
  import opened VariableHistory
  import Utf8

  const MAX_GLOBAL_VARS := 100
  const MAX_CLIENT_VARS := 100
  const MAX_NAME_CHARS := 64
  const MAX_VALUE_CHARS := 1024

  predicate ValidName(name: Text) {
    name != [] && Utf8.CodePoints(name) <= MAX_NAME_CHARS
  }

  predicate ValidValue(value: Text) {
    Utf8.CodePoints(value) <= MAX_VALUE_CHARS
  }

  /** validate_name and validate_value. */
  method Validate(name: Text, value: Text) returns (ok: bool)
    ensures ok <==> ValidName(name) && ValidValue(value)
    ensures ok <==> name != [] && Utf8.CodePoints(name) <= 64 && Utf8.CodePoints(value) <= 1024
  {
    var nameLength := Utf8.CodePointLength(name);
    var valueLength := Utf8.CodePointLength(value);
    ok := name != [] && nameLength <= MAX_NAME_CHARS && valueLength <= MAX_VALUE_CHARS;
  }

  class NetworkVariableManager {
    var globals: Table
    var clientVariables: map<int, Table>
    var localClientNo: int
    var hasReceivedInitialSync: bool

    /** lastSent, nextAllowed, pending and due of the global and of the client variables. */
    var globalLane: Lane<Text>
    var clientLane: Lane<ClientKey>

    /** The latest clock reading that any call has passed in. */
    ghost var clock: real

    /** What every variable has been through since the manager was made. */
    ghost var globalHistory: Text -> seq<Event>
    ghost var clientHistory: ClientKey -> seq<Event>

    ghost predicate Valid()
      reads this
    {
      && LaneInv(globalLane, clock) && LaneInv(clientLane, clock)
      && Recorded(globalLane, globalHistory, clock) && Recorded(clientLane, clientHistory, clock)
      && TableIsNews(globals, globalHistory)
      && forall name :: GlobalOnly(globalHistory(name))
    }

    constructor ()
      ensures Valid()
      ensures globals == map[] && clientVariables == map[] && !hasReceivedInitialSync
      ensures globalLane == Empty() && clientLane == Empty()
      ensures (forall name :: globalHistory(name) == []) && forall key :: clientHistory(key) == []
    {
      globals, clientVariables, localClientNo, hasReceivedInitialSync := map[], map[], 0, false;
      globalLane, clientLane := Empty(), Empty();
      clock := 0.0;
      globalHistory, clientHistory := name => [], key => [];
    }

    method SetGlobal(now: real, name: Text, value: Text, accept: bool) returns (ok: bool)
      requires Valid() && clock <= now
      modifies `globalLane, `clock, `globalHistory
      ensures Valid() && clock == now
      ensures globalHistory == if ok then With(old(globalHistory), name, Set(now, value, accept)) else old(globalHistory)
      ensures ok <==> ValidName(name) && ValidValue(value) && (|globals| < 100 || name in globals)
      ensures ok && name in globals && globals[name] != value ==>
                Lookup(globalLane.pending, name) == Some(value) || SentSinceNews(old(globalHistory)(name), value)
      ensures if ok
              then Moved(old(globalLane), globalLane, name, SetStep(old(globalLane).At(name), now, value, accept))
              else globalLane == old(globalLane)
    {
      hide LaneInv, SetStep, Recorded, GlobalOnly, TableIsNews, SentSinceNews;
      LaterLane(globalLane, clock, now);
      LaterLane(clientLane, clock, now);
      RecordedLater(globalLane, globalHistory, clock, now);
      RecordedLater(clientLane, clientHistory, clock, now);
      ok := Validate(name, value);
      ok := ok && !(|globals| >= MAX_GLOBAL_VARS && name !in globals);
      if ok {
        globalLane := SetVariable(globalLane, now, name, value, accept);
        SetKeepsLane(old(globalLane), globalLane, name, clock, now, value, accept);
        RecordSet(old(globalLane), globalLane, globalHistory, name, clock, now, value, accept);
        SetIsGlobal(globalHistory, name, Set(now, value, accept));
        NewsWith(globals, globalHistory, name, Set(now, value, accept));
        if name in globals && globals[name] != value {
          NewsAt(globals, globalHistory, name);
          SetOverNewsIsKept(globalHistory(name), now, value, accept);
          LaneIsRun(globalLane, With(globalHistory, name, Set(now, value, accept)), now, name);
        }
        globalHistory := With(globalHistory, name, Set(now, value, accept));
      }
      clock := now;
    }

    /** set_client. A valid name and value enter the target into the table family even when its table is full. */
    method SetClient(now: real, target: int, name: Text, value: Text, accept: bool) returns (ok: bool)
      requires Valid() && clock <= now
      modifies `clientVariables, `clientLane, `clock, `clientHistory
      ensures Valid() && clock == now
      ensures clientHistory == if ok then With(old(clientHistory), ClientKey(target, name), Set(now, value, accept))
                               else old(clientHistory)
      ensures Agree(clientVariables, old(clientVariables))
      ensures var table := TableOf(old(clientVariables), target);
              ok <==> ValidName(name) && ValidValue(value) && (|table| < 100 || name in table)
      ensures var key := ClientKey(target, name);
              if ok
              then Moved(old(clientLane), clientLane, key, SetStep(old(clientLane).At(key), now, value, accept))
              else clientLane == old(clientLane)
    {
      ok := Validate(name, value);
      if ok {
        if target !in clientVariables {
          clientVariables := clientVariables[target := map[]];
        }
        var variables := clientVariables[target];
        ok := !(|variables| >= MAX_CLIENT_VARS && name !in variables);
      }
      if ok {
        MoveClient(now, ClientKey(target, name), value, accept);
      } else {
        PassTime(now);
      }
    }

    /** The part of set_client after its checks. */
    method MoveClient(now: real, key: ClientKey, value: Text, accept: bool)
      requires Valid() && clock <= now
      modifies `clientLane, `clock, `clientHistory
      ensures Valid() && clock == now && clientHistory == With(old(clientHistory), key, Set(now, value, accept))
      ensures Moved(old(clientLane), clientLane, key, SetStep(old(clientLane).At(key), now, value, accept))
    {
      hide LaneInv, SetStep, Recorded, GlobalOnly, TableIsNews;
      LaterLane(globalLane, clock, now);
      RecordedLater(globalLane, globalHistory, clock, now);
      clientLane := SetVariable(clientLane, now, key, value, accept);
      SetKeepsLane(old(clientLane), clientLane, key, clock, now, value, accept);
      RecordSet(old(clientLane), clientLane, clientHistory, key, clock, now, value, accept);
      clientHistory := With(clientHistory, key, Set(now, value, accept));
      clock := now;
    }

    ghost method PassTime(now: real)
      requires Valid() && clock <= now
      modifies `clock
      ensures Valid() && clock == now
    {
      hide LaneInv, Recorded;
      LaterLane(globalLane, clock, now);
      LaterLane(clientLane, clock, now);
      RecordedLater(globalLane, globalHistory, clock, now);
      RecordedLater(clientLane, clientHistory, clock, now);
      clock := now;
    }

    /** Flush both lanes; true exactly when nothing overdue is left pending. */
    method Tick(now: real, acceptGlobal: set<Text>, acceptClient: set<ClientKey>) returns (ok: bool)
      requires Valid() && clock <= now
      modifies `globalLane, `clientLane, `clock, `globalHistory, `clientHistory
      ensures Valid() && clock == now
      ensures globalHistory == WithFlush(old(globalHistory), now, acceptGlobal)
      ensures clientHistory == WithFlush(old(clientHistory), now, acceptClient)
      ensures Flushed(old(globalLane), globalLane, now, acceptGlobal)
      ensures Flushed(old(clientLane), clientLane, now, acceptClient)
      ensures ok <==> NoneOverdue(globalLane, now, {}) && NoneOverdue(clientLane, now, {})
    {
      hide Inv, FlushStep, Recorded, GlobalOnly, TableIsNews;
      var globalOk, clientOk;
      globalLane, globalOk := FlushPending(globalLane, now, acceptGlobal);
      clientLane, clientOk := FlushPending(clientLane, now, acceptClient);
      FlushKeepsLane(old(globalLane), globalLane, clock, now, acceptGlobal);
      FlushKeepsLane(old(clientLane), clientLane, clock, now, acceptClient);
      RecordFlush(old(globalLane), globalLane, globalHistory, clock, now, acceptGlobal);
      RecordFlush(old(clientLane), clientLane, clientHistory, clock, now, acceptClient);
      FlushIsGlobal(globalHistory, now, acceptGlobal);
      NewsWithFlush(globals, globalHistory, now, acceptGlobal);
      globalHistory := WithFlush(globalHistory, now, acceptGlobal);
      clientHistory := WithFlush(clientHistory, now, acceptClient);
      clock := now;
      ok := globalOk && clientOk;
    }

    method HandleGlobalSync(entries: seq<Entry>) returns (changes: seq<Change>)
      requires Valid()
      modifies `globals, `globalLane, `globalHistory, `hasReceivedInitialSync
      ensures Valid() && hasReceivedInitialSync && globalHistory == WithGlobalSync(old(globalHistory), entries)
      ensures globals == SyncTable(old(globals), entries)
      ensures changes == GlobalChanges(old(globals), entries)
      ensures Replay(old(globals), changes) == globals && HonestRun(old(globals), changes)
      ensures forall i :: 0 <= i < |changes| ==> changes[i].clientNo == 0 && !changes[i].removed
      ensures GlobalSynced(old(globalLane), globalLane, entries)
    {
      hide Inv, GlobalSyncStep, GlobalSynced, HonestRun, Replay, SyncTable, GlobalChanges, Recorded, GlobalOnly, TableIsNews;
      hasReceivedInitialSync := true;
      changes := [];
      GlobalSyncStarts(globalLane);
      SyncStarts(globals);
      for i := 0 to |entries|
        invariant globalHistory == old(globalHistory) && hasReceivedInitialSync
        invariant globals == SyncTable(old(globals), entries[..i])
        invariant changes == GlobalChanges(old(globals), entries[..i])
        invariant GlobalSynced(old(globalLane), globalLane, entries[..i])
      {
        var e := entries[i];
        ghost var before := globalLane;
        assert entries[..i + 1] == entries[..i] + [e];
        SyncAppends(old(globals), entries[..i], e);
        if e.name != [] {
          globalLane := ReconcileGlobal(globalLane, e.name, e.value);
          var change;
          globals, change := AdoptEntry(globals, e);
          changes := changes + change;
        }
        GlobalSyncAdvances(old(globalLane), before, globalLane, entries[..i], e);
      }
      assert entries[..|entries|] == entries;
      GlobalChangesAreExact(old(globals), entries);
      forall i | 0 <= i < |changes|
        ensures changes[i].clientNo == 0 && !changes[i].removed
      {
        var _ := GlobalChangesAreListed(old(globals), entries, i);
      }
      GlobalSyncKeepsLane(old(globalLane), globalLane, entries, clock);
      RecordGlobalSync(old(globalLane), globalLane, globalHistory, entries, clock);
      NewsWithGlobalSync(old(globals), globalHistory, entries);
      globalHistory := WithGlobalSync(globalHistory, entries);
    }

    /** One block of handle_client_sync: the block becomes the client's whole table. */
    method ApplyBlock(block: Block) returns (changes: seq<Change>)
      modifies `clientVariables, `clientLane
      ensures clientVariables == old(clientVariables)[block.clientNo := BlockTable(block)]
      ensures IsDiff(block.clientNo, TableOf(old(clientVariables), block.clientNo), BlockTable(block), changes)
      ensures Replaced(old(clientLane), clientLane, block.clientNo,
                       TableOf(old(clientVariables), block.clientNo), BlockTable(block))
    {
      hide IsDiff, Replaced;
      var next: Table := map[];
      for i := 0 to |block.entries|
        invariant next == SyncTable(map[], block.entries[..i])
      {
        assert block.entries[..i + 1][..i] == block.entries[..i];
        if block.entries[i].name != [] {
          next := next[block.entries[i].name := block.entries[i].value];
        }
      }
      assert block.entries[..|block.entries|] == block.entries;
      var prior: Table := map[];
      if block.clientNo in clientVariables {
        prior := clientVariables[block.clientNo];
      }
      clientLane, changes := ReplaceTable(clientLane, block.clientNo, prior, next);
      clientVariables := clientVariables[block.clientNo := next];
    }

    method HandleClientSync(blocks: seq<Block>) returns (changes: seq<Change>)
      requires Valid()
      modifies `clientVariables, `clientLane, `clientHistory, `hasReceivedInitialSync
      ensures Valid() && hasReceivedInitialSync
      ensures clientHistory == WithClientSync(old(clientHistory), old(clientVariables), blocks)
      ensures clientVariables == SyncTables(old(clientVariables), blocks)
      ensures Agree(ReplayClients(old(clientVariables), changes), clientVariables)
      ensures HonestClients(old(clientVariables), changes)
      ensures ClientSynced(old(clientLane), clientLane, old(clientVariables), blocks)
    {
      hide Inv, IsDiff, Replaced, Agree, Honest, ClientSynced, Recorded, GlobalOnly;
      hasReceivedInitialSync := true;
      changes := [];
      AgreeReflexive(clientVariables);
      ClientSyncStarts(clientLane, clientVariables);
      for i := 0 to |blocks|
        invariant clientHistory == old(clientHistory) && hasReceivedInitialSync
        invariant LaneInv(clientLane, clock)
        invariant clientVariables == SyncTables(old(clientVariables), blocks[..i])
        invariant Agree(ReplayClients(old(clientVariables), changes), clientVariables)
        invariant HonestClients(old(clientVariables), changes)
        invariant ClientSynced(old(clientLane), clientLane, old(clientVariables), blocks[..i])
      {
        var b := blocks[i];
        ghost var before, tables := clientLane, clientVariables;
        assert blocks[..i + 1] == blocks[..i] + [b] && blocks[..i + 1][..i] == blocks[..i];
        var diff := ApplyBlock(b);
        ReplaceKeepsLane(before, clientLane, b.clientNo, TableOf(tables, b.clientNo), BlockTable(b), clock);
        ClientSyncAdvances(old(clientLane), before, clientLane, old(clientVariables), blocks[..i], b);
        BlockExtends(old(clientVariables), tables, changes, b.clientNo, BlockTable(b), diff);
        changes := changes + diff;
      }
      assert blocks[..|blocks|] == blocks;
      RecordClientSync(old(clientLane), clientLane, clientHistory, old(clientVariables), blocks, clock);
      clientHistory := WithClientSync(clientHistory, old(clientVariables), blocks);
    }

    // ---------------------------------------------------------------- clearing

    /** clear_pending_for_client: that client's variables start afresh, the others are untouched. */
    method ClearPendingForClient(clientNo: int)
      requires Valid()
      modifies `clientLane, `clientHistory
      ensures Valid() && clientHistory == WithClear(old(clientHistory), IsOf(clientNo))
      ensures forall k :: clientLane.At(k) == if k.clientNo == clientNo then FRESH else old(clientLane).At(k)
    {
      hide Inv, Recorded, GlobalOnly;
      clientLane := WithoutClient(clientLane, clientNo);
      WithoutClientKeepsLane(old(clientLane), clientNo, clock);
      RecordClear(old(clientLane), clientLane, clientHistory, IsOf(clientNo), clock);
      clientHistory := WithClear(clientHistory, IsOf(clientNo));
    }

    /** clear_my_client_variables: reports every variable of the local client as removed. */
    method ClearMyClientVariables(accept: bool) returns (ok: bool, changes: seq<Change>)
      requires Valid()
      modifies `clientVariables, `clientLane, `clientHistory
      ensures Valid()
      ensures clientHistory == if ok then WithClear(old(clientHistory), IsOf(localClientNo)) else old(clientHistory)
      ensures ok <==> localClientNo > 0 && accept
      ensures !ok ==> changes == [] && clientVariables == old(clientVariables) && clientLane == old(clientLane)
      ensures ok ==> IsDiff(localClientNo, TableOf(old(clientVariables), localClientNo), map[], changes)
      ensures ok ==> Agree(clientVariables, old(clientVariables)[localClientNo := map[]])
      ensures ok ==> forall k :: clientLane.At(k) ==
                       if k.clientNo == localClientNo then FRESH else old(clientLane).At(k)
    {
      hide IsDiff;
      if localClientNo <= 0 || !accept {
        return false, [];
      }
      ok, changes := true, [];
      DiffStarts(localClientNo, map[]);
      if localClientNo in clientVariables {
        changes := RemoveAll(localClientNo, clientVariables[localClientNo]);
        clientVariables := clientVariables[localClientNo := map[]];
      }
      ClearPendingForClient(localClientNo);
    }

    method ClearPendingSends()
      requires Valid()
      modifies `globalLane, `clientLane, `globalHistory, `clientHistory
      ensures Valid() && globalLane == Empty() && clientLane == Empty()
      ensures globalHistory == WithClear(old(globalHistory), name => true)
      ensures clientHistory == WithClear(old(clientHistory), key => true)
    {
      hide Recorded, GlobalOnly, TableIsNews;
      globalLane, clientLane := Empty(), Empty();
      RecordClear(old(globalLane), globalLane, globalHistory, name => true, clock);
      RecordClear(old(clientLane), clientLane, clientHistory, key => true, clock);
      ClearIsGlobal(globalHistory, name => true);
      NewsWithClear(globals, globalHistory, name => true);
      globalHistory := WithClear(globalHistory, name => true);
      clientHistory := WithClear(clientHistory, key => true);
    }

    // ---------------------------------------------------------------- what a host can rely on

    /**
    Whatever calls were made: the latest accepted value of a global variable is pending with a
    deadline, or nothing is pending and the last message sent for it carries that value.
    */
    lemma GlobalValueIsKept(name: Text)
      requires Valid() && LatestSet(globalHistory(name)).Some?
      ensures var v := LatestSet(globalHistory(name)).value.value;
              || (Lookup(globalLane.pending, name) == Some(v) && name in globalLane.due)
              || (name !in globalLane.pending && name !in globalLane.due && WireHolds(globalLane.At(name), v))
    {
      assert RecordedAt(globalLane, globalHistory, clock, name);
      GlobalLatestIntent(globalHistory(name));
      LatestIntentNeverLost(globalHistory(name));
    }

    /** A tick 100 ms or more after the latest set, with the sender accepting, settles the variable until the next set. */
    lemma GlobalValueSettles(name: Text, es: seq<Event>, now: real, quiet: seq<Event>)
      requires Valid() && globalHistory(name) == es + [Flush(now, true)] + quiet && Quiet(quiet)
      requires LatestSet(es).Some? && now >= LatestSet(es).value.now + 0.1
      ensures name !in globalLane.pending && name !in globalLane.due
      ensures WireHolds(globalLane.At(name), LatestSet(es).value.value)
    {
      assert RecordedAt(globalLane, globalHistory, clock, name);
      var all := globalHistory(name);
      assert GlobalOnly(all);
      WithoutOne(es, Flush(now, true), quiet);
      Settles(es, now, quiet);
    }

    /** For a client variable: pending, or nothing is pending and the latest value went out, exactly if nothing was shadowed. */
    lemma ClientValueIsKept(key: ClientKey)
      requires Valid() && LatestSet(clientHistory(key)).Some?
      ensures var h := clientHistory(key);
              WireLatest(clientLane.At(key)) <==> NoneShadowed(h, LatestSetIndex(h))
    {
      assert RecordedAt(clientLane, clientHistory, clock, key);
      WireLatestOverRuns(clientHistory(key));
    }

    /** No variable is sent more than twice in 100 ms between clears. */
    lemma RatesAreBounded(name: Text, key: ClientKey, a: nat, b: nat, start: real)
      requires Valid() && a <= b
      ensures var h := globalHistory(name); b <= |h| && Unbroken(h, a, b) ==> |SendsIn(h, a, b, start)| <= 2
      ensures var h := clientHistory(key); b <= |h| && Unbroken(h, a, b) ==> |SendsIn(h, a, b, start)| <= 2
    {
      assert RecordedAt(globalLane, globalHistory, clock, name) && RecordedAt(clientLane, clientHistory, clock, key);
      if b <= |globalHistory(name)| && Unbroken(globalHistory(name), a, b) {
        AtMostTwoPerWindow(globalHistory(name), a, b, start);
      }
      if b <= |clientHistory(key)| && Unbroken(clientHistory(key), a, b) {
        AtMostTwoPerWindow(clientHistory(key), a, b, start);
      }
    }
  }

  ghost function IsOf(clientNo: int): ClientKey -> bool {
    (key: ClientKey) => key.clientNo == clientNo
  }

  lemma NewsAt(table: Table, h: Text -> seq<Event>, name: Text)
    requires TableIsNews(table, h)
    ensures Lookup(table, name) == LatestNews(h(name))
  {
  }

  lemma LaneIsRun(l: Lane<Text>, h: Text -> seq<Event>, clock: real, name: Text)
    requires Recorded(l, h, clock)
    ensures Lookup(l.pending, name) == Run(h(name)).pending
  {
    assert RecordedAt(l, h, clock, name);
  }

  lemma SetIsGlobal(h: Text -> seq<Event>, name: Text, e: Event)
    requires (forall n :: GlobalOnly(h(n))) && e.Set?
    ensures forall n :: GlobalOnly(With(h, name, e)(n))
  {
  }

  lemma FlushIsGlobal(h: Text -> seq<Event>, now: real, accept: set<Text>)
    requires forall n :: GlobalOnly(h(n))
    ensures forall n :: GlobalOnly(WithFlush(h, now, accept)(n))
  {
  }

  lemma ClearIsGlobal(h: Text -> seq<Event>, cleared: Text -> bool)
    requires forall n :: GlobalOnly(h(n))
    ensures forall n :: GlobalOnly(WithClear(h, cleared)(n))
  {
  }

  lemma WithoutOne(es: seq<Event>, e: Event, quiet: seq<Event>)
    requires GlobalOnly(es + [e] + quiet)
    ensures GlobalOnly(es + quiet)
  {
    var all := es + [e] + quiet;
    forall i | 0 <= i < |es + quiet|
      ensures !(es + quiet)[i].ClientReport? && !(es + quiet)[i].ClientRemove?
    {
      assert (es + quiet)[i] == if i < |es| then all[i] else all[i + 1];
    }
  }
}
