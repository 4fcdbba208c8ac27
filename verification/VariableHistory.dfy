/**
The events that each variable of one kind has been through, and the proof that its maps
(module DebounceLane) are what a run of those events (module Debounce) leaves. So everything
that holds for every run holds for every variable of a manager.
*/
module VariableHistory {
  import opened Bytes
  import opened Debounce
  import opened DebounceLane
  import opened Dedupe
  import opened Snapshots

  /** Every key's maps are those of a run of its history, none of which is later than `clock`. */
  ghost predicate Recorded<K(!new)>(l: Lane<K>, h: K -> seq<Event>, clock: real) {
    forall k :: RecordedAt(l, h, clock, k)
  }

  ghost predicate RecordedAt<K(!new)>(l: Lane<K>, h: K -> seq<Event>, clock: real, k: K) {
    l.At(k) == Run(h(k)) && Timed(h(k)) && Before(h(k), clock)
  }

  lemma RecordedLater<K(!new)>(l: Lane<K>, h: K -> seq<Event>, clock: real, later: real)
    requires Recorded(l, h, clock) && clock <= later
    ensures Recorded(l, h, later)
  {
    forall k ensures RecordedAt(l, h, later, k) {
      assert RecordedAt(l, h, clock, k);
    }
  }

  lemma RunAppends(es: seq<Event>, e: Event)
    ensures Run(es + [e]) == Step(Run(es), e)
  {
    assert (es + [e])[..|es|] == es;
  }

  lemma TimeAppends(es: seq<Event>, e: Event, clock: real, now: real)
    requires Timed(es) && Before(es, clock) && clock <= now && (HasTime(e) ==> e.now == now)
    ensures Timed(es + [e]) && Before(es + [e], now)
  {
  }

  // ---------------------------------------------------------------- sets and flushes

  ghost function With<K>(h: K -> seq<Event>, k: K, e: Event): K -> seq<Event> {
    j => if j == k then h(j) + [e] else h(j)
  }

  lemma RecordSet<K(!new)>(a: Lane<K>, b: Lane<K>, h: K -> seq<Event>, k: K, clock: real, now: real, value: Text, accept: bool)
    requires Recorded(a, h, clock) && clock <= now && Moved(a, b, k, SetStep(a.At(k), now, value, accept))
    ensures Recorded(b, With(h, k, Set(now, value, accept)), now)
  {
    hide Run, SetStep, Timed, Before;
    var g := With(h, k, Set(now, value, accept));
    RecordedLater(a, h, clock, now);
    forall j ensures RecordedAt(b, g, now, j) {
      assert RecordedAt(a, h, clock, j) && RecordedAt(a, h, now, j);
      if j == k {
        RunAppends(h(k), Set(now, value, accept));
        TimeAppends(h(k), Set(now, value, accept), clock, now);
      }
    }
  }

  ghost function WithFlush<K>(h: K -> seq<Event>, now: real, accept: set<K>): K -> seq<Event> {
    k => h(k) + [Flush(now, k in accept)]
  }

  lemma RecordFlush<K(!new)>(a: Lane<K>, b: Lane<K>, h: K -> seq<Event>, clock: real, now: real, accept: set<K>)
    requires Recorded(a, h, clock) && clock <= now && Flushed(a, b, now, accept)
    ensures Recorded(b, WithFlush(h, now, accept), now)
  {
    hide Run, FlushStep, Timed, Before;
    forall k ensures RecordedAt(b, WithFlush(h, now, accept), now, k) {
      assert RecordedAt(a, h, clock, k);
      RunAppends(h(k), Flush(now, k in accept));
      TimeAppends(h(k), Flush(now, k in accept), clock, now);
    }
  }

  // ---------------------------------------------------------------- snapshots

  /** The entries of a global snapshot that concern `name`. */
  ghost function GlobalEvents(name: Text, es: seq<Entry>): seq<Event> {
    if es == [] then []
    else
      var front, e := GlobalEvents(name, es[..|es| - 1]), es[|es| - 1];
      if e.name == name && name != [] then front + [GlobalSync(e.value)] else front
  }

  lemma {:induction false} GlobalEventsRun(h: seq<Event>, name: Text, es: seq<Entry>, clock: real)
    requires Timed(h) && Before(h, clock)
    ensures Run(h + GlobalEvents(name, es)) == GlobalSyncTrack(Run(h), name, es)
    ensures Timed(h + GlobalEvents(name, es)) && Before(h + GlobalEvents(name, es), clock)
    ensures GlobalOnly(h) ==> GlobalOnly(h + GlobalEvents(name, es))
  {
    hide Run, GlobalSyncStep, Timed, Before;
    if es == [] {
      assert h + [] == h;
    } else {
      var front, e := es[..|es| - 1], es[|es| - 1];
      GlobalEventsRun(h, name, front, clock);
      if e.name == name && name != [] {
        var all := h + GlobalEvents(name, front);
        assert h + GlobalEvents(name, es) == all + [GlobalSync(e.value)];
        RunAppends(all, GlobalSync(e.value));
        TimeAppends(all, GlobalSync(e.value), clock, clock);
      }
    }
  }

  ghost function WithGlobalSync(h: Text -> seq<Event>, es: seq<Entry>): Text -> seq<Event> {
    name => h(name) + GlobalEvents(name, es)
  }

  lemma RecordGlobalSync(a: Lane<Text>, b: Lane<Text>, h: Text -> seq<Event>, es: seq<Entry>, clock: real)
    requires Recorded(a, h, clock) && GlobalSynced(a, b, es)
    ensures Recorded(b, WithGlobalSync(h, es), clock)
    ensures (forall n :: GlobalOnly(h(n))) ==> forall n :: GlobalOnly(WithGlobalSync(h, es)(n))
  {
    hide Run, GlobalSyncTrack, Timed, Before, GlobalOnly, GlobalEvents;
    forall n
      ensures RecordedAt(b, WithGlobalSync(h, es), clock, n)
      ensures GlobalOnly(h(n)) ==> GlobalOnly(WithGlobalSync(h, es)(n))
    {
      assert RecordedAt(a, h, clock, n);
      assert b.At(n) == GlobalSyncTrack(a.At(n), n, es);
      GlobalEventsRun(h(n), n, es, clock);
    }
  }

  ghost function ReplaceEvents(prior: Table, next: Table, name: Text): seq<Event> {
    if name in next then [ClientReport(next[name])] else if name in prior then [ClientRemove] else []
  }

  /** The blocks of a client snapshot that concern `key`. */
  ghost function ClientEvents(tables: map<int, Table>, key: ClientKey, bs: seq<Block>): seq<Event> {
    if bs == [] then []
    else
      var before, b := bs[..|bs| - 1], bs[|bs| - 1];
      ClientEvents(tables, key, before) +
      if b.clientNo != key.clientNo then []
      else ReplaceEvents(TableOf(SyncTables(tables, before), key.clientNo), BlockTable(b), key.name)
  }

  lemma ReplaceRuns(h: seq<Event>, prior: Table, next: Table, name: Text, clock: real)
    requires Timed(h) && Before(h, clock)
    ensures Run(h + ReplaceEvents(prior, next, name)) == ReplaceTrack(Run(h), prior, next, name)
    ensures Timed(h + ReplaceEvents(prior, next, name)) && Before(h + ReplaceEvents(prior, next, name), clock)
  {
    hide Run, ClientReportStep, ClientRemoveStep, Timed, Before;
    var events := ReplaceEvents(prior, next, name);
    if events == [] {
      assert h + [] == h;
    } else {
      RunAppends(h, events[0]);
      TimeAppends(h, events[0], clock, clock);
    }
  }

  lemma {:induction false} ClientEventsRun(h: seq<Event>, tables: map<int, Table>, key: ClientKey, bs: seq<Block>, clock: real)
    requires Timed(h) && Before(h, clock)
    ensures Run(h + ClientEvents(tables, key, bs)) == ClientSyncTrack(Run(h), tables, key, bs)
    ensures Timed(h + ClientEvents(tables, key, bs)) && Before(h + ClientEvents(tables, key, bs), clock)
  {
    hide Run, ReplaceTrack, ReplaceEvents, Timed, Before, SyncTables, BlockTable;
    if bs == [] {
      assert h + [] == h;
    } else {
      var before, b := bs[..|bs| - 1], bs[|bs| - 1];
      ClientEventsRun(h, tables, key, before, clock);
      var all := h + ClientEvents(tables, key, before);
      if b.clientNo != key.clientNo {
        assert h + ClientEvents(tables, key, bs) == all;
      } else {
        var prior, next := TableOf(SyncTables(tables, before), key.clientNo), BlockTable(b);
        assert h + ClientEvents(tables, key, bs) == all + ReplaceEvents(prior, next, key.name);
        ReplaceRuns(all, prior, next, key.name, clock);
      }
    }
  }

  ghost function WithClientSync(h: ClientKey -> seq<Event>, tables: map<int, Table>, bs: seq<Block>): ClientKey -> seq<Event> {
    key => h(key) + ClientEvents(tables, key, bs)
  }

  lemma RecordClientSync(a: Lane<ClientKey>, b: Lane<ClientKey>, h: ClientKey -> seq<Event>, tables: map<int, Table>,
                         bs: seq<Block>, clock: real)
    requires Recorded(a, h, clock) && ClientSynced(a, b, tables, bs)
    ensures Recorded(b, WithClientSync(h, tables, bs), clock)
  {
    hide Run, ClientSyncTrack, Timed, Before, ClientEvents;
    forall k ensures RecordedAt(b, WithClientSync(h, tables, bs), clock, k) {
      assert RecordedAt(a, h, clock, k);
      assert b.At(k) == ClientSyncTrack(a.At(k), tables, k, bs);
      ClientEventsRun(h(k), tables, k, bs, clock);
    }
  }

  // ---------------------------------------------------------------- clears

  ghost function WithClear<K>(h: K -> seq<Event>, cleared: K -> bool): K -> seq<Event> {
    k => if cleared(k) then h(k) + [Clear] else h(k)
  }

  lemma RecordClear<K(!new)>(a: Lane<K>, b: Lane<K>, h: K -> seq<Event>, cleared: K -> bool, clock: real)
    requires Recorded(a, h, clock) && forall k :: b.At(k) == if cleared(k) then FRESH else a.At(k)
    ensures Recorded(b, WithClear(h, cleared), clock)
  {
    hide Run, Timed, Before;
    forall k ensures RecordedAt(b, WithClear(h, cleared), clock, k) {
      assert RecordedAt(a, h, clock, k);
      RunAppends(h(k), Clear);
      TimeAppends(h(k), Clear, clock, clock);
    }
  }

  // ---------------------------------------------------------------- the table and the history

  /** The value of the latest global snapshot entry in a history, clears or not. */
  function LatestNews(h: seq<Event>): Option<Text> {
    if h == [] then None
    else if h[|h| - 1].GlobalSync? then Some(h[|h| - 1].value)
    else LatestNews(h[..|h| - 1])
  }

  /** The table of globals holds exactly what the latest snapshot entries brought. */
  ghost predicate TableIsNews(table: Table, h: Text -> seq<Event>) {
    forall name :: Lookup(table, name) == LatestNews(h(name))
  }

  lemma NewsAppends(h: seq<Event>, e: Event)
    ensures LatestNews(h + [e]) == if e.GlobalSync? then Some(e.value) else LatestNews(h)
  {
    assert (h + [e])[..|h|] == h;
  }

  lemma NewsWith(table: Table, h: Text -> seq<Event>, name: Text, e: Event)
    requires TableIsNews(table, h) && !e.GlobalSync?
    ensures TableIsNews(table, With(h, name, e))
  {
    forall n ensures Lookup(table, n) == LatestNews(With(h, name, e)(n)) {
      NewsAppends(h(n), e);
    }
  }

  lemma NewsWithFlush(table: Table, h: Text -> seq<Event>, now: real, accept: set<Text>)
    requires TableIsNews(table, h)
    ensures TableIsNews(table, WithFlush(h, now, accept))
  {
    forall n ensures Lookup(table, n) == LatestNews(WithFlush(h, now, accept)(n)) {
      NewsAppends(h(n), Flush(now, n in accept));
    }
  }

  lemma NewsWithClear(table: Table, h: Text -> seq<Event>, cleared: Text -> bool)
    requires TableIsNews(table, h)
    ensures TableIsNews(table, WithClear(h, cleared))
  {
    forall n ensures Lookup(table, n) == LatestNews(WithClear(h, cleared)(n)) {
      NewsAppends(h(n), Clear);
    }
  }

  lemma {:induction false} NewsOfEntries(table: Table, h: seq<Event>, name: Text, es: seq<Entry>)
    requires Lookup(table, name) == LatestNews(h)
    ensures Lookup(SyncTable(table, es), name) == LatestNews(h + GlobalEvents(name, es)) || name == []
    ensures name == [] ==> GlobalEvents(name, es) == [] && Lookup(SyncTable(table, es), name) == Lookup(table, name)
  {
    if es == [] {
      assert h + [] == h;
    } else {
      var front, e := es[..|es| - 1], es[|es| - 1];
      NewsOfEntries(table, h, name, front);
      if e.name == name && name != [] {
        assert h + GlobalEvents(name, es) == (h + GlobalEvents(name, front)) + [GlobalSync(e.value)];
        NewsAppends(h + GlobalEvents(name, front), GlobalSync(e.value));
      }
    }
  }

  lemma NewsWithGlobalSync(table: Table, h: Text -> seq<Event>, es: seq<Entry>)
    requires TableIsNews(table, h)
    ensures TableIsNews(SyncTable(table, es), WithGlobalSync(h, es))
  {
    hide SyncTable, GlobalEvents;
    forall n ensures Lookup(SyncTable(table, es), n) == LatestNews(WithGlobalSync(h, es)(n)) {
      NewsOfEntries(table, h(n), n, es);
      assert h(n) + [] == h(n);
    }
  }

  /** A message carried `v` after the latest snapshot entry of the history. */
  ghost predicate SentSinceNews(h: seq<Event>, v: Text) {
    exists i :: 0 <= i < |h| && SendAt(h, i).Some? && SendAt(h, i).value.value == v
             && forall j :: i < j < |h| ==> !h[j].GlobalSync?
  }

  lemma {:induction false} NewsIsAt(h: seq<Event>, i: nat)
    requires i < |h| && h[i].GlobalSync?
    ensures LatestNews(h).Some?
    ensures exists k :: i <= k < |h| && h[k] == GlobalSync(LatestNews(h).value)
  {
    var n := |h| - 1;
    if !h[n].GlobalSync? {
      NewsIsAt(h[..n], i);
      var k :| i <= k < n && h[..n][k] == GlobalSync(LatestNews(h[..n]).value);
      assert h[k] == GlobalSync(LatestNews(h).value);
    }
  }

  lemma NewsContradicts(h: seq<Event>, j: nat, v: Text)
    requires j < |h| && h[j].GlobalSync? && LatestNews(h) != Some(v)
    ensures exists k :: j <= k < |h| && !Allows(h, k, v)
  {
    NewsIsAt(h, j);
    var k :| j <= k < |h| && h[k] == GlobalSync(LatestNews(h).value);
    assert !Allows(h, k, v);
  }

  /**
  The server's table shows another value than the one that is set: it is pending, or a message
  with it went out after the latest snapshot entry.
  */
  lemma SetOverNewsIsKept(h: seq<Event>, now: real, v: Text, accept: bool)
    requires GlobalOnly(h) && LatestNews(h).Some? && LatestNews(h).value != v
    ensures Run(h + [Set(now, v, accept)]).pending == Some(v) || SentSinceNews(h, v)
  {
    hide SendAt;
    if OnServer(h, v) {
      var i :| 0 <= i < |h| && Tells(h, i, v) && forall j :: i < j < |h| ==> Allows(h, j, v);
      assert !h[i].ClientReport?;
      forall j | i < j < |h|
        ensures !h[j].GlobalSync?
      {
        if h[j].GlobalSync? {
          NewsContradicts(h, j, v);
        }
      }
    } else {
      NewValueIsPending(h, now, v, accept);
    }
  }
}
