/**
Variable tables and the change lists that incoming snapshots produce
(handle_global_sync and handle_client_sync in src/core/network_variable_manager.cpp).
*/
module Snapshots {
  import opened Bytes

  type Table = map<Text, Text>

  datatype Entry = Entry(name: Text, value: Text)

  /** One client's authoritative block of a client-variable sync. */
  datatype Block = Block(clientNo: int, entries: seq<Entry>)

  /** VariableChange. */
  datatype Change = Change(
    clientNo: int, name: Text, oldValue: Text, newValue: Text, hadOldValue: bool, removed: bool)

  function TableOf(tables: map<int, Table>, clientNo: int): Table {
    if clientNo in tables then tables[clientNo] else map[]
  }

  // ---------------------------------------------------------------- meaning of a change list

  function Apply(table: Table, c: Change): Table {
    if c.removed then table - {c.name} else table[c.name := c.newValue]
  }

  /** `table` after the changes, in order. */
  function Replay(table: Table, cs: seq<Change>): Table {
    if cs == [] then table else Apply(Replay(table, cs[..|cs| - 1]), cs[|cs| - 1])
  }

  function ReplayClients(tables: map<int, Table>, cs: seq<Change>): map<int, Table> {
    if cs == [] then tables
    else
      var before, c := ReplayClients(tables, cs[..|cs| - 1]), cs[|cs| - 1];
      before[c.clientNo := Apply(TableOf(before, c.clientNo), c)]
  }

  /** The change tells the truth about `table` and does alter it. */
  predicate Honest(table: Table, c: Change) {
    && c.hadOldValue == (c.name in table)
    && c.oldValue == (if c.name in table then table[c.name] else [])
    && (if c.removed then c.hadOldValue && c.newValue == []
        else c.name !in table || table[c.name] != c.newValue)
  }

  /** Every change is honest about the table that the changes before it leave. */
  predicate HonestRun(table: Table, cs: seq<Change>) {
    cs == [] || (HonestRun(table, cs[..|cs| - 1]) && Honest(Replay(table, cs[..|cs| - 1]), cs[|cs| - 1]))
  }

  predicate HonestClients(tables: map<int, Table>, cs: seq<Change>) {
    cs == [] ||
    var before, c := ReplayClients(tables, cs[..|cs| - 1]), cs[|cs| - 1];
    HonestClients(tables, cs[..|cs| - 1]) && Honest(TableOf(before, c.clientNo), c)
  }

  lemma ReplayAppends(table: Table, cs: seq<Change>, c: Change)
    ensures Replay(table, cs + [c]) == Apply(Replay(table, cs), c)
    ensures HonestRun(table, cs + [c]) <==> HonestRun(table, cs) && Honest(Replay(table, cs), c)
  {
    assert (cs + [c])[..|cs|] == cs;
  }

  // ---------------------------------------------------------------- global snapshots

  function SyncEntry(table: Table, e: Entry): Table {
    if e.name == [] then table else table[e.name := e.value]
  }

  /** A global snapshot only adds and overwrites; later entries win. */
  function SyncTable(table: Table, es: seq<Entry>): Table {
    if es == [] then table else SyncEntry(SyncTable(table, es[..|es| - 1]), es[|es| - 1])
  }

  function EntryChange(table: Table, e: Entry): seq<Change> {
    if e.name == [] || Lookup(table, e.name) == Some(e.value) then []
    else
      var had := e.name in table;
      [Change(0, e.name, if had then table[e.name] else [], e.value, had, false)]
  }

  /** The changes handle_global_sync reports for `es`. */
  function GlobalChanges(table: Table, es: seq<Entry>): seq<Change> {
    if es == [] then []
    else GlobalChanges(table, es[..|es| - 1]) + EntryChange(SyncTable(table, es[..|es| - 1]), es[|es| - 1])
  }

  /** The table half of one handle_global_sync entry. */
  method AdoptEntry(table: Table, e: Entry) returns (next: Table, changes: seq<Change>)
    requires e.name != []
    ensures next == SyncEntry(table, e) && changes == EntryChange(table, e)
  {
    var hadOld := e.name in table;
    if hadOld && table[e.name] == e.value {
      assert table == table[e.name := e.value];
      return table, [];
    }
    changes := [Change(0, e.name, if hadOld then table[e.name] else [], e.value, hadOld, false)];
    next := table[e.name := e.value];
  }

  lemma SyncStarts(table: Table)
    ensures SyncTable(table, []) == table && GlobalChanges(table, []) == []
  {
  }

  lemma SyncAppends(table: Table, es: seq<Entry>, e: Entry)
    ensures SyncTable(table, es + [e]) == SyncEntry(SyncTable(table, es), e)
    ensures GlobalChanges(table, es + [e]) == GlobalChanges(table, es) + EntryChange(SyncTable(table, es), e)
  {
    assert (es + [e])[..|es|] == es;
  }

  /** Replaying the reported changes over the old table gives the new one, and none is trivial. */
  lemma {:induction false} GlobalChangesAreExact(table: Table, es: seq<Entry>)
    ensures Replay(table, GlobalChanges(table, es)) == SyncTable(table, es)
    ensures HonestRun(table, GlobalChanges(table, es))
  {
    if es != [] {
      var front, last := es[..|es| - 1], es[|es| - 1];
      GlobalChangesAreExact(table, front);
      EntryChangeIsExact(SyncTable(table, front), last);
      var before, cs := GlobalChanges(table, front), EntryChange(SyncTable(table, front), last);
      assert GlobalChanges(table, es) == before + cs;
      if cs == [] {
        assert before + cs == before;
      } else {
        ReplayAppends(table, before, cs[0]);
      }
    }
  }

  lemma EntryChangeIsExact(table: Table, e: Entry)
    ensures var cs := EntryChange(table, e);
            || (cs == [] && SyncEntry(table, e) == table)
            || (cs == [cs[0]] && Honest(table, cs[0]) && Apply(table, cs[0]) == SyncEntry(table, e))
  {
  }

  /** A global snapshot reports changes under client number 0, removes nothing, and reports only what it lists. */
  lemma {:induction false} GlobalChangesAreListed(table: Table, es: seq<Entry>, i: nat) returns (j: nat)
    requires i < |GlobalChanges(table, es)|
    ensures var c := GlobalChanges(table, es)[i];
            c.clientNo == 0 && !c.removed && j < |es| && es[j] == Entry(c.name, c.newValue)
  {
    var front := es[..|es| - 1];
    var before := GlobalChanges(table, front);
    if i < |before| {
      j := GlobalChangesAreListed(table, front, i);
    } else {
      j := |es| - 1;
    }
  }

  /** What a snapshot leaves at a name, read off its entries alone: the last one wins. */
  lemma {:induction false} LastEntryWins(table: Table, es: seq<Entry>, i: nat)
    requires i < |es| && es[i].name != []
    requires forall j :: i < j < |es| ==> es[j].name != es[i].name
    ensures Lookup(SyncTable(table, es), es[i].name) == Some(es[i].value)
  {
    if i < |es| - 1 {
      LastEntryWins(table, es[..|es| - 1], i);
    }
  }

  lemma {:induction false} UnlistedStays(table: Table, es: seq<Entry>, name: Text)
    requires name == [] || forall i :: 0 <= i < |es| ==> es[i].name != name
    ensures Lookup(SyncTable(table, es), name) == Lookup(table, name)
  {
    if es != [] {
      UnlistedStays(table, es[..|es| - 1], name);
    }
  }

  // ---------------------------------------------------------------- client snapshots

  /** A block replaces the client's whole table. */
  function BlockTable(b: Block): Table {
    SyncTable(map[], b.entries)
  }

  function SyncTables(tables: map<int, Table>, bs: seq<Block>): map<int, Table> {
    if bs == [] then tables
    else SyncTables(tables, bs[..|bs| - 1])[bs[|bs| - 1].clientNo := BlockTable(bs[|bs| - 1])]
  }

  predicate Mentions(cs: seq<Change>, name: Text) {
    exists i :: 0 <= i < |cs| && cs[i].name == name
  }

  /** `cs` is the difference between two tables: each differing name once, and nothing else. */
  ghost predicate IsDiff(clientNo: int, prior: Table, next: Table, cs: seq<Change>) {
    && Replay(prior, cs) == next
    && HonestRun(prior, cs)
    && (forall i :: 0 <= i < |cs| ==> cs[i].clientNo == clientNo)
    && (forall i, j :: 0 <= i < j < |cs| ==> cs[i].name != cs[j].name)
    && (forall n :: Mentions(cs, n) <==> Lookup(prior, n) != Lookup(next, n))
  }

  lemma DiffStarts(clientNo: int, table: Table)
    ensures IsDiff(clientNo, table, table, [])
  {
  }

  /** A diff grows by one honest change at a name that agreed so far. */
  lemma DiffExtends(clientNo: int, prior: Table, now: Table, cs: seq<Change>, c: Change)
    requires IsDiff(clientNo, prior, now, cs)
    requires c.clientNo == clientNo && Honest(now, c) && Lookup(prior, c.name) == Lookup(now, c.name)
    ensures IsDiff(clientNo, prior, Apply(now, c), cs + [c])
  {
    var all := cs + [c];
    ReplayAppends(prior, cs, c);
    assert !Mentions(cs, c.name);
    forall n ensures Mentions(all, n) <==> Lookup(prior, n) != Lookup(Apply(now, c), n) {
      if n == c.name {
        assert all[|cs|].name == n;
      } else if Mentions(cs, n) {
        var i :| 0 <= i < |cs| && cs[i].name == n;
        assert all[i].name == n;
      }
    }
  }

  /** The change list of clear_my_client_variables: every name removed. */
  method RemoveAll(clientNo: int, table: Table) returns (changes: seq<Change>)
    ensures IsDiff(clientNo, table, map[], changes)
  {
    hide IsDiff;
    changes := [];
    var left := table;
    DiffStarts(clientNo, table);
    while left.Keys != {}
      invariant left.Keys <= table.Keys && forall n :: n in left ==> left[n] == table[n]
      invariant IsDiff(clientNo, table, left, changes)
      decreases |left.Keys|
    {
      var name :| name in left.Keys;
      var change := Change(clientNo, name, table[name], [], true, true);
      DiffExtends(clientNo, table, left, changes, change);
      changes := changes + [change];
      left := left - {name};
    }
  }

  /** A diff of one client acts on that client's table only. */
  lemma {:induction false} DiffOfOneClient(tables: map<int, Table>, clientNo: int, cs: seq<Change>, other: int)
    requires forall i :: 0 <= i < |cs| ==> cs[i].clientNo == clientNo
    requires HonestRun(TableOf(tables, clientNo), cs)
    ensures TableOf(ReplayClients(tables, cs), clientNo) == Replay(TableOf(tables, clientNo), cs)
    ensures other != clientNo ==> TableOf(ReplayClients(tables, cs), other) == TableOf(tables, other)
    ensures HonestClients(tables, cs)
  {
    if cs != [] {
      DiffOfOneClient(tables, clientNo, cs[..|cs| - 1], other);
    }
  }

  /** The two table families give every client the same variables. */
  ghost predicate Agree(a: map<int, Table>, b: map<int, Table>) {
    forall c :: TableOf(a, c) == TableOf(b, c)
  }

  lemma {:induction false} ReplayAgrees(a: map<int, Table>, b: map<int, Table>, cs: seq<Change>)
    requires Agree(a, b)
    ensures Agree(ReplayClients(a, cs), ReplayClients(b, cs))
    ensures HonestClients(a, cs) == HonestClients(b, cs)
  {
    if cs != [] {
      ReplayAgrees(a, b, cs[..|cs| - 1]);
      var x, y := ReplayClients(a, cs[..|cs| - 1]), ReplayClients(b, cs[..|cs| - 1]);
      var c := cs[|cs| - 1];
      assert TableOf(x, c.clientNo) == TableOf(y, c.clientNo);
      forall other ensures TableOf(ReplayClients(a, cs), other) == TableOf(ReplayClients(b, cs), other) {
        assert TableOf(x, other) == TableOf(y, other);
      }
    }
  }

  lemma {:induction false} ReplayConcatenates(tables: map<int, Table>, cs: seq<Change>, ds: seq<Change>)
    ensures ReplayClients(tables, cs + ds) == ReplayClients(ReplayClients(tables, cs), ds)
    ensures HonestClients(tables, cs + ds) <==> HonestClients(tables, cs) && HonestClients(ReplayClients(tables, cs), ds)
  {
    if ds == [] {
      assert cs + ds == cs;
    } else {
      assert (cs + ds)[..|cs + ds| - 1] == cs + ds[..|ds| - 1];
      ReplayConcatenates(tables, cs, ds[..|ds| - 1]);
    }
  }

  lemma DiffReaches(tables: map<int, Table>, clientNo: int, next: Table, diff: seq<Change>)
    requires IsDiff(clientNo, TableOf(tables, clientNo), next, diff)
    ensures Agree(ReplayClients(tables, diff), tables[clientNo := next])
    ensures HonestClients(tables, diff)
  {
    forall c ensures TableOf(ReplayClients(tables, diff), c) == TableOf(tables[clientNo := next], c) {
      DiffOfOneClient(tables, clientNo, diff, c);
    }
    DiffOfOneClient(tables, clientNo, diff, clientNo);
  }

  lemma AgreeReflexive(a: map<int, Table>)
    ensures Agree(a, a)
  {
  }

  lemma AgreeTransitive(a: map<int, Table>, b: map<int, Table>, c: map<int, Table>)
    requires Agree(a, b) && Agree(b, c)
    ensures Agree(a, c)
  {
    forall n ensures TableOf(a, n) == TableOf(c, n) {
      assert TableOf(a, n) == TableOf(b, n);
    }
  }

  /** A change list that is exact so far stays exact when the next block's diff is appended. */
  lemma BlockExtends(prior: map<int, Table>, tables: map<int, Table>, cs: seq<Change>,
                     clientNo: int, next: Table, diff: seq<Change>)
    requires Agree(ReplayClients(prior, cs), tables) && HonestClients(prior, cs)
    requires IsDiff(clientNo, TableOf(tables, clientNo), next, diff)
    ensures Agree(ReplayClients(prior, cs + diff), tables[clientNo := next])
    ensures HonestClients(prior, cs + diff)
  {
    ReplayConcatenates(prior, cs, diff);
    ReplayAgrees(ReplayClients(prior, cs), tables, diff);
    DiffReaches(tables, clientNo, next, diff);
    AgreeTransitive(ReplayClients(prior, cs + diff), ReplayClients(tables, diff), tables[clientNo := next]);
  }

  /** The last block of a client decides its table. */
  lemma {:induction false} LastBlockWins(tables: map<int, Table>, bs: seq<Block>, i: nat)
    requires i < |bs| && forall j :: i < j < |bs| ==> bs[j].clientNo != bs[i].clientNo
    ensures Lookup(SyncTables(tables, bs), bs[i].clientNo) == Some(BlockTable(bs[i]))
  {
    if i < |bs| - 1 {
      LastBlockWins(tables, bs[..|bs| - 1], i);
    }
  }

  /** Clients that no block names keep their variables. */
  lemma {:induction false} UnnamedClientStays(tables: map<int, Table>, bs: seq<Block>, clientNo: int)
    requires forall i :: 0 <= i < |bs| ==> bs[i].clientNo != clientNo
    ensures Lookup(SyncTables(tables, bs), clientNo) == Lookup(tables, clientNo)
  {
    if bs != [] {
      UnnamedClientStays(tables, bs[..|bs| - 1], clientNo);
    }
  }
}
