/**
The session of module Presence read off its messages alone: which entry of a mapping counts,
which listing of a snapshot, and who is announced after any sequence of messages.
*/
module PresenceHistory {
  import opened Bytes
  import opened Presence

  // ---------------------------------------------------------------- one message

  /** The last entry for a number gives its device id and stealth flag; the last one for a device id its number. */
  lemma {:induction false} LastEntryCounts(entries: seq<Entry>, j: nat, localId: Text, was: nat)
    requires j < |entries|
    ensures var e := entries[j];
            && ((forall k :: j < k < |entries| ==> entries[k].clientNo != e.clientNo) ==>
                  Lookup(Devices(entries), e.clientNo) == Some(e.deviceId) && Lookup(Stealth(entries), e.clientNo) == Some(e.stealth))
            && ((forall k :: j < k < |entries| ==> entries[k].deviceId != e.deviceId) ==>
                  Lookup(Numbers(entries), e.deviceId) == Some(e.clientNo)
                  && (e.deviceId == localId != [] ==> LocalNumber(entries, localId, was) == e.clientNo))
  {
    var n := |entries| - 1;
    if j < n {
      LastEntryCounts(entries[..n], j, localId, was);
    }
  }

  /** Numbers and ids that are not listed are in no table; without the local id the local number stays. */
  lemma {:induction false} UnlistedHasNone(entries: seq<Entry>, c: nat, id: Text, localId: Text, was: nat)
    ensures (forall k :: 0 <= k < |entries| ==> entries[k].clientNo != c) ==> c !in Devices(entries) && c !in Stealth(entries)
    ensures (forall k :: 0 <= k < |entries| ==> entries[k].deviceId != id) ==> id !in Numbers(entries)
    ensures localId == [] || (forall k :: 0 <= k < |entries| ==> entries[k].deviceId != localId) ==>
              LocalNumber(entries, localId, was) == was
  {
    if entries != [] {
      var n := |entries| - 1;
      UnlistedHasNone(entries[..n], c, id, localId, was);
    }
  }

  /** The last listing of a client gives its pose; the local client, once known, has none. */
  lemma {:induction false} LastListingCounts(clients: seq<Listed>, j: nat, localNo: nat)
    requires j < |clients| && forall k :: j < k < |clients| ==> clients[k].clientNo != clients[j].clientNo
    ensures var l := clients[j];
            Lookup(Poses(clients, localNo), l.clientNo) == if l.clientNo == localNo != 0 then None else Some(l.pose)
  {
    var n := |clients| - 1;
    if clients[j].clientNo == localNo != 0 {
      LocalHasNoPose(clients, localNo);
    } else if j < n {
      LastListingCounts(clients[..n], j, localNo);
    }
  }

  lemma {:induction false} LocalHasNoPose(clients: seq<Listed>, localNo: nat)
    requires localNo != 0
    ensures localNo !in Poses(clients, localNo)
  {
    if clients != [] {
      LocalHasNoPose(clients[..|clients| - 1], localNo);
    }
  }

  // ---------------------------------------------------------------- whole sessions

  /** The snapshot lists the client, and it is not the local one. */
  predicate ShownIn(clients: seq<Listed>, c: nat, localNo: nat) {
    !(c == localNo != 0) && exists i :: 0 <= i < |clients| && clients[i].clientNo == c
  }

  lemma ShownIsAlive(clients: seq<Listed>, c: nat, localNo: nat)
    ensures c in Alive(clients, localNo) <==> ShownIn(clients, c, localNo)
  {
  }

  /** The latest mapping message that no reset has followed. */
  function LatestMapping(ms: seq<Message>): seq<Entry> {
    if ms == [] then []
    else
      match ms[|ms| - 1]
      case Mapping(entries) => entries
      case Reset => []
      case Room(_) => LatestMapping(ms[..|ms| - 1])
  }

  /** The local number: the one that the latest mapping with the local id gave it since the latest reset. */
  function LocalNumberOf(ms: seq<Message>, localId: Text): nat {
    if ms == [] then 0
    else
      match ms[|ms| - 1]
      case Mapping(entries) => LocalNumber(entries, localId, LocalNumberOf(ms[..|ms| - 1], localId))
      case Reset => 0
      case Room(_) => LocalNumberOf(ms[..|ms| - 1], localId)
  }

  /** Message `i` is a snapshot that shows the client. */
  predicate Shows(ms: seq<Message>, i: nat, c: nat, localId: Text)
    requires i < |ms|
  {
    ms[i].Room? && ShownIn(ms[i].clients, c, LocalNumberOf(ms[..i], localId))
  }

  /** From message `i` on no reset, and every snapshot shows the client. */
  predicate StaysFrom(ms: seq<Message>, i: nat, c: nat, localId: Text) {
    forall j :: i <= j < |ms| ==> !ms[j].Reset? && (ms[j].Room? ==> Shows(ms, j, c, localId))
  }

  /** The client has a device id when message `i` comes. */
  predicate KnownAt(ms: seq<Message>, i: nat, c: nat)
    requires i < |ms|
  {
    c in Devices(LatestMapping(ms[..i]))
  }

  /** Some snapshot showed the client while its device id was known, and it has been shown ever since. */
  ghost predicate ShouldBeAnnounced(ms: seq<Message>, c: nat, localId: Text) {
    exists i :: 0 <= i < |ms| && Shows(ms, i, c, localId) && KnownAt(ms, i, c) && StaysFrom(ms, i, c, localId)
  }

  /** The latest snapshot since the latest reset, and the messages before it. */
  function LatestRoom(ms: seq<Message>): Option<nat> {
    if ms == [] then None
    else
      match ms[|ms| - 1]
      case Room(_) => Some(|ms| - 1)
      case Reset => None
      case Mapping(_) => LatestRoom(ms[..|ms| - 1])
  }

  lemma {:induction false} LatestRoomIsRoom(ms: seq<Message>)
    ensures LatestRoom(ms).Some? ==> LatestRoom(ms).value < |ms| && ms[LatestRoom(ms).value].Room?
  {
    if ms != [] {
      LatestRoomIsRoom(ms[..|ms| - 1]);
    }
  }

  /** The tables of a session are those of the latest messages. */
  lemma {:induction false} TablesAreLatest(localId: Text, ms: seq<Message>)
    ensures var s := Run(Start(localId), ms);
            && s.localId == localId && s.devices == Devices(LatestMapping(ms)) && s.localNo == LocalNumberOf(ms, localId)
    ensures LatestRoom(ms).None? ==> Run(Start(localId), ms).poses == map[]
    ensures LatestRoom(ms).Some? ==>
              var i := LatestRoom(ms).value;
              i < |ms| && ms[i].Room? && Run(Start(localId), ms).poses == Poses(ms[i].clients, LocalNumberOf(ms[..i], localId))
  {
    hide Devices, LocalNumber, Poses, Alive, Announced, Arrivals, Departures, Ascending;
    LatestRoomIsRoom(ms);
    NoEntries();
    if ms != [] {
      var front := ms[..|ms| - 1];
      TablesAreLatest(localId, front);
      LatestRoomIsRoom(front);
      if LatestRoom(front).Some? {
        assert front[..LatestRoom(front).value] == ms[..LatestRoom(front).value];
      }
    }
  }

  lemma NoEntries()
    ensures Devices([]) == map[]
  {
  }

  lemma StaysGrows(ms: seq<Message>, m: Message, i: nat, c: nat, localId: Text)
    requires i <= |ms|
    ensures StaysFrom(ms + [m], i, c, localId) <==>
              StaysFrom(ms, i, c, localId) && !m.Reset? && (m.Room? ==> ShownIn(m.clients, c, LocalNumberOf(ms, localId)))
  {
    hide ShownIn, LocalNumberOf;
    var all := ms + [m];
    assert all[..|ms|] == ms;
    forall j | 0 <= j < |ms|
      ensures all[j] == ms[j] && Shows(all, j, c, localId) == Shows(ms, j, c, localId)
    {
      assert all[..j] == ms[..j];
    }
    assert all[|ms|] == m;
    if StaysFrom(all, i, c, localId) {
      forall j | i <= j < |ms|
        ensures !ms[j].Reset? && (ms[j].Room? ==> Shows(ms, j, c, localId))
      {
        assert !all[j].Reset?;
      }
    }
  }

  /** What one more message does to who should be announced. */
  lemma ShouldGrows(ms: seq<Message>, m: Message, c: nat, localId: Text)
    ensures ShouldBeAnnounced(ms + [m], c, localId) <==>
              match m
              case Mapping(_) => ShouldBeAnnounced(ms, c, localId)
              case Reset => false
              case Room(clients) =>
                ShownIn(clients, c, LocalNumberOf(ms, localId))
                && (ShouldBeAnnounced(ms, c, localId) || c in Devices(LatestMapping(ms)))
  {
    hide ShownIn, LocalNumberOf, LatestMapping, Devices, StaysFrom;
    var all := ms + [m];
    assert all[..|ms|] == ms && all[|ms|] == m;
    forall i | 0 <= i < |ms|
      ensures Shows(all, i, c, localId) == Shows(ms, i, c, localId) && KnownAt(all, i, c) == KnownAt(ms, i, c)
    {
      assert all[..i] == ms[..i];
    }
    forall i | 0 <= i <= |ms|
      ensures StaysFrom(all, i, c, localId) <==>
                StaysFrom(ms, i, c, localId) && !m.Reset? && (m.Room? ==> ShownIn(m.clients, c, LocalNumberOf(ms, localId)))
    {
      StaysGrows(ms, m, i, c, localId);
    }
    NothingLeft(ms, c, localId);
    if ShouldBeAnnounced(ms, c, localId) && !m.Reset? && (m.Room? ==> ShownIn(m.clients, c, LocalNumberOf(ms, localId))) {
      var i :| 0 <= i < |ms| && Shows(ms, i, c, localId) && KnownAt(ms, i, c) && StaysFrom(ms, i, c, localId);
      assert Shows(all, i, c, localId) && KnownAt(all, i, c) && StaysFrom(all, i, c, localId);
    }
    if m.Room? && ShownIn(m.clients, c, LocalNumberOf(ms, localId)) && c in Devices(LatestMapping(ms)) {
      assert Shows(all, |ms|, c, localId) && KnownAt(all, |ms|, c) && StaysFrom(all, |ms|, c, localId);
    }
    if ShouldBeAnnounced(all, c, localId) {
      var i :| 0 <= i < |all| && Shows(all, i, c, localId) && KnownAt(all, i, c) && StaysFrom(all, i, c, localId);
      if i < |ms| {
        assert Shows(ms, i, c, localId) && KnownAt(ms, i, c) && StaysFrom(ms, i, c, localId);
      }
    }
  }

  lemma NothingLeft(ms: seq<Message>, c: nat, localId: Text)
    ensures StaysFrom(ms, |ms|, c, localId)
  {
  }

  /**
  After any messages a client is announced if and only if some snapshot showed it while its device
  id was known, and every snapshot since then, with no reset, has shown it too; it is pending if and
  only if the latest snapshot shows it and it is not announced.
  */
  lemma {:induction false} AnnouncedByHistory(localId: Text, ms: seq<Message>, c: nat)
    ensures c in Run(Start(localId), ms).announced <==> ShouldBeAnnounced(ms, c, localId)
    ensures c in Run(Start(localId), ms).pending <==>
              LatestRoom(ms).Some? && LatestRoom(ms).value < |ms| && Shows(ms, LatestRoom(ms).value, c, localId)
              && !ShouldBeAnnounced(ms, c, localId)
  {
    hide Devices, LocalNumber, Poses, Alive, Arrivals, Departures, Ascending, ShouldBeAnnounced, LatestMapping, LocalNumberOf, ShownIn;
    if ms == [] {
      NobodyAtFirst(c, localId);
    } else {
      var n := |ms| - 1;
      var front, m := ms[..n], ms[n];
      assert ms == front + [m];
      AnnouncedByHistory(localId, front, c);
      TablesAreLatest(localId, front);
      ShouldGrows(front, m, c, localId);
      LatestRoomIsRoom(front);
      if m.Room? {
        ShownIsAlive(m.clients, c, LocalNumberOf(front, localId));
      } else if LatestRoom(front).Some? {
        assert front[..LatestRoom(front).value] == ms[..LatestRoom(front).value];
      }
    }
  }

  lemma NobodyAtFirst(c: nat, localId: Text)
    ensures !ShouldBeAnnounced([], c, localId)
  {
  }
}
