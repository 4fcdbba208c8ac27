/**
The client's tables of who is who (src/core/device_mapping.cpp) and its handling of a room
snapshot (process_room_pose of src/core/netsync_client.cpp), proved against module Presence. The
tables are maps and sets that the methods update in place; the loops over them run in ascending
order, as those over the program's ordered sets do.
*/
module DeviceMapping {
  import opened Bytes
  import opened Presence

  /** Some entry changed the local number, if only for a moment. */
  function EverMoved(entries: seq<Entry>, localId: Text, was: nat): bool {
    entries != [] && (
      var front, last := entries[..|entries| - 1], entries[|entries| - 1];
      || EverMoved(front, localId, was)
      || (localId != [] && last.deviceId == localId && last.clientNo != LocalNumber(front, localId, was)))
  }

  /** The members of `s` that are also in `keep`, when the least of `s` is taken out. */
  lemma AscendingStep(s: set<nat>, keep: set<nat>)
    requires s != {}
    ensures Ascending(s * keep)
         == (if Least(s) in keep then [Least(s)] else []) + Ascending((s - {Least(s)}) * keep)
  {
    var c := Least(s);
    if c in keep {
      assert IsLeast(c, s * keep) && Least(s * keep) == c;
      assert s * keep - {c} == (s - {c}) * keep;
    } else {
      assert s * keep == (s - {c}) * keep;
    }
  }

  /** One more member of a traversal that lists the members in `keep`. */
  lemma ListOne(list: seq<nat>, s: set<nat>, keep: set<nat>, whole: seq<nat>)
    requires s != {} && list + Ascending(s * keep) == whole
    ensures (if Least(s) in keep then list + [Least(s)] else list) + Ascending((s - {Least(s)}) * keep) == whole
  {
    hide Ascending;
    AscendingStep(s, keep);
    var more := Ascending((s - {Least(s)}) * keep);
    if Least(s) in keep {
      assert list + ([Least(s)] + more) == (list + [Least(s)]) + more;
    } else {
      assert [] + more == more;
    }
  }

  method LeastOf(s: set<nat>) returns (m: nat)
    requires s != {}
    ensures m == Least(s)
  {
    LeastExists(s);
    m :| m in s && forall x :: x in s ==> m <= x;
    assert IsLeast(m, s);
  }

  /** The announced and the pending clients once the clients `seen` have been looked at. */
  ghost predicate Sorted(known: set<nat>, announced0: set<nat>, pending0: set<nat>, seen: set<nat>,
                         announced: set<nat>, pending: set<nat>)
  {
    announced == announced0 + seen * known && pending == (pending0 + seen) - announced
  }

  lemma SortOne(known: set<nat>, announced0: set<nat>, pending0: set<nat>, alive: set<nat>, rest: set<nat>,
                announced: set<nat>, pending: set<nat>, c: nat)
    requires Sorted(known, announced0, pending0, alive - rest, announced, pending) && c in rest && rest <= alive
    ensures c in announced <==> c in announced0
    ensures c in announced ==> Sorted(known, announced0, pending0, alive - (rest - {c}), announced, pending)
    ensures c !in announced && c in known ==>
              Sorted(known, announced0, pending0, alive - (rest - {c}), announced + {c}, pending - {c})
    ensures c !in announced && c !in known ==>
              Sorted(known, announced0, pending0, alive - (rest - {c}), announced, pending + {c})
  {
    assert alive - (rest - {c}) == (alive - rest) + {c};
  }

  lemma NoneSorted(known: set<nat>, announced: set<nat>, pending: set<nat>, alive: set<nat>)
    requires pending !! announced
    ensures Sorted(known, announced, pending, alive - alive, announced, pending)
  {
  }

  lemma AllSorted(known: set<nat>, announced0: set<nat>, pending0: set<nat>, alive: set<nat>,
                  announced: set<nat>, pending: set<nat>)
    requires Sorted(known, announced0, pending0, alive - {}, announced, pending)
    ensures announced == announced0 + alive * known && pending == (pending0 + alive) - announced && pending !! announced
  {
  }

  lemma NoneLeft(keep: set<nat>)
    ensures Ascending({} * keep) == []
  {
    assert {} * keep == {};
  }

  class DeviceMapping {
    var localId: Text
    var localNo: nat
    var deviceIds: map<nat, Text>
    var numbers: map<Text, nat>
    var stealth: map<nat, bool>
    var pending: set<nat>
    var announced: set<nat>

    ghost predicate Valid()
      reads this
    {
      pending !! announced
    }

    constructor (localId: Text)
      ensures Valid() && this.localId == localId && localNo == 0
      ensures deviceIds == map[] && numbers == map[] && stealth == map[] && pending == {} && announced == {}
    {
      this.localId, localNo := localId, 0;
      deviceIds, numbers, stealth, pending, announced := map[], map[], map[], {}, {};
    }

    method Apply(entries: seq<Entry>) returns (localChanged: bool)
      modifies this
      ensures deviceIds == Devices(entries) && numbers == Numbers(entries) && stealth == Stealth(entries)
      ensures localNo == LocalNumber(entries, localId, old(localNo))
      ensures localChanged == EverMoved(entries, localId, old(localNo))
      ensures localId == old(localId) && pending == old(pending) && announced == old(announced)
    {
      localChanged := false;
      deviceIds, numbers, stealth := map[], map[], map[];
      for i := 0 to |entries|
        invariant deviceIds == Devices(entries[..i]) && numbers == Numbers(entries[..i]) && stealth == Stealth(entries[..i])
        invariant localNo == LocalNumber(entries[..i], localId, old(localNo))
        invariant localChanged == EverMoved(entries[..i], localId, old(localNo))
        invariant localId == old(localId) && pending == old(pending) && announced == old(announced)
      {
        assert entries[..i + 1][..i] == entries[..i];
        var e := entries[i];
        deviceIds := deviceIds[e.clientNo := e.deviceId];
        numbers := numbers[e.deviceId := e.clientNo];
        stealth := stealth[e.clientNo := e.stealth];
        if localId != [] && e.deviceId == localId {
          if localNo != e.clientNo {
            localNo := e.clientNo;
            localChanged := true;
          }
        }
      }
      assert entries[..|entries|] == entries;
    }

    function DeviceIdFor(c: nat): Text
      reads this
    {
      if c in deviceIds then deviceIds[c] else []
    }

    /** The first loop of update_presence: announce or park every client in the room. */
    method AnnounceAlive(alive: set<nat>) returns (connected: seq<nat>)
      requires Valid()
      modifies `pending, `announced
      ensures Valid()
      ensures announced == old(announced) + alive * deviceIds.Keys
      ensures pending == (old(pending) + alive) - announced
      ensures connected == Ascending(alive * (deviceIds.Keys - old(announced)))
    {
      hide Ascending, Sorted;
      connected := [];
      var rest := alive;
      ghost var known := deviceIds.Keys;
      ghost var eligible := known - announced;
      ghost var whole := Ascending(alive * eligible);
      NoneSorted(known, announced, pending, alive);
      while rest != {}
        invariant rest <= alive && Sorted(known, old(announced), old(pending), alive - rest, announced, pending)
        invariant connected + Ascending(rest * eligible) == whole
        decreases |rest|
      {
        var c := LeastOf(rest);
        ListOne(connected, rest, eligible, whole);
        SortOne(known, old(announced), old(pending), alive, rest, announced, pending, c);
        rest := rest - {c};
        if c in announced {
          continue;
        }
        if c in deviceIds {
          announced := announced + {c};
          pending := pending - {c};
          connected := connected + [c];
        } else {
          pending := pending + {c};
        }
      }
      NoneLeft(eligible);
      AllSorted(known, old(announced), old(pending), alive, announced, pending);
    }

    /** The second loop: forget pending clients that have left. */
    method ForgetPending(alive: set<nat>)
      modifies `pending
      ensures pending == old(pending) * alive
    {
      var rest := pending;
      while rest != {}
        invariant rest <= pending && pending == old(pending) * alive + rest && rest <= old(pending)
        decreases |rest|
      {
        var c := LeastOf(rest);
        rest := rest - {c};
        if c !in alive {
          pending := pending - {c};
        }
      }
    }

    /** The third loop: report and forget announced clients that have left. */
    method DropAnnounced(alive: set<nat>) returns (disconnected: seq<nat>)
      modifies `announced
      ensures announced == old(announced) * alive
      ensures disconnected == Ascending(old(announced) - alive)
    {
      hide Ascending;
      disconnected := [];
      var rest := announced;
      ghost var gone := announced - alive;
      assert rest * gone == gone;
      ghost var whole := Ascending(gone);
      while rest != {}
        invariant rest <= announced && announced == old(announced) * alive + rest && rest <= old(announced)
        invariant gone == old(announced) - alive
        invariant disconnected + Ascending(rest * gone) == whole
        decreases |rest|
      {
        var c := LeastOf(rest);
        ListOne(disconnected, rest, gone, whole);
        rest := rest - {c};
        if c !in alive {
          disconnected := disconnected + [c];
          announced := announced - {c};
        }
      }
      NoneLeft(gone);
    }

    method UpdatePresence(alive: seq<nat>) returns (connected: seq<nat>, disconnected: seq<nat>)
      requires Valid()
      modifies `pending, `announced
      ensures Valid()
      ensures announced == Announced(old(announced), deviceIds, Elements(alive))
      ensures pending == Elements(alive) - announced
      ensures connected == Ascending(announced - old(announced))
      ensures disconnected == Ascending(old(announced) - Elements(alive))
    {
      hide Ascending;
      var aliveSet := set c | c in alive;
      assert aliveSet == Elements(alive);
      connected := AnnounceAlive(aliveSet);
      ForgetPending(aliveSet);
      assert announced - aliveSet == old(announced) - aliveSet;
      disconnected := DropAnnounced(aliveSet);
      assert announced - old(announced) == aliveSet * (deviceIds.Keys - old(announced));
    }

    method Clear()
      modifies this
      ensures Valid() && localId == old(localId) && localNo == 0
      ensures deviceIds == map[] && numbers == map[] && stealth == map[] && pending == {} && announced == {}
    {
      deviceIds, numbers, stealth, pending, announced := map[], map[], map[], {}, {};
      localNo := 0;
    }
  }

  // ---------------------------------------------------------------- room snapshots

  datatype RoomMessage = RoomMessage(roomId: Text, clients: seq<Listed>)

  /** The part of NetSyncClient that follows who is in the room. */
  class NetSyncClient {
    const roomId: Text
    const mapping: DeviceMapping
    var remotePoses: map<nat, Text>
    ghost var history: seq<Event>

    ghost function State(): Session
      reads this, mapping
    {
      Session(mapping.localId, mapping.localNo, mapping.deviceIds, mapping.pending, mapping.announced, remotePoses, history)
    }

    constructor (roomId: Text, localId: Text)
      ensures mapping.Valid() && fresh(mapping) && this.roomId == roomId && State() == Start(localId)
    {
      this.roomId, remotePoses, history := roomId, map[], [];
      mapping := new DeviceMapping(localId);
    }

    method ProcessMapping(entries: seq<Entry>) returns (localChanged: bool)
      requires mapping.Valid()
      modifies mapping
      ensures mapping.Valid() && State() == Next(old(State()), Mapping(entries))
      ensures localChanged == EverMoved(entries, mapping.localId, old(mapping.localNo))
    {
      localChanged := mapping.Apply(entries);
    }

    /** reset_session_state, as far as it touches these tables. */
    method ResetSession()
      requires mapping.Valid()
      modifies this, mapping
      ensures mapping.Valid() && State() == Next(old(State()), Reset)
    {
      mapping.Clear();
      remotePoses := map[];
      history := history + [Restarted];
    }

    /** The loop of process_room_pose over the listed clients. */
    method CollectPoses(clients: seq<Listed>) returns (alive: seq<nat>, poses: map<nat, Text>)
      ensures Elements(alive) == Alive(clients, mapping.localNo) && poses == Poses(clients, mapping.localNo)
    {
      var local := mapping.localNo;
      alive, poses := [], map[];
      for i := 0 to |clients|
        invariant Elements(alive) == Alive(clients[..i], local) && poses == Poses(clients[..i], local)
      {
        AliveSnoc(clients, i, local);
        var c := clients[i].clientNo;
        if c == local && local != 0 {
          continue;
        }
        ElementsSnoc(alive, c);
        alive := alive + [c];
        poses := poses[c := clients[i].pose];
      }
      assert clients[..|clients|] == clients;
    }

    /** process_room_pose; `None` stands for a payload that does not decode. */
    method ProcessRoomPose(message: Option<RoomMessage>) returns (events: seq<Event>)
      requires mapping.Valid()
      modifies this, mapping`pending, mapping`announced
      ensures mapping.Valid() && history == old(history) + events
      ensures State() == if message.Some? && message.value.roomId == roomId
                         then RoomNext(old(State()), message.value.clients) else old(State())
    {
      hide Ascending, Elements, Alive, Poses, Announced, Arrivals, Departures;
      if message.None? || message.value.roomId != roomId {
        return [];
      }
      var alive, poses := CollectPoses(message.value.clients);
      remotePoses := poses;
      var connected, disconnected := mapping.UpdatePresence(alive);
      var arrivals := ConnectEvents(connected);
      var departures := DisconnectEvents(disconnected);
      events := arrivals + departures;
      history := history + events;
    }

    method ConnectEvents(connected: seq<nat>) returns (events: seq<Event>)
      ensures events == Arrivals(connected, mapping.deviceIds)
    {
      events := [];
      for i := 0 to |connected|
        invariant events + Arrivals(connected[i..], mapping.deviceIds) == Arrivals(connected, mapping.deviceIds)
      {
        assert connected[i..][1..] == connected[i + 1..];
        events := events + [Connected(connected[i], mapping.DeviceIdFor(connected[i]))];
      }
    }
  }

  method DisconnectEvents(disconnected: seq<nat>) returns (events: seq<Event>)
    ensures events == Departures(disconnected)
  {
    events := [];
    for i := 0 to |disconnected|
      invariant events + Departures(disconnected[i..]) == Departures(disconnected)
    {
      assert disconnected[i..][1..] == disconnected[i + 1..];
      events := events + [Disconnected(disconnected[i])];
    }
  }

  lemma ElementsSnoc(cs: seq<nat>, c: nat)
    ensures Elements(cs + [c]) == Elements(cs) + {c}
  {
  }

  lemma AliveSnoc(clients: seq<Listed>, i: nat, local: nat)
    requires i < |clients|
    ensures clients[..i + 1][..i] == clients[..i]
    ensures Alive(clients[..i + 1], local)
         == Alive(clients[..i], local) + (if IsRemote(clients[i].clientNo, local) then {clients[i].clientNo} else {})
  {
    var a, b := clients[..i], clients[..i + 1];
    forall c
      ensures c in Alive(b, local) <==> c in Alive(a, local) || (IsRemote(clients[i].clientNo, local) && c == clients[i].clientNo)
    {
      if c in Alive(a, local) {
        var k :| 0 <= k < i && IsRemote(a[k].clientNo, local) && a[k].clientNo == c;
        assert b[k].clientNo == c;
      }
      if c in Alive(b, local) {
        var k :| 0 <= k <= i && IsRemote(b[k].clientNo, local) && b[k].clientNo == c;
        assert k < i ==> a[k].clientNo == c;
      }
    }
  }
}
