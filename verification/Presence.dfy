/**
Who is in the room (src/core/device_mapping.cpp, and process_room_pose of
src/core/netsync_client.cpp).
*/
module Presence {
  // A session is a state machine over mapping messages, accepted room snapshots and resets. What a
  // snapshot says about a client is opaque here. `events` is what the host is told, with a
  // `Restarted` wherever the session was reset.

  import opened Bytes

  datatype Entry = Entry(clientNo: nat, deviceId: Text, stealth: bool)

  datatype Listed = Listed(clientNo: nat, pose: Text)

  datatype Event =
    | Connected(clientNo: nat, deviceId: Text)
    | Disconnected(clientNo: nat)
    | Restarted

  datatype Message =
    | Mapping(entries: seq<Entry>)
    | Room(clients: seq<Listed>)
    | Reset

  datatype Session = Session(
    localId: Text,
    localNo: nat,
    devices: map<nat, Text>,
    pending: set<nat>,
    announced: set<nat>,
    poses: map<nat, Text>,
    events: seq<Event>)

  // ---------------------------------------------------------------- mapping messages

  /** Client number to device id; a later entry for the same number wins. */
  function Devices(entries: seq<Entry>): map<nat, Text> {
    if entries == [] then map[]
    else Devices(entries[..|entries| - 1])[entries[|entries| - 1].clientNo := entries[|entries| - 1].deviceId]
  }

  /** Device id to client number. */
  function Numbers(entries: seq<Entry>): map<Text, nat> {
    if entries == [] then map[]
    else Numbers(entries[..|entries| - 1])[entries[|entries| - 1].deviceId := entries[|entries| - 1].clientNo]
  }

  function Stealth(entries: seq<Entry>): map<nat, bool> {
    if entries == [] then map[]
    else Stealth(entries[..|entries| - 1])[entries[|entries| - 1].clientNo := entries[|entries| - 1].stealth]
  }

  /** The local number after the message: that of the last entry with the local device id. */
  function LocalNumber(entries: seq<Entry>, localId: Text, was: nat): nat {
    if entries == [] then was
    else if localId != [] && entries[|entries| - 1].deviceId == localId then entries[|entries| - 1].clientNo
    else LocalNumber(entries[..|entries| - 1], localId, was)
  }

  // ---------------------------------------------------------------- room snapshots

  /** The local avatar is never echoed back, once its number is known. */
  predicate IsRemote(c: nat, localNo: nat) {
    c != localNo || localNo == 0
  }

  function Alive(clients: seq<Listed>, localNo: nat): set<nat> {
    set i | 0 <= i < |clients| && IsRemote(clients[i].clientNo, localNo) :: clients[i].clientNo
  }

  function Poses(clients: seq<Listed>, localNo: nat): map<nat, Text> {
    if clients == [] then map[]
    else
      var rest, last := Poses(clients[..|clients| - 1], localNo), clients[|clients| - 1];
      if IsRemote(last.clientNo, localNo) then rest[last.clientNo := last.pose] else rest
  }

  predicate IsLeast(m: nat, s: set<nat>) {
    m in s && forall x :: x in s ==> m <= x
  }

  lemma LeastExists(s: set<nat>)
    requires s != {}
    ensures exists m :: IsLeast(m, s)
  {
    var x :| x in s;
    if s == {x} {
      assert IsLeast(x, s);
    } else {
      LeastExists(s - {x});
      var m :| IsLeast(m, s - {x});
      var least := if x < m then x else m;
      forall y | y in s
        ensures least <= y
      {
        assert y == x || y in s - {x};
      }
      assert IsLeast(least, s);
    }
  }

  ghost function Least(s: set<nat>): (m: nat)
    requires s != {}
    ensures IsLeast(m, s)
  {
    LeastExists(s);
    var m :| IsLeast(m, s);
    m
  }

  /** A `std::set` in the order in which it is traversed. */
  ghost function Ascending(s: set<nat>): seq<nat> {
    if s == {} then [] else [Least(s)] + Ascending(s - {Least(s)})
  }

  ghost function Arrivals(cs: seq<nat>, devices: map<nat, Text>): seq<Event> {
    if cs == [] then [] else
      [Connected(cs[0], if cs[0] in devices then devices[cs[0]] else [])] + Arrivals(cs[1..], devices)
  }

  ghost function Departures(cs: seq<nat>): seq<Event> {
    if cs == [] then [] else [Disconnected(cs[0])] + Departures(cs[1..])
  }

  /** Clients that are announced once the snapshot was handled. */
  function Announced(announced: set<nat>, devices: map<nat, Text>, alive: set<nat>): set<nat> {
    set c | c in alive && (c in announced || c in devices)
  }

  ghost function RoomNext(s: Session, clients: seq<Listed>): Session {
    var alive := Alive(clients, s.localNo);
    var announced := Announced(s.announced, s.devices, alive);
    s.(announced := announced,
       pending := alive - announced,
       poses := Poses(clients, s.localNo),
       events := s.events + Arrivals(Ascending(announced - s.announced), s.devices)
                 + Departures(Ascending(s.announced - alive)))
  }

  ghost function Next(s: Session, m: Message): Session {
    match m
    case Mapping(entries) => s.(devices := Devices(entries), localNo := LocalNumber(entries, s.localId, s.localNo))
    case Room(clients) => RoomNext(s, clients)
    case Reset => Session(s.localId, 0, map[], {}, {}, map[], s.events + [Restarted])
  }

  ghost function Run(s: Session, ms: seq<Message>): Session {
    if ms == [] then s else Next(Run(s, ms[..|ms| - 1]), ms[|ms| - 1])
  }

  function Start(localId: Text): Session {
    Session(localId, 0, map[], {}, {}, map[], [])
  }

  // ---------------------------------------------------------------- announced, pending, alive

  function Elements(cs: seq<nat>): set<nat> {
    set c | c in cs
  }

  lemma ElementsOfCons(c: nat, cs: seq<nat>)
    ensures Elements([c] + cs) == {c} + Elements(cs)
  {
  }

  predicate Increasing(cs: seq<nat>) {
    forall i, j :: 0 <= i < j < |cs| ==> cs[i] < cs[j]
  }

  lemma IncreasingCons(c: nat, cs: seq<nat>)
    requires Increasing(cs) && forall x :: x in Elements(cs) ==> c < x
    ensures Increasing([c] + cs)
  {
    forall j | 0 <= j < |cs|
      ensures c < cs[j]
    {
      assert cs[j] in Elements(cs);
    }
  }

  lemma {:induction false} AscendingHolds(s: set<nat>)
    ensures Elements(Ascending(s)) == s && Increasing(Ascending(s))
  {
    hide Increasing, Elements;
    if s == {} {
      NoElements();
    } else {
      var m := Least(s);
      AscendingHolds(s - {m});
      ElementsOfCons(m, Ascending(s - {m}));
      IncreasingCons(m, Ascending(s - {m}));
      assert s == {m} + (s - {m});
    }
  }

  lemma NoElements()
    ensures Elements([]) == {} && Increasing([])
  {
  }

  lemma {:induction false} PosesAreAlive(clients: seq<Listed>, localNo: nat)
    ensures Poses(clients, localNo).Keys == Alive(clients, localNo)
  {
    if clients != [] {
      var n := |clients| - 1;
      PosesAreAlive(clients[..n], localNo);
      forall c
        ensures c in Alive(clients, localNo) <==> c in Poses(clients, localNo)
      {
        if c in Alive(clients[..n], localNo) {
          var i :| 0 <= i < n && IsRemote(clients[..n][i].clientNo, localNo) && clients[..n][i].clientNo == c;
          assert clients[i].clientNo == c;
        }
        if c in Alive(clients, localNo) {
          var i :| 0 <= i <= n && IsRemote(clients[i].clientNo, localNo) && clients[i].clientNo == c;
          assert i < n ==> clients[..n][i].clientNo == c;
        }
      }
    }
  }

  /** Announced and pending clients are exactly the ones with a remote pose, and never both. */
  predicate Partitioned(s: Session) {
    s.announced + s.pending == s.poses.Keys && s.announced !! s.pending
  }

  // ---------------------------------------------------------------- events

  /** The last word on client `c` is that it connected. */
  function On(events: seq<Event>, c: nat): bool {
    if events == [] then false else
      match events[|events| - 1]
      case Connected(k, _) => k == c || On(events[..|events| - 1], c)
      case Disconnected(k) => k != c && On(events[..|events| - 1], c)
      case Restarted => false
  }

  /** Nobody connects who is on, and nobody disconnects who is off. */
  predicate Alternates(events: seq<Event>) {
    events == [] || (
      && Alternates(events[..|events| - 1])
      && match events[|events| - 1]
         case Connected(k, _) => !On(events[..|events| - 1], k)
         case Disconnected(k) => On(events[..|events| - 1], k)
         case Restarted => true)
  }

  ghost predicate EventsMatch(events: seq<Event>, announced: set<nat>) {
    Alternates(events) && forall c :: On(events, c) <==> c in announced
  }

  lemma OneEvent(events: seq<Event>, announced: set<nat>, e: Event)
    requires EventsMatch(events, announced)
    ensures e.Connected? && e.clientNo !in announced ==> EventsMatch(events + [e], announced + {e.clientNo})
    ensures e.Disconnected? && e.clientNo in announced ==> EventsMatch(events + [e], announced - {e.clientNo})
    ensures e.Restarted? ==> EventsMatch(events + [e], {})
  {
    assert (events + [e])[..|events|] == events;
  }

  lemma IncreasingTail(cs: seq<nat>)
    requires cs != [] && Increasing(cs)
    ensures Increasing(cs[1..]) && cs[0] !in Elements(cs[1..]) && Elements(cs) == {cs[0]} + Elements(cs[1..])
  {
    assert cs == [cs[0]] + cs[1..];
    ElementsOfCons(cs[0], cs[1..]);
  }

  lemma Together(events: seq<Event>, e: Event, more: seq<Event>, a: set<nat>, c: nat, b: set<nat>)
    ensures events + ([e] + more) == (events + [e]) + more
    ensures a + ({c} + b) == (a + {c}) + b && a - ({c} + b) == (a - {c}) - b
  {
  }

  lemma {:induction false} ArrivalsMatch(events: seq<Event>, announced: set<nat>, cs: seq<nat>, devices: map<nat, Text>)
    requires EventsMatch(events, announced) && Increasing(cs) && announced !! Elements(cs)
    ensures EventsMatch(events + Arrivals(cs, devices), announced + Elements(cs))
    decreases |cs|
  {
    hide EventsMatch, Increasing, Elements;
    if cs == [] {
      NoElements();
      assert events + Arrivals(cs, devices) == events && announced + {} == announced;
    } else {
      IncreasingTail(cs);
      var e, more := Arrivals(cs, devices)[0], Arrivals(cs[1..], devices);
      OneEvent(events, announced, e);
      ArrivalsMatch(events + [e], announced + {cs[0]}, cs[1..], devices);
      Together(events, e, more, announced, cs[0], Elements(cs[1..]));
    }
  }

  lemma {:induction false} DeparturesMatch(events: seq<Event>, announced: set<nat>, cs: seq<nat>)
    requires EventsMatch(events, announced) && Increasing(cs) && Elements(cs) <= announced
    ensures EventsMatch(events + Departures(cs), announced - Elements(cs))
    decreases |cs|
  {
    hide EventsMatch, Increasing, Elements;
    if cs == [] {
      NoElements();
      assert events + Departures(cs) == events && announced - {} == announced;
    } else {
      IncreasingTail(cs);
      var e, more := Disconnected(cs[0]), Departures(cs[1..]);
      OneEvent(events, announced, e);
      DeparturesMatch(events + [e], announced - {cs[0]}, cs[1..]);
      Together(events, e, more, announced, cs[0], Elements(cs[1..]));
    }
  }

  ghost predicate Inv(s: Session) {
    Partitioned(s) && EventsMatch(s.events, s.announced)
  }

  lemma RoomKeepsInv(s: Session, clients: seq<Listed>)
    requires Inv(s)
    ensures Inv(RoomNext(s, clients))
  {
    hide EventsMatch, Ascending, Arrivals, Departures, Alive, Poses, Elements, Increasing;
    var alive := Alive(clients, s.localNo);
    var after := Announced(s.announced, s.devices, alive);
    PosesAreAlive(clients, s.localNo);
    assert after + (alive - after) == alive;
    var news, gone := after - s.announced, s.announced - alive;
    AscendingHolds(news);
    AscendingHolds(gone);
    ArrivalsMatch(s.events, s.announced, Ascending(news), s.devices);
    DeparturesMatch(s.events + Arrivals(Ascending(news), s.devices), s.announced + news, Ascending(gone));
    assert (s.announced + news) - gone == after;
  }

  lemma NextKeepsInv(s: Session, m: Message)
    requires Inv(s)
    ensures Inv(Next(s, m))
  {
    match m
    case Mapping(_) =>
    case Room(clients) => RoomKeepsInv(s, clients);
    case Reset => OneEvent(s.events, s.announced, Restarted);
  }

  /**
  In every session announced and pending clients partition the clients with a remote pose, and
  each client's connect and disconnect events alternate, ending as the client stands.
  */
  lemma {:induction false} RunKeepsInv(localId: Text, ms: seq<Message>)
    ensures Inv(Run(Start(localId), ms))
  {
    if ms != [] {
      RunKeepsInv(localId, ms[..|ms| - 1]);
      NextKeepsInv(Run(Start(localId), ms[..|ms| - 1]), ms[|ms| - 1]);
    }
  }

  /** The events that a snapshot adds. */
  ghost function News(s: Session, clients: seq<Listed>): seq<Event> {
    RoomNext(s, clients).events[|s.events|..]
  }

  lemma {:induction false} ArrivalsAre(cs: seq<nat>, devices: map<nat, Text>, e: Event)
    requires Elements(cs) <= devices.Keys
    ensures e in Arrivals(cs, devices) <==>
              e.Connected? && e.clientNo in Elements(cs) && e.deviceId == devices[e.clientNo]
    decreases |cs|
  {
    if cs != [] {
      assert cs == [cs[0]] + cs[1..];
      ElementsOfCons(cs[0], cs[1..]);
      ArrivalsAre(cs[1..], devices, e);
    }
  }

  lemma {:induction false} DeparturesAre(cs: seq<nat>, e: Event)
    ensures e in Departures(cs) <==> e.Disconnected? && e.clientNo in Elements(cs)
    decreases |cs|
  {
    if cs != [] {
      assert cs == [cs[0]] + cs[1..];
      ElementsOfCons(cs[0], cs[1..]);
      DeparturesAre(cs[1..], e);
    }
  }

  /**
  A snapshot announces exactly the remote clients in it that are not announced and have a known
  device id, each with that id, and reports exactly the announced ones that are gone.
  */
  lemma SnapshotNews(s: Session, clients: seq<Listed>, e: Event)
    ensures e in News(s, clients) <==>
              match e
              case Connected(c, id) =>
                c in Alive(clients, s.localNo) && c !in s.announced && c in s.devices && id == s.devices[c]
              case Disconnected(c) => c in s.announced && c !in Alive(clients, s.localNo)
              case Restarted => false
  {
    hide Ascending, Arrivals, Departures, Alive, Poses, Elements, Increasing;
    var alive := Alive(clients, s.localNo);
    var news, gone := Announced(s.announced, s.devices, alive) - s.announced, s.announced - alive;
    AscendingHolds(news);
    AscendingHolds(gone);
    ArrivalsAre(Ascending(news), s.devices, e);
    DeparturesAre(Ascending(gone), e);
    assert News(s, clients) == Arrivals(Ascending(news), s.devices) + Departures(Ascending(gone));
  }

  // ---------------------------------------------------------------- the local device

  /** Device ids differ from entry to entry, and no client has number 0. */
  predicate CleanEntries(entries: seq<Entry>) {
    && (forall i :: 0 <= i < |entries| ==> entries[i].clientNo != 0)
    && (forall i, j :: 0 <= i < j < |entries| ==> entries[i].deviceId != entries[j].deviceId)
  }

  ghost predicate CleanMessages(ms: seq<Message>) {
    forall i :: 0 <= i < |ms| && ms[i].Mapping? ==> CleanEntries(ms[i].entries)
  }

  /** No number but the local one, which is not 0, has the local device id. */
  predicate Shielded(s: Session) {
    forall c :: c in s.devices && s.devices[c] == s.localId ==> !IsRemote(c, s.localNo)
  }

  lemma {:induction false} DevicesComeFromEntries(entries: seq<Entry>, c: nat)
    requires c in Devices(entries)
    ensures exists i :: 0 <= i < |entries| && entries[i].clientNo == c && entries[i].deviceId == Devices(entries)[c]
  {
    var n := |entries| - 1;
    if entries[n].clientNo != c {
      DevicesComeFromEntries(entries[..n], c);
      var i :| 0 <= i < n && entries[..n][i].clientNo == c && entries[..n][i].deviceId == Devices(entries[..n])[c];
      assert entries[i].clientNo == c && entries[i].deviceId == Devices(entries)[c];
    }
  }

  lemma {:induction false} OnlyEntryIsLocal(entries: seq<Entry>, localId: Text, was: nat, i: nat)
    requires CleanEntries(entries) && localId != [] && i < |entries| && entries[i].deviceId == localId
    ensures LocalNumber(entries, localId, was) == entries[i].clientNo
  {
    var n := |entries| - 1;
    if i < n {
      assert entries[i].deviceId != entries[n].deviceId;
      OnlyEntryIsLocal(entries[..n], localId, was, i);
    }
  }

  lemma CleanMappingShields(s: Session, entries: seq<Entry>)
    requires CleanEntries(entries) && s.localId != []
    ensures Shielded(Next(s, Mapping(entries)))
  {
    var t := Next(s, Mapping(entries));
    forall c | c in t.devices && t.devices[c] == s.localId
      ensures !IsRemote(c, t.localNo)
    {
      DevicesComeFromEntries(entries, c);
      var i :| 0 <= i < |entries| && entries[i].clientNo == c && entries[i].deviceId == s.localId;
      OnlyEntryIsLocal(entries, s.localId, s.localNo, i);
    }
  }

  ghost predicate NeverAnnounced(events: seq<Event>, id: Text) {
    forall c :: Connected(c, id) !in events
  }

  lemma ShieldedRoomIsSilent(s: Session, clients: seq<Listed>)
    requires Shielded(s) && NeverAnnounced(s.events, s.localId)
    ensures NeverAnnounced(RoomNext(s, clients).events, s.localId)
  {
    forall c
      ensures Connected(c, s.localId) !in RoomNext(s, clients).events
    {
      SnapshotNews(s, clients, Connected(c, s.localId));
      assert RoomNext(s, clients).events == s.events + News(s, clients);
    }
  }

  /** With clean mapping messages the local device is never announced as somebody else. */
  lemma {:induction false} LocalIsNeverAnnounced(localId: Text, ms: seq<Message>)
    requires localId != [] && CleanMessages(ms)
    ensures var s := Run(Start(localId), ms);
            s.localId == localId && Shielded(s) && NeverAnnounced(s.events, localId)
  {
    hide RoomNext, Shielded;
    if ms == [] {
      StartIsShielded(localId);
    } else {
      var n := |ms| - 1;
      var s := Run(Start(localId), ms[..n]);
      LocalIsNeverAnnounced(localId, ms[..n]);
      match ms[n]
      case Mapping(entries) => CleanMappingShields(s, entries);
      case Room(clients) =>
        ShieldedRoomIsSilent(s, clients);
        RoomKeepsShield(s, clients);
      case Reset => StartIsShielded(localId);
    }
  }

  lemma StartIsShielded(localId: Text)
    ensures forall s: Session :: s.devices == map[] ==> Shielded(s)
  {
  }

  lemma RoomKeepsShield(s: Session, clients: seq<Listed>)
    requires Shielded(s)
    ensures Shielded(RoomNext(s, clients)) && RoomNext(s, clients).localId == s.localId
  {
  }

  // Without clean messages: exactly when some snapshots announce the local device.

  ghost function AllRooms(rooms: seq<seq<Listed>>): (ms: seq<Message>)
    ensures |ms| == |rooms| && forall i :: 0 <= i < |ms| ==> ms[i] == Room(rooms[i])
  {
    seq(|rooms|, i requires 0 <= i < |rooms| => Room(rooms[i]))
  }

  /** The events of `t` after those of `s`. */
  ghost function Added(s: Session, t: Session): seq<Event> {
    if |s.events| <= |t.events| then t.events[|s.events|..] else []
  }

  /** Some snapshots, handled one after the other, announce the local device. */
  ghost predicate Exposed(s: Session) {
    exists rooms, c :: Connected(c, s.localId) in Added(s, Run(s, AllRooms(rooms)))
  }

  lemma {:induction false} RoomsKeep(s: Session, rooms: seq<seq<Listed>>)
    ensures var t := Run(s, AllRooms(rooms));
            && t.localId == s.localId && t.localNo == s.localNo && t.devices == s.devices && s.events <= t.events
  {
    if rooms != [] {
      var n := |rooms| - 1;
      assert AllRooms(rooms)[..n] == AllRooms(rooms[..n]);
      RoomsKeep(s, rooms[..n]);
    }
  }

  lemma {:induction false} ShieldedRoomsAreSilent(s: Session, rooms: seq<seq<Listed>>)
    requires Shielded(s)
    ensures s.events <= Run(s, AllRooms(rooms)).events
    ensures NeverAnnounced(Added(s, Run(s, AllRooms(rooms))), s.localId)
  {
    hide Shielded, RoomNext;
    RoomsKeep(s, rooms);
    if rooms != [] {
      var n := |rooms| - 1;
      assert AllRooms(rooms)[..n] == AllRooms(rooms[..n]);
      var t := Run(s, AllRooms(rooms[..n]));
      ShieldedRoomsAreSilent(s, rooms[..n]);
      RoomsKeep(s, rooms[..n]);
      SameShield(s, t);
      var u := RoomNext(t, rooms[n]);
      assert Run(s, AllRooms(rooms)) == u;
      forall c
        ensures Connected(c, s.localId) !in Added(s, u)
      {
        ShieldedRoomIsSilentAt(t, rooms[n], c);
        assert Added(s, u) == Added(s, t) + News(t, rooms[n]);
      }
    }
  }

  lemma SameShield(s: Session, t: Session)
    requires Shielded(s) && t.localId == s.localId && t.localNo == s.localNo && t.devices == s.devices
    ensures Shielded(t)
  {
  }

  lemma ShieldedRoomIsSilentAt(s: Session, clients: seq<Listed>, c: nat)
    requires Shielded(s)
    ensures Connected(c, s.localId) !in News(s, clients) && RoomNext(s, clients).events == s.events + News(s, clients)
  {
    SnapshotNews(s, clients, Connected(c, s.localId));
  }

  lemma EmptyRoom(s: Session)
    ensures var t := RoomNext(s, []); t.announced == {} && SameTables(s, t)
  {
    assert Alive([], s.localNo) == {};
  }

  lemma NewsAreAdded(s: Session, clients: seq<Listed>)
    ensures RoomNext(s, clients).events == s.events + News(s, clients)
  {
  }

  /** An empty snapshot and then one that lists the client announce it, whatever was announced before. */
  lemma UnshieldedIsExposed(s: Session, c: nat)
    requires c in s.devices && s.devices[c] == s.localId && IsRemote(c, s.localNo)
    ensures Exposed(s)
  {
    var rooms := [[], [Listed(c, [])]];
    var ms := AllRooms(rooms);
    var t := RoomNext(s, []);
    EmptyRoom(s);
    hide RoomNext;
    assert ms[..1][..0] == [] && ms[..1][0] == Room([]);
    assert Run(s, ms[..1]) == t;
    assert Run(s, ms) == RoomNext(t, rooms[1]);
    SnapshotNews(t, rooms[1], Connected(c, s.localId));
    assert rooms[1][0].clientNo == c;
    NewsAreAdded(s, []);
    NewsAreAdded(t, rooms[1]);
    assert Added(s, RoomNext(t, rooms[1])) == News(s, []) + News(t, rooms[1]);
    assert Connected(c, s.localId) in Added(s, Run(s, AllRooms(rooms)));
  }

  /** In any session some snapshots announce the local device if and only if it is not shielded. */
  lemma ExposedIffNotShielded(s: Session)
    ensures Exposed(s) <==> !Shielded(s)
  {
    if Shielded(s) {
      forall rooms, c
        ensures Connected(c, s.localId) !in Added(s, Run(s, AllRooms(rooms)))
      {
        ShieldedRoomsAreSilent(s, rooms);
      }
    } else {
      var c :| c in s.devices && s.devices[c] == s.localId && IsRemote(c, s.localNo);
      UnshieldedIsExposed(s, c);
    }
  }

  /** The entries leave the local id on a number that is 0 or not the last one it was given with. */
  ghost predicate LeavesOpen(entries: seq<Entry>, localId: Text, was: nat) {
    exists c :: c in Devices(entries) && Devices(entries)[c] == localId && IsRemote(c, LocalNumber(entries, localId, was))
  }

  lemma OpenIsUnshielded(s: Session, entries: seq<Entry>)
    ensures LeavesOpen(entries, s.localId, s.localNo) <==> !Shielded(Next(s, Mapping(entries)))
  {
    hide Devices, LocalNumber;
    var t := Next(s, Mapping(entries));
    var devices, localNo := Devices(entries), LocalNumber(entries, s.localId, s.localNo);
    assert t.devices == devices && t.localNo == localNo && t.localId == s.localId;
    forall c | c in devices && devices[c] == s.localId && IsRemote(c, localNo)
      ensures !Shielded(t) && LeavesOpen(entries, s.localId, s.localNo)
    {
      assert c in t.devices && t.devices[c] == t.localId;
    }
    if !Shielded(t) {
      var c :| c in t.devices && t.devices[c] == t.localId && IsRemote(c, t.localNo);
      assert c in devices && devices[c] == s.localId && IsRemote(c, localNo);
    }
  }

  /**
  After a mapping message some snapshots, up to the next mapping or reset, announce the local
  device exactly when the message leaves its id on a number that is 0 or not the last one it
  was given with.
  */
  lemma MappingExposesLocal(s: Session, entries: seq<Entry>)
    ensures Exposed(Next(s, Mapping(entries))) <==> LeavesOpen(entries, s.localId, s.localNo)
  {
    hide Exposed, LeavesOpen, Shielded;
    ExposedIffNotShielded(Next(s, Mapping(entries)));
    OpenIsUnshielded(s, entries);
  }

  /** The mapping and reset messages of a session. */
  function ControlOf(ms: seq<Message>): seq<Message> {
    if ms == [] then []
    else
      var front, last := ControlOf(ms[..|ms| - 1]), ms[|ms| - 1];
      if last.Room? then front else front + [last]
  }

  predicate ControlOnly(ms: seq<Message>) {
    forall i :: 0 <= i < |ms| ==> !ms[i].Room?
  }

  ghost predicate SameTables(s: Session, t: Session) {
    s.localId == t.localId && s.localNo == t.localNo && s.devices == t.devices
  }

  lemma SameAsItself(s: Session)
    ensures SameTables(s, s)
  {
  }

  lemma TablesMove(s: Session, t: Session, m: Message)
    requires SameTables(s, t)
    ensures m.Room? ==> SameTables(Next(s, m), t)
    ensures !m.Room? ==> SameTables(Next(s, m), Next(t, m))
    ensures Next(s, m).localId == s.localId
  {
  }

  /** Snapshots do not touch the tables, so a session's tables are those of its control messages. */
  lemma {:induction false} TablesComeFromControl(localId: Text, ms: seq<Message>)
    ensures SameTables(Run(Start(localId), ms), Run(Start(localId), ControlOf(ms)))
    ensures Run(Start(localId), ms).localId == localId && ControlOnly(ControlOf(ms))
  {
    hide Next, SameTables;
    if ms == [] {
      SameAsItself(Start(localId));
    } else {
      var n := |ms| - 1;
      TablesComeFromControl(localId, ms[..n]);
      TablesMove(Run(Start(localId), ms[..n]), Run(Start(localId), ControlOf(ms[..n])), ms[n]);
      if !ms[n].Room? {
        assert ControlOf(ms)[..|ControlOf(ms)| - 1] == ControlOf(ms[..n]);
      }
    }
  }

  /** At every point of a session that has these control messages the local device is shielded. */
  ghost predicate AlwaysShielded(localId: Text, control: seq<Message>) {
    forall k :: 0 <= k <= |control| ==> Shielded(Run(Start(localId), control[..k]))
  }

  lemma {:induction false} ShieldedSessionIsSilent(localId: Text, ms: seq<Message>)
    requires AlwaysShielded(localId, ControlOf(ms))
    ensures NeverAnnounced(Run(Start(localId), ms).events, localId)
  {
    hide Shielded, RoomNext;
    if ms != [] {
      var n := |ms| - 1;
      var front := ms[..n];
      var control := ControlOf(ms);
      if !ms[n].Room? {
        forall k | 0 <= k <= |ControlOf(front)|
          ensures Shielded(Run(Start(localId), ControlOf(front)[..k]))
        {
          assert control[..k] == ControlOf(front)[..k];
        }
      }
      ShieldedSessionIsSilent(localId, front);
      TablesComeFromControl(localId, front);
      var s := Run(Start(localId), front);
      if ms[n].Room? {
        assert control[..|control|] == control;
        SameShield(Run(Start(localId), control), s);
        ShieldedRoomIsSilent(s, ms[n].clients);
      }
    }
  }

  lemma {:induction false} RunAppends(s: Session, a: seq<Message>, b: seq<Message>)
    ensures Run(Run(s, a), b) == Run(s, a + b)
  {
    hide Next;
    if b == [] {
      assert a + b == a;
    } else {
      var n := |b| - 1;
      assert (a + b)[..|a| + n] == a + b[..n] && (a + b)[|a| + n] == b[n];
      RunAppends(s, a, b[..n]);
    }
  }

  lemma {:induction false} ControlAppends(a: seq<Message>, b: seq<Message>)
    ensures ControlOf(a + b) == ControlOf(a) + ControlOf(b)
  {
    if b == [] {
      assert a + b == a && ControlOf(a) + [] == ControlOf(a);
    } else {
      var n := |b| - 1;
      assert (a + b)[..|a| + n] == a + b[..n] && (a + b)[|a| + n] == b[n];
      ControlAppends(a, b[..n]);
    }
  }

  lemma {:induction false} ControlOfControl(ms: seq<Message>)
    requires ControlOnly(ms)
    ensures ControlOf(ms) == ms
  {
    if ms != [] {
      ControlOfControl(ms[..|ms| - 1]);
    }
  }

  lemma {:induction false} ControlOfRooms(rooms: seq<seq<Listed>>)
    ensures ControlOf(AllRooms(rooms)) == []
  {
    if rooms != [] {
      var n := |rooms| - 1;
      assert AllRooms(rooms)[..n] == AllRooms(rooms[..n]);
      ControlOfRooms(rooms[..n]);
    }
  }

  lemma {:induction false} EventsStay(s: Session, ms: seq<Message>)
    ensures s.events <= Run(s, ms).events
  {
    if ms != [] {
      EventsStay(s, ms[..|ms| - 1]);
    }
  }

  /** Some session with these mapping and reset messages announces the local device. */
  ghost predicate CanAnnounce(localId: Text, control: seq<Message>) {
    exists ms, c :: ControlOf(ms) == control && Connected(c, localId) in Run(Start(localId), ms).events
  }

  lemma SnapshotsAreNoControl(first: seq<Message>, rooms: seq<seq<Listed>>, rest: seq<Message>)
    requires ControlOnly(first) && ControlOnly(rest)
    ensures ControlOf(first + AllRooms(rooms) + rest) == first + rest
  {
    hide ControlOf;
    ControlAppends(first, AllRooms(rooms));
    ControlAppends(first + AllRooms(rooms), rest);
    ControlOfRooms(rooms);
    ControlOfControl(first);
    ControlOfControl(rest);
    assert first + [] == first;
  }

  /** What was announced in the middle of a session stays announced. */
  lemma AnnouncedStays(s: Session, a: seq<Message>, b: seq<Message>, c: seq<Message>, e: Event)
    requires e in Added(Run(s, a), Run(Run(s, a), b))
    ensures e in Run(s, a + b + c).events
  {
    hide Next, Run;
    RunAppends(s, a, b);
    RunAppends(s, a + b, c);
    EventsStay(Run(s, a + b), c);
    var t := Run(s, a + b);
    assert e in t.events;
  }

  lemma UnshieldedCanAnnounce(localId: Text, control: seq<Message>, k: nat)
    requires ControlOnly(control) && k <= |control| && !Shielded(Run(Start(localId), control[..k]))
    ensures CanAnnounce(localId, control)
  {
    hide Next, Shielded, Run, Added, ControlOf;
    var first, rest := control[..k], control[k..];
    var s := Run(Start(localId), first);
    TablesComeFromControl(localId, first);
    ExposedIffNotShielded(s);
    var rooms, c :| Connected(c, s.localId) in Added(s, Run(s, AllRooms(rooms)));
    var ms := first + AllRooms(rooms) + rest;
    AnnouncedStays(Start(localId), first, AllRooms(rooms), rest, Connected(c, localId));
    SnapshotsAreNoControl(first, rooms, rest);
    assert first + rest == control;
    assert ControlOf(ms) == control && Connected(c, localId) in Run(Start(localId), ms).events;
  }

  /**
  Over whole sessions: with given mapping and reset messages, some snapshots among them get the
  local device announced if and only if at some point those messages leave it unshielded.
  */
  lemma SessionsAnnounceIffUnshielded(localId: Text, control: seq<Message>)
    requires ControlOnly(control)
    ensures CanAnnounce(localId, control) <==> !AlwaysShielded(localId, control)
  {
    if AlwaysShielded(localId, control) {
      forall ms, c | ControlOf(ms) == control
        ensures Connected(c, localId) !in Run(Start(localId), ms).events
      {
        ShieldedSessionIsSilent(localId, ms);
      }
    } else {
      var k :| 0 <= k <= |control| && !Shielded(Run(Start(localId), control[..k]));
      UnshieldedCanAnnounce(localId, control, k);
    }
  }

  /** A device id that is listed twice is announced under its first number. */
  lemma DuplicateIdIsAnnounced(localId: Text)
    requires localId != []
    ensures Connected(5, localId) in
              Run(Start(localId), [Mapping([Entry(5, localId, false), Entry(7, localId, false)]), Room([Listed(5, [])])]).events
  {
    var es := [Entry(5, localId, false), Entry(7, localId, false)];
    var ms := [Mapping(es), Room([Listed(5, [])])];
    assert es[..1][..0] == [] && ms[..1][..0] == [] && ms[..1][0] == Mapping(es);
    assert es[..1][0] == Entry(5, localId, false);
    assert Devices(es[..1]) == map[5 := localId];
    assert LocalNumber(es, localId, 0) == 7;
    var t := Next(Start(localId), Mapping(es));
    assert Run(Start(localId), ms[..1]) == t;
    SnapshotNews(t, [Listed(5, [])], Connected(5, localId));
    assert [Listed(5, [])][0].clientNo == 5;
    assert RoomNext(t, [Listed(5, [])]).events == t.events + News(t, [Listed(5, [])]);
  }
}
