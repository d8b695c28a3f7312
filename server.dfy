/** The server's command handling: `process()` of
    phira-mp-server/src/session.rs over the shared `ServerState` of
    phira-mp-server/src/server.rs (its users and rooms maps), one method per
    command, together with the disconnect handling of `User::dangle`.

    HTTP requests to the game's API (the chart and the record a command
    names) are parameters; `None` stands for a failed request. The random
    choice of a new host is a parameter too. */
module Server {
  import opened Wire
  import opened Command
  import opened Rooms

  /** The failures `process` reports; each becomes the `Err` string of the
      reply. Localised messages are kept as their keys. */
  datatype Fault =
    | NoRoom                // "no room"
    | AlreadyInRoom         // "already in room"
    | IdOccupied            // create-id-occupied
    | RoomNotFound          // "room not found"
    | RoomLocked            // join-room-locked
    | GameOngoing           // join-game-ongoing
    | CantMonitor           // join-cant-monitor
    | RoomFull              // join-room-full
    | NotHost               // "only host can do this"
    | InvalidState          // "invalid state"
    | NoChartSelected       // start-no-chart-selected
    | AlreadyReady          // "already ready"
    | NotReady              // "not ready"
    | InvalidRecord         // "invalid record"
    | Aborted               // "aborted"
    | AlreadyUploaded       // "already uploaded"
    | FetchFailed           // an HTTP request failed
    | RepeatedAuthenticate  // "repeated authenticate"
    | InvalidToken          // "invalid token"
    | FetchInfoFailed       // "failed to fetch info"

  /** ASCII text as bytes. */
  function Ascii(s: string): Text
  {
    if |s| == 0 then [] else [(s[0] as int) % 0x100] + Ascii(s[1..])
  }

  function Reason(f: Fault): Text
  {
    Ascii(match f
      case NoRoom => "no room"
      case AlreadyInRoom => "already in room"
      case IdOccupied => "create-id-occupied"
      case RoomNotFound => "room not found"
      case RoomLocked => "join-room-locked"
      case GameOngoing => "join-game-ongoing"
      case CantMonitor => "join-cant-monitor"
      case RoomFull => "join-room-full"
      case NotHost => "only host can do this"
      case InvalidState => "invalid state"
      case NoChartSelected => "start-no-chart-selected"
      case AlreadyReady => "already ready"
      case NotReady => "not ready"
      case InvalidRecord => "invalid record"
      case Aborted => "aborted"
      case AlreadyUploaded => "already uploaded"
      case FetchFailed => "request failed"
      case RepeatedAuthenticate => "repeated authenticate"
      case InvalidToken => "invalid token"
      case FetchInfoFailed => "failed to fetch info")
  }

  /** The server-side result of a command, before `err_to_str`. */
  datatype Outcome<T> = Done(value: T) | Failed(fault: Fault)

  /** `err_to_str`. */
  function Answer<T>(o: Outcome<T>): SResult<T>
  {
    if o.Done? then SOk(o.value) else SErr(Reason(o.fault))
  }

  /** The fields of a `User` that the server changes; `mark` is the dangle
      mark the user holds, if any, by the number it was armed under. */
  datatype User = User(
    id: i32, name: Text, monitor: bool, room: Option<Room>,
    gameTimeBits: u32, mark: Option<nat>)

  /** `User::to_info`. */
  function Info(u: User): UserInfo
  {
    UserInfo(u.id, u.name, u.monitor)
  }

  // ---------------------------------------------------------------------
  // The per-player parts of a game, as functions of the room state.

  /** A state change of the room and the failure it reports, if any. */
  datatype Step = Step(state: InternalState, fault: Option<Fault>)

  /** `Ready`: in WaitForReady the user joins `started`, unless already
      there; in any other state nothing happens. */
  function MarkReady(s: InternalState, uid: i32): Step
  {
    match s
    case WaitForReady(started) =>
      if uid in started then Step(s, Some(AlreadyReady))
      else Step(WaitForReady(started + {uid}), None)
    case _ => Step(s, None)
  }

  /** `CancelReady`: in WaitForReady the user leaves `started`, and when the
      user is the host the game is called off; it fails for a user that is
      not ready, and does nothing in any other state. */
  function UnmarkReady(s: InternalState, uid: i32, isHost: bool): Step
  {
    match s
    case WaitForReady(started) =>
      if uid !in started then Step(s, Some(NotReady))
      else if isHost then Step(InternalState.SelectChart, None)
      else Step(WaitForReady(started - {uid}), None)
    case _ => Step(s, None)
  }

  /** `Played` once the record is fetched: refused for a player who
      aborted; a second upload replaces the stored record and then fails;
      nothing happens outside a game. */
  function RecordPlayed(s: InternalState, uid: i32, rec: Record): Step
  {
    match s
    case Playing(results, aborted) =>
      if uid in aborted then Step(s, Some(Aborted))
      else if uid in results then Step(InternalState.Playing(results[uid := rec], aborted), Some(AlreadyUploaded))
      else Step(InternalState.Playing(results[uid := rec], aborted), None)
    case _ => Step(s, None)
  }

  /** `Abort`: refused after an upload and for a second abort; nothing
      happens outside a game. */
  function RecordAbort(s: InternalState, uid: i32): Step
  {
    match s
    case Playing(results, aborted) =>
      if uid in results then Step(s, Some(AlreadyUploaded))
      else if uid in aborted then Step(s, Some(Aborted))
      else Step(InternalState.Playing(results, aborted + {uid}), None)
    case _ => Step(s, None)
  }

  /** Ready followed by CancelReady, for a user who is not the host and was
      not ready, restores the room state. */
  lemma ReadyThenCancel(s: InternalState, uid: i32)
    requires s.WaitForReady? && uid !in s.started
    ensures MarkReady(s, uid).fault == None
    ensures UnmarkReady(MarkReady(s, uid).state, uid, false) == Step(s, None)
  {
    assert s.started + {uid} - {uid} == s.started;
  }

  /** A second Ready fails with "already ready" and changes nothing. */
  lemma ReadyTwice(s: InternalState, uid: i32)
    requires s.WaitForReady?
    ensures MarkReady(MarkReady(s, uid).state, uid)
            == Step(MarkReady(s, uid).state, Some(AlreadyReady))
  { }

  /** CancelReady fails exactly for a waiting room the user is not ready in;
      when the host cancels, the room goes back to SelectChart. */
  lemma CancelReadyCases(s: InternalState, uid: i32, isHost: bool)
    ensures UnmarkReady(s, uid, isHost).fault == Some(NotReady) <==> s.WaitForReady? && uid !in s.started
    ensures UnmarkReady(s, uid, isHost).fault.Some? ==> UnmarkReady(s, uid, isHost).state == s
    ensures s.WaitForReady? && uid in s.started && isHost ==>
              UnmarkReady(s, uid, isHost).state == InternalState.SelectChart
    ensures !s.WaitForReady? ==> UnmarkReady(s, uid, isHost) == Step(s, None)
  { }

  /** Uploads and aborts keep every player to at most one of the two. */
  lemma PlayKeepsApart(s: InternalState, uid: i32, rec: Record)
    requires ResultsApart(s)
    ensures ResultsApart(RecordPlayed(s, uid, rec).state)
  { }

  lemma AbortKeepsApart(s: InternalState, uid: i32)
    requires ResultsApart(s)
    ensures ResultsApart(RecordAbort(s, uid).state)
  { }

  /** After a successful upload an abort is refused, and after a successful
      abort an upload is refused; either way the state stays as it is. */
  lemma ResultOrAbort(s: InternalState, uid: i32, rec: Record)
    requires s.Playing?
    ensures RecordPlayed(s, uid, rec).fault == None ==>
              var t := RecordPlayed(s, uid, rec).state;
              RecordAbort(t, uid) == Step(t, Some(AlreadyUploaded))
    ensures RecordAbort(s, uid).fault == None ==>
              var t := RecordAbort(s, uid).state;
              RecordPlayed(t, uid, rec) == Step(t, Some(Aborted))
  { }

  /** The checks of `JoinRoom` before `add_user`, in the order they are made. */
  function JoinRefusal(inRoom: bool, found: bool, locked: bool, selecting: bool,
                       monitor: bool, canMonitor: bool): Option<Fault>
  {
    if inRoom then Some(AlreadyInRoom)
    else if !found then Some(RoomNotFound)
    else if locked then Some(RoomLocked)
    else if !selecting then Some(GameOngoing)
    else if monitor && !canMonitor then Some(CantMonitor)
    else None
  }

  /** A join is refused exactly when one of the checks fails, and the
      reported failure is the first one in the order above. */
  lemma JoinRefusalOrder(inRoom: bool, found: bool, locked: bool, selecting: bool,
                         monitor: bool, canMonitor: bool)
    ensures JoinRefusal(inRoom, found, locked, selecting, monitor, canMonitor) == None
            <==> !inRoom && found && !locked && selecting && (monitor ==> canMonitor)
    ensures JoinRefusal(inRoom, found, locked, selecting, monitor, canMonitor) == Some(RoomLocked)
            <==> !inRoom && found && locked
    ensures JoinRefusal(inRoom, found, locked, selecting, monitor, canMonitor) == Some(CantMonitor)
            ==> !inRoom && found && !locked && selecting
  { }

  /** The reply a command gets: a pong to a ping, none to the touch and
      judge streams, the refusal to a second authentication, and to every
      other command the reply of the same name. */
  predicate Answers(cmd: ClientCommand, resp: Option<ServerCommand>)
  {
    match cmd
    case Ping => resp == Some(Pong)
    case Authenticate(_) => resp == Some(ServerCommand.Authenticate(SErr(Reason(RepeatedAuthenticate))))
    case Touches(_) => resp.None?
    case Judges(_) => resp.None?
    case Chat(_) => resp.Some? && resp.value.Chat?
    case CreateRoom(_) => resp.Some? && resp.value.CreateRoom?
    case JoinRoom(_, _) => resp.Some? && resp.value.JoinRoom?
    case LeaveRoom => resp.Some? && resp.value.LeaveRoom?
    case LockRoom(_) => resp.Some? && resp.value.LockRoom?
    case CycleRoom(_) => resp.Some? && resp.value.CycleRoom?
    case SelectChart(_) => resp.Some? && resp.value.SelectChart?
    case RequestStart => resp.Some? && resp.value.RequestStart?
    case Ready => resp.Some? && resp.value.Ready?
    case CancelReady => resp.Some? && resp.value.CancelReady?
    case Played(_) => resp.Some? && resp.value.Played?
    case Abort => resp.Some? && resp.value.Abort?
  }

  /** The users map once `uid`, named `name` by the API, has
      authenticated: a known user loses its dangle mark, and an unknown one
      is registered in no room. */
  function SignedIn(users: map<i32, User>, uid: i32, name: Text): map<i32, User>
  {
    if uid in users then users[uid := users[uid].(mark := None)]
    else users[uid := User(uid, name, false, None, 0, None)]
  }

  /** The API data a command may need, and the host choice. */
  datatype Oracle = Oracle(chart: Option<Chart>, record: Option<Record>, choice: nat)

  /** `ServerState`: the registered users, keyed by id, and the rooms, keyed
      by room id. */
  class ServerState {
    var users: map<i32, User>
    var rooms: map<Text, Room>
    /** `config.monitors`: who may join as a monitor. */
    const monitorIds: set<i32>
    /** How many dangle marks have been armed. Each `Arc::new(())` of
        `dangle` is a new allocation that no timer armed before can hold;
        numbering the marks says the same. */
    var armed: nat

    ghost function RoomSet(): set<Room>
      reads this`rooms
    {
      rooms.Values
    }

    /** The room a user's `room` field holds, if any. */
    ghost function RoomOf(uid: i32): set<Room>
      reads this`users
    {
      if uid in users && users[uid].room.Some? then {users[uid].room.value} else {}
    }

    /** Every member of `r` is a registered user whose `room` is `r`. */
    ghost predicate Homed(r: Room)
      reads this`users, r`users, r`monitors
    {
      (forall u :: u in r.users ==> u in users && users[u].room == Some(r))
      && (forall u :: u in r.monitors ==> u in users && users[u].room == Some(r))
    }

    ghost predicate Valid()
      reads this`users, this`rooms, this`armed, RoomSet()`users, RoomSet()`monitors, RoomSet()`host,
            RoomSet()`state
    {
      && (forall u :: u in users ==> users[u].id == u && (users[u].mark.Some? ==> users[u].mark.value < armed))
      && (forall k {:trigger RoomOk(k)} :: k in rooms ==> RoomOk(k))
    }

    /** The room registered under `k` carries `k` as its id, is valid, and
        is the room of each of its members. */
    ghost predicate RoomOk(k: Text)
      requires k in rooms
      reads this`users, this`rooms, RoomAt(k)`users, RoomAt(k)`monitors, RoomAt(k)`host, RoomAt(k)`state
    {
      rooms[k].id == k && rooms[k].Valid() && Homed(rooms[k])
    }

    constructor (monitorIds: set<i32>)
      ensures users == map[] && rooms == map[] && this.monitorIds == monitorIds && armed == 0
      ensures Valid()
    {
      users := map[];
      rooms := map[];
      armed := 0;
      this.monitorIds := monitorIds;
    }

    /** Who is on the server now: the handles that still upgrade. */
    function Alive(): set<i32>
      reads this`users
    {
      users.Keys
    }

    /** The room's members (live users, then live monitors) as `UserInfo`. */
    function MemberInfos(r: Room): map<i32, UserInfo>
      reads this, r
    {
      map u | u in users && (u in r.users || u in r.monitors) :: Info(users[u])
    }

    /** What a reconnecting user is told about its room: command.rs's
        `ClientRoomState` for this user. */
    function ClientStateOf(r: Room, uid: i32): ClientRoomState
      reads this, r
    {
      ClientRoomState(r.id, ToClient(r.state, ChartId(r.chart)), r.live, r.locked, r.cycle,
        r.host == uid, r.state.WaitForReady? && uid in r.state.started, MemberInfos(r))
    }

    /** The reply to a successful authentication of `uid`: its info and,
        when it is in a room, what it is told about the room. */
    function Welcome(uid: i32): (UserInfo, Option<ClientRoomState>)
      requires uid in users
      reads this, if users[uid].room.Some? then {users[uid].room.value} else {}
    {
      (Info(users[uid]), if users[uid].room.Some? then Some(ClientStateOf(users[uid].room.value, uid)) else None)
    }

    /** What `Chat` does, replying `r`: the message goes to the user's room
        as the user's. */
    twostate predicate ChatEffect(uid: i32, message: Text, new r: Outcome<()>)
      requires uid in users
      reads this, RoomOf(uid)
    {
      && users == old(users) && rooms == old(rooms)
      && (users[uid].room.None? ==> r == Failed(NoRoom))
      && (users[uid].room.Some? ==>
            var room := users[uid].room.value;
            && r == Done(())
            && room.outbox == old(room.outbox)
                 + [Broadcast(Retain(room.users, Alive()), ServerCommand.Message(Message.Chat(uid, message)))])
    }

    method Chat(uid: i32, message: Text) returns (r: Outcome<()>)
      requires Valid() && uid in users
      modifies RoomOf(uid)`outbox
      ensures Valid()
      ensures ChatEffect(uid, message, r)
    {
      var room := users[uid].room;
      if room.None? {
        return Failed(NoRoom);
      }
      room.value.Send(Message.Chat(uid, message), Alive());
      forall k | k in rooms ensures RoomOk(k) {
        assert old(RoomOk(k));
      }
      r := Done(());
    }

    /** What `LockRoom` does, replying `r`: the host sets the flag and the
        room is told. */
    twostate predicate LockRoomEffect(uid: i32, lock: bool, new r: Outcome<()>)
      requires uid in users
      reads this, RoomOf(uid)
    {
      && users == old(users) && rooms == old(rooms)
      && (users[uid].room.None? ==> r == Failed(NoRoom))
      && (users[uid].room.Some? ==>
            var room := users[uid].room.value;
            if room.host != uid then r == Failed(NotHost) && unchanged(room)
            else
              && r == Done(()) && room.locked == lock
              && room.outbox == old(room.outbox)
                   + [Broadcast(Retain(room.users, Alive()), ServerCommand.Message(Message.LockRoom(lock)))])
    }

    method LockRoom(uid: i32, lock: bool) returns (r: Outcome<()>)
      requires Valid() && uid in users
      modifies RoomOf(uid)`locked, RoomOf(uid)`outbox
      ensures Valid()
      ensures LockRoomEffect(uid, lock, r)
    {
      var room := users[uid].room;
      if room.None? {
        return Failed(NoRoom);
      }
      if !room.value.IsHost(uid) {
        return Failed(NotHost);
      }
      room.value.locked := lock;
      room.value.Send(Message.LockRoom(lock), Alive());
      forall k | k in rooms ensures RoomOk(k) {
        assert old(RoomOk(k));
      }
      r := Done(());
    }

    /** What `CycleRoom` does, replying `r`: the host sets the flag and the
        room is told. */
    twostate predicate CycleRoomEffect(uid: i32, cycle: bool, new r: Outcome<()>)
      requires uid in users
      reads this, RoomOf(uid)
    {
      && users == old(users) && rooms == old(rooms)
      && (users[uid].room.None? ==> r == Failed(NoRoom))
      && (users[uid].room.Some? ==>
            var room := users[uid].room.value;
            if room.host != uid then r == Failed(NotHost) && unchanged(room)
            else
              && r == Done(()) && room.cycle == cycle
              && room.outbox == old(room.outbox)
                   + [Broadcast(Retain(room.users, Alive()), ServerCommand.Message(Message.CycleRoom(cycle)))])
    }

    method CycleRoom(uid: i32, cycle: bool) returns (r: Outcome<()>)
      requires Valid() && uid in users
      modifies RoomOf(uid)`cycle, RoomOf(uid)`outbox
      ensures Valid()
      ensures CycleRoomEffect(uid, cycle, r)
    {
      var room := users[uid].room;
      if room.None? {
        return Failed(NoRoom);
      }
      if !room.value.IsHost(uid) {
        return Failed(NotHost);
      }
      room.value.cycle := cycle;
      room.value.Send(Message.CycleRoom(cycle), Alive());
      forall k | k in rooms ensures RoomOk(k) {
        assert old(RoomOk(k));
      }
      r := Done(());
    }

    /** The room registered under `id`, if any. */
    ghost function RoomAt(id: Text): set<Room>
      reads this`rooms
    {
      if id in rooms then {rooms[id]} else {}
    }

    /** `to_info` of each listed user whose handle still upgrades, in order
        (`filter_map(upgrade)`, then `to_info`). */
    function Infos(ids: seq<i32>): (r: seq<UserInfo>)
      reads this`users
      ensures |r| <= |ids|
    {
      if |ids| == 0 then []
      else (if ids[0] in users then [Info(users[ids[0]])] else []) + Infos(ids[1..])
    }

    /** When every listed user is registered, each is reported, in order. */
    lemma {:induction false} InfosAll(ids: seq<i32>)
      requires forall x :: x in ids ==> x in users
      ensures |Infos(ids)| == |ids|
      ensures forall i :: 0 <= i < |ids| ==> Infos(ids)[i] == Info(users[ids[i]])
    {
      if |ids| > 0 {
        InfosAll(ids[1..]);
      }
    }

    /** A registered room is valid and is the room of each of its members;
        in particular its members, and its host, are alive. */
    lemma Registered(r: Room)
      requires Valid() && r in RoomSet()
      ensures r.Valid() && Homed(r)
      ensures forall x :: x in r.users ==> x in Alive()
      ensures forall x :: x in r.monitors ==> x in Alive()
      ensures r.host in Alive()
    {
      var k :| k in rooms && rooms[k] == r;
      assert RoomOk(k);
    }

    /** `CreateRoom`: refused for a user already in a room and for an id in
        use, changing nothing; otherwise a new room with the user as host is
        registered under the id, announced, and becomes the user's room. */
    method CreateRoom(uid: i32, id: Text) returns (r: Outcome<()>)
      requires Valid() && uid in users
      modifies this
      ensures Valid()
      ensures CreateRoomEffect(uid, id, r)
    {
      if users[uid].room.Some? {
        return Failed(AlreadyInRoom);
      }
      if id in rooms {
        return Failed(IdOccupied);
      }
      var room := new Room(id, uid);
      rooms := rooms[id := room];
      RetainAll([uid], Alive());
      room.Send(Message.CreateRoom(uid), Alive());
      users := users[uid := users[uid].(room := Some(room))];
      forall k | k in rooms ensures RoomOk(k) {
        var q := rooms[k];
        if k != id {
          assert old(RoomOk(k));
          forall u | u in q.users || u in q.monitors
            ensures u in users && users[u].room == Some(q)
          {
            assert u != uid;
          }
        }
      }
      r := Done(());
    }

    /** The contract of `CreateRoom` as one fact, for `Process` to pass on. */
    twostate predicate CreateRoomEffect(uid: i32, id: Text, new r: Outcome<()>)
      requires old(uid in users)
      reads this, RoomAt(id)
    {
      && (old(users[uid].room).Some? ==>
          r == Failed(AlreadyInRoom) && users == old(users) && rooms == old(rooms))
      && (old(users[uid].room).None? && id in old(rooms) ==>
          r == Failed(IdOccupied) && users == old(users) && rooms == old(rooms))
      && (old(users[uid].room).None? && id !in old(rooms) ==>
          && r == Done(()) && id in rooms && fresh(rooms[id])
          && rooms == old(rooms)[id := rooms[id]]
          && users == old(users)[uid := old(users[uid]).(room := Some(rooms[id]))]
          && rooms[id].host == uid && rooms[id].users == [uid] && rooms[id].monitors == []
          && rooms[id].state == InternalState.SelectChart && rooms[id].chart == None
          && !rooms[id].live && !rooms[id].locked && !rooms[id].cycle
          && rooms[id].outbox == [Broadcast([uid], ServerCommand.Message(Message.CreateRoom(uid)))])
    }

    /** The checks `JoinRoom` makes before `add_user`. */
    ghost function Refusal(uid: i32, id: Text, monitor: bool): Option<Fault>
      requires uid in users
      reads this, RoomAt(id)
    {
      JoinRefusal(users[uid].room.Some?, id in rooms, id in rooms && rooms[id].locked,
                  id in rooms && rooms[id].state.SelectChart?, monitor, uid in monitorIds)
    }

    /** `JoinRoom`: the checks of JoinRefusal, then `add_user`, which refuses
        a ninth player. On success the user (with its monitor flag) is added
        to the room's users or monitors, a monitor makes the room live, the
        room is told, the room becomes the user's, and the reply lists the
        room's state, members and liveness. A refused join changes nothing. */
    method JoinRoom(uid: i32, id: Text, monitor: bool) returns (r: Outcome<JoinRoomResponse>)
      requires Valid() && uid in users
      modifies this`users, RoomAt(id)`users, RoomAt(id)`monitors, RoomAt(id)`live, RoomAt(id)`outbox
      ensures Valid()
      ensures uid in users
      ensures rooms == old(rooms)
      ensures JoinRoomEffect(uid, id, monitor, r)
    {
      if users[uid].room.Some? {
        return Failed(AlreadyInRoom);
      }
      if id !in rooms {
        return Failed(RoomNotFound);
      }
      var room := rooms[id];
      if room.locked {
        return Failed(RoomLocked);
      }
      if !room.state.SelectChart? {
        return Failed(GameOngoing);
      }
      if monitor && uid !in monitorIds {
        return Failed(CantMonitor);
      }
      r := Admit(uid, room, monitor);
    }

    /** The contract of `JoinRoom` as one fact, for `Process` to pass on. */
    twostate predicate JoinRoomEffect(uid: i32, id: Text, monitor: bool, new r: Outcome<JoinRoomResponse>)
      requires old(uid in users) && uid in users
      reads this, RoomAt(id)
    {
      && rooms == old(rooms)
      && (old(Refusal(uid, id, monitor)).Some? ==>
          && r == Failed(old(Refusal(uid, id, monitor)).value) && users == old(users)
          && (id in rooms ==> unchanged(rooms[id])))
      && (old(Refusal(uid, id, monitor)).None? ==>
          var room := rooms[id];
          && (!monitor && old(|room.users|) >= ROOM_MAX_USERS ==>
                r == Failed(RoomFull) && users == old(users) && unchanged(room))
          && (monitor || old(|room.users|) < ROOM_MAX_USERS ==>
                && r.Done?
                && users == old(users)[uid := old(users[uid]).(monitor := monitor, room := Some(room))]
                && room.live == (old(room.live) || monitor)
                && room.outbox == old(room.outbox) + JoinNotices(room.users, Info(users[uid]), uid, users[uid].name))
          && (monitor ==> room.users == old(room.users) && room.monitors == old(room.monitors) + [uid])
          && (!monitor && old(|room.users|) < ROOM_MAX_USERS ==>
                room.users == old(room.users) + [uid] && room.monitors == old(room.monitors))
          && (r.Done? ==>
                && r.value == JoinRoomResponse(ToClient(room.state, ChartId(room.chart)),
                                               Infos(room.users + room.monitors), room.live)
                && |r.value.users| == |room.users| + |room.monitors|))
    }

    /** The second half of `JoinRoom`, once the checks have passed: the
        user is in no room and may join `room` as asked. */
    method Admit(uid: i32, room: Room, monitor: bool) returns (r: Outcome<JoinRoomResponse>)
      requires Valid() && uid in users && users[uid].room.None? && room in RoomSet()
      modifies this`users, room`users, room`monitors, room`live, room`outbox
      ensures Valid()
      ensures !monitor && old(|room.users|) >= ROOM_MAX_USERS ==>
        r == Failed(RoomFull) && users == old(users) && unchanged(room)
      ensures monitor || old(|room.users|) < ROOM_MAX_USERS ==>
        && r.Done?
        && users == old(users)[uid := old(users[uid]).(monitor := monitor, room := Some(room))]
        && room.live == (old(room.live) || monitor)
        && room.outbox == old(room.outbox) + JoinNotices(room.users, Info(users[uid]), uid, users[uid].name)
      ensures monitor ==> room.users == old(room.users) && room.monitors == old(room.monitors) + [uid]
      ensures !monitor && old(|room.users|) < ROOM_MAX_USERS ==>
        room.users == old(room.users) + [uid] && room.monitors == old(room.monitors)
      ensures r.Done? ==>
        && r.value == JoinRoomResponse(ToClient(room.state, ChartId(room.chart)),
                                       Infos(room.users + room.monitors), room.live)
        && |r.value.users| == |room.users| + |room.monitors|
    {
      Registered(room);
      assert uid !in room.users && uid !in room.monitors;
      // `user.monitor` is set before the room is told, `user.room` after;
      // nothing in between reads either.
      var joined := users[uid].(monitor := monitor, room := Some(room));
      var added := room.Join(uid, monitor, Info(joined), joined.name, Alive());
      if !added {
        return Failed(RoomFull);
      }
      users := users[uid := joined];
      assert Valid() by {
        forall k | k in rooms ensures RoomOk(k) {
          var q := rooms[k];
          assert old(RoomOk(k));
          if q == room {
            forall u | u in q.users || u in q.monitors
              ensures u in users && users[u].room == Some(q)
            {
              if u != uid {
                assert u in old(q.users) || u in old(q.monitors);
              }
            }
          } else {
            assert uid !in q.users && uid !in q.monitors;
          }
        }
      }
      Registered(room);
      InfosAll(room.users + room.monitors);
      r := Done(JoinRoomResponse(ToClient(room.state, ChartId(room.chart)),
                                 Infos(room.users + room.monitors), room.live));
    }

    /** `LeaveRoom`: refused for a user in no room, changing nothing;
        otherwise the user departs from its room as `Departed` says. */
    method LeaveRoom(uid: i32, choice: nat) returns (r: Outcome<()>)
      requires Valid() && uid in users
      modifies this`users, this`rooms, RoomOf(uid)`users, RoomOf(uid)`monitors, RoomOf(uid)`host,
               RoomOf(uid)`state, RoomOf(uid)`outbox
      ensures Valid()
      ensures LeaveRoomEffect(uid, old(users[uid].room), choice, r)
    {
      if users[uid].room.None? {
        return Failed(NoRoom);
      }
      Depart(uid, users[uid].room.value, choice);
      r := Done(());
    }

    /** What `LeaveRoom` does, replying `r`, to a user whose room was `room`. */
    twostate predicate LeaveRoomEffect(uid: i32, room: Option<Room>, choice: nat, new r: Outcome<()>)
      requires old(uid in users) && old(users[uid].room) == room
      reads this, if room.Some? then {room.value} else {}
    {
      && (room.None? ==> r == Failed(NoRoom) && users == old(users) && rooms == old(rooms))
      && (room.Some? ==>
            && r == Done(())
            && users == old(users)[uid := old(users[uid]).(room := None)]
            && Departed(uid, room.value, choice))
    }

    /** What `on_user_leave` and the removal of an emptied room do when
        `uid` departs from `room`: the room keeps only the members still on
        the server other than `uid`; it is dropped from the map exactly when
        its host left and no player remains, and otherwise rechecks whether
        all are ready; a host who left is replaced by the player `choice`
        picks; and the room is told who left, who the new host is and what
        the recheck started. */
    twostate predicate Departed(uid: i32, room: Room, choice: nat)
      requires old(uid in users)
      reads this`rooms, room
    {
      var alive := old(Alive());
      var dropped := old(room.host) == uid && |room.users| == 0;
      var handed := old(room.host) == uid && !dropped;
      && room.users == Retain(old(room.users), alive - {uid})
      && room.monitors == Retain(old(room.monitors), alive - {uid})
      && (dropped ==> rooms == old(rooms) - {room.id} && room.state == old(room.state))
      && (!dropped ==> rooms == old(rooms) && room.state == ReadyStep(old(room.state), room.users))
      && (old(room.host) != uid ==> room.host == old(room.host))
      && (handed ==> room.host == room.users[choice % |room.users|] && room.host in room.users)
      && room.outbox == old(room.outbox) + [LeaveNotice(old(room.users), alive, uid, old(users[uid].name))]
           + (if handed then HostNotices(room.users, room.host) else [])
           + (if dropped then [] else ReadyNotices(old(room.state), room.users, room.chart))
    }

    /** `on_user_leave` on the user's room, which then no longer lists the
        user; the user has no room. */
    method Depart(uid: i32, room: Room, choice: nat)
      requires Valid() && uid in users && users[uid].room == Some(room)
      modifies this`users, this`rooms, room`users, room`monitors, room`host, room`state, room`outbox
      ensures Valid()
      ensures users == old(users)[uid := old(users[uid]).(room := None)]
      ensures Departed(uid, room, choice)
    {
      if room in RoomSet() {
        Registered(room);
      }
      var alive := Alive();
      var drop := room.OnUserLeave(uid, users[uid].name, alive, choice);
      RetainMembers(old(room.users), alive - {uid});
      RetainMembers(old(room.monitors), alive - {uid});
      users := users[uid := users[uid].(room := None)];
      if drop {
        rooms := rooms - {room.id};
      }
      forall k | k in rooms ensures RoomOk(k) {
        var q := rooms[k];
        assert old(RoomOk(k));
        if q != room {
          assert uid !in q.users && uid !in q.monitors;
        }
        forall u | u in q.users || u in q.monitors
          ensures u in users && users[u].room == Some(q)
        {
          assert u != uid;
        }
      }
    }


    /** `Ready`: in WaitForReady the user is marked ready, the room is told,
        and `check_all_ready` may start the game; a user already ready is
        refused; in any other state nothing happens. */
    method Ready(uid: i32) returns (r: Outcome<()>)
      requires Valid() && uid in users
      modifies RoomOf(uid)`state, RoomOf(uid)`outbox
      ensures Valid()
      ensures ReadyEffect(uid, r)
    {
      if users[uid].room.None? {
        return Failed(NoRoom);
      }
      var room := users[uid].room.value;
      if room in RoomSet() {
        Registered(room);
      }
      var step := MarkReady(room.state, uid);
      if step.fault.Some? {
        return Failed(step.fault.value);
      }
      if room.state.WaitForReady? {
        room.Advance(step.state, Message.Ready(uid), Alive());
      }
      forall k | k in rooms ensures RoomOk(k) {
        assert old(RoomOk(k));
      }
      r := Done(());
    }

    /** The contract of `Ready` as one fact, for `Process` to pass on. */
    twostate predicate ReadyEffect(uid: i32, new r: Outcome<()>)
      requires uid in users
      reads this, RoomOf(uid)
    {
      && users == old(users) && rooms == old(rooms)
      && (users[uid].room.None? ==> r == Failed(NoRoom))
      && (users[uid].room.Some? ==>
          var room := users[uid].room.value;
          var step := MarkReady(old(room.state), uid);
          var live := Retain(room.users, Alive());
          && (step.fault.Some? ==> r == Failed(step.fault.value) && unchanged(room))
          && (step.fault.None? ==> r == Done(()))
          && (!old(room.state).WaitForReady? ==> unchanged(room))
          && (step.fault.None? && old(room.state).WaitForReady? ==>
                && room.state == ReadyStep(step.state, live)
                && room.outbox == old(room.outbox) + [Broadcast(live, ServerCommand.Message(Message.Ready(uid)))]
                                  + ReadyNotices(step.state, live, room.chart)))
    }


    /** `CancelReady`: in WaitForReady a user who is not ready is refused;
        otherwise the user leaves `started`, and a host calls the game off
        (the room goes back to SelectChart and the new state is broadcast)
        while anyone else is announced as no longer ready. `check_all_ready`
        is not run. In any other state nothing happens. */
    method CancelReady(uid: i32) returns (r: Outcome<()>)
      requires Valid() && uid in users
      modifies RoomOf(uid)`state, RoomOf(uid)`outbox
      ensures Valid()
      ensures CancelReadyEffect(uid, r)
    {
      if users[uid].room.None? {
        return Failed(NoRoom);
      }
      var room := users[uid].room.value;
      if room in RoomSet() {
        Registered(room);
      }
      var host := room.IsHost(uid);
      var step := UnmarkReady(room.state, uid, host);
      if step.fault.Some? {
        return Failed(step.fault.value);
      }
      if room.state.WaitForReady? {
        var msg := if host then Message.CancelGame(uid) else Message.CancelReady(uid);
        room.Shift(step.state, msg, Alive(), host);
      }
      forall k | k in rooms ensures RoomOk(k) {
        assert old(RoomOk(k));
      }
      r := Done(());
    }

    /** The contract of `CancelReady` as one fact, for `Process` to pass on. */
    twostate predicate CancelReadyEffect(uid: i32, new r: Outcome<()>)
      requires uid in users
      reads this, RoomOf(uid)
    {
      && users == old(users) && rooms == old(rooms)
      && (users[uid].room.None? ==> r == Failed(NoRoom))
      && (users[uid].room.Some? ==>
          var room := users[uid].room.value;
          var host := old(room.host) == uid;
          var step := UnmarkReady(old(room.state), uid, host);
          var live := Retain(room.users, Alive());
          && (step.fault.Some? ==> r == Failed(step.fault.value) && unchanged(room))
          && (step.fault.None? ==> r == Done(()) && room.state == step.state)
          && (!old(room.state).WaitForReady? ==> unchanged(room))
          && (step.fault.None? && old(room.state).WaitForReady? && host ==>
                room.outbox == old(room.outbox)
                  + [Broadcast(live, ServerCommand.Message(Message.CancelGame(uid))),
                     Broadcast(live, ChangeState(ToClient(room.state, ChartId(room.chart))))])
          && (step.fault.None? && old(room.state).WaitForReady? && !host ==>
                room.outbox == old(room.outbox) + [Broadcast(live, ServerCommand.Message(Message.CancelReady(uid)))]))
    }

    /** `Abort`: in a game, refused after an upload and for a second abort;
        otherwise the user is recorded as aborted, the room is told, and
        `check_all_ready` may end the game. Outside a game nothing happens. */
    method Abort(uid: i32) returns (r: Outcome<()>)
      requires Valid() && uid in users
      modifies RoomOf(uid)`state, RoomOf(uid)`outbox
      ensures Valid()
      ensures AbortEffect(uid, r)
    {
      if users[uid].room.None? {
        return Failed(NoRoom);
      }
      var room := users[uid].room.value;
      if room in RoomSet() {
        Registered(room);
        AbortKeepsApart(room.state, uid);
      }
      var step := RecordAbort(room.state, uid);
      if step.fault.Some? {
        return Failed(step.fault.value);
      }
      if room.state.Playing? {
        room.Advance(step.state, Message.Abort(uid), Alive());
      }
      forall k | k in rooms ensures RoomOk(k) {
        assert old(RoomOk(k));
      }
      r := Done(());
    }

    /** The contract of `Abort` as one fact, for `Process` to pass on. */
    twostate predicate AbortEffect(uid: i32, new r: Outcome<()>)
      requires uid in users
      reads this, RoomOf(uid)
    {
      && users == old(users) && rooms == old(rooms)
      && (users[uid].room.None? ==> r == Failed(NoRoom))
      && (users[uid].room.Some? ==>
          var room := users[uid].room.value;
          var step := RecordAbort(old(room.state), uid);
          var live := Retain(room.users, Alive());
          && (step.fault.Some? ==> r == Failed(step.fault.value) && unchanged(room))
          && (step.fault.None? ==> r == Done(()))
          && (!old(room.state).Playing? ==> unchanged(room))
          && (step.fault.None? && old(room.state).Playing? ==>
                && room.state == ReadyStep(step.state, live)
                && room.outbox == old(room.outbox) + [Broadcast(live, ServerCommand.Message(Message.Abort(uid)))]
                                  + ReadyNotices(step.state, live, room.chart)))
    }

    /** `Played`: the record named by the command is fetched (`fetched`,
        `None` when the request fails) and must be the user's own; the room
        is then told the score whatever its state, and in a game the upload
        is recorded as RecordPlayed says, `check_all_ready` running only
        when it succeeds. */
    method Played(uid: i32, fetched: Option<Record>) returns (r: Outcome<()>)
      requires Valid() && uid in users
      modifies RoomOf(uid)`state, RoomOf(uid)`outbox
      ensures Valid()
      ensures PlayedEffect(uid, fetched, r)
    {
      if users[uid].room.None? {
        return Failed(NoRoom);
      }
      var room := users[uid].room.value;
      if fetched.None? {
        return Failed(FetchFailed);
      }
      var rec := fetched.value;
      if rec.player != uid {
        return Failed(InvalidRecord);
      }
      if room in RoomSet() {
        Registered(room);
        PlayKeepsApart(room.state, uid, rec);
      }
      var step := RecordPlayed(room.state, uid, rec);
      var msg := Message.Played(uid, rec.score, rec.accuracyBits, rec.fullCombo);
      // `send` does not read the state, so it may come after the upload is
      // recorded.
      if step.fault.None? && room.state.Playing? {
        room.Advance(step.state, msg, Alive());
      } else {
        room.Shift(step.state, msg, Alive(), false);
      }
      forall k | k in rooms ensures RoomOk(k) {
        assert old(RoomOk(k));
      }
      r := if step.fault.Some? then Failed(step.fault.value) else Done(());
    }

    /** The contract of `Played` as one fact, for `Process` to pass on. */
    twostate predicate PlayedEffect(uid: i32, fetched: Option<Record>, new r: Outcome<()>)
      requires uid in users
      reads this, RoomOf(uid)
    {
      && users == old(users) && rooms == old(rooms)
      && (users[uid].room.None? ==> r == Failed(NoRoom))
      && (users[uid].room.Some? && fetched.None? ==>
          r == Failed(FetchFailed) && unchanged(users[uid].room.value))
      && (users[uid].room.Some? && fetched.Some? && fetched.value.player != uid ==>
          r == Failed(InvalidRecord) && unchanged(users[uid].room.value))
      && (users[uid].room.Some? && fetched.Some? && fetched.value.player == uid ==>
          var room := users[uid].room.value;
          var rec := fetched.value;
          var step := RecordPlayed(old(room.state), uid, rec);
          var live := Retain(room.users, Alive());
          var told := old(room.outbox)
            + [Broadcast(live, ServerCommand.Message(Message.Played(uid, rec.score, rec.accuracyBits, rec.fullCombo)))];
          && (step.fault.Some? ==> r == Failed(step.fault.value) && room.state == step.state && room.outbox == told)
          && (step.fault.None? ==> r == Done(()))
          && (!old(room.state).Playing? ==> room.state == old(room.state) && room.outbox == told)
          && (step.fault.None? && old(room.state).Playing? ==>
                room.state == ReadyStep(step.state, live)
                && room.outbox == told + ReadyNotices(step.state, live, room.chart)))
    }


    /** `RequestStart`: only in SelectChart, only for the host, and only
        once a chart is selected; then the room waits for its players with
        the host already ready, as Room.Start says. */
    method RequestStart(uid: i32) returns (r: Outcome<()>)
      requires Valid() && uid in users
      modifies RoomOf(uid)`state, RoomOf(uid)`outbox
      ensures Valid()
      ensures RequestStartEffect(uid, r)
    {
      if users[uid].room.None? {
        return Failed(NoRoom);
      }
      var room := users[uid].room.value;
      if !room.state.SelectChart? {
        return Failed(InvalidState);
      }
      if !room.IsHost(uid) {
        return Failed(NotHost);
      }
      if room.chart.None? {
        return Failed(NoChartSelected);
      }
      if room in RoomSet() {
        Registered(room);
      }
      room.Start(uid, Alive());
      forall k | k in rooms ensures RoomOk(k) {
        assert old(RoomOk(k));
      }
      r := Done(());
    }

    /** The contract of `RequestStart` as one fact, for `Process` to pass on. */
    twostate predicate RequestStartEffect(uid: i32, new r: Outcome<()>)
      requires uid in users
      reads this, RoomOf(uid)
    {
      && users == old(users) && rooms == old(rooms)
      && (users[uid].room.None? ==> r == Failed(NoRoom))
      && (users[uid].room.Some? ==>
          var room := users[uid].room.value;
          var live := Retain(room.users, Alive());
          var waiting := InternalState.WaitForReady({uid});
          && (!old(room.state).SelectChart? ==> r == Failed(InvalidState) && unchanged(room))
          && (old(room.state).SelectChart? && room.host != uid ==> r == Failed(NotHost) && unchanged(room))
          && (old(room.state).SelectChart? && room.host == uid && room.chart.None? ==>
                r == Failed(NoChartSelected) && unchanged(room))
          && (old(room.state).SelectChart? && room.host == uid && room.chart.Some? ==>
                && r == Done(())
                && room.state == ReadyStep(waiting, live)
                && room.outbox == old(room.outbox)
                     + [Broadcast(live, ServerCommand.Message(Message.GameStart(uid))),
                        Broadcast(live, ChangeState(Command.RoomState.WaitingForReady))]
                     + ReadyNotices(waiting, live, room.chart)))
    }

    /** `SelectChart`: only in SelectChart and only for the host; the chart
        named by the command is fetched (`fetched`, `None` when the request
        fails), the room is told who chose which chart, the chart is
        stored, and the new state is broadcast. */
    method SelectChart(uid: i32, fetched: Option<Chart>) returns (r: Outcome<()>)
      requires Valid() && uid in users
      modifies RoomOf(uid)`chart, RoomOf(uid)`outbox
      ensures Valid()
      ensures SelectChartEffect(uid, fetched, r)
    {
      if users[uid].room.None? {
        return Failed(NoRoom);
      }
      var room := users[uid].room.value;
      if !room.state.SelectChart? {
        return Failed(InvalidState);
      }
      if !room.IsHost(uid) {
        return Failed(NotHost);
      }
      if fetched.None? {
        return Failed(FetchFailed);
      }
      var c := fetched.value;
      room.Send(Message.SelectChart(uid, c.name, c.id), Alive());
      room.chart := Some(c);
      room.OnStateChange(Alive());
      forall k | k in rooms ensures RoomOk(k) {
        assert old(RoomOk(k));
      }
      r := Done(());
    }

    /** The contract of `SelectChart` as one fact, for `Process` to pass on. */
    twostate predicate SelectChartEffect(uid: i32, fetched: Option<Chart>, new r: Outcome<()>)
      requires uid in users
      reads this, RoomOf(uid)
    {
      && users == old(users) && rooms == old(rooms)
      && (users[uid].room.None? ==> r == Failed(NoRoom))
      && (users[uid].room.Some? ==>
          var room := users[uid].room.value;
          var live := Retain(room.users, Alive());
          && (!room.state.SelectChart? ==> r == Failed(InvalidState) && unchanged(room))
          && (room.state.SelectChart? && room.host != uid ==> r == Failed(NotHost) && unchanged(room))
          && (room.state.SelectChart? && room.host == uid && fetched.None? ==>
                r == Failed(FetchFailed) && unchanged(room))
          && (room.state.SelectChart? && room.host == uid && fetched.Some? ==>
                var c := fetched.value;
                && r == Done(())
                && room.chart == Some(c)
                && room.outbox == old(room.outbox)
                     + [Broadcast(live, ServerCommand.Message(Message.SelectChart(uid, c.name, c.id))),
                        Broadcast(live, ChangeState(Command.RoomState.SelectChart(Some(c.id))))]))
    }

    /** `Touches`: in a live room the time of the last frame, if any,
        becomes the user's game time and the frames go to the room's
        monitors; otherwise, and for a user in no room, nothing happens.
        There is no reply. */
    method Touches(uid: i32, frames: seq<TouchFrame>)
      requires Valid() && uid in users
      modifies this`users, RoomOf(uid)`outbox
      ensures Valid()
      ensures uid in users
      ensures TouchesEffect(uid, frames)
    {
      if users[uid].room.None? {
        return;
      }
      var room := users[uid].room.value;
      if !room.live {
        return;
      }
      if |frames| > 0 {
        users := users[uid := users[uid].(gameTimeBits := frames[|frames| - 1].timeBits)];
      }
      room.BroadcastMonitors(ServerCommand.Touches(uid, frames), Alive());
      forall k | k in rooms ensures RoomOk(k) {
        assert old(RoomOk(k));
      }
    }

    /** The contract of `Touches` as one fact, for `Process` to pass on. */
    twostate predicate TouchesEffect(uid: i32, frames: seq<TouchFrame>)
      requires old(uid in users) && uid in users
      reads this, RoomOf(uid)
    {
      && rooms == old(rooms) && users[uid].room == old(users[uid].room)
      && (users[uid].room.None? || !users[uid].room.value.live ==>
            users == old(users) && (users[uid].room.Some? ==> unchanged(users[uid].room.value)))
      && (users[uid].room.Some? && users[uid].room.value.live ==>
            var room := users[uid].room.value;
            && (|frames| == 0 ==> users == old(users))
            && (|frames| > 0 ==>
                  users == old(users)[uid := old(users[uid]).(gameTimeBits := frames[|frames| - 1].timeBits)])
            && room.outbox == old(room.outbox) + [Broadcast(Retain(room.monitors, Alive()), ServerCommand.Touches(uid, frames))])
    }

    /** `Judges`: in a live room the judge events go to the room's monitors;
        otherwise, and for a user in no room, nothing happens. There is no
        reply. */
    method Judges(uid: i32, judges: seq<JudgeEvent>)
      requires Valid() && uid in users
      modifies RoomOf(uid)`outbox
      ensures Valid()
      ensures JudgesEffect(uid, judges)
    {
      if users[uid].room.None? {
        return;
      }
      var room := users[uid].room.value;
      if !room.live {
        return;
      }
      room.BroadcastMonitors(ServerCommand.Judges(uid, judges), Alive());
      forall k | k in rooms ensures RoomOk(k) {
        assert old(RoomOk(k));
      }
    }

    /** The contract of `Judges` as one fact, for `Process` to pass on. */
    twostate predicate JudgesEffect(uid: i32, judges: seq<JudgeEvent>)
      requires uid in users
      reads this, RoomOf(uid)
    {
      && users == old(users) && rooms == old(rooms)
      && (users[uid].room.Some? && users[uid].room.value.live ==>
          var room := users[uid].room.value;
          room.outbox == old(room.outbox) + [Broadcast(Retain(room.monitors, Alive()), ServerCommand.Judges(uid, judges))])
      && (users[uid].room.Some? && !users[uid].room.value.live ==> unchanged(users[uid].room.value))
    }


    /** `User::dangle`, when the connection is lost: a user in a room that
        is playing is removed from the server and departs from the room at
        once; anyone else gets a fresh dangle mark, numbered `armed`, and
        stays, and `timer` is the mark its timer will look for. */
    method Dangle(uid: i32, choice: nat) returns (timer: Option<nat>)
      requires Valid() && uid in users
      modifies this`users, this`rooms, this`armed, RoomOf(uid)`users, RoomOf(uid)`monitors,
               RoomOf(uid)`host, RoomOf(uid)`state, RoomOf(uid)`outbox
      ensures Valid()
      ensures old(users[uid].room).None? || !old(users[uid].room.value.state).Playing? ==>
        && timer == Some(old(armed)) && armed == old(armed) + 1
        && users == old(users)[uid := old(users[uid]).(mark := timer)] && rooms == old(rooms)
        && (old(users[uid].room).Some? ==> unchanged(old(users[uid].room.value)))
      ensures old(users[uid].room).Some? && old(users[uid].room.value.state).Playing? ==>
        && timer.None? && armed == old(armed)
        && users == old(users) - {uid} && Departed(uid, old(users[uid].room.value), choice)
      // The new mark is unlike any mark held before, so no earlier timer takes it for its own.
      ensures timer.Some? ==> forall u :: u in old(users) ==> old(users)[u].mark != timer
    {
      if users[uid].room.Some? && users[uid].room.value.state.Playing? {
        Leave(uid, users[uid].room.value, choice);
        timer := None;
      } else {
        timer := Some(armed);
        users := users[uid := users[uid].(mark := timer)];
        armed := armed + 1;
        forall k | k in rooms ensures RoomOk(k) {
          assert old(RoomOk(k));
        }
      }
    }

    /** The dangle timer for mark `mark` running out: a user that still
        carries that mark and is in a room is removed from the server and
        departs from the room; otherwise nothing happens. */
    method DangleExpire(uid: i32, mark: nat, choice: nat)
      requires Valid()
      modifies this`users, this`rooms, RoomOf(uid)`users, RoomOf(uid)`monitors, RoomOf(uid)`host,
               RoomOf(uid)`state, RoomOf(uid)`outbox
      ensures Valid()
      ensures old(uid in users && users[uid].mark == Some(mark) && users[uid].room.Some?) ==>
        users == old(users) - {uid} && Departed(uid, old(users[uid].room.value), choice)
      ensures !old(uid in users && users[uid].mark == Some(mark) && users[uid].room.Some?) ==>
        users == old(users) && rooms == old(rooms)
    {
      if uid in users && users[uid].mark == Some(mark) && users[uid].room.Some? {
        Leave(uid, users[uid].room.value, choice);
      }
    }

    /** A lost user leaves for good: it departs from its room, and the
        server forgets it. The handle the timer holds keeps the user alive
        while the room is told, so removing it first, as `dangle` does,
        comes to the same. */
    method Leave(uid: i32, room: Room, choice: nat)
      requires Valid() && uid in users && users[uid].room == Some(room)
      modifies this`users, this`rooms, room`users, room`monitors, room`host, room`state, room`outbox
      ensures Valid()
      ensures users == old(users) - {uid}
      ensures Departed(uid, room, choice)
    {
      Depart(uid, room, choice);
      label departed:
      users := users - {uid};
      forall k | k in rooms ensures RoomOk(k) {
        var q := rooms[k];
        assert old@departed(RoomOk(k));
        forall u | u in q.users || u in q.monitors
          ensures u in users && users[u].room == Some(q)
        {
          assert u != uid;
        }
      }
    }

    /** The server's part of `Authenticate`, once the session is waiting for
        it: a token that is not 32 bytes long is refused, as is a failed
        request for the account (`me`, the id and name the API returned).
        A known id is a reconnect: the user keeps its state and loses the
        dangle mark. An unknown id becomes a new user in no room. The reply
        is the user's info and, when it is in a room, what it is told about
        the room. */
    method Authenticate(token: Text, me: Option<(i32, Text)>)
      returns (r: Outcome<(UserInfo, Option<ClientRoomState>)>)
      requires Valid()
      modifies this`users
      ensures Valid()
      ensures |token| != 32 ==> r == Failed(InvalidToken) && users == old(users)
      ensures |token| == 32 && me.None? ==> r == Failed(FetchInfoFailed) && users == old(users)
      ensures |token| == 32 && me.Some? && me.value.0 in old(users) ==>
        var uid := me.value.0;
        && users == old(users)[uid := old(users[uid]).(mark := None)]
        && r == Done((Info(users[uid]),
                      if users[uid].room.Some? then Some(ClientStateOf(users[uid].room.value, uid)) else None))
      ensures |token| == 32 && me.Some? && me.value.0 !in old(users) ==>
        var uid := me.value.0;
        && users == old(users)[uid := User(uid, me.value.1, false, None, 0, None)]
        && r == Done((UserInfo(uid, me.value.1, false), None))
      // Both cases together, as callers use them.
      ensures r.Done? <==> |token| == 32 && me.Some?
      ensures r.Done? ==>
        && me.Some? && me.value.0 in users && users == SignedIn(old(users), me.value.0, me.value.1)
        && r.value == Welcome(me.value.0)
    {
      if |token| != 32 {
        return Failed(InvalidToken);
      }
      if me.None? {
        return Failed(FetchInfoFailed);
      }
      var (uid, name) := me.value;
      if uid in users {
        // `set_session` clears the dangle mark.
        users := users[uid := users[uid].(mark := None)];
      } else {
        users := users[uid := User(uid, name, false, None, 0, None)];
      }
      forall k | k in rooms ensures RoomOk(k) {
        var q := rooms[k];
        assert old(RoomOk(k));
        forall u | u in q.users || u in q.monitors
          ensures u in users && users[u].room == Some(q)
        {
          assert u in old(users);
        }
      }
      var u := users[uid];
      r := Done((Info(u), if u.room.Some? then Some(ClientStateOf(u.room.value, uid)) else None));
    }


    /** The rooms a command may join: the one a JoinRoom names. */
    ghost function Target(cmd: ClientCommand): set<Room>
      reads this`rooms
    {
      if cmd.JoinRoom? then RoomAt(cmd.roomId) else {}
    }

    /** What `process` does with `cmd` from `uid`, whose room was `room`:
        the reply carries the handler's outcome (`done` for the commands
        answered with nothing, `joined` for JoinRoom) under the command's
        own name, and the state changes as that handler's contract says. A
        second Authenticate is refused and changes nothing. */
    twostate predicate Processed(uid: i32, cmd: ClientCommand, oracle: Oracle, room: Option<Room>,
                                 new resp: Option<ServerCommand>, new done: Outcome<()>,
                                 new joined: Outcome<JoinRoomResponse>)
      requires !cmd.Ping? && old(uid in users) && uid in users && old(users[uid].room) == room
      reads this, RoomOf(uid), Target(cmd), if cmd.CreateRoom? then RoomAt(cmd.roomId) else {},
            if room.Some? then {room.value} else {}
    {
      match cmd
      case Ping => false
      case Authenticate(_) =>
        resp == Some(ServerCommand.Authenticate(SErr(Reason(RepeatedAuthenticate))))
        && users == old(users) && rooms == old(rooms)
      case Chat(message) => resp == Some(ServerCommand.Chat(Answer(done))) && ChatEffect(uid, message, done)
      case Touches(frames) => resp.None? && TouchesEffect(uid, frames)
      case Judges(judges) => resp.None? && JudgesEffect(uid, judges)
      case CreateRoom(id) =>
        resp == Some(ServerCommand.CreateRoom(Answer(done))) && CreateRoomEffect(uid, id, done)
      case JoinRoom(id, monitor) =>
        resp == Some(ServerCommand.JoinRoom(Answer(joined))) && JoinRoomEffect(uid, id, monitor, joined)
      case LeaveRoom =>
        resp == Some(ServerCommand.LeaveRoom(Answer(done))) && LeaveRoomEffect(uid, room, oracle.choice, done)
      case LockRoom(lock) => resp == Some(ServerCommand.LockRoom(Answer(done))) && LockRoomEffect(uid, lock, done)
      case CycleRoom(cycle) =>
        resp == Some(ServerCommand.CycleRoom(Answer(done))) && CycleRoomEffect(uid, cycle, done)
      case SelectChart(_) =>
        resp == Some(ServerCommand.SelectChart(Answer(done))) && SelectChartEffect(uid, oracle.chart, done)
      case RequestStart => resp == Some(ServerCommand.RequestStart(Answer(done))) && RequestStartEffect(uid, done)
      case Ready => resp == Some(ServerCommand.Ready(Answer(done))) && ReadyEffect(uid, done)
      case CancelReady => resp == Some(ServerCommand.CancelReady(Answer(done))) && CancelReadyEffect(uid, done)
      case Played(_) => resp == Some(ServerCommand.Played(Answer(done))) && PlayedEffect(uid, oracle.record, done)
      case Abort => resp == Some(ServerCommand.Abort(Answer(done))) && AbortEffect(uid, done)
    }

    /** `process`: each command of an authenticated user goes to its
        handler, and the handler's outcome becomes the reply of the same
        name, as `Processed` says. Pings never get here. */
    method Process(uid: i32, cmd: ClientCommand, oracle: Oracle)
      returns (resp: Option<ServerCommand>, ghost done: Outcome<()>, ghost joined: Outcome<JoinRoomResponse>)
      requires Valid() && uid in users && !cmd.Ping?
      modifies this, RoomOf(uid)`users, RoomOf(uid)`monitors, RoomOf(uid)`host,
               RoomOf(uid)`state, RoomOf(uid)`outbox, RoomOf(uid)`locked, RoomOf(uid)`cycle,
               RoomOf(uid)`chart, Target(cmd)`users, Target(cmd)`monitors, Target(cmd)`live,
               Target(cmd)`outbox
      ensures Valid() && uid in users
      ensures Answers(cmd, resp)
      ensures Processed(uid, cmd, oracle, old(users[uid].room), resp, done, joined)
    {
      done, joined := Done(()), Done(JoinRoomResponse(RoomState.Playing, [], false));
      match cmd {
        case Authenticate(_) =>
          resp := Some(ServerCommand.Authenticate(SErr(Reason(RepeatedAuthenticate))));
        case Chat(message) =>
          var r := Chat(uid, message);
          resp, done := Some(ServerCommand.Chat(Answer(r))), r;
        case Touches(frames) =>
          Touches(uid, frames);
          resp := None;
        case Judges(judges) =>
          Judges(uid, judges);
          resp := None;
        case CreateRoom(id) =>
          var r := CreateRoom(uid, id);
          resp, done := Some(ServerCommand.CreateRoom(Answer(r))), r;
        case JoinRoom(id, monitor) =>
          var r := JoinRoom(uid, id, monitor);
          resp, joined := Some(ServerCommand.JoinRoom(Answer(r))), r;
        case LeaveRoom =>
          var r := LeaveRoom(uid, oracle.choice);
          resp, done := Some(ServerCommand.LeaveRoom(Answer(r))), r;
        case LockRoom(lock) =>
          var r := LockRoom(uid, lock);
          resp, done := Some(ServerCommand.LockRoom(Answer(r))), r;
        case CycleRoom(cycle) =>
          var r := CycleRoom(uid, cycle);
          resp, done := Some(ServerCommand.CycleRoom(Answer(r))), r;
        case SelectChart(_) =>
          var r := SelectChart(uid, oracle.chart);
          resp, done := Some(ServerCommand.SelectChart(Answer(r))), r;
        case RequestStart =>
          var r := RequestStart(uid);
          resp, done := Some(ServerCommand.RequestStart(Answer(r))), r;
        case Ready =>
          var r := Ready(uid);
          resp, done := Some(ServerCommand.Ready(Answer(r))), r;
        case CancelReady =>
          var r := CancelReady(uid);
          resp, done := Some(ServerCommand.CancelReady(Answer(r))), r;
        case Played(_) =>
          var r := Played(uid, oracle.record);
          resp, done := Some(ServerCommand.Played(Answer(r))), r;
        case Abort =>
          var r := Abort(uid);
          resp, done := Some(ServerCommand.Abort(Answer(r))), r;
      }
    }

  }
}
