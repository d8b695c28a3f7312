/** The client library's mirror of its room (phira-mp-client/src/lib.rs):
    how each server command changes the local `ClientRoomState`, the message
    log, the live players' buffers and the pending reply callbacks, and the
    local writes each request makes once its reply is in. */
module Clients {
  import opened Wire
  import opened Command
  import opened Server
  import Varchar

  /** The reply callbacks of `State`, one per request that waits for an
      answer (`cb_authenticate` … `cb_abort`). */
  datatype Call =
    | AuthenticateCall | ChatCall | CreateRoomCall | JoinRoomCall | LeaveRoomCall
    | LockRoomCall | CycleRoomCall | SelectChartCall | RequestStartCall
    | ReadyCall | CancelReadyCall | PlayedCall | AbortCall

  /** The callback a request waits on; Ping, Touches and Judges wait on none. */
  function CallOf(cmd: ClientCommand): Option<Call>
  {
    match cmd
    case Ping => None
    case Touches(_) => None
    case Judges(_) => None
    case Authenticate(_) => Some(AuthenticateCall)
    case Chat(_) => Some(ChatCall)
    case CreateRoom(_) => Some(CreateRoomCall)
    case JoinRoom(_, _) => Some(JoinRoomCall)
    case LeaveRoom => Some(LeaveRoomCall)
    case LockRoom(_) => Some(LockRoomCall)
    case CycleRoom(_) => Some(CycleRoomCall)
    case SelectChart(_) => Some(SelectChartCall)
    case RequestStart => Some(RequestStartCall)
    case Ready => Some(ReadyCall)
    case CancelReady => Some(CancelReadyCall)
    case Played(_) => Some(PlayedCall)
    case Abort => Some(AbortCall)
  }

  /** The callback a server command resolves in `process`; the others are
      handled in place. */
  function ReplyCall(cmd: ServerCommand): Option<Call>
  {
    match cmd
    case Pong => None
    case Touches(_, _) => None
    case Judges(_, _) => None
    case Message(_) => None
    case ChangeState(_) => None
    case ChangeHost(_) => None
    case OnJoinRoom(_) => None
    case Authenticate(_) => Some(AuthenticateCall)
    case Chat(_) => Some(ChatCall)
    case CreateRoom(_) => Some(CreateRoomCall)
    case JoinRoom(_) => Some(JoinRoomCall)
    case LeaveRoom(_) => Some(LeaveRoomCall)
    case LockRoom(_) => Some(LockRoomCall)
    case CycleRoom(_) => Some(CycleRoomCall)
    case SelectChart(_) => Some(SelectChartCall)
    case RequestStart(_) => Some(RequestStartCall)
    case Ready(_) => Some(ReadyCall)
    case CancelReady(_) => Some(CancelReadyCall)
    case Played(_) => Some(PlayedCall)
    case Abort(_) => Some(AbortCall)
  }

  /** The reply the server gives a request resolves exactly the callback the
      client's request waits on, and a ping's reply resolves none. */
  lemma ReplyResolves(cmd: ClientCommand, resp: ServerCommand)
    requires Answers(cmd, Some(resp))
    ensures ReplyCall(resp) == CallOf(cmd)
  {
  }

  /** `LivePlayer`: the touch frames and judge events received for one
      player. */
  datatype LivePlayer = LivePlayer(touchFrames: seq<TouchFrame>, judgeEvents: seq<JudgeEvent>)

  /** `State::live_player`: the player's buffers, empty ones if it has none
      yet. */
  function LiveOf(live: map<i32, LivePlayer>, player: i32): (p: LivePlayer)
    ensures player !in live ==> p == LivePlayer([], [])
    ensures player in live ==> p == live[player]
  {
    if player in live then live[player] else LivePlayer([], [])
  }

  /** `resp.users.into_iter().map(|it| (it.id, it)).collect()`: the users
      keyed by id, a later entry replacing an earlier one with the same id. */
  function UsersById(us: seq<UserInfo>): (m: map<i32, UserInfo>)
    ensures forall id | id in m :: m[id].id == id
    ensures forall i | 0 <= i < |us| :: us[i].id in m
    ensures forall id | id in m :: exists i :: 0 <= i < |us| && us[i].id == id
  {
    if us == [] then map[]
    else
      var m := UsersById(us[..|us| - 1]);
      var u := us[|us| - 1];
      assert forall i | 0 <= i < |us| - 1 :: us[..|us| - 1][i] == us[i];
      m[u.id := u]
  }

  /** The user kept for an id is the last one in the list with that id. */
  lemma {:induction false} LastWins(us: seq<UserInfo>, i: nat)
    requires i < |us|
    requires forall j | i < j < |us| :: us[j].id != us[i].id
    ensures UsersById(us)[us[i].id] == us[i]
  {
    if i < |us| - 1 {
      var init := us[..|us| - 1];
      assert forall j | i < j < |init| :: init[j] == us[j];
      LastWins(init, i);
      assert init[i] == us[i];
    }
  }

  /** Whether handling a message dereferences the local room (`unwrap`). */
  predicate NeedsRoom(msg: Message)
  {
    msg.LockRoom? || msg.CycleRoom? || msg.LeaveRoom?
  }

  /** The local room after a `ServerCommand::Message`: LockRoom and
      CycleRoom set their flag, LeaveRoom forgets that user, and every other
      message leaves the room alone. */
  function AfterMessage(room: Option<ClientRoomState>, msg: Message): (r: Option<ClientRoomState>)
    requires NeedsRoom(msg) ==> room.Some?
    ensures !NeedsRoom(msg) ==> r == room
    ensures NeedsRoom(msg) ==> r.Some? && r.value.id == room.value.id && r.value.state == room.value.state
    ensures msg.LeaveRoom? ==> r.value.users.Keys == room.value.users.Keys - {msg.user}
  {
    match msg
    case LockRoom(lock) => Some(room.value.(locked := lock))
    case CycleRoom(cycle) => Some(room.value.(cycle := cycle))
    case LeaveRoom(user, _) => Some(room.value.(users := room.value.users - {user}))
    case _ => room
  }

  /** The local room after `OnJoinRoom(user)`: the user is added or
      replaced, and the room becomes live if the user is a monitor. */
  function Joined(room: ClientRoomState, user: UserInfo): (r: ClientRoomState)
    ensures r.users.Keys == room.users.Keys + {user.id} && r.users[user.id] == user
    ensures r.live == (room.live || user.monitor)
    ensures r.(users := room.users, live := room.live) == room
  {
    room.(live := room.live || user.monitor, users := room.users[user.id := user])
  }

  /** The local room after `ChangeState(state)`: the new state, and the
      ready mark reset to whether this user is the host. */
  function Restated(room: ClientRoomState, state: RoomState): (r: ClientRoomState)
    ensures r.state == state && r.isReady == room.isHost
    ensures r.(state := room.state, isReady := room.isReady) == room
  {
    room.(state := state, isReady := room.isHost)
  }

  /** The local room `create_room` writes: the given id, the default state,
      no flags, this user as host and only member. */
  function Created(id: Text, me: UserInfo): (r: ClientRoomState)
    ensures r.id == id && r.state == DefaultRoomState()
    ensures !r.live && !r.locked && !r.cycle && r.isHost && !r.isReady
    ensures r.users.Keys == {me.id} && r.users[me.id] == me
  {
    ClientRoomState(id, DefaultRoomState(), false, false, false, true, false, map[me.id := me])
  }

  /** The local room `join_room` writes from the server's response. */
  function Entered(id: Text, resp: JoinRoomResponse): (r: ClientRoomState)
    ensures r.id == id && r.state == resp.state && r.live == resp.live
    ensures !r.locked && !r.cycle && !r.isHost && !r.isReady
    ensures forall i | 0 <= i < |resp.users| :: resp.users[i].id in r.users
    ensures forall id | id in r.users :: r.users[id].id == id
  {
    ClientRoomState(id, resp.state, resp.live, false, false, false, false, UsersById(resp.users))
  }

  /** The name `user_name` shows for an unknown user. */
  const UNKNOWN: Text := [0x3F] // "?"

  /** `user_name_opt` on a given local room. */
  function NameOf(room: Option<ClientRoomState>, id: i32): (r: Option<Text>)
    ensures r.Some? <==> room.Some? && id in room.value.users
    ensures r.Some? ==> r.value == room.value.users[id].name
  {
    if room.Some? && id in room.value.users then Some(room.value.users[id].name) else None
  }

  /** `user_name` on a given local room. */
  function DisplayName(room: Option<ClientRoomState>, id: i32): (r: Text)
    ensures room.None? ==> r == UNKNOWN
    ensures room.Some? && id !in room.value.users ==> r == UNKNOWN
    ensures room.Some? && id in room.value.users ==> r == room.value.users[id].name
  {
    match NameOf(room, id)
    case Some(name) => name
    case None => UNKNOWN
  }

  /** After someone's LeaveRoom message the client no longer knows that
      user's name. */
  lemma LeftIsUnknown(room: ClientRoomState, user: i32, name: Text)
    ensures DisplayName(AfterMessage(Some(room), Message.LeaveRoom(user, name)), user) == UNKNOWN
  {
  }

  /** Everyone listed in a join response has a name afterwards: the last
      entry listed for that id. */
  lemma {:induction false} JoinedNamesKnown(id: Text, resp: JoinRoomResponse, i: nat)
    requires i < |resp.users|
    requires forall j | i < j < |resp.users| :: resp.users[j].id != resp.users[i].id
    ensures NameOf(Some(Entered(id, resp)), resp.users[i].id) == Some(resp.users[i].name)
  {
    LastWins(resp.users, i);
  }

  /** A user who joined is known by the name it joined with, and nobody
      else's name changes. */
  lemma JoinedNameKnown(room: ClientRoomState, user: UserInfo, other: i32)
    ensures DisplayName(Some(Joined(room, user)), user.id) == user.name
    ensures other != user.id ==> DisplayName(Some(Joined(room, user)), other) == DisplayName(Some(room), other)
  {
  }

  /** The creator is the only user a fresh room knows by name. */
  lemma CreatorKnown(id: Text, me: UserInfo, other: i32)
    ensures DisplayName(Some(Created(id, me)), me.id) == me.name
    ensures other != me.id ==> DisplayName(Some(Created(id, me)), other) == UNKNOWN
  {
  }

  /** What a request whose reply has arrived hands back to its caller: the
      server's result, or a panic where the code unwraps a missing value. */
  datatype CallResult = Returned(result: SResult<()>) | Panicked

  /** Everything `process` can change, as one value. */
  datatype View = View(
    room: Option<ClientRoomState>, pending: set<Call>, resolved: seq<ServerCommand>,
    livePlayers: map<i32, LivePlayer>, messages: seq<Message>, pongs: nat, panicked: bool)

  /** `Client` with its shared `State`. */
  class Client {
    /** `state.me`: who this client authenticated as. */
    var me: Option<UserInfo>
    /** `state.room`: the local mirror of the room. */
    var room: Option<ClientRoomState>
    /** The callbacks holding a sender: requests awaiting their reply. */
    var pending: set<Call>
    /** The replies handed to their callbacks, in order. */
    var resolved: seq<ServerCommand>
    /** `state.live_players`. */
    var livePlayers: map<i32, LivePlayer>
    /** `state.messages`: the message log. */
    var messages: seq<Message>
    /** How many times `ping_notify` was notified. */
    var pongs: nat
    /** The receive task panicked on an `unwrap`; it handles nothing more. */
    var panicked: bool
    /** The commands written to the stream, in order. */
    var sent: seq<ClientCommand>

    ghost function Snapshot(): View
      reads this
    {
      View(room, pending, resolved, livePlayers, messages, pongs, panicked)
    }

    constructor ()
      ensures me == None && room == None && pending == {} && resolved == []
      ensures livePlayers == map[] && messages == [] && pongs == 0 && !panicked && sent == []
    {
      me := None;
      room := None;
      pending := {};
      resolved := [];
      livePlayers := map[];
      messages := [];
      pongs := 0;
      panicked := false;
      sent := [];
    }

    /** The first half of `rcall`: the request is sent, then its callback
        is armed. */
    method Call(payload: ClientCommand)
      requires CallOf(payload).Some?
      modifies this`sent, this`pending
      ensures sent == old(sent) + [payload]
      ensures pending == old(pending) + {CallOf(payload).value}
    {
      sent := sent + [payload];
      pending := pending + {CallOf(payload).value};
    }

    /** `authenticate`, up to the wait: a token that does not fit a
        `Varchar<32>` fails with "string too long" and nothing is sent;
        otherwise the request goes out as `rcall` sends it. */
    method Authenticate(token: Text) returns (r: Result<()>)
      modifies this`sent, this`pending
      ensures r.Err? <==> |token| > 32
      ensures r.Err? ==> r.error == StringTooLong && sent == old(sent) && pending == old(pending)
      ensures r.Ok? ==>
        sent == old(sent) + [ClientCommand.Authenticate(token)] && pending == old(pending) + {AuthenticateCall}
    {
      var t := Varchar.TryFrom(token, 32);
      if t.Err? {
        return Err(t.error);
      }
      Call(ClientCommand.Authenticate(t.value));
      r := Ok(());
    }

    /** `chat`, up to the wait: a message that does not fit a
        `Varchar<200>` fails with "string too long" and nothing is sent;
        otherwise the request goes out as `rcall` sends it. */
    method Chat(message: Text) returns (r: Result<()>)
      modifies this`sent, this`pending
      ensures r.Err? <==> |message| > 200
      ensures r.Err? ==> r.error == StringTooLong && sent == old(sent) && pending == old(pending)
      ensures r.Ok? ==> sent == old(sent) + [ClientCommand.Chat(message)] && pending == old(pending) + {ChatCall}
    {
      var m := Varchar.TryFrom(message, 200);
      if m.Err? {
        return Err(m.error);
      }
      Call(ClientCommand.Chat(m.value));
      r := Ok(());
    }

    /** `send` / `blocking_send`: a command with no awaited reply. */
    method Send(payload: ClientCommand)
      modifies this`sent
      ensures sent == old(sent) + [payload]
    {
      sent := sent + [payload];
    }

    /** `process`: one server command through the receive task. */
    method Process(cmd: ServerCommand)
      modifies this
      ensures me == old(me) && sent == old(sent)
      ensures old(panicked) ==> Snapshot() == old(Snapshot())
      ensures !old(panicked) && cmd.Pong? ==>
        Snapshot() == old(Snapshot()).(pongs := old(pongs) + 1)
      // A reply resolves its callback; with none armed, `unwrap` panics.
      ensures !old(panicked) && ReplyCall(cmd).Some? && ReplyCall(cmd).value in old(pending) ==>
        Snapshot() == old(Snapshot()).(pending := old(pending) - {ReplyCall(cmd).value},
                                       resolved := old(resolved) + [cmd])
      ensures !old(panicked) && ReplyCall(cmd).Some? && ReplyCall(cmd).value !in old(pending) ==>
        Snapshot() == old(Snapshot()).(panicked := true)
      ensures !old(panicked) && cmd.Touches? ==>
        var p := LiveOf(old(livePlayers), cmd.player);
        Snapshot() == old(Snapshot()).(livePlayers := old(livePlayers)[cmd.player :=
                                         p.(touchFrames := p.touchFrames + cmd.frames)])
      ensures !old(panicked) && cmd.Judges? ==>
        var p := LiveOf(old(livePlayers), cmd.player);
        Snapshot() == old(Snapshot()).(livePlayers := old(livePlayers)[cmd.player :=
                                         p.(judgeEvents := p.judgeEvents + cmd.judges)])
      // Every message is logged in arrival order, after its effect.
      ensures !old(panicked) && cmd.Message? && NeedsRoom(cmd.message) && old(room).None? ==>
        Snapshot() == old(Snapshot()).(panicked := true)
      ensures !old(panicked) && cmd.Message? && (NeedsRoom(cmd.message) ==> old(room).Some?) ==>
        Snapshot() == old(Snapshot()).(room := AfterMessage(old(room), cmd.message),
                                       messages := old(messages) + [cmd.message])
      // The live players are cleared before the room is dereferenced.
      ensures !old(panicked) && cmd.ChangeState? && old(room).None? ==>
        Snapshot() == old(Snapshot()).(livePlayers := map[], panicked := true)
      ensures !old(panicked) && cmd.ChangeState? && old(room).Some? ==>
        Snapshot() == old(Snapshot()).(livePlayers := map[],
                                       room := Some(Restated(old(room).value, cmd.state)))
      ensures !old(panicked) && cmd.ChangeHost? && old(room).None? ==>
        Snapshot() == old(Snapshot()).(panicked := true)
      ensures !old(panicked) && cmd.ChangeHost? && old(room).Some? ==>
        Snapshot() == old(Snapshot()).(room := Some(old(room).value.(isHost := cmd.isHost)))
      // Without a local room a join notice is ignored.
      ensures !old(panicked) && cmd.OnJoinRoom? && old(room).None? ==>
        Snapshot() == old(Snapshot())
      ensures !old(panicked) && cmd.OnJoinRoom? && old(room).Some? ==>
        Snapshot() == old(Snapshot()).(room := Some(Joined(old(room).value, cmd.user)))
    {
      if panicked {
        return;
      }
      match cmd {
        case Pong =>
          pongs := pongs + 1;
        case Touches(player, frames) =>
          var p := LiveOf(livePlayers, player);
          livePlayers := livePlayers[player := p.(touchFrames := p.touchFrames + frames)];
        case Judges(player, judges) =>
          var p := LiveOf(livePlayers, player);
          livePlayers := livePlayers[player := p.(judgeEvents := p.judgeEvents + judges)];
        case Message(msg) =>
          if NeedsRoom(msg) && room.None? {
            panicked := true;
          } else {
            room := AfterMessage(room, msg);
            messages := messages + [msg];
          }
        case ChangeState(state) =>
          livePlayers := map[];
          if room.None? {
            panicked := true;
          } else {
            room := Some(Restated(room.value, state));
          }
        case ChangeHost(isHost) =>
          if room.None? {
            panicked := true;
          } else {
            room := Some(room.value.(isHost := isHost));
          }
        case OnJoinRoom(user) =>
          if room.Some? {
            room := Some(Joined(room.value, user));
          }
        case _ =>
          var k := ReplyCall(cmd).value;
          if k in pending {
            pending := pending - {k};
            resolved := resolved + [cmd];
          } else {
            panicked := true;
          }
      }
    }

    /** `live_player`: the player's buffers, created empty on first use. */
    method LivePlayerOf(player: i32) returns (p: LivePlayer)
      modifies this`livePlayers
      ensures livePlayers == old(livePlayers)[player := LiveOf(old(livePlayers), player)]
      ensures player in livePlayers && p == livePlayers[player]
      ensures player in old(livePlayers) ==> p == old(livePlayers[player])
    {
      p := LiveOf(livePlayers, player);
      livePlayers := livePlayers[player := p];
    }

    /** The rest of `authenticate`: on success the user and any room it is
        still in are stored. */
    method Authenticated(res: SResult<(UserInfo, Option<ClientRoomState>)>) returns (r: SResult<()>)
      modifies this`me, this`room
      ensures res.SErr? ==> r == SErr(res.reason) && me == old(me) && room == old(room)
      ensures res.SOk? ==> r == SOk(()) && me == Some(res.value.0) && room == res.value.1
    {
      if res.SErr? {
        return SErr(res.reason);
      }
      me := Some(res.value.0);
      room := res.value.1;
      r := SOk(());
    }

    /** The rest of `create_room`: a fresh local room with this user as its
        host and only member; `me.unwrap()` panics before authentication. */
    method CreatedRoom(id: Text, res: SResult<()>) returns (r: CallResult)
      modifies this`room
      ensures res.SErr? ==> r == Returned(res) && room == old(room)
      ensures res.SOk? && me.None? ==> r == Panicked && room == old(room)
      ensures res.SOk? && me.Some? ==> r == Returned(res) && room == Some(Created(id, me.value))
    {
      if res.SErr? {
        return Returned(res);
      }
      if me.None? {
        return Panicked;
      }
      room := Some(Created(id, me.value));
      r := Returned(res);
    }

    /** The rest of `join_room`: the local room rebuilt from the response. */
    method JoinedRoom(id: Text, res: SResult<JoinRoomResponse>) returns (r: SResult<()>)
      modifies this`room
      ensures res.SErr? ==> r == SErr(res.reason) && room == old(room)
      ensures res.SOk? ==> r == SOk(()) && room == Some(Entered(id, res.value))
    {
      if res.SErr? {
        return SErr(res.reason);
      }
      room := Some(Entered(id, res.value));
      r := SOk(());
    }

    /** The rest of `leave_room`: the local room is gone. */
    method LeftRoom(res: SResult<()>) returns (r: SResult<()>)
      modifies this`room
      ensures r == res
      ensures res.SErr? ==> room == old(room)
      ensures res.SOk? ==> room == None
    {
      if res.SOk? {
        room := None;
      }
      r := res;
    }

    /** The rest of `request_start` and `ready` (`ready` true) and of
        `cancel_ready` (`ready` false): the local ready mark, through an
        `unwrap` of the local room. */
    method ReadySet(res: SResult<()>, ready: bool) returns (r: CallResult)
      modifies this`room
      ensures res.SErr? ==> r == Returned(res) && room == old(room)
      ensures res.SOk? && old(room).None? ==> r == Panicked && room == None
      ensures res.SOk? && old(room).Some? ==>
        r == Returned(res) && room == Some(old(room).value.(isReady := ready))
    {
      if res.SErr? {
        return Returned(res);
      }
      if room.None? {
        return Panicked;
      }
      room := Some(room.value.(isReady := ready));
      r := Returned(res);
    }

    /** `blocking_take_messages`: the whole log, oldest first, which is
        left empty. */
    method TakeMessages() returns (ms: seq<Message>)
      modifies this`messages
      ensures ms == old(messages) && messages == []
    {
      ms := messages;
      messages := [];
    }

    /** `user_name_opt`. */
    function UserNameOpt(id: i32): (r: Option<Text>)
      reads this
      ensures r.Some? <==> room.Some? && id in room.value.users
      ensures r.Some? ==> r.value == room.value.users[id].name
    {
      NameOf(room, id)
    }

    /** `user_name`: "?" for an unknown user or without a room. */
    function UserName(id: i32): (r: Text)
      reads this
      ensures UserNameOpt(id).None? ==> r == UNKNOWN
      ensures UserNameOpt(id).Some? ==> r == room.value.users[id].name
    {
      DisplayName(room, id)
    }
  }
}
