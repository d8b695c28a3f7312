/** The packet handler a server session installs on its stream
    (phira-mp-server/src/session.rs, `Session::new`): pings are answered at
    once, nothing but `Authenticate` is served before authentication, and
    afterwards every command goes to `process`.

    The handler closure owns the one-shot sender through which
    `Session::new` receives the authenticated user, and it takes that
    sender out on every call, before looking at the packet. Whichever call
    takes it and does not send the user through it drops it, `Session::new`
    then fails on the receiving end, and the connection is closed: only a
    first packet that authenticates keeps the session. */
module Sessions {
  import opened Wire
  import opened Command
  import opened Rooms
  import opened Server

  class Session {
    const server: ServerState
    /** The authenticated user's id, once `Session::new` has it. */
    var user: Option<i32>
    /** `waiting_for_authenticate`. */
    var waiting: bool
    /** `panicked`: set when authentication failed; the handler then does
        nothing. */
    var panicked: bool
    /** Whether the closure still holds the one-shot sender `tx`. */
    var txHeld: bool
    /** The sender was dropped unused, so the connection is gone. */
    var closed: bool
    /** Whether the session reported itself on `lost_con_tx`. */
    var lostCon: bool
    /** What the handler wrote to `send_tx`, in order. */
    var sent: seq<ServerCommand>

    ghost predicate Valid()
      reads this
    {
      && (!waiting ==> user.Some? && !txHeld)
      && (panicked ==> closed)
    }

    constructor (server: ServerState)
      ensures this.server == server && user == None && waiting && !panicked
      ensures txHeld && !closed && !lostCon && sent == []
      ensures Valid()
    {
      this.server := server;
      user := None;
      waiting := true;
      panicked := false;
      txHeld := true;
      closed := false;
      lostCon := false;
      sent := [];
    }

    /** The rooms a packet may change: the user's room and the room a
        JoinRoom names. */
    ghost function Touched(cmd: ClientCommand): set<Room>
      reads this, server
    {
      (if user.Some? then server.RoomOf(user.value) else {}) + server.Target(cmd)
    }

    /** One packet through the handler. `me` is the account the API returns
        for an Authenticate token (`None` when the request fails), and
        `oracle` the API data and host choice `process` needs. The reply
        written to `send_tx`, if any, is returned. */
    method Handle(cmd: ClientCommand, me: Option<(i32, Text)>, oracle: Oracle)
      returns (reply: Option<ServerCommand>, ghost done: Outcome<()>, ghost joined: Outcome<JoinRoomResponse>)
      requires Valid() && server.Valid()
      modifies this, server, Touched(cmd)
      ensures Valid() && server.Valid()
      ensures !txHeld
      ensures reply.Some? ==> sent == old(sent) + [reply.value]
      ensures reply.None? ==> sent == old(sent)
      ensures closed == (old(closed) || (old(txHeld) && waiting))
      // A closed or panicked session does nothing more.
      ensures old(closed) || old(panicked) ==>
        && reply.None? && waiting == old(waiting) && user == old(user) && panicked == old(panicked)
        && server.users == old(server.users) && server.rooms == old(server.rooms)
      // A ping is answered with a pong and changes nothing else.
      ensures !old(closed) && !old(panicked) && cmd.Ping? ==>
        && reply == Some(Pong) && waiting == old(waiting) && user == old(user)
        && server.users == old(server.users) && server.rooms == old(server.rooms)
      // Before authentication anything else but Authenticate is ignored.
      ensures !old(closed) && !old(panicked) && old(waiting) && !cmd.Ping? && !cmd.Authenticate? ==>
        && reply.None? && waiting && user == old(user) && !panicked
        && server.users == old(server.users) && server.rooms == old(server.rooms)
      // An Authenticate after the sender is gone is dropped.
      ensures !old(closed) && !old(panicked) && old(waiting) && cmd.Authenticate? && !old(txHeld) ==>
        && reply.None? && waiting && !panicked
        && server.users == old(server.users) && server.rooms == old(server.rooms)
      // The first Authenticate is answered; a failure marks the session
      // panicked and lost, a success ends the wait.
      ensures !old(closed) && !old(panicked) && old(waiting) && cmd.Authenticate? && old(txHeld) ==>
        && reply.Some? && reply.value.Authenticate?
        && (reply.value.auth.SOk? <==> !waiting)
        && (reply.value.auth.SOk? <==> |cmd.token| == 32 && me.Some?)
        && (reply.value.auth.SOk? ==>
              && me.Some? && user == Some(me.value.0) && !panicked && user.value in server.users
              && server.users == SignedIn(old(server.users), me.value.0, me.value.1)
              && reply.value.auth.value == server.Welcome(me.value.0))
        && (reply.value.auth.SErr? ==> panicked && lostCon && user == old(user) && server.users == old(server.users))
        && (|cmd.token| != 32 ==> reply.value.auth == SErr(Reason(InvalidToken)))
        && (|cmd.token| == 32 && me.None? ==> reply.value.auth == SErr(Reason(FetchInfoFailed)))
      // Afterwards every command gets the reply `process` gives it, and the
      // server changes as `process` says (`done` and `joined` are the
      // handler's outcome).
      ensures !old(closed) && !old(panicked) && !old(waiting) && !cmd.Ping? && old(user).value in old(server.users) ==>
        && Answers(cmd, reply) && !waiting && user == old(user) && user.value in server.users
        && server.Processed(user.value, cmd, oracle, old(server.users[user.value].room), reply, done, joined)
    {
      // `tx.take()` runs on every call, ahead of everything else. Once the
      // wait is over the sender is already gone, so there it changes
      // nothing and is left until after `process`.
      var tx := txHeld;
      done, joined := Done(()), Done(JoinRoomResponse(RoomState.Playing, [], false));
      if closed || panicked {
        txHeld := false;
        reply := None;
        return;
      }
      if cmd.Ping? {
        txHeld := false;
        reply := Some(Pong);
        if tx {
          closed := true;
        }
      } else if waiting {
        txHeld := false;
        reply := Gate(cmd, tx, me);
        return;
      } else if user.value in server.users {
        reply, done, joined := Serve(cmd, oracle);
        return;
      } else {
        reply := None;
      }
      if reply.Some? {
        sent := sent + [reply.value];
      }
    }

    /** A packet other than Ping from the authenticated user: it goes to
        `process`, and the reply, if any, is sent. */
    method Serve(cmd: ClientCommand, oracle: Oracle)
      returns (reply: Option<ServerCommand>, ghost done: Outcome<()>, ghost joined: Outcome<JoinRoomResponse>)
      requires server.Valid() && !cmd.Ping? && user.Some? && user.value in server.users
      modifies this`sent, server, Touched(cmd)
      ensures server.Valid() && user.value in server.users
      ensures Answers(cmd, reply)
      ensures reply.Some? ==> sent == old(sent) + [reply.value]
      ensures reply.None? ==> sent == old(sent)
      ensures server.Processed(user.value, cmd, oracle, old(server.users[user.value].room), reply, done, joined)
    {
      reply, done, joined := server.Process(user.value, cmd, oracle);
      if reply.Some? {
        sent := sent + [reply.value];
      }
    }

    /** A packet other than Ping before authentication; `tx` says whether
        this call took the sender out. The reply, if any, is sent. */
    method Gate(cmd: ClientCommand, tx: bool, me: Option<(i32, Text)>)
      returns (reply: Option<ServerCommand>)
      requires server.Valid() && waiting && !closed && !panicked && !txHeld && !cmd.Ping?
      modifies this`waiting, this`panicked, this`lostCon, this`closed, this`user, this`sent, server`users
      ensures Valid() && server.Valid()
      ensures reply.Some? ==> sent == old(sent) + [reply.value]
      ensures reply.None? ==> sent == old(sent)
      ensures closed == (tx && waiting)
      ensures !cmd.Authenticate? || !tx ==>
        && reply.None? && waiting && !panicked && user == old(user)
        && server.users == old(server.users)
      ensures cmd.Authenticate? && tx ==>
        && reply.Some? && reply.value.Authenticate?
        && (reply.value.auth.SOk? <==> !waiting)
        && (reply.value.auth.SOk? <==> |cmd.token| == 32 && me.Some?)
        && (reply.value.auth.SOk? ==>
              && me.Some? && user == Some(me.value.0) && !panicked && user.value in server.users
              && server.users == SignedIn(old(server.users), me.value.0, me.value.1)
              && reply.value.auth.value == server.Welcome(me.value.0))
        && (reply.value.auth.SErr? ==> panicked && lostCon && user == old(user) && server.users == old(server.users))
        && (|cmd.token| != 32 ==> reply.value.auth == SErr(Reason(InvalidToken)))
        && (|cmd.token| == 32 && me.None? ==> reply.value.auth == SErr(Reason(FetchInfoFailed)))
    {
      if cmd.Authenticate? && tx {
        reply := SignIn(cmd.token, me);
      } else {
        reply := None;
        if tx {
          closed := true;
        }
      }
    }

    /** The first Authenticate, taken while the sender was held: the
        server's part decides; a failure marks the session panicked, lost
        and closed, a success ends the wait with the user. The reply is
        sent. */
    method SignIn(token: Text, me: Option<(i32, Text)>) returns (reply: Option<ServerCommand>)
      requires server.Valid() && waiting && !closed && !panicked && !txHeld
      modifies this`waiting, this`panicked, this`lostCon, this`closed, this`user, this`sent, server`users
      ensures Valid() && server.Valid()
      ensures reply.Some? && reply.value.Authenticate? && sent == old(sent) + [reply.value]
      ensures closed == waiting
      ensures reply.value.auth.SOk? <==> !waiting
      ensures reply.value.auth.SOk? <==> |token| == 32 && me.Some?
      ensures reply.value.auth.SOk? ==>
        && me.Some? && user == Some(me.value.0) && !panicked && user.value in server.users
        && server.users == SignedIn(old(server.users), me.value.0, me.value.1)
        && reply.value.auth.value == server.Welcome(me.value.0)
      ensures reply.value.auth.SErr? ==>
        panicked && lostCon && user == old(user) && server.users == old(server.users)
      ensures |token| != 32 ==> reply.value.auth == SErr(Reason(InvalidToken))
      ensures |token| == 32 && me.None? ==> reply.value.auth == SErr(Reason(FetchInfoFailed))
    {
      // Whether the server's part succeeds depends only on the token's
      // length and the fetch, so the session's own fields are set first;
      // the outcome is the same as setting them after the reply.
      if |token| == 32 && me.Some? {
        waiting := false;
        user := Some(me.value.0);
      } else {
        panicked := true;
        lostCon := true;
        closed := true;
      }
      var r := server.Authenticate(token, me);
      reply := Some(ServerCommand.Authenticate(Answer(r)));
      sent := sent + [reply.value];
    }
  }
}
