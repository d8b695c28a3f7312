/** A room of the server (phira-mp-server/src/room.rs): its members, its
    host, and the SelectChart -> WaitForReady -> Playing -> SelectChart cycle
    that `check_all_ready` drives.

    A `Weak<User>` is modelled by the user's id; whether it still upgrades is
    the caller's `alive` set (the ids the server still holds). Everything the
    room broadcasts is appended to `outbox` together with its recipients, so
    the messages a transition sends are part of its postcondition.

    The room in room.rs has neither monitors nor the `locked` and `cycle`
    flags, and `add_user` takes no monitor argument there, while session.rs
    uses all of them. They are kept here as extra fields: a monitor joins a
    separate list with no capacity bound and receives only the monitor
    broadcasts, and a leaving user is dropped from both lists. */
module Rooms {
  import opened Wire
  import opened Command

  /** `ROOM_MAX_USERS`. */
  const ROOM_MAX_USERS: nat := 8

  /** The chart the server fetched for `SelectChart`. */
  datatype Chart = Chart(id: i32, name: Text)

  /** The play record the server fetched for `Played`; `f32` fields are kept
      as bit patterns. */
  datatype Record = Record(
    id: i32, player: i32, score: i32, perfect: i32, good: i32, bad: i32,
    miss: i32, maxCombo: i32, accuracyBits: u32, fullCombo: bool,
    stdBits: u32, stdScoreBits: u32)

  /** `InternalRoomState`; its default is SelectChart. */
  datatype InternalState =
    | SelectChart
    | WaitForReady(started: set<i32>)
    | Playing(results: map<i32, Record>, aborted: set<i32>)

  /** A command sent by the room: to every user in `to`, or to one user. */
  datatype Outgoing =
    | Broadcast(to: seq<i32>, cmd: ServerCommand)
    | Direct(user: i32, cmd: ServerCommand)

  /** `InternalRoomState::to_client`: the phase is kept and only SelectChart
      carries the selected chart. */
  function ToClient(s: InternalState, chart: Option<i32>): (r: RoomState)
    ensures r.SelectChart? <==> s.SelectChart?
    ensures r.WaitingForReady? <==> s.WaitForReady?
    ensures r.Playing? <==> s.Playing?
    ensures r.SelectChart? ==> r.chart == chart
  {
    match s
    case SelectChart => RoomState.SelectChart(chart)
    case WaitForReady(_) => RoomState.WaitingForReady
    case Playing(_, _) => RoomState.Playing
  }

  function ChartId(chart: Option<Chart>): Option<i32>
  {
    if chart.Some? then Some(chart.value.id) else None
  }

  /** `Vec::retain` over user handles: keeps, in order, the entries whose id
      is in `keep`. */
  function Retain(ids: seq<i32>, keep: set<i32>): (r: seq<i32>)
    ensures |r| <= |ids|
  {
    if |ids| == 0 then []
    else (if ids[0] in keep then [ids[0]] else []) + Retain(ids[1..], keep)
  }

  /** An id survives `Retain` exactly when it was there and is kept. */
  lemma {:induction false} RetainMembers(ids: seq<i32>, keep: set<i32>)
    ensures forall x :: x in Retain(ids, keep) <==> x in ids && x in keep
  {
    if |ids| > 0 {
      RetainMembers(ids[1..], keep);
      assert ids == [ids[0]] + ids[1..];
    }
  }

  lemma {:induction false} RetainAll(ids: seq<i32>, keep: set<i32>)
    requires forall x :: x in ids ==> x in keep
    ensures Retain(ids, keep) == ids
  {
    if |ids| > 0 {
      RetainAll(ids[1..], keep);
      assert ids == [ids[0]] + ids[1..];
    }
  }

  /** No id occurs twice. */
  predicate Distinct(ids: seq<i32>)
  {
    |ids| == 0 || (ids[0] !in ids[1..] && Distinct(ids[1..]))
  }

  lemma {:induction false} RetainDistinct(ids: seq<i32>, keep: set<i32>)
    ensures Distinct(ids) ==> Distinct(Retain(ids, keep))
  {
    if |ids| > 0 && Distinct(ids) {
      RetainDistinct(ids[1..], keep);
      RetainMembers(ids[1..], keep);
      var r := Retain(ids, keep);
      if ids[0] in keep {
        assert r[0] == ids[0] && r[1..] == Retain(ids[1..], keep);
      } else {
        assert r == Retain(ids[1..], keep);
      }
    }
  }

  /** Appending an id that is absent keeps the list free of repeats. */
  lemma {:induction false} DistinctAppend(ids: seq<i32>, x: i32)
    requires Distinct(ids) && x !in ids
    ensures Distinct(ids + [x])
  {
    if |ids| > 0 {
      DistinctAppend(ids[1..], x);
      assert (ids + [x])[1..] == ids[1..] + [x];
    }
  }

  /** Every current user is in `started` (`check_all_ready`, WaitForReady). */
  predicate AllStarted(started: set<i32>, live: seq<i32>)
  {
    forall x :: x in live ==> x in started
  }

  /** Every current user has a result or has aborted (`check_all_ready`,
      Playing). */
  predicate AllFinished(results: map<i32, Record>, aborted: set<i32>, live: seq<i32>)
  {
    forall x :: x in live ==> x in results || x in aborted
  }

  /** The state `check_all_ready` leaves behind, for the current users `live`. */
  function ReadyStep(s: InternalState, live: seq<i32>): InternalState
  {
    match s
    case SelectChart => s
    case WaitForReady(started) =>
      if AllStarted(started, live) then InternalState.Playing(map[], {}) else s
    case Playing(results, aborted) =>
      if AllFinished(results, aborted, live) then InternalState.SelectChart else s
  }

  /** What `check_all_ready` broadcasts: StartPlaying and the new state when a
      game starts, GameEnd and the new state when it ends. */
  function ReadyNotices(s: InternalState, live: seq<i32>, chart: Option<Chart>): seq<Outgoing>
  {
    match s
    case SelectChart => []
    case WaitForReady(started) =>
      if AllStarted(started, live) then
        [Broadcast(live, ServerCommand.Message(Message.StartPlaying)),
         Broadcast(live, ChangeState(RoomState.Playing))]
      else []
    case Playing(results, aborted) =>
      if AllFinished(results, aborted, live) then
        [Broadcast(live, ServerCommand.Message(Message.GameEnd)),
         Broadcast(live, ChangeState(RoomState.SelectChart(ChartId(chart))))]
      else []
  }

  /** A game starts exactly when every current user is in `started`, and it
      starts with no results and no aborts. */
  lemma ReadyStepStarts(s: InternalState, live: seq<i32>)
    requires s.WaitForReady?
    ensures ReadyStep(s, live).Playing? <==> AllStarted(s.started, live)
    ensures ReadyStep(s, live).Playing? ==>
              ReadyStep(s, live).results == map[] && ReadyStep(s, live).aborted == {}
    ensures !ReadyStep(s, live).Playing? ==> ReadyStep(s, live) == s
  { }

  /** A game ends (back to SelectChart) exactly when every current user has a
      result or an abort; a SelectChart room is left as it is. */
  lemma ReadyStepEnds(s: InternalState, live: seq<i32>)
    ensures s.Playing? ==> (ReadyStep(s, live).SelectChart? <==> AllFinished(s.results, s.aborted, live))
    ensures s.Playing? && !ReadyStep(s, live).SelectChart? ==> ReadyStep(s, live) == s
    ensures s.SelectChart? ==> ReadyStep(s, live) == s
  { }

  /** A game that has just started in an occupied room is not ended by the
      same call: one `check_all_ready` moves the room at most one phase on,
      and a second call with the same users changes nothing more. */
  lemma ReadyStepSettles(s: InternalState, live: seq<i32>)
    requires |live| > 0
    ensures ReadyStep(ReadyStep(s, live), live) == ReadyStep(s, live)
      || (s.Playing? && ReadyStep(s, live).SelectChart?)
  {
    if s.WaitForReady? && AllStarted(s.started, live) {
      assert live[0] in live;
      assert !AllFinished(map[], {}, live);
    }
  }

  /** In a game nobody has both a result and an abort. */
  predicate ResultsApart(s: InternalState)
  {
    s.Playing? ==> s.results.Keys !! s.aborted
  }

  lemma ReadyStepKeepsApart(s: InternalState, live: seq<i32>)
    requires ResultsApart(s)
    ensures ResultsApart(ReadyStep(s, live))
  { }

  /** `Room`. */
  class Room {
    const id: Text
    /** The user the host handle points to. */
    var host: i32
    var state: InternalState
    /** `live` / `live_room`. */
    var live: bool
    var locked: bool
    var cycle: bool
    var users: seq<i32>
    var monitors: seq<i32>
    var chart: Option<Chart>
    var outbox: seq<Outgoing>

    /** A room's own invariant: at most eight users, no user twice, the host
        among the users, and no player with both a result and an abort. */
    predicate Valid()
      reads this`users, this`monitors, this`host, this`state
    {
      |users| <= ROOM_MAX_USERS && Distinct(users) && Distinct(monitors)
      && host in users && ResultsApart(state)
    }

    /** `Room::new`: the creator is host and only user, in SelectChart. */
    constructor (id: Text, host: i32)
      ensures this.id == id && this.host == host && users == [host] && monitors == []
      ensures state == InternalState.SelectChart && chart == None
      ensures !live && !locked && !cycle && outbox == []
      ensures Valid()
    {
      this.id := id;
      this.host := host;
      state := InternalState.SelectChart;
      live := false;
      locked := false;
      cycle := false;
      users := [host];
      monitors := [];
      chart := None;
      outbox := [];
    }

    /** `check_host`: the host handle names `uid`. */
    predicate IsHost(uid: i32)
      reads this
    {
      host == uid
    }

    /** `client_room_state`. */
    function RoomState(): RoomState
      reads this
    {
      ToClient(state, ChartId(chart))
    }

    /** `users()`: the users whose handle still upgrades. */
    function LiveUsers(alive: set<i32>): seq<i32>
      reads this
    {
      Retain(users, alive)
    }

    /** `send`: broadcast a room message to the live users. */
    method Send(msg: Message, alive: set<i32>)
      modifies this`outbox
      ensures outbox == old(outbox) + [Broadcast(Retain(users, alive), ServerCommand.Message(msg))]
    {
      outbox := outbox + [Broadcast(LiveUsers(alive), ServerCommand.Message(msg))];
    }

    /** `broadcast`. */
    method BroadcastAll(cmd: ServerCommand, alive: set<i32>)
      modifies this`outbox
      ensures outbox == old(outbox) + [Broadcast(Retain(users, alive), cmd)]
    {
      outbox := outbox + [Broadcast(LiveUsers(alive), cmd)];
    }

    /** `broadcast_monitors`. */
    method BroadcastMonitors(cmd: ServerCommand, alive: set<i32>)
      modifies this`outbox
      ensures outbox == old(outbox) + [Broadcast(Retain(monitors, alive), cmd)]
    {
      outbox := outbox + [Broadcast(Retain(monitors, alive), cmd)];
    }

    /** `on_state_change`: broadcast the client-visible state. */
    method OnStateChange(alive: set<i32>)
      modifies this`outbox
      ensures outbox == old(outbox) + [Broadcast(Retain(users, alive), ChangeState(ToClient(state, ChartId(chart))))]
    {
      outbox := outbox + [Broadcast(LiveUsers(alive), ChangeState(RoomState()))];
    }

    /** `add_user`: dead handles are dropped first; a player is refused when
        eight or more remain and appended otherwise; a monitor is always
        appended to the monitor list. */
    method AddUser(uid: i32, monitor: bool, alive: set<i32>) returns (added: bool)
      modifies this`users, this`monitors
      ensures monitor ==>
        added && users == old(users) && monitors == Retain(old(monitors), alive) + [uid]
      ensures !monitor ==>
        monitors == old(monitors) && added == (|Retain(old(users), alive)| < ROOM_MAX_USERS)
      ensures !monitor && added ==> users == Retain(old(users), alive) + [uid]
      ensures !monitor && !added ==> users == Retain(old(users), alive)
      ensures |old(users)| <= ROOM_MAX_USERS ==> |users| <= ROOM_MAX_USERS
      ensures old(Valid()) && host in alive && uid !in old(users) && uid !in old(monitors) ==>
        Valid()
    {
      RetainMembers(users, alive);
      RetainMembers(monitors, alive);
      if monitor {
        RetainDistinct(monitors, alive);
        if uid !in monitors && Distinct(monitors) {
          DistinctAppend(Retain(monitors, alive), uid);
        }
        monitors := Retain(monitors, alive) + [uid];
        added := true;
      } else {
        RetainDistinct(users, alive);
        var kept := Retain(users, alive);
        if |kept| >= ROOM_MAX_USERS {
          users := kept;
          added := false;
        } else {
          if uid !in users && Distinct(users) {
            DistinctAppend(kept, uid);
          }
          users := kept + [uid];
          added := true;
        }
      }
    }

    /** The room's part of a join, when every member is still alive:
        `add_user`, and when it accepts, a monitor makes the room live and
        the room is told of the new member (its `UserInfo`) and of the
        join. A refused join changes nothing. */
    method Join(uid: i32, monitor: bool, info: UserInfo, name: Text, alive: set<i32>)
      returns (added: bool)
      requires forall x :: x in users ==> x in alive
      requires forall x :: x in monitors ==> x in alive
      requires uid in alive
      modifies this`users, this`monitors, this`live, this`outbox
      ensures added == (monitor || |old(users)| < ROOM_MAX_USERS)
      ensures monitor ==> users == old(users) && monitors == old(monitors) + [uid]
      ensures !monitor && added ==> users == old(users) + [uid] && monitors == old(monitors)
      ensures !added ==> users == old(users) && monitors == old(monitors)
      ensures live == (old(live) || monitor)
      ensures !added ==> outbox == old(outbox)
      ensures added ==> outbox == old(outbox) + JoinNotices(users, info, uid, name)
      ensures old(Valid()) && uid !in old(users) && uid !in old(monitors) ==> Valid()
    {
      RetainAll(users, alive);
      RetainAll(monitors, alive);
      ghost var ok := Valid() && uid !in users && uid !in monitors;
      assert ok ==> host in alive;
      added := AddUser(uid, monitor, alive);
      assert ok ==> Valid();
      if added {
        live := live || monitor;
        RetainAll(users, alive);
        // `broadcast` of the info, then `send` of the join message.
        outbox := outbox + JoinNotices(users, info, uid, name);
      }
    }

    /** `check_all_ready`. */
    method CheckAllReady(alive: set<i32>)
      modifies this`state, this`outbox
      ensures state == ReadyStep(old(state), Retain(users, alive))
      ensures outbox == old(outbox) + ReadyNotices(old(state), Retain(users, alive), chart)
      ensures old(Valid()) ==> Valid()
    {
      var live := LiveUsers(alive);
      match state
      case SelectChart =>
      case WaitForReady(started) =>
        if AllStarted(started, live) {
          Send(Message.StartPlaying, alive);
          state := InternalState.Playing(map[], {});
          OnStateChange(alive);
        }
      case Playing(results, aborted) =>
        if AllFinished(results, aborted, live) {
          Send(Message.GameEnd, alive);
          state := InternalState.SelectChart;
          OnStateChange(alive);
        }
    }

    /** A step of a game command once its checks have passed: the state
        becomes `next`, the room is told `msg`, and `check_all_ready` runs. */
    method Advance(next: InternalState, msg: Message, alive: set<i32>)
      modifies this`state, this`outbox
      ensures state == ReadyStep(next, Retain(users, alive))
      ensures outbox == old(outbox) + [Broadcast(Retain(users, alive), ServerCommand.Message(msg))]
                        + ReadyNotices(next, Retain(users, alive), chart)
      ensures old(Valid()) && ResultsApart(next) ==> Valid()
    {
      state := next;
      Send(msg, alive);
      CheckAllReady(alive);
    }

    /** A step that does not end in `check_all_ready`: the room is told
        `msg`, the state becomes `next`, and when `announce` is set the new
        state is broadcast. */
    method Shift(next: InternalState, msg: Message, alive: set<i32>, announce: bool)
      modifies this`state, this`outbox
      ensures state == next
      ensures announce ==>
        outbox == old(outbox) + [Broadcast(Retain(users, alive), ServerCommand.Message(msg)),
                                 Broadcast(Retain(users, alive), ChangeState(ToClient(next, ChartId(chart))))]
      ensures !announce ==> outbox == old(outbox) + [Broadcast(Retain(users, alive), ServerCommand.Message(msg))]
      ensures old(Valid()) && ResultsApart(next) ==> Valid()
    {
      Send(msg, alive);
      state := next;
      if announce {
        OnStateChange(alive);
      }
    }

    /** The room's part of `RequestStart`: the room is told the game starts,
        it waits for the host alone to be ready, the new state is
        broadcast, and `check_all_ready` runs, which starts the game at once
        when the host is the only live user. */
    method Start(uid: i32, alive: set<i32>)
      modifies this`state, this`outbox
      ensures state == ReadyStep(InternalState.WaitForReady({uid}), Retain(users, alive))
      ensures outbox == old(outbox)
        + [Broadcast(Retain(users, alive), ServerCommand.Message(Message.GameStart(uid))),
           Broadcast(Retain(users, alive), ChangeState(Command.RoomState.WaitingForReady))]
        + ReadyNotices(InternalState.WaitForReady({uid}), Retain(users, alive), chart)
      ensures old(Valid()) ==> Valid()
    {
      Shift(InternalState.WaitForReady({uid}), Message.GameStart(uid), alive, true);
      CheckAllReady(alive);
    }

    /** The first half of `on_user_leave`: the leave notice goes to the
        live users, then the leaver and dead handles are dropped. */
    method DropMember(uid: i32, name: Text, alive: set<i32>)
      modifies this`users, this`monitors, this`outbox
      ensures users == Retain(old(users), alive - {uid})
      ensures monitors == Retain(old(monitors), alive - {uid})
      ensures outbox == old(outbox) + [LeaveNotice(old(users), alive, uid, name)]
      ensures uid !in users && uid !in monitors && forall x :: x in users ==> x in alive
      ensures old(host) != uid && old(host) in alive && old(host) in old(users) ==> old(host) in users
      ensures old(Valid()) ==> |users| <= ROOM_MAX_USERS && Distinct(users) && Distinct(monitors)
    {
      Send(Message.LeaveRoom(uid, name), alive);
      var leftOut := alive - {uid};
      RetainDistinct(users, leftOut);
      RetainDistinct(monitors, leftOut);
      RetainMembers(users, leftOut);
      RetainMembers(monitors, leftOut);
      users := Retain(users, leftOut);
      monitors := Retain(monitors, leftOut);
    }

    /** The host hand-off of `on_user_leave`, once the leaver is gone. The
        leaver's own handle still upgrades at this point, so `check_host` on
        the leaver succeeds exactly when it was the host. */
    method HandOver(uid: i32, alive: set<i32>, choice: nat) returns (drop: bool)
      requires forall x :: x in users ==> x in alive
      modifies this`host, this`outbox
      ensures drop <==> old(host) == uid && |users| == 0
      ensures old(host) != uid || drop ==> host == old(host) && outbox == old(outbox)
      ensures old(host) == uid && !drop ==>
        host == users[choice % |users|] && outbox == old(outbox) + HostNotices(users, host)
    {
      drop := false;
      if IsHost(uid) {
        RetainAll(users, alive);
        if |users| == 0 {
          drop := true;
        } else {
          host := users[choice % |users|];
          Send(NewHost(host), alive);
          outbox := outbox + [Direct(host, ChangeHost(true))];
        }
      }
    }

    /** `on_user_leave`: announce the leave, drop the leaver (and dead
        handles) from the room, hand the host over to one of the remaining
        users, chosen by `choice`, when the host left, and re-run
        `check_all_ready`. Returns whether the room is to be dropped: the
        host left and nobody remains, in which case `check_all_ready` is not
        run. Clearing the leaver's `room` is done by the caller, which owns
        the user. */
    method OnUserLeave(uid: i32, name: Text, alive: set<i32>, choice: nat) returns (drop: bool)
      modifies this`users, this`monitors, this`host, this`state, this`outbox
      ensures users == Retain(old(users), alive - {uid}) && uid !in users
      ensures monitors == Retain(old(monitors), alive - {uid}) && uid !in monitors
      ensures drop <==> old(host) == uid && |users| == 0
      ensures old(host) != uid ==> host == old(host)
      ensures old(host) == uid && !drop ==> host == users[choice % |users|] && host in users
      ensures state == if drop then old(state) else ReadyStep(old(state), users)
      ensures outbox == old(outbox) + [LeaveNotice(old(users), alive, uid, name)]
                + (if old(host) == uid && !drop then HostNotices(users, host) else [])
                + (if drop then [] else ReadyNotices(old(state), users, chart))
      ensures old(Valid()) && (old(host) == uid || old(host) in alive) && !drop ==> Valid()
    {
      ghost var o0 := outbox;
      DropMember(uid, name, alive);
      ghost var o1 := outbox;
      drop := HandOver(uid, alive, choice);
      if drop {
        assert outbox == o0 + [LeaveNotice(old(users), alive, uid, name)] + [] + [];
        return;
      }
      ghost var handed := if old(host) == uid then HostNotices(users, host) else [];
      assert outbox == o1 + handed;
      ghost var o2 := outbox;
      RetainAll(users, alive);
      if old(Valid()) && (old(host) == uid || old(host) in alive) {
        assert old(host) != uid ==> old(host) in users;
        assert Valid();
      }
      ghost var s2 := state;
      assert s2 == old(state);
      CheckAllReady(alive);
      assert state == ReadyStep(s2, users);
      ghost var ready := ReadyNotices(old(state), users, chart);
      assert outbox == o2 + ready;
      assert o1 == o0 + [LeaveNotice(old(users), alive, uid, name)];
      assert outbox == o0 + [LeaveNotice(old(users), alive, uid, name)] + handed + ready;
    }
  }

  /** The notice `on_user_leave` sends first, to the users live before the
      leave. */
  function LeaveNotice(users: seq<i32>, alive: set<i32>, uid: i32, name: Text): Outgoing
  {
    Broadcast(Retain(users, alive), ServerCommand.Message(Message.LeaveRoom(uid, name)))
  }

  /** The new host is announced to the room and told it is host. */
  function HostNotices(users: seq<i32>, newHost: i32): seq<Outgoing>
  {
    [Broadcast(users, ServerCommand.Message(NewHost(newHost))), Direct(newHost, ChangeHost(true))]
  }

  /** What a join tells the room: the newcomer's `UserInfo`, then the join
      message. */
  function JoinNotices(to: seq<i32>, info: UserInfo, uid: i32, name: Text): seq<Outgoing>
  {
    [Broadcast(to, OnJoinRoom(info)), Broadcast(to, ServerCommand.Message(Message.JoinRoom(uid, name)))]
  }
}
