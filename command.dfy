/** The commands of phira-mp-common/src/command.rs: the typed values the
    client and the server exchange, the wire schema `#[derive(BinaryData)]`
    gives each of them, and their conversion to codec values. Every
    well-formed command is written and read back unchanged, and different
    commands never share an encoding.

    Floating-point fields (`f32` times and accuracy, the `f16` halves of a
    `CompactPos`) are kept as their bit patterns, which is all the codec
    moves. */
module Command {
  import opened Wire
  import opened Utf8
  import opened Codec
  import Varchar
  import RoundTrip
  import Derive

  // ---------------------------------------------------------------------
  // Typed values

  /** Two `f16` bit patterns. */
  datatype CompactPos = CompactPos(xBits: u16, yBits: u16)

  datatype TouchFrame = TouchFrame(timeBits: u32, points: seq<(i8, CompactPos)>)

  datatype Judgement = Perfect | Good | Bad | Miss | HoldPerfect | HoldGood

  datatype JudgeEvent = JudgeEvent(timeBits: u32, lineId: u32, noteId: u32, judgement: Judgement)

  datatype ClientCommand =
    | Ping
    | Authenticate(token: Text)
    | Chat(message: Text)
    | Touches(frames: seq<TouchFrame>)
    | Judges(judges: seq<JudgeEvent>)
    | CreateRoom(roomId: Text)
    | JoinRoom(roomId: Text, monitor: bool)
    | LeaveRoom
    | LockRoom(lock: bool)
    | CycleRoom(cycle: bool)
    | SelectChart(id: i32)
    | RequestStart
    | Ready
    | CancelReady
    | Played(id: i32)
    | Abort

  datatype Message =
    | Chat(user: i32, content: Text)
    | CreateRoom(user: i32)
    | JoinRoom(user: i32, name: Text)
    | LeaveRoom(user: i32, name: Text)
    | NewHost(user: i32)
    | SelectChart(user: i32, name: Text, id: i32)
    | GameStart(user: i32)
    | Ready(user: i32)
    | CancelReady(user: i32)
    | CancelGame(user: i32)
    | StartPlaying
    | Played(user: i32, score: i32, accuracyBits: u32, fullCombo: bool)
    | GameEnd
    | Abort(user: i32)
    | LockRoom(lock: bool)
    | CycleRoom(cycle: bool)

  datatype RoomState = SelectChart(chart: Option<i32>) | WaitingForReady | Playing

  /** `RoomState::default()`. */
  function DefaultRoomState(): RoomState { RoomState.SelectChart(None) }

  datatype UserInfo = UserInfo(id: i32, name: Text, monitor: bool)

  datatype ClientRoomState = ClientRoomState(
    id: Text, state: RoomState, live: bool, locked: bool, cycle: bool,
    isHost: bool, isReady: bool, users: map<i32, UserInfo>)

  datatype JoinRoomResponse = JoinRoomResponse(state: RoomState, users: seq<UserInfo>, live: bool)

  /** `SResult<T> = Result<T, String>`; the error strings are localisation
      keys and arguments, kept opaque. */
  datatype SResult<T> = SOk(value: T) | SErr(reason: Text)

  datatype ServerCommand =
    | Pong
    | Authenticate(auth: SResult<(UserInfo, Option<ClientRoomState>)>)
    | Chat(result: SResult<()>)
    | Touches(player: i32, frames: seq<TouchFrame>)
    | Judges(player: i32, judges: seq<JudgeEvent>)
    | Message(message: Message)
    | ChangeState(state: RoomState)
    | ChangeHost(isHost: bool)
    | CreateRoom(result: SResult<()>)
    | JoinRoom(response: SResult<JoinRoomResponse>)
    | OnJoinRoom(user: UserInfo)
    | LeaveRoom(result: SResult<()>)
    | LockRoom(result: SResult<()>)
    | CycleRoom(result: SResult<()>)
    | SelectChart(result: SResult<()>)
    | RequestStart(result: SResult<()>)
    | Ready(result: SResult<()>)
    | CancelReady(result: SResult<()>)
    | Played(result: SResult<()>)
    | Abort(result: SResult<()>)

  // ---------------------------------------------------------------------
  // Wire schemas. A derived enum is Derive.EnumTy of its variants' field
  // lists, in declaration order (a unit variant has none, a tuple variant
  // its one element); `Arc<Vec<T>>` is TArc(TVec(T)).

  const TOUCH_FRAME: Ty := TStruct([TF32, TVec(TPair(TI8, TCompactPos))])

  const TOUCHES: Ty := TArc(TVec(TOUCH_FRAME))

  /** `#[repr(u8)]` with six unit variants. */
  const JUDGEMENT: Ty := Derive.EnumTy([[], [], [], [], [], []])

  const JUDGE_EVENT: Ty := TStruct([TF32, TU32, TU32, JUDGEMENT])

  const JUDGES: Ty := TArc(TVec(JUDGE_EVENT))

  function ClientFields(tag: nat): seq<Ty>
  {
    match tag
    case 1 => [TVarchar(32)]          // Authenticate
    case 2 => [TVarchar(200)]         // Chat
    case 3 => [TOUCHES]               // Touches
    case 4 => [JUDGES]                // Judges
    case 5 => [TRoomId]               // CreateRoom
    case 6 => [TRoomId, TBool]        // JoinRoom
    case 8 => [TBool]                 // LockRoom
    case 9 => [TBool]                 // CycleRoom
    case 10 => [TI32]                 // SelectChart
    case 14 => [TI32]                 // Played
    case _ => []                      // Ping, LeaveRoom, RequestStart, Ready, CancelReady, Abort
  }

  function ClientVariants(): seq<seq<Ty>>
  {
    seq(16, i requires 0 <= i => ClientFields(i))
  }

  const CLIENT_COMMAND: Ty := Derive.EnumTy(ClientVariants())

  function MessageFields(tag: nat): seq<Ty>
  {
    match tag
    case 0 => [TI32, TString]         // Chat
    case 2 => [TI32, TString]         // JoinRoom
    case 3 => [TI32, TString]         // LeaveRoom
    case 5 => [TI32, TString, TI32]   // SelectChart
    case 10 => []                     // StartPlaying
    case 11 => [TI32, TI32, TF32, TBool] // Played
    case 12 => []                     // GameEnd
    case 14 => [TBool]                // LockRoom
    case 15 => [TBool]                // CycleRoom
    case _ => [TI32]                  // CreateRoom, NewHost, GameStart, Ready, CancelReady, CancelGame, Abort
  }

  function MessageVariants(): seq<seq<Ty>>
  {
    seq(16, i requires 0 <= i => MessageFields(i))
  }

  const MESSAGE: Ty := Derive.EnumTy(MessageVariants())

  const ROOM_STATE: Ty := Derive.EnumTy([[TOption(TI32)], [], []])

  const USER_INFO: Ty := TStruct([TI32, TString, TBool])

  const USERS: Ty := TMap(TI32, USER_INFO)

  const CLIENT_ROOM_STATE: Ty :=
    TStruct([TRoomId, ROOM_STATE, TBool, TBool, TBool, TBool, TBool, USERS])

  const JOIN_ROOM_RESPONSE: Ty := TStruct([ROOM_STATE, TVec(USER_INFO), TBool])

  /** `SResult<T>`. */
  function SResultTy(t: Ty): Ty
  {
    TResult(t, TString)
  }

  const AUTH_RESULT: Ty := SResultTy(TPair(USER_INFO, TOption(CLIENT_ROOM_STATE)))

  function ServerFields(tag: nat): seq<Ty>
  {
    match tag
    case 0 => []                          // Pong
    case 1 => [AUTH_RESULT]               // Authenticate
    case 3 => [TI32, TOUCHES]             // Touches
    case 4 => [TI32, JUDGES]              // Judges
    case 5 => [MESSAGE]                   // Message
    case 6 => [ROOM_STATE]                // ChangeState
    case 7 => [TBool]                     // ChangeHost
    case 9 => [SResultTy(JOIN_ROOM_RESPONSE)] // JoinRoom
    case 10 => [USER_INFO]                // OnJoinRoom
    case _ => [SResultTy(TUnit)]          // Chat, CreateRoom and LeaveRoom to Abort
  }

  function ServerVariants(): seq<seq<Ty>>
  {
    seq(20, i requires 0 <= i => ServerFields(i))
  }

  const SERVER_COMMAND: Ty := Derive.EnumTy(ServerVariants())

  // ---------------------------------------------------------------------
  // What a Rust value of each type always satisfies

  /** A Rust String: well-formed UTF-8 whose length fits the ULEB prefix. */
  predicate IsString(t: Text)
  {
    ValidUtf8(t) && |t| < U64_LIMIT
  }

  predicate TouchFrameOk(f: TouchFrame)
  {
    |f.points| < U64_LIMIT
  }

  predicate FramesOk(frames: seq<TouchFrame>)
  {
    |frames| < U64_LIMIT && forall i :: 0 <= i < |frames| ==> TouchFrameOk(frames[i])
  }

  /** The Varchar bounds (32 for a token, 200 for a chat line) and the
      RoomId rule are part of the types. */
  predicate ClientCommandOk(c: ClientCommand)
  {
    match c
    case Authenticate(token) => ValidUtf8(token) && |token| <= 32
    case Chat(message) => ValidUtf8(message) && |message| <= 200
    case Touches(frames) => FramesOk(frames)
    case Judges(judges) => |judges| < U64_LIMIT
    case CreateRoom(id) => Varchar.RoomIdValid(id)
    case JoinRoom(id, _) => Varchar.RoomIdValid(id)
    case _ => true
  }

  predicate MessageOk(m: Message)
  {
    match m
    case Chat(_, content) => IsString(content)
    case JoinRoom(_, name) => IsString(name)
    case LeaveRoom(_, name) => IsString(name)
    case SelectChart(_, name, _) => IsString(name)
    case _ => true
  }

  predicate UserInfoOk(u: UserInfo)
  {
    IsString(u.name)
  }

  predicate ClientRoomStateOk(r: ClientRoomState)
  {
    && Varchar.RoomIdValid(r.id) && |r.users| < U64_LIMIT
    && forall k :: k in r.users ==> UserInfoOk(r.users[k])
  }

  predicate ResponseOk(r: JoinRoomResponse)
  {
    |r.users| < U64_LIMIT && forall i :: 0 <= i < |r.users| ==> UserInfoOk(r.users[i])
  }

  predicate ReplyOk<T>(r: SResult<T>)
  {
    r.SErr? ==> IsString(r.reason)
  }

  predicate ServerCommandOk(c: ServerCommand)
  {
    match c
    case Pong => true
    case Authenticate(a) =>
      ReplyOk(a) && (a.SOk? ==> UserInfoOk(a.value.0) && (a.value.1.Some? ==> ClientRoomStateOk(a.value.1.value)))
    case Touches(_, frames) => FramesOk(frames)
    case Judges(_, judges) => |judges| < U64_LIMIT
    case Message(m) => MessageOk(m)
    case ChangeState(_) => true
    case ChangeHost(_) => true
    case JoinRoom(r) => ReplyOk(r) && (r.SOk? ==> ResponseOk(r.value))
    case OnJoinRoom(u) => UserInfoOk(u)
    case _ => ReplyOk(c.result)
  }

  // ---------------------------------------------------------------------
  // Conversion to codec values: a derived enum value is its variant index
  // and the struct of its fields.

  function PosValue(p: CompactPos): Value
  {
    VPos(p.xBits, p.yBits)
  }

  function PointValue(p: (i8, CompactPos)): Value
  {
    VPair(VInt(p.0), PosValue(p.1))
  }

  function PointsValue(points: seq<(i8, CompactPos)>): Value
  {
    VList(seq(|points|, i requires 0 <= i < |points| => PointValue(points[i])))
  }

  function TouchFrameValue(f: TouchFrame): Value
  {
    VStruct([VInt(f.timeBits), PointsValue(f.points)])
  }

  function FramesValue(frames: seq<TouchFrame>): Value
  {
    VList(seq(|frames|, i requires 0 <= i < |frames| => TouchFrameValue(frames[i])))
  }

  function JudgementTag(j: Judgement): nat
  {
    match j
    case Perfect => 0
    case Good => 1
    case Bad => 2
    case Miss => 3
    case HoldPerfect => 4
    case HoldGood => 5
  }

  function JudgeEventValue(e: JudgeEvent): Value
  {
    VStruct([VInt(e.timeBits), VInt(e.lineId), VInt(e.noteId), VEnum(JudgementTag(e.judgement), VStruct([]))])
  }

  function JudgesValue(judges: seq<JudgeEvent>): Value
  {
    VList(seq(|judges|, i requires 0 <= i < |judges| => JudgeEventValue(judges[i])))
  }

  function ClientTag(c: ClientCommand): nat
  {
    match c
    case Ping => 0
    case Authenticate(_) => 1
    case Chat(_) => 2
    case Touches(_) => 3
    case Judges(_) => 4
    case CreateRoom(_) => 5
    case JoinRoom(_, _) => 6
    case LeaveRoom => 7
    case LockRoom(_) => 8
    case CycleRoom(_) => 9
    case SelectChart(_) => 10
    case RequestStart => 11
    case Ready => 12
    case CancelReady => 13
    case Played(_) => 14
    case Abort => 15
  }

  function ClientArgs(c: ClientCommand): seq<Value>
  {
    match c
    case Authenticate(token) => [VStr(token)]
    case Chat(message) => [VStr(message)]
    case Touches(frames) => [FramesValue(frames)]
    case Judges(judges) => [JudgesValue(judges)]
    case CreateRoom(id) => [VStr(id)]
    case JoinRoom(id, monitor) => [VStr(id), VBool(monitor)]
    case LockRoom(lock) => [VBool(lock)]
    case CycleRoom(cycle) => [VBool(cycle)]
    case SelectChart(id) => [VInt(id)]
    case Played(id) => [VInt(id)]
    case _ => []
  }

  function ClientCommandValue(c: ClientCommand): Value
  {
    VEnum(ClientTag(c), VStruct(ClientArgs(c)))
  }

  function MessageTag(m: Message): nat
  {
    match m
    case Chat(_, _) => 0
    case CreateRoom(_) => 1
    case JoinRoom(_, _) => 2
    case LeaveRoom(_, _) => 3
    case NewHost(_) => 4
    case SelectChart(_, _, _) => 5
    case GameStart(_) => 6
    case Ready(_) => 7
    case CancelReady(_) => 8
    case CancelGame(_) => 9
    case StartPlaying => 10
    case Played(_, _, _, _) => 11
    case GameEnd => 12
    case Abort(_) => 13
    case LockRoom(_) => 14
    case CycleRoom(_) => 15
  }

  function MessageArgs(m: Message): seq<Value>
  {
    match m
    case Chat(user, content) => [VInt(user), VStr(content)]
    case JoinRoom(user, name) => [VInt(user), VStr(name)]
    case LeaveRoom(user, name) => [VInt(user), VStr(name)]
    case SelectChart(user, name, id) => [VInt(user), VStr(name), VInt(id)]
    case StartPlaying => []
    case Played(user, score, accuracy, fullCombo) => [VInt(user), VInt(score), VInt(accuracy), VBool(fullCombo)]
    case GameEnd => []
    case LockRoom(lock) => [VBool(lock)]
    case CycleRoom(cycle) => [VBool(cycle)]
    case _ => [VInt(m.user)]
  }

  function MessageValue(m: Message): Value
  {
    VEnum(MessageTag(m), VStruct(MessageArgs(m)))
  }

  function RoomStateValue(s: RoomState): Value
  {
    match s
    case SelectChart(chart) => VEnum(0, VStruct([if chart.Some? then VSome(VInt(chart.value)) else VNone]))
    case WaitingForReady => VEnum(1, VStruct([]))
    case Playing => VEnum(2, VStruct([]))
  }

  function UserInfoValue(u: UserInfo): Value
  {
    VStruct([VInt(u.id), VStr(u.name), VBool(u.monitor)])
  }

  /** The pairs of a map in some iteration order: each key once. */
  predicate ListsMap(es: seq<(i32, UserInfo)>, m: map<i32, UserInfo>)
  {
    && |es| == |m|
    && (forall i :: 0 <= i < |es| ==> es[i].0 in m && m[es[i].0] == es[i].1)
    && (forall k :: k in m ==> (k, m[k]) in es)
    && (forall i, j :: 0 <= i < j < |es| ==> es[i].0 != es[j].0)
  }

  ghost function Entries(m: map<i32, UserInfo>): (es: seq<(i32, UserInfo)>)
    ensures ListsMap(es, m)
    decreases |m|
  {
    if m == map[] then []
    else
      var k :| k in m;
      var tail := Entries(m - {k});
      EntriesCons(m, k, tail);
      [(k, m[k])] + tail
  }

  lemma EntriesCons(m: map<i32, UserInfo>, k: i32, tail: seq<(i32, UserInfo)>)
    requires k in m && ListsMap(tail, m - {k})
    ensures ListsMap([(k, m[k])] + tail, m)
  {
    var rest := m - {k};
    assert rest.Keys == m.Keys - {k};
    assert |m| == |rest| + 1;
    ConsSound(m, k, tail);
    ConsCovers(m, k, tail);
    ConsDistinct(m, k, tail);
  }

  lemma ConsSound(m: map<i32, UserInfo>, k: i32, tail: seq<(i32, UserInfo)>)
    requires k in m && ListsMap(tail, m - {k})
    ensures forall i :: 0 <= i < |tail| + 1 ==> ([(k, m[k])] + tail)[i].0 in m && m[([(k, m[k])] + tail)[i].0] == ([(k, m[k])] + tail)[i].1
  {
    var es := [(k, m[k])] + tail;
    forall i | 0 <= i < |es|
      ensures es[i].0 in m && m[es[i].0] == es[i].1
    {
      if i > 0 {
        assert es[i] == tail[i - 1];
      }
    }
  }

  lemma ConsCovers(m: map<i32, UserInfo>, k: i32, tail: seq<(i32, UserInfo)>)
    requires k in m && ListsMap(tail, m - {k})
    ensures forall k' :: k' in m ==> (k', m[k']) in [(k, m[k])] + tail
  {
    var rest := m - {k};
    forall k' | k' in m
      ensures (k', m[k']) in [(k, m[k])] + tail
    {
      if k' != k {
        assert k' in rest && rest[k'] == m[k'];
        assert (k', rest[k']) in tail;
      }
    }
  }

  lemma ConsDistinct(m: map<i32, UserInfo>, k: i32, tail: seq<(i32, UserInfo)>)
    requires k in m && ListsMap(tail, m - {k})
    ensures forall i, j :: 0 <= i < j < |tail| + 1 ==> ([(k, m[k])] + tail)[i].0 != ([(k, m[k])] + tail)[j].0
  {
    var es := [(k, m[k])] + tail;
    forall i, j | 0 <= i < j < |es|
      ensures es[i].0 != es[j].0
    {
      assert es[j] == tail[j - 1];
      if i > 0 {
        assert es[i] == tail[i - 1];
      } else {
        assert tail[j - 1].0 in m - {k};
      }
    }
  }

  /** A HashMap<i32, UserInfo> as the writer walks it, in its (unspecified)
      iteration order. */
  ghost function UsersValue(m: map<i32, UserInfo>): Value
  {
    VMap(EntryValues(Entries(m)))
  }

  function EntryValues(es: seq<(i32, UserInfo)>): seq<(Value, Value)>
  {
    seq(|es|, i requires 0 <= i < |es| => (VInt(es[i].0), UserInfoValue(es[i].1)))
  }

  ghost function ClientRoomStateValue(r: ClientRoomState): Value
  {
    VStruct([VStr(r.id), RoomStateValue(r.state), VBool(r.live), VBool(r.locked), VBool(r.cycle),
             VBool(r.isHost), VBool(r.isReady), UsersValue(r.users)])
  }

  function UserListValue(users: seq<UserInfo>): Value
  {
    VList(seq(|users|, i requires 0 <= i < |users| => UserInfoValue(users[i])))
  }

  function ResponseValue(r: JoinRoomResponse): Value
  {
    VStruct([RoomStateValue(r.state), UserListValue(r.users), VBool(r.live)])
  }

  function ReplyValue<T>(r: SResult<T>, okValue: Value): Value
  {
    if r.SOk? then VOk(okValue) else VErr(VStr(r.reason))
  }

  ghost function AuthValue(a: SResult<(UserInfo, Option<ClientRoomState>)>): Value
  {
    if a.SErr? then VErr(VStr(a.reason))
    else
      var room := a.value.1;
      VOk(VPair(UserInfoValue(a.value.0), if room.Some? then VSome(ClientRoomStateValue(room.value)) else VNone))
  }

  function ServerTag(c: ServerCommand): nat
  {
    match c
    case Pong => 0
    case Authenticate(_) => 1
    case Chat(_) => 2
    case Touches(_, _) => 3
    case Judges(_, _) => 4
    case Message(_) => 5
    case ChangeState(_) => 6
    case ChangeHost(_) => 7
    case CreateRoom(_) => 8
    case JoinRoom(_) => 9
    case OnJoinRoom(_) => 10
    case LeaveRoom(_) => 11
    case LockRoom(_) => 12
    case CycleRoom(_) => 13
    case SelectChart(_) => 14
    case RequestStart(_) => 15
    case Ready(_) => 16
    case CancelReady(_) => 17
    case Played(_) => 18
    case Abort(_) => 19
  }

  ghost function ServerArgs(c: ServerCommand): seq<Value>
  {
    match c
    case Pong => []
    case Authenticate(a) => [AuthValue(a)]
    case Touches(player, frames) => [VInt(player), FramesValue(frames)]
    case Judges(player, judges) => [VInt(player), JudgesValue(judges)]
    case Message(m) => [MessageValue(m)]
    case ChangeState(s) => [RoomStateValue(s)]
    case ChangeHost(b) => [VBool(b)]
    case JoinRoom(r) => [if r.SOk? then VOk(ResponseValue(r.value)) else VErr(VStr(r.reason))]
    case OnJoinRoom(u) => [UserInfoValue(u)]
    case _ => [ReplyValue(c.result, VUnit)]
  }

  ghost function ServerCommandValue(c: ServerCommand): Value
  {
    VEnum(ServerTag(c), VStruct(ServerArgs(c)))
  }


  // ---------------------------------------------------------------------
  // Every well-formed value has its schema's type

  /** `HasType` under a name of its own. The typing lemmas below quantify
      over fields and items with this term as the trigger, so that each
      lemma unfolds `HasType` only where it needs to. */
  predicate Conforms(v: Value, ty: Ty)
  {
    HasType(v, ty)
  }

  /** Field values of the declared field types. */
  predicate ArgsTyped(vs: seq<Value>, fs: seq<Ty>)
  {
    |vs| == |fs| && forall j :: 0 <= j < |vs| ==> Conforms(vs[j], fs[j])
  }

  lemma Args1(a: Value, ta: Ty)
    requires Conforms(a, ta)
    ensures ArgsTyped([a], [ta])
  {
  }

  lemma Args2(a: Value, b: Value, ta: Ty, tb: Ty)
    requires Conforms(a, ta) && Conforms(b, tb)
    ensures ArgsTyped([a, b], [ta, tb])
  {
    var vs, ts := [a, b], [ta, tb];
    forall j | 0 <= j < 2
      ensures Conforms(vs[j], ts[j])
    {
      if j == 0 {} else {}
    }
  }

  lemma Args3(a: Value, b: Value, c: Value, ta: Ty, tb: Ty, tc: Ty)
    requires Conforms(a, ta) && Conforms(b, tb) && Conforms(c, tc)
    ensures ArgsTyped([a, b, c], [ta, tb, tc])
  {
    Args2(a, b, ta, tb);
    Args1(c, tc);
    ArgsAppend([a, b], [ta, tb], [c], [tc]);
    assert [a, b] + [c] == [a, b, c] && [ta, tb] + [tc] == [ta, tb, tc];
  }

  lemma Args4(a: Value, b: Value, c: Value, d: Value, ta: Ty, tb: Ty, tc: Ty, td: Ty)
    requires Conforms(a, ta) && Conforms(b, tb) && Conforms(c, tc) && Conforms(d, td)
    ensures ArgsTyped([a, b, c, d], [ta, tb, tc, td])
  {
    Args2(a, b, ta, tb);
    Args2(c, d, tc, td);
    ArgsAppend([a, b], [ta, tb], [c, d], [tc, td]);
    assert [a, b] + [c, d] == [a, b, c, d] && [ta, tb] + [tc, td] == [ta, tb, tc, td];
  }

  /** Two field lists typed one after the other. */
  lemma ArgsAppend(vs: seq<Value>, fs: seq<Ty>, ws: seq<Value>, gs: seq<Ty>)
    requires ArgsTyped(vs, fs) && ArgsTyped(ws, gs)
    ensures ArgsTyped(vs + ws, fs + gs)
  {
    forall j | 0 <= j < |vs| + |ws|
      ensures Conforms((vs + ws)[j], (fs + gs)[j])
    {
      if j < |vs| {
        assert (vs + ws)[j] == vs[j] && (fs + gs)[j] == fs[j];
      } else {
        assert (vs + ws)[j] == ws[j - |vs|] && (fs + gs)[j] == gs[j - |vs|];
      }
    }
  }

  lemma StructTyped(vs: seq<Value>, fs: seq<Ty>)
    requires ArgsTyped(vs, fs)
    ensures Conforms(VStruct(vs), TStruct(fs))
  {
  }

  lemma VecTyped(items: seq<Value>, t: Ty)
    requires |items| < U64_LIMIT && forall i :: 0 <= i < |items| ==> Conforms(items[i], t)
    ensures Conforms(VList(items), TVec(t))
  {
  }

  lemma PointsTyped(points: seq<(i8, CompactPos)>)
    requires |points| < U64_LIMIT
    ensures Conforms(PointsValue(points), TVec(TPair(TI8, TCompactPos)))
  {
    var pts := PointsValue(points).items;
    forall i | 0 <= i < |pts|
      ensures Conforms(pts[i], TPair(TI8, TCompactPos))
    {
      assert pts[i] == PointValue(points[i]);
    }
    VecTyped(pts, TPair(TI8, TCompactPos));
  }

  lemma TouchFrameTyped(f: TouchFrame)
    requires TouchFrameOk(f)
    ensures Conforms(TouchFrameValue(f), TOUCH_FRAME)
  {
    PointsTyped(f.points);
    Args2(VInt(f.timeBits), PointsValue(f.points), TF32, TVec(TPair(TI8, TCompactPos)));
    StructTyped([VInt(f.timeBits), PointsValue(f.points)], [TF32, TVec(TPair(TI8, TCompactPos))]);
  }

  lemma FramesTyped(frames: seq<TouchFrame>)
    requires FramesOk(frames)
    ensures Conforms(FramesValue(frames), TOUCHES)
  {
    var items := FramesValue(frames).items;
    forall i | 0 <= i < |frames|
      ensures Conforms(items[i], TOUCH_FRAME)
    {
      TouchFrameTyped(frames[i]);
    }
    VecTyped(items, TOUCH_FRAME);
  }

  lemma JudgeEventTyped(e: JudgeEvent)
    ensures Conforms(JudgeEventValue(e), JUDGE_EVENT)
  {
    var judgement := VEnum(JudgementTag(e.judgement), VStruct([]));
    Derive.VariantTyped([[], [], [], [], [], []], JudgementTag(e.judgement), []);
    Args4(VInt(e.timeBits), VInt(e.lineId), VInt(e.noteId), judgement, TF32, TU32, TU32, JUDGEMENT);
    StructTyped([VInt(e.timeBits), VInt(e.lineId), VInt(e.noteId), judgement], [TF32, TU32, TU32, JUDGEMENT]);
  }

  lemma JudgesTyped(judges: seq<JudgeEvent>)
    requires |judges| < U64_LIMIT
    ensures Conforms(JudgesValue(judges), JUDGES)
  {
    var items := JudgesValue(judges).items;
    forall i | 0 <= i < |judges|
      ensures Conforms(items[i], JUDGE_EVENT)
    {
      JudgeEventTyped(judges[i]);
    }
    VecTyped(items, JUDGE_EVENT);
  }

  lemma ClientArgsTyped(c: ClientCommand)
    requires ClientCommandOk(c)
    ensures ArgsTyped(ClientArgs(c), ClientFields(ClientTag(c)))
  {
    match c
    case Authenticate(_) => TextArgsTyped(c);
    case Chat(_) => TextArgsTyped(c);
    case CreateRoom(_) => TextArgsTyped(c);
    case JoinRoom(_, _) => TextArgsTyped(c);
    case Touches(frames) => FramesTyped(frames); Args1(FramesValue(frames), TOUCHES);
    case Judges(judges) => JudgesTyped(judges); Args1(JudgesValue(judges), JUDGES);
    case _ => ScalarArgsTyped(c);
  }

  lemma TextArgsTyped(c: ClientCommand)
    requires ClientCommandOk(c) && (c.Authenticate? || c.Chat? || c.CreateRoom? || c.JoinRoom?)
    ensures ArgsTyped(ClientArgs(c), ClientFields(ClientTag(c)))
  {
    match c
    case Authenticate(token) => Args1(VStr(token), TVarchar(32));
    case Chat(message) => Args1(VStr(message), TVarchar(200));
    case CreateRoom(id) => Args1(VStr(id), TRoomId);
    case JoinRoom(id, monitor) => Args2(VStr(id), VBool(monitor), TRoomId, TBool);
  }

  lemma ScalarArgsTyped(c: ClientCommand)
    requires !(c.Authenticate? || c.Chat? || c.CreateRoom? || c.JoinRoom? || c.Touches? || c.Judges?)
    ensures ArgsTyped(ClientArgs(c), ClientFields(ClientTag(c)))
  {
    match c
    case LockRoom(lock) => Args1(VBool(lock), TBool);
    case CycleRoom(cycle) => Args1(VBool(cycle), TBool);
    case SelectChart(id) => Args1(VInt(id), TI32);
    case Played(id) => Args1(VInt(id), TI32);
    case _ =>
  }

  lemma ClientCommandTyped(c: ClientCommand)
    requires ClientCommandOk(c)
    ensures Conforms(ClientCommandValue(c), CLIENT_COMMAND)
  {
    ClientArgsTyped(c);
    var vs := ClientVariants();
    assert vs[ClientTag(c)] == ClientFields(ClientTag(c));
    Derive.VariantTyped(vs, ClientTag(c), ClientArgs(c));
  }

  lemma MessageArgsTyped(m: Message)
    requires MessageOk(m)
    ensures ArgsTyped(MessageArgs(m), MessageFields(MessageTag(m)))
  {
    match m
    case Chat(_, _) => NamedArgsTyped(m);
    case JoinRoom(_, _) => NamedArgsTyped(m);
    case LeaveRoom(_, _) => NamedArgsTyped(m);
    case SelectChart(_, _, _) => NamedArgsTyped(m);
    case StartPlaying => OtherArgsTyped(m);
    case Played(_, _, _, _) => OtherArgsTyped(m);
    case GameEnd => OtherArgsTyped(m);
    case LockRoom(_) => OtherArgsTyped(m);
    case CycleRoom(_) => OtherArgsTyped(m);
    case _ => UserArgsTyped(m);
  }

  lemma NamedArgsTyped(m: Message)
    requires MessageOk(m) && (m.Chat? || m.JoinRoom? || m.LeaveRoom? || m.SelectChart?)
    ensures ArgsTyped(MessageArgs(m), MessageFields(MessageTag(m)))
  {
    match m
    case Chat(user, content) => Args2(VInt(user), VStr(content), TI32, TString);
    case JoinRoom(user, name) => Args2(VInt(user), VStr(name), TI32, TString);
    case LeaveRoom(user, name) => Args2(VInt(user), VStr(name), TI32, TString);
    case SelectChart(user, name, id) => Args3(VInt(user), VStr(name), VInt(id), TI32, TString, TI32);
  }

  lemma OtherArgsTyped(m: Message)
    requires m.StartPlaying? || m.Played? || m.GameEnd? || m.LockRoom? || m.CycleRoom?
    ensures ArgsTyped(MessageArgs(m), MessageFields(MessageTag(m)))
  {
    match m
    case StartPlaying =>
    case Played(user, score, accuracy, fullCombo) =>
      Args4(VInt(user), VInt(score), VInt(accuracy), VBool(fullCombo), TI32, TI32, TF32, TBool);
    case GameEnd =>
    case LockRoom(lock) => Args1(VBool(lock), TBool);
    case CycleRoom(cycle) => Args1(VBool(cycle), TBool);
  }

  lemma UserArgsTyped(m: Message)
    requires m.CreateRoom? || m.NewHost? || m.GameStart? || m.Ready? || m.CancelReady? || m.CancelGame? || m.Abort?
    ensures ArgsTyped(MessageArgs(m), MessageFields(MessageTag(m)))
  {
    Args1(VInt(m.user), TI32);
  }

  lemma MessageTyped(m: Message)
    requires MessageOk(m)
    ensures Conforms(MessageValue(m), MESSAGE)
  {
    MessageArgsTyped(m);
    var vs := MessageVariants();
    assert vs[MessageTag(m)] == MessageFields(MessageTag(m));
    Derive.VariantTyped(vs, MessageTag(m), MessageArgs(m));
  }

  lemma RoomStateTyped(st: RoomState)
    ensures Conforms(RoomStateValue(st), ROOM_STATE)
  {
    var variants: seq<seq<Ty>> := [[TOption(TI32)], [], []];
    match st
    case SelectChart(chart) =>
      var v := if chart.Some? then VSome(VInt(chart.value)) else VNone;
      Args1(v, TOption(TI32));
      Derive.VariantTyped(variants, 0, [v]);
    case WaitingForReady => Derive.VariantTyped(variants, 1, []);
    case Playing => Derive.VariantTyped(variants, 2, []);
  }

  lemma UserInfoTyped(u: UserInfo)
    requires UserInfoOk(u)
    ensures Conforms(UserInfoValue(u), USER_INFO)
  {
    Args3(VInt(u.id), VStr(u.name), VBool(u.monitor), TI32, TString, TBool);
    StructTyped([VInt(u.id), VStr(u.name), VBool(u.monitor)], [TI32, TString, TBool]);
  }

  lemma UserListTyped(users: seq<UserInfo>)
    requires |users| < U64_LIMIT && forall i :: 0 <= i < |users| ==> UserInfoOk(users[i])
    ensures Conforms(UserListValue(users), TVec(USER_INFO))
  {
    var items := UserListValue(users).items;
    forall i | 0 <= i < |users|
      ensures Conforms(items[i], USER_INFO)
    {
      UserInfoTyped(users[i]);
    }
    VecTyped(items, USER_INFO);
  }

  lemma UsersTyped(m: map<i32, UserInfo>)
    requires |m| < U64_LIMIT && forall k :: k in m ==> UserInfoOk(m[k])
    ensures Conforms(UsersValue(m), USERS)
  {
    var es := Entries(m);
    forall i | 0 <= i < |es|
      ensures UserInfoOk(es[i].1)
    {
      assert es[i].0 in m;
    }
    EntriesTyped(es);
    KeysDistinct(es);
    MapTyped(EntryValues(es), TI32, USER_INFO);
  }

  lemma MapTyped(es: seq<(Value, Value)>, k: Ty, t: Ty)
    requires |es| < U64_LIMIT && DistinctKeys(es)
    requires forall i :: 0 <= i < |es| ==> Conforms(es[i].0, k) && Conforms(es[i].1, t)
    ensures Conforms(VMap(es), TMap(k, t))
  {
  }

  lemma EntriesTyped(es: seq<(i32, UserInfo)>)
    requires forall i :: 0 <= i < |es| ==> UserInfoOk(es[i].1)
    ensures forall i :: 0 <= i < |es| ==> Conforms(EntryValues(es)[i].0, TI32) && Conforms(EntryValues(es)[i].1, USER_INFO)
  {
    var vs := EntryValues(es);
    forall i | 0 <= i < |es|
      ensures Conforms(vs[i].0, TI32) && Conforms(vs[i].1, USER_INFO)
    {
      UserInfoTyped(es[i].1);
    }
  }

  lemma KeysDistinct(es: seq<(i32, UserInfo)>)
    requires forall i, j :: 0 <= i < j < |es| ==> es[i].0 != es[j].0
    ensures DistinctKeys(EntryValues(es))
  {
    var vs := EntryValues(es);
    forall i, j | 0 <= i < j < |vs|
      ensures vs[i].0 != vs[j].0
    {
      assert vs[i].0 == VInt(es[i].0) && vs[j].0 == VInt(es[j].0);
    }
  }

  lemma ClientRoomStateTyped(r: ClientRoomState)
    requires ClientRoomStateOk(r)
    ensures Conforms(ClientRoomStateValue(r), CLIENT_ROOM_STATE)
  {
    var head := [VStr(r.id), RoomStateValue(r.state), VBool(r.live), VBool(r.locked)];
    var tail := [VBool(r.cycle), VBool(r.isHost), VBool(r.isReady), UsersValue(r.users)];
    var ths := [TRoomId, ROOM_STATE, TBool, TBool];
    var tts := [TBool, TBool, TBool, USERS];
    RoomHeadTyped(r);
    RoomTailTyped(r);
    ArgsAppend(head, ths, tail, tts);
    assert head + tail == ClientRoomStateValue(r).fields;
    assert ths + tts == CLIENT_ROOM_STATE.fields;
    StructTyped(head + tail, CLIENT_ROOM_STATE.fields);
  }

  lemma RoomHeadTyped(r: ClientRoomState)
    requires ClientRoomStateOk(r)
    ensures ArgsTyped([VStr(r.id), RoomStateValue(r.state), VBool(r.live), VBool(r.locked)], [TRoomId, ROOM_STATE, TBool, TBool])
  {
    RoomStateTyped(r.state);
    Args4(VStr(r.id), RoomStateValue(r.state), VBool(r.live), VBool(r.locked), TRoomId, ROOM_STATE, TBool, TBool);
  }

  lemma RoomTailTyped(r: ClientRoomState)
    requires ClientRoomStateOk(r)
    ensures ArgsTyped([VBool(r.cycle), VBool(r.isHost), VBool(r.isReady), UsersValue(r.users)], [TBool, TBool, TBool, USERS])
  {
    UsersTyped(r.users);
    Args4(VBool(r.cycle), VBool(r.isHost), VBool(r.isReady), UsersValue(r.users), TBool, TBool, TBool, USERS);
  }

  lemma ResponseTyped(r: JoinRoomResponse)
    requires ResponseOk(r)
    ensures Conforms(ResponseValue(r), JOIN_ROOM_RESPONSE)
  {
    RoomStateTyped(r.state);
    UserListTyped(r.users);
    Args3(RoomStateValue(r.state), UserListValue(r.users), VBool(r.live), ROOM_STATE, TVec(USER_INFO), TBool);
    StructTyped(ResponseValue(r).fields, JOIN_ROOM_RESPONSE.fields);
  }

  lemma AuthTyped(a: SResult<(UserInfo, Option<ClientRoomState>)>)
    requires ServerCommandOk(ServerCommand.Authenticate(a))
    ensures Conforms(AuthValue(a), AUTH_RESULT)
  {
    if a.SOk? {
      UserInfoTyped(a.value.0);
      var room := a.value.1;
      if room.Some? {
        ClientRoomStateTyped(room.value);
      }
      var rv := if room.Some? then VSome(ClientRoomStateValue(room.value)) else VNone;
      assert Conforms(rv, TOption(CLIENT_ROOM_STATE));
    }
  }

  lemma ServerArgsTyped(c: ServerCommand)
    requires ServerCommandOk(c)
    ensures ArgsTyped(ServerArgs(c), ServerFields(ServerTag(c)))
  {
    if c.Pong? || c.Authenticate? || c.Touches? || c.Judges? {
      StreamArgsTyped(c);
    } else if c.Message? || c.ChangeState? || c.ChangeHost? {
      NoticeArgsTyped(c);
    } else if c.JoinRoom? || c.OnJoinRoom? {
      JoinArgsTyped(c);
    } else {
      ReplyArgsTyped(c);
    }
  }

  lemma StreamArgsTyped(c: ServerCommand)
    requires ServerCommandOk(c) && (c.Pong? || c.Authenticate? || c.Touches? || c.Judges?)
    ensures ArgsTyped(ServerArgs(c), ServerFields(ServerTag(c)))
  {
    match c
    case Pong =>
    case Authenticate(a) => AuthTyped(a); Args1(AuthValue(a), AUTH_RESULT);
    case Touches(player, frames) => FramesTyped(frames); Args2(VInt(player), FramesValue(frames), TI32, TOUCHES);
    case Judges(player, judges) => JudgesTyped(judges); Args2(VInt(player), JudgesValue(judges), TI32, JUDGES);
  }

  lemma NoticeArgsTyped(c: ServerCommand)
    requires ServerCommandOk(c) && (c.Message? || c.ChangeState? || c.ChangeHost?)
    ensures ArgsTyped(ServerArgs(c), ServerFields(ServerTag(c)))
  {
    match c
    case Message(m) => MessageTyped(m); Args1(MessageValue(m), MESSAGE);
    case ChangeState(st) => RoomStateTyped(st); Args1(RoomStateValue(st), ROOM_STATE);
    case ChangeHost(b) => Args1(VBool(b), TBool);
  }

  lemma JoinArgsTyped(c: ServerCommand)
    requires ServerCommandOk(c) && (c.JoinRoom? || c.OnJoinRoom?)
    ensures ArgsTyped(ServerArgs(c), ServerFields(ServerTag(c)))
  {
    match c
    case JoinRoom(r) => JoinReplyTyped(r); Args1(ServerArgs(c)[0], SResultTy(JOIN_ROOM_RESPONSE));
    case OnJoinRoom(u) => UserInfoTyped(u); Args1(UserInfoValue(u), USER_INFO);
  }

  lemma JoinReplyTyped(r: SResult<JoinRoomResponse>)
    requires ServerCommandOk(ServerCommand.JoinRoom(r))
    ensures Conforms(ServerArgs(ServerCommand.JoinRoom(r))[0], SResultTy(JOIN_ROOM_RESPONSE))
  {
    if r.SOk? {
      ResponseTyped(r.value);
    }
  }

  lemma ReplyArgsTyped(c: ServerCommand)
    requires ServerCommandOk(c)
    requires !(c.Pong? || c.Authenticate? || c.Touches? || c.Judges? || c.Message? || c.ChangeState? || c.ChangeHost? || c.JoinRoom? || c.OnJoinRoom?)
    ensures ArgsTyped(ServerArgs(c), ServerFields(ServerTag(c)))
  {
    ReplyShape(c);
    assert Conforms(ReplyValue(c.result, VUnit), SResultTy(TUnit));
    Args1(ReplyValue(c.result, VUnit), SResultTy(TUnit));
  }

  /** A plain reply carries one `SResult<()>` field. */
  lemma ReplyShape(c: ServerCommand)
    requires !(c.Pong? || c.Authenticate? || c.Touches? || c.Judges? || c.Message? || c.ChangeState? || c.ChangeHost? || c.JoinRoom? || c.OnJoinRoom?)
    ensures c.Chat? || c.CreateRoom? || c.LeaveRoom? || c.LockRoom? || c.CycleRoom? || c.SelectChart?
      || c.RequestStart? || c.Ready? || c.CancelReady? || c.Played? || c.Abort?
    ensures ServerCommandOk(c) == ReplyOk(c.result)
    ensures ServerArgs(c) == [ReplyValue(c.result, VUnit)]
    ensures ServerFields(ServerTag(c)) == [SResultTy(TUnit)]
  {
  }

  lemma ServerCommandTyped(c: ServerCommand)
    requires ServerCommandOk(c)
    ensures Conforms(ServerCommandValue(c), SERVER_COMMAND)
  {
    ServerArgsTyped(c);
    var vs := ServerVariants();
    assert vs[ServerTag(c)] == ServerFields(ServerTag(c));
    Derive.VariantTyped(vs, ServerTag(c), ServerArgs(c));
  }

  // ---------------------------------------------------------------------
  // Round trips and distinct encodings

  /** Every well-formed client command is read back as written, whatever
      follows it. */
  lemma ClientCommandRoundTrip(c: ClientCommand, rest: seq<byte>)
    requires ClientCommandOk(c)
    ensures Conforms(ClientCommandValue(c), CLIENT_COMMAND)
    ensures Decode(CLIENT_COMMAND, Encode(CLIENT_COMMAND, ClientCommandValue(c)) + rest) == Ok((ClientCommandValue(c), rest))
  {
    ClientCommandTyped(c);
    RoundTrip.Decodes(CLIENT_COMMAND, ClientCommandValue(c), rest);
  }

  lemma MessageRoundTrip(m: Message, rest: seq<byte>)
    requires MessageOk(m)
    ensures Conforms(MessageValue(m), MESSAGE)
    ensures Decode(MESSAGE, Encode(MESSAGE, MessageValue(m)) + rest) == Ok((MessageValue(m), rest))
  {
    MessageTyped(m);
    RoundTrip.Decodes(MESSAGE, MessageValue(m), rest);
  }

  lemma PointsInjective(a: seq<(i8, CompactPos)>, b: seq<(i8, CompactPos)>)
    ensures PointsValue(a) == PointsValue(b) ==> a == b
  {
    if PointsValue(a) == PointsValue(b) {
      assert |a| == |PointsValue(a).items|;
      forall i | 0 <= i < |a|
        ensures a[i] == b[i]
      {
        assert PointsValue(a).items[i] == PointValue(a[i]);
        assert PointsValue(b).items[i] == PointValue(b[i]);
      }
    }
  }

  lemma FramesInjective(a: seq<TouchFrame>, b: seq<TouchFrame>)
    ensures FramesValue(a) == FramesValue(b) ==> a == b
  {
    if FramesValue(a) == FramesValue(b) {
      assert |a| == |FramesValue(a).items|;
      forall i | 0 <= i < |a|
        ensures a[i] == b[i]
      {
        assert FramesValue(a).items[i] == TouchFrameValue(a[i]);
        assert FramesValue(b).items[i] == TouchFrameValue(b[i]);
        PointsInjective(a[i].points, b[i].points);
      }
    }
  }

  lemma JudgementTagInjective(a: Judgement, b: Judgement)
    ensures JudgementTag(a) == JudgementTag(b) ==> a == b
  {
  }

  lemma JudgesInjective(a: seq<JudgeEvent>, b: seq<JudgeEvent>)
    ensures JudgesValue(a) == JudgesValue(b) ==> a == b
  {
    if JudgesValue(a) == JudgesValue(b) {
      assert |a| == |JudgesValue(a).items|;
      forall i | 0 <= i < |a|
        ensures a[i] == b[i]
      {
        assert JudgesValue(a).items[i] == JudgeEventValue(a[i]);
        assert JudgesValue(b).items[i] == JudgeEventValue(b[i]);
        JudgementTagInjective(a[i].judgement, b[i].judgement);
      }
    }
  }

  /** Different client commands are different values. */
  lemma ClientCommandInjective(a: ClientCommand, b: ClientCommand)
    ensures ClientCommandValue(a) == ClientCommandValue(b) ==> a == b
  {
    if ClientCommandValue(a) == ClientCommandValue(b) {
      assert ClientTag(a) == ClientTag(b);
      match a
      case Touches(fa) => FramesInjective(fa, b.frames);
      case Judges(ja) => JudgesInjective(ja, b.judges);
      case _ =>
    }
  }

  lemma MessageInjective(a: Message, b: Message)
    ensures MessageValue(a) == MessageValue(b) ==> a == b
  {
  }

  lemma ServerCommandRoundTrip(c: ServerCommand, rest: seq<byte>)
    requires ServerCommandOk(c)
    ensures Conforms(ServerCommandValue(c), SERVER_COMMAND)
    ensures Decode(SERVER_COMMAND, Encode(SERVER_COMMAND, ServerCommandValue(c)) + rest) == Ok((ServerCommandValue(c), rest))
  {
    ServerCommandTyped(c);
    RoundTrip.Decodes(SERVER_COMMAND, ServerCommandValue(c), rest);
  }

  lemma UserInfoInjective(a: UserInfo, b: UserInfo)
    ensures UserInfoValue(a) == UserInfoValue(b) ==> a == b
  {
  }

  lemma UserListInjective(a: seq<UserInfo>, b: seq<UserInfo>)
    ensures UserListValue(a) == UserListValue(b) ==> a == b
  {
    if UserListValue(a) == UserListValue(b) {
      assert |a| == |UserListValue(a).items|;
      forall i | 0 <= i < |a|
        ensures a[i] == b[i]
      {
        assert UserListValue(a).items[i] == UserInfoValue(a[i]);
        assert UserListValue(b).items[i] == UserInfoValue(b[i]);
      }
    }
  }

  lemma EntryValuesInjective(a: seq<(i32, UserInfo)>, b: seq<(i32, UserInfo)>)
    ensures EntryValues(a) == EntryValues(b) ==> a == b
  {
    if EntryValues(a) == EntryValues(b) {
      assert |a| == |EntryValues(a)|;
      forall i | 0 <= i < |a|
        ensures a[i] == b[i]
      {
        assert EntryValues(a)[i] == (VInt(a[i].0), UserInfoValue(a[i].1));
        assert EntryValues(b)[i] == (VInt(b[i].0), UserInfoValue(b[i].1));
      }
    }
  }

  /** Two maps listed the same way are the same map. */
  lemma ListedMapsEqual(es: seq<(i32, UserInfo)>, m1: map<i32, UserInfo>, m2: map<i32, UserInfo>)
    requires ListsMap(es, m1) && ListsMap(es, m2)
    ensures m1 == m2
  {
    forall k | k in m1
      ensures k in m2 && m2[k] == m1[k]
    {
      var i :| 0 <= i < |es| && es[i] == (k, m1[k]);
    }
    forall k | k in m2
      ensures k in m1
    {
      var i :| 0 <= i < |es| && es[i] == (k, m2[k]);
    }
  }

  lemma UsersInjective(a: map<i32, UserInfo>, b: map<i32, UserInfo>)
    ensures UsersValue(a) == UsersValue(b) ==> a == b
  {
    if UsersValue(a) == UsersValue(b) {
      EntryValuesInjective(Entries(a), Entries(b));
      ListedMapsEqual(Entries(a), a, b);
    }
  }

  lemma RoomStateInjective(a: RoomState, b: RoomState)
    ensures RoomStateValue(a) == RoomStateValue(b) ==> a == b
  {
  }

  lemma ClientRoomStateInjective(a: ClientRoomState, b: ClientRoomState)
    ensures ClientRoomStateValue(a) == ClientRoomStateValue(b) ==> a == b
  {
    if ClientRoomStateValue(a) == ClientRoomStateValue(b) {
      var fa, fb := ClientRoomStateValue(a).fields, ClientRoomStateValue(b).fields;
      assert fa[1] == fb[1] && fa[7] == fb[7];
      RoomStateInjective(a.state, b.state);
      UsersInjective(a.users, b.users);
    }
  }

  lemma ResponseInjective(a: JoinRoomResponse, b: JoinRoomResponse)
    ensures ResponseValue(a) == ResponseValue(b) ==> a == b
  {
    if ResponseValue(a) == ResponseValue(b) {
      RoomStateInjective(a.state, b.state);
      UserListInjective(a.users, b.users);
    }
  }

  lemma AuthInjective(a: SResult<(UserInfo, Option<ClientRoomState>)>, b: SResult<(UserInfo, Option<ClientRoomState>)>)
    ensures AuthValue(a) == AuthValue(b) ==> a == b
  {
    if AuthValue(a) == AuthValue(b) && a.SOk? {
      UserInfoInjective(a.value.0, b.value.0);
      if a.value.1.Some? && b.value.1.Some? {
        ClientRoomStateInjective(a.value.1.value, b.value.1.value);
      }
    }
  }

  /** Different server commands are different values. */
  lemma ServerCommandInjective(a: ServerCommand, b: ServerCommand)
    ensures ServerCommandValue(a) == ServerCommandValue(b) ==> a == b
  {
    if ServerCommandValue(a) == ServerCommandValue(b) {
      assert ServerTag(a) == ServerTag(b);
      assert ServerArgs(a) == ServerArgs(b);
      match a
      case Authenticate(x) => AuthInjective(x, b.auth);
      case Touches(_, fa) => FramesInjective(fa, b.frames);
      case Judges(_, ja) => JudgesInjective(ja, b.judges);
      case Message(m) => MessageInjective(m, b.message);
      case ChangeState(st) => RoomStateInjective(st, b.state);
      case JoinRoom(r) =>
        if r.SOk? && b.response.SOk? {
          ResponseInjective(r.value, b.response.value);
        }
      case OnJoinRoom(u) => UserInfoInjective(u, b.user);
      case Pong =>
      case ChangeHost(_) =>
      case _ => ReplyInjective(a.result, b.result);
    }
  }

  lemma ReplyInjective(a: SResult<()>, b: SResult<()>)
    ensures ReplyValue(a, VUnit) == ReplyValue(b, VUnit) ==> a == b
  {
    if a.SOk? && b.SOk? {
      assert a.value == () == b.value;
    }
  }

  /** So no two well-formed client commands share an encoding. */
  lemma ClientEncodingsDistinct(a: ClientCommand, b: ClientCommand)
    requires ClientCommandOk(a) && ClientCommandOk(b)
    ensures Conforms(ClientCommandValue(a), CLIENT_COMMAND) && Conforms(ClientCommandValue(b), CLIENT_COMMAND)
    ensures Encode(CLIENT_COMMAND, ClientCommandValue(a)) == Encode(CLIENT_COMMAND, ClientCommandValue(b)) ==> a == b
  {
    ClientCommandRoundTrip(a, []);
    ClientCommandRoundTrip(b, []);
    ClientCommandInjective(a, b);
    var ea := Encode(CLIENT_COMMAND, ClientCommandValue(a));
    assert ea + [] == ea;
    assert Encode(CLIENT_COMMAND, ClientCommandValue(b)) + [] == Encode(CLIENT_COMMAND, ClientCommandValue(b));
  }

  lemma MessageEncodingsDistinct(a: Message, b: Message)
    requires MessageOk(a) && MessageOk(b)
    ensures Conforms(MessageValue(a), MESSAGE) && Conforms(MessageValue(b), MESSAGE)
    ensures Encode(MESSAGE, MessageValue(a)) == Encode(MESSAGE, MessageValue(b)) ==> a == b
  {
    MessageRoundTrip(a, []);
    MessageRoundTrip(b, []);
    MessageInjective(a, b);
    var ea := Encode(MESSAGE, MessageValue(a));
    assert ea + [] == ea;
    assert Encode(MESSAGE, MessageValue(b)) + [] == Encode(MESSAGE, MessageValue(b));
  }

  lemma ServerEncodingsDistinct(a: ServerCommand, b: ServerCommand)
    requires ServerCommandOk(a) && ServerCommandOk(b)
    ensures Conforms(ServerCommandValue(a), SERVER_COMMAND) && Conforms(ServerCommandValue(b), SERVER_COMMAND)
    ensures Encode(SERVER_COMMAND, ServerCommandValue(a)) == Encode(SERVER_COMMAND, ServerCommandValue(b)) ==> a == b
  {
    ServerCommandRoundTrip(a, []);
    ServerCommandRoundTrip(b, []);
    ServerCommandInjective(a, b);
    var ea := Encode(SERVER_COMMAND, ServerCommandValue(a));
    assert ea + [] == ea;
    assert Encode(SERVER_COMMAND, ServerCommandValue(b)) + [] == Encode(SERVER_COMMAND, ServerCommandValue(b));
  }

  // ---------------------------------------------------------------------
  // Bounded text on the wire

  /** The Varchar field of variant `tag` is refused as soon as its length
      prefix exceeds the bound, before any of its bytes are read. */
  lemma VarcharTooLong(tag: byte, bound: nat, n: nat, t: seq<byte>)
    requires (tag == 1 && bound == 32) || (tag == 2 && bound == 200)
    requires bound < n < U64_LIMIT
    ensures Decode(CLIENT_COMMAND, [tag] + UlebEncode(n) + t) == Err(StringTooLong)
  {
    var s := [tag] + UlebEncode(n) + t;
    assert s[1..] == UlebEncode(n) + t;
    RoundTrip.UlebRoundTrip(n, t);
    var fs := ClientFields(tag);
    assert fs == [TVarchar(bound)];
    assert CLIENT_COMMAND.variants[tag] == TStruct(fs);
    assert Decode(TVarchar(bound), s[1..]) == Err(StringTooLong);
    assert DecodeFields(TStruct(fs), 0, s[1..]) == Err(StringTooLong);
  }

  /** An authentication token longer than 32 bytes is refused. */
  lemma TokenTooLong(n: nat, t: seq<byte>)
    requires 32 < n < U64_LIMIT
    ensures Decode(CLIENT_COMMAND, [1] + UlebEncode(n) + t) == Err(StringTooLong)
  {
    VarcharTooLong(1, 32, n, t);
  }

  /** A chat line longer than 200 bytes is refused. */
  lemma ChatTooLong(n: nat, t: seq<byte>)
    requires 200 < n < U64_LIMIT
    ensures Decode(CLIENT_COMMAND, [2] + UlebEncode(n) + t) == Err(StringTooLong)
  {
    VarcharTooLong(2, 200, n, t);
  }
}
