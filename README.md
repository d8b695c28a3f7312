# phira-mp in Dafny

A model of the core of phira-mp, the multiplayer server and client library of
the rhythm game Phira, with proofs about it. The model covers:

- **Wire format** (`Wire`, `Utf8`, `Varchar`, `Codec`, `Bin`, `RoundTrip`).
  This is the `BinaryData` encoding of `phira-mp-common`.
  - Little-endian fixed-width integers and ULEB128 lengths, with the 64-bit shift of the reader kept as it wraps.
  - Strings, decoded with the lossy UTF-8 decoder.
  - Pairs, `Option`, `Result`, `Vec`, `HashMap` (later keys replace earlier ones), `Uuid`, the bounded `Varchar<N>`, `RoomId` and `CompactPos`.
  - The reader is a class with a cursor and the writer a class with a buffer. Each method is proved against a pure decoder or encoder. Every type round-trips.
- **Derive macro** (`Derive`). This is `#[derive(BinaryData)]`.
  - A struct is its fields in order.
  - An enum is a one-byte variant index followed by the variant's fields. The index is `i as u8`, so it wraps above 256 variants.
- **Commands** (`Command`). The protocol types `ClientCommand`, `Message` and `ServerCommand` and their codecs. The proofs show:
  - every command round-trips;
  - different commands have different encodings;
  - the `Varchar` bounds reject a token over 32 bytes and a chat message over 200 bytes.
- **Framing** (`Frame`). The packet stream.
  - A ULEB128 length prefix of at most five bytes, over a `u32` that wraps.
  - The 2 MiB packet limit and the "invalid length" stop.
  - A receive loop that ends quietly on an undecodable packet.
- **Rooms** (`Rooms`). The server's `Room`: members and monitors, host, state machine and outgoing broadcasts, and `check_all_ready`.
- **Server** (`Server`). The command handling of `process` and `User::dangle` over the shared users and rooms maps. This covers every command's checks, replies and effects.
- **Session** (`Sessions`). The packet handler of a server session. It answers pings, authenticates the first packet and passes the rest to `process`.
- **Client** (`Clients`). The client library's local mirror of the room, which it updates from server commands:
  - callback resolution, live players and message log;
  - post-call updates of `authenticate`, `create_room`, `join_room`, `leave_room` and the ready calls;
  - user name lookup.

Parts the model cannot contain are parameters, and `None` stands for a failed HTTP request. They are:

- HTTP requests to the game's API: the account for a token, a chart, a record;
- the random choice of a new host;
- the set of users allowed to monitor.

## Model

| member | source | states |
|---|---|---|
| Varchar.TryFrom | phira-mp-common/src/command.rs:54-63 | succeeds exactly when the text is at most N bytes, keeps it unchanged, otherwise fails with "string too long" |
| Varchar.Validate | phira-mp-common/src/command.rs:80-93 | succeeds exactly for non-empty ids made of `-`, `_` and ASCII letters and digits, keeps the id, otherwise fails with "invalid room id" |
| Varchar.RoomIdTryFrom | phira-mp-common/src/command.rs:101-107 | succeeds exactly for valid ids of at most 20 bytes; the length error takes precedence over the character check |
| Wire.LeRoundTrip | phira-mp-common/src/bin.rs:108-183 | reading back the n little-endian bytes of a value below 2^(8n) gives the value |
| Utf8.LossyOfValid | phira-mp-common/src/bin.rs:206-217 | the lossy UTF-8 decoding of valid UTF-8 is the input itself |
| Utf8.AsciiLossyIsIdentity | phira-mp-common/src/command.rs:115-123 | when lossy decoding yields only ASCII, the input already was that text (so a decoded RoomId is exactly its bytes) |
| Codec.UlebEncode | phira-mp-common/src/bin.rs:83-95 | the ULEB128 encoding of a value is at least one byte |
| Codec.TakeSplits | phira-mp-common/src/bin.rs:33-38 | taking n bytes fails with end of input exactly when fewer than n remain, and otherwise yields n bytes that, followed by the rest, make up the input |
| Codec.DecodeText | phira-mp-common/src/bin.rs:206-217 | reading a string body succeeds exactly when its length is available and consumes exactly that many bytes |
| Codec.Decode | phira-mp-common/src/bin.rs:40-42 | decoding any type leaves a suffix of its input |
| Codec.KeyIndex | phira-mp-common/src/bin.rs:288-301 | finds the first entry with the key, or reports that none has it |
| Codec.CollectSnoc | phira-mp-common/src/bin.rs:288-301 | collecting map entries one more entry at a time is inserting that entry into what was collected |
| Bin.BinaryReader.constructor | phira-mp-common/src/bin.rs:17-19 | a new reader is at position 0 of its data |
| Bin.BinaryReader.Byte | phira-mp-common/src/bin.rs:25-31 | returns the byte at the cursor and advances by one, or fails at end of data leaving the cursor |
| Bin.BinaryReader.Take | phira-mp-common/src/bin.rs:33-38 | returns the next n bytes and advances by n, or fails with end of data leaving the cursor |
| Bin.BinaryReader.Uleb | phira-mp-common/src/bin.rs:44-55 | result and new cursor follow the ULEB128 decoder, with the release-mode shift wrap |
| Bin.BinaryReader.Read | phira-mp-common/src/bin.rs:40-42 | result and new cursor follow the type-directed decoder for any type |
| Bin.BinaryReader.ReadInt | phira-mp-common/src/bin.rs:108-204 | reads a fixed-width little-endian integer (and f32 bits) as the decoder does |
| Bin.BinaryReader.ReadBool | phira-mp-common/src/bin.rs:185-193 | reads a bool as the decoder does |
| Bin.BinaryReader.ReadText | phira-mp-common/src/bin.rs:206-217 | takes a length-prefixed body and decodes it lossily, as the decoder does |
| Bin.BinaryReader.ReadString | phira-mp-common/src/bin.rs:206-217 | reads a length-prefixed string as the decoder does |
| Bin.BinaryReader.ReadVarchar | phira-mp-common/src/command.rs:64-71 | reads a length, refuses one over N, then reads the body, as the decoder does |
| Bin.BinaryReader.ReadRoomId | phira-mp-common/src/command.rs:115-118 | reads a Varchar<20> and validates it, as the decoder does |
| Bin.BinaryReader.ReadPair | phira-mp-common/src/bin.rs:219-229 | reads both halves in order as the decoder does |
| Bin.BinaryReader.ReadOption | phira-mp-common/src/bin.rs:231-252 | reads the presence flag and then the value, as the decoder does |
| Bin.BinaryReader.ReadResult | phira-mp-common/src/bin.rs:254-276 | reads the Ok/Err flag and then that side, as the decoder does |
| Bin.BinaryReader.Array | phira-mp-common/src/bin.rs:21-23 | reads a count and that many elements, stopping at the first failure, as the decoder does |
| Bin.BinaryReader.ReadMap | phira-mp-common/src/bin.rs:288-301 | reads a count and that many key/value pairs, inserting each into the map, as the decoder does |
| Bin.BinaryReader.ReadEntries | phira-mp-common/src/bin.rs:288-292 | the entry loop's result and cursor follow the collected entry decoder |
| Bin.BinaryReader.ReadNextEntry | phira-mp-common/src/bin.rs:288-292 | one iteration of the entry loop advances the decoder's run by one entry or stops it with that entry's error |
| Bin.BinaryReader.ReadEntry | phira-mp-common/src/bin.rs:288-292 | reads one key and then one value as the decoder does |
| Bin.BinaryReader.ReadUuid | phira-mp-common/src/bin.rs:303-316 | reads the two u64 halves as the decoder does |
| Bin.BinaryReader.ReadPos | phira-mp-common/src/command.rs:15-28 | reads the two f16 bit patterns as the decoder does |
| Bin.BinaryReader.ReadStruct | phira-mp-macros/src/lib.rs:193-210 | reads the fields in declaration order as the decoder does |
| Bin.BinaryReader.ReadEnum | phira-mp-macros/src/lib.rs:176-181 | reads the variant byte and that variant's fields as the decoder does, refusing an unknown byte |
| Bin.BinaryWriter.constructor | phira-mp-common/src/bin.rs:61-63 | a writer appends to the given buffer |
| Bin.BinaryWriter.Uleb | phira-mp-common/src/bin.rs:83-95 | appends exactly the ULEB128 encoding of the value |
| Bin.BinaryWriter.Write | phira-mp-common/src/bin.rs:74-76 | appends exactly the encoding of a well-typed value |
| Bin.BinaryWriter.WriteText | phira-mp-common/src/bin.rs:212-216 | appends the length and then the bytes |
| Bin.BinaryWriter.WritePair | phira-mp-common/src/bin.rs:224-228 | appends the encoding of the pair |
| Bin.BinaryWriter.WriteOption | phira-mp-common/src/bin.rs:240-251 | appends the encoding of the option |
| Bin.BinaryWriter.WriteResult | phira-mp-common/src/bin.rs:263-275 | appends the encoding of the result |
| Bin.BinaryWriter.WriteEnum | phira-mp-macros/src/lib.rs:183-188 | appends the variant byte and the variant's fields |
| Bin.BinaryWriter.Array | phira-mp-common/src/bin.rs:65-71 | appends the count and then every element in order |
| Bin.BinaryWriter.WriteMap | phira-mp-common/src/bin.rs:293-300 | appends the count and then every key and value in iteration order |
| Bin.BinaryWriter.WriteStruct | phira-mp-macros/src/lib.rs:212-243 | appends every field in declaration order |
| RoundTrip.UlebRoundTrip | phira-mp-common/src/bin.rs:44-55 | decoding the ULEB128 encoding of any u64 gives it back and leaves what follows |
| RoundTrip.UlebLayout | phira-mp-common/src/bin.rs:83-95 | every byte but the last carries the continuation bit, and the byte count is the minimal one for the value |
| RoundTrip.UlebLength | phira-mp-common/src/bin.rs:83-95 | a u64 takes one to ten bytes |
| RoundTrip.CollectDistinct | phira-mp-common/src/bin.rs:288-292 | entries with distinct keys are collected unchanged |
| RoundTrip.CollectRepeat | phira-mp-common/src/bin.rs:288-292 | a repeated key keeps the later value |
| RoundTrip.IntRoundTrip | phira-mp-common/src/bin.rs:108-183 | every in-range value of every integer type survives writing and reading its bytes |
| RoundTrip.TextRoundTrip | phira-mp-common/src/bin.rs:206-217 | a valid UTF-8 body reads back unchanged |
| RoundTrip.Decodes | phira-mp-common/src/bin.rs:10-11 | decoding the encoding of any well-typed value gives the value and leaves what follows |
| RoundTrip.StringDecodes | phira-mp-common/src/bin.rs:206-217 | a valid UTF-8 string round-trips |
| RoundTrip.VarcharDecodes | phira-mp-common/src/command.rs:64-76 | a valid string within the bound round-trips through Varchar<N> |
| RoundTrip.RoomIdDecodes | phira-mp-common/src/command.rs:115-123 | a valid room id round-trips |
| RoundTrip.PairDecodes | phira-mp-common/src/bin.rs:219-229 | pairs round-trip |
| RoundTrip.OptionDecodes | phira-mp-common/src/bin.rs:231-252 | options round-trip |
| RoundTrip.ResultDecodes | phira-mp-common/src/bin.rs:254-276 | results round-trip |
| RoundTrip.VecDecodes | phira-mp-common/src/bin.rs:278-286 | vectors round-trip |
| RoundTrip.MapDecodes | phira-mp-common/src/bin.rs:288-301 | maps with distinct keys round-trip in their iteration order |
| RoundTrip.UuidDecodes | phira-mp-common/src/bin.rs:303-316 | uuids round-trip |
| RoundTrip.PosDecodes | phira-mp-common/src/command.rs:15-28 | compact positions round-trip |
| RoundTrip.EnumDecodes | phira-mp-macros/src/lib.rs:98-191 | enum values round-trip |
| RoundTrip.IntDecodes | phira-mp-common/src/bin.rs:108-204 | integers round-trip |
| RoundTrip.DecodeOfEncode | phira-mp-common/src/lib.rs:21-30 | a packet holding only an encoding decodes to the value with nothing left |
| Frame.DecodePacket | phira-mp-common/src/lib.rs:25-30 | a packet decodes exactly when its value decodes from the start of the data |
| Frame.EncodePacket | phira-mp-common/src/lib.rs:21-23 | appends the value's encoding to the buffer |
| Frame.ReadPacket | phira-mp-common/src/lib.rs:25-30 | a fresh reader over the data gives the packet decoder's result |
| Frame.PacketRoundTrip | phira-mp-common/src/lib.rs:21-30 | a packet built from any well-typed value decodes to it |
| Frame.EncodeLength | phira-mp-common/src/lib.rs:76-87 | the length loop writes one to five bytes, and they are the ULEB128 encoding of the length cast to u32 |
| Frame.Send | phira-mp-common/src/lib.rs:71-91 | the bytes written for a payload are its u32 length prefix followed by its encoding |
| Frame.PrefixSize | phira-mp-common/src/lib.rs:76-87 | a u32 length takes one to five prefix bytes |
| Frame.LengthLoop | phira-mp-common/src/lib.rs:108-120 | a successful length read consumes at least one byte and leaves a suffix |
| Frame.ReadLength | phira-mp-common/src/lib.rs:108-120 | reading a prefix from the socket follows the length decoder |
| Frame.ReceiveLoop | phira-mp-common/src/lib.rs:103-139 | the packets handled and how the loop ends follow the stream decoder |
| Frame.AfterAfter | phira-mp-common/src/lib.rs:106-139 | handling packets in two stretches is handling them in one |
| Frame.ReceiveNext | phira-mp-common/src/lib.rs:106-139 | after one accepted packet the run continues on the bytes that follow it |
| Frame.LengthRoundTrip | phira-mp-common/src/lib.rs:76-120 | the receiver reads back every u32 length the sender writes |
| Frame.InvalidLengthIff | phira-mp-common/src/lib.rs:108-120 | the reader stops with "invalid length" exactly when the first five bytes all carry the continuation bit |
| Frame.FifthByteWraps | phira-mp-common/src/lib.rs:108-116 | bits of the fifth byte shifted past 32 are lost, so `80 80 80 80 10` reads as length 0 |
| Frame.FrameDecodes | phira-mp-common/src/lib.rs:76-139 | one framed packet within the limit is handled and the loop goes on with the rest |
| Frame.ReceiveFramed | phira-mp-common/src/lib.rs:76-139 | the receiver hands every packet of a sent stream to the handler in order, then stops at end of input |
| Frame.OversizeRejected | phira-mp-common/src/lib.rs:121-123 | a length over 2 MiB stops the loop with "data packet too large" before anything is handled |
| Frame.UndecodableStops | phira-mp-common/src/lib.rs:130-136 | an undecodable packet ends the loop quietly, handling nothing |
| Derive.ParseType | phira-mp-macros/src/lib.rs:23-65 | a field type is marked Arc exactly when it is one, and Vec exactly when what is under the Arc is |
| Derive.FieldReadIsDecode | phira-mp-macros/src/lib.rs:198-210 | the generated read of one field (array for Vec, read otherwise) agrees with the decoder |
| Derive.FieldWriteIsEncode | phira-mp-macros/src/lib.rs:237-243 | the generated write of one field agrees with the encoder |
| Derive.StructReadFrom | phira-mp-macros/src/lib.rs:193-196 | reading the remaining fields of a derived struct is the struct decoder from that field on |
| Derive.StructWriteFrom | phira-mp-macros/src/lib.rs:212-235 | writing the remaining fields is the struct encoder from that field on |
| Derive.StructRoundTrip | phira-mp-macros/src/lib.rs:77-96 | a derived struct writes as its fields in order and reads back unchanged |
| Derive.ArmFrom | phira-mp-macros/src/lib.rs:99-131 | an arm found for a tag is a variant whose index casts to that tag |
| Derive.ArmIsTag | phira-mp-macros/src/lib.rs:99-131 | with at most 256 variants the byte t selects variant t, and a byte past the last variant matches no arm |
| Derive.EnumTy | phira-mp-macros/src/lib.rs:98-191 | a derived enum's schema has one struct of fields per variant |
| Derive.EnumReadIsDecode | phira-mp-macros/src/lib.rs:176-181 | the generated read of an enum agrees with the decoder |
| Derive.EnumWriteIsEncode | phira-mp-macros/src/lib.rs:183-188 | the generated write of an enum agrees with the encoder |
| Derive.EnumRoundTrip | phira-mp-macros/src/lib.rs:98-191 | every variant of a derived enum round-trips |
| Derive.InvalidTag | phira-mp-macros/src/lib.rs:129-131 | a variant byte past the last variant fails with "invalid enum", and empty input with end of data |
| Derive.TagWraps | phira-mp-macros/src/lib.rs:103 | variant 256 is written with tag 0 and reads back as variant 0 |
| Command.ClientCommandRoundTrip | phira-mp-common/src/command.rs:156-178 | every client command within its bounds encodes and decodes back to itself |
| Command.MessageRoundTrip | phira-mp-common/src/command.rs:180-234 | every room message round-trips |
| Command.ServerCommandRoundTrip | phira-mp-common/src/command.rs:275-308 | every server command round-trips |
| Command.ClientEncodingsDistinct | phira-mp-common/src/command.rs:156-178 | two client commands with the same encoding are equal |
| Command.MessageEncodingsDistinct | phira-mp-common/src/command.rs:180-234 | two messages with the same encoding are equal |
| Command.ServerEncodingsDistinct | phira-mp-common/src/command.rs:275-308 | two server commands with the same encoding are equal |
| Command.VarcharTooLong | phira-mp-common/src/command.rs:64-70 | a token or chat length over its bound fails with "string too long" whatever follows |
| Command.TokenTooLong | phira-mp-common/src/command.rs:159 | an Authenticate token over 32 bytes is refused on decode |
| Command.ChatTooLong | phira-mp-common/src/command.rs:161 | a chat message over 200 bytes is refused on decode |
| Command.Entries | phira-mp-common/src/command.rs:256-266 | a users map is listed as its entries, one per key, with no key twice |
| Command.ClientCommandTyped | phira-mp-common/src/command.rs:156-178 | every client command within its bounds is a well-typed value of the ClientCommand schema |
| Command.MessageTyped | phira-mp-common/src/command.rs:180-234 | every message is a well-typed Message value |
| Command.ServerCommandTyped | phira-mp-common/src/command.rs:275-308 | every server command is a well-typed ServerCommand value |
| Command.ClientCommandInjective | phira-mp-common/src/command.rs:156-178 | distinct client commands are distinct values |
| Command.MessageInjective | phira-mp-common/src/command.rs:180-234 | distinct messages are distinct values |
| Command.ServerCommandInjective | phira-mp-common/src/command.rs:275-308 | distinct server commands are distinct values |
| Command.UsersInjective | phira-mp-common/src/command.rs:256-266 | distinct users maps are distinct values |
| Rooms.ToClient | phira-mp-server/src/room.rs:31-38 | each internal state maps to the client state of the same kind, with the chart id while selecting |
| Rooms.Retain | phira-mp-server/src/room.rs:92-110 | dropping dead users never lengthens the list |
| Rooms.RetainMembers | phira-mp-server/src/room.rs:92-110 | a user stays after the dead are dropped exactly when listed and alive |
| Rooms.RetainAll | phira-mp-server/src/room.rs:103-110 | when all are alive nothing is dropped |
| Rooms.RetainDistinct | phira-mp-server/src/room.rs:92-110 | dropping dead users keeps the list free of repeats |
| Rooms.ReadyStepStarts | phira-mp-server/src/room.rs:176-192 | waiting for ready moves to playing, with no results and no aborts, exactly when every live user has started; otherwise nothing changes |
| Rooms.ReadyStepEnds | phira-mp-server/src/room.rs:193-210 | playing returns to chart selection exactly when every live user has a result or aborted; otherwise, and when selecting, nothing changes |
| Rooms.ReadyStepSettles | phira-mp-server/src/room.rs:173-210 | a second check changes nothing, except a game that ends at once after starting |
| Rooms.ReadyStepKeepsApart | phira-mp-server/src/room.rs:173-210 | no user ever has both a result and an abort |
| Rooms.Room.constructor | phira-mp-server/src/room.rs:53-64 | a new room holds only its host, selects a chart with none chosen, is not live, locked or cycling, and has sent nothing |
| Rooms.Room.Send | phira-mp-server/src/room.rs:120-122 | one message goes to the live users |
| Rooms.Room.BroadcastAll | phira-mp-server/src/room.rs:124-128 | one command goes to the live users |
| Rooms.Room.BroadcastMonitors | phira-mp-server/src/session.rs:390-424 | touches and judges go to the live monitors only |
| Rooms.Room.OnStateChange | phira-mp-server/src/room.rs:87-90 | the client view of the state goes to the live users |
| Rooms.Room.AddUser | phira-mp-server/src/room.rs:92-101 | dead users are dropped first, a player joins only when fewer than 8 remain, a monitor always joins, and the user cap is kept |
| Rooms.Room.Join | phira-mp-server/src/session.rs:452-504 | a join adds the user or the monitor, makes the room live for a monitor, and announces the join, or changes nothing when full |
| Rooms.Room.CheckAllReady | phira-mp-server/src/room.rs:173-210 | the new state is the ready step of the old and the room is told of a start or an end |
| Rooms.Room.Advance | phira-mp-server/src/session.rs:614-630 | after a state update the message goes out, then the ready check runs |
| Rooms.Room.Shift | phira-mp-server/src/session.rs:631-652 | the room takes the given state, sends the message and, when asked, the new state |
| Rooms.Room.Start | phira-mp-server/src/session.rs:594-613 | the room waits for ready with only the host started, announces it, then checks readiness |
| Rooms.Room.DropMember | phira-mp-server/src/room.rs:142-151 | the leaver and the dead are dropped from users and monitors, and the leave is announced to those who were there |
| Rooms.Room.HandOver | phira-mp-server/src/room.rs:152-166 | when the host leaves, the room is dropped if nobody remains, otherwise the chosen remaining user becomes host and is told |
| Rooms.Room.OnUserLeave | phira-mp-server/src/room.rs:142-171 | the leave is announced, the user is removed, the host is handed over or the room dropped, and readiness is checked again |
| Server.ReadyThenCancel | phira-mp-server/src/session.rs:614-652 | a non-host who readies and then cancels leaves the room state as it was |
| Server.ReadyTwice | phira-mp-server/src/session.rs:614-630 | readying twice fails with "already ready" and changes nothing |
| Server.CancelReadyCases | phira-mp-server/src/session.rs:631-652 | cancel fails with "not ready" exactly when waiting and not started, a host's cancel returns to chart selection, and outside waiting it is a no-op |
| Server.PlayKeepsApart | phira-mp-server/src/session.rs:653-691 | recording a result keeps results and aborts apart |
| Server.AbortKeepsApart | phira-mp-server/src/session.rs:692-711 | recording an abort keeps results and aborts apart |
| Server.ResultOrAbort | phira-mp-server/src/session.rs:653-711 | after a result an abort fails with "already uploaded", and after an abort a result fails with "aborted" |
| Server.JoinRefusalOrder | phira-mp-server/src/session.rs:452-504 | a join is allowed exactly when not in a room, the room exists, is unlocked and selecting, and a monitor may monitor; the checks go in that order |
| Server.ServerState.constructor | phira-mp-server/src/server.rs:51-58 | the server starts with no users and no rooms |
| Server.ServerState.Chat | phira-mp-server/src/session.rs:381-389 | outside a room it fails with "no room"; otherwise the chat goes to the room's live users |
| Server.ServerState.LockRoom | phira-mp-server/src/session.rs:525-541 | only the host may lock; the flag is set and the change announced |
| Server.ServerState.CycleRoom | phira-mp-server/src/session.rs:542-558 | only the host may set cycling; the flag is set and the change announced |
| Server.ServerState.Infos | phira-mp-server/src/session.rs:64-70 | lists at most one info per id |
| Server.ServerState.InfosAll | phira-mp-server/src/session.rs:64-70 | the info list of registered ids lists exactly their infos in order |
| Server.ServerState.CreateRoom | phira-mp-server/src/session.rs:425-451 | fails when already in a room or the id is taken; otherwise a new room with the user as only member and host, not live, locked or cycling, is registered, becomes the user's, and the creation is sent |
| Server.ServerState.JoinRoom | phira-mp-server/src/session.rs:452-504 | refusals in the source's order change nothing; a full room refuses a player; a join records the room, announces it and replies with the room's state, members and liveness |
| Server.ServerState.Admit | phira-mp-server/src/session.rs:459-503 | after the checks the user joins as asked, or the room is full |
| Server.ServerState.LeaveRoom | phira-mp-server/src/session.rs:505-524 | outside a room it fails with "no room" and changes nothing; otherwise it succeeds, the user has no room, and the room changes as `Departed` says: only the other live members remain, it is dropped exactly when the host left it empty, a host who left is replaced by the chosen player, readiness is rechecked, and the leave, the new host and any start are announced |
| Server.ServerState.Depart | phira-mp-server/src/session.rs:505-524 | the user has no room and the room changes as `Departed` says (members, host hand-over, drop, readiness recheck and the announcements of `on_user_leave`) |
| Server.ServerState.Ready | phira-mp-server/src/session.rs:614-630 | while waiting, a first ready is recorded and announced and readiness is checked; a repeat fails; elsewhere nothing changes |
| Server.ServerState.CancelReady | phira-mp-server/src/session.rs:631-652 | the host's cancel ends the wait for everyone and announces it; another user's cancel unmarks them; a user not started fails |
| Server.ServerState.Abort | phira-mp-server/src/session.rs:692-711 | while playing, a first abort is recorded and announced and the end is checked; a repeat or one after a result fails |
| Server.ServerState.Played | phira-mp-server/src/session.rs:653-691 | a failed fetch or another player's record fails; otherwise the result is recorded and announced and the end is checked |
| Server.ServerState.RequestStart | phira-mp-server/src/session.rs:594-613 | only the host while selecting, with a chart chosen, starts the wait for ready |
| Server.ServerState.SelectChart | phira-mp-server/src/session.rs:559-592 | only the host while selecting may choose; a failed fetch fails; the chart is set and announced |
| Server.ServerState.Touches | phira-mp-server/src/session.rs:390-408 | in a live room the last frame's time is recorded and the frames go to the monitors; otherwise nothing changes |
| Server.ServerState.Judges | phira-mp-server/src/session.rs:409-424 | in a live room the judgements go to the monitors; otherwise nothing changes |
| Server.ServerState.Dangle | phira-mp-server/src/session.rs:89-122 | a user lost while playing is removed and its room changes as `Departed` says; any other lost user gets a newly numbered dangle mark, unlike any mark held before, and nothing else changes |
| Server.ServerState.DangleExpire | phira-mp-server/src/session.rs:106-121 | when the wait for a mark ends, a user still holding that same mark and in a room is removed and its room changes as `Departed` says; a user re-authenticated or dangled again since, or in no room, is left alone and nothing changes |
| Server.ServerState.Leave | phira-mp-server/src/session.rs:94-104 | the user is removed from the server and its room changes as `Departed` says |
| Server.ServerState.Authenticate | phira-mp-server/src/session.rs:168-258 | a token that is not 32 bytes fails, a failed fetch fails, a known user is revived with its room and loses its dangle mark, and a new user is registered, together `SignedIn`; a success replies with `Welcome` |
| Server.ServerState.Process | phira-mp-server/src/session.rs:338-713 | each command goes to its handler: the reply is that handler's outcome under its own name (none for touches and judgements), the server changes exactly as that handler's contract says (`Processed`), and a second Authenticate is refused and changes nothing |
| Sessions.Session.constructor | phira-mp-server/src/session.rs:134-150 | a new session waits for authentication holding the one-shot sender |
| Sessions.Session.Handle | phira-mp-server/src/session.rs:151-279 | pings get pongs; before authentication only the first Authenticate is served; a success registers the user in the server's map as `SignedIn` says and replies with its info and room state (`Welcome`), a failure leaves the users map alone and marks the session panicked and lost; afterwards each command other than Ping gets the reply of `process` and changes the server as `process` says; the connection closes when the first packet does not authenticate |
| Sessions.Session.Serve | phira-mp-server/src/session.rs:264-269 | the reply of `process` is sent, and the server changes as `process` says |
| Sessions.Session.Gate | phira-mp-server/src/session.rs:168-262 | a packet before authentication: the first Authenticate goes to `SignIn`; anything else, or an Authenticate after the sender is gone, is ignored and changes nothing |
| Sessions.Session.SignIn | phira-mp-server/src/session.rs:169-258 | the reply succeeds exactly for a 32-byte token whose account was fetched; a success ends the wait, registers the user as `SignedIn` says and replies with `Welcome`; a failure replies with the reason, changes no user and marks the session panicked, lost and closed |
| Clients.ReplyResolves | phira-mp-client/src/lib.rs:470-508 | the server's reply to a call resolves that call's own callback |
| Clients.LiveOf | phira-mp-client/src/lib.rs:65-75 | a player's live record is the stored one, or a new empty one |
| Clients.UsersById | phira-mp-client/src/lib.rs:303-311 | the users map keeps every listed user under its own id and nothing else |
| Clients.LastWins | phira-mp-client/src/lib.rs:303-311 | a user listed last under its id is the one kept |
| Clients.AfterMessage | phira-mp-client/src/lib.rs:437-458 | only lock, cycle and leave messages touch the room, never its id or state, and a leave removes exactly that user |
| Clients.Joined | phira-mp-client/src/lib.rs:476-481 | a join notice adds the user and makes the room live for a monitor, nothing else |
| Clients.Restated | phira-mp-client/src/lib.rs:459-465 | a state change sets the state and resets readiness to host status, nothing else |
| Clients.Created | phira-mp-client/src/lib.rs:279-288 | a created room has the given id, default state, the creator as host and only member, not ready |
| Clients.Entered | phira-mp-client/src/lib.rs:303-311 | a joined room takes the reply's state, liveness and users, and is unlocked, not cycling, not host and not ready |
| Clients.NameOf | phira-mp-client/src/lib.rs:172-178 | a name is found exactly for a user of the current room |
| Clients.DisplayName | phira-mp-client/src/lib.rs:168-170 | the name of a known user, otherwise "?" |
| Clients.LeftIsUnknown | phira-mp-client/src/lib.rs:445-450 | a user who left shows as "?" |
| Clients.JoinedNamesKnown | phira-mp-client/src/lib.rs:293-314 | every user in a join reply has its name known afterwards |
| Clients.JoinedNameKnown | phira-mp-client/src/lib.rs:476-481 | a newly joined user's name is known and other names are unchanged |
| Clients.CreatorKnown | phira-mp-client/src/lib.rs:272-290 | in a new room only the creator's name is known |
| Clients.Client.constructor | phira-mp-client/src/lib.rs:87-162 | a new client has no user, no room, no pending call, nothing received |
| Clients.Client.Authenticate | phira-mp-client/src/lib.rs:245-257 | a token over 32 bytes fails with "string too long" and sends nothing; otherwise the Authenticate is sent and its callback armed |
| Clients.Client.Chat | phira-mp-client/src/lib.rs:260-269 | a message over 200 bytes fails with "string too long" and sends nothing; otherwise the Chat is sent and its callback armed |
| Clients.Client.Call | phira-mp-client/src/lib.rs:235-243 | a call sends its command and arms its callback |
| Clients.Client.Send | phira-mp-client/src/lib.rs:387-393 | a send puts exactly the command on the stream |
| Clients.Client.Process | phira-mp-client/src/lib.rs:407-510 | each server command has its exact effect on the mirror: pongs counted, replies resolved or a panic, frames and judgements appended, messages applied and logged, state and host updates, joins added |
| Clients.Client.LivePlayerOf | phira-mp-client/src/lib.rs:396-399 | returns the player's live record, creating an empty one if missing |
| Clients.Client.Authenticated | phira-mp-client/src/lib.rs:246-258 | a success stores the user and the room; a failure changes nothing |
| Clients.Client.CreatedRoom | phira-mp-client/src/lib.rs:272-290 | a success makes the user host of a new room, or panics without a user; a failure changes nothing |
| Clients.Client.JoinedRoom | phira-mp-client/src/lib.rs:293-314 | a success stores the joined room from the reply; a failure changes nothing |
| Clients.Client.LeftRoom | phira-mp-client/src/lib.rs:317-322 | a success clears the room; a failure changes nothing |
| Clients.Client.ReadySet | phira-mp-client/src/lib.rs:349-371 | a success sets the ready flag of the room, or panics without one; a failure changes nothing |
| Clients.Client.TakeMessages | phira-mp-client/src/lib.rs:180-182 | returns all logged messages in order and empties the log |
| Clients.Client.UserNameOpt | phira-mp-client/src/lib.rs:172-178 | a name is found exactly for a user of the current room |
| Clients.Client.UserName | phira-mp-client/src/lib.rs:168-170 | the found name, otherwise "?" |

## Left out

- Concurrency and timing. Tokio tasks, locks and channels are left out, and so are the heartbeat and ping tasks, the monitor task of the server, rcall timeouts and the ten-second wait of `dangle`. Each operation runs alone, and the wait's end is a separate call, `DangleExpire`, given the number of the mark its timer was armed with. The number stands for the `Arc` the timer holds: the mark is still that allocation exactly when the user still holds the same number.
- The version byte exchanged when a stream opens is left out, and so are socket errors other than end of input. main.rs and the lost-connection loop in server.rs are not part of this model: the server's lost-connection loop becomes the call to `Dangle`.
- The API's HTTP requests are parameters. `None` stands for a failed request.
- The random choice of the new host is a parameter (`choice`).
- The set of users allowed to monitor is a parameter of the server.
- Floating-point values (f32, the two f16 halves of `CompactPos`, and accuracy) are kept as their bit patterns. No arithmetic is done on them.
- Error messages are kept as fault names, or as their localisation keys when the source translates them. Localisation and the user's language are left out.
- Weak references are modelled as membership in the server's users map: a user is alive while registered. The leaver is still alive during its own leave, because the caller holds its `Arc`: it receives the leave notice, and `check_host` on it succeeds. The retain then drops it by id. `Leave` removes it from the users map after `on_user_leave`, whereas session.rs removes it first; with the `Arc` held, the order cannot be observed.
- `HashMap` iteration order is not modelled. A map is encoded in whatever order its entries are listed.
- `DateTime<Utc>` encoding (bin.rs:318-328) is left out, because no core command uses it.
- room.rs and command.rs differ from each other. The model follows command.rs and session.rs:
  - command.rs's `Message::Chat`, `LeaveRoom` and `NewHost` carry user ids and names in a form different from room.rs's `send_as` and `on_user_leave`;
  - room.rs's `client_state` names a `live_room` field;
  - room.rs has no `monitors`, `locked`, `cycle`, `is_live`, `broadcast_monitors` or two-argument `add_user`, which session.rs uses;
  - room.rs sends `ServerCommand::GameEnd`, which command.rs lacks. The model sends no such command;
  - session.rs calls `reset_game_time`, which does not exist in room.rs. It is left out.
- Rooms.Room.Join: requires that the room's members are alive, as the server's invariant ensures. It does not model a join into a room that still lists dead users.
- Sessions.Session.Handle: a session whose user is no longer registered drops later commands. The source would still call `process` with its user.
- Sessions.Session.Handle: a failed send to the stream (session.rs:269-277) is not modelled.
- Client accessors that only read state are plain field reads and have no members: `me`, `blocking_state`, `room_id`, `room_state`, `is_host`, `is_ready`, `delay`, `ping_fail_count`.
- Client calls whose only effect is the call itself are covered by `Call` and by `Process` resolving the reply: `lock_room`, `cycle_room`, `select_chart`, `played`, `abort`. `ping` is sending a Ping and counting the Pong.
- Clients.Client.Process: a callback sender whose receiver is gone is not modelled. The error of the send is discarded in the source anyway.
