/** Packet framing (phira-mp-common/src/lib.rs): `encode_packet` and
    `decode_packet`, and the two loops of `Stream::new` lifted out of their
    tasks. The send task writes a 7-bit length prefix of at most five bytes
    before each packet; the receive task reads such a prefix into a u32,
    refuses lengths above 2 MiB, reads the payload and hands each decoded
    value to the handler, stopping at the first payload that does not decode.

    The socket halves are byte sequences: the read half is a `BinaryReader`
    over everything the peer will ever send (`read_u8` is `byte()`,
    `read_exact` is `take`), and what the send task writes for one payload is
    returned as a sequence. */
module Frame {
  import opened Wire
  import opened Codec
  import opened Bin
  import RoundTrip

  /** `2 * 1024 * 1024`: the largest length the receiver accepts. */
  const MAX_PACKET: nat := 2 * 1024 * 1024

  // ---------------------------------------------------------------------
  // encode_packet / decode_packet (lib.rs:21-30)

  /** `decode_packet`: one value read from the start of the payload; bytes
      left after it are ignored. */
  function DecodePacket(ty: Ty, data: seq<byte>): (r: Result<Value>)
    ensures r.Ok? <==> Decode(ty, data).Ok?
  {
    match Decode(ty, data)
    case Err(e) => Err(e)
    case Ok((v, _)) => Ok(v)
  }

  /** `encode_packet`: the write cannot fail, so `unwrap` never panics, and
      the vector only grows by the encoding. */
  method EncodePacket(ty: Ty, v: Value, vec: BinaryWriter)
    requires HasType(v, ty)
    modifies vec
    ensures vec.buf == old(vec.buf) + Encode(ty, v)
  {
    vec.Write(ty, v);
  }

  /** `decode_packet` through a fresh `BinaryReader`. */
  method ReadPacket(ty: Ty, data: seq<byte>) returns (r: Result<Value>)
    ensures r == DecodePacket(ty, data)
  {
    var reader := new BinaryReader(data);
    r := reader.Read(ty);
  }

  /** `decode_packet(encode_packet(v))` is v, whatever trails the encoding. */
  lemma PacketRoundTrip(ty: Ty, v: Value, extra: seq<byte>)
    requires HasType(v, ty)
    ensures DecodePacket(ty, Encode(ty, v) + extra) == Ok(v)
  {
    RoundTrip.Decodes(ty, v, extra);
  }

  // ---------------------------------------------------------------------
  // The send task (lib.rs:69-91)

  /** What the send task writes for one payload: the prefix for
      `buffer.len() as u32`, then the payload. */
  function Framed(ty: Ty, v: Value): seq<byte>
    requires HasType(v, ty)
  {
    var payload := Encode(ty, v);
    UlebEncode(|payload| % U32_LIMIT) + payload
  }

  /** The prefix loop: `len_buf[n] = x & 0x7f`, `x >>= 7`, and 0x80 or-ed into
      every byte that is followed by another. A u32 needs at most five
      groups, so the five-byte buffer is never overrun. */
  method EncodeLength(size: nat, lenBuf: array<byte>) returns (n: nat)
    requires lenBuf.Length == 5
    modifies lenBuf
    ensures 1 <= n <= 5
    ensures lenBuf[..n] == UlebEncode(size % U32_LIMIT)
  {
    var x: nat := size % U32_LIMIT;
    ghost var x0 := x;
    PrefixSize(x0);
    ghost var written: seq<byte> := [];
    n := 0;
    while true
      invariant |written| == n && n + |UlebEncode(x)| <= 5
      invariant forall i :: 0 <= i < n ==> lenBuf[i] == written[i]
      invariant written + UlebEncode(x) == UlebEncode(x0)
      decreases x
    {
      lenBuf[n] := x % 0x80;
      n := n + 1;
      var next := x / 0x80;
      if next == 0 {
        LastGroup(written, x);
        written := written + [x];
        assert lenBuf[..n] == written;
        return;
      }
      SetLowBit7(x % 0x80);
      lenBuf[n - 1] := BitOr(lenBuf[n - 1], 0x80);
      InnerGroup(written, x);
      written := written + [x % 0x80 + 0x80];
      x := next;
    }
  }

  /** The last group is written as it is. */
  lemma LastGroup(written: seq<byte>, x: nat)
    requires x < 0x80
    ensures written + UlebEncode(x) == written + [x]
  {
  }

  /** An inner group is written with 0x80 set, the rest of the encoding
      following. */
  lemma InnerGroup(written: seq<byte>, x: nat)
    requires x >= 0x80
    ensures written + UlebEncode(x) == (written + [x % 0x80 + 0x80]) + UlebEncode(x / 0x80)
  {
  }

  /** `|= 0x80` on a byte below 0x80 adds 0x80. */
  lemma SetLowBit7(b: nat)
    requires b < 0x80
    ensures BitOr(b, 0x80) == b + 0x80
  {
    assert Pow2(7) == 0x80;
    BitOrDisjoint(b, 1, 7);
  }

  /** The send task, for one payload: `encode_packet` into a cleared buffer,
      the prefix into `len_buf`, then `len_buf[..n]` and the buffer. */
  method Send(ty: Ty, v: Value) returns (wire: seq<byte>)
    requires HasType(v, ty)
    ensures wire == Framed(ty, v)
  {
    var buffer := new BinaryWriter([]);
    EncodePacket(ty, v, buffer);
    var lenBuf := new byte[5](_ => 0);
    var n := EncodeLength(|buffer.buf|, lenBuf);
    wire := lenBuf[..n] + buffer.buf;
  }

  /** Every u32 takes one to five prefix bytes. */
  lemma PrefixSize(x: nat)
    requires x < U32_LIMIT
    ensures 1 <= |UlebEncode(x)| <= 5
  {
    RoundTrip.UlebLayout(x);
    var n := |UlebEncode(x)|;
    if n > 5 {
      Pow2Values();
      Pow2Monotone(32, 7 * (n - 1));
    }
  }

  // ---------------------------------------------------------------------
  // The receive task (lib.rs:107-136)

  /** `((byte & 0x7f) as u32) << pos`: the shift amount is taken modulo 32
      and bits pushed past bit 31 are lost. */
  function Shl32(g: nat, pos: nat): (r: nat)
    requires g < U64_LIMIT
    ensures r < U32_LIMIT
  {
    ShiftLeft(g, pos % 32) % U32_LIMIT
  }

  /** The prefix loop from accumulator `len` at shift `pos`: or in the low
      group, `pos += 7`, stop at a byte without 0x80, and bail "invalid
      length" once a continuing byte has pushed `pos` past 32. */
  function LengthLoop(s: seq<byte>, len: u32, pos: nat): (r: Result<(u32, seq<byte>)>)
    ensures r.Ok? ==> SuffixOf(r.value.1, s) && |r.value.1| < |s|
    decreases |s|
  {
    if s == [] then Err(UnexpectedEof)
    else
      var g := Shl32(s[0] % 0x80, pos);
      assert BitOr(len, g) < U32_LIMIT by { Pow2Values(); BitOrBound(len, g, 32); }
      var next: u32 := BitOr(len, g);
      if s[0] < 0x80 then Ok((next, s[1..]))
      else if pos + 7 > 32 then Err(InvalidLength)
      else
        var r := LengthLoop(s[1..], next, pos + 7);
        if r.Ok? then SuffixTrans(r.value.1, s[1..], s); r else r
  }

  function DecodeLength(s: seq<byte>): Result<(u32, seq<byte>)>
  {
    LengthLoop(s, 0, 0)
  }

  /** The inner loop over `len` and `pos`, reading from the socket. */
  method ReadLength(socket: BinaryReader) returns (r: Result<u32>)
    requires socket.Valid()
    modifies socket
    ensures socket.Follows(r, DecodeLength(old(socket.Rest())))
  {
    var len: u32 := 0;
    var pos: nat := 0;
    while true
      invariant socket.Valid()
      invariant DecodeLength(old(socket.Rest())) == LengthLoop(socket.Rest(), len, pos)
      decreases |socket.data| - socket.pos
    {
      ghost var before := socket.Rest();
      var b := socket.Byte();
      if b.Err? {
        return Err(b.error);
      }
      assert before[0] == b.value && before[1..] == socket.Rest();
      var g := Shl32(b.value % 0x80, pos);
      Pow2Values();
      BitOrBound(len, g, 32);
      len := BitOr(len, g);
      pos := pos + 7;
      if b.value < 0x80 {
        return Ok(len);
      }
      if pos > 32 {
        return Err(InvalidLength);
      }
    }
  }

  /** How the receive task ends: `bail!`/`?` with an error, or the `break`
      after a payload that does not decode, which returns `Ok(())`. */
  datatype Ending = Bailed(error: CodecError) | Stopped

  /** The values handed to the handler, in arrival order, and how the task
      ended. */
  datatype Run = Run(handled: seq<Value>, end: Ending)

  function Receive(ty: Ty, s: seq<byte>): (r: Run)
    decreases |s|
  {
    match DecodeLength(s)
    case Err(e) => Run([], Bailed(e))
    case Ok((len, s1)) =>
      if len > MAX_PACKET then Run([], Bailed(PacketTooLarge))
      else if len > |s1| then Run([], Bailed(UnexpectedEof))
      else
        match DecodePacket(ty, s1[..len])
        case Err(_) => Run([], Stopped)
        case Ok(v) =>
          var tail := Receive(ty, s1[len..]);
          Run([v] + tail.handled, tail.end)
  }

  /** `done` handled before a run, then the run. */
  function After(done: seq<Value>, r: Run): Run
  {
    Run(done + r.handled, r.end)
  }

  /** The receive task's outer loop. */
  method ReceiveLoop(ty: Ty, socket: BinaryReader) returns (handled: seq<Value>, end: Ending)
    requires socket.Valid()
    modifies socket
    ensures Run(handled, end) == Receive(ty, old(socket.Rest()))
  {
    handled := [];
    assert After([], Receive(ty, socket.Rest())) == Receive(ty, socket.Rest());
    while true
      invariant socket.Valid()
      invariant Receive(ty, old(socket.Rest())) == After(handled, Receive(ty, socket.Rest()))
      decreases |socket.data| - socket.pos
    {
      ghost var here := socket.Rest();
      var len := ReadLength(socket);
      if len.Err? {
        return handled, Bailed(len.error);
      }
      if len.value > MAX_PACKET {
        return handled, Bailed(PacketTooLarge);
      }
      ghost var s1 := socket.Rest();
      var buffer := socket.Take(len.value);
      if buffer.Err? {
        return handled, Bailed(buffer.error);
      }
      assert buffer.value == s1[..len.value] && socket.Rest() == s1[len.value..];
      var payload := ReadPacket(ty, buffer.value);
      if payload.Err? {
        return handled, Stopped;
      }
      ReceiveNext(ty, here, len.value, s1, payload.value);
      AfterAfter(handled, [payload.value], Receive(ty, socket.Rest()));
      handled := handled + [payload.value];
    }
  }

  lemma AfterAfter(a: seq<Value>, b: seq<Value>, r: Run)
    ensures After(a, After(b, r)) == After(a + b, r)
  {
    assert a + (b + r.handled) == a + b + r.handled;
  }

  /** One frame read in full and decoded: its value is handled, and the
      task goes on with what follows the payload. */
  lemma ReceiveNext(ty: Ty, s: seq<byte>, len: nat, s1: seq<byte>, v: Value)
    requires DecodeLength(s) == Ok((len, s1)) && len <= MAX_PACKET && len <= |s1|
    requires DecodePacket(ty, s1[..len]) == Ok(v)
    ensures Receive(ty, s) == After([v], Receive(ty, s1[len..]))
  { }

  // ---------------------------------------------------------------------
  // Properties of the length prefix

  /** One turn of the prefix loop on a byte whose low group is g, when the
      group fits below bit 32. */
  lemma LengthStep(s: seq<byte>, len: u32, pos: nat, g: nat)
    requires s != [] && s[0] % 0x80 == g && pos < 32
    requires len < Pow2(pos) && len + g * Pow2(pos) < U32_LIMIT
    ensures s[0] < 0x80 ==> LengthLoop(s, len, pos) == Ok((len + g * Pow2(pos), s[1..]))
    ensures s[0] >= 0x80 && pos + 7 <= 32 ==> LengthLoop(s, len, pos) == LengthLoop(s[1..], len + g * Pow2(pos), pos + 7)
  {
    var x := g * Pow2(pos);
    assert pos % 32 == pos;
    assert x % U64_LIMIT == x;
    assert x % U32_LIMIT == x;
    ShiftLeftIsMul(g, pos);
    assert Shl32(g, pos) == x;
    BitOrDisjoint(len, g, pos);
  }

  /** A byte with 0x80 set hands the rest of the encoding to the next turn. */
  lemma LengthInnerByte(v: nat, rest: seq<byte>, len: u32, pos: nat) returns (next: u32)
    requires v >= 0x80 && pos < 32 && len < Pow2(pos)
    requires len + v * Pow2(pos) < U32_LIMIT
    ensures pos + 7 < 32 && next < Pow2(pos + 7)
    ensures next + (v / 0x80) * Pow2(pos + 7) == len + v * Pow2(pos)
    ensures LengthLoop(UlebEncode(v) + rest, len, pos) == LengthLoop(UlebEncode(v / 0x80) + rest, next, pos + 7)
  {
    var p := Pow2(pos);
    RoundTrip.UlebStepArith(v, p, len);
    next := len + (v % 0x80) * p;
    var p7 := Pow2(pos + 7);
    assert p7 == 0x80 * p by { Pow2Add(pos, 7); }
    assert (v / 0x80) * p7 == (v / 0x80) * (0x80 * p);
    assert pos + 7 < 32 by {
      Pow2Values();
      if pos + 7 >= 32 {
        Pow2Monotone(32, pos + 7);
      }
    }
    RoundTrip.UlebHead(v, rest);
    LengthStep(UlebEncode(v) + rest, len, pos, v % 0x80);
  }

  lemma {:induction false} LengthLoopOfEncode(v: nat, rest: seq<byte>, len: u32, pos: nat)
    requires pos < 32 && len < Pow2(pos)
    requires len + v * Pow2(pos) < U32_LIMIT
    ensures LengthLoop(UlebEncode(v) + rest, len, pos) == Ok((len + v * Pow2(pos), rest))
    decreases v
  {
    if v < 0x80 {
      RoundTrip.UlebHead(v, rest);
      LengthStep(UlebEncode(v) + rest, len, pos, v % 0x80);
    } else {
      var next := LengthInnerByte(v, rest, len, pos);
      LengthLoopOfEncode(v / 0x80, rest, next, pos + 7);
    }
  }

  /** The receiver reads back every length the sender can write. */
  lemma LengthRoundTrip(x: nat, rest: seq<byte>)
    requires x < U32_LIMIT
    ensures DecodeLength(UlebEncode(x) + rest) == Ok((x, rest))
  {
    LengthLoopOfEncode(x, rest, 0, 0);
  }

  /** From shift `pos` with k turns left before `pos` passes 32, the loop
      bails "invalid length" exactly when the next k bytes all carry 0x80. */
  lemma {:induction false} InvalidLengthFrom(s: seq<byte>, len: u32, pos: nat, k: nat)
    requires 1 <= k && pos + 7 * k == 35
    ensures LengthLoop(s, len, pos) == Err(InvalidLength) <==> |s| >= k && forall i :: 0 <= i < k ==> s[i] >= 0x80
    decreases k
  {
    if s != [] && s[0] >= 0x80 && k > 1 {
      var g := Shl32(s[0] % 0x80, pos);
      Pow2Values();
      BitOrBound(len, g, 32);
      var next: u32 := BitOr(len, g);
      assert LengthLoop(s, len, pos) == LengthLoop(s[1..], next, pos + 7);
      InvalidLengthFrom(s[1..], next, pos + 7, k - 1);
      if |s| >= k && forall i :: 0 <= i < k ==> s[i] >= 0x80 {
        assert forall i :: 0 <= i < k - 1 ==> s[1..][i] >= 0x80 by {
          forall i | 0 <= i < k - 1 ensures s[1..][i] >= 0x80 {
            assert s[1..][i] == s[i + 1];
          }
        }
      }
      if |s[1..]| >= k - 1 && forall i :: 0 <= i < k - 1 ==> s[1..][i] >= 0x80 {
        forall i | 0 <= i < k ensures s[i] >= 0x80 {
          if i > 0 {
            assert s[i] == s[1..][i - 1];
          }
        }
      }
    }
  }

  /** "invalid length" exactly when the first five bytes all continue. */
  lemma InvalidLengthIff(s: seq<byte>)
    ensures DecodeLength(s) == Err(InvalidLength) <==> |s| >= 5 && forall i :: 0 <= i < 5 ==> s[i] >= 0x80
  {
    InvalidLengthFrom(s, 0, 0, 5);
  }

  /** The fifth byte is shifted by 28 in a u32, so its upper three bits are
      lost: 80 80 80 80 10 announces length 0. */
  lemma FifthByteWraps(s: seq<byte>)
    requires s == [0x80, 0x80, 0x80, 0x80, 0x10]
    ensures DecodeLength(s) == Ok((0, []))
  {
    LengthStep(s, 0, 0, 0);
    assert DecodeLength(s) == LengthLoop(s[1..], 0, 7);
    LengthStep(s[1..], 0, 7, 0);
    assert s[1..][1..] == s[2..];
    LengthStep(s[2..], 0, 14, 0);
    assert s[2..][1..] == s[3..];
    LengthStep(s[3..], 0, 21, 0);
    assert s[3..][1..] == s[4..];
    FifthByteLast(s[4..]);
  }

  lemma FifthByteLast(t: seq<byte>)
    requires t == [0x10]
    ensures LengthLoop(t, 0, 28) == Ok((0, []))
  {
    WrapShift(0x10, 28);
    assert t[0] % 0x80 == 0x10;
    assert t[1..] == [];
  }

  /** `(0x10 as u32) << 28` is 2^32 truncated to 0. */
  lemma WrapShift(g: nat, pos: nat)
    requires g == 0x10 && pos == 28
    ensures Shl32(g, pos) == 0
  {
    Pow2Add(28, 4);
    Pow2Values();
    var x := g * Pow2(pos);
    assert x == U32_LIMIT;
    ShiftLeftIsMul(g, pos);
    assert pos % 32 == pos;
    var a := ShiftLeft(g, pos);
    assert a == x % U64_LIMIT;
    assert a == U32_LIMIT;
  }

  // ---------------------------------------------------------------------
  // Properties of the receive loop

  /** Every value has the stream's type and an encoding within the cap. */
  predicate Sendable(ty: Ty, vs: seq<Value>)
  {
    vs == [] || (HasType(vs[0], ty) && |Encode(ty, vs[0])| <= MAX_PACKET && Sendable(ty, vs[1..]))
  }

  /** All frames of a sequence of values, as the send task writes them. */
  function FramedAll(ty: Ty, vs: seq<Value>): seq<byte>
    requires Sendable(ty, vs)
  {
    if vs == [] then [] else Framed(ty, vs[0]) + FramedAll(ty, vs[1..])
  }

  /** The frame of one value, when its payload is within the cap, is read
      back as that value. */
  lemma FrameDecodes(ty: Ty, v: Value, rest: seq<byte>)
    requires HasType(v, ty) && |Encode(ty, v)| <= MAX_PACKET
    ensures Receive(ty, Framed(ty, v) + rest) == After([v], Receive(ty, rest))
  {
    var p := Encode(ty, v);
    assert |p| % U32_LIMIT == |p|;
    assert Framed(ty, v) + rest == UlebEncode(|p|) + (p + rest);
    LengthRoundTrip(|p|, p + rest);
    assert (p + rest)[..|p|] == p && (p + rest)[|p|..] == rest;
    PacketRoundTrip(ty, v, []);
    assert p + [] == p;
  }

  /** The handler sees exactly the values sent, in order, and the task then
      ends on the end of input. */
  lemma {:induction false} ReceiveFramed(ty: Ty, vs: seq<Value>)
    requires Sendable(ty, vs)
    ensures Receive(ty, FramedAll(ty, vs)) == Run(vs, Bailed(UnexpectedEof))
    decreases |vs|
  {
    if vs != [] {
      ReceiveFramed(ty, vs[1..]);
      FrameDecodes(ty, vs[0], FramedAll(ty, vs[1..]));
      assert [vs[0]] + vs[1..] == vs;
    }
  }

  /** A length above 2 MiB ends the task before any payload byte is read. */
  lemma OversizeRejected(ty: Ty, len: nat, rest: seq<byte>)
    requires MAX_PACKET < len < U32_LIMIT
    ensures Receive(ty, UlebEncode(len) + rest) == Run([], Bailed(PacketTooLarge))
  {
    LengthRoundTrip(len, rest);
  }

  /** A payload that does not decode stops the task: it is not handed to the
      handler and nothing after it is read. */
  lemma UndecodableStops(ty: Ty, data: seq<byte>, rest: seq<byte>)
    requires |data| <= MAX_PACKET && Decode(ty, data).Err?
    ensures Receive(ty, UlebEncode(|data|) + data + rest) == Run([], Stopped)
  {
    LengthRoundTrip(|data|, data + rest);
    assert UlebEncode(|data|) + data + rest == UlebEncode(|data|) + (data + rest);
    assert (data + rest)[..|data|] == data;
  }
}
