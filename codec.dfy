/** The `BinaryData` encoding as one type-directed codec.

    `Ty` describes every type that implements `BinaryData` in the core: the
    impls of phira-mp-common/src/bin.rs (integers, bool, String, pairs,
    Option, Result, Vec, HashMap, Uuid), the hand-written impls of
    command.rs (Varchar<N>, RoomId, CompactPos), and the shapes produced by
    `#[derive(BinaryData)]` (phira-mp-macros/src/lib.rs): a struct is its
    fields in declaration order, an enum is a one-byte variant index followed
    by that variant's fields, and `Arc<T>` is transparent.

    Decoders work on the remaining input and return what is left after the
    value, which is what the reader's cursor `pos` tracks. */
module Codec {
  import opened Wire
  import opened Utf8
  import Varchar

  datatype Ty =
    | TUnit | TI8 | TU8 | TU16 | TU32 | TU64 | TI32 | TI64
    | TF32                       // an f32, kept as its 32-bit pattern
    | TBool | TString
    | TPair(fst: Ty, snd: Ty)
    | TOption(inner: Ty)
    | TResult(ok: Ty, err: Ty)
    | TVec(elem: Ty)
    | TMap(key: Ty, val: Ty)
    | TUuid
    | TVarchar(limit: nat)
    | TRoomId
    | TCompactPos                // two f16 bit patterns
    | TArc(target: Ty)
    | TStruct(fields: seq<Ty>)
    | TEnum(variants: seq<Ty>)   // each variant's fields, as a TStruct

  datatype Value =
    | VUnit
    | VInt(n: int)
    | VBool(b: bool)
    | VStr(bytes: seq<byte>)
    | VPair(fst: Value, snd: Value)
    | VNone | VSome(some: Value)
    | VOk(okv: Value) | VErr(errv: Value)
    | VList(items: seq<Value>)
    | VMap(entries: seq<(Value, Value)>)   // a HashMap, in its iteration order
    | VUuid(high: u64, low: u64)
    | VPos(xBits: u16, yBits: u16)
    | VStruct(fields: seq<Value>)
    | VEnum(tag: nat, payload: Value)

  // ---------------------------------------------------------------------
  // Fixed-width integers (bin.rs:108-183, f32 bits at bin.rs:195-204)

  predicate IsInt(ty: Ty)
  {
    ty.TI8? || ty.TU8? || ty.TU16? || ty.TU32? || ty.TU64? || ty.TI32? || ty.TI64? || ty.TF32?
  }

  predicate IsSigned(ty: Ty)
  {
    ty.TI8? || ty.TI32? || ty.TI64?
  }

  /** Bytes on the wire. */
  function Width(ty: Ty): nat
    requires IsInt(ty)
  {
    match ty
    case TI8 => 1
    case TU8 => 1
    case TU16 => 2
    case TU32 => 4
    case TF32 => 4
    case TI32 => 4
    case _ => 8
  }

  /** 2^(8 * Width). */
  function Span(ty: Ty): nat
    requires IsInt(ty)
  {
    match ty
    case TI8 => 0x100
    case TU8 => 0x100
    case TU16 => 0x1_0000
    case TU32 => 0x1_0000_0000
    case TF32 => 0x1_0000_0000
    case TI32 => 0x1_0000_0000
    case _ => 0x1_0000_0000_0000_0000
  }

  lemma SpanIsPow2(ty: Ty)
    requires IsInt(ty)
    ensures Span(ty) == Pow2(8 * Width(ty))
  {
    Pow2Values();
  }

  predicate IntInRange(ty: Ty, n: int)
    requires IsInt(ty)
  {
    if IsSigned(ty) then -(Span(ty) as int) <= 2 * n < Span(ty) else 0 <= n < Span(ty)
  }

  /** The two's-complement bit pattern written for n (`to_le_bytes`). */
  function IntBits(ty: Ty, n: int): (u: nat)
    requires IsInt(ty) && IntInRange(ty, n)
    ensures u < Span(ty)
  {
    if n < 0 then n + Span(ty) else n
  }

  /** The value `LE::read_*` gives for a bit pattern. */
  function IntOfBits(ty: Ty, u: nat): int
    requires IsInt(ty)
  {
    if IsSigned(ty) && 2 * u >= Span(ty) then u - Span(ty) else u
  }

  // ---------------------------------------------------------------------
  // Unsigned LEB128 (bin.rs:44-55 and 83-95)

  /** `BinaryWriter::uleb`: 7-bit groups, least significant first, 0x80 on
      every byte but the last. */
  function UlebEncode(v: nat): (r: seq<byte>)
    ensures |r| >= 1
    decreases v
  {
    if v < 0x80 then [v] else [v % 0x80 + 0x80] + UlebEncode(v / 0x80)
  }

  /** `(g as u64) << shift` in a release build: the shift amount is taken
      modulo 64 and bits above bit 63 are lost. */
  function Shl64(g: nat, shift: nat): (r: nat)
    ensures r < U64_LIMIT
  {
    ShiftLeft(g % U64_LIMIT, shift % 64)
  }

  /** k one-bit left shifts of a u64, each dropping bit 63. */
  function ShiftLeft(x: nat, k: nat): (r: nat)
    requires x < U64_LIMIT
    ensures r < U64_LIMIT
  {
    if k == 0 then x else (2 * ShiftLeft(x, k - 1)) % U64_LIMIT
  }

  /** Shifting left by k multiplies by 2^k modulo 2^64. */
  lemma {:induction false} ShiftLeftIsMul(x: nat, k: nat)
    requires x < U64_LIMIT
    ensures ShiftLeft(x, k) == (x * Pow2(k)) % U64_LIMIT
  {
    if k > 0 {
      ShiftLeftIsMul(x, k - 1);
      var a := x * Pow2(k - 1);
      assert x * Pow2(k) == 2 * a;
      DoubleMod(a, U64_LIMIT);
    }
  }

  lemma DoubleMod(a: nat, m: nat)
    requires m > 0
    ensures (2 * (a % m)) % m == (2 * a) % m
  {
    var q := a / m;
    var r := a % m;
    assert a == q * m + r;
    var q2 := (2 * r) / m;
    var r2 := (2 * r) % m;
    assert 2 * r == q2 * m + r2;
    assert 2 * a == (2 * q + q2) * m + r2;
    ModUnique(2 * a, m, 2 * q + q2, r2);
  }

  /** The remainder is the unique r in [0, m) with z = q*m + r. */
  lemma ModUnique(z: int, m: int, q: int, r: int)
    requires m > 0 && 0 <= r < m && z == q * m + r
    ensures z % m == r
  {
    var q2 := z / m;
    var r2 := z % m;
    assert z == q2 * m + r2;
    assert (q - q2) * m == r2 - r;
    if q > q2 {
      MulAtLeast(q - q2, m);
    } else if q < q2 {
      MulAtLeast(q2 - q, m);
    }
  }

  lemma MulAtLeast(d: int, m: int)
    requires d >= 1 && m > 0
    ensures d * m >= m
  {
    assert d * m == m + (d - 1) * m;
  }

  lemma Pow2Is64()
    ensures Pow2(64) == U64_LIMIT
  {
    Pow2Values();
  }

  /** The loop of `BinaryReader::uleb` from accumulator `result` and shift
      `shift`: `result |= ((byte & 0x7f) as u64) << shift`, stop at a byte
      without 0x80, otherwise `shift += 7`. */
  function UlebLoop(s: seq<byte>, result: u64, shift: nat): (r: Result<(u64, seq<byte>)>)
    decreases |s|
  {
    if s == [] then Err(UnexpectedEof)
    else
      var g := Shl64(s[0] % 0x80, shift);
      var next := BitOr(result, g);
      assert next < U64_LIMIT by { Pow2Is64(); BitOrBound(result, g, 64); }
      if s[0] < 0x80 then Ok((next, s[1..])) else UlebLoop(s[1..], next, shift + 7)
  }

  function UlebDecode(s: seq<byte>): Result<(u64, seq<byte>)>
  {
    UlebLoop(s, 0, 0)
  }

  // ---------------------------------------------------------------------
  // Typing of values (what the Rust type system guarantees of a value)

  predicate DistinctKeys(es: seq<(Value, Value)>)
  {
    forall i, j :: 0 <= i < j < |es| ==> es[i].0 != es[j].0
  }

  predicate HasType(v: Value, ty: Ty)
    decreases ty
  {
    match ty
    case TUnit => v.VUnit?
    case TBool => v.VBool?
    case TString => v.VStr? && ValidUtf8(v.bytes) && |v.bytes| < U64_LIMIT
    case TVarchar(n) => v.VStr? && ValidUtf8(v.bytes) && |v.bytes| <= n && |v.bytes| < U64_LIMIT
    case TRoomId => v.VStr? && Varchar.RoomIdValid(v.bytes)
    case TPair(a, b) => v.VPair? && HasType(v.fst, a) && HasType(v.snd, b)
    case TOption(t) => v.VNone? || (v.VSome? && HasType(v.some, t))
    case TResult(a, b) => (v.VOk? && HasType(v.okv, a)) || (v.VErr? && HasType(v.errv, b))
    case TVec(t) =>
      && v.VList? && |v.items| < U64_LIMIT
      && forall i :: 0 <= i < |v.items| ==> HasType(v.items[i], t)
    case TMap(k, t) =>
      && v.VMap? && |v.entries| < U64_LIMIT && DistinctKeys(v.entries)
      && forall i :: 0 <= i < |v.entries| ==> HasType(v.entries[i].0, k) && HasType(v.entries[i].1, t)
    case TUuid => v.VUuid?
    case TCompactPos => v.VPos?
    case TArc(t) => HasType(v, t)
    case TStruct(fs) =>
      && v.VStruct? && |v.fields| == |fs|
      && forall i :: 0 <= i < |fs| ==> HasType(v.fields[i], fs[i])
    case TEnum(vs) =>
      && v.VEnum? && |vs| <= 0x100 && v.tag < |vs|
      && HasType(v.payload, vs[v.tag])
    case _ => v.VInt? && IntInRange(ty, v.n)
  }

  // ---------------------------------------------------------------------
  // Encoding (`write_binary`)

  /** String, Varchar and RoomId on the wire: the ULEB byte length, then the
      bytes. */
  function EncodeText(bytes: seq<byte>): seq<byte>
  {
    UlebEncode(|bytes|) + bytes
  }

  function Encode(ty: Ty, v: Value): seq<byte>
    requires HasType(v, ty)
    decreases ty, 1, 0
  {
    match ty
    case TUnit => []
    case TBool => [if v.b then 1 else 0]
    case TString => EncodeText(v.bytes)
    case TVarchar(_) => EncodeText(v.bytes)
    case TRoomId => EncodeText(v.bytes)
    case TPair(a, b) => Encode(a, v.fst) + Encode(b, v.snd)
    case TOption(t) => if v.VSome? then [1] + Encode(t, v.some) else [0]
    case TResult(a, b) => if v.VOk? then [1] + Encode(a, v.okv) else [0] + Encode(b, v.errv)
    case TVec(_) => UlebEncode(|v.items|) + EncodeItems(ty, v.items)
    case TMap(_, _) => UlebEncode(|v.entries|) + EncodeEntries(ty, v.entries)
    case TUuid => LeBytes(v.low, 8) + LeBytes(v.high, 8)
    case TCompactPos => LeBytes(v.xBits, 2) + LeBytes(v.yBits, 2)
    case TArc(t) => Encode(t, v)
    case TStruct(_) => EncodeFields(ty, v.fields, 0)
    case TEnum(vs) => [v.tag] + Encode(vs[v.tag], v.payload)
    case _ => LeBytes(IntBits(ty, v.n), Width(ty))
  }

  /** The elements of a Vec, one after another (`BinaryWriter::array`). */
  function EncodeItems(ty: Ty, items: seq<Value>): seq<byte>
    requires ty.TVec?
    requires forall i :: 0 <= i < |items| ==> HasType(items[i], ty.elem)
    decreases ty, 0, |items|
  {
    if items == [] then [] else Encode(ty.elem, items[0]) + EncodeItems(ty, items[1..])
  }

  /** The key-value pairs of a HashMap, key then value, in iteration order. */
  function EncodeEntries(ty: Ty, es: seq<(Value, Value)>): seq<byte>
    requires ty.TMap?
    requires forall i :: 0 <= i < |es| ==> HasType(es[i].0, ty.key) && HasType(es[i].1, ty.val)
    decreases ty, 0, |es|
  {
    if es == [] then []
    else Encode(ty.key, es[0].0) + Encode(ty.val, es[0].1) + EncodeEntries(ty, es[1..])
  }

  /** Fields i.. of a struct in declaration order, no tag and no length. */
  function EncodeFields(ty: Ty, vs: seq<Value>, i: nat): seq<byte>
    requires ty.TStruct? && |vs| == |ty.fields| && i <= |vs|
    requires forall j {:trigger HasType(vs[j], ty.fields[j])} :: i <= j < |vs| ==> HasType(vs[j], ty.fields[j])
    decreases ty, 0, |vs| - i
  {
    if i == |vs| then [] else Encode(ty.fields[i], vs[i]) + EncodeFields(ty, vs, i + 1)
  }

  // ---------------------------------------------------------------------
  // Decoding (`read_binary`)

  /** `t` is what is left of `s` after some prefix was consumed. */
  predicate SuffixOf(t: seq<byte>, s: seq<byte>)
  {
    |t| <= |s| && t == s[|s| - |t|..]
  }

  lemma SuffixTrans(a: seq<byte>, b: seq<byte>, c: seq<byte>)
    requires SuffixOf(a, b) && SuffixOf(b, c)
    ensures SuffixOf(a, c)
  {
    assert c[|c| - |b|..][|b| - |a|..] == c[|c| - |a|..];
  }

  lemma UlebLoopSuffix(s: seq<byte>, result: u64, shift: nat)
    ensures UlebLoop(s, result, shift).Ok? ==> SuffixOf(UlebLoop(s, result, shift).value.1, s)
    decreases |s|
  {
    if s != [] && s[0] >= 0x80 {
      var g := Shl64(s[0] % 0x80, shift);
      var next := BitOr(result, g);
      assert next < U64_LIMIT by { Pow2Is64(); BitOrBound(result, g, 64); }
      UlebLoopSuffix(s[1..], next, shift + 7);
      if UlebLoop(s, result, shift).Ok? {
        SuffixTrans(UlebLoop(s, result, shift).value.1, s[1..], s);
      }
    }
  }

  /** `take(n)` as a function: the next n bytes and what follows them. */
  function Take(s: seq<byte>, n: nat): (r: Result<(seq<byte>, seq<byte>)>)
    ensures r.Ok? <==> n <= |s|
    ensures r.Ok? ==> r.value.0 == s[..n] && r.value.1 == s[n..]
  {
    if n > |s| then Err(UnexpectedEof) else Ok((s[..n], s[n..]))
  }

  /** String contents after the ULEB length: `take(len)` then
      `from_utf8_lossy`. */
  function DecodeText(s: seq<byte>, len: nat): (r: Result<(Value, seq<byte>)>)
    ensures r.Ok? <==> len <= |s|
    ensures r.Ok? ==> r.value.1 == s[len..]
  {
    match Take(s, len)
    case Err(e) => Err(e)
    case Ok((raw, rest)) => Ok((VStr(Lossy(raw)), rest))
  }

  /** Reading `len` bytes after the ULEB leaves a suffix of the input. */
  lemma TextSuffix(s: seq<byte>, s1: seq<byte>, len: nat)
    requires SuffixOf(s1, s)
    ensures DecodeText(s1, len).Ok? ==> SuffixOf(DecodeText(s1, len).value.1, s)
  {
    if len <= |s1| {
      SuffixTrans(s1[len..], s1, s);
    }
  }

  /** `Varchar::<n>::read_binary`: the length is checked against n before
      any payload byte is taken. */
  function DecodeVarchar(n: nat, s: seq<byte>): (r: Result<(Value, seq<byte>)>)
    ensures r.Ok? ==> SuffixOf(r.value.1, s)
  {
    UlebLoopSuffix(s, 0, 0);
    match UlebDecode(s)
    case Err(e) => Err(e)
    case Ok((len, s1)) =>
      if len > n then Err(StringTooLong) else TextSuffix(s, s1, len); DecodeText(s1, len)
  }

  /** `read_binary` of the type ty on the remaining input s. */
  function Decode(ty: Ty, s: seq<byte>): (r: Result<(Value, seq<byte>)>)
    ensures r.Ok? ==> SuffixOf(r.value.1, s)
    decreases ty, 2, 0
  {
    match ty
    case TUnit => Ok((VUnit, s))
    case TBool => DecodeBool(s)
    case TString => DecodeString(s)
    case TVarchar(n) => DecodeVarchar(n, s)
    case TRoomId => DecodeRoomId(s)
    case TPair(_, _) => DecodePair(ty, s)
    case TOption(_) => DecodeOption(ty, s)
    case TResult(_, _) => DecodeResult(ty, s)
    case TVec(_) => DecodeVec(ty, s)
    case TMap(_, _) => DecodeMap(ty, s)
    case TUuid => DecodeUuid(s)
    case TCompactPos => DecodePos(s)
    case TArc(t) => Decode(t, s)
    case TStruct(_) => DecodeStruct(ty, s)
    case TEnum(_) => DecodeEnum(ty, s)
    case _ => DecodeInt(ty, s)
  }

  /** `r.byte()? == 1`: only the byte 1 reads as true. */
  function DecodeBool(s: seq<byte>): (r: Result<(Value, seq<byte>)>)
    ensures r.Ok? ==> SuffixOf(r.value.1, s)
  {
    if s == [] then Err(UnexpectedEof) else Ok((VBool(s[0] == 1), s[1..]))
  }

  /** `String::read_binary`: ULEB length, then that many bytes, lossily. */
  function DecodeString(s: seq<byte>): (r: Result<(Value, seq<byte>)>)
    ensures r.Ok? ==> SuffixOf(r.value.1, s)
  {
    UlebLoopSuffix(s, 0, 0);
    match UlebDecode(s)
    case Err(e) => Err(e)
    case Ok((len, s1)) => TextSuffix(s, s1, len); DecodeText(s1, len)
  }

  /** `RoomId::read_binary`: a Varchar<20>, then `validate`. */
  function DecodeRoomId(s: seq<byte>): (r: Result<(Value, seq<byte>)>)
    ensures r.Ok? ==> SuffixOf(r.value.1, s)
  {
    match DecodeVarchar(Varchar.ROOM_ID_MAX, s)
    case Err(e) => Err(e)
    case Ok((v, s1)) =>
      match Varchar.Validate(v.bytes)
      case Err(e) => Err(e)
      case Ok(_) => Ok((v, s1))
  }

  /** `(A, B)`: first component, then second. */
  function DecodePair(ty: Ty, s: seq<byte>): (r: Result<(Value, seq<byte>)>)
    requires ty.TPair?
    ensures r.Ok? ==> SuffixOf(r.value.1, s)
    decreases ty, 1, 0
  {
    match Decode(ty.fst, s)
    case Err(e) => Err(e)
    case Ok((x, s1)) =>
      match Decode(ty.snd, s1)
      case Err(e) => Err(e)
      case Ok((y, s2)) => SuffixTrans(s2, s1, s); Ok((VPair(x, y), s2))
  }

  /** `Option<T>`: a bool, then the value when it is true. */
  function DecodeOption(ty: Ty, s: seq<byte>): (r: Result<(Value, seq<byte>)>)
    requires ty.TOption?
    ensures r.Ok? ==> SuffixOf(r.value.1, s)
    decreases ty, 1, 0
  {
    if s == [] then Err(UnexpectedEof)
    else if s[0] != 1 then Ok((VNone, s[1..]))
    else
      match Decode(ty.inner, s[1..])
      case Err(e) => Err(e)
      case Ok((x, s1)) => SuffixTrans(s1, s[1..], s); Ok((VSome(x), s1))
  }

  /** `Result<A, B>`: a bool, then the Ok value when true, the Err value
      otherwise. */
  function DecodeResult(ty: Ty, s: seq<byte>): (r: Result<(Value, seq<byte>)>)
    requires ty.TResult?
    ensures r.Ok? ==> SuffixOf(r.value.1, s)
    decreases ty, 1, 0
  {
    if s == [] then Err(UnexpectedEof)
    else
      match Decode(if s[0] == 1 then ty.ok else ty.err, s[1..])
      case Err(e) => Err(e)
      case Ok((x, s1)) =>
        SuffixTrans(s1, s[1..], s);
        Ok((if s[0] == 1 then VOk(x) else VErr(x), s1))
  }

  /** `BinaryReader::array`: ULEB count, then that many elements. */
  function DecodeVec(ty: Ty, s: seq<byte>): (r: Result<(Value, seq<byte>)>)
    requires ty.TVec?
    ensures r.Ok? ==> SuffixOf(r.value.1, s)
    decreases ty, 1, 0
  {
    UlebLoopSuffix(s, 0, 0);
    match UlebDecode(s)
    case Err(e) => Err(e)
    case Ok((n, s1)) =>
      match DecodeItems(ty, n, s1)
      case Err(e) => Err(e)
      case Ok((xs, s2)) => SuffixTrans(s2, s1, s); Ok((VList(xs), s2))
  }

  /** `HashMap<K, V>`: ULEB count, then that many (K, V) pairs collected. */
  function DecodeMap(ty: Ty, s: seq<byte>): (r: Result<(Value, seq<byte>)>)
    requires ty.TMap?
    ensures r.Ok? ==> SuffixOf(r.value.1, s)
    decreases ty, 1, 0
  {
    UlebLoopSuffix(s, 0, 0);
    match UlebDecode(s)
    case Err(e) => Err(e)
    case Ok((n, s1)) =>
      match DecodeEntries(ty, n, s1)
      case Err(e) => Err(e)
      case Ok((es, s2)) => SuffixTrans(s2, s1, s); Ok((VMap(Collect(es)), s2))
  }

  /** `Uuid`: the low u64, then the high u64. */
  function DecodeUuid(s: seq<byte>): (r: Result<(Value, seq<byte>)>)
    ensures r.Ok? ==> SuffixOf(r.value.1, s)
  {
    if |s| < 16 then Err(UnexpectedEof)
    else
      assert LeValue(s[..8]) < U64_LIMIT && LeValue(s[8..16]) < U64_LIMIT by { Pow2Is64(); }
      Ok((VUuid(LeValue(s[8..16]), LeValue(s[..8])), s[16..]))
  }

  /** `CompactPos`: the u16 bits of x, then of y. */
  function DecodePos(s: seq<byte>): (r: Result<(Value, seq<byte>)>)
    ensures r.Ok? ==> SuffixOf(r.value.1, s)
  {
    if |s| < 4 then Err(UnexpectedEof)
    else
      assert LeValue(s[..2]) < 0x1_0000 && LeValue(s[2..4]) < 0x1_0000 by {
        Pow2Values();
      }
      Ok((VPos(LeValue(s[..2]), LeValue(s[2..4])), s[4..]))
  }

  /** A derived struct: its fields in declaration order. */
  function DecodeStruct(ty: Ty, s: seq<byte>): (r: Result<(Value, seq<byte>)>)
    requires ty.TStruct?
    ensures r.Ok? ==> SuffixOf(r.value.1, s)
    decreases ty, 1, 0
  {
    match DecodeFields(ty, 0, s)
    case Err(e) => Err(e)
    case Ok((xs, s1)) => Ok((VStruct(xs), s1))
  }

  /** A derived enum: a u8 variant index, "invalid enum" when it is not
      below the number of variants, then that variant's fields. */
  function DecodeEnum(ty: Ty, s: seq<byte>): (r: Result<(Value, seq<byte>)>)
    requires ty.TEnum?
    ensures r.Ok? ==> SuffixOf(r.value.1, s)
    decreases ty, 1, 0
  {
    if s == [] then Err(UnexpectedEof)
    else if s[0] >= |ty.variants| then Err(InvalidEnum(s[0]))
    else
      match Decode(ty.variants[s[0]], s[1..])
      case Err(e) => Err(e)
      case Ok((x, s1)) => SuffixTrans(s1, s[1..], s); Ok((VEnum(s[0], x), s1))
  }

  /** A fixed-width integer: `take(width)` read little-endian. */
  function DecodeInt(ty: Ty, s: seq<byte>): (r: Result<(Value, seq<byte>)>)
    requires IsInt(ty)
    ensures r.Ok? ==> SuffixOf(r.value.1, s)
  {
    if |s| < Width(ty) then Err(UnexpectedEof)
    else Ok((VInt(IntOfBits(ty, LeValue(s[..Width(ty)]))), s[Width(ty)..]))
  }

  /** n elements (`(0..n).map(|_| self.read()).collect()`), stopping at the
      first failure. */
  function DecodeItems(ty: Ty, n: nat, s: seq<byte>): (r: Result<(seq<Value>, seq<byte>)>)
    requires ty.TVec?
    ensures r.Ok? ==> SuffixOf(r.value.1, s) && |r.value.0| == n
    decreases ty, 0, n
  {
    if n == 0 then Ok(([], s))
    else
      match Decode(ty.elem, s)
      case Err(e) => Err(e)
      case Ok((x, s1)) =>
        match DecodeItems(ty, n - 1, s1)
        case Err(e) => Err(e)
        case Ok((xs, s2)) => SuffixTrans(s2, s1, s); Ok(([x] + xs, s2))
  }

  /** One `(K, V)` pair of a map: the key, then the value. */
  function DecodeEntry(ty: Ty, s: seq<byte>): (r: Result<((Value, Value), seq<byte>)>)
    requires ty.TMap?
    ensures r.Ok? ==> SuffixOf(r.value.1, s)
    decreases ty, 0, 0
  {
    match Decode(ty.key, s)
    case Err(e) => Err(e)
    case Ok((k, s1)) =>
      match Decode(ty.val, s1)
      case Err(e) => Err(e)
      case Ok((x, s2)) => SuffixTrans(s2, s1, s); Ok(((k, x), s2))
  }

  /** n key-value pairs, in the order they arrive. */
  function DecodeEntries(ty: Ty, n: nat, s: seq<byte>): (r: Result<(seq<(Value, Value)>, seq<byte>)>)
    requires ty.TMap?
    ensures r.Ok? ==> SuffixOf(r.value.1, s) && |r.value.0| == n
    decreases ty, 0, n
  {
    if n == 0 then Ok(([], s))
    else
      match DecodeEntry(ty, s)
      case Err(e) => Err(e)
      case Ok((e, s1)) =>
        match DecodeEntries(ty, n - 1, s1)
        case Err(err) => Err(err)
        case Ok((es, s2)) => SuffixTrans(s2, s1, s); Ok(([e] + es, s2))
  }

  /** Fields i.. of a struct, in declaration order. */
  function DecodeFields(ty: Ty, i: nat, s: seq<byte>): (r: Result<(seq<Value>, seq<byte>)>)
    requires ty.TStruct? && i <= |ty.fields|
    ensures r.Ok? ==> SuffixOf(r.value.1, s) && |r.value.0| == |ty.fields| - i
    decreases ty, 0, |ty.fields| - i
  {
    if i == |ty.fields| then Ok(([], s))
    else
      match Decode(ty.fields[i], s)
      case Err(e) => Err(e)
      case Ok((x, s1)) =>
        match DecodeFields(ty, i + 1, s1)
        case Err(e) => Err(e)
        case Ok((xs, s2)) => SuffixTrans(s2, s1, s); Ok(([x] + xs, s2))
  }

  // ---------------------------------------------------------------------
  // Collecting pairs into a HashMap

  /** Index of key k among the entries, or |es| when absent. */
  function KeyIndex(es: seq<(Value, Value)>, k: Value): (i: nat)
    ensures i <= |es|
    ensures i < |es| ==> es[i].0 == k
    ensures forall j :: 0 <= j < i ==> es[j].0 != k
  {
    if es == [] then 0
    else if es[0].0 == k then 0
    else 1 + KeyIndex(es[1..], k)
  }

  /** `HashMap::insert`: a new key is added, an existing key's value is
      replaced. */
  function Insert(es: seq<(Value, Value)>, e: (Value, Value)): seq<(Value, Value)>
  {
    var i := KeyIndex(es, e.0);
    if i < |es| then es[i := e] else es + [e]
  }

  /** `collect()` into a HashMap: pairs inserted in arrival order. */
  function Collect(es: seq<(Value, Value)>): seq<(Value, Value)>
  {
    if es == [] then [] else Insert(Collect(es[..|es| - 1]), es[|es| - 1])
  }

  /** Collecting one more pair inserts it into what was collected so far. */
  lemma CollectSnoc(es: seq<(Value, Value)>, e: (Value, Value))
    ensures Collect(es + [e]) == Insert(Collect(es), e)
  {
    assert (es + [e])[..|es|] == es;
  }

  /** Taking n bytes fails with an end of input exactly when fewer than n
      are left, and otherwise cuts the input in two, the first part n
      bytes long. */
  lemma TakeSplits(s: seq<byte>, n: nat)
    ensures Take(s, n).Err? <==> n > |s|
    ensures Take(s, n).Err? ==> Take(s, n).error == UnexpectedEof
    ensures Take(s, n).Ok? ==> |Take(s, n).value.0| == n && Take(s, n).value.0 + Take(s, n).value.1 == s
  {
    if n <= |s| {
      assert s[..n] + s[n..] == s;
    }
  }
}
