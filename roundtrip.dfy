/** What the codec of bin.rs promises: every well-typed value decodes back
    from its encoding whatever follows it, plus the byte-level facts that the
    wire format depends on (LEB128 layout, tags, field order). */
module RoundTrip {
  import opened Wire
  import opened Utf8
  import Varchar
  import opened Codec

  // ---------------------------------------------------------------------
  // LEB128

  lemma MulMonotone(a: nat, b: nat, p: nat)
    requires a <= b
    ensures a * p <= b * p
  {
    assert b * p == a * p + (b - a) * p;
  }

  lemma MulSplit(g: nat, q: nat, p: nat)
    ensures (g + 0x80 * q) * p == g * p + q * (0x80 * p)
  {
    assert (g + 0x80 * q) * p == g * p + (0x80 * q) * p;
  }

  /** Arithmetic of one reader step: the low group sits below the next
      shift and the groups add up to v. */
  lemma UlebStepArith(v: nat, p: nat, result: nat)
    requires p >= 1 && result < p
    ensures (v % 0x80) * p <= v * p
    ensures result + (v % 0x80) * p < 0x80 * p
    ensures (v % 0x80) * p + (v / 0x80) * (0x80 * p) == v * p
    ensures v >= 0x80 ==> 0x80 * p <= v * p
  {
    var g := v % 0x80;
    var q := v / 0x80;
    assert v == g + 0x80 * q;
    MulSplit(g, q, p);
    MulMonotone(g, v, p);
    MulMonotone(g, 0x7F, p);
    if v >= 0x80 {
      MulMonotone(0x80, v, p);
    }
  }

  /** The first byte of an encoding and what follows it. */
  lemma UlebHead(v: nat, rest: seq<byte>)
    ensures (UlebEncode(v) + rest)[0] % 0x80 == v % 0x80
    ensures (UlebEncode(v) + rest)[0] < 0x80 <==> v < 0x80
    ensures v < 0x80 ==> (UlebEncode(v) + rest)[1..] == rest
    ensures v >= 0x80 ==> (UlebEncode(v) + rest)[1..] == UlebEncode(v / 0x80) + rest
  {
    var e := UlebEncode(v);
    var head := if v < 0x80 then v else v % 0x80 + 0x80;
    var tail := if v < 0x80 then [] else UlebEncode(v / 0x80);
    assert e == [head] + tail;
    assert (e + rest)[0] == head;
    assert (e + rest)[1..] == tail + rest;
  }

  /** One turn of the reader's loop on a byte whose low group is g. */
  lemma UlebLoopStep(s: seq<byte>, result: u64, shift: nat, g: nat)
    requires s != [] && s[0] % 0x80 == g && shift < 64
    requires result < Pow2(shift) && result + g * Pow2(shift) < U64_LIMIT
    ensures result + g * Pow2(shift) < U64_LIMIT
    ensures s[0] < 0x80 ==> UlebLoop(s, result, shift) == Ok((result + g * Pow2(shift), s[1..]))
    ensures s[0] >= 0x80 ==> UlebLoop(s, result, shift) == UlebLoop(s[1..], result + g * Pow2(shift), shift + 7)
  {
    var x := g * Pow2(shift);
    assert shift % 64 == shift;
    assert g % U64_LIMIT == g;
    assert x % U64_LIMIT == x by { ModSmall(x, U64_LIMIT); }
    ShiftLeftIsMul(g, shift);
    assert Shl64(g, shift) == x;
    BitOrDisjoint(result, g, shift);
  }

  lemma ModSmall(x: nat, m: nat)
    requires x < m
    ensures x % m == x
  {
  }

  /** The last byte of an encoding ends the reader's loop. */
  lemma UlebLastByte(v: nat, rest: seq<byte>, result: nat, shift: nat)
    requires v < 0x80 && shift < 64 && result < Pow2(shift)
    requires result + v * Pow2(shift) < U64_LIMIT
    ensures UlebLoop(UlebEncode(v) + rest, result, shift) == Ok((result + v * Pow2(shift), rest))
  {
    UlebHead(v, rest);
    UlebLoopStep(UlebEncode(v) + rest, result, shift, v % 0x80);
  }

  /** A byte with 0x80 set adds its group and hands the rest of the
      encoding to the next turn, at shift + 7 with accumulator `next`. */
  lemma UlebInnerByte(v: nat, rest: seq<byte>, result: nat, shift: nat) returns (next: nat)
    requires v >= 0x80 && shift < 64 && result < Pow2(shift)
    requires result + v * Pow2(shift) < U64_LIMIT
    ensures shift + 7 < 64 && next < Pow2(shift + 7)
    ensures next + (v / 0x80) * Pow2(shift + 7) == result + v * Pow2(shift)
    ensures UlebLoop(UlebEncode(v) + rest, result, shift) == UlebLoop(UlebEncode(v / 0x80) + rest, next, shift + 7)
  {
    next := result + (v % 0x80) * Pow2(shift);
    UlebStepArith(v, Pow2(shift), result);
    UlebHead(v, rest);
    UlebLoopStep(UlebEncode(v) + rest, result, shift, v % 0x80);
    UlebNextShift(v, result, shift);
  }

  /** The ULEB written for v is read back as v, for every u64, from any shift
      position the reader's loop can be at. */
  lemma {:induction false} UlebLoopOfEncode(v: nat, rest: seq<byte>, result: nat, shift: nat)
    requires shift < 64 && result < Pow2(shift)
    requires result + v * Pow2(shift) < U64_LIMIT
    ensures UlebLoop(UlebEncode(v) + rest, result, shift) == Ok((result + v * Pow2(shift), rest))
    decreases v
  {
    if v < 0x80 {
      UlebLastByte(v, rest, result, shift);
    } else {
      var next := UlebInnerByte(v, rest, result, shift);
      UlebLoopOfEncode(v / 0x80, rest, next, shift + 7);
    }
  }

  /** After a byte with 0x80 set the loop continues at shift + 7, still
      below 64, with an accumulator below the new shift. */
  lemma UlebNextShift(v: nat, result: nat, shift: nat)
    requires v >= 0x80 && result < Pow2(shift)
    requires result + v * Pow2(shift) < U64_LIMIT
    ensures shift + 7 < 64
    ensures result + (v % 0x80) * Pow2(shift) < Pow2(shift + 7)
    ensures result + (v % 0x80) * Pow2(shift) + (v / 0x80) * Pow2(shift + 7) == result + v * Pow2(shift)
  {
    var p := Pow2(shift);
    var q := v / 0x80;
    var p7 := Pow2(shift + 7);
    UlebStepArith(v, p, result);
    assert p7 == 0x80 * p by { Pow2Add(shift, 7); }
    assert q * p7 == q * (0x80 * p);
    assert shift + 7 < 64 by {
      assert p7 < U64_LIMIT;
      Pow2Is64();
      if shift + 7 >= 64 {
        Pow2Monotone(64, shift + 7);
      }
    }
  }

  lemma UlebRoundTrip(v: nat, rest: seq<byte>)
    requires v < U64_LIMIT
    ensures UlebDecode(UlebEncode(v) + rest) == Ok((v, rest))
  {
    UlebLoopOfEncode(v, rest, 0, 0);
  }

  /** Layout of `BinaryWriter::uleb`: 0x80 is set on every byte but the
      last, and a u64 takes between 1 and 10 bytes. */
  lemma {:induction false} UlebLayout(v: nat)
    ensures forall i :: 0 <= i < |UlebEncode(v)| - 1 ==> UlebEncode(v)[i] >= 0x80
    ensures UlebEncode(v)[|UlebEncode(v)| - 1] < 0x80
    ensures v < Pow2(7 * |UlebEncode(v)|)
    ensures v > 0 ==> Pow2(7 * (|UlebEncode(v)| - 1)) <= v
    decreases v
  {
    if v >= 0x80 {
      UlebLayout(v / 0x80);
      var n := |UlebEncode(v / 0x80)|;
      assert Pow2(7 * (n + 1)) == 0x80 * Pow2(7 * n) by { Pow2Add(7, 7 * n); }
      if n > 0 {
        assert Pow2(7 * n) == 0x80 * Pow2(7 * (n - 1)) by { Pow2Add(7, 7 * (n - 1)); }
      }
    }
  }

  lemma UlebLength(v: nat)
    requires v < U64_LIMIT
    ensures 1 <= |UlebEncode(v)| <= 10
  {
    UlebLayout(v);
    var n := |UlebEncode(v)|;
    if n > 10 {
      Pow2Monotone(70, 7 * (n - 1));
      assert Pow2(70) == Pow2(64) * Pow2(6) by { Pow2Add(64, 6); }
      Pow2Is64();
    }
  }

  // ---------------------------------------------------------------------
  // HashMap collection

  /** Collecting pairs whose keys are already distinct keeps them as they are. */
  lemma {:induction false} CollectDistinct(es: seq<(Value, Value)>)
    requires DistinctKeys(es)
    ensures Collect(es) == es
    decreases |es|
  {
    if es != [] {
      var init := es[..|es| - 1];
      assert DistinctKeys(init);
      CollectDistinct(init);
      assert KeyIndex(init, es[|es| - 1].0) == |init|;
      assert init + [es[|es| - 1]] == es;
    }
  }

  /** A repeated key in the input keeps its first position and takes the last
      value sent for it (`HashMap::insert` replaces). */
  lemma CollectRepeat(k: Value, a: Value, b: Value)
    ensures Collect([(k, a), (k, b)]) == [(k, b)]
  {
    assert [(k, a), (k, b)][..1] == [(k, a)];
    assert [(k, a)][..0] == [];
    assert Collect([(k, a)]) == Insert([], (k, a)) == [(k, a)];
    assert KeyIndex([(k, a)], k) == 0;
  }

  // ---------------------------------------------------------------------
  // Round trip

  lemma {:induction false} IntRoundTrip(ty: Ty, n: int)
    requires IsInt(ty) && IntInRange(ty, n)
    ensures IntOfBits(ty, LeValue(LeBytes(IntBits(ty, n), Width(ty)))) == n
  {
    SpanIsPow2(ty);
    LeRoundTrip(IntBits(ty, n), Width(ty));
  }

  lemma {:induction false} TextRoundTrip(bytes: seq<byte>, rest: seq<byte>)
    requires ValidUtf8(bytes)
    ensures DecodeText(bytes + rest, |bytes|) == Ok((VStr(bytes), rest))
  {
    LossyOfValid(bytes);
    assert (bytes + rest)[..|bytes|] == bytes;
    assert (bytes + rest)[|bytes|..] == rest;
  }

  /** `decode(encode(v))` gives back v and leaves exactly what followed. */
  lemma {:induction false} Decodes(ty: Ty, v: Value, rest: seq<byte>)
    requires HasType(v, ty)
    ensures Decode(ty, Encode(ty, v) + rest) == Ok((v, rest))
    decreases ty, 2, 0
  {
    if ty.TPair? || ty.TOption? || ty.TResult? || ty.TVec? || ty.TMap? || ty.TArc? || ty.TStruct? || ty.TEnum? {
      NestedDecodes(ty, v, rest);
    } else {
      LeafDecodes(ty, v, rest);
    }
  }

  /** The round trip for the types built from other types. */
  lemma {:induction false} NestedDecodes(ty: Ty, v: Value, rest: seq<byte>)
    requires HasType(v, ty)
    requires ty.TPair? || ty.TOption? || ty.TResult? || ty.TVec? || ty.TMap? || ty.TArc? || ty.TStruct? || ty.TEnum?
    ensures Decode(ty, Encode(ty, v) + rest) == Ok((v, rest))
    decreases ty, 1, 1
  {
    match ty
    case TPair(_, _) => PairDecodes(ty, v, rest);
    case TOption(_) => OptionDecodes(ty, v, rest);
    case TResult(_, _) => ResultDecodes(ty, v, rest);
    case TVec(_) => VecDecodes(ty, v, rest);
    case TMap(_, _) => MapDecodes(ty, v, rest);
    case TArc(t) => Decodes(t, v, rest);
    case TStruct(fs) =>
      FieldsDecode(ty, v.fields, 0, rest);
      assert v.fields[0..] == v.fields;
    case TEnum(_) => EnumDecodes(ty, v, rest);
  }

  /** The round trip for the types that contain no other type. */
  lemma LeafDecodes(ty: Ty, v: Value, rest: seq<byte>)
    requires HasType(v, ty)
    requires !(ty.TPair? || ty.TOption? || ty.TResult? || ty.TVec? || ty.TMap? || ty.TArc? || ty.TStruct? || ty.TEnum?)
    ensures Decode(ty, Encode(ty, v) + rest) == Ok((v, rest))
  {
    match ty
    case TUnit =>
    case TBool =>
      var s := Encode(ty, v) + rest;
      assert s[0] == (if v.b then 1 else 0) && s[1..] == rest;
    case TString => StringDecodes(v.bytes, rest);
    case TVarchar(n) => VarcharDecodes(n, v.bytes, rest);
    case TRoomId => RoomIdDecodes(v.bytes, rest);
    case TUuid => UuidDecodes(v, rest);
    case TCompactPos => PosDecodes(v, rest);
    case _ => IntDecodes(ty, v, rest);
  }

  /** The length prefix of an encoded text reads back as its byte count. */
  lemma TextLength(bytes: seq<byte>, rest: seq<byte>)
    requires |bytes| < U64_LIMIT
    ensures UlebDecode(EncodeText(bytes) + rest) == Ok((|bytes|, bytes + rest))
  {
    assert EncodeText(bytes) + rest == UlebEncode(|bytes|) + (bytes + rest);
    UlebRoundTrip(|bytes|, bytes + rest);
  }

  lemma StringDecodes(bytes: seq<byte>, rest: seq<byte>)
    requires ValidUtf8(bytes) && |bytes| < U64_LIMIT
    ensures DecodeString(EncodeText(bytes) + rest) == Ok((VStr(bytes), rest))
  {
    TextLength(bytes, rest);
    TextRoundTrip(bytes, rest);
  }

  lemma VarcharDecodes(n: nat, bytes: seq<byte>, rest: seq<byte>)
    requires ValidUtf8(bytes) && |bytes| <= n && |bytes| < U64_LIMIT
    ensures DecodeVarchar(n, EncodeText(bytes) + rest) == Ok((VStr(bytes), rest))
  {
    TextLength(bytes, rest);
    TextRoundTrip(bytes, rest);
  }

  lemma RoomIdDecodes(bytes: seq<byte>, rest: seq<byte>)
    requires Varchar.RoomIdValid(bytes)
    ensures DecodeRoomId(EncodeText(bytes) + rest) == Ok((VStr(bytes), rest))
  {
    AsciiOfRoomId(bytes);
    AsciiIsValid(bytes);
    VarcharDecodes(Varchar.ROOM_ID_MAX, bytes, rest);
  }

  lemma {:induction false} PairDecodes(ty: Ty, v: Value, rest: seq<byte>)
    requires ty.TPair? && HasType(v, ty)
    ensures Decode(ty, Encode(ty, v) + rest) == Ok((v, rest))
    decreases ty, 1, 0
  {
    var tail := Encode(ty.snd, v.snd) + rest;
    assert Encode(ty, v) + rest == Encode(ty.fst, v.fst) + tail;
    Decodes(ty.fst, v.fst, tail);
    Decodes(ty.snd, v.snd, rest);
  }

  lemma {:induction false} OptionDecodes(ty: Ty, v: Value, rest: seq<byte>)
    requires ty.TOption? && HasType(v, ty)
    ensures Decode(ty, Encode(ty, v) + rest) == Ok((v, rest))
    decreases ty, 1, 0
  {
    var s := Encode(ty, v) + rest;
    if v.VSome? {
      assert s[0] == 1 && s[1..] == Encode(ty.inner, v.some) + rest;
      Decodes(ty.inner, v.some, rest);
    } else {
      assert s[0] == 0 && s[1..] == rest;
    }
  }

  lemma {:induction false} ResultDecodes(ty: Ty, v: Value, rest: seq<byte>)
    requires ty.TResult? && HasType(v, ty)
    ensures Decode(ty, Encode(ty, v) + rest) == Ok((v, rest))
    decreases ty, 1, 0
  {
    var s := Encode(ty, v) + rest;
    if v.VOk? {
      assert s[0] == 1 && s[1..] == Encode(ty.ok, v.okv) + rest;
      Decodes(ty.ok, v.okv, rest);
    } else {
      assert s[0] == 0 && s[1..] == Encode(ty.err, v.errv) + rest;
      Decodes(ty.err, v.errv, rest);
    }
  }

  lemma {:induction false} VecDecodes(ty: Ty, v: Value, rest: seq<byte>)
    requires ty.TVec? && HasType(v, ty)
    ensures Decode(ty, Encode(ty, v) + rest) == Ok((v, rest))
    decreases ty, 1, 0
  {
    var body := EncodeItems(ty, v.items) + rest;
    assert Encode(ty, v) + rest == UlebEncode(|v.items|) + body;
    UlebRoundTrip(|v.items|, body);
    ItemsDecode(ty, v.items, rest);
  }

  lemma {:induction false} MapDecodes(ty: Ty, v: Value, rest: seq<byte>)
    requires ty.TMap? && HasType(v, ty)
    ensures Decode(ty, Encode(ty, v) + rest) == Ok((v, rest))
    decreases ty, 1, 0
  {
    var body := EncodeEntries(ty, v.entries) + rest;
    assert Encode(ty, v) + rest == UlebEncode(|v.entries|) + body;
    UlebRoundTrip(|v.entries|, body);
    EntriesDecode(ty, v.entries, rest);
    CollectDistinct(v.entries);
  }

  /** Two little-endian numbers of n bytes each, one after the other, read
      back from their fixed positions. */
  lemma LePairRoundTrip(x: nat, y: nat, n: nat, rest: seq<byte>)
    requires x < Pow2(8 * n) && y < Pow2(8 * n)
    ensures var s := LeBytes(x, n) + LeBytes(y, n) + rest;
      |s| >= 2 * n && LeValue(s[..n]) == x && LeValue(s[n..2 * n]) == y && s[2 * n..] == rest
  {
    var a := LeBytes(x, n);
    var b := LeBytes(y, n);
    var s := a + b + rest;
    assert s[..n] == a;
    assert s[n..2 * n] == b;
    assert s[2 * n..] == rest;
    LeRoundTrip(x, n);
    LeRoundTrip(y, n);
  }

  lemma UuidDecodes(v: Value, rest: seq<byte>)
    requires v.VUuid?
    ensures DecodeUuid(Encode(TUuid, v) + rest) == Ok((v, rest))
  {
    Pow2Values();
    var s := Encode(TUuid, v) + rest;
    assert s == LeBytes(v.low, 8) + LeBytes(v.high, 8) + rest;
    LePairRoundTrip(v.low, v.high, 8, rest);
    assert LeValue(s[..8]) == v.low && LeValue(s[8..16]) == v.high && s[16..] == rest;
  }

  lemma PosDecodes(v: Value, rest: seq<byte>)
    requires v.VPos?
    ensures DecodePos(Encode(TCompactPos, v) + rest) == Ok((v, rest))
  {
    Pow2Values();
    var s := Encode(TCompactPos, v) + rest;
    assert s == LeBytes(v.xBits, 2) + LeBytes(v.yBits, 2) + rest;
    LePairRoundTrip(v.xBits, v.yBits, 2, rest);
    assert LeValue(s[..2]) == v.xBits && LeValue(s[2..4]) == v.yBits && s[4..] == rest;
  }

  lemma {:induction false} EnumDecodes(ty: Ty, v: Value, rest: seq<byte>)
    requires ty.TEnum? && HasType(v, ty)
    ensures Decode(ty, Encode(ty, v) + rest) == Ok((v, rest))
    decreases ty, 1, 0
  {
    var s := Encode(ty, v) + rest;
    assert s[0] == v.tag && s[1..] == Encode(ty.variants[v.tag], v.payload) + rest;
    Decodes(ty.variants[v.tag], v.payload, rest);
  }

  lemma IntDecodes(ty: Ty, v: Value, rest: seq<byte>)
    requires IsInt(ty) && HasType(v, ty)
    ensures Decode(ty, Encode(ty, v) + rest) == Ok((v, rest))
  {
    var s := Encode(ty, v) + rest;
    var w := Width(ty);
    assert Encode(ty, v) == LeBytes(IntBits(ty, v.n), w);
    assert s[..w] == LeBytes(IntBits(ty, v.n), w) && s[w..] == rest;
    IntRoundTrip(ty, v.n);
  }

  lemma {:induction false} ItemsDecode(ty: Ty, items: seq<Value>, rest: seq<byte>)
    requires ty.TVec?
    requires forall i :: 0 <= i < |items| ==> HasType(items[i], ty.elem)
    ensures DecodeItems(ty, |items|, EncodeItems(ty, items) + rest) == Ok((items, rest))
    decreases ty, 0, |items|
  {
    if items != [] {
      var tail := EncodeItems(ty, items[1..]) + rest;
      var s := EncodeItems(ty, items) + rest;
      assert s == Encode(ty.elem, items[0]) + tail;
      Decodes(ty.elem, items[0], tail);
      assert Decode(ty.elem, s) == Ok((items[0], tail));
      ItemsDecode(ty, items[1..], rest);
      assert [items[0]] + items[1..] == items;
    }
  }

  lemma EntryDecodes(ty: Ty, k: Value, x: Value, rest: seq<byte>)
    requires ty.TMap? && HasType(k, ty.key) && HasType(x, ty.val)
    ensures DecodeEntry(ty, Encode(ty.key, k) + Encode(ty.val, x) + rest) == Ok(((k, x), rest))
    decreases ty, 0, 0
  {
    var tail := Encode(ty.val, x) + rest;
    assert Encode(ty.key, k) + Encode(ty.val, x) + rest == Encode(ty.key, k) + tail;
    Decodes(ty.key, k, tail);
    Decodes(ty.val, x, rest);
  }

  lemma {:induction false} EntriesDecode(ty: Ty, es: seq<(Value, Value)>, rest: seq<byte>)
    requires ty.TMap?
    requires forall i :: 0 <= i < |es| ==> HasType(es[i].0, ty.key) && HasType(es[i].1, ty.val)
    ensures DecodeEntries(ty, |es|, EncodeEntries(ty, es) + rest) == Ok((es, rest))
    decreases ty, 0, |es|
  {
    if es != [] {
      var tail := EncodeEntries(ty, es[1..]) + rest;
      var s := EncodeEntries(ty, es) + rest;
      assert s == Encode(ty.key, es[0].0) + Encode(ty.val, es[0].1) + tail;
      EntryDecodes(ty, es[0].0, es[0].1, tail);
      assert DecodeEntry(ty, s) == Ok((es[0], tail));
      EntriesDecode(ty, es[1..], rest);
      assert [es[0]] + es[1..] == es;
    }
  }

  lemma {:induction false} FieldsDecode(ty: Ty, vs: seq<Value>, i: nat, rest: seq<byte>)
    requires ty.TStruct? && |vs| == |ty.fields| && i <= |vs|
    requires forall j {:trigger HasType(vs[j], ty.fields[j])} :: i <= j < |vs| ==> HasType(vs[j], ty.fields[j])
    ensures DecodeFields(ty, i, EncodeFields(ty, vs, i) + rest) == Ok((vs[i..], rest))
    decreases ty, 0, |vs| - i, 1
  {
    if i < |vs| {
      FieldDecodes(ty, vs, i, rest);
    } else {
      FieldsEnd(ty, vs, rest);
    }
  }

  /** Past the last field nothing is read. */
  lemma FieldsEnd(ty: Ty, vs: seq<Value>, rest: seq<byte>)
    requires ty.TStruct? && |vs| == |ty.fields|
    ensures DecodeFields(ty, |vs|, EncodeFields(ty, vs, |vs|) + rest) == Ok((vs[|vs|..], rest))
  {
    assert EncodeFields(ty, vs, |vs|) + rest == rest;
    assert vs[|vs|..] == [];
  }

  /** Fields i.. round-trip: field i is read back first, leaving the
      encoding of the later fields. */
  lemma {:induction false} FieldDecodes(ty: Ty, vs: seq<Value>, i: nat, rest: seq<byte>)
    requires ty.TStruct? && |vs| == |ty.fields| && i < |vs|
    requires forall j {:trigger HasType(vs[j], ty.fields[j])} :: i <= j < |vs| ==> HasType(vs[j], ty.fields[j])
    ensures DecodeFields(ty, i, EncodeFields(ty, vs, i) + rest) == Ok((vs[i..], rest))
    decreases ty, 0, |vs| - i, 0
  {
    var tail := EncodeFields(ty, vs, i + 1) + rest;
    FieldsDecode(ty, vs, i + 1, rest);
    FieldsSplit(ty, vs, i, rest);
    Decodes(ty.fields[i], vs[i], tail);
    FieldsStep(ty, vs, i, EncodeFields(ty, vs, i) + rest, tail, rest);
  }

  /** Field i read back, then fields i + 1.. read back, is fields i.. read
      back. */
  lemma FieldsStep(ty: Ty, vs: seq<Value>, i: nat, s: seq<byte>, tail: seq<byte>, rest: seq<byte>)
    requires ty.TStruct? && |vs| == |ty.fields| && i < |vs|
    requires Decode(ty.fields[i], s) == Ok((vs[i], tail))
    requires DecodeFields(ty, i + 1, tail) == Ok((vs[i + 1..], rest))
    ensures DecodeFields(ty, i, s) == Ok((vs[i..], rest))
  {
    ConsSlice(vs, i);
    FieldsJoin(ty, i, s, vs[i], tail, vs[i + 1..], rest);
  }

  lemma ConsSlice(vs: seq<Value>, i: nat)
    requires i < |vs|
    ensures [vs[i]] + vs[i + 1..] == vs[i..]
  {
  }

  /** Field i's encoding comes first, then the later fields'. */
  lemma FieldsSplit(ty: Ty, vs: seq<Value>, i: nat, rest: seq<byte>)
    requires ty.TStruct? && |vs| == |ty.fields| && i < |vs|
    requires forall j {:trigger HasType(vs[j], ty.fields[j])} :: i <= j < |vs| ==> HasType(vs[j], ty.fields[j])
    ensures EncodeFields(ty, vs, i) + rest == Encode(ty.fields[i], vs[i]) + (EncodeFields(ty, vs, i + 1) + rest)
  {
    var a := Encode(ty.fields[i], vs[i]);
    var b := EncodeFields(ty, vs, i + 1);
    assert EncodeFields(ty, vs, i) == a + b;
    BytesAssoc(a, b, rest);
  }

  lemma BytesAssoc(a: seq<byte>, b: seq<byte>, c: seq<byte>)
    ensures (a + b) + c == a + (b + c)
  {
  }

  /** Decoding field i and then the later fields is decoding fields i.. . */
  lemma FieldsJoin(ty: Ty, i: nat, s: seq<byte>, x: Value, tail: seq<byte>, xs: seq<Value>, rest: seq<byte>)
    requires ty.TStruct? && i < |ty.fields|
    requires Decode(ty.fields[i], s) == Ok((x, tail))
    requires DecodeFields(ty, i + 1, tail) == Ok((xs, rest))
    ensures DecodeFields(ty, i, s) == Ok(([x] + xs, rest))
  {
  }

  /** Room ids are ASCII: every allowed character is a one-byte character. */
  lemma AsciiOfRoomId(s: seq<byte>)
    requires Varchar.Validates(s)
    ensures AllAscii(s)
  {
  }

  /** The round trip in the form a receiver sees it: a buffer that holds
      exactly one encoded value decodes to it with nothing left over. */
  lemma DecodeOfEncode(ty: Ty, v: Value)
    requires HasType(v, ty)
    ensures Decode(ty, Encode(ty, v)) == Ok((v, []))
  {
    Decodes(ty, v, []);
    assert Encode(ty, v) + [] == Encode(ty, v);
  }
}
