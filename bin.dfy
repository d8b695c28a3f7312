/** The cursor-based reader and the appending writer of
    phira-mp-common/src/bin.rs, as classes whose methods are proved against
    the codec functions of module Codec. */
module Bin {
  import opened Wire
  import opened Utf8
  import Varchar
  import opened Codec

  /** Prefixing already read values to the outcome of reading the rest. */
  function Prepend<T>(done: seq<T>, r: Result<(seq<T>, seq<byte>)>): Result<(seq<T>, seq<byte>)>
  {
    match r
    case Err(e) => Err(e)
    case Ok((xs, t)) => Ok((done + xs, t))
  }

  /** The map a successful read of pairs collects into. */
  function Collected(r: Result<(seq<(Value, Value)>, seq<byte>)>): Result<(seq<(Value, Value)>, seq<byte>)>
  {
    match r
    case Err(e) => Err(e)
    case Ok((es, t)) => Ok((Collect(es), t))
  }

  lemma PrependNothing<T>(r: Result<(seq<T>, seq<byte>)>)
    ensures Prepend([], r) == r
  {
    if r.Ok? {
      assert [] + r.value.0 == r.value.0;
    }
  }

  lemma PrependAll<T>(done: seq<T>, t: seq<byte>)
    ensures Prepend(done, Ok(([], t))) == Ok((done, t))
  {
    assert done + [] == done;
  }

  /** One element of a Vec read: the outcome for m elements from s is x
      followed by the outcome for m - 1 from where x ended. */
  lemma ItemsStep(ty: Ty, m: nat, s: seq<byte>, done: seq<Value>, x: Value, t: seq<byte>)
    requires ty.TVec? && m > 0 && Decode(ty.elem, s) == Ok((x, t))
    ensures Prepend(done, DecodeItems(ty, m, s)) == Prepend(done + [x], DecodeItems(ty, m - 1, t))
  {
    var r := DecodeItems(ty, m - 1, t);
    if r.Ok? {
      assert done + ([x] + r.value.0) == done + [x] + r.value.0;
    }
  }

  /** An element that fails to decode fails the whole Vec. */
  lemma ItemsStop(ty: Ty, m: nat, s: seq<byte>, done: seq<Value>)
    requires ty.TVec? && m > 0 && Decode(ty.elem, s).Err?
    ensures Prepend(done, DecodeItems(ty, m, s)) == Err(Decode(ty.elem, s).error)
  {
  }

  lemma EntriesStep(ty: Ty, m: nat, s: seq<byte>, done: seq<(Value, Value)>, e: (Value, Value), t: seq<byte>)
    requires ty.TMap? && m > 0 && DecodeEntry(ty, s) == Ok((e, t))
    ensures Prepend(done, DecodeEntries(ty, m, s)) == Prepend(done + [e], DecodeEntries(ty, m - 1, t))
  {
    var r := DecodeEntries(ty, m - 1, t);
    if r.Ok? {
      assert done + ([e] + r.value.0) == done + [e] + r.value.0;
    }
  }

  lemma EntriesStop(ty: Ty, m: nat, s: seq<byte>, done: seq<(Value, Value)>)
    requires ty.TMap? && m > 0 && DecodeEntry(ty, s).Err?
    ensures Prepend(done, DecodeEntries(ty, m, s)) == Err(DecodeEntry(ty, s).error)
  {
  }

  lemma FieldsStep(ty: Ty, i: nat, s: seq<byte>, done: seq<Value>, x: Value, t: seq<byte>)
    requires ty.TStruct? && i < |ty.fields| && Decode(ty.fields[i], s) == Ok((x, t))
    ensures Prepend(done, DecodeFields(ty, i, s)) == Prepend(done + [x], DecodeFields(ty, i + 1, t))
  {
    var r := DecodeFields(ty, i + 1, t);
    if r.Ok? {
      assert done + ([x] + r.value.0) == done + [x] + r.value.0;
    }
  }

  lemma FieldsStop(ty: Ty, i: nat, s: seq<byte>, done: seq<Value>)
    requires ty.TStruct? && i < |ty.fields| && Decode(ty.fields[i], s).Err?
    ensures Prepend(done, DecodeFields(ty, i, s)) == Err(Decode(ty.fields[i], s).error)
  {
  }

  /** `BinaryReader(data, pos)`: the input and the cursor into it. */
  class BinaryReader {
    const data: seq<byte>
    var pos: nat

    predicate Valid()
      reads this
    {
      pos <= |data|
    }

    /** The bytes not yet read. */
    function Rest(): seq<byte>
      reads this
      requires Valid()
    {
      data[pos..]
    }

    /** A method result agrees with a decoder's outcome: the same value and the
        cursor where the decoder stopped, or the same error. */
    predicate Follows<T(==)>(r: Result<T>, spec: Result<(T, seq<byte>)>)
      reads this
    {
      && Valid()
      && (r.Ok? <==> spec.Ok?)
      && (r.Ok? ==> r.value == spec.value.0 && Rest() == spec.value.1)
      && (r.Err? ==> r.error == spec.error)
    }

    /** `BinaryReader::new`. */
    constructor (data: seq<byte>)
      ensures Valid() && this.data == data && pos == 0
    {
      this.data := data;
      pos := 0;
    }

    /** `byte`: the byte at the cursor, which then moves by one; at the end of
        the input "unexpected EOF" and the cursor stays. */
    method Byte() returns (r: Result<byte>)
      requires Valid()
      modifies this
      ensures Valid()
      ensures old(pos) < |data| ==> r == Ok(data[old(pos)]) && pos == old(pos) + 1
      ensures old(pos) >= |data| ==> r == Err(UnexpectedEof) && pos == old(pos)
    {
      if pos < |data| {
        r := Ok(data[pos]);
        pos := pos + 1;
      } else {
        r := Err(UnexpectedEof);
      }
    }

    /** `take(n)`: the next n bytes, the cursor moving past them; when fewer
        remain, "unexpected EOF" and the cursor stays. */
    method Take(n: nat) returns (r: Result<seq<byte>>)
      requires Valid()
      modifies this
      ensures Valid()
      ensures old(pos) + n <= |data| ==> r == Ok(data[old(pos)..old(pos) + n]) && pos == old(pos) + n
      ensures old(pos) + n > |data| ==> r == Err(UnexpectedEof) && pos == old(pos)
      ensures Follows(r, Codec.Take(old(Rest()), n))
    {
      if pos + n <= |data| {
        assert data[pos..][..n] == data[pos..pos + n] && data[pos..][n..] == data[pos + n..];
        r := Ok(data[pos..pos + n]);
        pos := pos + n;
      } else {
        r := Err(UnexpectedEof);
      }
    }

    /** `uleb`: the reader's LEB128 loop over `result` and `shift`. */
    method Uleb() returns (r: Result<u64>)
      requires Valid()
      modifies this
      ensures Follows(r, UlebDecode(old(Rest())))
    {
      var result: u64 := 0;
      var shift: nat := 0;
      while true
        invariant Valid()
        invariant UlebDecode(old(Rest())) == UlebLoop(Rest(), result, shift)
        decreases |data| - pos
      {
        ghost var before := Rest();
        var b := Byte();
        if b.Err? {
          return Err(b.error);
        }
        assert before[0] == b.value && before[1..] == Rest();
        var g := Shl64(b.value % 0x80, shift);
        Pow2Is64();
        BitOrBound(result, g, 64);
        result := BitOr(result, g);
        if b.value < 0x80 {
          return Ok(result);
        }
        shift := shift + 7;
      }
    }

    /** `read::<T>()`: dispatch on the type being read. */
    method Read(ty: Ty) returns (r: Result<Value>)
      requires Valid()
      modifies this
      ensures Follows(r, Decode(ty, old(Rest())))
      decreases ty, 2
    {
      match ty
      case TUnit => r := Ok(VUnit);
      case TBool => r := ReadBool();
      case TString => r := ReadString();
      case TVarchar(n) => r := ReadVarchar(n);
      case TRoomId => r := ReadRoomId();
      case TPair(_, _) => r := ReadPair(ty);
      case TOption(_) => r := ReadOption(ty);
      case TResult(_, _) => r := ReadResult(ty);
      case TVec(_) => r := Array(ty);
      case TMap(_, _) => r := ReadMap(ty);
      case TUuid => r := ReadUuid();
      case TCompactPos => r := ReadPos();
      case TArc(t) => r := Read(t);
      case TStruct(_) => r := ReadStruct(ty);
      case TEnum(_) => r := ReadEnum(ty);
      case _ => r := ReadInt(ty);
    }

    /** `bool`: `byte()? == 1`. */
    method ReadBool() returns (r: Result<Value>)
      requires Valid()
      modifies this
      ensures Follows(r, DecodeBool(old(Rest())))
    {
      var b := Byte();
      if b.Err? {
        return Err(b.error);
      }
      r := Ok(VBool(b.value == 1));
    }

    /** The payload of a String or Varchar: `take(len)` then
        `from_utf8_lossy`. */
    method ReadText(len: nat) returns (r: Result<Value>)
      requires Valid()
      modifies this
      ensures Follows(r, DecodeText(old(Rest()), len))
    {
      var raw := Take(len);
      if raw.Err? {
        return Err(raw.error);
      }
      r := Ok(VStr(Lossy(raw.value)));
    }

    method ReadString() returns (r: Result<Value>)
      requires Valid()
      modifies this
      ensures Follows(r, DecodeString(old(Rest())))
    {
      var len := Uleb();
      if len.Err? {
        return Err(len.error);
      }
      r := ReadText(len.value);
    }

    /** `Varchar::<n>::read_binary`. */
    method ReadVarchar(n: nat) returns (r: Result<Value>)
      requires Valid()
      modifies this
      ensures Follows(r, DecodeVarchar(n, old(Rest())))
    {
      var len := Uleb();
      if len.Err? {
        return Err(len.error);
      }
      if len.value > n {
        return Err(StringTooLong);
      }
      r := ReadText(len.value);
    }

    /** `RoomId::read_binary`. */
    method ReadRoomId() returns (r: Result<Value>)
      requires Valid()
      modifies this
      ensures Follows(r, DecodeRoomId(old(Rest())))
    {
      r := ReadVarchar(Varchar.ROOM_ID_MAX);
      if r.Ok? {
        var checked := Varchar.Validate(r.value.bytes);
        if checked.Err? {
          r := Err(checked.error);
        }
      }
    }

    method ReadPair(ty: Ty) returns (r: Result<Value>)
      requires Valid() && ty.TPair?
      modifies this
      ensures Follows(r, DecodePair(ty, old(Rest())))
      decreases ty, 1
    {
      var a := Read(ty.fst);
      if a.Err? {
        return Err(a.error);
      }
      var b := Read(ty.snd);
      if b.Err? {
        return Err(b.error);
      }
      r := Ok(VPair(a.value, b.value));
    }

    method ReadOption(ty: Ty) returns (r: Result<Value>)
      requires Valid() && ty.TOption?
      modifies this
      ensures Follows(r, DecodeOption(ty, old(Rest())))
      decreases ty, 1
    {
      var tag := Byte();
      if tag.Err? {
        return Err(tag.error);
      }
      if tag.value != 1 {
        return Ok(VNone);
      }
      var x := Read(ty.inner);
      if x.Err? {
        return Err(x.error);
      }
      r := Ok(VSome(x.value));
    }

    method ReadResult(ty: Ty) returns (r: Result<Value>)
      requires Valid() && ty.TResult?
      modifies this
      ensures Follows(r, DecodeResult(ty, old(Rest())))
      decreases ty, 1
    {
      var tag := Byte();
      if tag.Err? {
        return Err(tag.error);
      }
      var x := Read(if tag.value == 1 then ty.ok else ty.err);
      if x.Err? {
        return Err(x.error);
      }
      r := Ok(if tag.value == 1 then VOk(x.value) else VErr(x.value));
    }

    /** `BinaryReader::array`: `(0..uleb()?).map(|_| read()).collect()`,
        stopping at the first element that fails. */
    method Array(ty: Ty) returns (r: Result<Value>)
      requires Valid() && ty.TVec?
      modifies this
      ensures Follows(r, DecodeVec(ty, old(Rest())))
      decreases ty, 1
    {
      var n := Uleb();
      if n.Err? {
        return Err(n.error);
      }
      ghost var start := Rest();
      var items: seq<Value> := [];
      PrependNothing(DecodeItems(ty, n.value, start));
      var i: nat := 0;
      while i < n.value
        invariant Valid() && i <= n.value
        invariant DecodeItems(ty, n.value, start) == Prepend(items, DecodeItems(ty, n.value - i, Rest()))
      {
        ghost var here := Rest();
        var x := Read(ty.elem);
        if x.Err? {
          ItemsStop(ty, n.value - i, here, items);
          return Err(x.error);
        }
        ItemsStep(ty, n.value - i, here, items, x.value, Rest());
        items := items + [x.value];
        i := i + 1;
      }
      PrependAll(items, Rest());
      r := Ok(VList(items));
    }

    /** `HashMap<K, V>`: the count, then the pairs collected. */
    method ReadMap(ty: Ty) returns (r: Result<Value>)
      requires Valid() && ty.TMap?
      modifies this
      ensures Follows(r, DecodeMap(ty, old(Rest())))
      decreases ty, 1
    {
      var n := Uleb();
      if n.Err? {
        return Err(n.error);
      }
      var m := ReadEntries(ty, n.value);
      if m.Err? {
        return Err(m.error);
      }
      r := Ok(VMap(m.value));
    }

    /** `(0..n).map(|_| r.read::<(K, V)>()).collect()`: each pair is inserted
        into the map as it is read, and the first failure ends the read. */
    method ReadEntries(ty: Ty, n: nat) returns (r: Result<seq<(Value, Value)>>)
      requires Valid() && ty.TMap?
      modifies this
      ensures Follows(r, Collected(DecodeEntries(ty, n, old(Rest()))))
      decreases ty, 0, 2
    {
      ghost var start := Rest();
      ghost var pairs: seq<(Value, Value)> := [];
      var m: seq<(Value, Value)> := [];
      PrependNothing(DecodeEntries(ty, n, start));
      var i: nat := 0;
      while i < n
        invariant Valid() && i <= n && m == Collect(pairs)
        invariant DecodeEntries(ty, n, start) == Prepend(pairs, DecodeEntries(ty, n - i, Rest()))
      {
        var e := ReadNextEntry(ty, n - i, pairs);
        if e.Err? {
          return Err(e.error);
        }
        CollectSnoc(pairs, e.value);
        m := Insert(m, e.value);
        pairs := pairs + [e.value];
        i := i + 1;
      }
      PrependAll(pairs, Rest());
      r := Ok(m);
    }

    /** One turn of the map loop: the outcome for the m entries still due
        is this entry followed by the outcome for the other m - 1. */
    method ReadNextEntry(ty: Ty, ghost m: nat, ghost done: seq<(Value, Value)>) returns (e: Result<(Value, Value)>)
      requires Valid() && ty.TMap? && m > 0
      modifies this
      ensures Valid()
      ensures e.Err? ==> Prepend(done, DecodeEntries(ty, m, old(Rest()))) == Err(e.error)
      ensures e.Ok? ==>
        Prepend(done, DecodeEntries(ty, m, old(Rest()))) == Prepend(done + [e.value], DecodeEntries(ty, m - 1, Rest()))
      decreases ty, 0, 1
    {
      ghost var here := Rest();
      e := ReadEntry(ty);
      if e.Err? {
        EntriesStop(ty, m, here, done);
      } else {
        EntriesStep(ty, m, here, done, e.value, Rest());
      }
    }

    /** `read::<(K, V)>()` for one map entry. */
    method ReadEntry(ty: Ty) returns (r: Result<(Value, Value)>)
      requires Valid() && ty.TMap?
      modifies this
      ensures Follows(r, DecodeEntry(ty, old(Rest())))
      decreases ty, 0, 0
    {
      var k := Read(ty.key);
      if k.Err? {
        return Err(k.error);
      }
      var x := Read(ty.val);
      if x.Err? {
        return Err(x.error);
      }
      r := Ok((k.value, x.value));
    }

    /** `Uuid`: low, then high. */
    method ReadUuid() returns (r: Result<Value>)
      requires Valid()
      modifies this
      ensures Follows(r, DecodeUuid(old(Rest())))
    {
      var low := Take(8);
      if low.Err? {
        return Err(low.error);
      }
      var high := Take(8);
      if high.Err? {
        return Err(high.error);
      }
      Pow2Is64();
      r := Ok(VUuid(LeValue(high.value), LeValue(low.value)));
      assert old(Rest())[..8] == low.value && old(Rest())[8..16] == high.value;
    }

    /** `CompactPos`: the u16 bits of x, then of y. */
    method ReadPos() returns (r: Result<Value>)
      requires Valid()
      modifies this
      ensures Follows(r, DecodePos(old(Rest())))
    {
      var x := Take(2);
      if x.Err? {
        return Err(x.error);
      }
      var y := Take(2);
      if y.Err? {
        return Err(y.error);
      }
      Pow2Values();
      r := Ok(VPos(LeValue(x.value), LeValue(y.value)));
      assert old(Rest())[..2] == x.value && old(Rest())[2..4] == y.value;
    }

    /** A derived struct: `Self { f1: r.read()?, f2: r.read()?, .. }`, the
        generated reads taken field by field in declaration order. */
    method ReadStruct(ty: Ty) returns (r: Result<Value>)
      requires Valid() && ty.TStruct?
      modifies this
      ensures Follows(r, DecodeStruct(ty, old(Rest())))
      decreases ty, 1
    {
      ghost var start := Rest();
      var xs: seq<Value> := [];
      PrependNothing(DecodeFields(ty, 0, start));
      var i: nat := 0;
      while i < |ty.fields|
        invariant Valid() && i <= |ty.fields|
        invariant DecodeFields(ty, 0, start) == Prepend(xs, DecodeFields(ty, i, Rest()))
      {
        ghost var here := Rest();
        var x := Read(ty.fields[i]);
        if x.Err? {
          FieldsStop(ty, i, here, xs);
          return Err(x.error);
        }
        FieldsStep(ty, i, here, xs, x.value, Rest());
        xs := xs + [x.value];
        i := i + 1;
      }
      PrependAll(xs, Rest());
      r := Ok(VStruct(xs));
    }

    /** A derived enum: `match r.read::<u8>()?` over the variant indices, with
        "invalid enum" for any other byte. */
    method ReadEnum(ty: Ty) returns (r: Result<Value>)
      requires Valid() && ty.TEnum?
      modifies this
      ensures Follows(r, DecodeEnum(ty, old(Rest())))
      decreases ty, 1
    {
      var tag := Byte();
      if tag.Err? {
        return Err(tag.error);
      }
      if tag.value >= |ty.variants| {
        return Err(InvalidEnum(tag.value));
      }
      var x := Read(ty.variants[tag.value]);
      if x.Err? {
        return Err(x.error);
      }
      r := Ok(VEnum(tag.value, x.value));
    }

    /** Fixed-width integers: `LE::read_*(take(width)?)`. */
    method ReadInt(ty: Ty) returns (r: Result<Value>)
      requires Valid() && IsInt(ty)
      modifies this
      ensures Follows(r, DecodeInt(ty, old(Rest())))
    {
      var raw := Take(Width(ty));
      if raw.Err? {
        return Err(raw.error);
      }
      r := Ok(VInt(IntOfBits(ty, LeValue(raw.value))));
    }
  }

  /** `BinaryWriter(&mut Vec<u8>)`: every write appends to `buf`. */
  class BinaryWriter {
    var buf: seq<byte>

    /** `BinaryWriter::new` over a vector holding `init`. */
    constructor (init: seq<byte>)
      ensures buf == init
    {
      buf := init;
    }

    /** `uleb`: the writer's LEB128 loop. */
    method Uleb(v: u64)
      modifies this
      ensures buf == old(buf) + UlebEncode(v)
    {
      var x: nat := v;
      while true
        invariant old(buf) + UlebEncode(v) == buf + UlebEncode(x)
        decreases x
      {
        var b: byte := x % 0x80;
        var next := x / 0x80;
        if next != 0 {
          b := b + 0x80;
        }
        buf := buf + [b];
        if next == 0 {
          return;
        }
        x := next;
      }
    }

    /** `write(v)` for a value of type ty. */
    method Write(ty: Ty, v: Value)
      requires HasType(v, ty)
      modifies this
      ensures buf == old(buf) + Encode(ty, v)
      decreases ty, 2
    {
      match ty
      case TUnit =>
      case TBool => buf := buf + [if v.b then 1 else 0];
      case TString => WriteText(v.bytes);
      case TVarchar(_) => WriteText(v.bytes);
      case TRoomId => WriteText(v.bytes);
      case TPair(_, _) => WritePair(ty, v);
      case TOption(_) => WriteOption(ty, v);
      case TResult(_, _) => WriteResult(ty, v);
      case TVec(_) => Array(ty, v.items);
      case TMap(_, _) => WriteMap(ty, v.entries);
      case TUuid => buf := buf + LeBytes(v.low, 8) + LeBytes(v.high, 8);
      case TCompactPos => buf := buf + LeBytes(v.xBits, 2) + LeBytes(v.yBits, 2);
      case TArc(t) => Write(t, v);
      case TStruct(_) => WriteStruct(ty, v.fields);
      case TEnum(_) => WriteEnum(ty, v);
      case _ => buf := buf + LeBytes(IntBits(ty, v.n), Width(ty));
    }

    /** String, Varchar and RoomId: `uleb(len)`, then the bytes. */
    method WriteText(bytes: Text)
      requires |bytes| < U64_LIMIT
      modifies this
      ensures buf == old(buf) + EncodeText(bytes)
    {
      Uleb(|bytes|);
      buf := buf + bytes;
    }

    method WritePair(ty: Ty, v: Value)
      requires ty.TPair? && HasType(v, ty)
      modifies this
      ensures buf == old(buf) + Encode(ty, v)
      decreases ty, 1
    {
      Write(ty.fst, v.fst);
      Write(ty.snd, v.snd);
    }

    /** `write_val(true)` and the value for Some, `write_val(false)` for None. */
    method WriteOption(ty: Ty, v: Value)
      requires ty.TOption? && HasType(v, ty)
      modifies this
      ensures buf == old(buf) + Encode(ty, v)
      decreases ty, 1
    {
      if v.VSome? {
        buf := buf + [1];
        Write(ty.inner, v.some);
      } else {
        buf := buf + [0];
      }
    }

    /** `write_val(true)` and the value for Ok, `write_val(false)` and the
        error for Err. */
    method WriteResult(ty: Ty, v: Value)
      requires ty.TResult? && HasType(v, ty)
      modifies this
      ensures buf == old(buf) + Encode(ty, v)
      decreases ty, 1
    {
      if v.VOk? {
        buf := buf + [1];
        Write(ty.ok, v.okv);
      } else {
        buf := buf + [0];
        Write(ty.err, v.errv);
      }
    }

    /** A derived enum: `write_val(i as u8)`, then the variant's fields. */
    method WriteEnum(ty: Ty, v: Value)
      requires ty.TEnum? && HasType(v, ty)
      modifies this
      ensures buf == old(buf) + Encode(ty, v)
      decreases ty, 1
    {
      buf := buf + [v.tag];
      Write(ty.variants[v.tag], v.payload);
    }

    /** `BinaryWriter::array`: the count, then each element. */
    method Array(ty: Ty, items: seq<Value>)
      requires ty.TVec? && |items| < U64_LIMIT
      requires forall i :: 0 <= i < |items| ==> HasType(items[i], ty.elem)
      modifies this
      ensures buf == old(buf) + UlebEncode(|items|) + EncodeItems(ty, items)
      decreases ty, 1
    {
      Uleb(|items|);
      for i := 0 to |items|
        invariant old(buf) + UlebEncode(|items|) + EncodeItems(ty, items) == buf + EncodeItems(ty, items[i..])
      {
        assert items[i..][1..] == items[i + 1..];
        Write(ty.elem, items[i]);
      }
    }

    /** HashMap: the count, then key and value of each entry in iteration
        order. */
    method WriteMap(ty: Ty, es: seq<(Value, Value)>)
      requires ty.TMap? && |es| < U64_LIMIT
      requires forall i :: 0 <= i < |es| ==> HasType(es[i].0, ty.key) && HasType(es[i].1, ty.val)
      modifies this
      ensures buf == old(buf) + UlebEncode(|es|) + EncodeEntries(ty, es)
      decreases ty, 1
    {
      Uleb(|es|);
      for i := 0 to |es|
        invariant old(buf) + UlebEncode(|es|) + EncodeEntries(ty, es) == buf + EncodeEntries(ty, es[i..])
      {
        assert es[i..][1..] == es[i + 1..];
        Write(ty.key, es[i].0);
        Write(ty.val, es[i].1);
      }
    }

    /** A derived struct: one generated `write` per field in declaration
        order. */
    method WriteStruct(ty: Ty, vs: seq<Value>)
      requires ty.TStruct? && |vs| == |ty.fields|
      requires forall j :: 0 <= j < |vs| ==> HasType(vs[j], ty.fields[j])
      modifies this
      ensures buf == old(buf) + EncodeFields(ty, vs, 0)
      decreases ty, 1
    {
      for i := 0 to |vs|
        invariant old(buf) + EncodeFields(ty, vs, 0) == buf + EncodeFields(ty, vs, i)
      {
        Write(ty.fields[i], vs[i]);
      }
    }
  }
}
