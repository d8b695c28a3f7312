/** The codecs that `#[derive(BinaryData)]` generates
    (phira-mp-macros/src/lib.rs), stated field by field as the generated
    code reads and writes, and proved equal to the struct and enum cases of
    module Codec. A field's declared type is given as the `Ty` it denotes,
    with `TArc` for `Arc<..>` and `TVec` for `Vec<..>`; a struct is the list
    of its field types and an enum the list of its variants' field lists (a
    unit variant has none). */
module Derive {
  import opened Wire
  import opened Codec
  import RoundTrip

  /** `TypeInfo { is_arc, is_vec }`. */
  datatype TypeInfo = TypeInfo(isArc: bool, isVec: bool)

  /** The type under an outer `Arc`. */
  function Under(ty: Ty): Ty
  {
    if ty.TArc? then ty.target else ty
  }

  /** `parse_type`: one `Arc<..>` is stripped first, and only then is the
      type tested for `Vec<..>`. */
  function ParseType(ty: Ty): (info: TypeInfo)
    ensures info.isArc <==> ty.TArc?
    ensures info.isVec <==> Under(ty).TVec?
  {
    var (inner, isArc) := if ty.TArc? then (ty.target, true) else (ty, false);
    TypeInfo(isArc, inner.TVec?)
  }

  // ---------------------------------------------------------------------
  // Fields (field_read, field_write)

  /** `field_read`: `r.read()?`, `r.array()?`, or either followed by
      `.into()` (Arc::new) for an Arc field. */
  function FieldRead(ty: Ty, s: seq<byte>): Result<(Value, seq<byte>)>
  {
    var info := ParseType(ty);
    match (info.isArc, info.isVec)
    case (false, false) => Decode(ty, s)
    case (false, true) => DecodeVec(ty, s)
    case (true, false) => Decode(ty.target, s)
    case (true, true) => DecodeVec(ty.target, s)
  }

  /** `field_write`: `w.array(field)` for a Vec (through an Arc by deref),
      `w.write(field)` otherwise. */
  function FieldWrite(ty: Ty, v: Value): seq<byte>
    requires HasType(v, ty)
  {
    assert HasType(v, Under(ty));
    if ParseType(ty).isVec then UlebEncode(|v.items|) + EncodeItems(Under(ty), v.items)
    else Encode(ty, v)
  }

  /** A field is read exactly as a value of its type: an Arc is transparent
      and `array` is the Vec codec. */
  lemma FieldReadIsDecode(ty: Ty, s: seq<byte>)
    ensures FieldRead(ty, s) == Decode(ty, s)
  {
    if ty.TArc? {
      assert Decode(ty, s) == Decode(ty.target, s);
    }
  }

  lemma FieldWriteIsEncode(ty: Ty, v: Value)
    requires HasType(v, ty)
    ensures FieldWrite(ty, v) == Encode(ty, v)
  {
    if ty.TArc? {
      assert Encode(ty, v) == Encode(ty.target, v);
    }
  }

  // ---------------------------------------------------------------------
  // Structs (build_derive_struct, struct_read, struct_write)

  /** `Ok(Self { f1: <read>, f2: <read>, .. })`: the fields in declaration
      order, stopping at the first that fails. */
  function StructRead(fields: seq<Ty>, s: seq<byte>): Result<(seq<Value>, seq<byte>)>
    decreases |fields|
  {
    if fields == [] then Ok(([], s))
    else
      match FieldRead(fields[0], s)
      case Err(e) => Err(e)
      case Ok((x, s1)) =>
        match StructRead(fields[1..], s1)
        case Err(e) => Err(e)
        case Ok((xs, s2)) => Ok(([x] + xs, s2))
  }

  /** The writes of `struct_write`, one after another. */
  function StructWrite(fields: seq<Ty>, vs: seq<Value>): seq<byte>
    requires |vs| == |fields|
    requires forall i :: 0 <= i < |fields| ==> HasType(vs[i], fields[i])
    decreases |fields|
  {
    if fields == [] then [] else FieldWrite(fields[0], vs[0]) + StructWrite(fields[1..], vs[1..])
  }

  /** The generated reader is Codec's struct decoder from field i on. */
  lemma {:induction false} StructReadFrom(fields: seq<Ty>, i: nat, s: seq<byte>)
    requires i <= |fields|
    ensures StructRead(fields[i..], s) == DecodeFields(TStruct(fields), i, s)
    decreases |fields| - i
  {
    if i < |fields| {
      var rest := fields[i..];
      assert rest[0] == fields[i] && rest[1..] == fields[i + 1..];
      FieldReadIsDecode(fields[i], s);
      match Decode(fields[i], s)
      case Err(_) =>
      case Ok((x, s1)) =>
        StructReadFrom(fields, i + 1, s1);
    }
  }

  /** The generated writer is Codec's struct encoder from field i on. */
  lemma {:induction false} StructWriteFrom(fields: seq<Ty>, vs: seq<Value>, i: nat)
    requires |vs| == |fields| && i <= |fields|
    requires forall j :: 0 <= j < |fields| ==> HasType(vs[j], fields[j])
    ensures StructWrite(fields[i..], vs[i..]) == EncodeFields(TStruct(fields), vs, i)
    decreases |fields| - i
  {
    if i < |fields| {
      assert fields[i..][0] == fields[i] && fields[i..][1..] == fields[i + 1..];
      assert vs[i..][0] == vs[i] && vs[i..][1..] == vs[i + 1..];
      FieldWriteIsEncode(fields[i], vs[i]);
      StructWriteFrom(fields, vs, i + 1);
    }
  }

  /** A derived struct: fields in declaration order, with no tag and no
      length, and it reads back what it wrote. */
  lemma StructRoundTrip(fields: seq<Ty>, vs: seq<Value>, rest: seq<byte>)
    requires |vs| == |fields|
    requires forall i :: 0 <= i < |fields| ==> HasType(vs[i], fields[i])
    ensures StructWrite(fields, vs) == Encode(TStruct(fields), VStruct(vs))
    ensures StructRead(fields, StructWrite(fields, vs) + rest) == Ok((vs, rest))
  {
    StructWriteIsEncode(fields, vs);
    assert fields[0..] == fields;
    StructReadFrom(fields, 0, StructWrite(fields, vs) + rest);
    RoundTrip.Decodes(TStruct(fields), VStruct(vs), rest);
  }

  // ---------------------------------------------------------------------
  // Enums (build_derive_enum)

  /** `i as u8`: the tag written for variant i. */
  function TagOf(i: nat): byte
  {
    i % 0x100
  }

  /** The read arms `i as u8 => variant i` tried in order from i: the first
      whose pattern is t, or None for the final `x => bail!` arm. */
  function ArmFrom(count: nat, t: byte, i: nat): (r: Option<nat>)
    requires i <= count
    ensures r.Some? ==> i <= r.value < count && TagOf(r.value) == t
    decreases count - i
  {
    if i == count then None
    else if TagOf(i) == t then Some(i)
    else ArmFrom(count, t, i + 1)
  }

  function Arm(count: nat, t: byte): Option<nat>
  {
    ArmFrom(count, t, 0)
  }

  /** The arm chosen for tag t is variant t when there is one, and the
      "invalid enum" arm otherwise. */
  lemma {:induction false} ArmFromIsTag(count: nat, t: byte, i: nat)
    requires i <= count && i <= t
    ensures ArmFrom(count, t, i) == if t < count then Some(t as nat) else None
    decreases count - i
  {
    if i < count && TagOf(i) != t {
      ArmFromIsTag(count, t, i + 1);
    }
  }

  lemma ArmIsTag(count: nat, t: byte)
    ensures Arm(count, t) == if t < count then Some(t as nat) else None
  {
    ArmFromIsTag(count, t, 0);
  }

  /** `match r.read::<u8>()? { arms }`: the tag byte, then the chosen
      variant's fields, or "invalid enum" for a tag no arm matches. */
  function EnumRead(variants: seq<seq<Ty>>, s: seq<byte>): Result<(Value, seq<byte>)>
  {
    if s == [] then Err(UnexpectedEof)
    else
      match Arm(|variants|, s[0])
      case None => Err(InvalidEnum(s[0]))
      case Some(i) =>
        match StructRead(variants[i], s[1..])
        case Err(e) => Err(e)
        case Ok((xs, s1)) => Ok((VEnum(i, VStruct(xs)), s1))
  }

  /** The write arm of variant i: `w.write_val(i as u8)`, then the fields. A
      unit variant writes the tag alone. */
  function EnumWrite(variants: seq<seq<Ty>>, i: nat, vs: seq<Value>): seq<byte>
    requires i < |variants| && |vs| == |variants[i]|
    requires forall j :: 0 <= j < |vs| ==> HasType(vs[j], variants[i][j])
  {
    if variants[i] == [] then [TagOf(i)] else [TagOf(i)] + StructWrite(variants[i], vs)
  }

  /** The schema of a derived enum in module Codec. */
  function EnumTy(variants: seq<seq<Ty>>): (ty: Ty)
    ensures ty.TEnum? && |ty.variants| == |variants|
    ensures forall i :: 0 <= i < |variants| ==> ty.variants[i] == TStruct(variants[i])
  {
    TEnum(seq(|variants|, i requires 0 <= i < |variants| => TStruct(variants[i])))
  }

  /** Variant i with fields of its declared types is a value of the enum. */
  lemma VariantTyped(variants: seq<seq<Ty>>, i: nat, vs: seq<Value>)
    requires |variants| <= 0x100 && i < |variants| && |vs| == |variants[i]|
    requires forall j :: 0 <= j < |vs| ==> HasType(vs[j], variants[i][j])
    ensures HasType(VEnum(i, VStruct(vs)), EnumTy(variants))
  {
  }

  /** The generated field reads of a struct are Codec's struct decoder. */
  lemma StructReadIsDecode(fields: seq<Ty>, s: seq<byte>)
    ensures Decode(TStruct(fields), s) ==
      match StructRead(fields, s)
      case Err(e) => Err(e)
      case Ok((xs, s1)) => Ok((VStruct(xs), s1))
  {
    assert fields[0..] == fields;
    StructReadFrom(fields, 0, s);
  }

  /** With at most 256 variants the generated reader is Codec's enum
      decoder. */
  lemma EnumReadIsDecode(variants: seq<seq<Ty>>, s: seq<byte>)
    requires |variants| <= 0x100
    ensures EnumRead(variants, s) == Decode(EnumTy(variants), s)
  {
    if s != [] {
      ArmIsTag(|variants|, s[0]);
      if s[0] < |variants| {
        StructReadIsDecode(variants[s[0]], s[1..]);
        assert EnumTy(variants).variants[s[0]] == TStruct(variants[s[0]]);
      }
    }
  }

  /** The generated field writes of a struct are Codec's struct encoding. */
  lemma StructWriteIsEncode(fields: seq<Ty>, vs: seq<Value>)
    requires |vs| == |fields|
    requires forall j :: 0 <= j < |fields| ==> HasType(vs[j], fields[j])
    ensures HasType(VStruct(vs), TStruct(fields))
    ensures StructWrite(fields, vs) == Encode(TStruct(fields), VStruct(vs))
  {
    assert fields[0..] == fields && vs[0..] == vs;
    StructWriteFrom(fields, vs, 0);
  }

  /** Both a unit variant's lone tag and a fielded variant's tag and fields
      are Codec's enum encoding. */
  lemma EnumWriteIsEncode(variants: seq<seq<Ty>>, i: nat, vs: seq<Value>)
    requires |variants| <= 0x100
    requires i < |variants| && |vs| == |variants[i]|
    requires forall j :: 0 <= j < |vs| ==> HasType(vs[j], variants[i][j])
    ensures HasType(VEnum(i, VStruct(vs)), EnumTy(variants))
    ensures EnumWrite(variants, i, vs) == Encode(EnumTy(variants), VEnum(i, VStruct(vs)))
  {
    var fs := variants[i];
    StructWriteIsEncode(fs, vs);
    VariantTyped(variants, i, vs);
    var ty := EnumTy(variants);
    assert ty.variants[i] == TStruct(fs);
    assert Encode(ty, VEnum(i, VStruct(vs))) == [i] + Encode(TStruct(fs), VStruct(vs));
    assert TagOf(i) == i;
  }

  /** A derived enum reads back the variant and fields it wrote. */
  lemma EnumRoundTrip(variants: seq<seq<Ty>>, i: nat, vs: seq<Value>, rest: seq<byte>)
    requires |variants| <= 0x100
    requires i < |variants| && |vs| == |variants[i]|
    requires forall j :: 0 <= j < |vs| ==> HasType(vs[j], variants[i][j])
    ensures EnumRead(variants, EnumWrite(variants, i, vs) + rest) == Ok((VEnum(i, VStruct(vs)), rest))
  {
    EnumWriteIsEncode(variants, i, vs);
    EnumReadIsDecode(variants, EnumWrite(variants, i, vs) + rest);
    RoundTrip.Decodes(EnumTy(variants), VEnum(i, VStruct(vs)), rest);
  }

  /** A tag with no variant fails "invalid enum" carrying that tag, and an
      empty input fails before any arm is tried. */
  lemma InvalidTag(variants: seq<seq<Ty>>, t: byte, rest: seq<byte>)
    requires t >= |variants|
    ensures EnumRead(variants, [t] + rest) == Err(InvalidEnum(t))
    ensures EnumRead(variants, []) == Err(UnexpectedEof)
  {
    ArmIsTag(|variants|, t);
  }

  /** Past 256 variants `i as u8` repeats tags: variant 256 is written with
      tag 0 and read back as variant 0. */
  lemma TagWraps(variants: seq<seq<Ty>>)
    requires |variants| > 0x100 && variants[0] == [] && variants[0x100] == []
    ensures EnumWrite(variants, 0x100, []) == [0]
    ensures EnumRead(variants, EnumWrite(variants, 0x100, [])) == Ok((VEnum(0, VStruct([])), []))
  {
    ArmIsTag(|variants|, 0);
    var s := EnumWrite(variants, 0x100, []);
    assert s == [0] && s[1..] == [];
    assert StructRead(variants[0], s[1..]) == Ok(([], []));
  }
}
