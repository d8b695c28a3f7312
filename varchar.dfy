/** Bounded strings and room identifiers (phira-mp-common/src/command.rs,
    `Varchar<N>` and `RoomId`): the pure checks shared by the constructors
    and by the decoder. */
module Varchar {
  import opened Wire

  /** `Varchar::<N>::try_from`: accepts a String whose byte length is at most N. */
  function TryFrom(s: Text, n: nat): (r: Result<Text>)
    ensures r.Ok? <==> |s| <= n
    ensures r.Ok? ==> r.value == s
    ensures r.Err? ==> r.error == StringTooLong
  {
    if |s| > n then Err(StringTooLong) else Ok(s)
  }

  const ROOM_ID_MAX: nat := 20

  /** '-', '_' or an ASCII letter or digit. On well-formed UTF-8 every byte of
      a non-ASCII character is at least 0x80, so testing the bytes is the same
      as testing the characters (`chars().all(..)`). */
  predicate RoomIdChar(b: byte)
  {
    b == 0x2D || b == 0x5F || (0x30 <= b <= 0x39) || (0x41 <= b <= 0x5A) || (0x61 <= b <= 0x7A)
  }

  /** The test in `RoomId::validate`. */
  predicate Validates(s: Text)
  {
    s != [] && forall i :: 0 <= i < |s| ==> RoomIdChar(s[i])
  }

  /** `RoomId::validate`. */
  function Validate(s: Text): (r: Result<Text>)
    ensures r.Ok? <==> Validates(s)
    ensures r.Ok? ==> r.value == s
    ensures r.Err? ==> r.error == InvalidRoomId
  {
    if !Validates(s) then Err(InvalidRoomId) else Ok(s)
  }

  /** What a `RoomId` value always satisfies. */
  predicate RoomIdValid(s: Text)
  {
    |s| <= ROOM_ID_MAX && Validates(s)
  }

  /** `RoomId::try_from(String)`: the Varchar<20> bound first, then `validate`. */
  function RoomIdTryFrom(s: Text): (r: Result<Text>)
    ensures r.Ok? <==> RoomIdValid(s)
    ensures r.Ok? ==> r.value == s
    ensures r.Err? ==> (r.error == StringTooLong <==> |s| > ROOM_ID_MAX)
    ensures r.Err? ==> (r.error == InvalidRoomId <==> |s| <= ROOM_ID_MAX)
  {
    match TryFrom(s, ROOM_ID_MAX)
    case Err(e) => Err(e)
    case Ok(t) => Validate(t)
  }
}
