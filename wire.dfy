/** Shared vocabulary of the wire codec: bytes, fixed-width integer ranges,
    the failure values a codec or a command can produce, and small arithmetic
    helpers (powers of two, little-endian digits, a bitwise OR on naturals). */
module Wire {

  type byte = x: int | 0 <= x < 0x100
  type u16 = x: int | 0 <= x < 0x1_0000
  type u32 = x: int | 0 <= x < 0x1_0000_0000
  type u64 = x: int | 0 <= x < 0x1_0000_0000_0000_0000
  type i8 = x: int | -0x80 <= x < 0x80
  type i32 = x: int | -0x8000_0000 <= x < 0x8000_0000
  type i64 = x: int | -0x8000_0000_0000_0000 <= x < 0x8000_0000_0000_0000

  /** Rust `String` contents: UTF-8 bytes. */
  type Text = seq<byte>

  const U32_LIMIT: int := 0x1_0000_0000
  const U64_LIMIT: int := 0x1_0000_0000_0000_0000

  /** The error values of the codec (`anyhow!` / `bail!` messages in bin.rs,
      command.rs, lib.rs and the derive macro). */
  datatype CodecError =
    | UnexpectedEof          // "unexpected EOF"
    | InvalidEnum(tag: byte) // "invalid enum: {}"
    | StringTooLong          // "string too long"
    | InvalidRoomId          // "invalid room id"
    | InvalidLength          // "invalid length" (frame prefix)
    | PacketTooLarge         // "data packet too large"

  datatype Result<T> = Ok(value: T) | Err(error: CodecError)

  datatype Option<T> = None | Some(value: T)

  function Pow2(k: nat): (r: nat)
    ensures r >= 1
  {
    if k == 0 then 1 else 2 * Pow2(k - 1)
  }

  lemma {:induction false} Pow2Add(a: nat, b: nat)
    ensures Pow2(a + b) == Pow2(a) * Pow2(b)
  {
    if a > 0 {
      Pow2Add(a - 1, b);
    }
  }

  /** The powers of two that bound the fixed-width integers. */
  lemma Pow2Values()
    ensures Pow2(8) == 0x100 && Pow2(16) == 0x1_0000 && Pow2(32) == U32_LIMIT
    ensures Pow2(64) == U64_LIMIT
  {
    var p8 := Pow2(8);
    assert p8 == 0x100;
    Pow2Add(8, 8);
    var p16 := Pow2(16);
    assert p16 == 0x1_0000;
    Pow2Add(16, 16);
    var p32 := Pow2(32);
    assert p32 == U32_LIMIT;
    Pow2Add(32, 32);
  }

  lemma {:induction false} Pow2Monotone(a: nat, b: nat)
    requires a <= b
    ensures Pow2(a) <= Pow2(b)
  {
    if a < b {
      Pow2Monotone(a, b - 1);
    }
  }

  /** Bitwise OR of two naturals (Rust `|` on unsigned integers). */
  function BitOr(a: nat, b: nat): nat
    decreases a + b
  {
    if a == 0 then b
    else if b == 0 then a
    else 2 * BitOr(a / 2, b / 2) + (if a % 2 == 1 || b % 2 == 1 then 1 else 0)
  }

  /** OR of two numbers whose set bits are disjoint (all of `a` below bit k,
      all of `q * 2^k` at or above bit k) is their sum. */
  lemma {:induction false} BitOrDisjoint(a: nat, q: nat, k: nat)
    requires a < Pow2(k)
    ensures BitOr(a, q * Pow2(k)) == a + q * Pow2(k)
    decreases k
  {
    var b := q * Pow2(k);
    if a == 0 || b == 0 {
    } else {
      assert k > 0;
      var m := q * Pow2(k - 1);
      assert b == 2 * m by {
        assert Pow2(k) == 2 * Pow2(k - 1);
      }
      assert b / 2 == m && b % 2 == 0;
      BitOrDisjoint(a / 2, q, k - 1);
    }
  }

  /** Both operands below 2^k keeps the OR below 2^k. */
  lemma {:induction false} BitOrBound(a: nat, b: nat, k: nat)
    requires a < Pow2(k) && b < Pow2(k)
    ensures BitOr(a, b) < Pow2(k)
    decreases k
  {
    if a == 0 || b == 0 {
    } else {
      assert k > 0;
      BitOrBound(a / 2, b / 2, k - 1);
    }
  }

  /** Little-endian value of a byte sequence. */
  function LeValue(s: seq<byte>): (r: nat)
    ensures r < Pow2(8 * |s|)
  {
    if s == [] then 0
    else
      assert Pow2(8 * |s|) == Pow2(8) * Pow2(8 * (|s| - 1)) by { Pow2Add(8, 8 * (|s| - 1)); }
      s[0] + 256 * LeValue(s[1..])
  }

  /** The n little-endian bytes of x (Rust `to_le_bytes`). */
  function LeBytes(x: nat, n: nat): (r: seq<byte>)
    ensures |r| == n
  {
    if n == 0 then [] else [x % 256] + LeBytes(x / 256, n - 1)
  }

  lemma {:induction false} LeRoundTrip(x: nat, n: nat)
    requires x < Pow2(8 * n)
    ensures LeValue(LeBytes(x, n)) == x
  {
    if n > 0 {
      assert Pow2(8 * n) == Pow2(8) * Pow2(8 * (n - 1)) by { Pow2Add(8, 8 * (n - 1)); }
      assert Pow2(8) == 256;
      assert x / 256 < Pow2(8 * (n - 1));
      LeRoundTrip(x / 256, n - 1);
      assert LeBytes(x, n)[1..] == LeBytes(x / 256, n - 1);
    }
  }
}
