/** UTF-8 well-formedness (Unicode Table 3-7) and the lossy conversion that
    Rust's `String::from_utf8_lossy` performs when the String and Varchar
    decoders turn received bytes into a String: each maximal ill-formed
    subpart is replaced by U+FFFD (EF BF BD). */
module Utf8 {
  import opened Wire

  const REPLACEMENT: seq<byte> := [0xEF, 0xBF, 0xBD]

  /** Length of the sequence a lead byte announces; 0 for a byte that cannot
      start a character. */
  function SeqLen(lead: byte): nat
  {
    if lead < 0x80 then 1
    else if 0xC2 <= lead <= 0xDF then 2
    else if 0xE0 <= lead <= 0xEF then 3
    else if 0xF0 <= lead <= 0xF4 then 4
    else 0
  }

  /** Whether `b` may stand at position i (1..3) after the given lead byte. */
  predicate ContinuationOk(lead: byte, i: nat, b: byte)
  {
    if i == 1 && lead == 0xE0 then 0xA0 <= b <= 0xBF
    else if i == 1 && lead == 0xED then 0x80 <= b <= 0x9F
    else if i == 1 && lead == 0xF0 then 0x90 <= b <= 0xBF
    else if i == 1 && lead == 0xF4 then 0x80 <= b <= 0x8F
    else 0x80 <= b <= 0xBF
  }

  /** Number of continuation bytes after s[0] (at most `want`) that fit. */
  function Fitting(s: seq<byte>, want: nat, i: nat): (k: nat)
    requires 1 <= i && |s| > 0
    ensures k <= want
    decreases want
  {
    if want == 0 || i >= |s| || !ContinuationOk(s[0], i, s[i]) then 0
    else 1 + Fitting(s, want - 1, i + 1)
  }

  /** One step of the scan: (true, n) when s starts with a complete n-byte
      character; (false, n) when its first n bytes are a maximal ill-formed
      subpart. */
  function Scan(s: seq<byte>): (r: (bool, nat))
    requires |s| > 0
    ensures 1 <= r.1 <= |s|
  {
    var l := SeqLen(s[0]);
    if l == 0 then (false, 1)
    else if l == 1 then (true, 1)
    else
      var k := Fitting(s, l - 1, 1);
      assert k < |s| by { FittingBound(s, l - 1, 1); }
      if k == l - 1 then (true, l) else (false, 1 + k)
  }

  lemma {:induction false} FittingBound(s: seq<byte>, want: nat, i: nat)
    requires 1 <= i && |s| > 0
    ensures i + Fitting(s, want, i) <= |s| || Fitting(s, want, i) == 0
    ensures Fitting(s, want, i) > 0 ==> i + Fitting(s, want, i) <= |s|
    ensures i <= |s| ==> i + Fitting(s, want, i) <= |s|
    decreases want
  {
    if want == 0 || i >= |s| || !ContinuationOk(s[0], i, s[i]) {
    } else {
      FittingBound(s, want - 1, i + 1);
    }
  }

  predicate ValidUtf8(s: seq<byte>)
    decreases |s|
  {
    s == [] || (Scan(s).0 && ValidUtf8(s[Scan(s).1..]))
  }

  /** `String::from_utf8_lossy(s)` as bytes. */
  function Lossy(s: seq<byte>): seq<byte>
    decreases |s|
  {
    if s == [] then []
    else
      var (ok, n) := Scan(s);
      (if ok then s[..n] else REPLACEMENT) + Lossy(s[n..])
  }

  /** On well-formed input the lossy conversion is the identity, so Strings
      round-trip byte for byte. */
  lemma {:induction false} LossyOfValid(s: seq<byte>)
    requires ValidUtf8(s)
    ensures Lossy(s) == s
    decreases |s|
  {
    if s != [] {
      var (ok, n) := Scan(s);
      LossyOfValid(s[n..]);
      assert s[..n] + s[n..] == s;
    }
  }

  predicate AllAscii(s: seq<byte>)
  {
    forall i :: 0 <= i < |s| ==> s[i] < 0x80
  }

  /** ASCII bytes are well-formed one-byte characters. */
  lemma {:induction false} AsciiIsValid(s: seq<byte>)
    requires AllAscii(s)
    ensures ValidUtf8(s)
    decreases |s|
  {
    if s != [] {
      assert Scan(s) == (true, 1);
      assert AllAscii(s[1..]);
      AsciiIsValid(s[1..]);
    }
  }

  /** If the lossy output is pure ASCII, no replacement happened and the input
      was that same ASCII text. */
  lemma {:induction false} AsciiLossyIsIdentity(s: seq<byte>)
    requires AllAscii(Lossy(s))
    ensures Lossy(s) == s
    decreases |s|
  {
    if s != [] {
      var (ok, n) := Scan(s);
      var head := if ok then s[..n] else REPLACEMENT;
      assert Lossy(s) == head + Lossy(s[n..]);
      assert Lossy(s)[0] == head[0];
      assert ok && SeqLen(s[0]) == 1 && n == 1;
      assert AllAscii(Lossy(s[n..])) by {
        forall i | 0 <= i < |Lossy(s[n..])|
          ensures Lossy(s[n..])[i] < 0x80
        {
          assert Lossy(s[n..])[i] == Lossy(s)[i + |head|];
        }
      }
      AsciiLossyIsIdentity(s[n..]);
      assert s[..1] + s[1..] == s;
    }
  }
}
