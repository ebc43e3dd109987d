/** The signer's percent encoding and canonical query string, on UTF-8 bytes. */
module PercentEncoding {
  type byte = b: int | 0 <= b < 256

  type Bytes = seq<byte>

  const PERCENT: byte := 0x25
  const SLASH: byte := 0x2F
  const AMPERSAND: byte := 0x26
  const EQUALS: byte := 0x3D

  /** Section 2.3 of RFC 3986: letters, digits, `-`, `.`, `_` and `~`. */
  predicate Unreserved(b: byte) {
    || 0x41 <= b <= 0x5A || 0x61 <= b <= 0x7A || 0x30 <= b <= 0x39
    || b == 0x2D || b == 0x2E || b == 0x5F || b == 0x7E
  }

  /** The two encode sets: query components, and object keys with `/` kept. */
  datatype EncodeSet = Query | Path {
    predicate Keeps(b: byte) { Unreserved(b) || (Path? && b == SLASH) }
  }

  function HexDigit(n: int): byte
    requires 0 <= n < 16
  {
    if n < 10 then 0x30 + n else 0x41 + n - 10
  }

  function HexValue(b: byte): int {
    if 0x30 <= b <= 0x39 then b - 0x30
    else if 0x41 <= b <= 0x46 then b - 0x41 + 10
    else if 0x61 <= b <= 0x66 then b - 0x61 + 10
    else -1
  }

  function EncodeByte(b: byte, kept: EncodeSet): Bytes {
    if kept.Keeps(b) then [b] else [PERCENT, HexDigit(b / 16), HexDigit(b % 16)]
  }

  function Encode(s: Bytes, kept: EncodeSet): Bytes {
    if s == [] then [] else EncodeByte(s[0], kept) + Encode(s[1..], kept)
  }

  /** What a server reads back: `%` with two hexadecimal digits is a byte, anything else stands for itself. */
  function Decode(s: Bytes): Bytes {
    if s == [] then []
    else if s[0] == PERCENT && |s| >= 3 && HexValue(s[1]) >= 0 && HexValue(s[2]) >= 0 then
      [16 * HexValue(s[1]) + HexValue(s[2])] + Decode(s[3..])
    else [s[0]] + Decode(s[1..])
  }

  /** Decoding undoes both encoders. */
  lemma {:induction false} DecodeEncode(s: Bytes, kept: EncodeSet)
    ensures Decode(Encode(s, kept)) == s
  {
    if s != [] {
      var head, tail := EncodeByte(s[0], kept), Encode(s[1..], kept);
      DecodeEncode(s[1..], kept);
      if !kept.Keeps(s[0]) {
        assert (head + tail)[3..] == tail;
        assert Decode(head + tail) == [s[0]] + Decode(tail);
      } else {
        assert (head + tail)[1..] == tail;
      }
    }
  }

  const UPPER := "ABCDEFGHIJKLMNOPQRSTUVWXYZ"
  const LOWER := "abcdefghijklmnopqrstuvwxyz"
  const DIGITS := "0123456789"
  const MARKS := "-._~"

  const HEX := "0123456789ABCDEF"

  /** The place of a byte in a text of ASCII characters, or none. */
  ghost predicate OccursIn(b: byte, text: string) { exists i :: 0 <= i < |text| && text[i] as int == b }

  ghost predicate InUnreserved(b: byte) {
    OccursIn(b, UPPER) || OccursIn(b, LOWER) || OccursIn(b, DIGITS) || OccursIn(b, MARKS)
  }

  /** A byte stays exactly when it is one of the 66 unreserved characters, or `/` in a key; any other is `%` and its
      two hexadecimal digits, the high one first. */
  lemma EncodesExactly(b: byte, kept: EncodeSet)
    ensures Encode([b], kept) ==
      if InUnreserved(b) || (kept.Path? && b == '/' as int) then [b]
      else ['%' as byte, HEX[b / 16] as byte, HEX[b % 16] as byte]
  {
    UnreservedExactly(b);
    HexExactly(b / 16);
    HexExactly(b % 16);
  }

  lemma HexExactly(n: int)
    requires 0 <= n < 16
    ensures HexDigit(n) == HEX[n] as int
  {
  }

  lemma UnreservedExactly(b: byte)
    ensures Unreserved(b) <==> InUnreserved(b)
  {
    UpperExactly(b);
    LowerExactly(b);
    DigitsExactly(b);
    assert OccursIn(b, MARKS) <==> b == 0x2D || b == 0x2E || b == 0x5F || b == 0x7E by {
      assert MARKS[0] as int == 0x2D && MARKS[1] as int == 0x2E && MARKS[2] as int == 0x5F && MARKS[3] as int == 0x7E;
    }
  }

  lemma UpperExactly(b: byte)
    ensures OccursIn(b, UPPER) <==> 0x41 <= b <= 0x5A
  {
    assert forall i :: 0 <= i < 26 ==> UPPER[i] as int == 0x41 + i;
    if 0x41 <= b <= 0x5A { assert UPPER[b - 0x41] as int == b; }
  }

  lemma LowerExactly(b: byte)
    ensures OccursIn(b, LOWER) <==> 0x61 <= b <= 0x7A
  {
    assert forall i :: 0 <= i < 26 ==> LOWER[i] as int == 0x61 + i;
    if 0x61 <= b <= 0x7A { assert LOWER[b - 0x61] as int == b; }
  }

  lemma DigitsExactly(b: byte)
    ensures OccursIn(b, DIGITS) <==> 0x30 <= b <= 0x39
  {
    assert forall i :: 0 <= i < 10 ==> DIGITS[i] as int == 0x30 + i;
    if 0x30 <= b <= 0x39 { assert DIGITS[b - 0x30] as int == b; }
  }

  /** Only kept bytes and `%` are left in the output, so no `&` or `=` in a query component. */
  lemma {:induction false} EncodeCharset(s: Bytes, kept: EncodeSet)
    ensures forall b <- Encode(s, kept) :: kept.Keeps(b) || b == PERCENT
  {
    if s != [] {
      EncodeCharset(s[1..], kept);
    }
  }

  predicate UpperHex(b: byte) { 0x30 <= b <= 0x39 || 0x41 <= b <= 0x46 }

  /** Kept bytes standing for themselves, every other byte as `%` and two upper-case hexadecimal digits. */
  predicate Canonical(s: Bytes, kept: EncodeSet) {
    s == []
    || (kept.Keeps(s[0]) && Canonical(s[1..], kept))
    || (s[0] == PERCENT && |s| >= 3 && UpperHex(s[1]) && UpperHex(s[2])
        && !kept.Keeps(16 * HexValue(s[1]) + HexValue(s[2])) && Canonical(s[3..], kept))
  }

  /** The canonical strings are exactly the encoders' outputs. */
  lemma {:induction false} CanonicalIsEncoded(s: Bytes, kept: EncodeSet)
    ensures Canonical(s, kept) <==> exists t :: Encode(t, kept) == s
  {
    if Canonical(s, kept) {
      CanonicalDecodes(s, kept);
      assert Encode(Decode(s), kept) == s;
    }
    if t :| Encode(t, kept) == s {
      EncodeCanonical(t, kept);
    }
  }

  lemma {:induction false} CanonicalDecodes(s: Bytes, kept: EncodeSet)
    requires Canonical(s, kept)
    ensures Encode(Decode(s), kept) == s
  {
    if s != [] {
      var n := if kept.Keeps(s[0]) then 1 else 3;
      CanonicalHead(s, n, kept);
      CanonicalDecodes(s[n..], kept);
      assert s == s[..n] + s[n..];
    }
  }

  lemma CanonicalHead(s: Bytes, n: nat, kept: EncodeSet)
    requires s != [] && Canonical(s, kept) && n == (if kept.Keeps(s[0]) then 1 else 3)
    ensures n <= |s| && Canonical(s[n..], kept)
    ensures Encode(Decode(s), kept) == s[..n] + Encode(Decode(s[n..]), kept)
  {
    if n == 3 { HexDigits(s[1], s[2]); }
    var b := if n == 1 then s[0] else 16 * HexValue(s[1]) + HexValue(s[2]);
    assert Decode(s) == [b] + Decode(s[n..]);
    assert EncodeByte(b, kept) == s[..n];
    EncodeNext(b, Decode(s[n..]), kept);
  }

  lemma HexDigits(high: byte, low: byte)
    requires UpperHex(high) && UpperHex(low)
    ensures 0 <= HexValue(high) < 16 && 0 <= HexValue(low) < 16
    ensures HexDigit((16 * HexValue(high) + HexValue(low)) / 16) == high
    ensures HexDigit((16 * HexValue(high) + HexValue(low)) % 16) == low
  {
  }

  lemma EncodeNext(b: byte, rest: Bytes, kept: EncodeSet)
    ensures Encode([b] + rest, kept) == EncodeByte(b, kept) + Encode(rest, kept)
  {
    assert ([b] + rest)[1..] == rest;
  }

  lemma {:induction false} EncodeCanonical(t: Bytes, kept: EncodeSet)
    ensures Canonical(Encode(t, kept), kept)
  {
    if t != [] {
      var head, tail := EncodeByte(t[0], kept), Encode(t[1..], kept);
      EncodeCanonical(t[1..], kept);
      assert (head + tail)[|head|..] == tail;
    }
  }
}
