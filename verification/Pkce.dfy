/** PKCE: the S256 challenge, the recogniser of challenges, and the comparison against a stored one. */
module Pkce {
  type Bytes = seq<bv8>

  /** A SHA-256 digest. The hash itself is a parameter of the members that need it. */
  type Digest = d: Bytes | |d| == 32 witness seq(32, _ => 0)

  // ---- base64url without padding, section 5 of RFC 4648 ----

  function SextetChar(v: bv8): bv8 {
    if v < 26 then 0x41 + v
    else if v < 52 then 0x61 + (v - 26)
    else if v < 62 then 0x30 + (v - 52)
    else if v == 62 then 0x2D
    else 0x5F
  }

  function CharSextet(c: bv8): bv8 {
    if 0x41 <= c <= 0x5A then c - 0x41
    else if 0x61 <= c <= 0x7A then c - 0x61 + 26
    else if 0x30 <= c <= 0x39 then c - 0x30 + 52
    else if c == 0x2D then 62
    else 63
  }

  // Three bytes `a b c` as four sextets, and back.

  function Sextet1(a: bv8): bv8 { a >> 2 }

  function Sextet2(a: bv8, b: bv8): bv8 { ((a & 3) << 4) | (b >> 4) }

  function Sextet3(b: bv8, c: bv8): bv8 { ((b & 15) << 2) | (c >> 6) }

  function Sextet4(c: bv8): bv8 { c & 63 }

  function Byte1(p: bv8, q: bv8): bv8 { (p << 2) | (q >> 4) }

  function Byte2(q: bv8, r: bv8): bv8 { ((q & 15) << 4) | (r >> 2) }

  function Byte3(r: bv8, t: bv8): bv8 { ((r & 3) << 6) | t }

  function Group(a: bv8, b: bv8, c: bv8): Bytes {
    [SextetChar(Sextet1(a)), SextetChar(Sextet2(a, b)), SextetChar(Sextet3(b, c)), SextetChar(Sextet4(c))]
  }

  /** Three bytes are four characters; two left over are three, one is two. */
  function Encode(d: Bytes): Bytes {
    if d == [] then []
    else if |d| == 1 then Group(d[0], 0, 0)[..2]
    else if |d| == 2 then Group(d[0], d[1], 0)[..3]
    else Group(d[0], d[1], d[2]) + Encode(d[3..])
  }

  function Ungroup(p: bv8, q: bv8, r: bv8, t: bv8): Bytes {
    [Byte1(CharSextet(p), CharSextet(q)), Byte2(CharSextet(q), CharSextet(r)), Byte3(CharSextet(r), CharSextet(t))]
  }

  /** A lone last character carries no byte. */
  function Decode(s: Bytes): Bytes {
    if |s| < 2 then []
    else if |s| == 2 then Ungroup(s[0], s[1], ZERO, ZERO)[..1]
    else if |s| == 3 then Ungroup(s[0], s[1], s[2], ZERO)[..2]
    else Ungroup(s[0], s[1], s[2], s[3]) + Decode(s[4..])
  }

  /** The character of the sextet 0, `A`. */
  const ZERO: bv8 := 0x41

  predicate IsBase64Char(c: bv8) {
    0x41 <= c <= 0x5A || 0x61 <= c <= 0x7A || 0x30 <= c <= 0x39 || c == 0x2D || c == 0x5F
  }

  lemma SextetRoundTrip(v: bv8, c: bv8)
    ensures v < 64 ==> CharSextet(SextetChar(v)) == v && IsBase64Char(SextetChar(v))
    ensures IsBase64Char(c) ==> SextetChar(CharSextet(c)) == c && CharSextet(c) < 64
  {
  }

  // ---- The recogniser and the comparison ----

  /** `valid_s256_challenge`: 43 characters of the alphabet, the last one of `AEIMQUYcgkosw048`. */
  predicate ValidChallenge(s: Bytes) {
    && |s| == 43
    && (forall i :: 0 <= i < 43 ==> IsBase64Char(s[i]))
    && s[42] in LAST_CHARS
  }

  const LAST_CHARS: Bytes :=
    [0x41, 0x45, 0x49, 0x4D, 0x51, 0x55, 0x59, 0x63, 0x67, 0x6B, 0x6F, 0x73, 0x77, 0x30, 0x34, 0x38]

  /** `pkce_s256_challenge`. */
  function Challenge(verifier: Bytes, sha256: Bytes -> Digest): Bytes { Encode(sha256(verifier)) }

  /** `verify_pkce_s256`: the difference of all bytes is accumulated, and none stops the loop. */
  method VerifyPkce(verifier: Bytes, challenge: Bytes, sha256: Bytes -> Digest) returns (ok: bool)
    ensures ok <==> challenge == Challenge(verifier, sha256)
    ensures ok <==> Names(challenge, sha256(verifier))
  {
    NamesExactly(challenge, sha256(verifier));
    var computed := Challenge(verifier, sha256);
    if |computed| != |challenge| { return false; }
    var diff: bv8 := 0;
    for i := 0 to |computed|
      invariant diff == 0 <==> computed[..i] == challenge[..i]
    {
      DiffZero(diff, computed[i], challenge[i]);
      PrefixGrows(computed, challenge, i);
      diff := diff | (computed[i] ^ challenge[i]);
    }
    assert computed[..|computed|] == computed && challenge[..|computed|] == challenge;
    return diff == 0;
  }

  lemma DiffZero(diff: bv8, x: bv8, y: bv8)
    ensures diff | (x ^ y) == 0 <==> diff == 0 && x == y
  {
  }

  lemma PrefixGrows(a: Bytes, b: Bytes, i: nat)
    requires i < |a| == |b|
    ensures a[..i + 1] == b[..i + 1] <==> a[..i] == b[..i] && a[i] == b[i]
  {
    assert a[..i + 1] == a[..i] + [a[i]] && b[..i + 1] == b[..i] + [b[i]];
  }

  // ---- Encoding is undone, and its outputs are known ----

  lemma PackedBytes(a: bv8, b: bv8, c: bv8)
    ensures Byte1(Sextet1(a), Sextet2(a, b)) == a
    ensures Byte2(Sextet2(a, b), Sextet3(b, c)) == b
    ensures Byte3(Sextet3(b, c), Sextet4(c)) == c
    ensures Sextet1(a) < 64 && Sextet2(a, b) < 64 && Sextet3(b, c) < 64 && Sextet4(c) < 64
  {
  }

  lemma PackedSextets(p: bv8, q: bv8, r: bv8, t: bv8)
    requires p < 64 && q < 64 && r < 64 && t < 64
    ensures Sextet1(Byte1(p, q)) == p && Sextet2(Byte1(p, q), Byte2(q, r)) == q
    ensures Sextet3(Byte2(q, r), Byte3(r, t)) == r && Sextet4(Byte3(r, t)) == t
    ensures q & 15 == 0 ==> Sextet2(Byte1(p, q), 0) == q
    ensures r & 3 == 0 ==> Sextet3(Byte2(q, r), 0) == r
  {
  }

  lemma GroupDecodes(a: bv8, b: bv8, c: bv8)
    ensures var g := Group(a, b, c); Ungroup(g[0], g[1], g[2], g[3]) == [a, b, c]
    ensures forall i :: 0 <= i < 4 ==> IsBase64Char(Group(a, b, c)[i])
    ensures CharSextet(Group(a, b, c)[1]) == Sextet2(a, b) && CharSextet(Group(a, b, c)[2]) == Sextet3(b, c)
  {
    PackedBytes(a, b, c);
    SextetRoundTrip(Sextet1(a), 0);
    SextetRoundTrip(Sextet2(a, b), 0);
    SextetRoundTrip(Sextet3(b, c), 0);
    SextetRoundTrip(Sextet4(c), 0);
  }

  /** The characters after the end are not looked at. */
  lemma UngroupStarts(p: bv8, q: bv8, r: bv8, t: bv8, r': bv8, t': bv8)
    ensures Ungroup(p, q, r, t)[..1] == Ungroup(p, q, r', t')[..1]
    ensures Ungroup(p, q, r, t)[..2] == Ungroup(p, q, r, t')[..2]
  {
  }

  lemma {:induction false} DecodeEncode(d: Bytes)
    ensures Decode(Encode(d)) == d
  {
    if d == [] {
    } else if |d| == 1 {
      var g := Group(d[0], 0, 0);
      GroupDecodes(d[0], 0, 0);
      UngroupStarts(g[0], g[1], g[2], g[3], ZERO, ZERO);
    } else if |d| == 2 {
      var g := Group(d[0], d[1], 0);
      GroupDecodes(d[0], d[1], 0);
      UngroupStarts(g[0], g[1], g[2], g[3], g[2], ZERO);
    } else {
      GroupDecodes(d[0], d[1], d[2]);
      DecodeEncode(d[3..]);
      assert Encode(d)[4..] == Encode(d[3..]);
      assert d == [d[0], d[1], d[2]] + d[3..];
    }
  }

  /** The alphabet, no lone last character, and no bits set beyond the last byte. */
  predicate Canonical(s: Bytes) {
    && (forall i :: 0 <= i < |s| ==> IsBase64Char(s[i]))
    && |s| % 4 != 1
    && (|s| % 4 == 2 ==> CharSextet(s[|s| - 1]) & 15 == 0)
    && (|s| % 4 == 3 ==> CharSextet(s[|s| - 1]) & 3 == 0)
  }

  lemma GroupEncodes(p: bv8, q: bv8, r: bv8, t: bv8)
    requires IsBase64Char(p) && IsBase64Char(q) && IsBase64Char(r) && IsBase64Char(t)
    ensures var u := Ungroup(p, q, r, t);
      && Group(u[0], u[1], u[2]) == [p, q, r, t]
      && (CharSextet(q) & 15 == 0 ==> Group(u[0], 0, 0)[..2] == [p, q])
      && (CharSextet(r) & 3 == 0 ==> Group(u[0], u[1], 0)[..3] == [p, q, r])
  {
    SextetRoundTrip(0, p);
    SextetRoundTrip(0, q);
    SextetRoundTrip(0, r);
    SextetRoundTrip(0, t);
    PackedSextets(CharSextet(p), CharSextet(q), CharSextet(r), CharSextet(t));
  }

  lemma CanonicalSplits(head: Bytes, rest: Bytes)
    requires |head| == 4 && forall i :: 0 <= i < 4 ==> IsBase64Char(head[i])
    ensures Canonical(head + rest) <==> Canonical(rest)
  {
    var s := head + rest;
    assert forall i :: 0 <= i < |rest| ==> s[i + 4] == rest[i];
    if |rest| > 0 { assert s[|s| - 1] == rest[|rest| - 1]; }
  }

  lemma TwoEncodeDecode(p: bv8, q: bv8)
    requires Canonical([p, q])
    ensures Encode(Decode([p, q])) == [p, q]
  {
    assert IsBase64Char([p, q][0]) && IsBase64Char([p, q][1]);
    GroupEncodes(p, q, ZERO, ZERO);
  }

  lemma ThreeEncodeDecode(p: bv8, q: bv8, r: bv8)
    requires Canonical([p, q, r])
    ensures Encode(Decode([p, q, r])) == [p, q, r]
  {
    assert IsBase64Char([p, q, r][0]) && IsBase64Char([p, q, r][1]) && IsBase64Char([p, q, r][2]);
    GroupEncodes(p, q, r, ZERO);
  }

  lemma {:induction false} EncodeDecode(s: Bytes)
    requires Canonical(s)
    ensures Encode(Decode(s)) == s
  {
    if |s| == 2 {
      assert s == [s[0], s[1]];
      TwoEncodeDecode(s[0], s[1]);
    } else if |s| == 3 {
      assert s == [s[0], s[1], s[2]];
      ThreeEncodeDecode(s[0], s[1], s[2]);
    } else if |s| >= 4 {
      assert s == s[..4] + s[4..];
      CanonicalSplits(s[..4], s[4..]);
      EncodeDecode(s[4..]);
      GroupEncodes(s[0], s[1], s[2], s[3]);
      assert Decode(s)[3..] == Decode(s[4..]);
      assert s[..4] == [s[0], s[1], s[2], s[3]];
    }
  }

  lemma TrailingBits(a: bv8, b: bv8)
    ensures Sextet2(a, 0) & 15 == 0 && Sextet3(b, 0) & 3 == 0
  {
  }

  lemma {:induction false} EncodeCanonical(d: Bytes)
    ensures Canonical(Encode(d))
  {
    if d != [] {
      var b := if |d| > 1 then d[1] else 0;
      var c := if |d| > 2 then d[2] else 0;
      GroupDecodes(d[0], b, c);
      TrailingBits(d[0], b);
      if |d| > 2 {
        EncodeCanonical(d[3..]);
        CanonicalSplits(Group(d[0], b, c), Encode(d[3..]));
      }
    }
  }

  lemma {:induction false} EncodeLength(d: Bytes)
    ensures |Encode(d)| == 4 * (|d| / 3) + if |d| % 3 == 0 then 0 else |d| % 3 + 1
  {
    if |d| > 2 { EncodeLength(d[3..]); }
  }

  /** The canonical texts are exactly the encoder's outputs. */
  lemma CanonicalIsEncoded(s: Bytes)
    ensures Canonical(s) <==> exists d :: Encode(d) == s
  {
    if Canonical(s) { EncodeDecode(s); }
    if d :| Encode(d) == s { EncodeCanonical(d); }
  }

  lemma LastCharBits(c: bv8)
    requires IsBase64Char(c)
    ensures c in LAST_CHARS <==> CharSextet(c) & 3 == 0
  {
  }

  // ---- The encoding as a number ----

  /** The alphabet of section 5 of RFC 4648, in its order. */
  const ALPHABET := "ABCDEFGHIJKLMNOPQRSTUVWXYZ" + "abcdefghijklmnopqrstuvwxyz" + "0123456789-_"

  ghost predicate StandsAt(c: bv8, v: int) { 0 <= v < |ALPHABET| && ALPHABET[v] as int == c as int }

  ghost predicate HasPlace(c: bv8) { exists v :: StandsAt(c, v) }

  ghost predicate InAlphabet(s: Bytes) { forall i :: 0 <= i < |s| ==> HasPlace(s[i]) }

  /** The place of a character in the alphabet. */
  ghost function Place(c: bv8): int {
    if v :| StandsAt(c, v) then v else 0
  }

  /** A text as a number in base 64, its first character the most significant. */
  ghost function TextNumber(s: Bytes): int {
    if s == [] then 0 else 64 * TextNumber(s[..|s| - 1]) + Place(s[|s| - 1])
  }

  /** Bytes as a number in base 256, the first byte the most significant. */
  ghost function ByteNumber(d: Bytes): int {
    if d == [] then 0 else 256 * ByteNumber(d[..|d| - 1]) + d[|d| - 1] as int
  }

  lemma CapitalAt(v: int)
    requires 0 <= v < 26
    ensures |ALPHABET| == 64 && ALPHABET[v] as int == 0x41 + v
  {
  }

  lemma SmallAt(v: int)
    requires 26 <= v < 52
    ensures |ALPHABET| == 64 && ALPHABET[v] as int == 0x61 + v - 26
  {
  }

  lemma DigitAt(v: int)
    requires 52 <= v < 64
    ensures |ALPHABET| == 64 && ALPHABET[v] as int == if v < 62 then 0x30 + v - 52 else if v == 62 then 0x2D else 0x5F
  {
  }

  lemma CharAt(v: int)
    requires 0 <= v < 64
    ensures |ALPHABET| == 64
    ensures ALPHABET[v] as int ==
      if v < 26 then 0x41 + v else if v < 52 then 0x61 + v - 26 else if v < 62 then 0x30 + v - 52
      else if v == 62 then 0x2D else 0x5F
  {
    if v < 26 { CapitalAt(v); } else if v < 52 { SmallAt(v); } else { DigitAt(v); }
  }

  lemma SextetCharCode(v: bv8)
    requires v < 64
    ensures v as int < 64
    ensures SextetChar(v) as int ==
      if v as int < 26 then 0x41 + v as int else if v as int < 52 then 0x61 + v as int - 26
      else if v as int < 62 then 0x30 + v as int - 52 else if v as int == 62 then 0x2D else 0x5F
  {
  }

  lemma SextetStands(v: bv8)
    requires v < 64
    ensures HasPlace(SextetChar(v)) && Place(SextetChar(v)) == v as int
  {
    SextetCharCode(v);
    CharAt(v as int);
    assert StandsAt(SextetChar(v), v as int);
    PlaceUnique(SextetChar(v), v as int);
  }

  lemma PlaceUnique(c: bv8, v: int)
    requires StandsAt(c, v)
    ensures Place(c) == v
  {
    CharAt(0);
    CharAt(v);
    CharAt(Place(c));
  }

  lemma FirstBits(a: bv8)
    ensures Sextet1(a) as int * 4 + (a & 3) as int == a as int
  {
  }

  lemma SecondBits(a: bv8, b: bv8)
    ensures Sextet2(a, b) as int == (a & 3) as int * 16 + (b >> 4) as int
    ensures (b >> 4) as int * 16 + (b & 15) as int == b as int
  {
  }

  lemma LastBits(b: bv8, c: bv8)
    ensures Sextet3(b, c) as int == (b & 15) as int * 4 + (c >> 6) as int
    ensures (c >> 6) as int * 64 + Sextet4(c) as int == c as int
  {
  }

  /** The 24 bits of three bytes are the 24 bits of four sextets. */
  lemma GroupBits(a: bv8, b: bv8, c: bv8)
    ensures Sextet1(a) as int * 262144 + Sextet2(a, b) as int * 4096 + Sextet3(b, c) as int * 64 + Sextet4(c) as int
      == a as int * 65536 + b as int * 256 + c as int
  {
    FirstBits(a);
    SecondBits(a, b);
    LastBits(b, c);
    SumBits(Sextet1(a) as int, Sextet2(a, b) as int, Sextet3(b, c) as int, Sextet4(c) as int,
            a as int, b as int, c as int, (a & 3) as int, (b >> 4) as int, (b & 15) as int, (c >> 6) as int);
  }

  lemma SumBits(p: int, q: int, r: int, t: int, a: int, b: int, c: int, low: int, high: int, rest: int, top: int)
    requires p * 4 + low == a && q == low * 16 + high && high * 16 + rest == b
    requires r == rest * 4 + top && top * 64 + t == c
    ensures p * 262144 + q * 4096 + r * 64 + t == a * 65536 + b * 256 + c
  {
  }

  lemma NoBits()
    ensures ((0 as bv8) >> 4) as int == 0
    ensures forall b: bv8 :: Sextet3(b, 0) as int == (b & 15) as int * 4
  {
  }

  lemma GroupStands(a: bv8, b: bv8, c: bv8)
    ensures var g := Group(a, b, c);
      && InAlphabet(g)
      && Place(g[0]) == Sextet1(a) as int && Place(g[1]) == Sextet2(a, b) as int
      && Place(g[2]) == Sextet3(b, c) as int && Place(g[3]) == Sextet4(c) as int
  {
    PackedBytes(a, b, c);
    SextetStands(Sextet1(a));
    SextetStands(Sextet2(a, b));
    SextetStands(Sextet3(b, c));
    SextetStands(Sextet4(c));
  }

  lemma TextEnds(s: Bytes, p: bv8)
    ensures TextNumber(s + [p]) == 64 * TextNumber(s) + Place(p)
  {
    assert (s + [p])[..|s|] == s;
  }

  lemma BytesEnd(d: Bytes, a: bv8)
    ensures ByteNumber(d + [a]) == 256 * ByteNumber(d) + a as int
  {
    assert (d + [a])[..|d|] == d;
  }

  /** Characters at the end. */
  lemma TextContinues(s: Bytes, p: bv8, q: bv8, r: bv8, t: bv8)
    ensures TextNumber(s + [p, q]) == 4096 * TextNumber(s) + 64 * Place(p) + Place(q)
    ensures TextNumber(s + [p, q, r]) == 262144 * TextNumber(s) + 4096 * Place(p) + 64 * Place(q) + Place(r)
    ensures TextNumber(s + [p, q, r, t])
      == 16777216 * TextNumber(s) + 262144 * Place(p) + 4096 * Place(q) + 64 * Place(r) + Place(t)
  {
    assert s + [p, q] == (s + [p]) + [q];
    assert s + [p, q, r] == (s + [p, q]) + [r];
    assert s + [p, q, r, t] == (s + [p, q, r]) + [t];
    TextEnds(s, p);
    TextEnds(s + [p], q);
    TextEnds(s + [p, q], r);
    TextEnds(s + [p, q, r], t);
  }

  lemma BytesContinue(d: Bytes, a: bv8, b: bv8, c: bv8)
    ensures ByteNumber(d + [a, b]) == 65536 * ByteNumber(d) + 256 * a as int + b as int
    ensures ByteNumber(d + [a, b, c]) == 16777216 * ByteNumber(d) + 65536 * a as int + 256 * b as int + c as int
  {
    assert d + [a, b] == (d + [a]) + [b];
    assert d + [a, b, c] == (d + [a, b]) + [c];
    BytesEnd(d, a);
    BytesEnd(d + [a], b);
    BytesEnd(d + [a, b], c);
  }

  lemma {:induction false} EncodeSplits(d: Bytes, k: nat, e: Bytes)
    requires |d| == 3 * k
    ensures Encode(d + e) == Encode(d) + Encode(e)
    decreases k
  {
    if k == 0 {
      assert d + e == e && Encode(d) == [];
    } else {
      EncodeSplits(d[3..], k - 1, e);
      assert d == [d[0], d[1], d[2]] + d[3..];
      HeadSplits(d[0], d[1], d[2], d[3..], e);
    }
  }

  lemma EncodeHead(a: bv8, b: bv8, c: bv8, rest: Bytes)
    ensures Encode([a, b, c] + rest) == Group(a, b, c) + Encode(rest)
  {
    assert ([a, b, c] + rest)[3..] == rest;
  }

  lemma HeadSplits(a: bv8, b: bv8, c: bv8, rest: Bytes, e: Bytes)
    requires Encode(rest + e) == Encode(rest) + Encode(e)
    ensures Encode([a, b, c] + rest + e) == Encode([a, b, c] + rest) + Encode(e)
  {
    EncodeHead(a, b, c, rest);
    EncodeHead(a, b, c, rest + e);
    Associates([a, b, c], rest, e);
    Associates(Group(a, b, c), Encode(rest), Encode(e));
  }

  lemma Associates(s: Bytes, t: Bytes, u: Bytes)
    ensures s + t + u == s + (t + u)
  {
  }

  /** How far the bits that fill the last character shift the number. */
  function Shift(n: nat): int { if n % 3 == 0 then 1 else if n % 3 == 1 then 16 else 4 }

  lemma {:induction false} EncodedInAlphabet(d: Bytes)
    ensures InAlphabet(Encode(d))
  {
    if d != [] {
      var b := if |d| > 1 then d[1] else 0;
      var c := if |d| > 2 then d[2] else 0;
      GroupStands(d[0], b, c);
      if |d| > 2 { EncodedInAlphabet(d[3..]); }
    }
  }

  // The text and the bytes at their ends: first in numbers alone.

  lemma FourMore(e: Bytes, n: int, p: bv8, q: bv8, r: bv8, t: bv8, v: int)
    requires TextNumber(e) == n && Place(p) * 262144 + Place(q) * 4096 + Place(r) * 64 + Place(t) == v
    ensures TextNumber(e + [p, q, r, t]) == 16777216 * n + v
  {
    TextContinues(e, p, q, r, t);
  }

  lemma ThreeMore(e: Bytes, n: int, p: bv8, q: bv8, r: bv8, v: int)
    requires TextNumber(e) == n && Place(p) * 4096 + Place(q) * 64 + Place(r) == 4 * v
    ensures TextNumber(e + [p, q, r]) == 4 * (65536 * n + v)
  {
    TextContinues(e, p, q, r, r);
  }

  lemma TwoMore(e: Bytes, n: int, p: bv8, q: bv8, v: int)
    requires TextNumber(e) == n && Place(p) * 64 + Place(q) == 16 * v
    ensures TextNumber(e + [p, q]) == 16 * (256 * n + v)
  {
    TextContinues(e, p, q, q, q);
  }

  lemma FourChars(a: bv8, b: bv8, c: bv8) returns (p: bv8, q: bv8, r: bv8, t: bv8)
    ensures Encode([a, b, c]) == [p, q, r, t]
    ensures Place(p) * 262144 + Place(q) * 4096 + Place(r) * 64 + Place(t)
      == a as int * 65536 + b as int * 256 + c as int
  {
    var g := Group(a, b, c);
    p, q, r, t := g[0], g[1], g[2], g[3];
    GroupStands(a, b, c);
    GroupBits(a, b, c);
  }

  lemma ThreeChars(a: bv8, b: bv8) returns (p: bv8, q: bv8, r: bv8)
    ensures Encode([a, b]) == [p, q, r]
    ensures Place(p) * 4096 + Place(q) * 64 + Place(r) == 4 * (a as int * 256 + b as int)
  {
    var g := Group(a, b, 0);
    p, q, r := g[0], g[1], g[2];
    GroupStands(a, b, 0);
    TwoByteBits(a, b);
  }

  lemma TwoChars(a: bv8) returns (p: bv8, q: bv8)
    ensures Encode([a]) == [p, q]
    ensures Place(p) * 64 + Place(q) == 16 * a as int
  {
    var g := Group(a, 0, 0);
    p, q := g[0], g[1];
    GroupStands(a, 0, 0);
    OneByteBits(a);
  }

  lemma OneByteBits(a: bv8)
    ensures Sextet1(a) as int * 64 + Sextet2(a, 0) as int == 16 * a as int
  {
    FirstBits(a);
    SecondBits(a, 0);
    NoBits();
  }

  lemma TwoByteBits(a: bv8, b: bv8)
    ensures Sextet1(a) as int * 4096 + Sextet2(a, b) as int * 64 + Sextet3(b, 0) as int
      == 4 * (a as int * 256 + b as int)
  {
    FirstBits(a);
    SecondBits(a, b);
    NoBits();
    SumTwo(Sextet1(a) as int, Sextet2(a, b) as int, Sextet3(b, 0) as int, a as int, b as int,
           (a & 3) as int, (b >> 4) as int, (b & 15) as int);
  }

  lemma SumTwo(p: int, q: int, r: int, a: int, b: int, low: int, high: int, rest: int)
    requires p * 4 + low == a && q == low * 16 + high && high * 16 + rest == b && r == rest * 4
    ensures p * 4096 + q * 64 + r == 4 * (a * 256 + b)
  {
  }

  lemma LastGroup(d: Bytes, k: nat) returns (front: Bytes, a: bv8, b: bv8, c: bv8)
    requires |d| == 3 * k && k > 0
    ensures |front| == 3 * (k - 1) && d == front + [a, b, c]
  {
    front, a, b, c := d[..|d| - 3], d[|d| - 3], d[|d| - 2], d[|d| - 1];
  }

  lemma {:induction false} WholeNumber(d: Bytes, k: nat)
    requires |d| == 3 * k
    ensures TextNumber(Encode(d)) == ByteNumber(d)
    decreases k
  {
    if k > 0 {
      var front, a, b, c := LastGroup(d, k);
      WholeNumber(front, k - 1);
      GroupMore(front, k - 1, a, b, c);
    }
  }

  lemma GroupMore(d: Bytes, k: nat, a: bv8, b: bv8, c: bv8)
    requires |d| == 3 * k && TextNumber(Encode(d)) == ByteNumber(d)
    ensures TextNumber(Encode(d + [a, b, c])) == ByteNumber(d + [a, b, c])
  {
    var p, q, r, t := FourChars(a, b, c);
    EncodeSplits(d, k, [a, b, c]);
    BytesContinue(d, a, b, c);
    FourMore(Encode(d), ByteNumber(d), p, q, r, t, a as int * 65536 + b as int * 256 + c as int);
  }

  lemma OneMoreByte(d: Bytes, k: nat, a: bv8)
    requires |d| == 3 * k
    ensures TextNumber(Encode(d + [a])) == 16 * ByteNumber(d + [a])
  {
    WholeNumber(d, k);
    var p, q := TwoChars(a);
    EncodeSplits(d, k, [a]);
    BytesEnd(d, a);
    TwoMore(Encode(d), ByteNumber(d), p, q, a as int);
  }

  lemma TwoMoreBytes(d: Bytes, k: nat, a: bv8, b: bv8)
    requires |d| == 3 * k
    ensures TextNumber(Encode(d + [a, b])) == 4 * ByteNumber(d + [a, b])
  {
    WholeNumber(d, k);
    var p, q, r := ThreeChars(a, b);
    EncodeSplits(d, k, [a, b]);
    BytesContinue(d, a, b, 0);
    ThreeMore(Encode(d), ByteNumber(d), p, q, r, a as int * 256 + b as int);
  }

  /** The encoding of bytes, read as a number in base 64 by the places of its characters in the alphabet, is the
      bytes read as a number in base 256, shifted by the 0, 4 or 2 bits that fill the last character. */
  lemma EncodesNumber(d: Bytes)
    ensures InAlphabet(Encode(d)) && TextNumber(Encode(d)) == Shift(|d|) * ByteNumber(d)
  {
    EncodedInAlphabet(d);
    var k, whole, rest := WholeGroups(d);
    if |rest| == 0 {
      WholeNumber(d, k);
    } else if |rest| == 1 {
      OneMoreByte(whole, k, rest[0]);
    } else {
      TwoMoreBytes(whole, k, rest[0], rest[1]);
    }
  }

  lemma WholeGroups(d: Bytes) returns (k: nat, whole: Bytes, rest: Bytes)
    ensures |whole| == 3 * k && d == whole + rest
    ensures match |rest|
      case 0 => d == whole && Shift(|d|) == 1
      case 1 => rest == [rest[0]] && Shift(|d|) == 16
      case _ => rest == [rest[0], rest[1]] && Shift(|d|) == 4
  {
    k := |d| / 3;
    whole, rest := d[..3 * k], d[3 * k..];
  }

  lemma PlaceBelow(c: bv8)
    ensures 0 <= Place(c) < 64
  {
    CharAt(0);
  }

  lemma SameDigits(m: int, n: int, v: int, w: int)
    requires 64 * m + v == 64 * n + w && 0 <= v < 64 && 0 <= w < 64
    ensures m == n && v == w
  {
  }

  /** A text of the alphabet is known by its length and its number. */
  lemma {:induction false} TextUnique(s: Bytes, t: Bytes)
    requires |s| == |t| && InAlphabet(s) && InAlphabet(t) && TextNumber(s) == TextNumber(t)
    ensures s == t
  {
    if s != [] {
      var front, c := LastChar(s);
      var start, e := LastChar(t);
      PlaceBelow(c);
      PlaceBelow(e);
      SameDigits(TextNumber(front), TextNumber(start), Place(c), Place(e));
      SamePlace(c, e);
      TextUnique(front, start);
    }
  }

  lemma LastChar(s: Bytes) returns (front: Bytes, c: bv8)
    requires s != [] && InAlphabet(s)
    ensures s == front + [c] && |front| == |s| - 1 && InAlphabet(front) && HasPlace(c)
    ensures TextNumber(s) == 64 * TextNumber(front) + Place(c)
  {
    front, c := s[..|s| - 1], s[|s| - 1];
  }

  lemma SamePlace(c: bv8, e: bv8)
    requires HasPlace(c) && HasPlace(e) && Place(c) == Place(e)
    ensures c == e
  {
    assert c as int == e as int;
    IntUnique(c, e);
  }

  lemma IntUnique(c: bv8, e: bv8)
    requires c as int == e as int
    ensures c == e
  {
  }

  /** 43 characters of the alphabet that, as a number, are the digest shifted by two bits. */
  ghost predicate Names(challenge: Bytes, digest: Digest) {
    |challenge| == 43 && InAlphabet(challenge) && TextNumber(challenge) == 4 * ByteNumber(digest)
  }

  lemma NamesExactly(challenge: Bytes, digest: Digest)
    ensures challenge == Encode(digest) <==> Names(challenge, digest)
  {
    EncodesNumber(digest);
    EncodeLength(digest);
    if Names(challenge, digest) { TextUnique(challenge, Encode(digest)); }
  }

  // ---- The main results ----

  lemma DigestOf(s: Bytes) returns (d: Digest)
    requires ValidChallenge(s)
    ensures Encode(d) == s
  {
    LastCharBits(s[42]);
    EncodeDecode(s);
    EncodeLength(Decode(s));
    d := Decode(s);
  }

  /** `valid_s256_challenge` accepts a string exactly when it is the unpadded base64url encoding of some
      32 bytes. */
  lemma ChallengeExact(s: Bytes)
    ensures ValidChallenge(s) <==> exists d: Digest :: Encode(d) == s
  {
    if ValidChallenge(s) {
      var d := DigestOf(s);
    }
    if d: Digest :| Encode(d) == s {
      EncodeCanonical(d);
      EncodeLength(d);
      LastCharBits(s[42]);
    }
  }

  /** Every challenge the library makes is accepted, and a verifier passes against it exactly when it
      hashes to the same digest. */
  lemma ChallengeBinds(verifier: Bytes, other: Bytes, sha256: Bytes -> Digest)
    ensures ValidChallenge(Challenge(verifier, sha256))
    ensures Challenge(other, sha256) == Challenge(verifier, sha256) <==> sha256(other) == sha256(verifier)
  {
    ChallengeExact(Challenge(verifier, sha256));
    DecodeEncode(sha256(verifier));
    DecodeEncode(sha256(other));
  }
}
