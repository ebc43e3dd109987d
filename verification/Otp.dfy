/** `generate_numeric_otp`: digits by rejection sampling from a stream of random bytes. */
module Otp {
  import opened Wrappers
  import EmailProof

  type byte = b: int | 0 <= b < 256

  datatype Error = RandomGenerationFailed

  /** 250 is the largest multiple of 10 within a byte. */
  const BOUND := 250

  function Accepted(bytes: seq<byte>): (r: seq<byte>)
    ensures |r| <= |bytes|
  {
    if bytes == [] then []
    else
      var last := bytes[|bytes| - 1];
      Accepted(bytes[..|bytes| - 1]) + if last < BOUND then [last] else []
  }

  function Digit(b: byte): char { "0123456789"[b % 10] }

  function Digits(bytes: seq<byte>): string { seq(|bytes|, i requires 0 <= i < |bytes| => Digit(bytes[i])) }

  /** `at` are the places of the bytes below 250, in order, and `accepted` is what stands there. */
  ghost predicate StandAt(bytes: seq<byte>, accepted: seq<byte>, at: seq<nat>) {
    && |at| == |accepted|
    && (forall i :: 0 <= i < |at| ==> at[i] < |bytes| && accepted[i] == bytes[at[i]] && bytes[at[i]] < 250)
    && (forall i, j :: 0 <= i < j < |at| ==> at[i] < at[j])
    && (forall k: nat :: k < |bytes| && bytes[k] < 250 ==> k in at)
  }

  /** The accepted bytes are exactly those below 250, in their order. */
  lemma {:induction false} AcceptedAre(bytes: seq<byte>) returns (at: seq<nat>)
    ensures StandAt(bytes, Accepted(bytes), at)
  {
    at := [];
    if bytes != [] {
      var n := |bytes| - 1;
      at := AcceptedAre(bytes[..n]);
      StandsNext(bytes[..n], bytes[n], Accepted(bytes[..n]), at);
      assert bytes == bytes[..n] + [bytes[n]];
      if bytes[n] < BOUND { at := at + [n]; }
    }
  }

  lemma StandsNext(bytes: seq<byte>, b: byte, accepted: seq<byte>, at: seq<nat>)
    requires StandAt(bytes, accepted, at)
    ensures b < 250 ==> StandAt(bytes + [b], accepted + [b], at + [|bytes|])
    ensures b >= 250 ==> StandAt(bytes + [b], accepted, at)
  {
    var all := bytes + [b];
    assert forall k: nat :: k < |bytes| ==> all[k] == bytes[k];
    if b < 250 {
      assert (at + [|bytes|])[|at|] == |bytes|;
      assert forall k :: k in at ==> k in at + [|bytes|];
    }
  }

  lemma DigitCode(b: byte)
    ensures Digit(b) as int == '0' as int + b % 10
  {
  }

  // ---- Drawing from the stream in pieces ----

  lemma AcceptedNext(stream: seq<byte>, n: nat)
    requires n < |stream|
    ensures Accepted(stream[..n + 1]) == Accepted(stream[..n]) + if stream[n] < BOUND then [stream[n]] else []
  {
    assert stream[..n + 1][..n] == stream[..n];
  }

  lemma {:induction false} AcceptedGrows(stream: seq<byte>, m: nat, n: nat)
    requires m <= n <= |stream|
    ensures Accepted(stream[..m]) <= Accepted(stream[..n])
    ensures |Accepted(stream[..n])| <= |Accepted(stream[..m])| + n - m
  {
    if m < n {
      AcceptedGrows(stream, m, n - 1);
      AcceptedNext(stream, n - 1);
    }
  }

  /** What the first `n` bytes have given: `length - remaining` digits, and all of them used unless
      nothing remains. */
  predicate Sampled(stream: seq<byte>, n: nat, length: nat, remaining: nat, digits: string) {
    && n <= |stream| && remaining <= length
    && var got, accepted := length - remaining, Accepted(stream[..n]);
    && got <= |accepted| && (remaining > 0 ==> got == |accepted|)
    && digits == Digits(accepted[..got])
  }

  lemma SampledNext(stream: seq<byte>, n: nat, length: nat, remaining: nat, digits: string)
    requires Sampled(stream, n, length, remaining, digits) && remaining > 0 && n < |stream|
    ensures if stream[n] < BOUND
      then Sampled(stream, n + 1, length, remaining - 1, digits + [Digit(stream[n])])
      else Sampled(stream, n + 1, length, remaining, digits)
  {
    var before := Accepted(stream[..n]);
    AcceptedNext(stream, n);
    assert before[..length - remaining] == before;
    if stream[n] < BOUND {
      assert (before + [stream[n]])[..length - remaining + 1] == before + [stream[n]];
    }
  }

  lemma SampledLater(stream: seq<byte>, m: nat, n: nat, length: nat, remaining: nat, digits: string)
    requires Sampled(stream, m, length, remaining, digits) && m <= n <= |stream| && (m == n || remaining == 0)
    ensures Sampled(stream, n, length, remaining, digits)
  {
    AcceptedGrows(stream, m, n);
    assert Accepted(stream[..n])[..length - remaining] == Accepted(stream[..m])[..length - remaining];
  }

  /** What is left to draw after the first `n` bytes, and the digits drawn. */
  function Drawn(stream: seq<byte>, n: nat, length: nat): (r: (nat, string))
    requires n <= |stream|
  {
    if n == 0 then (length, "")
    else
      var (remaining, digits) := Drawn(stream, n - 1, length);
      if remaining > 0 && stream[n - 1] < BOUND then (remaining - 1, digits + [Digit(stream[n - 1])])
      else (remaining, digits)
  }

  lemma {:induction false} DrawnSampled(stream: seq<byte>, n: nat, length: nat)
    requires n <= |stream|
    ensures var (remaining, digits) := Drawn(stream, n, length);
      Sampled(stream, n, length, remaining, digits)
  {
    if n > 0 {
      var (remaining, digits) := Drawn(stream, n - 1, length);
      DrawnSampled(stream, n - 1, length);
      if remaining > 0 {
        SampledNext(stream, n - 1, length, remaining, digits);
      } else {
        SampledLater(stream, n - 1, n, length, remaining, digits);
      }
    }
  }

  lemma {:induction false} DrawnEnough(stream: seq<byte>, m: nat, n: nat, length: nat)
    requires m <= n <= |stream| && Drawn(stream, m, length).0 == 0
    ensures Drawn(stream, n, length) == Drawn(stream, m, length)
    decreases n
  {
    if m < n { DrawnEnough(stream, m, n - 1, length); }
  }

  lemma EnoughAccepted(stream: seq<byte>, n: nat, length: nat)
    requires n <= |stream| && Drawn(stream, n, length).0 == 0
    ensures |Accepted(stream)| >= length && Drawn(stream, n, length).1 == Digits(Accepted(stream)[..length])
  {
    DrawnSampled(stream, n, length);
    SampledLater(stream, n, |stream|, length, 0, Drawn(stream, n, length).1);
    assert stream[..|stream|] == stream;
  }

  lemma StreamTooShort(stream: seq<byte>, n: nat, length: nat)
    requires n <= |stream| && |stream| - n < 2 * Drawn(stream, n, length).0
    ensures |Accepted(stream)| < 2 * length
  {
    DrawnSampled(stream, n, length);
    AcceptedGrows(stream, n, |stream|);
    assert stream[..|stream|] == stream;
  }

  /** The random source is `stream`; a request for more than is left of it fails. The digits come from
      the first `length` bytes below 250: how the bytes are drawn in rounds, and what is left over of
      the last round, does not matter. */
  method GenerateOtp(length: nat, stream: seq<byte>) returns (r: Result<string, Error>)
    ensures r.Ok? ==> |Accepted(stream)| >= length && r.value == Digits(Accepted(stream)[..length])
    ensures r.Ok? ==>
      && |r.value| == length
      && forall i :: 0 <= i < length ==> r.value[i] as int == '0' as int + Accepted(stream)[i] % 10
    ensures r.Err? ==> |Accepted(stream)| < 2 * length
  {
    var digits: string := "";
    var remaining := length;
    var drawn: nat := 0;
    while remaining > 0
      invariant drawn <= |stream| && Drawn(stream, drawn, length) == (remaining, digits)
      decreases |stream| - drawn
    {
      if |stream| - drawn < remaining * 2 {
        StreamTooShort(stream, drawn, length);
        return Err(RandomGenerationFailed);
      }
      var bytes := stream[drawn..drawn + remaining * 2];
      var i := 0;
      while i < |bytes|
        invariant i <= |bytes|
        invariant Drawn(stream, drawn + i, length) == (remaining, digits)
      {
        if remaining == 0 { break; }
        var b := bytes[i];
        if b < BOUND {
          digits := digits + [Digit(b)];
          remaining := remaining - 1;
        }
        i := i + 1;
      }
      if remaining == 0 { DrawnEnough(stream, drawn + i, drawn + |bytes|, length); }
      drawn := drawn + |bytes|;
    }
    EnoughAccepted(stream, drawn, length);
    forall i | 0 <= i < length ensures digits[i] as int == '0' as int + Accepted(stream)[i] % 10 {
      DigitCode(Accepted(stream)[i]);
    }
    return Ok(digits);
  }

  // ---- No digit is favoured ----

  predicate IsDigit(c: char) { '0' <= c <= '9' }

  /** The accepted bytes that give a digit. */
  function DigitBytes(c: char): set<byte> { set b: byte | b < BOUND && Digit(b) == c }

  lemma DigitIs(b: byte, c: char)
    requires IsDigit(c)
    ensures Digit(b) == c <==> b % 10 == c as int - '0' as int
  {
  }

  function DigitBytesBelow(d: int, k: nat): set<byte> { set b: byte | b < BOUND && b < 10 * k && b % 10 == d }

  lemma OneInTen(x: int, d: int, k: nat)
    requires 0 <= d < 10 && 0 <= x && k > 0
    ensures x < 10 * k && x % 10 == d <==> (x < 10 * (k - 1) && x % 10 == d) || x == 10 * (k - 1) + d
  {
    assert x == 10 * (x / 10) + x % 10;
  }

  lemma {:induction false} CountBelow(d: int, k: nat)
    requires 0 <= d < 10 && k <= 25
    ensures |DigitBytesBelow(d, k)| == k
  {
    if k == 0 {
      assert DigitBytesBelow(d, 0) == {};
    } else {
      CountBelow(d, k - 1);
      var b: byte := 10 * (k - 1) + d;
      forall x: byte ensures x in DigitBytesBelow(d, k) <==> x in DigitBytesBelow(d, k - 1) || x == b {
        OneInTen(x, d, k);
      }
      assert DigitBytesBelow(d, k) == DigitBytesBelow(d, k - 1) + {b};
    }
  }

  /** Each digit has 25 accepted bytes. */
  lemma DigitHas25(c: char)
    requires IsDigit(c)
    ensures |DigitBytes(c)| == 25
  {
    var d := c as int - '0' as int;
    CountBelow(d, 25);
    forall b: byte ensures b in DigitBytes(c) <==> b in DigitBytesBelow(d, 25) {
      DigitIs(b, c);
    }
    assert DigitBytes(c) == DigitBytesBelow(d, 25);
  }

  /** The strings of accepted bytes that give these digits. */
  function Preimages(ds: string): set<seq<byte>> {
    if ds == "" then {[]} else Prefixed(DigitBytes(ds[0]), Preimages(ds[1..]))
  }

  function Prefixed(heads: set<byte>, tails: set<seq<byte>>): set<seq<byte>> {
    set b, rest | b in heads && rest in tails :: [b] + rest
  }

  predicate AllAccepted(bytes: seq<byte>) { forall i :: 0 <= i < |bytes| ==> bytes[i] < BOUND }

  lemma {:induction false} PreimagesExact(ds: string, bytes: seq<byte>)
    ensures bytes in Preimages(ds) <==> AllAccepted(bytes) && Digits(bytes) == ds
  {
    if ds != "" {
      InPrefixed(DigitBytes(ds[0]), Preimages(ds[1..]), bytes);
      if bytes != [] {
        PreimagesExact(ds[1..], bytes[1..]);
        assert bytes == [bytes[0]] + bytes[1..] && ds == [ds[0]] + ds[1..];
        assert Digits(bytes) == [Digit(bytes[0])] + Digits(bytes[1..]);
      }
    }
  }

  lemma InPrefixed(heads: set<byte>, tails: set<seq<byte>>, s: seq<byte>)
    ensures s in Prefixed(heads, tails) <==> s != [] && s[0] in heads && s[1..] in tails
  {
    if s in Prefixed(heads, tails) {
      var b, rest :| b in heads && rest in tails && s == [b] + rest;
      assert s[1..] == rest;
    }
    if s != [] && s[0] in heads && s[1..] in tails {
      assert s == [s[0]] + s[1..];
    }
  }

  lemma PrefixedSplits(b: byte, others: set<byte>, tails: set<seq<byte>>)
    requires b !in others
    ensures Prefixed(others + {b}, tails) == Prefixed({b}, tails) + Prefixed(others, tails)
    ensures Prefixed({b}, tails) !! Prefixed(others, tails)
  {
    forall s
      ensures s in Prefixed(others + {b}, tails) <==> s in Prefixed({b}, tails) || s in Prefixed(others, tails)
      ensures !(s in Prefixed({b}, tails) && s in Prefixed(others, tails))
    {
      InPrefixed(others + {b}, tails, s);
      InPrefixed({b}, tails, s);
      InPrefixed(others, tails, s);
    }
  }

  lemma OneMorePrefix(b: byte, others: set<byte>, tails: set<seq<byte>>)
    requires b !in others
    ensures |Prefixed(others + {b}, tails)| == |tails| + |Prefixed(others, tails)|
  {
    OnePrefix(b, tails);
    PrefixedSplits(b, others, tails);
  }

  lemma OneMore(m: nat, n: nat)
    ensures (m + 1) * n == n + m * n
  {
  }

  lemma {:induction false} PrefixedCount(heads: set<byte>, tails: set<seq<byte>>)
    ensures |Prefixed(heads, tails)| == |heads| * |tails|
    decreases heads
  {
    if heads == {} {
      assert Prefixed(heads, tails) == {};
    } else {
      var b :| b in heads;
      var others := heads - {b};
      PrefixedCount(others, tails);
      OneMorePrefix(b, others, tails);
      assert heads == others + {b};
      OneMore(|others|, |tails|);
    }
  }

  lemma {:induction false} OnePrefix(b: byte, tails: set<seq<byte>>)
    ensures |Prefixed({b}, tails)| == |tails|
    decreases tails
  {
    if tails == {} {
      assert Prefixed({b}, tails) == {};
    } else {
      var t :| t in tails;
      OnePrefix(b, tails - {t});
      forall s
        ensures s in Prefixed({b}, tails) <==> s in Prefixed({b}, tails - {t}) || s == [b] + t
        ensures s in Prefixed({b}, tails - {t}) ==> s != [b] + t
      {
        InPrefixed({b}, tails, s);
        InPrefixed({b}, tails - {t}, s);
        assert ([b] + t)[1..] == t;
        if s != [] && s[0] == b && s[1..] == t { assert s == [b] + t; }
      }
      assert Prefixed({b}, tails) == Prefixed({b}, tails - {t}) + {[b] + t};
    }
  }

  function Pow25(n: nat): nat { if n == 0 then 1 else 25 * Pow25(n - 1) }

  /** Every digit string of a length has the same number of accepted byte strings, so none is favoured
      when the bytes are uniform. */
  lemma {:induction false} PreimagesCount(ds: string)
    requires forall i :: 0 <= i < |ds| ==> IsDigit(ds[i])
    ensures |Preimages(ds)| == Pow25(|ds|)
  {
    if ds != "" {
      PreimagesCount(ds[1..]);
      DigitHas25(ds[0]);
      PrefixedCount(DigitBytes(ds[0]), Preimages(ds[1..]));
    }
  }

  /** A code of the email proof's length has the form that `confirm` insists on. */
  lemma CodeIsWellFormed(bytes: seq<byte>)
    requires |bytes| == EmailProof.CODE_DIGITS
    ensures EmailProof.WellFormed(Digits(bytes))
  {
    forall i | 0 <= i < |bytes| ensures IsDigit(Digits(bytes)[i]) {
      DigitInRange(bytes[i]);
    }
  }

  lemma DigitInRange(b: byte)
    ensures IsDigit(Digit(b))
  {
  }
}
