/** `encode_query`: percent-encode the parameters, sort the encoded pairs, join them. */
module CanonicalQuery {
  import opened PercentEncoding

  datatype Pair = Pair(name: Bytes, value: Bytes)

  // ---- The order of the encoded pairs ----

  predicate BytesLess(a: Bytes, b: Bytes) {
    b != [] && (a == [] || a[0] < b[0] || (a[0] == b[0] && BytesLess(a[1..], b[1..])))
  }

  /** Encoded name first, encoded value second. */
  predicate Less(a: Pair, b: Pair) {
    BytesLess(a.name, b.name) || (a.name == b.name && BytesLess(a.value, b.value))
  }

  lemma {:induction false} BytesTotal(a: Bytes, b: Bytes)
    ensures BytesLess(a, b) || BytesLess(b, a) || a == b
    ensures !(BytesLess(a, b) && BytesLess(b, a)) && !BytesLess(a, a)
  {
    if a != [] { BytesTotal(a[1..], a[1..]); }
    if a != [] && b != [] && a[0] == b[0] {
      BytesTotal(a[1..], b[1..]);
      assert a == [a[0]] + a[1..] && b == [b[0]] + b[1..];
    }
  }

  lemma {:induction false} BytesTransitive(a: Bytes, b: Bytes, c: Bytes)
    requires BytesLess(a, b) && BytesLess(b, c)
    ensures BytesLess(a, c)
  {
    if a != [] && a[0] == b[0] == c[0] {
      BytesTransitive(a[1..], b[1..], c[1..]);
    }
  }

  lemma LessTotal(a: Pair, b: Pair)
    ensures Less(a, b) || Less(b, a) || a == b
    ensures !(Less(a, b) && Less(b, a)) && !Less(a, a)
  {
    BytesTotal(a.name, b.name);
    BytesTotal(a.value, b.value);
    BytesTotal(a.name, a.name);
    BytesTotal(a.value, a.value);
  }

  lemma NotLessTransitive(a: Pair, b: Pair, c: Pair)
    requires !Less(b, a) && !Less(c, b)
    ensures !Less(c, a)
  {
    LessTotal(a, b);
    LessTotal(b, c);
    LessTotal(a, c);
    if Less(c, a) && a != b && b != c {
      LessTransitive(a, b, c);
    }
  }

  lemma LessTransitive(a: Pair, b: Pair, c: Pair)
    requires Less(a, b) && Less(b, c)
    ensures Less(a, c)
  {
    if BytesLess(a.name, b.name) && BytesLess(b.name, c.name) { BytesTransitive(a.name, b.name, c.name); }
    if BytesLess(a.value, b.value) && BytesLess(b.value, c.value) { BytesTransitive(a.value, b.value, c.value); }
  }

  // ---- Sorting ----

  predicate Ordered(s: seq<Pair>) { forall i, j :: 0 <= i < j < |s| ==> !Less(s[j], s[i]) }

  /** The library's `sort`, given by what it promises: the same pairs, in order. `SortUnique` makes it
      the only such list, whatever the algorithm. */
  function Sorted(s: seq<Pair>): (r: seq<Pair>)
    ensures |r| == |s|
  {
    if s == [] then [] else Inserted(Sorted(s[..|s| - 1]), s[|s| - 1])
  }

  function Inserted(s: seq<Pair>, p: Pair): (r: seq<Pair>)
    ensures |r| == |s| + 1
  {
    if s == [] || !Less(p, s[|s| - 1]) then s + [p]
    else Inserted(s[..|s| - 1], p) + [s[|s| - 1]]
  }

  lemma {:induction false} InsertedContents(s: seq<Pair>, p: Pair)
    ensures multiset(Inserted(s, p)) == multiset(s) + multiset{p}
  {
    if s != [] && Less(p, s[|s| - 1]) {
      InsertedContents(s[..|s| - 1], p);
      assert s == s[..|s| - 1] + [s[|s| - 1]];
    }
  }

  lemma {:induction false} InsertedOrdered(s: seq<Pair>, p: Pair)
    requires Ordered(s)
    ensures Ordered(Inserted(s, p))
  {
    if s != [] {
      var last := s[|s| - 1];
      if Less(p, last) {
        var init := s[..|s| - 1];
        InsertedOrdered(init, p);
        InsertedContents(init, p);
        forall q | q in Inserted(init, p) ensures !Less(last, q) {
          assert q in multiset(Inserted(init, p));
          LessTotal(p, last);
        }
      } else {
        forall q | q in s ensures !Less(p, q) {
          if q != last { NotLessTransitive(q, last, p); }
        }
      }
    }
  }

  /** Sorting gives an ordered permutation. */
  lemma {:induction false} SortedOrdered(s: seq<Pair>)
    ensures Ordered(Sorted(s)) && multiset(Sorted(s)) == multiset(s)
  {
    if s != [] {
      var init, last := s[..|s| - 1], s[|s| - 1];
      SortedOrdered(init);
      InsertedOrdered(Sorted(init), last);
      InsertedContents(Sorted(init), last);
      assert multiset(s) == multiset(init) + multiset{last} by { assert s == init + [last]; }
    }
  }

  /** There is only one ordered permutation of a list. */
  lemma {:induction false} SortUnique(s: seq<Pair>, t: seq<Pair>)
    requires Ordered(s) && Ordered(t) && multiset(s) == multiset(t)
    ensures s == t
  {
    if s == [] {
      assert |multiset(t)| == 0;
    } else {
      assert s[0] in multiset(t) && |multiset(s)| == |multiset(t)|;
      FirstIsLeast(s, t);
      assert s == [s[0]] + s[1..] && t == [t[0]] + t[1..];
      assert multiset(s[1..]) == multiset(s) - multiset{s[0]};
      assert multiset(t[1..]) == multiset(t) - multiset{t[0]};
      SortUnique(s[1..], t[1..]);
    }
  }

  lemma FirstIsLeast(s: seq<Pair>, t: seq<Pair>)
    requires Ordered(s) && Ordered(t) && multiset(s) == multiset(t) && s != [] && t != []
    ensures s[0] == t[0]
  {
    assert s[0] in multiset(t) && t[0] in multiset(s);
    var i :| 0 <= i < |t| && t[i] == s[0];
    var j :| 0 <= j < |s| && s[j] == t[0];
    LessTotal(s[0], t[0]);
  }

  // ---- Encoding, joining and parsing back ----

  function EncodePair(p: Pair): Pair { Pair(Encode(p.name, Query), Encode(p.value, Query)) }

  function DecodePair(p: Pair): Pair { Pair(Decode(p.name), Decode(p.value)) }

  function MapPairs(f: Pair -> Pair, ps: seq<Pair>): (r: seq<Pair>)
    ensures |r| == |ps|
  {
    if ps == [] then [] else MapPairs(f, ps[..|ps| - 1]) + [f(ps[|ps| - 1])]
  }

  function Rendered(p: Pair): Bytes { p.name + [EQUALS] + p.value }

  function Joined(ps: seq<Pair>): Bytes {
    if ps == [] then []
    else if |ps| == 1 then Rendered(ps[0])
    else Joined(ps[..|ps| - 1]) + [AMPERSAND] + Rendered(ps[|ps| - 1])
  }

  function CanonicalString(params: seq<Pair>): Bytes { Joined(Sorted(MapPairs(EncodePair, params))) }

  // ---- Sorting in place ----

  /** `p` goes before the pairs from `j` on. */
  predicate GoesBefore(s: seq<Pair>, p: Pair, j: nat)
    requires j <= |s|
  {
    Inserted(s, p) == Inserted(s[..j], p) + s[j..]
  }

  lemma GoesFurther(s: seq<Pair>, p: Pair, j: nat)
    requires 0 < j <= |s| && Less(p, s[j - 1]) && GoesBefore(s, p, j)
    ensures GoesBefore(s, p, j - 1)
  {
    assert s[..j][..j - 1] == s[..j - 1];
    assert s[j - 1..] == [s[j - 1]] + s[j..];
  }

  lemma GoesHere(s: seq<Pair>, p: Pair, j: nat)
    requires j <= |s| && (j > 0 ==> !Less(p, s[j - 1])) && GoesBefore(s, p, j)
    ensures Inserted(s, p) == s[..j] + [p] + s[j..]
  {
  }

  /** Moves the pair at `i` down to its place among the sorted ones before it. */
  method InsertAt(a: array<Pair>, i: nat)
    requires i < a.Length
    modifies a
    ensures a[..i + 1] == Inserted(old(a[..i]), old(a[i]))
    ensures forall k :: i < k < a.Length ==> a[k] == old(a[k])
  {
    ghost var s := a[..i];
    var p, j := a[i], i;
    assert s[..i] == s;
    while j > 0 && Less(p, a[j - 1])
      invariant j <= i && GoesBefore(s, p, j)
      invariant forall k :: 0 <= k < j ==> a[k] == s[k]
      invariant forall k :: j < k <= i ==> a[k] == s[k - 1]
      invariant forall k :: i < k < a.Length ==> a[k] == old(a[k])
    {
      GoesFurther(s, p, j);
      a[j] := a[j - 1];
      j := j - 1;
    }
    GoesHere(s, p, j);
    a[j] := p;
    assert a[..i + 1] == s[..j] + [p] + s[j..];
  }

  /** `sort`, as the insertions `Sorted` is made of. */
  method Sort(a: array<Pair>)
    modifies a
    ensures a[..] == Sorted(old(a[..]))
  {
    ghost var s := a[..];
    for i := 0 to a.Length
      invariant a[..i] == Sorted(s[..i])
      invariant forall k :: i <= k < a.Length ==> a[k] == s[k]
    {
      assert s[..i + 1][..i] == s[..i];
      InsertAt(a, i);
    }
    assert s[..a.Length] == s && a[..a.Length] == a[..];
  }

  /** `encode_query`: encode into a buffer, sort it in place, join. */
  method EncodeQuery(params: seq<Pair>) returns (query: Bytes)
    ensures query == CanonicalString(params)
    ensures InByteOrder(query)
    ensures multiset(MapPairs(DecodePair, ParseQuery(query))) == multiset(params)
  {
    query := EncodeSorted(params);
    QueryInByteOrder(params);
    QueryParsesBack(params);
  }

  /** The encoding itself; `EncodeQuery` adds what its output means. */
  method EncodeSorted(params: seq<Pair>) returns (query: Bytes)
    ensures query == CanonicalString(params)
  {
    var encoded := new Pair[|params|](_ => Pair([], []));
    for i := 0 to |params|
      invariant encoded[..i] == MapPairs(EncodePair, params[..i])
    {
      encoded[i] := EncodePair(params[i]);
      assert params[..i + 1][..i] == params[..i];
      assert encoded[..i + 1] == encoded[..i] + [encoded[i]];
    }
    assert params[..|params|] == params && encoded[..|params|] == encoded[..];
    Sort(encoded);
    query := Join(encoded);
  }

  method Join(pairs: array<Pair>) returns (query: Bytes)
    ensures query == Joined(pairs[..])
  {
    query := [];
    for i := 0 to pairs.Length
      invariant query == Joined(pairs[..i])
    {
      assert pairs[..i + 1][..i] == pairs[..i];
      query := if i == 0 then Rendered(pairs[i]) else query + [AMPERSAND] + Rendered(pairs[i]);
    }
    assert pairs[..pairs.Length] == pairs[..];
  }

  /** The text after the last `b`, and what is before it. */
  function LastIndex(s: Bytes, b: byte): (i: int)
    ensures -1 <= i < |s|
    ensures i >= 0 ==> s[i] == b
    ensures forall j :: i < j < |s| ==> s[j] != b
  {
    if s == [] then -1
    else if s[|s| - 1] == b then |s| - 1
    else LastIndex(s[..|s| - 1], b)
  }

  lemma LastIndexIs(s: Bytes, b: byte, i: int)
    requires -1 <= i < |s| && (i >= 0 ==> s[i] == b) && forall j :: i < j < |s| ==> s[j] != b
    ensures LastIndex(s, b) == i
  {
  }

  function ParsePair(s: Bytes): Pair {
    var i := LastIndex(s, EQUALS);
    if i < 0 then Pair(s, []) else Pair(s[..i], s[i + 1..])
  }

  /** Splits a query at every `&` and each part at its `=`; no parameters from the empty string. */
  function ParseQuery(s: Bytes): seq<Pair> {
    if s == [] then [] else ParseParts(s)
  }

  function ParseParts(s: Bytes): seq<Pair> {
    var i := LastIndex(s, AMPERSAND);
    if i < 0 then [ParsePair(s)] else ParseParts(s[..i]) + [ParsePair(s[i + 1..])]
  }

  predicate Plain(s: Bytes) { AMPERSAND !in s && EQUALS !in s }

  predicate PlainPair(p: Pair) { Plain(p.name) && Plain(p.value) }

  lemma EncodedPlain(p: Pair)
    ensures PlainPair(EncodePair(p))
  {
    EncodeCharset(p.name, Query);
    EncodeCharset(p.value, Query);
  }

  lemma ParseRendered(p: Pair)
    requires PlainPair(p)
    ensures ParsePair(Rendered(p)) == p && AMPERSAND !in Rendered(p) && Rendered(p) != []
  {
    LastIndexIs(Rendered(p), EQUALS, |p.name|);
    assert Rendered(p)[..|p.name|] == p.name && Rendered(p)[|p.name| + 1..] == p.value;
  }

  lemma ParseLast(front: Bytes, last: Bytes)
    requires AMPERSAND !in last
    ensures ParseParts(front + [AMPERSAND] + last) == ParseParts(front) + [ParsePair(last)]
  {
    var all := front + [AMPERSAND] + last;
    LastIndexIs(all, AMPERSAND, |front|);
    assert all[..|front|] == front && all[|front| + 1..] == last;
  }

  lemma ParseOne(p: Pair)
    requires PlainPair(p)
    ensures ParseParts(Rendered(p)) == [p]
  {
    ParseRendered(p);
    LastIndexIs(Rendered(p), AMPERSAND, -1);
  }

  lemma {:induction false} ParseJoined(ps: seq<Pair>)
    requires ps != [] && forall p <- ps :: PlainPair(p)
    ensures ParseParts(Joined(ps)) == ps && Joined(ps) != []
  {
    var init, last := ps[..|ps| - 1], ps[|ps| - 1];
    assert ps == init + [last];
    if init == [] {
      ParseOne(last);
    } else {
      ParseJoined(init);
      ParseRendered(last);
      ParseLast(Joined(init), Rendered(last));
      assert Joined(ps) == Joined(init) + [AMPERSAND] + Rendered(last);
    }
  }

  // ---- The main results ----

  lemma {:induction false} EncodedAt(ps: seq<Pair>, i: nat)
    requires i < |ps|
    ensures MapPairs(EncodePair, ps)[i] == EncodePair(ps[i])
  {
    if i < |ps| - 1 { EncodedAt(ps[..|ps| - 1], i); }
  }

  /** The output parses back to the encoded pairs in order, and those decode to the parameters. */
  lemma QueryParsesBack(params: seq<Pair>)
    ensures ParseQuery(CanonicalString(params)) == Sorted(MapPairs(EncodePair, params))
    ensures multiset(MapPairs(DecodePair, ParseQuery(CanonicalString(params)))) == multiset(params)
  {
    var encoded := MapPairs(EncodePair, params);
    var sorted := Sorted(encoded);
    SortedOrdered(encoded);
    forall p | p in sorted ensures PlainPair(p) {
      assert p in multiset(encoded);
      var i :| 0 <= i < |encoded| && encoded[i] == p;
      EncodedAt(params, i);
      EncodedPlain(params[i]);
    }
    if sorted != [] { ParseJoined(sorted); }
    MapPermutes(DecodePair, sorted, encoded);
    DecodedEncoded(params);
  }

  lemma {:induction false} DecodedEncoded(ps: seq<Pair>)
    ensures MapPairs(DecodePair, MapPairs(EncodePair, ps)) == ps
  {
    if ps != [] {
      var last := ps[|ps| - 1];
      DecodedEncoded(ps[..|ps| - 1]);
      DecodeEncode(last.name, Query);
      DecodeEncode(last.value, Query);
      assert MapPairs(EncodePair, ps)[..|ps| - 1] == MapPairs(EncodePair, ps[..|ps| - 1]);
    }
  }

  /** A list without its element at `i`. */
  function Without(ps: seq<Pair>, i: nat): (r: seq<Pair>)
    requires i < |ps|
    ensures |r| == |ps| - 1
  {
    ps[..i] + ps[i + 1..]
  }

  lemma WithoutContents(ps: seq<Pair>, i: nat)
    requires i < |ps|
    ensures multiset(ps) == multiset(Without(ps, i)) + multiset{ps[i]}
  {
    assert ps == ps[..i] + [ps[i]] + ps[i + 1..];
  }

  lemma WithoutBeforeLast(ps: seq<Pair>, i: nat)
    requires i < |ps| - 1
    ensures var init := ps[..|ps| - 1];
      Without(ps, i)[..|ps| - 2] == Without(init, i) && Without(ps, i)[|ps| - 2] == ps[|ps| - 1]
  {
  }

  lemma MapLast(f: Pair -> Pair, ps: seq<Pair>)
    requires ps != []
    ensures multiset(MapPairs(f, ps)) == multiset(MapPairs(f, ps[..|ps| - 1])) + multiset{f(ps[|ps| - 1])}
  {
  }

  lemma {:induction false} MapWithout(f: Pair -> Pair, ps: seq<Pair>, i: nat)
    requires i < |ps|
    ensures multiset(MapPairs(f, ps)) == multiset(MapPairs(f, Without(ps, i))) + multiset{f(ps[i])}
  {
    MapLast(f, ps);
    if i < |ps| - 1 {
      MapWithout(f, ps[..|ps| - 1], i);
      WithoutBeforeLast(ps, i);
      MapLast(f, Without(ps, i));
    } else {
      assert Without(ps, i) == ps[..|ps| - 1];
    }
  }

  lemma Cancel(a: multiset<Pair>, b: multiset<Pair>, p: Pair)
    requires a + multiset{p} == b + multiset{p}
    ensures a == b
  {
    assert a == (a + multiset{p}) - multiset{p} && b == (b + multiset{p}) - multiset{p};
  }

  lemma RestsAgree(s: seq<Pair>, t: seq<Pair>) returns (i: nat)
    requires multiset(s) == multiset(t) && s != []
    ensures i < |t| && t[i] == s[|s| - 1] && multiset(Without(t, i)) == multiset(s[..|s| - 1])
  {
    var last := |s| - 1;
    assert s[last] in multiset(t);
    i :| 0 <= i < |t| && t[i] == s[last];
    WithoutContents(s, last);
    WithoutContents(t, i);
    assert Without(s, last) == s[..last];
    Cancel(multiset(s[..last]), multiset(Without(t, i)), s[last]);
  }

  lemma {:induction false} MapPermutes(f: Pair -> Pair, s: seq<Pair>, t: seq<Pair>)
    requires multiset(s) == multiset(t)
    ensures multiset(MapPairs(f, s)) == multiset(MapPairs(f, t))
  {
    if s == [] {
      assert |multiset(t)| == 0;
    } else {
      var i := RestsAgree(s, t);
      MapPermutes(f, s[..|s| - 1], Without(t, i));
      MapLast(f, s);
      MapWithout(f, t, i);
    }
  }

  /** `a` is a beginning of `b`, or has the smaller byte where they first differ. */
  ghost predicate NotAfter(a: Bytes, b: Bytes) {
    a <= b || exists k :: 0 <= k < |a| && k < |b| && a[..k] == b[..k] && a[k] < b[k]
  }

  lemma {:induction false} NotLessIsNotAfter(a: Bytes, b: Bytes)
    requires !BytesLess(b, a)
    ensures NotAfter(a, b)
  {
    if a != [] && a[0] == b[0] {
      NotLessIsNotAfter(a[1..], b[1..]);
      if !(a[1..] <= b[1..]) {
        var k :| 0 <= k < |a| - 1 && k < |b| - 1 && a[1..][..k] == b[1..][..k] && a[1..][k] < b[1..][k];
        assert a[..k + 1] == [a[0]] + a[1..][..k] && b[..k + 1] == [b[0]] + b[1..][..k];
        assert a[k + 1] < b[k + 1];
      } else {
        assert a == [a[0]] + a[1..] && b == [b[0]] + b[1..];
      }
    } else if a != [] {
      assert a[..0] == b[..0] && a[0] < b[0];
    }
  }

  /** Read back, the parameters come in the byte order of their encoded names, and those of one name in the byte
      order of their encoded values. */
  ghost predicate InByteOrder(query: Bytes) {
    forall i, j :: 0 <= i < j < |ParseQuery(query)| ==>
      var a, b := ParseQuery(query)[i], ParseQuery(query)[j];
      NotAfter(a.name, b.name) && (a.name == b.name ==> NotAfter(a.value, b.value))
  }

  lemma QueryInByteOrder(params: seq<Pair>)
    ensures InByteOrder(CanonicalString(params))
  {
    var encoded := MapPairs(EncodePair, params);
    QueryParsesBack(params);
    SortedOrdered(encoded);
    var q := Sorted(encoded);
    forall i, j | 0 <= i < j < |q|
      ensures NotAfter(q[i].name, q[j].name) && (q[i].name == q[j].name ==> NotAfter(q[i].value, q[j].value))
    {
      assert !Less(q[j], q[i]);
      NotLessIsNotAfter(q[i].name, q[j].name);
      if q[i].name == q[j].name { NotLessIsNotAfter(q[i].value, q[j].value); }
    }
  }

  /** A parameter is its encoded name, `=` and its encoded value; two of them are joined by `&`, in order. */
  lemma QueryText(p: Pair, q: Pair)
    ensures CanonicalString([p]) == Encode(p.name, Query) + ['=' as byte] + Encode(p.value, Query)
    ensures BytesLess(Encode(p.name, Query), Encode(q.name, Query)) ==>
      CanonicalString([p, q]) == CanonicalString([q, p]) == CanonicalString([p]) + ['&' as byte] + CanonicalString([q])
  {
    OnePairText(p);
    OnePairText(q);
    if BytesLess(Encode(p.name, Query), Encode(q.name, Query)) {
      LessTotal(EncodePair(p), EncodePair(q));
      TwoPairsText(p, q);
    }
  }

  lemma OnePairText(p: Pair)
    ensures CanonicalString([p]) == Rendered(EncodePair(p))
  {
    assert [p][..0] == [];
    assert Sorted([EncodePair(p)]) == [EncodePair(p)];
  }

  lemma TwoPairsText(p: Pair, q: Pair)
    requires Less(EncodePair(p), EncodePair(q)) && !Less(EncodePair(q), EncodePair(p))
    ensures CanonicalString([p, q]) == Rendered(EncodePair(p)) + [AMPERSAND] + Rendered(EncodePair(q))
    ensures CanonicalString([q, p]) == CanonicalString([p, q])
  {
    var a, b := EncodePair(p), EncodePair(q);
    TwoMapped(p, q);
    TwoMapped(q, p);
    TwoSorted(a, b);
    assert [a, b][..1] == [a];
    assert Joined([a, b]) == Joined([a]) + [AMPERSAND] + Rendered(b);
  }

  lemma TwoMapped(p: Pair, q: Pair)
    ensures MapPairs(EncodePair, [p, q]) == [EncodePair(p), EncodePair(q)]
  {
    assert [p, q][..1] == [p] && [p][..0] == [];
    assert MapPairs(EncodePair, [p]) == [EncodePair(p)];
  }

  lemma TwoSorted(a: Pair, b: Pair)
    requires Less(a, b) && !Less(b, a)
    ensures Sorted([a, b]) == Sorted([b, a]) == [a, b]
  {
    assert [a, b][..1] == [a] && [b, a][..1] == [b] && [a][..0] == [] && [b][..0] == [];
    assert Sorted([a]) == [a] && Sorted([b]) == [b];
    assert Inserted([b], a) == Inserted([], a) + [b];
  }

  /** Two parameter lists sign as the same query exactly when one is a permutation of the other. */
  lemma SameQueryIffPermuted(ps: seq<Pair>, qs: seq<Pair>)
    ensures CanonicalString(ps) == CanonicalString(qs) <==> multiset(ps) == multiset(qs)
  {
    QueryParsesBack(ps);
    QueryParsesBack(qs);
    if multiset(ps) == multiset(qs) {
      var a, b := MapPairs(EncodePair, ps), MapPairs(EncodePair, qs);
      MapPermutes(EncodePair, ps, qs);
      SortedOrdered(a);
      SortedOrdered(b);
      SortUnique(Sorted(a), Sorted(b));
    }
  }
}
