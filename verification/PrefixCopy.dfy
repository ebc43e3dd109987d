/** What `copy_prefix` leaves in the bucket: one copy after another against all of them at once. */
module PrefixCopy {
  import opened Wrappers
  import opened ObjectKeys
  import opened ObjectStore
  import opened ObjectListing

  /** A stored source prefix and a stored destination prefix. */
  datatype Move = Move(src: Key, dst: Key) {
    function Target(k: Key): Key { if StartsWith(k, src) then dst + k[|src|..] else k }
  }

  /** The stored keys of a listing under the source prefix. */
  predicate Sources(m: Move, b: Bucket, ks: seq<Key>) {
    InBucket(b, ks) && Ascending(ks) && forall i :: 0 <= i < |ks| ==> StartsWith(ks[i], m.src)
  }

  /** One copy after another. */
  function Copied(m: Move, b: Bucket, ks: seq<Key>): Bucket {
    if ks == [] then b else
    var last := ks[|ks| - 1];
    ServeCopy(Copied(m, b, ks[..|ks| - 1]), last, m.Target(last), Done)
  }

  /** All copies at once: every destination holds what its source held before, and nothing else changes. */
  ghost predicate IsRename(m: Move, b: Bucket, ks: seq<Key>, after: Bucket)
    requires InBucket(b, ks)
  {
    && (forall k :: k in after <==> k in b || k in Targets(m, ks))
    && (forall i :: 0 <= i < |ks| ==> m.Target(ks[i]) in after && after[m.Target(ks[i])] == b[ks[i]])
    && (forall k :: k in b && k !in Targets(m, ks) ==> k in after && after[k] == b[k])
  }

  function Targets(m: Move, ks: seq<Key>): set<Key> { set i | 0 <= i < |ks| :: m.Target(ks[i]) }

  /** Some object is written before it is read. */
  predicate Collides(m: Move, ks: seq<Key>) {
    exists i, j :: 0 <= i < j < |ks| && m.Target(ks[i]) == ks[j]
  }

  lemma TargetInjective(m: Move, a: Key, b: Key)
    requires StartsWith(a, m.src) && StartsWith(b, m.src)
    ensures m.Target(a) == m.Target(b) <==> a == b
  {
    assert a == m.src + a[|m.src|..] && b == m.src + b[|m.src|..];
    assert m.Target(a)[|m.dst|..] == a[|m.src|..] && m.Target(b)[|m.dst|..] == b[|m.src|..];
  }

  lemma SourcesDiffer(m: Move, b: Bucket, ks: seq<Key>, i: nat, j: nat)
    requires Sources(m, b, ks) && i < j < |ks|
    ensures ks[i] != ks[j] && m.Target(ks[i]) != m.Target(ks[j])
  {
    LessTotal(ks[i], ks[j]);
    TargetInjective(m, ks[i], ks[j]);
  }

  lemma TargetsLast(m: Move, ks: seq<Key>)
    requires ks != []
    ensures Targets(m, ks) == Targets(m, ks[..|ks| - 1]) + {m.Target(ks[|ks| - 1])}
  {
    var init := ks[..|ks| - 1];
    forall k ensures k in Targets(m, ks) <==> k in Targets(m, init) || k == m.Target(ks[|ks| - 1]) {
      if k in Targets(m, ks) {
        var i :| 0 <= i < |ks| && m.Target(ks[i]) == k;
        if i < |init| { assert init[i] == ks[i]; }
      }
      if k in Targets(m, init) {
        var i :| 0 <= i < |init| && m.Target(init[i]) == k;
        assert init[i] == ks[i];
      }
    }
  }

  lemma SourcesInit(m: Move, b: Bucket, ks: seq<Key>)
    requires Sources(m, b, ks) && ks != []
    ensures Sources(m, b, ks[..|ks| - 1])
  {
  }

  lemma {:induction false} CopiedKeys(m: Move, b: Bucket, ks: seq<Key>)
    requires Sources(m, b, ks)
    ensures forall k :: k in Copied(m, b, ks) <==> k in b || k in Targets(m, ks)
  {
    if ks != [] {
      SourcesInit(m, b, ks);
      CopiedKeys(m, b, ks[..|ks| - 1]);
      TargetsLast(m, ks);
    }
  }

  /** A key that is no destination keeps its content. */
  lemma {:induction false} CopiedElsewhere(m: Move, b: Bucket, ks: seq<Key>, k: Key)
    requires Sources(m, b, ks) && k in b && k !in Targets(m, ks)
    ensures k in Copied(m, b, ks) && Copied(m, b, ks)[k] == b[k]
  {
    if ks != [] {
      SourcesInit(m, b, ks);
      TargetsLast(m, ks);
      CopiedElsewhere(m, b, ks[..|ks| - 1], k);
    }
  }

  lemma CopiedHas(m: Move, b: Bucket, ks: seq<Key>, i: nat)
    requires Sources(m, b, ks) && i < |ks|
    ensures Sources(m, b, ks[..i]) && ks[i] in Copied(m, b, ks[..i]) && m.Target(ks[i]) in Copied(m, b, ks)
  {
    CopiedKeys(m, b, ks[..i]);
    CopiedKeys(m, b, ks);
    assert m.Target(ks[i]) in Targets(m, ks);
  }

  lemma LaterCopiesKeep(m: Move, b: Bucket, ks: seq<Key>, i: nat)
    requires Sources(m, b, ks) && i < |ks| - 1 && m.Target(ks[i]) in Copied(m, b, ks[..|ks| - 1])
    ensures m.Target(ks[i]) in Copied(m, b, ks)
    ensures Copied(m, b, ks)[m.Target(ks[i])] == Copied(m, b, ks[..|ks| - 1])[m.Target(ks[i])]
  {
    SourcesDiffer(m, b, ks, i, |ks| - 1);
  }

  /** A destination keeps what its own copy wrote: what its source held at that moment. */
  lemma {:induction false} CopiedTarget(m: Move, b: Bucket, ks: seq<Key>, i: nat)
    requires Sources(m, b, ks) && i < |ks|
    ensures Sources(m, b, ks[..i]) && ks[i] in Copied(m, b, ks[..i]) && m.Target(ks[i]) in Copied(m, b, ks)
    ensures Copied(m, b, ks)[m.Target(ks[i])] == Copied(m, b, ks[..i])[ks[i]]
  {
    CopiedHas(m, b, ks, i);
    if i < |ks| - 1 {
      var init := ks[..|ks| - 1];
      SourcesInit(m, b, ks);
      CopiedTarget(m, b, init, i);
      assert init[..i] == ks[..i] && init[i] == ks[i];
      LaterCopiesKeep(m, b, ks, i);
    }
  }

  // ---- Without a collision ----

  lemma NotYetWritten(m: Move, b: Bucket, ks: seq<Key>, i: nat)
    requires Sources(m, b, ks) && !Collides(m, ks) && i < |ks|
    ensures ks[i] !in Targets(m, ks[..i])
  {
    forall j | 0 <= j < i ensures m.Target(ks[..i][j]) != ks[i] {
      assert ks[..i][j] == ks[j];
    }
  }

  /** When no object is written before it is read, copying one by one is copying all at once. */
  lemma CopyIsRename(m: Move, b: Bucket, ks: seq<Key>)
    requires Sources(m, b, ks) && !Collides(m, ks)
    ensures IsRename(m, b, ks, Copied(m, b, ks))
  {
    CopiedKeys(m, b, ks);
    forall i | 0 <= i < |ks|
      ensures m.Target(ks[i]) in Copied(m, b, ks) && Copied(m, b, ks)[m.Target(ks[i])] == b[ks[i]]
    {
      CopiedTarget(m, b, ks, i);
      NotYetWritten(m, b, ks, i);
      CopiedElsewhere(m, b, ks[..i], ks[i]);
    }
    forall k | k in b && k !in Targets(m, ks) ensures k in Copied(m, b, ks) && Copied(m, b, ks)[k] == b[k] {
      CopiedElsewhere(m, b, ks, k);
    }
  }

  // ---- With a collision ----

  predicate DistinctContents(b: Bucket) { forall j, k :: j in b && k in b && j != k ==> b[j] != b[k] }

  /** What a source holds when it is read is what some source up to it held at first. */
  lemma {:induction false} ReadComesFrom(m: Move, b: Bucket, ks: seq<Key>, i: nat) returns (origin: nat)
    requires Sources(m, b, ks) && i < |ks|
    ensures origin <= i && (ks[i] in Targets(m, ks[..i]) ==> origin < i)
    ensures ks[i] in Copied(m, b, ks[..i]) && Copied(m, b, ks[..i])[ks[i]] == b[ks[origin]]
    decreases i
  {
    CopiedKeys(m, b, ks[..i]);
    if ks[i] in Targets(m, ks[..i]) {
      var j :| 0 <= j < i && m.Target(ks[..i][j]) == ks[i];
      origin := ReadComesFrom(m, b, ks, j);
      CopiedTarget(m, b, ks[..i], j);
      assert ks[..i][..j] == ks[..j] && ks[..i][j] == ks[j];
    } else {
      origin := i;
      CopiedElsewhere(m, b, ks[..i], ks[i]);
    }
  }

  /** A collision shows as soon as contents differ: the object written too early is passed on. */
  lemma CollisionShows(m: Move, b: Bucket, ks: seq<Key>)
    requires Sources(m, b, ks) && Collides(m, ks) && DistinctContents(b)
    ensures !IsRename(m, b, ks, Copied(m, b, ks))
  {
    var i, j :| 0 <= i < j < |ks| && m.Target(ks[i]) == ks[j];
    assert ks[..j][i] == ks[i];
    assert ks[j] in Targets(m, ks[..j]);
    var origin := ReadComesFrom(m, b, ks, j);
    CopiedTarget(m, b, ks, j);
    SourcesDiffer(m, b, ks, origin, j);
  }

  /** Copying one by one is copying all at once, whatever the contents, if and only if no object is
      written before it is read. */
  lemma CopyIsRenameIff(m: Move, b: Bucket, ks: seq<Key>)
    requires Sources(m, b, ks) && DistinctContents(b)
    ensures IsRename(m, b, ks, Copied(m, b, ks)) <==> !Collides(m, ks)
  {
    if Collides(m, ks) { CollisionShows(m, b, ks); } else { CopyIsRename(m, b, ks); }
  }

  // ---- From the caller's side ----

  /** Only prefixes of which one extends the other can collide. */
  lemma UnrelatedPrefixes(m: Move, b: Bucket, ks: seq<Key>)
    requires Sources(m, b, ks)
    requires m.src == m.dst || (!StartsWith(m.src, m.dst) && !StartsWith(m.dst, m.src))
    ensures !Collides(m, ks)
  {
    forall i, j | 0 <= i < j < |ks| ensures m.Target(ks[i]) != ks[j] {
      SourcesDiffer(m, b, ks, i, j);
      PrefixesMeet(m.src, m.dst, m.Target(ks[i]));
    }
  }

  /** Some bucket makes these prefixes collide. */
  ghost predicate CanCollide(m: Move) { exists b: Bucket :: Collides(m, Matches(b, m.src, None)) }

  const TOP: char := '\U{10FFFF}'

  /** `a` is `b` and at least one more character, not all of them the last one there is. */
  predicate ExtendsBelowTop(a: Key, b: Key) {
    StartsWith(a, b) && exists i :: |b| <= i < |a| && a[i] != TOP
  }

  /** Prefixes can collide if and only if the destination properly extends the source, or the source the
      destination by more than repetitions of the last character there is. */
  lemma CanCollideIff(m: Move)
    ensures CanCollide(m) <==> (m.src != m.dst && StartsWith(m.dst, m.src)) || ExtendsBelowTop(m.src, m.dst)
  {
    if m.src != m.dst && StartsWith(m.dst, m.src) {
      LessUnderPrefix(m.src, "", m.dst[|m.src|..]);
      assert m.src + "" == m.src && m.src + m.dst[|m.src|..] == m.dst;
      assert m.Target(m.src) == m.dst;
      PairCollides(m, m.src, m.dst);
    } else if ExtendsBelowTop(m.src, m.dst) {
      StrippedCollides(m);
    } else if b: Bucket :| Collides(m, Matches(b, m.src, None)) {
      CollisionExtends(m, b);
    }
  }

  lemma PairCollides(m: Move, j: Key, k: Key)
    requires StartsWith(j, m.src) && StartsWith(k, m.src) && Less(j, k) && m.Target(j) == k
    ensures CanCollide(m)
  {
    var b: Bucket := map[j := 0, k := 0];
    assert Matching(b, m.src, None) == {j, k} == Elements([j, k]);
    InOrderAscends({j, k});
    AscendingUnique(Matches(b, m.src, None), [j, k]);
    assert Matches(b, m.src, None)[0] == j && Matches(b, m.src, None)[1] == k;
  }

  lemma StrippedCollides(m: Move)
    requires ExtendsBelowTop(m.src, m.dst)
    ensures CanCollide(m)
  {
    var i :| |m.dst| <= i < |m.src| && m.src[i] != TOP;
    var x := m.src[|m.dst|..];
    var r := x[..i - |m.dst|] + [TOP];
    BelowTopLess(x, i - |m.dst|);
    LessUnderPrefix(m.src, x + r, r);
    StrippedTarget(m, x, r);
    PairCollides(m, m.src + (x + r), m.src + r);
  }

  lemma BelowTopLess(x: Key, n: nat)
    requires n < |x| && x[n] != TOP
    ensures var r := x[..n] + [TOP]; Less(x + r, r)
  {
    FirstBelowTop(x[..n], x[n..], x[..n] + [TOP]);
    assert x == x[..n] + x[n..];
  }

  lemma FirstBelowTop(p: Key, q: Key, r: Key)
    requires q != "" && q[0] != TOP && r == p + [TOP]
    ensures Less((p + q) + r, r)
  {
    assert (q + r)[0] == q[0];
    LessUnderPrefix(p, q + r, [TOP]);
    assert (p + q) + r == p + (q + r);
  }

  lemma StrippedTarget(m: Move, x: Key, r: Key)
    requires m.src == m.dst + x
    ensures m.Target(m.src + (x + r)) == m.src + r
  {
    assert (m.src + (x + r))[|m.src|..] == x + r;
    assert m.dst + (x + r) == m.src + r;
  }

  /** A destination under the source prefix again: its source repeats what the source prefix adds. */
  lemma TargetRepeats(m: Move, j: Key, k: Key) returns (x: Key, r: Key)
    requires StartsWith(m.src, m.dst) && StartsWith(j, m.src) && StartsWith(k, m.src) && m.Target(j) == k
    ensures m.src == m.dst + x && j == m.src + (x + r) && k == m.src + r
  {
    x, r := m.src[|m.dst|..], k[|m.src|..];
    var q := j[|m.src|..];
    assert m.dst + q == m.dst + (x + r);
    assert q == (m.dst + q)[|m.dst|..] == (m.dst + (x + r))[|m.dst|..] == x + r;
  }

  lemma CollisionExtends(m: Move, b: Bucket)
    requires Collides(m, Matches(b, m.src, None))
    ensures (m.src != m.dst && StartsWith(m.dst, m.src)) || ExtendsBelowTop(m.src, m.dst)
  {
    var ks := Matches(b, m.src, None);
    MatchesAreSources(m, b);
    var i, j :| 0 <= i < j < |ks| && m.Target(ks[i]) == ks[j];
    if m.src == m.dst || !StartsWith(m.dst, m.src) {
      if m.src == m.dst || !StartsWith(m.src, m.dst) { UnrelatedPrefixes(m, b, ks); }
      var x, r := TargetRepeats(m, ks[i], ks[j]);
      LessUnderPrefix(m.src, x + r, r);
      if !ExtendsBelowTop(m.src, m.dst) { TopsNotLess(x, r); }
    }
  }

  lemma {:induction false} TopsNotLess(x: Key, r: Key)
    requires x != "" && forall i :: 0 <= i < |x| ==> x[i] == TOP
    ensures !Less(x + r, r)
  {
    if r != "" && r[0] == TOP {
      TopsNotLess(x, r[1..]);
      assert (x + r)[1..] == x + r[1..];
    }
  }

  lemma PrefixesMeet(a: Key, b: Key, t: Key)
    ensures StartsWith(t, a) && StartsWith(t, b) ==> StartsWith(a, b) || StartsWith(b, a)
  {
    if StartsWith(t, a) && StartsWith(t, b) {
      if |a| <= |b| {
        assert b[..|a|] == t[..|a|];
      } else {
        assert a[..|b|] == t[..|b|];
      }
    }
  }

  /** One object of the run: a copy that succeeds is the next one of `Copied`. */
  lemma CopyStep(c: Config, b: Bucket, src: Key, dst: Key, ks: seq<Key>, o: ListedObject, reply: CopyReply, i: nat)
    requires i < |ks| && StartsWith(o.key, src) && c.FullKey(o.key) == ks[i]
    ensures var m := Move(c.FullKey(src), c.FullKey(dst));
      var step := CopyOne(c, Copied(m, b, ks[..i]), o.key, dst + o.key[|src|..], reply);
      step.result.Ok? ==> step.bucket == Copied(m, b, ks[..i + 1])
  {
    TargetOfObject(c, src, dst, o.key);
    assert ks[..i + 1][..i] == ks[..i];
  }

  /** The stored keys of the listed objects. */
  predicate StoredAs(c: Config, objects: seq<ListedObject>, ks: seq<Key>) {
    |objects| == |ks| && forall j :: 0 <= j < |ks| ==> c.FullKey(objects[j].key) == ks[j]
  }

  /** A successful run of copies is `Copied`. */
  lemma {:induction false} RunIsCopied(c: Config, b: Bucket, src: Key, dst: Key, ks: seq<Key>,
                                       objects: seq<ListedObject>, replies: nat -> CopyReply, i: nat)
    requires i <= |ks| && AllUnder(objects, src) && StoredAs(c, objects, ks)
    ensures var m := Move(c.FullKey(src), c.FullKey(dst));
      var o := CopyRun(c, Copied(m, b, ks[..i]), objects[i..], src, dst, replies, i);
      o.result.Ok? ==> o.bucket == Copied(m, b, ks)
    decreases |ks| - i
  {
    if i == |ks| {
      assert ks[..i] == ks;
    } else {
      CopyFirst(c, Copied(Move(c.FullKey(src), c.FullKey(dst)), b, ks[..i]), objects, src, dst, replies, i);
      CopyStep(c, b, src, dst, ks, objects[i], replies(i), i);
      RunIsCopied(c, b, src, dst, ks, objects, replies, i + 1);
    }
  }

  lemma TargetOfObject(c: Config, src: Key, dst: Key, key: Key)
    requires StartsWith(key, src)
    ensures Move(c.FullKey(src), c.FullKey(dst)).Target(c.FullKey(key)) == c.FullKey(dst + key[|src|..])
  {
    PrefixIsKept(c, src, key);
    if c.Prefix().Some? {
      Rerooted(c.Prefix().value + "/", src, dst, key);
    }
  }

  lemma Rerooted(root: Key, src: Key, dst: Key, key: Key)
    requires StartsWith(key, src)
    ensures StartsWith(root + key, root + src)
    ensures (root + dst) + (root + key)[|root + src|..] == root + (dst + key[|src|..])
  {
    assert (root + key)[..|root + src|] == root + key[..|src|];
    assert (root + key)[|root + src|..] == key[|src|..];
  }

  /** `copy_prefix` when it succeeds: the bucket is the original with the listed objects copied one by
      one, which is all of them copied at once unless one prefix properly extends the other and some
      object is written before it is read. */
  lemma CopyPrefixOutcome(c: Config, b: Bucket, src: Key, dst: Key, replies: nat -> CopyReply)
    ensures AllUnder(Listing(c, b, src), src)
    ensures var o := CopyRun(c, b, Listing(c, b, src), src, dst, replies, 0);
      var m, ks := Move(c.FullKey(src), c.FullKey(dst)), Matches(b, c.FullKey(src), None);
      o.result.Ok? ==>
        && o.bucket == Copied(m, b, ks)
        && (!Collides(m, ks) ==> IsRename(m, b, ks, o.bucket))
        && (src == dst || (!StartsWith(src, dst) && !StartsWith(dst, src)) ==> !Collides(m, ks))
  {
    var list := Listing(c, b, src);
    var m, ks := Move(c.FullKey(src), c.FullKey(dst)), Matches(b, c.FullKey(src), None);
    ListingUnder(c, b, src);
    ListingSources(c, b, src, m);
    PrefixIsKept(c, dst, src);
    PrefixIsKept(c, src, dst);
    if CopyRun(c, b, list, src, dst, replies, 0).result.Ok? {
      assert list[0..] == list && ks[..0] == [];
      RunIsCopied(c, b, src, dst, ks, list, replies, 0);
      if !Collides(m, ks) { CopyIsRename(m, b, ks); }
      if src == dst || (!StartsWith(src, dst) && !StartsWith(dst, src)) { UnrelatedPrefixes(m, b, ks); }
    }
  }

  /** Where an error stops the run: the objects before are copied, this one as far as its own reply says, and
      the objects after are not sent. */
  lemma {:induction false} RunStops(
      c: Config, b: Bucket, src: Key, dst: Key, ks: seq<Key>, objects: seq<ListedObject>,
      replies: nat -> CopyReply, i: nat)
    returns (n: nat)
    requires i <= |ks| && AllUnder(objects, src) && StoredAs(c, objects, ks)
    requires var m := Move(c.FullKey(src), c.FullKey(dst));
      CopyRun(c, Copied(m, b, ks[..i]), objects[i..], src, dst, replies, i).result.Err?
    ensures i <= n < |ks|
    ensures var m := Move(c.FullKey(src), c.FullKey(dst));
      CopyRun(c, Copied(m, b, ks[..i]), objects[i..], src, dst, replies, i)
        == CopyOne(c, Copied(m, b, ks[..n]), objects[n].key, dst + objects[n].key[|src|..], replies(n))
    decreases |ks| - i
  {
    var m := Move(c.FullKey(src), c.FullKey(dst));
    CopyFirst(c, Copied(m, b, ks[..i]), objects, src, dst, replies, i);
    CopyStep(c, b, src, dst, ks, objects[i], replies(i), i);
    if CopyOne(c, Copied(m, b, ks[..i]), objects[i].key, dst + objects[i].key[|src|..], replies(i)).result.Err? {
      n := i;
    } else {
      n := RunStops(c, b, src, dst, ks, objects, replies, i + 1);
    }
  }

  /** The run ends at object `o`, the one after the first `n`: they are copied, and `o` has a bad key and
      is not sent, or is refused, with or without its copy made. */
  ghost predicate FailsAt(
      c: Config, b: Bucket, src: Key, dst: Key, ks: seq<Key>, o: ListedObject, reply: CopyReply,
      n: nat, end: Outcome<()>)
    requires n < |ks| && StartsWith(o.key, src)
  {
    var m := Move(c.FullKey(src), c.FullKey(dst));
    if !ValidKey(o.key) || !ValidKey(dst + o.key[|src|..]) then
      end == Outcome(Copied(m, b, ks[..n]), Err(InvalidArgument))
    else
      end == Outcome(Copied(m, b, if reply == Denied(true) then ks[..n + 1] else ks[..n]), Err(Refused))
  }

  /** `copy`: Ok exactly for keys that are neither empty nor start with a slash, a source that is there, and an
      answer without an error; and then the destination holds what the source held. */
  lemma CopiesExactly(c: Config, b: Bucket, src: Key, dst: Key, reply: CopyReply)
    ensures var o := CopyOne(c, b, src, dst, reply);
      var named := src != "" && src[0] != '/' && dst != "" && dst[0] != '/';
      && (o.result.Ok? <==> named && reply.Done? && c.FullKey(src) in b)
      && (o.result == Err(InvalidArgument) <==> !named)
      && (o.result == Err(NotFound(src)) <==> named && reply.Done? && c.FullKey(src) !in b)
      && (o.result == Err(Refused) <==> named && reply.Denied?)
      && (o.result.Ok? ==> o.bucket == b[c.FullKey(dst) := b[c.FullKey(src)]])
  {
  }

  lemma CopyOneFails(c: Config, b: Bucket, src: Key, dst: Key, reply: CopyReply)
    requires c.FullKey(src) in b && CopyOne(c, b, src, dst, reply).result.Err?
    ensures CopyOne(c, b, src, dst, reply)
      == if !ValidKey(src) || !ValidKey(dst) then Outcome(b, Err(InvalidArgument))
         else Outcome(if reply == Denied(true) then b[c.FullKey(dst) := b[c.FullKey(src)]] else b, Err(Refused))
  {
  }

  lemma CopiedNext(m: Move, b: Bucket, ks: seq<Key>, n: nat)
    requires n < |ks| && Sources(m, b, ks)
    ensures ks[n] in Copied(m, b, ks[..n])
    ensures Copied(m, b, ks[..n + 1]) == Copied(m, b, ks[..n])[m.Target(ks[n]) := Copied(m, b, ks[..n])[ks[n]]]
  {
    CopiedHas(m, b, ks, n);
    assert ks[..n + 1][..n] == ks[..n];
  }

  lemma FailedCopy(
      c: Config, b: Bucket, src: Key, dst: Key, ks: seq<Key>, o: ListedObject, reply: CopyReply, n: nat)
    requires n < |ks| && StartsWith(o.key, src) && c.FullKey(o.key) == ks[n]
    requires Sources(Move(c.FullKey(src), c.FullKey(dst)), b, ks)
    requires var m := Move(c.FullKey(src), c.FullKey(dst));
      CopyOne(c, Copied(m, b, ks[..n]), o.key, dst + o.key[|src|..], reply).result.Err?
    ensures var m := Move(c.FullKey(src), c.FullKey(dst));
      FailsAt(c, b, src, dst, ks, o, reply, n, CopyOne(c, Copied(m, b, ks[..n]), o.key, dst + o.key[|src|..], reply))
  {
    var m := Move(c.FullKey(src), c.FullKey(dst));
    CopiedNext(m, b, ks, n);
    TargetOfObject(c, src, dst, o.key);
    CopyOneFails(c, Copied(m, b, ks[..n]), o.key, dst + o.key[|src|..], reply);
  }

  /** `copy_prefix` when it fails. A listed object is never missing, so no error is `NotFound`. */
  lemma CopyPrefixStops(c: Config, b: Bucket, src: Key, dst: Key, replies: nat -> CopyReply) returns (n: nat)
    requires AllUnder(Listing(c, b, src), src)
    requires CopyRun(c, b, Listing(c, b, src), src, dst, replies, 0).result.Err?
    ensures var list, ks := Listing(c, b, src), Matches(b, c.FullKey(src), None);
      && n < |list| == |ks|
      && FailsAt(c, b, src, dst, ks, list[n], replies(n), n, CopyRun(c, b, list, src, dst, replies, 0))
  {
    var list, ks := Listing(c, b, src), Matches(b, c.FullKey(src), None);
    ListingSources(c, b, src, Move(c.FullKey(src), c.FullKey(dst)));
    assert list[0..] == list && ks[..0] == [];
    n := RunStops(c, b, src, dst, ks, list, replies, 0);
    FailedCopy(c, b, src, dst, ks, list[n], replies(n), n);
  }

  lemma MatchesAreSources(m: Move, b: Bucket)
    ensures Sources(m, b, Matches(b, m.src, None))
  {
    var ks := Matches(b, m.src, None);
    InOrderAscends(Matching(b, m.src, None));
    forall j | 0 <= j < |ks| ensures StartsWith(ks[j], m.src) {
      assert ks[j] in Elements(ks);
    }
  }

  lemma ListingSources(c: Config, b: Bucket, src: Key, m: Move)
    requires m.src == c.FullKey(src)
    ensures var list, ks := Listing(c, b, src), Matches(b, m.src, None);
      Sources(m, b, ks) && StoredAs(c, list, ks)
  {
    var ks := Matches(b, m.src, None);
    MatchesAreSources(m, b);
    forall j | 0 <= j < |ks| ensures c.FullKey(Listing(c, b, src)[j].key) == ks[j] {
      ListingEntry(c, b, src, j);
    }
  }

  /** Stripping the prefix `a` from `aab` and `ab`: every copy is made, and the content of `ab` is lost. */
  lemma CollisionExample(b: Bucket, x: Content, y: Content, replies: nat -> CopyReply)
    requires b == map["aab" := x, "ab" := y] && forall i: nat :: replies(i) == Done
    ensures AllUnder(Listing(Config(None), b, "a"), "a")
    ensures CopyRun(Config(None), b, Listing(Config(None), b, "a"), "a", "", replies, 0)
      == Outcome(map["aab" := x, "ab" := x, "b" := x], Ok(()))
  {
    var list := Listing(Config(None), b, "a");
    ExampleListing(b);
    ListingUnder(Config(None), b, "a");
    assert list[0] == ListedObject("aab", x) && list[1] == ListedObject("ab", y);
    assert "" + "aab"[1..] == "ab" && "" + "ab"[1..] == "b";
    assert "aab"[|"a"|..] == "aab"[1..] && "ab"[|"a"|..] == "ab"[1..];
    PassedOn(list, "a", "", "b", replies);
  }

  /** Two copies, the second of what the first has just written. */
  lemma PassedOn(list: seq<ListedObject>, src: Key, dst: Key, last: Key, replies: nat -> CopyReply)
    requires |list| == 2 && AllUnder(list, src) && replies(0) == replies(1) == Done
    requires ValidKey(list[0].key) && ValidKey(list[1].key) && ValidKey(last) && list[0].key != list[1].key
    requires dst + list[0].key[|src|..] == list[1].key && dst + list[1].key[|src|..] == last
    ensures var j, k, x := list[0].key, list[1].key, list[0].content;
      CopyRun(Config(None), map[j := x, k := list[1].content], list, src, dst, replies, 0)
        == Outcome(map[j := x, k := x, last := x], Ok(()))
  {
    var c, j, k, x := Config(None), list[0].key, list[1].key, list[0].content;
    var b: Bucket, b1: Bucket := map[j := x, k := list[1].content], map[j := x, k := x];
    OneCopy(b, j, k);
    CopyFirst(c, b, list, src, dst, replies, 0);
    assert b[k := x] == b1;
    OneCopy(b1, k, last);
    CopyFirst(c, b1, list, src, dst, replies, 1);
    assert b1[last := x] == map[j := x, k := x, last := x];
    assert list[0..] == list && list[2..] == [];
  }

  lemma OneCopy(b: Bucket, src: Key, dst: Key)
    requires src in b && ValidKey(src) && ValidKey(dst)
    ensures CopyOne(Config(None), b, src, dst, Done) == Outcome(b[dst := b[src]], Ok(()))
  {
  }

  lemma ExampleListing(b: Bucket)
    requires b.Keys == {"aab", "ab"}
    ensures Listing(Config(None), b, "a") == [ListedObject("aab", b["aab"]), ListedObject("ab", b["ab"])]
  {
    ExampleMatches(b);
    assert Config(None).FullKey("a") == "a";
  }

  lemma ExampleMatches(b: Bucket)
    requires b.Keys == {"aab", "ab"}
    ensures Matches(b, "a", None) == ["aab", "ab"]
  {
    assert Less("aab", "ab") by { assert "aab"[1..] == "ab" && "ab"[1..] == "b"; }
    assert StartsWith("aab", "a") && StartsWith("ab", "a");
    assert Matching(b, "a", None) == Elements(["aab", "ab"]);
    InOrderAscends(Matching(b, "a", None));
    AscendingUnique(Matches(b, "a", None), ["aab", "ab"]);
  }

  lemma CopyFirst(c: Config, b: Bucket, objects: seq<ListedObject>, src: Key, dst: Key, replies: nat -> CopyReply,
      i: nat)
    requires i < |objects| && AllUnder(objects, src)
    ensures var step := CopyOne(c, b, objects[i].key, dst + objects[i].key[|src|..], replies(i));
      CopyRun(c, b, objects[i..], src, dst, replies, i)
        == if step.result.Err? then step else CopyRun(c, step.bucket, objects[i + 1..], src, dst, replies, i + 1)
  {
    assert objects[i..][1..] == objects[i + 1..];
  }
}
