/** What `delete_many` leaves in the bucket. */
module BatchDelete {
  import opened Wrappers
  import opened ObjectKeys
  import opened DeleteXml
  import opened ObjectListing
  import opened ObjectStore

  // ---- Batches ----

  function Flatten(chunks: seq<seq<Key>>): seq<Key> {
    if chunks == [] then [] else chunks[0] + Flatten(chunks[1..])
  }

  /** The batches are the list, in order, 1000 keys each but for a shorter last one. */
  lemma {:induction false} ChunksPartition(keys: seq<Key>)
    ensures Flatten(Chunks(keys)) == keys
    ensures forall i :: 0 <= i < |Chunks(keys)| ==> 0 < |Chunks(keys)[i]| <= 1000
    ensures forall i :: 0 <= i < |Chunks(keys)| - 1 ==> |Chunks(keys)[i]| == 1000
  {
    if 0 < |keys| <= DELETE_BATCH {
      assert Flatten([keys]) == keys + Flatten([keys][1..]);
    } else if keys != [] {
      ChunksPartition(keys[DELETE_BATCH..]);
      assert Chunks(keys)[1..] == Chunks(keys[DELETE_BATCH..]);
    }
  }

  // ---- One batch ----

  /** The stored keys that a request for `keys` is read to name. */
  function ReadSet(c: Config, keys: set<Key>): set<Key> { set k | k in keys :: LineEnds(c.FullKey(k)) }

  function StoredSet(c: Config, keys: set<Key>): set<Key> { set k | k in keys :: c.FullKey(k) }

  predicate AllText(c: Config, keys: seq<Key>) { forall i :: 0 <= i < |keys| ==> XmlText(c.FullKey(keys[i])) }

  lemma {:induction false} AllLineEndsAt(keys: seq<Key>, i: nat)
    requires i < |keys|
    ensures |AllLineEnds(keys)| == |keys| && AllLineEnds(keys)[i] == LineEnds(keys[i])
  {
    if i > 0 {
      AllLineEndsAt(keys[1..], i - 1);
    } else if |keys| > 1 {
      AllLineEndsAt(keys[1..], 0);
    }
  }

  lemma ReadElements(c: Config, chunk: seq<Key>)
    ensures Elements(AllLineEnds(FullKeys(c, chunk))) == ReadSet(c, Elements(chunk))
  {
    var read := AllLineEnds(FullKeys(c, chunk));
    forall x ensures x in read <==> x in ReadSet(c, Elements(chunk)) {
      if chunk != [] { AllLineEndsAt(FullKeys(c, chunk), 0); }
      if x in read {
        var i :| 0 <= i < |read| && read[i] == x;
        AllLineEndsAt(FullKeys(c, chunk), i);
        assert chunk[i] in Elements(chunk);
      }
      if x in ReadSet(c, Elements(chunk)) {
        var k :| k in Elements(chunk) && LineEnds(c.FullKey(k)) == x;
        var i :| 0 <= i < |chunk| && chunk[i] == k;
        AllLineEndsAt(FullKeys(c, chunk), i);
      }
    }
  }

  /** What the server reads of a batch. */
  lemma BatchRead(c: Config, chunk: seq<Key>)
    ensures var read := ParseDelete(RequestBody(FullKeys(c, chunk)));
      && (read.Some? <==> AllText(c, chunk))
      && (read.Some? ==> Elements(read.value) == ReadSet(c, Elements(chunk)))
  {
    var full := FullKeys(c, chunk);
    DeleteReadsBack(full);
    ReadElements(c, chunk);
    if AllText(c, chunk) {
      assert forall i :: 0 <= i < |full| ==> XmlText(full[i]);
    } else {
      var i :| 0 <= i < |chunk| && !XmlText(c.FullKey(chunk[i]));
      assert full[i] in full;
    }
  }

  /** An answer that `delete_many` takes as success: a `DeleteResult` without errors, and equally a body
      that is no `DeleteResult` at all. */
  predicate Answered(reply: DeleteReply) { reply == Kept([]) || reply.Garbled? }

  /** What a batch so answered has removed. */
  function BatchRemoved(c: Config, chunk: seq<Key>, reply: DeleteReply): set<Key> {
    if reply.Garbled? then ReadSet(c, Elements(chunk)) * reply.removed else ReadSet(c, Elements(chunk))
  }

  predicate Acceptable(c: Config, keys: seq<Key>) { ValidKeys(keys) && AllText(c, keys) }

  /** A batch succeeds exactly when its keys pass `validate_key` and XML, and the answer reports nothing. */
  lemma BatchOutcome(c: Config, bucket: Bucket, chunk: seq<Key>, reply: DeleteReply)
    ensures var o := DeleteBatch(c, bucket, chunk, reply);
      && (o.result.Ok? <==> Acceptable(c, chunk) && Answered(reply))
      && (o.result.Ok? ==> o.bucket == bucket - BatchRemoved(c, chunk, reply))
  {
    BatchRead(c, chunk);
    assert Elements([]) == {};
  }

  // ---- All batches ----

  lemma FlattenFirst(chunks: seq<seq<Key>>)
    requires chunks != []
    ensures Elements(Flatten(chunks)) == Elements(chunks[0]) + Elements(Flatten(chunks[1..]))
  {
  }

  lemma AllOf(c: Config, a: seq<Key>, b: seq<Key>)
    ensures Acceptable(c, a + b) <==> Acceptable(c, a) && Acceptable(c, b)
  {
    var s := a + b;
    assert forall i :: 0 <= i < |a| ==> s[i] == a[i];
    assert forall i :: 0 <= i < |b| ==> s[|a| + i] == b[i];
  }

  predicate AllAnswered(replies: nat -> DeleteReply, i: nat, n: nat) {
    forall j: nat :: i <= j < i + n ==> Answered(replies(j))
  }

  lemma {:induction false} RunSucceeds(
      c: Config, bucket: Bucket, chunks: seq<seq<Key>>, replies: nat -> DeleteReply, i: nat)
    ensures DeleteRun(c, bucket, chunks, replies, i).result.Ok?
      <==> Acceptable(c, Flatten(chunks)) && AllAnswered(replies, i, |chunks|)
    decreases |chunks|
  {
    if chunks != [] {
      var step := DeleteBatch(c, bucket, chunks[0], replies(i));
      BatchOutcome(c, bucket, chunks[0], replies(i));
      AllOf(c, chunks[0], Flatten(chunks[1..]));
      RunSucceeds(c, step.bucket, chunks[1..], replies, i + 1);
    }
  }

  /** What the batches from request `i` on have removed, when all of them were answered. */
  function RunRemoved(c: Config, chunks: seq<seq<Key>>, replies: nat -> DeleteReply, i: nat): set<Key>
    decreases |chunks|
  {
    if chunks == [] then {} else BatchRemoved(c, chunks[0], replies(i)) + RunRemoved(c, chunks[1..], replies, i + 1)
  }

  lemma {:induction false} RunRemoves(
      c: Config, bucket: Bucket, chunks: seq<seq<Key>>, replies: nat -> DeleteReply, i: nat)
    requires DeleteRun(c, bucket, chunks, replies, i).result.Ok?
    ensures DeleteRun(c, bucket, chunks, replies, i).bucket == bucket - RunRemoved(c, chunks, replies, i)
    decreases |chunks|
  {
    if chunks != [] {
      var step := DeleteBatch(c, bucket, chunks[0], replies(i));
      BatchOutcome(c, bucket, chunks[0], replies(i));
      RunRemoves(c, step.bucket, chunks[1..], replies, i + 1);
    }
  }

  /** Some batch names `k` and, by its own answer, has removed it. */
  ghost predicate SomeBatchRemoves(c: Config, chunks: seq<seq<Key>>, replies: nat -> DeleteReply, i: nat, k: Key) {
    exists j: nat :: j < |chunks| && k in BatchRemoved(c, chunks[j], replies(i + j))
  }

  /** Each of these keys that was in the bucket is removed by some batch. */
  ghost predicate NoneLeft(
      c: Config, bucket: Bucket, chunks: seq<seq<Key>>, replies: nat -> DeleteReply, keys: set<Key>) {
    forall k <- keys :: k in bucket ==> SomeBatchRemoves(c, chunks, replies, 0, k)
  }

  lemma {:induction false} RemovedHasBatch(
      c: Config, chunks: seq<seq<Key>>, replies: nat -> DeleteReply, i: nat, k: Key) returns (j: nat)
    requires k in RunRemoved(c, chunks, replies, i)
    ensures j < |chunks| && k in BatchRemoved(c, chunks[j], replies(i + j))
    decreases |chunks|
  {
    if k in BatchRemoved(c, chunks[0], replies(i)) {
      j := 0;
    } else {
      j := RemovedHasBatch(c, chunks[1..], replies, i + 1, k);
      j := j + 1;
    }
  }

  lemma {:induction false} BatchIsRemoved(
      c: Config, chunks: seq<seq<Key>>, replies: nat -> DeleteReply, i: nat, k: Key, j: nat)
    requires j < |chunks| && k in BatchRemoved(c, chunks[j], replies(i + j))
    ensures k in RunRemoved(c, chunks, replies, i)
    decreases |chunks|
  {
    if j > 0 {
      assert chunks[1..][j - 1] == chunks[j] && i + 1 + (j - 1) == i + j;
      BatchIsRemoved(c, chunks[1..], replies, i + 1, k, j - 1);
    }
  }

  lemma RemovedBySome(c: Config, chunks: seq<seq<Key>>, replies: nat -> DeleteReply, i: nat, k: Key)
    ensures k in RunRemoved(c, chunks, replies, i) <==> SomeBatchRemoves(c, chunks, replies, i, k)
  {
    if k in RunRemoved(c, chunks, replies, i) {
      var j := RemovedHasBatch(c, chunks, replies, i, k);
    }
    if SomeBatchRemoves(c, chunks, replies, i, k) {
      var j: nat :| j < |chunks| && k in BatchRemoved(c, chunks[j], replies(i + j));
      BatchIsRemoved(c, chunks, replies, i, k, j);
    }
  }

  lemma {:induction false} RemovedIsRead(c: Config, chunks: seq<seq<Key>>, replies: nat -> DeleteReply, i: nat)
    ensures RunRemoved(c, chunks, replies, i) <= ReadSet(c, Elements(Flatten(chunks)))
    ensures (forall j: nat :: i <= j < i + |chunks| ==> !replies(j).Garbled?) ==>
      RunRemoved(c, chunks, replies, i) == ReadSet(c, Elements(Flatten(chunks)))
    decreases |chunks|
  {
    if chunks != [] {
      RemovedIsRead(c, chunks[1..], replies, i + 1);
      FlattenFirst(chunks);
      SetsAdd(c, Elements(chunks[0]), Elements(Flatten(chunks[1..])));
    }
  }

  lemma SetsAdd(c: Config, a: set<Key>, b: set<Key>)
    ensures ReadSet(c, a + b) == ReadSet(c, a) + ReadSet(c, b)
  {
  }

  // ---- The main results ----

  /** `delete_many` succeeds exactly when every key passes `validate_key` and XML and every batch is answered
      without an error, readably or not. The bucket is then the original less the keys as read if and only
      if each of them that was there is removed by some batch. */
  lemma DeleteManyOutcome(c: Config, bucket: Bucket, keys: seq<Key>, replies: nat -> DeleteReply)
    ensures var chunks := Chunks(keys);
      var o, read := DeleteRun(c, bucket, chunks, replies, 0), ReadSet(c, Elements(keys));
      && (o.result.Ok? <==> Acceptable(c, keys) && AllAnswered(replies, 0, |chunks|))
      && (o.result.Ok? ==> o.bucket == bucket - RunRemoved(c, chunks, replies, 0))
      && (o.result.Ok? ==> (o.bucket == bucket - read <==> NoneLeft(c, bucket, chunks, replies, read)))
  {
    var chunks, read := Chunks(keys), ReadSet(c, Elements(keys));
    ChunksPartition(keys);
    RunSucceeds(c, bucket, chunks, replies, 0);
    RemovedIsRead(c, chunks, replies, 0);
    var o := DeleteRun(c, bucket, chunks, replies, 0);
    if o.result.Ok? {
      RunRemoves(c, bucket, chunks, replies, 0);
      SameRemoval(bucket, RunRemoved(c, chunks, replies, 0), read);
      forall k | k in read
        ensures k in RunRemoved(c, chunks, replies, 0) <==> SomeBatchRemoves(c, chunks, replies, 0, k)
      {
        RemovedBySome(c, chunks, replies, 0, k);
      }
    }
  }

  lemma SameRemoval(bucket: Bucket, removed: set<Key>, read: set<Key>)
    requires removed <= read
    ensures bucket - removed == bucket - read <==> forall k <- read :: k in bucket ==> k in removed
  {
    if bucket - removed == bucket - read {
      forall k | k in read && k in bucket ensures k in removed {
        assert k !in bucket - read;
      }
    }
  }

  /** When every answer is a `DeleteResult`, success means the original less the keys as read. */
  lemma ReadableAnswers(c: Config, bucket: Bucket, keys: seq<Key>, replies: nat -> DeleteReply)
    requires forall j: nat :: j < |Chunks(keys)| ==> !replies(j).Garbled?
    ensures var o := DeleteRun(c, bucket, Chunks(keys), replies, 0);
      o.result.Ok? ==> o.bucket == bucket - ReadSet(c, Elements(keys))
  {
    ChunksPartition(keys);
    DeleteManyOutcome(c, bucket, keys, replies);
    RemovedIsRead(c, Chunks(keys), replies, 0);
  }

  /** Every batch is answered without an error, by a `DeleteResult` exactly where `readable` says so. */
  ghost predicate AnswersAs(replies: nat -> DeleteReply, readable: nat -> bool, n: nat) {
    AllAnswered(replies, 0, n) && forall j: nat :: j < n ==> (readable(j) <==> !replies(j).Garbled?)
  }

  /** `delete_many`, when it succeeds here, leaves the original less the keys as read. */
  predicate RemovesAll(c: Config, bucket: Bucket, keys: seq<Key>, replies: nat -> DeleteReply) {
    var o := DeleteRun(c, bucket, Chunks(keys), replies, 0);
    o.result.Ok? ==> o.bucket == bucket - ReadSet(c, Elements(keys))
  }

  /** Some batch that names `k` has a readable answer. */
  ghost predicate NamedReadably(c: Config, chunks: seq<seq<Key>>, readable: nat -> bool, k: Key) {
    exists j: nat :: j < |chunks| && readable(j) && k in ReadSet(c, Elements(chunks[j]))
  }

  ghost predicate AllNamedReadably(c: Config, keys: seq<Key>, readable: nat -> bool) {
    forall k <- ReadSet(c, Elements(keys)) :: NamedReadably(c, Chunks(keys), readable, k)
  }

  /** Success can be trusted, whatever the bucket and whatever the unreadable answers hide. */
  ghost predicate Trusted(c: Config, keys: seq<Key>, readable: nat -> bool) {
    forall bucket: Bucket, replies: nat -> DeleteReply ::
      AnswersAs(replies, readable, |Chunks(keys)|) ==> RemovesAll(c, bucket, keys, replies)
  }

  /** That is so if and only if every key as read is named by a batch whose answer is readable, or the keys are
      refused anyway. */
  lemma TrustedIffReadable(c: Config, keys: seq<Key>, readable: nat -> bool)
    ensures Trusted(c, keys, readable) <==> (Acceptable(c, keys) ==> AllNamedReadably(c, keys, readable))
  {
    if Acceptable(c, keys) ==> AllNamedReadably(c, keys, readable) {
      forall bucket: Bucket, replies: nat -> DeleteReply | AnswersAs(replies, readable, |Chunks(keys)|)
        ensures RemovesAll(c, bucket, keys, replies)
      {
        ReadableRemoves(c, bucket, keys, readable, replies);
      }
    } else {
      NotTrusted(c, keys, readable);
    }
  }

  lemma NotTrusted(c: Config, keys: seq<Key>, readable: nat -> bool)
    requires Acceptable(c, keys) && !AllNamedReadably(c, keys, readable)
    ensures !Trusted(c, keys, readable)
  {
    var k :| k in ReadSet(c, Elements(keys)) && !NamedReadably(c, Chunks(keys), readable, k);
    var replies := Hiding(readable);
    assert AnswersAs(replies, readable, |Chunks(keys)|);
    HiddenStays(c, keys, readable, k);
  }

  /** A server that removes nothing where its answer is unreadable. */
  function Hiding(readable: nat -> bool): nat -> DeleteReply {
    (j: nat) => if readable(j) then Kept([]) else Garbled({})
  }

  lemma ReadableRemoves(c: Config, bucket: Bucket, keys: seq<Key>, readable: nat -> bool, replies: nat -> DeleteReply)
    requires Acceptable(c, keys) ==> AllNamedReadably(c, keys, readable)
    requires AnswersAs(replies, readable, |Chunks(keys)|)
    ensures RemovesAll(c, bucket, keys, replies)
  {
    DeleteManyOutcome(c, bucket, keys, replies);
    if Acceptable(c, keys) {
      forall k | k in ReadSet(c, Elements(keys)) ensures SomeBatchRemoves(c, Chunks(keys), replies, 0, k) {
        var j: nat :| j < |Chunks(keys)| && readable(j) && k in ReadSet(c, Elements(Chunks(keys)[j]));
        assert k in BatchRemoved(c, Chunks(keys)[j], replies(0 + j));
      }
    }
  }

  lemma HiddenStays(c: Config, keys: seq<Key>, readable: nat -> bool, k: Key)
    requires Acceptable(c, keys) && k in ReadSet(c, Elements(keys)) && !NamedReadably(c, Chunks(keys), readable, k)
    ensures !RemovesAll(c, map[k := 0], keys, Hiding(readable))
  {
    var replies := Hiding(readable);
    var bucket: Bucket := map[k := 0];
    DeleteManyOutcome(c, bucket, keys, replies);
    assert !SomeBatchRemoves(c, Chunks(keys), replies, 0, k);
  }

  /** With unreadable answers success means nothing: if the server did nothing but answer so, `delete_many`
      still returns Ok, and every object is still there. */
  lemma GarbledLooksDone(c: Config, bucket: Bucket, keys: seq<Key>)
    requires Acceptable(c, keys)
    ensures var o := DeleteRun(c, bucket, Chunks(keys), (_: nat) => Garbled({}), 0);
      o.result.Ok? && o.bucket == bucket
  {
    var replies: nat -> DeleteReply := (_: nat) => Garbled({});
    DeleteManyOutcome(c, bucket, keys, replies);
    forall k ensures k !in RunRemoved(c, Chunks(keys), replies, 0) {
      RemovedBySome(c, Chunks(keys), replies, 0, k);
    }
  }

  /** Without a carriage return in any stored key, that is the original less exactly those keys. */
  lemma ReadIsStored(c: Config, keys: set<Key>)
    requires forall k <- keys :: '\r' !in c.FullKey(k)
    ensures ReadSet(c, keys) == StoredSet(c, keys)
  {
    forall k | k in keys ensures LineEnds(c.FullKey(k)) == c.FullKey(k) {
      LineEndsFixed(c.FullKey(k));
    }
  }

  /** A server that removes whatever it reads, and says so. */
  function AllServed(): nat -> DeleteReply { (i: nat) => Kept([]) }

  lemma ServedOutcome(c: Config, bucket: Bucket, keys: seq<Key>)
    ensures var o := DeleteRun(c, bucket, Chunks(keys), AllServed(), 0);
      && (o.result.Ok? <==> Acceptable(c, keys))
      && (o.result.Ok? ==> o.bucket == bucket - ReadSet(c, Elements(keys)))
  {
    DeleteManyOutcome(c, bucket, keys, AllServed());
    ReadableAnswers(c, bucket, keys, AllServed());
  }

  predicate DeletesFrom(c: Config, keys: seq<Key>, bucket: Bucket) {
    var o := DeleteRun(c, bucket, Chunks(keys), AllServed(), 0);
    o.result.Ok? && o.bucket == bucket - StoredSet(c, Elements(keys))
  }

  ghost predicate DeletesExactly(c: Config, keys: seq<Key>) { forall bucket: Bucket :: DeletesFrom(c, keys, bucket) }

  /** Not empty, without a slash in front, and stored as XML text without a carriage return. */
  predicate Deletable(c: Config, key: Key) {
    && key != "" && key[0] != '/'
    && (forall i :: 0 <= i < |c.FullKey(key)| ==> XmlChar(c.FullKey(key)[i]) && c.FullKey(key)[i] != '\r')
  }

  /** Against that server `delete_many` removes exactly the named objects from every bucket if and only
      if every key is valid and is XML text without a carriage return. */
  lemma DeleteManyExact(c: Config, keys: seq<Key>)
    ensures DeletesExactly(c, keys) <==> forall i :: 0 <= i < |keys| ==> Deletable(c, keys[i])
  {
    if forall i :: 0 <= i < |keys| ==> Deletable(c, keys[i]) {
      ReadIsStored(c, Elements(keys));
      assert Acceptable(c, keys);
      forall bucket: Bucket ensures DeletesFrom(c, keys, bucket) {
        ServedOutcome(c, bucket, keys);
      }
    }
    if DeletesExactly(c, keys) {
      forall i | 0 <= i < |keys| ensures Deletable(c, keys[i]) {
        ExactMeansDeletable(c, keys, i);
      }
    }
  }

  lemma ExactMeansDeletable(c: Config, keys: seq<Key>, i: nat)
    requires DeletesExactly(c, keys) && i < |keys|
    ensures Deletable(c, keys[i])
  {
    var full := c.FullKey(keys[i]);
    var bucket: Bucket := map[full := 0];
    ServedOutcome(c, bucket, keys);
    var o := DeleteRun(c, bucket, Chunks(keys), AllServed(), 0);
    assert DeletesFrom(c, keys, bucket);
    assert keys[i] in Elements(keys);
    assert full in StoredSet(c, Elements(keys)) && full !in o.bucket;
    assert full in ReadSet(c, Elements(keys));
    var k :| k in Elements(keys) && LineEnds(c.FullKey(k)) == full;
    LineEndsFixed(c.FullKey(k));
  }

  /** The batches before `n` are done, batch `n` fails as far as its own reply says, and those after it
      are not sent. */
  ghost predicate StopsAt(c: Config, bucket: Bucket, chunks: seq<seq<Key>>, replies: nat -> DeleteReply, i: nat,
      n: nat) {
    && n < |chunks|
    && var before := DeleteRun(c, bucket, chunks[..n], replies, i);
    && before.result.Ok?
    && DeleteRun(c, bucket, chunks, replies, i) == DeleteBatch(c, before.bucket, chunks[n], replies(i + n))
  }

  lemma StopsLater(c: Config, bucket: Bucket, chunks: seq<seq<Key>>, replies: nat -> DeleteReply, i: nat, n: nat)
    requires chunks != [] && DeleteBatch(c, bucket, chunks[0], replies(i)).result.Ok?
    requires StopsAt(c, DeleteBatch(c, bucket, chunks[0], replies(i)).bucket, chunks[1..], replies, i + 1, n)
    ensures StopsAt(c, bucket, chunks, replies, i, n + 1)
  {
    assert chunks[..n + 1][1..] == chunks[1..][..n];
    assert chunks[1..][n] == chunks[n + 1];
  }

  /** An error stops `delete_many` at some batch. */
  lemma {:induction false} RunStops(c: Config, bucket: Bucket, chunks: seq<seq<Key>>, replies: nat -> DeleteReply,
      i: nat)
    returns (n: nat)
    requires DeleteRun(c, bucket, chunks, replies, i).result.Err?
    ensures StopsAt(c, bucket, chunks, replies, i, n)
    decreases |chunks|
  {
    var step := DeleteBatch(c, bucket, chunks[0], replies(i));
    if step.result.Err? {
      n := 0;
      assert DeleteRun(c, bucket, chunks[..0], replies, i) == Outcome(bucket, Ok(()));
    } else {
      n := RunStops(c, step.bucket, chunks[1..], replies, i + 1);
      StopsLater(c, bucket, chunks, replies, i, n);
      n := n + 1;
    }
  }

  /** On an error a batch's own keys are the only ones touched after the completed batches: none of them
      for a bad key, all but the reported ones for a partial failure. */
  lemma BatchError(c: Config, bucket: Bucket, chunk: seq<Key>, reply: DeleteReply)
    requires DeleteBatch(c, bucket, chunk, reply).result.Err?
    ensures var o := DeleteBatch(c, bucket, chunk, reply);
      && o.bucket.Keys <= bucket.Keys
      && (forall k :: k in o.bucket ==> o.bucket[k] == bucket[k])
      && bucket.Keys - o.bucket.Keys <= ReadSet(c, Elements(chunk))
      && (o.result.error == InvalidArgument <==> !ValidKeys(chunk))
      && (!ValidKeys(chunk) || !AllText(c, chunk) ==> o.bucket == bucket)
      && (o.result.error.DeleteFailed? ==>
            && reply.Kept? && o.result.error.failed == StripAll(c, reply.kept)
            && |o.result.error.failed| == |reply.kept|
            && (forall i :: 0 <= i < |reply.kept| && StartsWith(reply.kept[i], c.FullKey("")) ==>
                  c.FullKey(o.result.error.failed[i]) == reply.kept[i])
            && o.bucket == bucket - (ReadSet(c, Elements(chunk)) - Elements(reply.kept)))
  {
    BatchRead(c, chunk);
    if reply.Kept? {
      forall i | 0 <= i < |reply.kept| && StartsWith(reply.kept[i], c.FullKey(""))
        ensures c.FullKey(StripAll(c, reply.kept)[i]) == reply.kept[i]
      {
        PrefixRoundTrip(c, reply.kept[i]);
      }
    }
  }

  lemma RunFirst(c: Config, bucket: Bucket, keys: seq<Key>, replies: nat -> DeleteReply, i: nat)
    requires keys != []
    ensures var n := Min(|keys|, DELETE_BATCH);
      var step := DeleteBatch(c, bucket, keys[..n], replies(i));
      DeleteRun(c, bucket, Chunks(keys), replies, i)
        == if step.result.Err? then step else DeleteRun(c, step.bucket, Chunks(keys[n..]), replies, i + 1)
  {
    assert Chunks(keys)[0] == keys[..Min(|keys|, DELETE_BATCH)];
    assert Chunks(keys)[1..] == Chunks(keys[Min(|keys|, DELETE_BATCH)..]);
  }

  predicate AllDeletable(c: Config, stored: set<Key>) {
    forall k <- stored :: ValidKey(c.StripPrefix(k)) && Readable(k)
  }

  lemma ListedKeys(c: Config, bucket: Bucket, prefix: Key, i: nat)
    requires i < |Listing(c, bucket, prefix)|
    ensures var k := KeysOf(Listing(c, bucket, prefix))[i];
      c.StripPrefix(c.FullKey(k)) == k && c.FullKey(k) in Matching(bucket, c.FullKey(prefix), None)
  {
    var keys := KeysOf(Listing(c, bucket, prefix));
    KeysStored(c, bucket, prefix);
    PrefixRoundTrip(c, keys[i]);
    assert FullKeys(c, keys)[i] in Elements(FullKeys(c, keys));
  }

  lemma ListedStored(c: Config, bucket: Bucket, prefix: Key)
    ensures StoredSet(c, Elements(KeysOf(Listing(c, bucket, prefix)))) == Matching(bucket, c.FullKey(prefix), None)
  {
    KeysStored(c, bucket, prefix);
    StoredElements(c, KeysOf(Listing(c, bucket, prefix)));
  }

  lemma AcceptableListing(c: Config, bucket: Bucket, prefix: Key)
    requires AllDeletable(c, Matching(bucket, c.FullKey(prefix), None))
    ensures Acceptable(c, KeysOf(Listing(c, bucket, prefix)))
  {
    var keys := KeysOf(Listing(c, bucket, prefix));
    forall i | 0 <= i < |keys| ensures ValidKey(keys[i]) && XmlText(c.FullKey(keys[i])) {
      ListedKeys(c, bucket, prefix, i);
    }
  }

  lemma RemovedIsDeletable(c: Config, keys: seq<Key>, k: Key)
    requires Acceptable(c, keys) && k in StoredSet(c, Elements(keys)) && k in ReadSet(c, Elements(keys))
    ensures ValidKey(c.StripPrefix(k)) && Readable(k)
  {
    var key :| key in Elements(keys) && c.FullKey(key) == k;
    var i :| 0 <= i < |keys| && keys[i] == key;
    PrefixRoundTrip(c, key);
    var other :| other in Elements(keys) && LineEnds(c.FullKey(other)) == k;
    LineEndsFixed(c.FullKey(other));
  }

  /** `delete_prefix`, against a server that removes what it reads: it succeeds and removes exactly the
      objects under the prefix if and only if each of them has a key the client can name. */
  lemma DeletePrefixExact(c: Config, bucket: Bucket, prefix: Key)
    ensures var under := Matching(bucket, c.FullKey(prefix), None);
      var o := DeleteRun(c, bucket, Chunks(KeysOf(Listing(c, bucket, prefix))), AllServed(), 0);
      o.result.Ok? && o.bucket == bucket - under <==> AllDeletable(c, under)
  {
    var keys := KeysOf(Listing(c, bucket, prefix));
    var under := Matching(bucket, c.FullKey(prefix), None);
    ListedStored(c, bucket, prefix);
    ServedOutcome(c, bucket, keys);
    var o := DeleteRun(c, bucket, Chunks(keys), AllServed(), 0);
    if AllDeletable(c, under) {
      AcceptableListing(c, bucket, prefix);
      assert forall k <- Elements(keys) :: c.FullKey(k) in under;
      ReadIsStored(c, Elements(keys));
    }
    if o.result.Ok? && o.bucket == bucket - under {
      forall k | k in under ensures ValidKey(c.StripPrefix(k)) && Readable(k) {
        assert k in bucket && k !in o.bucket;
        RemovedIsDeletable(c, keys, k);
      }
    }
  }

  lemma StoredElements(c: Config, keys: seq<Key>)
    ensures Elements(FullKeys(c, keys)) == StoredSet(c, Elements(keys))
  {
    forall k ensures k in FullKeys(c, keys) <==> k in StoredSet(c, Elements(keys)) {
      if k in FullKeys(c, keys) {
        var i :| 0 <= i < |keys| && FullKeys(c, keys)[i] == k;
        assert keys[i] in Elements(keys);
      }
      if k in StoredSet(c, Elements(keys)) {
        var key :| key in Elements(keys) && c.FullKey(key) == k;
        var i :| 0 <= i < |keys| && keys[i] == key;
        assert FullKeys(c, keys)[i] == k;
      }
    }
  }

  // ---- Where it goes wrong ----

  /** A key with a carriage return: Ok, and another object is gone. */
  lemma WrongObjectDeleted(content: Content, other: Content)
    ensures var bucket: Bucket := map["a\rb" := content, "a\nb" := other];
      var o := DeleteRun(Config(None), bucket, Chunks(["a\rb"]), AllServed(), 0);
      o.result.Ok? && o.bucket == map["a\rb" := content]
  {
    ReturnIsReadAsNewline();
    ServedOutcome(Config(None), map["a\rb" := content, "a\nb" := other], ["a\rb"]);
  }

  lemma ReturnIsReadAsNewline()
    ensures Acceptable(Config(None), ["a\rb"]) && ReadSet(Config(None), Elements(["a\rb"])) == {"a\nb"}
    ensures "a\rb" != "a\nb"
  {
    var c := Config(None);
    assert "a\rb" == "a" + "\r" + "b" && "a\nb" == "a" + "\n" + "b";
    ReturnBecomesNewline("a", "b");
    assert c.FullKey("a\rb") == "a\rb";
    assert Elements(["a\rb"]) == {"a\rb"};
    assert "a\rb"[1] != "a\nb"[1];
  }

  /** An object that the client cannot name: `delete_prefix` finds it and fails on it. */
  lemma UnnameableFails(c: Config, key: Key, content: Content, replies: nat -> DeleteReply)
    requires StartsWith(key, c.FullKey("")) && !ValidKey(c.StripPrefix(key))
    ensures var bucket: Bucket := map[key := content];
      DeleteRun(c, bucket, Chunks(KeysOf(Listing(c, bucket, ""))), replies, 0) == Outcome(bucket, Err(InvalidArgument))
  {
    var bucket: Bucket := map[key := content];
    var keys := KeysOf(Listing(c, bucket, ""));
    KeysStored(c, bucket, "");
    assert Matching(bucket, c.FullKey(""), None) == {key};
    assert |keys| == 1;
    ListedKeys(c, bucket, "", 0);
    RunFirst(c, bucket, keys, replies, 0);
    assert keys[..1] == keys;
  }

  /** Such as an object stored under the bare path prefix, or with a second slash after it. */
  lemma UnnameableExamples(content: Content, replies: nat -> DeleteReply)
    ensures forall key :: key == "p/" || key == "p//x" ==>
      var bucket: Bucket := map[key := content];
      DeleteRun(Config(Some("p")), bucket, Chunks(KeysOf(Listing(Config(Some("p")), bucket, ""))), replies, 0)
        == Outcome(bucket, Err(InvalidArgument))
  {
    var c := Config(Some("p"));
    assert TrimStart("p") == "p" && TrimEnd("p") == "p";
    assert c.FullKey("") == "p/";
    assert "p//x"[2..] == "/x" && "p/"[2..] == "";
    assert c.StripPrefix("p/") == "" && c.StripPrefix("p//x") == "/x";
    UnnameableFails(c, "p/", content, replies);
    UnnameableFails(c, "p//x", content, replies);
  }
}
