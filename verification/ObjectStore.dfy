/** The S3 client's loops over one bucket: paged listing, batched delete, prefix copy. */
module ObjectStore {
  import opened Wrappers
  import opened ObjectKeys
  import opened DeleteXml

  /** An object's body and metadata, by identity. */
  type Content = nat

  type Bucket = map<Key, Content>

  datatype Error = InvalidArgument | NotFound(key: Key) | DeleteFailed(failed: seq<Key>) | Refused

  const PAGE_LIMIT := 1000
  const DELETE_BATCH := 1000

  // ---- The server ----

  function Matching(bucket: Bucket, prefix: Key, after: Option<Key>): set<Key> {
    set k | k in bucket && StartsWith(k, prefix) && (after.None? || Less(after.value, k))
  }

  datatype ListedObject = ListedObject(key: Key, content: Content)

  datatype ListPage = ListPage(objects: seq<ListedObject>, next: Option<Key>)

  /** What the server does with one list request: a page of at most `most` objects, with or without the
      token for the rest, or no page at all. */
  datatype ListReply = Page(most: nat, token: bool) | NoPage

  predicate InBucket(bucket: Bucket, keys: seq<Key>) { forall i :: 0 <= i < |keys| ==> keys[i] in bucket }

  /** The matching keys in order, all of them in the bucket. */
  function Matches(bucket: Bucket, prefix: Key, after: Option<Key>): (r: seq<Key>)
    ensures InBucket(bucket, r)
  {
    var r := InOrder(Matching(bucket, prefix, after));
    assert forall i :: 0 <= i < |r| ==> r[i] in Elements(r);
    r
  }

  function Listed(bucket: Bucket, keys: seq<Key>): (r: seq<ListedObject>)
    requires InBucket(bucket, keys)
    ensures |r| == |keys|
  {
    seq(|keys|, i requires 0 <= i < |keys| => ListedObject(keys[i], bucket[keys[i]]))
  }

  function Min(a: nat, b: nat): nat { if a <= b then a else b }

  /** One page: the next keys in order, at least one and no more than were asked for, and a token for
      the rest if there is any. The token is the last key of the page. */
  function ServePage(bucket: Bucket, prefix: Key, after: Option<Key>, maxKeys: nat, most: nat): ListPage {
    var rest := Matches(bucket, prefix, after);
    var size := Min(|rest|, Min(Min(maxKeys, PAGE_LIMIT), if most == 0 then 1 else most));
    ListPage(Listed(bucket, rest[..size]),
      if 0 < size < |rest| then Some(rest[size - 1]) else None)
  }

  /** What the server does with one delete request: every key removed but `kept`, which the answer
      names; some removed and an answer that is no `DeleteResult`; or a failure with some removed. */
  datatype DeleteReply = Kept(kept: seq<Key>) | Garbled(removed: set<Key>) | Failed(removed: set<Key>)

  function ServeDelete(bucket: Bucket, body: string, reply: DeleteReply): Bucket {
    match ParseDelete(body)
    case None => bucket
    case Some(keys) =>
      match reply
      case Kept(kept) => bucket - (Elements(keys) - Elements(kept))
      case Garbled(removed) => bucket - (Elements(keys) * removed)
      case Failed(removed) => bucket - (Elements(keys) * removed)
  }

  /** What the server does with one copy request. */
  datatype CopyReply = Done | Denied(applied: bool)

  function ServeCopy(bucket: Bucket, src: Key, dst: Key, reply: CopyReply): Bucket {
    if src in bucket && (reply.Done? || reply.applied) then bucket[dst := bucket[src]] else bucket
  }

  // ---- What the operations compute ----

  /** `validate_key`. */
  predicate ValidKey(key: Key) { key != "" && key[0] != '/' }

  function Relative(c: Config, objects: seq<ListedObject>): (r: seq<ListedObject>)
    ensures |r| == |objects|
  {
    seq(|objects|, i requires 0 <= i < |objects| => objects[i].(key := c.StripPrefix(objects[i].key)))
  }

  /** Every object under `prefix`, in key order, with the path prefix stripped. */
  function Listing(c: Config, bucket: Bucket, prefix: Key): seq<ListedObject> {
    Relative(c, Listed(bucket, Matches(bucket, c.FullKey(prefix), None)))
  }

  function Chunks(keys: seq<Key>): seq<seq<Key>> {
    if keys == [] then []
    else if |keys| <= DELETE_BATCH then [keys]
    else [keys[..DELETE_BATCH]] + Chunks(keys[DELETE_BATCH..])
  }

  function FullKeys(c: Config, keys: seq<Key>): (r: seq<Key>)
    ensures |r| == |keys|
  {
    seq(|keys|, i requires 0 <= i < |keys| => c.FullKey(keys[i]))
  }

  datatype Outcome<T> = Outcome(bucket: Bucket, result: Result<T, Error>)

  predicate ValidKeys(keys: seq<Key>) { forall i :: 0 <= i < |keys| ==> ValidKey(keys[i]) }

  /** One batch of `delete_many`. */
  function DeleteBatch(c: Config, bucket: Bucket, chunk: seq<Key>, reply: DeleteReply): Outcome<()> {
    if !ValidKeys(chunk) then Outcome(bucket, Err(InvalidArgument)) else
    var body := RequestBody(FullKeys(c, chunk));
    Outcome(ServeDelete(bucket, body, reply),
      if ParseDelete(body).None? || reply.Failed? then Err(Refused)
      else if reply.Kept? && reply.kept != [] then Err(DeleteFailed(StripAll(c, reply.kept)))
      else Ok(()))
  }

  function StripAll(c: Config, keys: seq<Key>): (r: seq<Key>)
    ensures |r| == |keys|
  {
    seq(|keys|, i requires 0 <= i < |keys| => c.StripPrefix(keys[i]))
  }

  /** The batches from request `i` on, stopping at the first error. */
  function DeleteRun(c: Config, bucket: Bucket, chunks: seq<seq<Key>>, replies: nat -> DeleteReply, i: nat): Outcome<()>
    decreases |chunks|
  {
    if chunks == [] then Outcome(bucket, Ok(())) else
    var step := DeleteBatch(c, bucket, chunks[0], replies(i));
    if step.result.Err? then step else DeleteRun(c, step.bucket, chunks[1..], replies, i + 1)
  }

  function CopyOne(c: Config, bucket: Bucket, src: Key, dst: Key, reply: CopyReply): Outcome<()> {
    if !ValidKey(src) || !ValidKey(dst) then Outcome(bucket, Err(InvalidArgument)) else
    var from := c.FullKey(src);
    Outcome(ServeCopy(bucket, from, c.FullKey(dst), reply),
      if reply.Denied? then Err(Refused)
      else if from !in bucket then Err(NotFound(src))
      else Ok(()))
  }

  predicate AllUnder(objects: seq<ListedObject>, prefix: Key) {
    forall i :: 0 <= i < |objects| ==> StartsWith(objects[i].key, prefix)
  }

  /** The copies from object `i` on, stopping at the first error. */
  function CopyRun(c: Config, bucket: Bucket, objects: seq<ListedObject>, src: Key, dst: Key,
                   replies: nat -> CopyReply, i: nat): Outcome<()>
    requires AllUnder(objects, src)
    decreases |objects|
  {
    if objects == [] then Outcome(bucket, Ok(())) else
    var step := CopyOne(c, bucket, objects[0].key, dst + objects[0].key[|src|..], replies(i));
    if step.result.Err? then step else CopyRun(c, step.bucket, objects[1..], src, dst, replies, i + 1)
  }
}
