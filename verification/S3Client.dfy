/** The client's operations, changing the bucket in place. */
module S3Client {
  import opened Wrappers
  import opened ObjectKeys
  import opened DeleteXml
  import opened ObjectStore
  import opened ObjectListing
  import opened BatchDelete
  import opened PrefixCopy

  lemma ListingFacts(c: Config, bucket: Bucket, prefix: Key, pageSize: nat, replies: nat -> ListReply)
    ensures var o := ListRun(c, bucket, c.FullKey(prefix), None, pageSize, replies, 0);
      && (o.result.Ok? && pageSize > 0 ==> o.result.value <= Listing(c, bucket, prefix))
      && (o.result.Ok? && pageSize > 0 && !o.cut ==> o.result.value == Listing(c, bucket, prefix))
      && ((forall i: nat :: !CutsAt(replies, 0, i)) ==> !o.cut)
      && o.result != Err(InvalidArgument)
  {
    if pageSize > 0 { ListingOutcome(c, bucket, prefix, pageSize, replies); }
    if ListRun(c, bucket, c.FullKey(prefix), None, pageSize, replies, 0).cut {
      var i := CutHasRequest(c, bucket, c.FullKey(prefix), None, pageSize, replies, 0);
    }
    OnlyRefused(c, bucket, c.FullKey(prefix), None, pageSize, replies, 0);
  }

  lemma {:induction false} OnlyRefused(
      c: Config, bucket: Bucket, prefix: Key, token: Option<Key>, maxKeys: nat, replies: nat -> ListReply, i: nat)
    ensures var o := ListRun(c, bucket, prefix, token, maxKeys, replies, i);
      o.result.Err? ==> o.result == Err(Refused) && exists j: nat :: replies(j).NoPage?
    decreases |Matching(bucket, prefix, token)|
  {
    if replies(i).Page? {
      var page := ServePage(bucket, prefix, token, maxKeys, replies(i).most);
      if page.next.Some? {
        NextShrinks(bucket, prefix, token, maxKeys, replies(i).most);
        OnlyRefused(c, bucket, prefix, page.next, maxKeys, replies, i + 1);
      }
    }
  }

  class Client {
    const config: Config
    var bucket: Bucket

    constructor (config: Config, bucket: Bucket)
      ensures this.config == config && this.bucket == bucket
    {
      this.config, this.bucket := config, bucket;
    }

    /** `list_paged`, page after page; see `ListingOutcome` and `WholeIffTokensGiven` for what the pages add up to. */
    method ListPaged(prefix: Key, pageSize: nat, replies: nat -> ListReply)
        returns (r: Result<seq<ListedObject>, Error>)
      ensures r == Err(InvalidArgument) <==> StartsWith(prefix, "/")
      ensures !StartsWith(prefix, "/") ==>
        r == ListRun(config, bucket, config.FullKey(prefix), None, pageSize, replies, 0).result
      ensures r.Ok? && pageSize > 0 ==> r.value <= Listing(config, bucket, prefix)
      ensures r.Ok? && pageSize > 0 && (forall i: nat :: !CutsAt(replies, 0, i)) ==>
        r.value == Listing(config, bucket, prefix)
    {
      if StartsWith(prefix, "/") { return Err(InvalidArgument); }
      var fullPrefix := config.FullKey(prefix);
      ghost var whole := ListRun(config, bucket, fullPrefix, None, pageSize, replies, 0);
      ListingFacts(config, bucket, prefix, pageSize, replies);
      var objects: seq<ListedObject> := [];
      var token: Option<Key> := None;
      var request: nat := 0;
      AfterNothing(whole);
      while true
        invariant whole == After(objects, ListRun(config, bucket, fullPrefix, token, pageSize, replies, request))
        decreases |Matching(bucket, fullPrefix, token)|
      {
        if replies(request).NoPage? { return Err(Refused); }
        var most := replies(request).most;
        var page := ServePage(bucket, fullPrefix, token, pageSize, most);
        AfterPage(objects, config, bucket, fullPrefix, token, pageSize, replies, request);
        objects := objects + Relative(config, page.objects);
        if page.next.None? || !replies(request).token { return Ok(objects); }
        NextShrinks(bucket, fullPrefix, token, pageSize, most);
        token := page.next;
        request := request + 1;
      }
    }

    /** One batch: validate the keys, send the request, read the answer. */
    method SendBatch(chunk: seq<Key>, reply: DeleteReply) returns (r: Result<(), Error>)
      modifies this`bucket
      ensures Outcome(bucket, r) == DeleteBatch(config, old(bucket), chunk, reply)
    {
      var full: seq<Key> := [];
      for j := 0 to |chunk|
        invariant full == FullKeys(config, chunk[..j]) && ValidKeys(chunk[..j])
      {
        if !ValidKey(chunk[j]) { return Err(InvalidArgument); }
        full := full + [config.FullKey(chunk[j])];
      }
      assert chunk[..|chunk|] == chunk;
      var body := DeleteRequest(full);
      bucket := ServeDelete(bucket, body, reply);
      if ParseDelete(body).None? || reply.Failed? { return Err(Refused); }
      if reply.Kept? && reply.kept != [] { return Err(DeleteFailed(StripAll(config, reply.kept))); }
      return Ok(());
    }

    /** `delete_many`: see `DeleteManyOutcome` for what `DeleteRun` leaves. */
    method DeleteMany(keys: seq<Key>, replies: nat -> DeleteReply) returns (r: Result<(), Error>)
      modifies this`bucket
      ensures Outcome(bucket, r) == DeleteRun(config, old(bucket), Chunks(keys), replies, 0)
    {
      var rest, request: nat := keys, 0;
      while rest != []
        invariant DeleteRun(config, bucket, Chunks(rest), replies, request)
          == DeleteRun(config, old(bucket), Chunks(keys), replies, 0)
      {
        var n := Min(|rest|, DELETE_BATCH);
        RunFirst(config, bucket, rest, replies, request);
        var done :- SendBatch(rest[..n], replies(request));
        rest := rest[n..];
        request := request + 1;
      }
      return Ok(());
    }

    /** `copy`. */
    method Copy(src: Key, dst: Key, reply: CopyReply) returns (r: Result<(), Error>)
      modifies this`bucket
      ensures Outcome(bucket, r) == CopyOne(config, old(bucket), src, dst, reply)
      ensures r == Err(InvalidArgument) <==> src == "" || src[0] == '/' || dst == "" || dst[0] == '/'
      ensures r.Ok? ==>
        && config.FullKey(src) in old(bucket)
        && bucket == old(bucket)[config.FullKey(dst) := old(bucket)[config.FullKey(src)]]
      ensures r == Err(NotFound(src)) ==> config.FullKey(src) !in old(bucket)
      ensures r.Err? && r.error != Refused ==> bucket == old(bucket)
      ensures forall k :: k != config.FullKey(dst) ==>
        (k in bucket <==> k in old(bucket)) && (k in bucket ==> bucket[k] == old(bucket)[k])
    {
      if !ValidKey(src) || !ValidKey(dst) { return Err(InvalidArgument); }
      var from := config.FullKey(src);
      var missing := from !in bucket;
      bucket := ServeCopy(bucket, from, config.FullKey(dst), reply);
      if reply.Denied? { return Err(Refused); }
      if missing { return Err(NotFound(src)); }
      return Ok(());
    }

    /** The objects `list` finds, by the pages it is served. */
    ghost function ListedBy(prefix: Key, pages: nat -> ListReply): Result<seq<ListedObject>, Error>
      reads this
    {
      if StartsWith(prefix, "/") then Err(InvalidArgument)
      else ListRun(config, bucket, config.FullKey(prefix), None, PAGE_LIMIT, pages, 0).result
    }

    /** `delete_prefix`: see `DeletePrefixExact` for what the run of batches over a full listing leaves. */
    method DeletePrefix(prefix: Key, pages: nat -> ListReply, replies: nat -> DeleteReply)
        returns (r: Result<nat, Error>)
      modifies this`bucket
      ensures match old(ListedBy(prefix, pages))
        case Err(error) => r == Err(error) && bucket == old(bucket)
        case Ok(list) =>
          var run := DeleteRun(config, old(bucket), Chunks(KeysOf(list)), replies, 0);
          bucket == run.bucket && r == if run.result.Ok? then Ok(|list|) else Err(run.result.error)
    {
      var objects :- ListPaged(prefix, PAGE_LIMIT, pages);
      var keys := KeysOf(objects);
      var done :- DeleteMany(keys, replies);
      return Ok(|keys|);
    }

    /** `copy_prefix`: see `CopyPrefixOutcome` and `CopyPrefixStops` for what the run of copies over a full
        listing leaves. The slice is in range because every listed key starts with the source prefix. */
    method CopyPrefix(src: Key, dst: Key, pages: nat -> ListReply, replies: nat -> CopyReply)
        returns (r: Result<nat, Error>)
      modifies this`bucket
      ensures match old(ListedBy(src, pages))
        case Err(error) => r == Err(error) && bucket == old(bucket)
        case Ok(list) =>
          && AllUnder(list, src)
          && var run := CopyRun(config, old(bucket), list, src, dst, replies, 0);
          bucket == run.bucket && r == if run.result.Ok? then Ok(|list|) else Err(run.result.error)
    {
      ListingUnder(config, bucket, src);
      var objects :- ListPaged(src, PAGE_LIMIT, pages);
      var i: nat := 0;
      while i < |objects|
        invariant i <= |objects| && AllUnder(objects, src)
        invariant CopyRun(config, bucket, objects[i..], src, dst, replies, i)
          == CopyRun(config, old(bucket), objects, src, dst, replies, 0)
      {
        var key := objects[i].key;
        var rest := key[|src|..];
        CopyFirst(config, bucket, objects, src, dst, replies, i);
        var done :- Copy(key, dst + rest, replies(i));
        i := i + 1;
      }
      return Ok(|objects|);
    }
  }
}
