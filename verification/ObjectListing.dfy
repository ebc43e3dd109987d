/** What a listing returns, and why its pages fit together. */
module ObjectListing {
  import opened Wrappers
  import opened ObjectKeys
  import opened ObjectStore

  /** The keys after a page are the rest of the keys. */
  lemma PageContinues(bucket: Bucket, prefix: Key, i: nat)
    requires 0 < i <= |Matches(bucket, prefix, None)|
    ensures var all := Matches(bucket, prefix, None); Matches(bucket, prefix, Some(all[i - 1])) == all[i..]
  {
    var all := Matches(bucket, prefix, None);
    InOrderAscends(Matching(bucket, prefix, None));
    InOrderAscends(Matching(bucket, prefix, Some(all[i - 1])));
    forall k ensures k in Elements(all[i..]) <==> k in Matching(bucket, prefix, Some(all[i - 1])) {
      SuffixFollows(all, i, k);
      assert k in all <==> k in Matching(bucket, prefix, None);
    }
    assert Elements(all[i..]) == Matching(bucket, prefix, Some(all[i - 1]));
    AscendingUnique(all[i..], Matches(bucket, prefix, Some(all[i - 1])));
  }

  lemma SuffixFollows(s: seq<Key>, i: nat, k: Key)
    requires Ascending(s) && 0 < i <= |s|
    ensures k in s[i..] <==> k in s && Less(s[i - 1], k)
  {
    if k in s[i..] {
      var j :| 0 <= j < |s| - i && s[i..][j] == k;
      assert s[i + j] == k;
    }
    if k in s && Less(s[i - 1], k) {
      var j :| 0 <= j < |s| && s[j] == k;
      LessTotal(s[i - 1], k);
      assert j >= i;
      assert s[i..][j - i] == k;
    }
  }

  /** Each entry, from its stored key. */
  lemma ListingEntry(c: Config, bucket: Bucket, prefix: Key, i: nat)
    requires i < |Listing(c, bucket, prefix)|
    ensures var keys := Matches(bucket, c.FullKey(prefix), None); var o := Listing(c, bucket, prefix)[i];
      && c.FullKey(o.key) == keys[i] && Stores(c, bucket, o) && StartsWith(o.key, prefix)
  {
    var keys := Matches(bucket, c.FullKey(prefix), None);
    assert keys[i] in Elements(keys);
    UnderRoot(c, prefix, keys[i]);
  }

  lemma ListingAscends(c: Config, bucket: Bucket, prefix: Key, i: nat, j: nat)
    requires i < j < |Listing(c, bucket, prefix)|
    ensures Less(Listing(c, bucket, prefix)[i].key, Listing(c, bucket, prefix)[j].key)
  {
    InOrderAscends(Matching(bucket, c.FullKey(prefix), None));
    ListingEntry(c, bucket, prefix, i);
    ListingEntry(c, bucket, prefix, j);
    FullKeyOrder(c, Listing(c, bucket, prefix)[i].key, Listing(c, bucket, prefix)[j].key);
  }

  lemma ListingHas(c: Config, bucket: Bucket, prefix: Key, o: ListedObject)
    requires StartsWith(o.key, prefix) && Stores(c, bucket, o)
    ensures o in Listing(c, bucket, prefix)
  {
    var full := c.FullKey(o.key);
    var keys := Matches(bucket, c.FullKey(prefix), None);
    PrefixIsKept(c, prefix, o.key);
    PrefixRoundTrip(c, o.key);
    assert full in Elements(keys);
    var i :| 0 <= i < |keys| && keys[i] == full;
    assert Listing(c, bucket, prefix)[i] == o;
  }

  /** A listing holds exactly the objects under the prefix, each once, in key order, under the keys
      that the caller would use for them. */
  lemma ListingExact(c: Config, bucket: Bucket, prefix: Key)
    ensures var list := Listing(c, bucket, prefix);
      && (forall i, j :: 0 <= i < j < |list| ==> Less(list[i].key, list[j].key))
      && (forall o :: o in list <==> StartsWith(o.key, prefix) && Stores(c, bucket, o))
  {
    var list := Listing(c, bucket, prefix);
    forall i, j | 0 <= i < j < |list| ensures Less(list[i].key, list[j].key) {
      ListingAscends(c, bucket, prefix, i, j);
    }
    forall o ensures o in list <==> StartsWith(o.key, prefix) && Stores(c, bucket, o) {
      if o in list {
        var i :| 0 <= i < |list| && list[i] == o;
        ListingEntry(c, bucket, prefix, i);
      }
      if StartsWith(o.key, prefix) && Stores(c, bucket, o) {
        ListingHas(c, bucket, prefix, o);
      }
    }
  }

  predicate Stores(c: Config, bucket: Bucket, o: ListedObject) {
    c.FullKey(o.key) in bucket && bucket[c.FullKey(o.key)] == o.content
  }

  /** A stored key under a stored prefix lies under the path prefix. */
  lemma UnderRoot(c: Config, prefix: Key, full: Key)
    requires StartsWith(full, c.FullKey(prefix))
    ensures c.FullKey(c.StripPrefix(full)) == full
    ensures StartsWith(c.StripPrefix(full), prefix)
  {
    var root := c.FullKey("");
    assert c.FullKey(prefix) == root + prefix;
    assert full[..|root|] == (root + prefix)[..|root|];
    PrefixRoundTrip(c, full);
    PrefixIsKept(c, prefix, c.StripPrefix(full));
  }

  // ---- For the operations built on a listing ----

  lemma ListingUnder(c: Config, bucket: Bucket, prefix: Key)
    ensures AllUnder(Listing(c, bucket, prefix), prefix)
  {
    forall i | 0 <= i < |Listing(c, bucket, prefix)| ensures StartsWith(Listing(c, bucket, prefix)[i].key, prefix) {
      ListingEntry(c, bucket, prefix, i);
    }
  }

  function KeysOf(objects: seq<ListedObject>): (r: seq<Key>)
    ensures |r| == |objects|
  {
    seq(|objects|, i requires 0 <= i < |objects| => objects[i].key)
  }

  /** The keys handed to the caller are those of the stored objects under the prefix. */
  lemma KeysStored(c: Config, bucket: Bucket, prefix: Key)
    ensures FullKeys(c, KeysOf(Listing(c, bucket, prefix))) == Matches(bucket, c.FullKey(prefix), None)
    ensures Elements(Matches(bucket, c.FullKey(prefix), None)) == Matching(bucket, c.FullKey(prefix), None)
  {
    forall i | 0 <= i < |Listing(c, bucket, prefix)|
      ensures c.FullKey(Listing(c, bucket, prefix)[i].key) == Matches(bucket, c.FullKey(prefix), None)[i]
    {
      ListingEntry(c, bucket, prefix, i);
    }
  }

  /** `Listing`, of a stored prefix. */
  function All(c: Config, bucket: Bucket, prefix: Key): (r: seq<ListedObject>)
    ensures |r| == |Matches(bucket, prefix, None)|
  {
    Relative(c, Listed(bucket, Matches(bucket, prefix, None)))
  }

  /** How far a listing is once it has got `token`. */
  predicate ListedUpTo(bucket: Bucket, prefix: Key, token: Option<Key>, n: nat) {
    && n <= |Matches(bucket, prefix, None)|
    && if token.None? then n == 0 else 0 < n && token.value == Matches(bucket, prefix, None)[n - 1]
  }

  /** The keys that are left once `n` of them are listed. */
  lemma RestFollows(bucket: Bucket, prefix: Key, token: Option<Key>, n: nat)
    requires ListedUpTo(bucket, prefix, token, n)
    ensures Matches(bucket, prefix, token) == Matches(bucket, prefix, None)[n..]
  {
    if n > 0 { PageContinues(bucket, prefix, n); }
  }

  /** A page served from where the last one ended brings the next objects, and says whether there are more. */
  lemma PageFollows(c: Config, bucket: Bucket, prefix: Key, token: Option<Key>, maxKeys: nat, most: nat, n: nat)
    requires ListedUpTo(bucket, prefix, token, n) && maxKeys > 0
    ensures var page, all := ServePage(bucket, prefix, token, maxKeys, most), All(c, bucket, prefix);
      var after := n + |page.objects|;
      && after <= |all| && Relative(c, page.objects) == all[n..after]
      && (page.next.Some? ==> n < after < |all| && ListedUpTo(bucket, prefix, page.next, after))
      && (page.next.None? ==> after == |all|)
  {
    RestFollows(bucket, prefix, token, n);
    var page := ServePage(bucket, prefix, token, maxKeys, most);
    PartListed(c, bucket, Matches(bucket, prefix, None), n, |page.objects|);
  }

  lemma PartListed(c: Config, bucket: Bucket, keys: seq<Key>, n: nat, size: nat)
    requires InBucket(bucket, keys) && n + size <= |keys|
    ensures Relative(c, Listed(bucket, keys[n..][..size])) == Relative(c, Listed(bucket, keys))[n..n + size]
  {
  }

  // ---- The pages of one listing ----

  lemma NextShrinks(bucket: Bucket, prefix: Key, token: Option<Key>, maxKeys: nat, most: nat)
    requires ServePage(bucket, prefix, token, maxKeys, most).next.Some?
    ensures var next := ServePage(bucket, prefix, token, maxKeys, most).next;
      |Matching(bucket, prefix, next)| < |Matching(bucket, prefix, token)|
  {
    var rest := Matches(bucket, prefix, token);
    var last := ServePage(bucket, prefix, token, maxKeys, most).next.value;
    var later, before := Matching(bucket, prefix, Some(last)), Matching(bucket, prefix, token);
    assert last in Elements(rest);
    LessTotal(last, last);
    forall k | k in later ensures k in before {
      if token.Some? { LessTransitive(token.value, last, k); }
    }
    assert later <= before - {last};
    SmallerSet(later, before - {last});
  }

  lemma SmallerSet(a: set<Key>, b: set<Key>)
    requires a <= b
    ensures |a| <= |b|
  {
    assert b == a + (b - a);
  }

  /** A listing from `token` on, and whether a page said there was more without saying where: the client
      takes such a page for the last. */
  datatype ListOutcome = ListOutcome(result: Result<seq<ListedObject>, Error>, cut: bool)

  /** The outcome of a listing that has got `objects` already. */
  function After(objects: seq<ListedObject>, rest: ListOutcome): ListOutcome {
    if rest.result.Err? then rest else ListOutcome(Ok(objects + rest.result.value), rest.cut)
  }

  function ListRun(c: Config, bucket: Bucket, prefix: Key, token: Option<Key>, maxKeys: nat,
      replies: nat -> ListReply, i: nat)
      : ListOutcome
    decreases |Matching(bucket, prefix, token)|
  {
    if replies(i).NoPage? then ListOutcome(Err(Refused), false)
    else
      var page := ServePage(bucket, prefix, token, maxKeys, replies(i).most);
      if page.next.None? || !replies(i).token then ListOutcome(Ok(Relative(c, page.objects)), page.next.Some?)
      else
        NextShrinks(bucket, prefix, token, maxKeys, replies(i).most);
        After(Relative(c, page.objects), ListRun(c, bucket, prefix, page.next, maxKeys, replies, i + 1))
  }

  lemma OnePage(c: Config, bucket: Bucket, prefix: Key, token: Option<Key>, maxKeys: nat, replies: nat -> ListReply,
      i: nat)
    returns (objects: seq<ListedObject>, next: Option<Key>)
    requires replies(i).Page?
    ensures var page := ServePage(bucket, prefix, token, maxKeys, replies(i).most);
      objects == Relative(c, page.objects) && next == page.next && |objects| <= PAGE_LIMIT
    ensures ListRun(c, bucket, prefix, token, maxKeys, replies, i) ==
      if next.None? || !replies(i).token then ListOutcome(Ok(objects), next.Some?)
      else After(objects, ListRun(c, bucket, prefix, next, maxKeys, replies, i + 1))
  {
    var page := ServePage(bucket, prefix, token, maxKeys, replies(i).most);
    objects, next := Relative(c, page.objects), page.next;
  }

  lemma AfterAfter(a: seq<ListedObject>, b: seq<ListedObject>, rest: ListOutcome)
    ensures After(a, After(b, rest)) == After(a + b, rest)
  {
    if rest.result.Ok? { assert a + (b + rest.result.value) == a + b + rest.result.value; }
  }

  lemma AfterPage(objects: seq<ListedObject>, c: Config, bucket: Bucket, prefix: Key, token: Option<Key>, maxKeys: nat,
                  replies: nat -> ListReply, i: nat)
    requires replies(i).Page?
    ensures var page := ServePage(bucket, prefix, token, maxKeys, replies(i).most);
      var got := objects + Relative(c, page.objects);
      After(objects, ListRun(c, bucket, prefix, token, maxKeys, replies, i)) ==
        if page.next.None? || !replies(i).token then ListOutcome(Ok(got), page.next.Some?)
        else After(got, ListRun(c, bucket, prefix, page.next, maxKeys, replies, i + 1))
  {
    var brought, next := OnePage(c, bucket, prefix, token, maxKeys, replies, i);
    if next.Some? { AfterAfter(objects, brought, ListRun(c, bucket, prefix, next, maxKeys, replies, i + 1)); }
  }

  lemma AfterNothing(o: ListOutcome)
    ensures After([], o) == o
  {
    if o.result.Ok? { assert [] + o.result.value == o.result.value; }
  }

  /** From the `n`-th of all objects on, a listing has everything up to the `m`-th, short of the end exactly
      when it was cut. */
  predicate Gets(all: seq<ListedObject>, n: nat, o: ListOutcome, m: nat) {
    n <= m <= |all| && o.result == Ok(all[n..m]) && (m == |all| <==> !o.cut)
  }

  lemma GetsMore(all: seq<ListedObject>, n: nat, after: nat, rest: ListOutcome, m: nat)
    requires n <= after <= |all| && Gets(all, after, rest, m)
    ensures Gets(all, n, After(all[n..after], rest), m)
  {
    assert all[n..after] + all[after..m] == all[n..m];
  }

  /** One request of a listing that has got `n` of all objects: it gets those up to `after`, and the listing goes
      on from `next` unless it is over. */
  lemma RequestGets(c: Config, bucket: Bucket, prefix: Key, token: Option<Key>, maxKeys: nat,
      replies: nat -> ListReply, i: nat, n: nat)
    returns (after: nat, next: Option<Key>)
    requires ListedUpTo(bucket, prefix, token, n) && maxKeys > 0 && replies(i).Page?
    ensures var all, o := All(c, bucket, prefix), ListRun(c, bucket, prefix, token, maxKeys, replies, i);
      && n <= after <= |all| && after <= n + PAGE_LIMIT
      && if after == |all| || !replies(i).token then o == ListOutcome(Ok(all[n..after]), after < |all|)
         else
           && ListedUpTo(bucket, prefix, next, after)
           && |Matching(bucket, prefix, next)| < |Matching(bucket, prefix, token)|
           && o == After(all[n..after], ListRun(c, bucket, prefix, next, maxKeys, replies, i + 1))
  {
    var page := ServePage(bucket, prefix, token, maxKeys, replies(i).most);
    PageFollows(c, bucket, prefix, token, maxKeys, replies(i).most, n);
    after, next := n + |page.objects|, page.next;
    if next.Some? { NextShrinks(bucket, prefix, token, maxKeys, replies(i).most); }
  }

  /** A listing that succeeds gets so far. */
  lemma {:induction false} ListRunFrom(
      c: Config, bucket: Bucket, prefix: Key, token: Option<Key>, maxKeys: nat, replies: nat -> ListReply,
      i: nat, n: nat)
    returns (m: nat)
    requires ListedUpTo(bucket, prefix, token, n) && maxKeys > 0
    requires ListRun(c, bucket, prefix, token, maxKeys, replies, i).result.Ok?
    ensures Gets(All(c, bucket, prefix), n, ListRun(c, bucket, prefix, token, maxKeys, replies, i), m)
    decreases |Matching(bucket, prefix, token)|
  {
    var next;
    m, next := RequestGets(c, bucket, prefix, token, maxKeys, replies, i, n);
    var after := m;
    if after < |All(c, bucket, prefix)| && replies(i).token {
      var rest := ListRun(c, bucket, prefix, next, maxKeys, replies, i + 1);
      m := ListRunFrom(c, bucket, prefix, next, maxKeys, replies, i + 1, after);
      GetsMore(All(c, bucket, prefix), n, after, rest, m);
    }
  }

  /** A listing that succeeds is a prefix of the full one, and the full one if and only if no page was cut. */
  lemma ListingOutcome(c: Config, bucket: Bucket, prefix: Key, maxKeys: nat, replies: nat -> ListReply)
    requires maxKeys > 0
    ensures var o := ListRun(c, bucket, c.FullKey(prefix), None, maxKeys, replies, 0);
      o.result.Ok? ==>
        && o.result.value <= Listing(c, bucket, prefix)
        && (o.result.value == Listing(c, bucket, prefix) <==> !o.cut)
  {
    var full := c.FullKey(prefix);
    var o := ListRun(c, bucket, full, None, maxKeys, replies, 0);
    if o.result.Ok? {
      var m := ListRunFrom(c, bucket, full, None, maxKeys, replies, 0, 0);
      assert All(c, bucket, full) == Listing(c, bucket, prefix);
      assert Listing(c, bucket, prefix)[0..m] == Listing(c, bucket, prefix)[..m];
    }
  }

  // ---- Which answers cut a listing ----

  /** Request `i`, reached from request `k`, is answered with a page that leaves out its token, if it needs one. */
  ghost predicate CutsAt(replies: nat -> ListReply, k: nat, i: nat) {
    && k <= i && replies(i).Page? && !replies(i).token
    && forall j: nat :: k <= j < i ==> replies(j).Page? && replies(j).token
  }

  /** Only such a request cuts a listing. */
  lemma {:induction false} CutHasRequest(
      c: Config, bucket: Bucket, prefix: Key, token: Option<Key>, maxKeys: nat, replies: nat -> ListReply, k: nat)
    returns (i: nat)
    requires ListRun(c, bucket, prefix, token, maxKeys, replies, k).cut
    ensures CutsAt(replies, k, i)
    decreases |Matching(bucket, prefix, token)|
  {
    var page := ServePage(bucket, prefix, token, maxKeys, replies(k).most);
    if !replies(k).token {
      i := k;
    } else {
      NextShrinks(bucket, prefix, token, maxKeys, replies(k).most);
      i := CutHasRequest(c, bucket, prefix, page.next, maxKeys, replies, k + 1);
    }
  }

  predicate Holds(o: ListOutcome, most: nat) { o.result.Ok? && |o.result.value| <= most }

  lemma PageHolds(c: Config, bucket: Bucket, prefix: Key, token: Option<Key>, maxKeys: nat, replies: nat -> ListReply,
      k: nat, most: nat)
    returns (next: Option<Key>)
    requires replies(k).Page?
    ensures !replies(k).token ==> Holds(ListRun(c, bucket, prefix, token, maxKeys, replies, k), PAGE_LIMIT)
    ensures replies(k).token && Holds(ListRun(c, bucket, prefix, next, maxKeys, replies, k + 1), most) ==>
      Holds(ListRun(c, bucket, prefix, token, maxKeys, replies, k), PAGE_LIMIT + most)
  {
    var objects;
    objects, next := OnePage(c, bucket, prefix, token, maxKeys, replies, k);
  }

  /** And a listing that gets there has no more than its pages hold. */
  lemma {:induction false} PagesHold(
      c: Config, bucket: Bucket, prefix: Key, token: Option<Key>, maxKeys: nat, replies: nat -> ListReply, k: nat,
      i: nat)
    requires CutsAt(replies, k, i)
    ensures Holds(ListRun(c, bucket, prefix, token, maxKeys, replies, k), (i + 1 - k) * PAGE_LIMIT)
    decreases i - k
  {
    var next := PageHolds(c, bucket, prefix, token, maxKeys, replies, k, (i - k) * PAGE_LIMIT);
    if k < i { PagesHold(c, bucket, prefix, next, maxKeys, replies, k + 1, i); }
  }

  /** A bucket with `n` objects under `prefix`. */
  function Filled(prefix: Key, n: nat): Bucket {
    if n == 0 then map[] else Filled(prefix, n - 1)[prefix + seq(n, _ => 'a') := 0]
  }

  lemma {:induction false} FilledHas(prefix: Key, n: nat)
    ensures |Filled(prefix, n)| == n
    ensures forall k :: k in Filled(prefix, n) ==> StartsWith(k, prefix) && |k| <= |prefix| + n
  {
    if n > 0 {
      FilledHas(prefix, n - 1);
      assert prefix + seq(n, _ => 'a') !in Filled(prefix, n - 1);
    }
  }

  lemma FilledMatches(prefix: Key, n: nat)
    ensures |Matches(Filled(prefix, n), prefix, None)| == n
  {
    FilledHas(prefix, n);
    assert Matching(Filled(prefix, n), prefix, None) == Filled(prefix, n).Keys;
  }

  /** `list_paged`, when it succeeds on this bucket, has every object under the prefix. */
  predicate ListsWhole(c: Config, bucket: Bucket, prefix: Key, maxKeys: nat, replies: nat -> ListReply) {
    var r := ListRun(c, bucket, c.FullKey(prefix), None, maxKeys, replies, 0).result;
    r.Ok? ==> r.value == Listing(c, bucket, prefix)
  }

  /** With these answers a successful listing is whole for every bucket if and only if no request that the
      client gets to is answered with a page that leaves out its token. */
  lemma WholeIffTokensGiven(c: Config, prefix: Key, maxKeys: nat, replies: nat -> ListReply)
    requires maxKeys > 0
    ensures (forall bucket: Bucket :: ListsWhole(c, bucket, prefix, maxKeys, replies))
      <==> !exists i: nat :: CutsAt(replies, 0, i)
  {
    var full := c.FullKey(prefix);
    if i: nat :| CutsAt(replies, 0, i) {
      var bucket := Filled(full, (i + 1) * PAGE_LIMIT + 1);
      FilledMatches(full, (i + 1) * PAGE_LIMIT + 1);
      PagesHold(c, bucket, full, None, maxKeys, replies, 0, i);
      assert !ListsWhole(c, bucket, prefix, maxKeys, replies);
    } else {
      forall bucket: Bucket ensures ListsWhole(c, bucket, prefix, maxKeys, replies) {
        ListingOutcome(c, bucket, prefix, maxKeys, replies);
        if ListRun(c, bucket, full, None, maxKeys, replies, 0).cut {
          var i := CutHasRequest(c, bucket, full, None, maxKeys, replies, 0);
        }
      }
    }
  }

  /** A first page with one object and no token: Ok, and all the others are missing. */
  lemma CutListing(c: Config, bucket: Bucket, prefix: Key)
    requires |Listing(c, bucket, prefix)| >= 2
    ensures var o := ListRun(c, bucket, c.FullKey(prefix), None, PAGE_LIMIT, (_: nat) => Page(1, false), 0);
      o.result == Ok(Listing(c, bucket, prefix)[..1])
  {
    var full := c.FullKey(prefix);
    var all := Matches(bucket, full, None);
    assert Listing(c, bucket, prefix)[..1] == Relative(c, Listed(bucket, all[..1]));
  }
}
