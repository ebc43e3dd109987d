/** Object keys: the order a bucket lists them in, and the path prefix of `S3Config`. */
module ObjectKeys {
  import opened Wrappers

  type Key = string

  // ---- The listing order ----

  /** UTF-8 byte order, which is the order of the code points. */
  predicate Less(a: Key, b: Key) {
    b != "" && (a == "" || a[0] < b[0] || (a[0] == b[0] && Less(a[1..], b[1..])))
  }

  lemma {:induction false} LessTotal(a: Key, b: Key)
    ensures Less(a, b) || Less(b, a) || a == b
    ensures !(Less(a, b) && Less(b, a))
    ensures a == b ==> !Less(a, b)
  {
    if a != "" && b != "" && a[0] == b[0] {
      LessTotal(a[1..], b[1..]);
      assert a == [a[0]] + a[1..] && b == [b[0]] + b[1..];
    }
  }

  lemma {:induction false} LessTransitive(a: Key, b: Key, c: Key)
    requires Less(a, b) && Less(b, c)
    ensures Less(a, c)
  {
    if a != "" && a[0] == b[0] == c[0] {
      LessTransitive(a[1..], b[1..], c[1..]);
    }
  }

  lemma {:induction false} LessUnderPrefix(p: Key, a: Key, b: Key)
    ensures Less(p + a, p + b) <==> Less(a, b)
  {
    if p == "" {
      assert p + a == a && p + b == b;
    } else {
      assert (p + a)[1..] == p[1..] + a && (p + b)[1..] == p[1..] + b;
      LessUnderPrefix(p[1..], a, b);
    }
  }

  predicate Ascending(s: seq<Key>) { forall i, j :: 0 <= i < j < |s| ==> Less(s[i], s[j]) }

  function Elements(s: seq<Key>): set<Key> { set k | k in s }

  lemma {:induction false} LeastExists(keys: set<Key>)
    requires keys != {}
    ensures exists k :: IsLeast(k, keys)
    decreases keys
  {
    var any :| any in keys;
    var rest := keys - {any};
    if rest == {} {
      assert keys == {any};
      assert IsLeast(any, keys);
    } else {
      LeastExists(rest);
      var least :| IsLeast(least, rest);
      LessTotal(any, least);
      if Less(any, least) {
        forall k | k in keys && k != any ensures Less(any, k) {
          assert k in rest;
          if k != least { LessTransitive(any, least, k); }
        }
        assert IsLeast(any, keys);
      } else {
        assert forall k :: k in keys ==> k == any || k in rest;
        assert IsLeast(least, keys);
      }
    }
  }

  predicate IsLeast(k: Key, keys: set<Key>) { k in keys && forall other <- keys :: other != k ==> Less(k, other) }

  lemma LeastUnique(keys: set<Key>)
    ensures forall a, b :: IsLeast(a, keys) && IsLeast(b, keys) ==> a == b
  {
    forall a, b | IsLeast(a, keys) && IsLeast(b, keys) ensures a == b {
      LessTotal(a, b);
    }
  }

  /** The keys in listing order. */
  function InOrder(keys: set<Key>): (s: seq<Key>)
    ensures Elements(s) == keys && |s| == |keys|
    decreases keys
  {
    if keys == {} then [] else
    LeastExists(keys);
    LeastUnique(keys);
    var k :| k in keys && IsLeast(k, keys);
    var rest := InOrder(keys - {k});
    assert Elements([k] + rest) == keys by {
      forall x ensures x in [k] + rest <==> x in keys {
        assert x in [k] + rest <==> x == k || x in rest;
        assert x in rest <==> x in Elements(rest);
      }
    }
    [k] + rest
  }

  lemma {:induction false} InOrderAscends(keys: set<Key>)
    ensures Ascending(InOrder(keys))
    decreases keys
  {
    if keys != {} {
      var s := InOrder(keys);
      var k := s[0];
      assert IsLeast(k, keys) && s == [k] + InOrder(keys - {k});
      InOrderAscends(keys - {k});
      forall j | 1 <= j < |s| ensures Less(s[0], s[j]) {
        assert s[j] in InOrder(keys - {k});
        assert s[j] in Elements(InOrder(keys - {k}));
      }
    }
  }

  lemma NoElements(s: seq<Key>)
    ensures s == [] <==> Elements(s) == {}
  {
    if s != [] { assert s[0] in Elements(s); }
  }

  /** There is only one ascending list of a set of keys. */
  lemma {:induction false} AscendingUnique(s: seq<Key>, t: seq<Key>)
    requires Ascending(s) && Ascending(t) && Elements(s) == Elements(t)
    ensures s == t
  {
    if s == [] || t == [] {
      NoElements(s);
      NoElements(t);
    } else {
      HeadsAgree(s, t);
      TailElements(s);
      TailElements(t);
      AscendingUnique(s[1..], t[1..]);
      assert s == [s[0]] + s[1..] && t == [t[0]] + t[1..];
    }
  }

  lemma HeadsAgree(s: seq<Key>, t: seq<Key>)
    requires Ascending(s) && Ascending(t) && Elements(s) == Elements(t) && s != [] && t != []
    ensures s[0] == t[0]
  {
    assert s[0] in Elements(t) && t[0] in Elements(s);
    LessTotal(s[0], t[0]);
  }

  lemma TailElements(s: seq<Key>)
    requires Ascending(s) && s != []
    ensures Elements(s[1..]) == Elements(s) - {s[0]}
  {
    LessTotal(s[0], s[0]);
    forall k ensures k in s[1..] <==> k in s && k != s[0] {
      if k in s && k != s[0] {
        var i :| 0 <= i < |s| && s[i] == k;
        assert s[1..][i - 1] == k;
      }
      if k in s[1..] {
        var i :| 0 <= i < |s| - 1 && s[1..][i] == k;
        LessTotal(s[0], k);
      }
    }
  }

  // ---- The path prefix ----

  predicate StartsWith(s: Key, prefix: Key) { |prefix| <= |s| && s[..|prefix|] == prefix }

  function TrimStart(s: string): string { if s != "" && s[0] == '/' then TrimStart(s[1..]) else s }

  function TrimEnd(s: string): string { if s != "" && s[|s| - 1] == '/' then TrimEnd(s[..|s| - 1]) else s }

  datatype Config = Config(pathPrefix: Option<string>) {
    /** `prefix`: without surrounding slashes, or none. */
    function Prefix(): Option<string> {
      match pathPrefix
      case None => None
      case Some(p) => var trimmed := TrimEnd(TrimStart(p)); if trimmed == "" then None else Some(trimmed)
    }

    function FullKey(key: Key): Key {
      match Prefix()
      case Some(prefix) => prefix + "/" + key
      case None => key
    }

    function StripPrefix(full: Key): Key {
      match Prefix()
      case Some(prefix) =>
        if StartsWith(full, prefix) && StartsWith(full[|prefix|..], "/") then full[|prefix| + 1..] else full
      case None => full
    }
  }

  /** The prefix is the configured one less its surrounding slashes, and none when nothing else is there. */
  lemma PrefixIsTrimmed(c: Config)
    requires c.pathPrefix.Some?
    ensures match c.Prefix()
      case None => AllSlashes(c.pathPrefix.value)
      case Some(p) =>
        && p != "" && p[0] != '/' && p[|p| - 1] != '/'
        && exists i, j :: IsTrimmed(c.pathPrefix.value, p, i, j)
  {
    var whole := c.pathPrefix.value;
    var i := TrimStartCuts(whole);
    var j := TrimEndCuts(TrimStart(whole));
    if c.Prefix().Some? {
      assert whole[i + j..] == whole[i..][j..];
      assert IsTrimmed(whole, c.Prefix().value, i, i + j);
    } else {
      assert whole == whole[..i] + whole[i..] && j == 0;
    }
  }

  predicate AllSlashes(s: string) { forall i :: 0 <= i < |s| ==> s[i] == '/' }

  predicate IsTrimmed(whole: string, p: string, i: int, j: int) {
    && 0 <= i <= j <= |whole| && p == whole[i..j]
    && AllSlashes(whole[..i]) && AllSlashes(whole[j..])
  }

  lemma {:induction false} TrimStartCuts(s: string) returns (i: nat)
    ensures i <= |s| && TrimStart(s) == s[i..] && AllSlashes(s[..i])
    ensures TrimStart(s) != "" ==> TrimStart(s)[0] != '/'
  {
    i := 0;
    if s != "" && s[0] == '/' {
      var rest := TrimStartCuts(s[1..]);
      i := rest + 1;
      assert s[1..][rest..] == s[i..] && s[..i] == [s[0]] + s[1..][..rest];
    }
  }

  lemma {:induction false} TrimEndCuts(s: string) returns (j: nat)
    ensures j <= |s| && TrimEnd(s) == s[..j] && AllSlashes(s[j..])
    ensures TrimEnd(s) != "" ==> TrimEnd(s)[|TrimEnd(s)| - 1] != '/'
  {
    j := |s|;
    if s != "" && s[|s| - 1] == '/' {
      j := TrimEndCuts(s[..|s| - 1]);
      assert s[j..] == s[..|s| - 1][j..] + [s[|s| - 1]];
    }
  }

  /** With a prefix `p`, whatever slashes it was configured with, a key is stored as `p/key`; without one, or with
      slashes alone, as itself. A stored key that is not under the prefix is left alone. */
  lemma StoredKey(left: string, p: string, right: string, key: Key)
    requires AllSlashes(left) && AllSlashes(right) && p != "" && p[0] != '/' && p[|p| - 1] != '/'
    ensures Config(Some(left + p + right)).FullKey(key) == p + "/" + key
    ensures !StartsWith(key, p + "/") ==> Config(Some(left + p + right)).StripPrefix(key) == key
    ensures Config(Some(left)).FullKey(key) == key == Config(None).FullKey(key)
    ensures Config(Some(left)).StripPrefix(key) == key == Config(None).StripPrefix(key)
  {
    TrimStartDrops(left, p + right);
    assert left + p + right == left + (p + right);
    TrimEndDrops(p, right);
    TrimStartDrops(left, "");
    assert left + "" == left;
    var c := Config(Some(left + p + right));
    assert c.Prefix() == Some(p);
    if StartsWith(key, p) && StartsWith(key[|p|..], "/") {
      assert key[..|p + "/"|] == key[..|p|] + key[|p|..][..1];
    }
  }

  lemma {:induction false} TrimStartDrops(left: string, rest: string)
    requires AllSlashes(left) && (rest == "" || rest[0] != '/')
    ensures TrimStart(left + rest) == rest
  {
    if left == "" {
      assert left + rest == rest;
    } else {
      TrimStartDrops(left[1..], rest);
      assert (left + rest)[1..] == left[1..] + rest;
    }
  }

  lemma {:induction false} TrimEndDrops(p: string, right: string)
    requires AllSlashes(right) && p != "" && p[|p| - 1] != '/'
    ensures TrimEnd(p + right) == p
  {
    if right == "" {
      assert p + right == p;
    } else {
      var n := |right| - 1;
      TrimEndDrops(p, right[..n]);
      assert (p + right)[..|p + right| - 1] == p + right[..n];
    }
  }

  /** `strip_prefix` undoes `full_key`, and `full_key` undoes it on the keys under the prefix. */
  lemma PrefixRoundTrip(c: Config, key: Key)
    ensures c.StripPrefix(c.FullKey(key)) == key
    ensures StartsWith(key, c.FullKey("")) ==> c.FullKey(c.StripPrefix(key)) == key
  {
    var root := c.FullKey("");
    if c.Prefix().Some? {
      var p := c.Prefix().value;
      assert root == p + "/";
      var full := c.FullKey(key);
      assert full[..|p|] == p && full[|p|..] == "/" + key && full[|p| + 1..] == key;
      if StartsWith(key, root) {
        assert key == root + key[|root|..];
        assert key[..|p|] == p && key[|p|..] == "/" + key[|p| + 1..];
      }
    }
  }

  /** A key starts with a prefix exactly when the stored key starts with the stored prefix. */
  lemma PrefixIsKept(c: Config, prefix: Key, key: Key)
    ensures StartsWith(c.FullKey(key), c.FullKey(prefix)) <==> StartsWith(key, prefix)
  {
    if c.Prefix().Some? {
      var root := c.Prefix().value + "/";
      assert c.FullKey(key) == root + key && c.FullKey(prefix) == root + prefix;
      if StartsWith(key, prefix) {
        assert (root + key)[..|root + prefix|] == root + key[..|prefix|];
      }
      if StartsWith(root + key, root + prefix) {
        assert key[..|prefix|] == (root + key)[|root|..|root + prefix|] == prefix;
      }
    }
  }

  lemma FullKeyOrder(c: Config, a: Key, b: Key)
    ensures Less(c.FullKey(a), c.FullKey(b)) <==> Less(a, b)
    ensures c.FullKey(a) == c.FullKey(b) <==> a == b
  {
    PrefixRoundTrip(c, a);
    PrefixRoundTrip(c, b);
    if c.Prefix().Some? {
      LessUnderPrefix(c.Prefix().value + "/", a, b);
    }
  }
}
