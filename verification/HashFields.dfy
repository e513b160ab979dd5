/**
 * The field names of the window hashes: `edge_field`/`parse_edge` (services/features/state.py)
 * and `dist_field`/`from_hash` (services/features/compute.py).
 */
module HashFields {
  import opened Options

  /** Position of the first sep in s, |s| when there is none. */
  function IndexOf(s: string, sep: char): (i: nat)
    ensures i <= |s| && (forall k | 0 <= k < i :: s[k] != sep) && (i < |s| ==> s[i] == sep)
  {
    if s == "" || s[0] == sep then 0
    else
      var i := 1 + IndexOf(s[1..], sep);
      assert forall k | 1 <= k < i :: s[k] == s[1..][k - 1];
      i
  }

  /** Python's `partition`: before, whether sep was there, after. */
  function Partition(s: string, sep: char): (string, bool, string) {
    var i := IndexOf(s, sep);
    if i < |s| then (s[..i], true, s[i + 1..]) else (s, false, "")
  }

  lemma PartitionJoined(a: string, sep: char, b: string)
    requires sep !in a
    ensures Partition(a + [sep] + b, sep) == (a, true, b)
  {
    var s := a + [sep] + b;
    var i := IndexOf(s, sep);
    assert s[|a|] == sep;
    assert forall k | 0 <= k < |a| :: s[k] == a[k] && a[k] in a;
    assert s[..i] == a && s[i + 1..] == b;
  }

  lemma PartitionParts(s: string, sep: char)
    ensures var (a, found, b) := Partition(s, sep);
            sep !in a && s == (if found then a + [sep] + b else a)
  {
  }

  // ------------------------------------------------------------------ edges

  const EDGE_SEP := '>'

  function EdgeField(src: string, dst: string): string {
    src + [EDGE_SEP] + dst
  }

  function ParseEdge(field: string): Option<(string, string)> {
    var (src, found, dst) := Partition(field, EDGE_SEP);
    if found && src != "" && dst != "" then Some((src, dst)) else None
  }

  /** An edge survives the hash exactly when both ends are non-empty and the source has no separator. */
  lemma EdgeRoundTripIff(src: string, dst: string)
    ensures ParseEdge(EdgeField(src, dst)) == Some((src, dst)) <==> src != "" && dst != "" && EDGE_SEP !in src
  {
    PartitionParts(EdgeField(src, dst), EDGE_SEP);
    if EDGE_SEP !in src {
      PartitionJoined(src, EDGE_SEP, dst);
    }
  }

  /** Two edges whose sources have no separator never share a field. */
  lemma EdgeFieldsAreDistinct(a: (string, string), b: (string, string))
    requires EDGE_SEP !in a.0 && EDGE_SEP !in b.0 && EdgeField(a.0, a.1) == EdgeField(b.0, b.1)
    ensures a == b
  {
    PartitionJoined(a.0, EDGE_SEP, a.1);
    PartitionJoined(b.0, EDGE_SEP, b.1);
  }

  // ------------------------------------------------------ scalars and buckets

  const DIST_SEP := ':'
  const DIST_PREFIXES: set<string> := {"di", "dp", "tw", "ps", "fx"}

  type Bucket = (string, string)

  function DistField(b: Bucket): string {
    b.0 + [DIST_SEP] + b.1
  }

  predicate IsBucket(key: string) {
    var (prefix, found, rest) := Partition(key, DIST_SEP);
    found && prefix in DIST_PREFIXES
  }

  function BucketOf(key: string): Bucket {
    var (prefix, found, bucket) := Partition(key, DIST_SEP);
    (prefix, bucket)
  }

  /** The names as Redis has them: `src>dst`, and two letters, a colon and the value. */
  lemma FieldNames(src: string, dst: string, value: string)
    ensures EdgeField(src, dst) == src + ">" + dst
    ensures DistField(("di", value)) == "di:" + value && IsBucket("di:" + value)
    ensures IsBucket("dp:" + value) && IsBucket("tw:" + value) && IsBucket("ps:" + value) && IsBucket("fx:" + value)
    ensures !IsBucket("n_flows") && !IsBucket("pkt_count")
  {
    BucketRoundTrip(("di", value));
    BucketRoundTrip(("dp", value));
    BucketRoundTrip(("tw", value));
    BucketRoundTrip(("ps", value));
    BucketRoundTrip(("fx", value));
    assert DistField(("dp", value)) == "dp:" + value && DistField(("tw", value)) == "tw:" + value;
    assert DistField(("ps", value)) == "ps:" + value && DistField(("fx", value)) == "fx:" + value;
    assert DIST_SEP !in "n_flows" && DIST_SEP !in "pkt_count";
  }

  lemma PrefixHasNoSep(prefix: string)
    requires prefix in DIST_PREFIXES
    ensures DIST_SEP !in prefix
  {
    assert DIST_SEP !in "di" && DIST_SEP !in "dp" && DIST_SEP !in "tw" && DIST_SEP !in "ps" && DIST_SEP !in "fx";
  }

  /** A bucket's field reads back as that bucket, separators in its value included. */
  lemma BucketRoundTrip(b: Bucket)
    requires b.0 in DIST_PREFIXES
    ensures IsBucket(DistField(b)) && BucketOf(DistField(b)) == b
  {
    PrefixHasNoSep(b.0);
    PartitionJoined(b.0, DIST_SEP, b.1);
  }

  lemma BucketOfInjective(k: string, l: string)
    requires IsBucket(k) && IsBucket(l) && BucketOf(k) == BucketOf(l)
    ensures k == l
  {
    PartitionParts(k, DIST_SEP);
    PartitionParts(l, DIST_SEP);
  }

  /** Every field of the hash lands in exactly one place with its value, and nothing else does. */
  ghost predicate IsSplit(hash: map<string, real>, scalars: map<string, real>, dists: map<Bucket, real>) {
    && (forall k :: k in scalars <==> k in hash && !IsBucket(k))
    && (forall k | k in scalars :: scalars[k] == hash[k])
    && (forall b :: b in dists <==> exists k :: k in hash && IsBucket(k) && BucketOf(k) == b)
    && (forall k | k in hash && IsBucket(k) :: BucketOf(k) in dists && dists[BucketOf(k)] == hash[k])
  }

  lemma BucketGrows(hash: map<string, real>, scalars: map<string, real>, dists: map<Bucket, real>,
                    key: string, v: real)
    requires IsSplit(hash, scalars, dists) && key !in hash && IsBucket(key)
    ensures IsSplit(hash[key := v], scalars, dists[BucketOf(key) := v])
  {
    var after, dists' := hash[key := v], dists[BucketOf(key) := v];
    forall k | k in hash && IsBucket(k)
      ensures BucketOf(k) != BucketOf(key)
    {
      if BucketOf(k) == BucketOf(key) {
        BucketOfInjective(k, key);
        assert false;
      }
    }
    forall b
      ensures b in dists' <==> exists k :: k in after && IsBucket(k) && BucketOf(k) == b
    {
      if b == BucketOf(key) {
        assert key in after;
      } else if b in dists {
        var k :| k in hash && IsBucket(k) && BucketOf(k) == b;
        assert k in after;
      }
    }
  }

  lemma ScalarGrows(hash: map<string, real>, scalars: map<string, real>, dists: map<Bucket, real>,
                    key: string, v: real)
    requires IsSplit(hash, scalars, dists) && key !in hash && !IsBucket(key)
    ensures IsSplit(hash[key := v], scalars[key := v], dists)
  {
    var after := hash[key := v];
    forall b
      ensures b in dists <==> exists k :: k in after && IsBucket(k) && BucketOf(k) == b
    {
      if b in dists {
        var k :| k in hash && IsBucket(k) && BucketOf(k) == b;
        assert k in after;
      }
    }
  }

  /** Rebuild an accumulator from its hash, fields in any order. */
  method FromHash(hash: map<string, real>) returns (scalars: map<string, real>, dists: map<Bucket, real>)
    ensures IsSplit(hash, scalars, dists)
  {
    scalars, dists := map[], map[];
    var todo := hash.Keys;
    while todo != {}
      invariant todo <= hash.Keys
      invariant IsSplit(hash - todo, scalars, dists)
      decreases |todo|
    {
      var key :| key in todo;
      assert hash - (todo - {key}) == (hash - todo)[key := hash[key]];
      if IsBucket(key) {
        BucketGrows(hash - todo, scalars, dists, key, hash[key]);
        dists := dists[BucketOf(key) := hash[key]];
      } else {
        ScalarGrows(hash - todo, scalars, dists, key, hash[key]);
        scalars := scalars[key := hash[key]];
      }
      todo := todo - {key};
    }
    assert hash - {} == hash;
  }

  /** Nothing is lost: the accumulator determines the hash it came from. */
  lemma SplitIsInvertible(h1: map<string, real>, h2: map<string, real>, scalars: map<string, real>,
                          dists: map<Bucket, real>)
    requires IsSplit(h1, scalars, dists) && IsSplit(h2, scalars, dists)
    ensures h1 == h2
  {
    SplitDetermines(h1, h2, scalars, dists);
    SplitDetermines(h2, h1, scalars, dists);
  }

  lemma SplitDetermines(h1: map<string, real>, h2: map<string, real>, scalars: map<string, real>,
                        dists: map<Bucket, real>)
    requires IsSplit(h1, scalars, dists) && IsSplit(h2, scalars, dists)
    ensures forall k | k in h1 :: k in h2 && h2[k] == h1[k]
  {
    forall k | k in h1
      ensures k in h2 && h2[k] == h1[k]
    {
      if IsBucket(k) {
        assert BucketOf(k) in dists;
        var l :| l in h2 && IsBucket(l) && BucketOf(l) == BucketOf(k);
        BucketOfInjective(k, l);
      } else {
        assert k in scalars;
      }
    }
  }
}
