/** The bulk purge plan: every request names consecutive bucket keys, wrapping round the buckets, and expects to purge
    the objects of the buckets that no earlier key of the plan has named.
*/
module BulkPurge {
  import opened Division

  /** The configuration fields the plan reads. */
  datatype Config = Config(objects: nat, buckets: nat, requests: nat, keysPerRequest: nat)

  // ----- which objects a bucket key reaches -----

  datatype Tag = Site | Tenant | Bucket(n: nat) | Segment | Extra(n: nat)

  /** The tag in place `k`. */
  function TagAt(c: Config, obj: nat, k: nat): Tag
    requires c.buckets > 0
  {
    if k == 0 then Site else if k == 1 then Tenant else if k == 2 then Bucket(obj % c.buckets)
    else if k == 3 then Segment else Extra(k + 1)
  }

  /** The tags of one object in the driver's default profile, at most `limit` of them. */
  method TagsFor(c: Config, limit: nat, obj: nat) returns (tags: seq<Tag>)
    requires c.buckets > 0
    ensures |tags| == limit && forall k :: 0 <= k < limit ==> tags[k] == TagAt(c, obj, k)
    ensures forall b :: Bucket(b) in tags <==> limit >= 3 && b == obj % c.buckets
  {
    tags := [];
    if |tags| < limit { tags := tags + [Site]; }
    if |tags| < limit { tags := tags + [Tenant]; }
    if |tags| < limit { tags := tags + [Bucket(obj % c.buckets)]; }
    if |tags| < limit { tags := tags + [Segment]; }
    assert limit >= 3 ==> tags[2] == Bucket(obj % c.buckets);
    var n := 5;
    while |tags| < limit
      invariant |tags| <= limit && (|tags| < limit ==> n == |tags| + 1)
      invariant forall k :: 0 <= k < |tags| ==> tags[k] == TagAt(c, obj, k)
      invariant forall b :: Bucket(b) in tags <==> limit >= 3 && b == obj % c.buckets
    {
      tags := tags + [Extra(n)];
      n := n + 1;
    }
  }

  /** The closed form of `expectedCount` for a bucket key. */
  function ExpectedCount(c: Config, bucket: nat): int
    requires bucket < c.buckets
  {
    if c.objects <= bucket then 0 else (c.objects - 1 - bucket) / c.buckets + 1
  }

  ghost function InBucket(c: Config, bucket: nat): set<nat>
    requires c.buckets > 0
  {
    set obj: nat | obj < c.objects && obj % c.buckets == bucket
  }

  /** The objects whose bucket is below `m`. */
  ghost function InFirst(c: Config, m: nat): set<nat>
    requires c.buckets > 0
  {
    set obj: nat | obj < c.objects && obj % c.buckets < m
  }

  lemma ExpectedCountIsExact(c: Config, bucket: nat)
    requires bucket < c.buckets
    ensures ExpectedCount(c, bucket) == |InBucket(c, bucket)|
  {
    if c.objects <= bucket {
      forall obj: nat | obj < c.objects
        ensures obj % c.buckets != bucket
      {
        QuotientIs(obj, c.buckets, 0, obj);
      }
      assert InBucket(c, bucket) == {};
    } else {
      QuotientAtLeast(c.objects - 1 - bucket, c.buckets, 0);
      BucketSize(c, bucket, ExpectedCount(c, bucket));
    }
  }

  lemma BucketSize(c: Config, bucket: nat, count: nat)
    requires bucket < c.buckets && bucket < c.objects && count == ExpectedCount(c, bucket)
    ensures |InBucket(c, bucket)| == count
  {
    var f := (t: nat) => Member(c.buckets, bucket, t);
    forall i: nat, j: nat | i < j < count
      ensures f(i) < f(j)
    {
      MulOrder(i + 1, j, c.buckets);
      assert (i + 1) * c.buckets == i * c.buckets + c.buckets;
    }
    ImageSize(f, count);
    forall obj: nat
      ensures obj in Image(f, count) ==> obj in InBucket(c, bucket)
      ensures obj in InBucket(c, bucket) ==> obj in Image(f, count)
    {
      BucketMember(c, bucket, obj);
      if obj in Image(f, count) {
        var t: nat :| t < count && f(t) == obj;
        assert Member(c.buckets, bucket, t) == obj;
      }
      if obj in InBucket(c, bucket) {
        var t: nat :| t < count && Member(c.buckets, bucket, t) == obj;
        assert f(t) == obj;
      }
    }
    assert Image(f, count) == InBucket(c, bucket);
  }

  /** The objects of a bucket, in order. */
  function Member(buckets: nat, bucket: nat, t: nat): nat { bucket + t * buckets }

  lemma BucketMember(c: Config, bucket: nat, obj: nat)
    requires bucket < c.buckets && bucket < c.objects
    ensures obj in InBucket(c, bucket) <==>
            exists t: nat :: t < ExpectedCount(c, bucket) && Member(c.buckets, bucket, t) == obj
  {
    if obj in InBucket(c, bucket) {
      var t := obj / c.buckets;
      assert Member(c.buckets, bucket, t) == obj;
      QuotientAtLeast(c.objects - 1 - bucket, c.buckets, t);
    }
    if t: nat :| t < ExpectedCount(c, bucket) && Member(c.buckets, bucket, t) == obj {
      QuotientAtLeast(c.objects - 1 - bucket, c.buckets, t);
      QuotientIs(obj, c.buckets, t, bucket);
    }
  }

  lemma FirstGrows(c: Config, m: nat)
    requires m < c.buckets
    ensures |InFirst(c, m + 1)| == |InFirst(c, m)| + ExpectedCount(c, m)
  {
    ExpectedCountIsExact(c, m);
    assert InFirst(c, m + 1) == InFirst(c, m) + InBucket(c, m);
    assert InFirst(c, m) !! InBucket(c, m);
  }

  // ----- the plan -----

  /** The bucket named by the `i`th key of the plan. */
  function KeyOf(c: Config, i: nat): nat
    requires c.buckets > 0
  {
    i % c.buckets
  }

  datatype Request = Request(keys: seq<nat>, expected: int)

  ghost function TotalExpected(requests: seq<Request>): int
  {
    if requests == [] then 0
    else TotalExpected(requests[..|requests| - 1]) + requests[|requests| - 1].expected
  }

  lemma TotalSnoc(requests: seq<Request>, r: Request)
    ensures TotalExpected(requests + [r]) == TotalExpected(requests) + r.expected
  {
    assert (requests + [r])[..|requests|] == requests;
  }

  function Min(a: nat, b: nat): nat { if a < b then a else b }

  /** How many objects the first `i` keys of the plan reach. */
  ghost function Named(c: Config, i: nat): nat
    requires c.buckets > 0
  {
    |InFirst(c, Min(i, c.buckets))|
  }

  /** What the plan has recorded after its first `i` keys. */
  ghost predicate Planned(c: Config, i: nat, seen: set<nat>, unique: seq<nat>, expected: int)
    requires c.buckets > 0
  {
    && seen == Below(Min(i, c.buckets))
    && |unique| == Min(i, c.buckets)
    && (forall k :: 0 <= k < |unique| ==> unique[k] == k)
    && expected == Named(c, i)
  }

  /** The `i`th key of the plan is new exactly while `i` is below the bucket count, and then it is bucket `i`. */
  lemma NextKey(c: Config, i: nat, seen: set<nat>, unique: seq<nat>, expected: int)
    requires c.buckets > 0 && Planned(c, i, seen, unique, expected)
    ensures KeyOf(c, i) in seen <==> i >= c.buckets
    ensures i >= c.buckets ==> Planned(c, i + 1, seen, unique, expected)
    ensures i < c.buckets ==>
              Planned(c, i + 1, seen + {KeyOf(c, i)}, unique + [KeyOf(c, i)],
                      expected + ExpectedCount(c, KeyOf(c, i)))
  {
    if i < c.buckets {
      QuotientIs(i, c.buckets, 0, i);
      FirstGrows(c, i);
      assert seen + {i} == Below(i + 1);
    }
  }

  /** The keys of a request that starts at the `from`th key of the plan. */
  ghost predicate AreKeysFrom(c: Config, from: nat, keys: seq<nat>)
    requires c.buckets > 0
  {
    |keys| == c.keysPerRequest && forall n: nat :: n < |keys| ==> keys[n] == KeyOf(c, from + n)
  }

  /** Request `r` names the keys that follow those of the requests before it. */
  ghost predicate IsRequest(c: Config, r: nat, request: Request)
    requires c.buckets > 0
  {
    AreKeysFrom(c, r * c.keysPerRequest, request.keys)
  }

  /** It expects to purge the objects in the buckets it is the first to name, and no others. */
  ghost predicate ExpectsItsOwn(c: Config, r: nat, request: Request)
    requires c.buckets > 0
  {
    request.expected == Named(c, r * c.keysPerRequest + c.keysPerRequest) - Named(c, r * c.keysPerRequest)
  }

  /** Every request names its keys and expects its own objects. */
  ghost predicate AreRequests(c: Config, requests: seq<Request>)
    requires c.buckets > 0
  {
    forall r: nat :: r < |requests| ==> IsRequest(c, r, requests[r]) && ExpectsItsOwn(c, r, requests[r])
  }

  lemma OneMoreRequest(c: Config, requests: seq<Request>, request: Request, from: nat)
    requires c.buckets > 0 && AreRequests(c, requests) && from == |requests| * c.keysPerRequest
    requires AreKeysFrom(c, from, request.keys)
    requires request.expected == Named(c, from + c.keysPerRequest) - Named(c, from)
    ensures AreRequests(c, requests + [request])
  {
  }

  lemma AllNamed(c: Config, m: nat)
    requires c.buckets > 0
    ensures m >= c.buckets ==> |InFirst(c, m)| == c.objects
    ensures m == 0 ==> InFirst(c, m) == {}
  {
    if m >= c.buckets { assert InFirst(c, m) == Below(c.objects); }
  }

  /** `prepareBulkPurgeRequests`, with bucket numbers for keys. */
  method Prepare(c: Config) returns (requests: seq<Request>, unique: seq<nat>, totalExpected: int, totalKeys: nat)
    requires c.buckets > 0
    ensures |requests| == c.requests && totalKeys == c.requests * c.keysPerRequest
    ensures AreRequests(c, requests)
    ensures |unique| == Min(totalKeys, c.buckets) && forall k :: 0 <= k < |unique| ==> unique[k] == k
    ensures totalExpected == TotalExpected(requests) == |InFirst(c, |unique|)|
    ensures totalKeys >= c.buckets ==> totalExpected == c.objects
  {
    var seen := {};
    requests, unique, totalExpected, totalKeys := [], [], 0, 0;
    AllNamed(c, 0);
    for request := 0 to c.requests
      invariant |requests| == request && totalKeys == request * c.keysPerRequest
      invariant Planned(c, totalKeys, seen, unique, totalExpected)
      invariant totalExpected == TotalExpected(requests)
      invariant AreRequests(c, requests)
    {
      var keys, expected;
      keys, expected, seen, unique := PrepareOne(c, request * c.keysPerRequest, totalExpected, seen, unique);
      OneMoreRequest(c, requests, Request(keys, expected), totalKeys);
      TotalSnoc(requests, Request(keys, expected));
      requests := requests + [Request(keys, expected)];
      totalExpected := totalExpected + expected;
      totalKeys := totalKeys + |keys|;
      assert (request + 1) * c.keysPerRequest == request * c.keysPerRequest + c.keysPerRequest;
    }
    AllNamed(c, |unique|);
  }

  method PrepareOne(c: Config, from: nat, ghost before: int, seen0: set<nat>, unique0: seq<nat>)
    returns (keys: seq<nat>, expected: int, seen: set<nat>, unique: seq<nat>)
    requires c.buckets > 0 && Planned(c, from, seen0, unique0, before)
    ensures AreKeysFrom(c, from, keys)
    ensures Planned(c, from + |keys|, seen, unique, before + expected)
  {
    keys, expected, seen, unique := [], 0, seen0, unique0;
    for n := 0 to c.keysPerRequest
      invariant |keys| == n
      invariant forall k: nat :: k < n ==> keys[k] == KeyOf(c, from + k)
      invariant Planned(c, from + n, seen, unique, before + expected)
    {
      var key := KeyOf(c, from + n);
      keys := keys + [key];
      expected, seen, unique := NameKey(c, from + n, key, before, expected, seen, unique);
    }
  }

  /** One key of the plan: it adds to the expectation only when no earlier key was the same. */
  method NameKey(c: Config, ghost i: nat, key: nat, ghost before: int, expected0: int, seen0: set<nat>, unique0: seq<nat>)
    returns (expected: int, seen: set<nat>, unique: seq<nat>)
    requires c.buckets > 0 && key == KeyOf(c, i) && Planned(c, i, seen0, unique0, before + expected0)
    ensures Planned(c, i + 1, seen, unique, before + expected)
  {
    NextKey(c, i, seen0, unique0, before + expected0);
    expected, seen, unique := expected0, seen0, unique0;
    if key !in seen {
      expected := expected + ExpectedCount(c, key);
      seen := seen + {key};
      unique := unique + [key];
    }
  }
}
