/** The registry of token buckets per endpoint and client, behind the lockout check. */
module RateLimiting {
  import TB = TokenBucket
  import L = Lockout

  const AUTH_MUTATION_ENDPOINTS := {"/api/v1/auth/start", "/api/v1/auth/finish"}
  const AUTH_FRAME_ENDPOINTS := {"/api/v1/auth/frame"}

  datatype Figures = Figures(burst: real, rate: real)

  /** Who a bucket is made for. */
  datatype Pair = Pair(endpoint: string, client: string)

  /** Burst size and sustained rate of an endpoint. */
  function Allowance(endpoint: string): (allowance: Figures)
    ensures allowance.burst > 0.0 && allowance.rate > 0.0
  {
    if endpoint in AUTH_FRAME_ENDPOINTS then Figures(20.0, 12.0)
    else if endpoint in AUTH_MUTATION_ENDPOINTS then Figures(10.0, 2.0)
    else Figures(30.0, 10.0)
  }

  /** In figures: a frame endpoint takes bursts of 20 and 12 requests a second, start and finish 10 and 2, and
      any other 30 and 10. */
  lemma AllowanceInFigures(endpoint: string)
    ensures endpoint == "/api/v1/auth/frame" ==> Allowance(endpoint) == Figures(20.0, 12.0)
    ensures endpoint in {"/api/v1/auth/start", "/api/v1/auth/finish"} ==> Allowance(endpoint) == Figures(10.0, 2.0)
    ensures endpoint !in {"/api/v1/auth/frame", "/api/v1/auth/start", "/api/v1/auth/finish"} ==>
              Allowance(endpoint) == Figures(30.0, 10.0)
  {
    assert endpoint in AUTH_FRAME_ENDPOINTS <==> endpoint == "/api/v1/auth/frame";
    assert endpoint in AUTH_MUTATION_ENDPOINTS <==>
             endpoint == "/api/v1/auth/start" || endpoint == "/api/v1/auth/finish";
  }

  predicate Plain(endpoint: string) { ':' !in endpoint }

  function BucketKey(endpoint: string, client: string): string {
    endpoint + ":" + client
  }

  /** The second endpoint is the first with a colon and part of the first client after it, and the second
      client is the rest. */
  predicate Overlaps(endpoint: string, client: string, endpoint': string, client': string) {
    && |endpoint| < |endpoint'| && endpoint'[..|endpoint|] == endpoint && endpoint'[|endpoint|] == ':'
    && client == endpoint'[|endpoint| + 1..] + ":" + client'
  }

  lemma OverlapsIff(endpoint: string, client: string, endpoint': string, client': string)
    requires |endpoint| < |endpoint'|
    ensures BucketKey(endpoint, client) == BucketKey(endpoint', client') <==>
              Overlaps(endpoint, client, endpoint', client')
  {
    var key, key' := BucketKey(endpoint, client), BucketKey(endpoint', client');
    var n := |endpoint|;
    assert key[..n] == endpoint && key[n] == ':' && key[n + 1..] == client;
    assert key' == endpoint'[..n] + endpoint'[n..] + ":" + client';
    assert key'[..n] == endpoint'[..n] && key'[n] == endpoint'[n];
    assert key'[n + 1..] == endpoint'[n + 1..] + ":" + client';
    if Overlaps(endpoint, client, endpoint', client') {
      assert key == key[..n] + [key[n]] + key[n + 1..] && key' == key'[..n] + [key'[n]] + key'[n + 1..];
    }
  }

  /** Two pairs that are different and do not overlap at a colon in one of the endpoints. */
  predicate Apart(endpoint: string, client: string, endpoint': string, client': string) {
    && (endpoint != endpoint' || client != client')
    && !Overlaps(endpoint, client, endpoint', client')
    && !Overlaps(endpoint', client', endpoint, client)
  }

  /** Two pairs of endpoint and client have buckets of their own exactly if they are apart. */
  lemma OwnBucketIff(endpoint: string, client: string, endpoint': string, client': string)
    ensures BucketKey(endpoint, client) != BucketKey(endpoint', client') <==>
              Apart(endpoint, client, endpoint', client')
  {
    if |endpoint| < |endpoint'| {
      OverlapsIff(endpoint, client, endpoint', client');
    } else if |endpoint'| < |endpoint| {
      OverlapsIff(endpoint', client', endpoint, client);
    } else {
      var key, key', n := BucketKey(endpoint, client), BucketKey(endpoint', client'), |endpoint|;
      assert key[..n] == endpoint && key[n + 1..] == client;
      assert key'[..n] == endpoint' && key'[n + 1..] == client';
    }
  }

  lemma OwnBuckets(endpoint: string, client: string)
    ensures forall e, k :: Apart(e, k, endpoint, client) ==> BucketKey(e, k) != BucketKey(endpoint, client)
  {
    hide Apart, BucketKey;
    forall e, k | Apart(e, k, endpoint, client)
      ensures BucketKey(e, k) != BucketKey(endpoint, client)
    {
      OwnBucketIff(e, k, endpoint, client);
    }
  }

  /** Where no endpoint has a colon, that means every two different pairs. */
  lemma PlainPairsAreApart(endpoint: string, client: string, endpoint': string, client': string)
    requires Plain(endpoint) && Plain(endpoint')
    ensures Apart(endpoint, client, endpoint', client') <==> endpoint != endpoint' || client != client'
    ensures BucketKey(endpoint, client) == BucketKey(endpoint', client') <==>
              endpoint == endpoint' && client == client'
  {
    OwnBucketIff(endpoint, client, endpoint', client');
    hide BucketKey;
  }

  /** With a colon in a path, two clients can share one. */
  lemma SharedBucket()
    ensures BucketKey("/a", "ip:b:c") == BucketKey("/a:ip:b", "c")
  {
  }

  /** Every bucket has the allowance of the endpoint that it was made for. */
  ghost predicate Tracked(buckets: map<string, TB.TokenBucket>, madeFor: map<string, Pair>) {
    && madeFor.Keys == buckets.Keys
    && forall key :: key in buckets ==>
         && key == BucketKey(madeFor[key].endpoint, madeFor[key].client)
         && Figures(buckets[key].capacity, buckets[key].rate) == Allowance(madeFor[key].endpoint)
  }

  lemma TracksMore(buckets: map<string, TB.TokenBucket>, madeFor: map<string, Pair>, bucket: TB.TokenBucket, p: Pair)
    requires Tracked(buckets, madeFor) && Figures(bucket.capacity, bucket.rate) == Allowance(p.endpoint)
    ensures var key := BucketKey(p.endpoint, p.client); Tracked(buckets[key := bucket], madeFor[key := p])
  {
    hide BucketKey, Allowance;
  }

  /** A bucket made for a plain endpoint, when all are, is that pair's own. */
  lemma TracksOwn(buckets: map<string, TB.TokenBucket>, madeFor: map<string, Pair>, p: Pair)
    requires Tracked(buckets, madeFor) && Plain(p.endpoint)
    requires forall key :: key in madeFor ==> Plain(madeFor[key].endpoint)
    ensures var key := BucketKey(p.endpoint, p.client);
            key in buckets ==> Figures(buckets[key].capacity, buckets[key].rate) == Allowance(p.endpoint)
  {
    var key := BucketKey(p.endpoint, p.client);
    if key in buckets {
      PlainPairsAreApart(p.endpoint, p.client, madeFor[key].endpoint, madeFor[key].client);
    }
    hide BucketKey, Allowance;
  }

  class RateLimiter {
    var buckets: map<string, TB.TokenBucket>
    const lockout: L.LockoutTracker
    /** The endpoint and client each bucket was made for. */
    ghost var madeFor: map<string, Pair>

    /** `now` reads the monotonic clock, which the buckets go by. */
    ghost predicate Valid(now: real)
      reads this, buckets.Values, lockout
    {
      && lockout.Valid() && Tracked(buckets, madeFor)
      && (forall key :: key in buckets ==>
            buckets[key].Valid() && buckets[key].lastRefill <= now && buckets[key].rate >= 0.0)
      && (forall key, other :: key in buckets && other in buckets && key != other ==> buckets[key] != buckets[other])
    }

    /** The calls a bucket has decided so far; a bucket not made yet has none. */
    ghost function Log(key: string): seq<TB.Call>
      reads this, buckets.Values
    {
      if key in buckets then buckets[key].calls else []
    }

    /** No endpoint asked for so far has a colon. */
    ghost predicate PlainPaths()
      reads this
    {
      forall key :: key in madeFor ==> Plain(madeFor[key].endpoint)
    }

    constructor (tracker: L.LockoutTracker)
      requires tracker.Valid()
      ensures buckets == map[] && lockout == tracker && forall now :: Valid(now)
    {
      buckets, lockout, madeFor := map[], tracker, map[];
    }

    method GetOrCreateBucket(key: string, endpoint: string, now: real, ghost client: string)
      returns (bucket: TB.TokenBucket)
      requires Valid(now) && key == BucketKey(endpoint, client)
      modifies this`buckets, this`madeFor
      ensures Valid(now) && key in buckets && buckets[key] == bucket
      ensures key in old(buckets) ==> buckets == old(buckets) && madeFor == old(madeFor)
      ensures key !in old(buckets) ==>
                && fresh(bucket) && bucket.created == now
                && buckets == old(buckets)[key := bucket] && madeFor == old(madeFor)[key := Pair(endpoint, client)]
      ensures bucket.calls == old(Log(key))
      ensures Plain(endpoint) && old(PlainPaths()) ==>
                PlainPaths() && Figures(bucket.capacity, bucket.rate) == Allowance(endpoint)
    {
      hide BucketKey, TB.TokenBucket.Valid, Allowance, Plain, Tracked;
      if Plain(endpoint) && PlainPaths() {
        TracksOwn(buckets, madeFor, Pair(endpoint, client));
      }
      if key !in buckets {
        var created := new TB.TokenBucket(Allowance(endpoint).burst, Allowance(endpoint).rate, now);
        TracksMore(buckets, madeFor, created, Pair(endpoint, client));
        buckets := buckets[key := created];
        madeFor := madeFor[key := Pair(endpoint, client)];
      }
      bucket := buckets[key];
    }

    /** Refuses a client locked by the wall clock without touching its bucket. Otherwise the request is
        allowed exactly when one more token keeps every window of its bucket, by the monotonic clock, within
        burst plus rate times length. As long as no endpoint has a colon, every pair of endpoint and client
        has a bucket to itself, with the burst and the rate of its endpoint. */
    method Check(endpoint: string, client: string, wall: real, now: real, written: bool) returns (allowed: bool)
      requires Valid(now) && wall >= 0.0
      modifies this, buckets.Values, lockout
      ensures Valid(now)
      ensures lockout.state == L.Looked(old(lockout.state), client, wall)
      ensures var key := BucketKey(endpoint, client);
              if L.Locked(old(lockout.state), client, wall) then !allowed && Log(key) == old(Log(key))
              else
                && key in buckets && Log(key) == old(Log(key)) + [TB.Call(now, 1.0, allowed)]
                && (allowed <==> TB.FitsEveryWindow(buckets[key].Settings(), old(Log(key)), now, 1.0))
                && buckets[key].created == if key in old(buckets) then old(buckets[key].created) else now
      ensures Plain(endpoint) && old(PlainPaths()) ==>
                && PlainPaths()
                && (!L.Locked(old(lockout.state), client, wall) ==>
                      var bucket := buckets[BucketKey(endpoint, client)];
                      Figures(bucket.capacity, bucket.rate) == Allowance(endpoint))
      ensures forall e, k :: Apart(e, k, endpoint, client) ==> Log(BucketKey(e, k)) == old(Log(BucketKey(e, k)))
    {
      hide Apart, L.Looked, L.Locked, TB.FitsEveryWindow, BucketKey, Allowance, Plain, Tracked, PlainPaths;
      hide TB.TokenBucket.Valid, L.LockoutTracker.Valid;
      OwnBuckets(endpoint, client);
      var locked, _ := lockout.IsLocked(client, wall, written);
      if locked {
        return false;
      }
      var key := BucketKey(endpoint, client);
      var bucket := GetOrCreateBucket(key, endpoint, now, client);
      allowed := bucket.Consume(now, 1.0);
    }
  }
}
