/** The buckets of packages/payment-mw/ratelimit.go kept in place, one per key. */
module RateLimiter {
  import opened Prelude
  import opened TokenBucket

  function BucketOf(buckets: map<string, Bucket>, key: string): Option<Bucket> {
    if key in buckets then Some(buckets[key]) else None
  }

  datatype Verdict = Pass(remaining: int) | TooMany(retryAfter: int)

  class Limiter {
    var buckets: map<string, Bucket>

    constructor ()
      ensures buckets == map[]
    {
      buckets := map[];
    }

    /** `getBucket`. */
    method GetBucket(key: string, cap: int, now: real)
      modifies this
      ensures key in buckets
      ensures buckets[key] == (if key in old(buckets) then old(buckets)[key] else Bucket(cap as real, now))
      ensures buckets - {key} == old(buckets) - {key}
    {
      if key !in buckets { buckets := buckets[key := Bucket(cap as real, now)]; }
    }

    /** The body of the middleware, one request as one step. */
    method Handle(key: string, c: Limit, now: real) returns (verdict: Verdict)
      requires c.rate > 0.0
      modifies this
      ensures key in buckets
      ensures BucketOf(buckets, key) == Step(c, BucketOf(old(buckets), key), Request(now), true)
      ensures buckets - {key} == old(buckets) - {key}
      ensures buckets[key].last == now
      ensures buckets[key].tokens
              == Refilled(c, BucketOf(old(buckets), key), now) - if verdict.Pass? then 1.0 else 0.0
      ensures verdict.Pass? <==> Admits(c, BucketOf(old(buckets), key), Request(now))
      ensures verdict.TooMany? ==> verdict.retryAfter == RetryAfter(c, buckets[key].tokens) >= 1
      ensures verdict.Pass? ==> verdict.remaining == buckets[key].tokens.Floor >= 0
      ensures verdict.Pass? && c.cap >= 0 ==> 0 <= verdict.remaining < c.cap
    {
      GetBucket(key, c.cap, now);
      var b := buckets[key];
      var elapsed := now - b.last;
      var tokens := Min(c.cap as real, b.tokens + elapsed * c.rate);
      assert Level(c, b, now) == b.tokens + elapsed * c.rate;
      assert tokens == Refilled(c, BucketOf(old(buckets), key), now);
      if tokens < 1.0 {
        buckets := buckets[key := Bucket(tokens, now)];
        var retryAfter := ((1.0 - tokens) / c.rate).Floor;
        if retryAfter < 1 { retryAfter := 1; }
        return TooMany(retryAfter);
      }
      buckets := buckets[key := Bucket(tokens - 1.0, now)];
      return Pass((tokens - 1.0).Floor);
    }

    /** One pass of `gcLoop`: for every key it is one `Collect`. */
    method Collect(now: real)
      modifies this
      ensures forall key, c :: BucketOf(buckets, key) == Step(c, BucketOf(old(buckets), key), Event.Collect(now), true)
    {
      var cutoff := now - 600.0;
      var rest := buckets.Keys;
      ghost var all := buckets;
      while rest != {}
        invariant rest <= all.Keys && rest <= buckets.Keys && buckets.Keys <= all.Keys
        invariant forall key | key in buckets :: buckets[key] == all[key]
        invariant forall key | key in all && key !in rest :: key in buckets <==> !(all[key].last < cutoff)
        decreases |rest|
      {
        var key :| key in rest;
        rest := rest - {key};
        if buckets[key].last < cutoff { buckets := buckets - {key}; }
      }
    }
  }
}
