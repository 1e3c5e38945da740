/** The Redis-backed limiter object: which keys it reads and writes, and with what. */
module RateLimiters {
  import opened OrderedDict
  import opened Clock
  import FixedWindow
  import SlidingWindow
  import TokenBucket

  datatype Strategy = FixedWindowStrategy | SlidingWindowStrategy | TokenBucketStrategy | LeakyBucketStrategy

  class RateLimiter {
    const strategy: Strategy
    /** The Redis keys, by kind: a counter per key and window, a sorted set and a hash per key. */
    var counters: map<string, FixedWindow.Counters>
    var sortedSets: map<string, Expiring<SlidingWindow.Scores>>
    var buckets: map<string, Expiring<TokenBucket.Bucket>>

    constructor (strategy: Strategy)
      ensures this.strategy == strategy && counters == map[] && sortedSets == map[] && buckets == map[]
    {
      this.strategy := strategy;
      counters, sortedSets, buckets := map[], map[], map[];
    }

    function CountersOf(key: string): FixedWindow.Counters
      reads this
    {
      if key in counters then counters[key] else map[]
    }

    function SetOf(key: string): SlidingWindow.Slot
      reads this
    {
      if key in sortedSets then Some(sortedSets[key]) else None
    }

    function BucketOf(key: string): TokenBucket.Slot
      reads this
    {
      if key in buckets then Some(buckets[key]) else None
    }

    method CheckFixedWindow(key: string, limit: int, window: int, now: real) returns (verdict: Verdict)
      requires window > 0
      modifies this`counters
      ensures (CountersOf(key), verdict) == FixedWindow.Check(old(CountersOf(key)), limit, window, now)
      ensures counters - {key} == old(counters) - {key}
    {
      var index := FixedWindow.Index(now, window);
      var count := FixedWindow.Incremented(CountersOf(key), index, now);
      counters := counters[key := CountersOf(key)[index := Expiring(count, now + window as real)]];
      var allowed := count <= limit;
      verdict := Verdict(allowed, Max(0, limit - count), if allowed then 0 else window);
    }

    method CheckSlidingWindow(key: string, limit: int, window: int, now: real) returns (verdict: Verdict)
      requires window > 0
      modifies this`sortedSets
      ensures (SetOf(key), verdict) == SlidingWindow.CheckSlot(old(SetOf(key)), limit, window, now)
      ensures sortedSets - {key} == old(sortedSets) - {key}
    {
      var windowStart := now - window as real;
      var scores := SlidingWindow.Stored(SetOf(key), now);
      scores := SlidingWindow.RemoveUpTo(scores, windowStart);
      scores := scores + {now};
      var count := SlidingWindow.CountBetween(scores, windowStart, now);
      sortedSets := sortedSets[key := Expiring(scores, now + window as real)];
      var retryAfter := 0;
      if count > limit {
        var oldest := SlidingWindow.Oldest(scores);
        retryAfter := Truncate(oldest + window as real - now);
      }
      verdict := Verdict(count <= limit, Max(0, limit - count), retryAfter);
    }

    method CheckTokenBucket(key: string, capacity: int, refillRate: int, now: real) returns (verdict: Verdict)
      requires refillRate > 0
      modifies this`buckets
      ensures verdict == TokenBucket.Check(Live(old(BucketOf(key)), now), capacity, refillRate, now)
      ensures BucketOf(key) == TokenBucket.SpendSlot(old(BucketOf(key)), capacity, refillRate, now)
      ensures buckets - {key} == old(buckets) - {key}
    {
      var tokens, lastRefill := capacity as real, now;
      match Live(BucketOf(key), now) {
        case Some(bucket) => tokens, lastRefill := bucket.tokens, bucket.lastRefill;
        case None =>
      }
      var timePassed := now - lastRefill;
      TokenBucket.GainIsProduct(timePassed, refillRate);
      tokens := TokenBucket.Min(capacity as real, tokens + timePassed * refillRate as real);
      var allowed, retryAfter := true, 0;
      if tokens >= 1.0 {
        tokens := tokens - 1.0;
      } else {
        allowed := false;
        retryAfter := Truncate((1.0 - tokens) / refillRate as real);
      }
      buckets := buckets[key := Expiring(TokenBucket.Bucket(tokens, now), now + TokenBucket.TTL)];
      verdict := Verdict(allowed, Truncate(tokens), retryAfter);
    }

    /** The leaky bucket is served by the sliding window. */
    method CheckRateLimit(key: string, limit: int, window: int, now: real) returns (verdict: Verdict)
      requires window > 0
      modifies this
      ensures strategy.FixedWindowStrategy? ==>
        && (CountersOf(key), verdict) == FixedWindow.Check(old(CountersOf(key)), limit, window, now)
        && sortedSets == old(sortedSets) && buckets == old(buckets)
      ensures strategy.TokenBucketStrategy? ==>
        && verdict == TokenBucket.Check(Live(old(BucketOf(key)), now), limit, window, now)
        && BucketOf(key) == TokenBucket.SpendSlot(old(BucketOf(key)), limit, window, now)
        && counters == old(counters) && sortedSets == old(sortedSets)
      ensures strategy.SlidingWindowStrategy? || strategy.LeakyBucketStrategy? ==>
        && (SetOf(key), verdict) == SlidingWindow.CheckSlot(old(SetOf(key)), limit, window, now)
        && counters == old(counters) && buckets == old(buckets)
      ensures counters - {key} == old(counters) - {key} && sortedSets - {key} == old(sortedSets) - {key}
      ensures buckets - {key} == old(buckets) - {key}
    {
      match strategy
      case FixedWindowStrategy => verdict := CheckFixedWindow(key, limit, window, now);
      case SlidingWindowStrategy => verdict := CheckSlidingWindow(key, limit, window, now);
      case TokenBucketStrategy => verdict := CheckTokenBucket(key, limit, window, now);
      case LeakyBucketStrategy => verdict := CheckSlidingWindow(key, limit, window, now);
    }
  }
}
