/** The token-bucket limiter: tokens and the last refill instant, under a key that expires. */
module TokenBucket {
  import opened OrderedDict
  import opened Clock

  const TTL := 3600.0

  datatype Bucket = Bucket(tokens: real, lastRefill: real)

  type Slot = Option<Expiring<Bucket>>

  function Min(a: real, b: real): real {
    if a < b then a else b
  }

  /** `elapsed * rate`, written as a sum: `GainIsProduct`. */
  function Gain(elapsed: real, rate: nat): real {
    if rate == 0 then 0.0 else Gain(elapsed, rate - 1) + elapsed
  }

  lemma OneMore(x: real, n: real)
    ensures x * (n + 1.0) == x * n + x
  {
  }

  lemma {:induction false} GainIsProduct(elapsed: real, rate: nat)
    ensures Gain(elapsed, rate) == elapsed * rate as real
    decreases rate
  {
    if rate > 0 {
      GainIsProduct(elapsed, rate - 1);
      OneMore(elapsed, (rate - 1) as real);
      assert rate as real == (rate - 1) as real + 1.0;
    }
  }

  lemma {:induction false} BoundAsProduct(x: real, capacity: real, elapsed: real, rate: nat)
    requires x <= capacity + Gain(elapsed, rate)
    ensures x <= capacity + elapsed * rate as real
  {
    GainIsProduct(elapsed, rate);
  }

  lemma {:induction false} GainAdds(a: real, b: real, rate: nat)
    ensures Gain(a, rate) + Gain(b, rate) == Gain(a + b, rate)
    decreases rate
  {
    if rate > 0 {
      GainAdds(a, b, rate - 1);
    }
  }

  lemma {:induction false} GainGrows(a: real, b: real, rate: nat)
    requires a <= b
    ensures Gain(a, rate) <= Gain(b, rate)
    ensures Gain(0.0, rate) == 0.0
    decreases rate
  {
    if rate > 0 {
      GainGrows(a, b, rate - 1);
    }
  }

  /** The tokens available at `now`; a missing bucket is full. */
  function Refilled(found: Option<Bucket>, capacity: int, rate: nat, now: real): real {
    match found
    case Some(b) => Min(capacity as real, b.tokens + Gain(now - b.lastRefill, rate))
    case None => Min(capacity as real, capacity as real + Gain(now - now, rate))
  }

  /** A request takes a token if there is a whole one. */
  function Spend(found: Option<Bucket>, capacity: int, rate: nat, now: real): (Bucket, bool) {
    var tokens := Refilled(found, capacity, rate, now);
    if tokens >= 1.0 then (Bucket(tokens - 1.0, now), true) else (Bucket(tokens, now), false)
  }

  /** One check on the stored key, which is given an hour to live. */
  function SpendSlot(slot: Slot, capacity: int, rate: nat, now: real): Slot {
    Some(Expiring(Spend(Live(slot, now), capacity, rate, now).0, now + TTL))
  }

  /** The answer, given the bucket that was found. */
  function Check(found: Option<Bucket>, capacity: int, rate: nat, now: real): Verdict
    requires rate > 0
  {
    var (bucket, allowed) := Spend(found, capacity, rate, now);
    Verdict(allowed, Truncate(bucket.tokens), if allowed then 0 else Truncate((1.0 - bucket.tokens) / rate as real))
  }

  /** The key after a run of requests. */
  function SlotAfter(times: seq<real>, capacity: int, rate: nat): Slot
    decreases |times|
  {
    if times == [] then None
    else SpendSlot(SlotAfter(times[..|times| - 1], capacity, rate), capacity, rate, times[|times| - 1])
  }

  /** The bucket after a run, under a key that never expires. */
  function BucketAfter(times: seq<real>, capacity: int, rate: nat): Option<Bucket>
    decreases |times|
  {
    if times == [] then None
    else Some(Spend(BucketAfter(times[..|times| - 1], capacity, rate), capacity, rate, times[|times| - 1]).0)
  }

  /** What request `k` of a run finds, with and without expiry. */
  function Found(times: seq<real>, capacity: int, rate: nat, k: nat): Option<Bucket>
    requires k < |times|
  {
    Live(SlotAfter(times[..k], capacity, rate), times[k])
  }

  function PlainFound(times: seq<real>, capacity: int, rate: nat, k: nat): Option<Bucket>
    requires k < |times|
  {
    BucketAfter(times[..k], capacity, rate)
  }

  /** Whether request `k` of a run is allowed, with and without expiry. */
  predicate Allowed(times: seq<real>, capacity: int, rate: nat, k: nat)
    requires k < |times|
  {
    Spend(Found(times, capacity, rate, k), capacity, rate, times[k]).1
  }

  predicate PlainAllowed(times: seq<real>, capacity: int, rate: nat, k: nat)
    requires k < |times|
  {
    Spend(PlainFound(times, capacity, rate, k), capacity, rate, times[k]).1
  }

  /** How many of the requests with index in `[i, j)` are allowed. */
  function AllowedCount(times: seq<real>, capacity: int, rate: nat, i: nat, j: nat): nat
    requires i <= j <= |times|
    decreases j
  {
    if i == j then 0
    else AllowedCount(times, capacity, rate, i, j - 1) + if Allowed(times, capacity, rate, j - 1) then 1 else 0
  }

  function PlainCount(times: seq<real>, capacity: int, rate: nat, i: nat, j: nat): nat
    requires i <= j <= |times|
    decreases j
  {
    if i == j then 0
    else PlainCount(times, capacity, rate, i, j - 1) + if PlainAllowed(times, capacity, rate, j - 1) then 1 else 0
  }

  ghost predicate Filled(found: Option<Bucket>, capacity: int, now: real) {
    found.Some? ==> 0.0 <= found.value.tokens <= capacity as real && found.value.lastRefill <= now
  }

  /** Tokens stay between 0 and the capacity, and a refill gains at most `rate` a second. */
  lemma {:induction false} SpendKeepsFilled(found: Option<Bucket>, capacity: int, rate: nat, now: real)
    requires capacity >= 0 && Filled(found, capacity, now)
    ensures var (bucket, allowed) := Spend(found, capacity, rate, now);
            && Filled(Some(bucket), capacity, now) && bucket.lastRefill == now
            && bucket.tokens == Refilled(found, capacity, rate, now) - (if allowed then 1.0 else 0.0)
            && 0.0 <= Refilled(found, capacity, rate, now) <= capacity as real
            && (found.Some? ==>
                  Refilled(found, capacity, rate, now)
                  <= found.value.tokens + Gain(now - found.value.lastRefill, rate))
  {
    GainGrows(0.0, if found.Some? then now - found.value.lastRefill else 0.0, rate);
  }

  lemma {:induction false} BucketsFilled(times: seq<real>, capacity: int, rate: nat, now: real)
    requires capacity >= 0 && Chronological(times + [now])
    ensures Filled(BucketAfter(times, capacity, rate), capacity, now)
    ensures times != [] ==> BucketAfter(times, capacity, rate).value.lastRefill == times[|times| - 1]
    decreases |times|
  {
    LastInstants(times, now);
    if times != [] {
      var before, last := times[..|times| - 1], times[|times| - 1];
      assert before + [last] == times;
      BucketsFilled(before, capacity, rate, last);
      SpendKeepsFilled(BucketAfter(before, capacity, rate), capacity, rate, last);
    }
  }

  // ----- How many requests an interval admits -----

  /** One check of a run in terms of the bucket it leaves. */
  lemma {:induction false} RunStep(times: seq<real>, capacity: int, rate: nat, k: nat)
    requires capacity >= 0 && Chronological(times) && k < |times|
    ensures BucketAfter(times[..k + 1], capacity, rate).Some?
    ensures var tokens := BucketAfter(times[..k + 1], capacity, rate).value.tokens;
            var spent := if PlainAllowed(times, capacity, rate, k) then 1.0 else 0.0;
            && 0.0 <= tokens && tokens + spent <= capacity as real
            && (k > 0 ==>
                  && BucketAfter(times[..k], capacity, rate).Some?
                  && tokens + spent
                     <= BucketAfter(times[..k], capacity, rate).value.tokens + Gain(times[k] - times[k - 1], rate))
  {
    var before, now := times[..k], times[k];
    assert times[..k + 1] == before + [now];
    assert times[..k + 1][..k] == before;
    ChronologicalPrefix(times, k + 1);
    BucketsFilled(before, capacity, rate, now);
    SpendKeepsFilled(BucketAfter(before, capacity, rate), capacity, rate, now);
  }

  lemma {:induction false} PlainBudgetAsGain(times: seq<real>, capacity: int, rate: nat, i: nat, j: nat)
    requires capacity >= 0 && Chronological(times) && i < j <= |times|
    ensures BucketAfter(times[..j], capacity, rate).Some?
    ensures BucketAfter(times[..j], capacity, rate).value.tokens >= 0.0
    ensures BucketAfter(times[..j], capacity, rate).value.tokens + PlainCount(times, capacity, rate, i, j) as real
         <= capacity as real + Gain(times[j - 1] - times[i], rate)
    decreases j
  {
    RunStep(times, capacity, rate, j - 1);
    if i < j - 1 {
      PlainBudgetAsGain(times, capacity, rate, i, j - 1);
      GainAdds(times[j - 2] - times[i], times[j - 1] - times[j - 2], rate);
    } else {
      GainGrows(0.0, 0.0, rate);
    }
  }

  /** Allowed requests and left-over tokens are paid for by the capacity and the refills. */
  lemma PlainBudget(times: seq<real>, capacity: int, rate: nat, i: nat, j: nat) returns (elapsed: real, tokens: real)
    requires capacity >= 0 && Chronological(times) && i < j <= |times|
    ensures elapsed == times[j - 1] - times[i]
    ensures BucketAfter(times[..j], capacity, rate) == Some(Bucket(tokens, times[j - 1]))
    ensures 0.0 <= tokens
    ensures tokens + PlainCount(times, capacity, rate, i, j) as real <= capacity as real + elapsed * rate as real
  {
    PlainBudgetAsGain(times, capacity, rate, i, j);
    LastRefill(times, capacity, rate, j);
    elapsed, tokens := times[j - 1] - times[i], BucketAfter(times[..j], capacity, rate).value.tokens;
    BoundAsProduct(tokens + PlainCount(times, capacity, rate, i, j) as real, capacity as real, elapsed, rate);
  }

  lemma {:induction false} LastRefill(times: seq<real>, capacity: int, rate: nat, j: nat)
    requires 0 < j <= |times|
    ensures BucketAfter(times[..j], capacity, rate).Some?
    ensures BucketAfter(times[..j], capacity, rate).value.lastRefill == times[j - 1]
  {
  }

  // ----- The expiry of the key -----

  /** The stored bucket after a run: its key lives for an hour after the last request. */
  lemma {:induction false} SlotsFilled(times: seq<real>, capacity: int, rate: nat, now: real)
    requires capacity >= 0 && times != [] && Chronological(times + [now])
    ensures var slot := SlotAfter(times, capacity, rate);
            && slot.Some? && Filled(Some(slot.value.value), capacity, now)
            && slot.value.value.lastRefill == times[|times| - 1]
            && slot.value.expiresAt == times[|times| - 1] + TTL
    decreases |times|
  {
    LastInstants(times, now);
    var before, last := times[..|times| - 1], times[|times| - 1];
    assert before + [last] == times;
    if before != [] {
      SlotsFilled(before, capacity, rate, last);
    }
    SpendKeepsFilled(Live(SlotAfter(before, capacity, rate), last), capacity, rate, last);
  }

  /** An hour of refills fills the bucket if the capacity is at most `3600 * rate`. */
  lemma HourFills(b: Bucket, capacity: int, rate: nat, now: real)
    requires 0 <= capacity <= 3600 * rate && 0.0 <= b.tokens && b.lastRefill + TTL <= now
    ensures Refilled(Some(b), capacity, rate, now) == Refilled(None, capacity, rate, now)
  {
    GainIsProduct(TTL, rate);
    GainGrows(TTL, now - b.lastRefill, rate);
    GainGrows(0.0, 0.0, rate);
  }

  lemma {:induction false} SlotIsBucket(times: seq<real>, capacity: int, rate: nat, now: real)
    requires 0 <= capacity <= 3600 * rate && Chronological(times + [now])
    ensures Spend(Live(SlotAfter(times, capacity, rate), now), capacity, rate, now)
         == Spend(BucketAfter(times, capacity, rate), capacity, rate, now)
    decreases |times|
  {
    LastInstants(times, now);
    if times != [] {
      var before, last := times[..|times| - 1], times[|times| - 1];
      assert before + [last] == times;
      SlotIsBucket(before, capacity, rate, last);
      SlotsFilled(times, capacity, rate, now);
      var slot := SlotAfter(times, capacity, rate).value;
      assert BucketAfter(times, capacity, rate) == Some(slot.value);
      if last + TTL <= now {
        HourFills(slot.value, capacity, rate, now);
      }
    }
  }

  /** No run ever shows that the key expires. */
  ghost predicate ExpiryInvisible(capacity: int, rate: nat)
    requires rate > 0
  {
    forall times: seq<real>, k: nat | Chronological(times) && k < |times| ::
      Check(Found(times, capacity, rate, k), capacity, rate, times[k])
      == Check(PlainFound(times, capacity, rate, k), capacity, rate, times[k])
  }

  /** As many requests as the capacity and the refills of `elapsed` seconds pay for. */
  predicate WithinBudget(requests: nat, capacity: int, rate: nat, elapsed: real) {
    requests as real <= capacity as real + elapsed * rate as real
  }

  /** In no interval are more requests allowed than the capacity and its refills. */
  ghost predicate IntervalBound(capacity: int, rate: nat) {
    forall times: seq<real>, i: nat, j: nat | Chronological(times) && i < j <= |times| ::
      WithinBudget(AllowedCount(times, capacity, rate, i, j), capacity, rate, times[j - 1] - times[i])
  }

  lemma {:induction false} SameAnswersSameCount(times: seq<real>, capacity: int, rate: nat, i: nat, j: nat)
    requires i <= j <= |times|
    requires forall k :: i <= k < j ==> Allowed(times, capacity, rate, k) == PlainAllowed(times, capacity, rate, k)
    ensures AllowedCount(times, capacity, rate, i, j) == PlainCount(times, capacity, rate, i, j)
    decreases j
  {
    if i < j {
      SameAnswersSameCount(times, capacity, rate, i, j - 1);
    }
  }

  lemma {:induction false} PlainBound(times: seq<real>, capacity: int, rate: nat, i: nat, j: nat)
    requires capacity >= 0 && Chronological(times) && i < j <= |times|
    ensures WithinBudget(PlainCount(times, capacity, rate, i, j), capacity, rate, times[j - 1] - times[i])
  {
    PlainBudgetAsGain(times, capacity, rate, i, j);
    GainBudget(PlainCount(times, capacity, rate, i, j), BucketAfter(times[..j], capacity, rate).value.tokens,
               capacity, rate, times[j - 1] - times[i]);
  }

  lemma {:induction false} GainBudget(requests: nat, tokens: real, capacity: int, rate: nat, elapsed: real)
    requires 0.0 <= tokens && tokens + requests as real <= capacity as real + Gain(elapsed, rate)
    ensures WithinBudget(requests, capacity, rate, elapsed)
  {
    GainIsProduct(elapsed, rate);
  }

  /** `n` requests at the instant `t`. */
  function Burst(n: nat, t: real): seq<real> {
    seq(n, _ => t)
  }

  /** A burst that finds no bucket takes one token per request from a full one. */
  lemma {:induction false} BurstDrains(times: seq<real>, capacity: int, rate: nat, n: nat, t: real)
    requires n < capacity && Live(SlotAfter(times, capacity, rate), t) == None
    ensures Refilled(Live(SlotAfter(times + Burst(n, t), capacity, rate), t), capacity, rate, t)
        == (capacity - n) as real
    decreases n
  {
    GainGrows(0.0, 0.0, rate);
    if n == 0 {
      assert times + Burst(0, t) == times;
    } else {
      BurstDrains(times, capacity, rate, n - 1, t);
      assert times + Burst(n, t) == (times + Burst(n - 1, t)) + [t];
      assert (times + Burst(n, t))[..|times| + n - 1] == times + Burst(n - 1, t);
    }
  }

  /** A burst that empties the bucket, and another one when the key has just expired. */
  function TwoBursts(capacity: nat): seq<real> {
    Burst(capacity, 0.0) + Burst(capacity, TTL)
  }

  lemma TwoBurstsAllAllowed(capacity: nat, rate: nat, k: nat)
    requires k < 2 * capacity
    ensures Allowed(TwoBursts(capacity), capacity, rate, k)
  {
    var run := TwoBursts(capacity);
    if k < capacity {
      assert run[..k] == [] + Burst(k, 0.0);
      BurstDrains([], capacity, rate, k, 0.0);
    } else {
      var first := Burst(capacity, 0.0);
      assert run[..k] == first + Burst(k - capacity, TTL);
      assert first[..capacity - 1] + [first[capacity - 1]] == first;
      BurstDrains(first, capacity, rate, k - capacity, TTL);
    }
  }

  lemma {:induction false} AllAllowedCount(times: seq<real>, capacity: int, rate: nat, j: nat)
    requires j <= |times| && forall k :: 0 <= k < j ==> Allowed(times, capacity, rate, k)
    ensures AllowedCount(times, capacity, rate, 0, j) == j
    decreases j
  {
    if j > 0 {
      AllAllowedCount(times, capacity, rate, j - 1);
    }
  }

  /** Past `3600 * rate`, two bursts an hour apart exceed the bound. */
  lemma {:induction false} TwoBurstsExceed(capacity: nat, rate: nat)
    requires capacity > 3600 * rate
    ensures var run := TwoBursts(capacity);
            && Chronological(run) && |run| == 2 * capacity
            && !WithinBudget(AllowedCount(run, capacity, rate, 0, |run|), capacity, rate, run[|run| - 1] - run[0])
  {
    var run := TwoBursts(capacity);
    forall k | 0 <= k < |run| ensures Allowed(run, capacity, rate, k) {
      TwoBurstsAllAllowed(capacity, rate, k);
    }
    AllAllowedCount(run, capacity, rate, |run|);
    assert run[|run| - 1] == TTL && run[0] == 0.0;
    GainIsProduct(TTL, rate);
  }

  /** With and without expiry, every request is treated the same. */
  lemma SameTreatment(times: seq<real>, capacity: int, rate: nat, k: nat)
    requires 0 <= capacity <= 3600 * rate && Chronological(times) && k < |times|
    ensures Spend(Found(times, capacity, rate, k), capacity, rate, times[k])
         == Spend(PlainFound(times, capacity, rate, k), capacity, rate, times[k])
  {
    assert times[..k] + [times[k]] == times[..k + 1];
    ChronologicalPrefix(times, k + 1);
    SlotIsBucket(times[..k], capacity, rate, times[k]);
  }

  /** Two bursts an hour apart cannot all be allowed without expiry. */
  lemma ExpiryShows(capacity: int, rate: nat) returns (k: nat)
    requires capacity >= 0 && rate > 0 && capacity > 3600 * rate
    ensures var run := TwoBursts(capacity);
            && Chronological(run) && k < |run|
            && Allowed(run, capacity, rate, k) != PlainAllowed(run, capacity, rate, k)
  {
    var run := TwoBursts(capacity);
    TwoBurstsExceed(capacity, rate);
    PlainBound(run, capacity, rate, 0, |run|);
    if forall k :: 0 <= k < |run| ==> Allowed(run, capacity, rate, k) == PlainAllowed(run, capacity, rate, k) {
      SameAnswersSameCount(run, capacity, rate, 0, |run|);
      assert false;
    }
    k :| 0 <= k < |run| && Allowed(run, capacity, rate, k) != PlainAllowed(run, capacity, rate, k);
  }

  /** The hour that the key lives never changes an answer, in any run, if and only if the
      capacity is at most what an hour refills. */
  lemma ExpiryInvisibleIffHourFills(capacity: int, rate: nat)
    requires capacity >= 0 && rate > 0
    ensures ExpiryInvisible(capacity, rate) <==> capacity <= 3600 * rate
  {
    if capacity <= 3600 * rate {
      forall times: seq<real>, k: nat | Chronological(times) && k < |times|
        ensures Check(Found(times, capacity, rate, k), capacity, rate, times[k])
             == Check(PlainFound(times, capacity, rate, k), capacity, rate, times[k])
      {
        SameTreatment(times, capacity, rate, k);
      }
    } else {
      var k := ExpiryShows(capacity, rate);
      var run := TwoBursts(capacity);
      assert Check(Found(run, capacity, rate, k), capacity, rate, run[k])
          != Check(PlainFound(run, capacity, rate, k), capacity, rate, run[k]);
    }
  }

  /** Every interval of every run admits at most `capacity + rate * length` requests if and
      only if the capacity is at most what an hour refills. */
  lemma IntervalBoundIffHourFills(capacity: int, rate: nat)
    requires capacity >= 0 && rate > 0
    ensures IntervalBound(capacity, rate) <==> capacity <= 3600 * rate
  {
    if capacity <= 3600 * rate {
      forall times: seq<real>, i: nat, j: nat | Chronological(times) && i < j <= |times|
        ensures WithinBudget(AllowedCount(times, capacity, rate, i, j), capacity, rate, times[j - 1] - times[i])
      {
        forall k | i <= k < j ensures Allowed(times, capacity, rate, k) == PlainAllowed(times, capacity, rate, k) {
          SameTreatment(times, capacity, rate, k);
        }
        SameAnswersSameCount(times, capacity, rate, i, j);
        PlainBound(times, capacity, rate, i, j);
      }
    } else {
      TwoBurstsExceed(capacity, rate);
    }
  }

  // ----- When to come back -----

  /** The last request of a run was refused: what it left behind and what it was told. */
  lemma {:induction false} RefusalLeaves(times: seq<real>, capacity: int, rate: nat)
    requires capacity >= 0 && rate > 0 && times != [] && Chronological(times)
    requires !Allowed(times, capacity, rate, |times| - 1)
    ensures var slot := SlotAfter(times, capacity, rate);
            var k := |times| - 1;
            && slot.Some? && slot.value.expiresAt == times[k] + TTL && slot.value.value.lastRefill == times[k]
            && 0.0 <= slot.value.value.tokens < 1.0
            && Check(Found(times, capacity, rate, k), capacity, rate, times[k]).retryAfter
               == Truncate((1.0 - slot.value.value.tokens) / rate as real)
  {
    ChronologicalExtends(times, times[|times| - 1]);
    SlotsFilled(times, capacity, rate, times[|times| - 1]);
  }

  lemma {:induction false} AllowedLater(times: seq<real>, capacity: int, rate: nat, t: real)
    requires capacity >= 1 && rate > 0 && times != [] && Chronological(times + [t])
    requires !Allowed(times, capacity, rate, |times| - 1)
    ensures Allowed(times + [t], capacity, rate, |times|)
            <==> t - times[|times| - 1] >= (1.0 - SlotAfter(times, capacity, rate).value.value.tokens) / rate as real
  {
    LastInstants(times, t);
    RefusalLeaves(times, capacity, rate);
    assert (times + [t])[..|times|] == times;
    WaitRefills(SlotAfter(times, capacity, rate).value.value, capacity, rate, t);
  }

  /** After a refusal that left `tokens`, a client that waits alone is allowed exactly when
      the missing fraction has been refilled. The reported delay is the floor of that wait:
      one second if the bucket was empty and refills at one token a second, else zero. */
  lemma {:induction false} EarliestRetry(times: seq<real>, capacity: int, rate: nat, t: real)
    requires capacity >= 1 && rate > 0 && times != [] && Chronological(times + [t])
    requires !Allowed(times, capacity, rate, |times| - 1)
    ensures var k := |times| - 1;
            var tokens := SlotAfter(times, capacity, rate).value.value.tokens;
            var wait := (1.0 - tokens) / rate as real;
            var retryAfter := Check(Found(times, capacity, rate, k), capacity, rate, times[k]).retryAfter;
            && 0.0 < wait <= 1.0
            && (Allowed(times + [t], capacity, rate, |times|) <==> t - times[k] >= wait)
            && retryAfter == wait.Floor
            && retryAfter == if tokens == 0.0 && rate == 1 then 1 else 0
  {
    LastInstants(times, t);
    RefusalLeaves(times, capacity, rate);
    AllowedLater(times, capacity, rate, t);
    WaitBounds(1.0 - SlotAfter(times, capacity, rate).value.value.tokens, rate);
  }

  /** A lone retry after exactly the reported delay is allowed if and only if the bucket was
      empty and refills at one token a second. */
  lemma {:induction false} ReportedRetryIsExactIff(times: seq<real>, capacity: int, rate: nat)
    requires capacity >= 1 && rate > 0 && times != [] && Chronological(times)
    requires !Allowed(times, capacity, rate, |times| - 1)
    ensures var k := |times| - 1;
            var tokens := SlotAfter(times, capacity, rate).value.value.tokens;
            var retryAfter := Check(Found(times, capacity, rate, k), capacity, rate, times[k]).retryAfter;
            Allowed(times + [times[k] + retryAfter as real], capacity, rate, |times|) <==> tokens == 0.0 && rate == 1
  {
    var k := |times| - 1;
    var retryAfter := Check(Found(times, capacity, rate, k), capacity, rate, times[k]).retryAfter;
    RefusalLeaves(times, capacity, rate);
    WaitBounds(1.0 - SlotAfter(times, capacity, rate).value.value.tokens, rate);
    ChronologicalExtends(times, times[k] + retryAfter as real);
    EarliestRetry(times, capacity, rate, times[k] + retryAfter as real);
  }

  lemma WaitRefills(b: Bucket, capacity: int, rate: nat, t: real)
    requires capacity >= 1 && rate > 0 && 0.0 <= b.tokens < 1.0 && b.lastRefill <= t
    ensures Refilled(Some(b), capacity, rate, t) >= 1.0 <==> t - b.lastRefill >= (1.0 - b.tokens) / rate as real
    ensures b.lastRefill + TTL <= t ==> t - b.lastRefill >= (1.0 - b.tokens) / rate as real
    ensures Refilled(None, capacity, rate, t) >= 1.0
  {
    GainIsProduct(t - b.lastRefill, rate);
    GainGrows(0.0, 0.0, rate);
    Quotient(t - b.lastRefill, 1.0 - b.tokens, rate);
    WaitBounds(1.0 - b.tokens, rate);
  }

  lemma Quotient(x: real, y: real, rate: nat)
    requires rate > 0
    ensures x * rate as real >= y <==> x >= y / rate as real
  {
  }

  lemma WaitBounds(missing: real, rate: nat)
    requires 0.0 < missing <= 1.0 && rate > 0
    ensures 0.0 < missing / rate as real <= 1.0
    ensures (missing / rate as real).Floor == if missing == 1.0 && rate == 1 then 1 else 0
  {
  }
}
