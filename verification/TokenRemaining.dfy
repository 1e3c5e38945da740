/** What the token bucket reports as `remaining`, and what a client can do with it at once. */
module TokenRemaining {
  import opened OrderedDict
  import opened Clock
  import opened TokenBucket

  /** What request `k` of a run is told. */
  function Answer(times: seq<real>, capacity: int, rate: nat, k: nat): Verdict
    requires rate > 0 && k < |times|
  {
    Check(Found(times, capacity, rate, k), capacity, rate, times[k])
  }

  /** The key that the last request of a run leaves behind. */
  lemma {:induction false} LeftBehind(times: seq<real>, capacity: int, rate: nat)
    requires capacity >= 0 && rate > 0 && times != [] && Chronological(times)
    ensures var slot := SlotAfter(times, capacity, rate);
            var t := times[|times| - 1];
            && slot.Some? && slot.value.expiresAt == t + TTL && slot.value.value.lastRefill == t
            && 0.0 <= slot.value.value.tokens <= capacity as real
            && Answer(times, capacity, rate, |times| - 1).remaining == Truncate(slot.value.value.tokens)
  {
    ChronologicalExtends(times, times[|times| - 1]);
    SlotsFilled(times, capacity, rate, times[|times| - 1]);
  }

  /** At the same instant nothing is refilled and nothing expires. */
  lemma SpendAtOnce(tokens: real, capacity: int, rate: nat, t: real)
    requires 0.0 <= tokens <= capacity as real
    ensures Spend(Live(Some(Expiring(Bucket(tokens, t), t + TTL)), t), capacity, rate, t)
         == if tokens >= 1.0 then (Bucket(tokens - 1.0, t), true) else (Bucket(tokens, t), false)
  {
    GainGrows(0.0, 0.0, rate);
  }

  /** Request after request takes one token. */
  lemma {:induction false} SameInstantDrains(times: seq<real>, capacity: int, rate: nat, n: nat)
    requires capacity >= 0 && rate > 0 && times != [] && Chronological(times)
    requires SlotAfter(times, capacity, rate).Some?
    requires n as real <= SlotAfter(times, capacity, rate).value.value.tokens
    ensures var t := times[|times| - 1];
            var tokens := SlotAfter(times, capacity, rate).value.value.tokens;
            SlotAfter(times + Burst(n, t), capacity, rate) == Some(Expiring(Bucket(tokens - n as real, t), t + TTL))
    decreases n
  {
    var t := times[|times| - 1];
    LeftBehind(times, capacity, rate);
    if n == 0 {
      assert times + Burst(0, t) == times;
    } else {
      var before := times + Burst(n - 1, t);
      SameInstantDrains(times, capacity, rate, n - 1);
      SpendAtOnce(SlotAfter(before, capacity, rate).value.value.tokens, capacity, rate, t);
      assert times + Burst(n, t) == before + [t];
      assert (before + [t])[..|before|] == before;
    }
  }

  lemma BurstPrefix(times: seq<real>, n: nat, t: real, k: nat)
    requires |times| <= k <= |times| + n
    ensures (times + Burst(n + 1, t))[..k] == times + Burst(k - |times|, t)
    ensures (times + Burst(n + 1, t))[k] == t
  {
  }

  /** What request `k`, at the instant of the last one, finds. */
  lemma {:induction false} FoundAtOnce(times: seq<real>, capacity: int, rate: nat, n: nat, k: nat)
    requires capacity >= 0 && rate > 0 && times != [] && Chronological(times) && |times| <= k <= |times| + n
    requires SlotAfter(times, capacity, rate).Some?
    requires (k - |times|) as real <= SlotAfter(times, capacity, rate).value.value.tokens
    ensures var t := times[|times| - 1];
            Found(times + Burst(n + 1, t), capacity, rate, k)
            == Some(Bucket(SlotAfter(times, capacity, rate).value.value.tokens - (k - |times|) as real, t))
  {
    var t := times[|times| - 1];
    SameInstantDrains(times, capacity, rate, k - |times|);
    BurstPrefix(times, n, t, k);
  }

  lemma {:induction false} AllowedAtOnceIff(times: seq<real>, capacity: int, rate: nat, n: nat, k: nat)
    requires capacity >= 0 && rate > 0 && times != [] && Chronological(times) && |times| <= k <= |times| + n
    requires SlotAfter(times, capacity, rate).Some?
    requires (k - |times|) as real <= SlotAfter(times, capacity, rate).value.value.tokens
    ensures Allowed(times + Burst(n + 1, times[|times| - 1]), capacity, rate, k)
       <==> (k + 1 - |times|) as real <= SlotAfter(times, capacity, rate).value.value.tokens
  {
    LeftBehind(times, capacity, rate);
    FoundAtOnce(times, capacity, rate, n, k);
    SpendAtOnce(SlotAfter(times, capacity, rate).value.value.tokens - (k - |times|) as real, capacity, rate,
                times[|times| - 1]);
  }

  /** In every run, whoever is told that `n` requests remain can make exactly `n` more at the same
      instant: they are allowed, and the one after them is refused. */
  lemma RemainingIsExact(times: seq<real>, capacity: int, rate: nat, n: nat)
    requires capacity >= 0 && rate > 0 && times != [] && Chronological(times)
    requires Answer(times, capacity, rate, |times| - 1).remaining == n
    ensures var run := times + Burst(n + 1, times[|times| - 1]);
            && (forall k: nat | |times| <= k < |times| + n :: Allowed(run, capacity, rate, k))
            && !Allowed(run, capacity, rate, |times| + n)
  {
    LeftBehind(times, capacity, rate);
    var tokens := SlotAfter(times, capacity, rate).value.value.tokens;
    assert n as real <= tokens < (n + 1) as real;
    var run := times + Burst(n + 1, times[|times| - 1]);
    forall k: nat | |times| <= k < |times| + n ensures Allowed(run, capacity, rate, k) {
      assert (k + 1 - |times|) as real <= n as real;
      AllowedAtOnceIff(times, capacity, rate, n, k);
    }
    AllowedAtOnceIff(times, capacity, rate, n, |times| + n);
  }

  /** What is reported lies between none and the capacity; an allowed request has taken one
      away and need not wait, and a refused one is told that none remain. */
  lemma RemainingWithinCapacity(times: seq<real>, capacity: int, rate: nat)
    requires capacity >= 0 && rate > 0 && times != [] && Chronological(times)
    ensures var answer := Answer(times, capacity, rate, |times| - 1);
            && 0 <= answer.remaining <= capacity
            && (answer.allowed ==> answer.remaining < capacity && answer.retryAfter == 0)
            && (!answer.allowed ==> answer.remaining == 0)
  {
    LeftBehind(times, capacity, rate);
    ChronologicalExtends(times, times[|times| - 1]);
    FoundFilled(times, capacity, rate);
    SpendKeepsFilled(Found(times, capacity, rate, |times| - 1), capacity, rate, times[|times| - 1]);
  }

  lemma FoundFilled(times: seq<real>, capacity: int, rate: nat)
    requires capacity >= 0 && times != [] && Chronological(times)
    ensures Filled(Found(times, capacity, rate, |times| - 1), capacity, times[|times| - 1])
  {
    var before, now := times[..|times| - 1], times[|times| - 1];
    assert before + [now] == times;
    if before != [] {
      SlotsFilled(before, capacity, rate, now);
    }
  }
}
