/**
 What the token bucket enforces when the dispatch hands it a limit and a window: the window
 becomes the number of tokens refilled every second.
 */
module TokenWindow {
  import opened OrderedDict
  import opened Clock
  import opened TokenBucket

  // ----- Intervals shorter than an hour, for every capacity -----

  /** One check of a run, in terms of the stored bucket it leaves. */
  lemma {:induction false} SlotStep(times: seq<real>, capacity: int, rate: nat, k: nat)
    requires capacity >= 0 && Chronological(times) && k < |times|
    ensures SlotAfter(times[..k + 1], capacity, rate).Some?
    ensures var tokens := SlotAfter(times[..k + 1], capacity, rate).value.value.tokens;
            var spent := if Allowed(times, capacity, rate, k) then 1.0 else 0.0;
            && 0.0 <= tokens && tokens + spent <= capacity as real
            && (k > 0 && times[k] - times[k - 1] < TTL ==>
                  && SlotAfter(times[..k], capacity, rate).Some?
                  && tokens + spent
                     <= SlotAfter(times[..k], capacity, rate).value.value.tokens + Gain(times[k] - times[k - 1], rate))
  {
    var before, now := times[..k], times[k];
    assert times[..k + 1] == before + [now];
    assert times[..k + 1][..k] == before;
    ChronologicalPrefix(times, k + 1);
    if k > 0 {
      SlotsFilled(before, capacity, rate, now);
    }
    SpendKeepsFilled(Found(times, capacity, rate, k), capacity, rate, now);
  }

  lemma {:induction false} ShortBudget(times: seq<real>, capacity: int, rate: nat, i: nat, j: nat)
    requires capacity >= 0 && Chronological(times) && i < j <= |times| && times[j - 1] - times[i] < TTL
    ensures SlotAfter(times[..j], capacity, rate).Some?
    ensures SlotAfter(times[..j], capacity, rate).value.value.tokens >= 0.0
    ensures SlotAfter(times[..j], capacity, rate).value.value.tokens + AllowedCount(times, capacity, rate, i, j) as real
         <= capacity as real + Gain(times[j - 1] - times[i], rate)
    decreases j
  {
    SlotStep(times, capacity, rate, j - 1);
    if i < j - 1 {
      assert times[i] <= times[j - 2] <= times[j - 1];
      ShortBudget(times, capacity, rate, i, j - 1);
      GainAdds(times[j - 2] - times[i], times[j - 1] - times[j - 2], rate);
    } else {
      GainGrows(0.0, 0.0, rate);
    }
  }

  /** In an interval shorter than an hour, whatever the capacity, no more requests are allowed
      than the capacity and its refills pay for. */
  lemma {:induction false} ShortIntervalBound(times: seq<real>, capacity: int, rate: nat, i: nat, j: nat)
    requires capacity >= 0 && Chronological(times) && i < j <= |times| && times[j - 1] - times[i] < TTL
    ensures WithinBudget(AllowedCount(times, capacity, rate, i, j), capacity, rate, times[j - 1] - times[i])
  {
    ShortBudget(times, capacity, rate, i, j);
    GainBudget(AllowedCount(times, capacity, rate, i, j), SlotAfter(times[..j], capacity, rate).value.value.tokens,
               capacity, rate, times[j - 1] - times[i]);
  }

  lemma {:induction false} NothingAllowed(times: seq<real>, capacity: int, rate: nat, i: nat, j: nat)
    requires capacity <= 0 && i <= j <= |times|
    ensures AllowedCount(times, capacity, rate, i, j) == 0
    decreases j
  {
    if i < j {
      NothingAllowed(times, capacity, rate, i, j - 1);
    }
  }

  // ----- A limit and a window -----

  /** At most `limit` requests are allowed within any `window` seconds, when the window is also
      the refill rate. */
  ghost predicate LimitsWindow(limit: int, window: nat) {
    forall times: seq<real>, i: nat, j: nat |
      Chronological(times) && i < j <= |times| && times[j - 1] - times[i] < window as real ::
      AllowedCount(times, limit, window, i, j) <= Max(0, limit)
  }

  lemma WindowGain(requests: nat, limit: int, window: nat, elapsed: real)
    requires WithinBudget(requests, limit, window, elapsed) && 0.0 <= elapsed < window as real
    ensures requests <= limit + window * window
    ensures window == 1 ==> requests <= limit
  {
    assert (window as real - elapsed) * window as real >= 0.0;
    assert window as real * window as real == (window * window) as real;
  }

  /** What is enforced instead, for windows up to an hour. */
  lemma {:induction false} WindowAdmitsAtMost(times: seq<real>, limit: int, window: nat, i: nat, j: nat)
    requires limit >= 0 && window <= 3600 && Chronological(times) && i < j <= |times|
    requires times[j - 1] - times[i] < window as real
    ensures AllowedCount(times, limit, window, i, j) <= limit + window * window
  {
    ShortIntervalBound(times, limit, window, i, j);
    WindowGain(AllowedCount(times, limit, window, i, j), limit, window, times[j - 1] - times[i]);
  }

  /** A burst that empties the bucket, and one request a second later. */
  function BurstAndOne(limit: nat): seq<real> {
    Burst(limit, 0.0) + [1.0]
  }

  lemma {:induction false} BurstEmpties(limit: nat, window: nat)
    requires limit >= 1
    ensures SlotAfter(Burst(limit, 0.0), limit, window) == Some(Expiring(Bucket(0.0, 0.0), TTL))
  {
    var before := Burst(limit - 1, 0.0);
    assert [] + before == before;
    BurstDrains([], limit, window, limit - 1, 0.0);
    assert Burst(limit, 0.0) == before + [0.0];
    assert (before + [0.0])[..|before|] == before;
  }

  lemma BurstAndOneAllowed(limit: nat, window: nat, k: nat)
    requires limit >= 1 && window >= 1 && k <= limit
    ensures Allowed(BurstAndOne(limit), limit, window, k)
  {
    var run := BurstAndOne(limit);
    if k < limit {
      assert run[..k] == [] + Burst(k, 0.0);
      BurstDrains([], limit, window, k, 0.0);
    } else {
      assert run[..k] == Burst(limit, 0.0);
      BurstEmpties(limit, window);
      GainIsProduct(1.0, window);
    }
  }

  /** A limit and a window are enforced as such if and only if the window is one second, or
      nothing is allowed at all. */
  lemma LimitsWindowIffOneSecond(limit: int, window: nat)
    requires window > 0
    ensures LimitsWindow(limit, window) <==> limit <= 0 || window == 1
  {
    if limit <= 0 || window == 1 {
      forall times: seq<real>, i: nat, j: nat |
        Chronological(times) && i < j <= |times| && times[j - 1] - times[i] < window as real
        ensures AllowedCount(times, limit, window, i, j) <= Max(0, limit)
      {
        if limit <= 0 {
          NothingAllowed(times, limit, window, i, j);
        } else {
          ShortIntervalBound(times, limit, window, i, j);
          WindowGain(AllowedCount(times, limit, window, i, j), limit, window, times[j - 1] - times[i]);
        }
      }
    } else {
      BurstAndOneExceeds(limit, window);
    }
  }

  lemma BurstAndOneExceeds(limit: nat, window: nat)
    requires limit >= 1 && window >= 2
    ensures !LimitsWindow(limit, window)
  {
    var run := BurstAndOne(limit);
    forall k | 0 <= k < |run| ensures Allowed(run, limit, window, k) {
      BurstAndOneAllowed(limit, window, k);
    }
    AllAllowedCount(run, limit, window, |run|);
    assert AllowedCount(run, limit, window, 0, |run|) == limit + 1;
  }
}
