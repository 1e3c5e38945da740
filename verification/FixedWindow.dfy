/** The fixed-window limiter: one counter per aligned window, under a key that expires. */
module FixedWindow {
  import opened Clock

  type Counters = map<int, Expiring<int>>

  /** The index of the aligned window that `now` falls in: `int(now) // window`. */
  function Index(now: real, window: int): int
    requires window > 0
  {
    Truncate(now) / window
  }

  /** `incr` starts from 0 when the key is missing or expired. */
  function Incremented(counters: Counters, index: int, now: real): int {
    if index in counters && now < counters[index].expiresAt then counters[index].value + 1 else 1
  }

  /** One check: increment the counter of the current window, give its key `window` more
      seconds, and compare. */
  function Check(counters: Counters, limit: int, window: int, now: real): (Counters, Verdict)
    requires window > 0
  {
    var index := Index(now, window);
    var count := Incremented(counters, index, now);
    (counters[index := Expiring(count, now + window as real)],
     Verdict(count <= limit, Max(0, limit - count), if count <= limit then 0 else window))
  }

  /** The counters after a run of requests. */
  function CountersAfter(times: seq<real>, limit: int, window: int): Counters
    requires window > 0
    decreases |times|
  {
    if times == [] then map[]
    else Check(CountersAfter(times[..|times| - 1], limit, window), limit, window, times[|times| - 1]).0
  }

  /** The answer to request `k` of a run. */
  function Answer(times: seq<real>, limit: int, window: int, k: nat): Verdict
    requires window > 0 && k < |times|
  {
    Check(CountersAfter(times[..k], limit, window), limit, window, times[k]).1
  }

  /** How many of the requests fall in the aligned window `index`. */
  function Arrivals(times: seq<real>, window: int, index: int): nat
    requires window > 0
    decreases |times|
  {
    if times == [] then 0
    else Arrivals(times[..|times| - 1], window, index)
         + if Index(times[|times| - 1], window) == index then 1 else 0
  }

  /** The counter of a window is the number of its arrivals, and its key outlives the window. */
  ghost predicate Counts(counters: Counters, times: seq<real>, window: int)
    requires window > 0
  {
    forall index ::
      if Arrivals(times, window, index) == 0 then index !in counters
      else
        && index in counters
        && counters[index].value == Arrivals(times, window, index)
        && counters[index].expiresAt >= ((index + 1) * window) as real
  }

  lemma IndexBounds(now: real, window: int)
    requires window > 0 && now >= 0.0
    ensures (Index(now, window) * window) as real <= now < ((Index(now, window) + 1) * window) as real
  {
  }

  /** A counter never expires while its window is current, so a check counts one arrival. */
  lemma {:induction false} CheckCounts(counters: Counters, times: seq<real>, limit: int, window: int, now: real)
    requires window > 0 && now >= 0.0 && Counts(counters, times, window)
    ensures Incremented(counters, Index(now, window), now) == Arrivals(times + [now], window, Index(now, window))
    ensures Counts(Check(counters, limit, window, now).0, times + [now], window)
  {
    var current := Index(now, window);
    IndexBounds(now, window);
    assert (times + [now])[..|times|] == times;
    assert forall index :: Arrivals(times + [now], window, index)
                        == Arrivals(times, window, index) + if current == index then 1 else 0;
    assert (current + 1) * window == current * window + window;
  }

  lemma {:induction false} CountersCount(times: seq<real>, limit: int, window: int)
    requires window > 0 && Chronological(times)
    ensures Counts(CountersAfter(times, limit, window), times, window)
    decreases |times|
  {
    if times != [] {
      var before, now := times[..|times| - 1], times[|times| - 1];
      CountersCount(before, limit, window);
      CheckCounts(CountersAfter(before, limit, window), before, limit, window, now);
      assert before + [now] == times;
    }
  }

  /** Exactly the first `limit` arrivals of every aligned window are allowed, and no counter
      is lost to its expiry while its window is current. */
  lemma {:induction false} FirstArrivalsAllowed(times: seq<real>, limit: int, window: int, k: nat)
    requires window > 0 && Chronological(times) && k < |times|
    ensures var n := Arrivals(times[..k + 1], window, Index(times[k], window));
            Answer(times, limit, window, k) == Verdict(n <= limit, Max(0, limit - n), if n <= limit then 0 else window)
    ensures var index := Index(times[k], window);
            var counters := CountersAfter(times[..k], limit, window);
            index in counters ==> times[k] < counters[index].expiresAt
  {
    CountersCount(times[..k], limit, window);
    CheckCounts(CountersAfter(times[..k], limit, window), times[..k], limit, window, times[k]);
    assert times[..k] + [times[k]] == times[..k + 1];
    IndexBounds(times[k], window);
  }

  /** How many of the first `k` requests were allowed and satisfy `p`. */
  function AllowedAmong(times: seq<real>, limit: int, window: int, k: nat, p: real -> bool): nat
    requires window > 0 && k <= |times|
  {
    if k == 0 then 0
    else AllowedAmong(times, limit, window, k - 1, p)
         + if Answer(times, limit, window, k - 1).allowed && p(times[k - 1]) then 1 else 0
  }

  /** An aligned window admits at most `limit` requests. */
  lemma {:induction false} AllowedInWindow(times: seq<real>, limit: int, window: int, k: nat, index: int)
    requires window > 0 && Chronological(times) && k <= |times|
    ensures AllowedAmong(times, limit, window, k, t => Index(t, window) == index)
         <= Arrivals(times[..k], window, index)
    ensures AllowedAmong(times, limit, window, k, t => Index(t, window) == index) <= Max(0, limit)
    decreases k
  {
    if k > 0 {
      AllowedInWindow(times, limit, window, k - 1, index);
      FirstArrivalsAllowed(times, limit, window, k - 1);
      assert times[..k][..k - 1] == times[..k - 1];
    }
  }

  lemma {:induction false} AllowedSplits(times: seq<real>, limit: int, window: int, k: nat, p: real -> bool, a: int)
    requires window > 0 && k <= |times|
    requires forall i :: 0 <= i < k && p(times[i]) ==> Index(times[i], window) == a || Index(times[i], window) == a + 1
    ensures AllowedAmong(times, limit, window, k, p)
         <= AllowedAmong(times, limit, window, k, t => Index(t, window) == a)
          + AllowedAmong(times, limit, window, k, t => Index(t, window) == a + 1)
    decreases k
  {
    if k > 0 {
      AllowedSplits(times, limit, window, k - 1, p, a);
    }
  }

  lemma CancelFactor(a: int, b: int, w: int)
    requires w > 0 && a * w < b * w
    ensures a < b
  {
  }

  lemma NextIndex(from: real, t: real, window: int)
    requires window > 0 && 0.0 <= from <= t < from + window as real
    ensures Index(t, window) == Index(from, window) || Index(t, window) == Index(from, window) + 1
  {
    IndexBounds(from, window);
    IndexBounds(t, window);
    var a, b := Index(from, window), Index(t, window);
    assert (a + 2) * window == (a + 1) * window + window;
    CancelFactor(a, b + 1, window);
    CancelFactor(b, a + 2, window);
  }

  /** Any interval of length `window`, aligned or not, admits at most `2 * limit` requests. */
  lemma TwiceLimitInInterval(times: seq<real>, limit: int, window: int, from: real)
    requires window > 0 && Chronological(times)
    ensures AllowedAmong(times, limit, window, |times|, t => from <= t < from + window as real) <= 2 * Max(0, limit)
  {
    var start := if from < 0.0 then 0.0 else from;
    var index := Index(start, window);
    forall i | 0 <= i < |times| && from <= times[i] < from + window as real
      ensures Index(times[i], window) == index || Index(times[i], window) == index + 1
    {
      NextIndex(start, times[i], window);
    }
    AllowedSplits(times, limit, window, |times|, t => from <= t < from + window as real, index);
    AllowedInWindow(times, limit, window, |times|, index);
    AllowedInWindow(times, limit, window, |times|, index + 1);
  }

  // ----- When to come back -----

  lemma IndexGrows(a: real, b: real, window: int)
    requires window > 0 && 0.0 <= a <= b
    ensures Index(a, window) <= Index(b, window)
  {
    IndexBounds(a, window);
    IndexBounds(b, window);
    CancelFactor(Index(a, window), Index(b, window) + 1, window);
  }

  /** A window later than every request has had no arrivals. */
  lemma {:induction false} NoArrivalsYet(times: seq<real>, window: int, index: int)
    requires window > 0 && Chronological(times)
    requires times != [] ==> Index(times[|times| - 1], window) < index
    ensures Arrivals(times, window, index) == 0
    decreases |times|
  {
    if |times| > 1 {
      IndexGrows(times[|times| - 2], times[|times| - 1], window);
      NoArrivalsYet(times[..|times| - 1], window, index);
    }
  }

  /** The answer to one more request. */
  lemma {:induction false} NextAnswer(times: seq<real>, limit: int, window: int, t: real)
    requires window > 0 && Chronological(times + [t])
    ensures Answer(times + [t], limit, window, |times|).allowed
       <==> Arrivals(times, window, Index(t, window)) + 1 <= limit
  {
    FirstArrivalsAllowed(times + [t], limit, window, |times|);
    assert (times + [t])[..|times| + 1] == times + [t];
    assert (times + [t])[..|times|] == times;
  }

  /** After a refusal, a client that waits alone is allowed at `t` exactly when `t` falls in a
      later window and the limit allows anything at all. */
  lemma EarliestRetry(times: seq<real>, limit: int, window: int, t: real)
    requires window > 0 && times != [] && Chronological(times + [t])
    requires !Answer(times, limit, window, |times| - 1).allowed
    ensures Answer(times + [t], limit, window, |times|).allowed
       <==> limit >= 1 && Index(t, window) > Index(times[|times| - 1], window)
  {
    var last := times[|times| - 1];
    LastInstants(times, t);
    FirstArrivalsAllowed(times, limit, window, |times| - 1);
    assert times[..|times| - 1 + 1] == times;
    NextAnswer(times, limit, window, t);
    IndexGrows(last, t, window);
    if Index(t, window) > Index(last, window) {
      NoArrivalsYet(times, window, Index(t, window));
    }
  }

  /** The reported delay, a whole window, always suffices if the limit allows anything. */
  lemma ReportedRetrySuffices(times: seq<real>, limit: int, window: int)
    requires window > 0 && limit >= 1 && times != [] && Chronological(times)
    requires !Answer(times, limit, window, |times| - 1).allowed
    ensures var retryAfter := Answer(times, limit, window, |times| - 1).retryAfter;
            Answer(times + [times[|times| - 1] + retryAfter as real], limit, window, |times|).allowed
  {
    var last := times[|times| - 1];
    FirstArrivalsAllowed(times, limit, window, |times| - 1);
    ChronologicalExtends(times, last + window as real);
    EarliestRetry(times, limit, window, last + window as real);
    LaterWindow(last, window);
  }

  lemma LaterWindow(t: real, window: int)
    requires window > 0 && t >= 0.0
    ensures Index(t + window as real, window) > Index(t, window)
  {
    IndexBounds(t, window);
    IndexBounds(t + window as real, window);
    var a, b := Index(t, window), Index(t + window as real, window);
    assert (a + 1) * window == a * window + window;
    CancelFactor(a + 1, b + 1, window);
  }
}
