/**
 `RateLimitedStrategy` of the execution service: a per-user log of accepted times. It is a
 greedy scheduler, and no other schedule under the same constraint gets ahead of it.
 */
module ExecutionRate {
  import opened Clock
  import opened Sets
  import SlidingWindow

  const MINUTE := 60.0

  /** The entries of the log that are later than `minuteAgo`. */
  function Recent(log: seq<real>, minuteAgo: real): seq<real> {
    if log == [] then []
    else if log[0] > minuteAgo then [log[0]] + Recent(log[1..], minuteAgo)
    else Recent(log[1..], minuteAgo)
  }

  /** One request: prune, compare, record if accepted. */
  function Decide(log: seq<real>, max: int, now: real): (seq<real>, bool) {
    var recent := Recent(log, now - MINUTE);
    if |recent| >= max then (recent, false) else (recent + [now], true)
  }

  /** The log after the first `k` requests. */
  function Log(times: seq<real>, max: int, k: nat): seq<real>
    requires k <= |times|
  {
    if k == 0 then [] else Decide(Log(times, max, k - 1), max, times[k - 1]).0
  }

  /** Which requests are accepted. */
  function Greedy(times: seq<real>, max: int): (accepted: seq<bool>)
    ensures |accepted| == |times|
  {
    seq(|times|, k requires 0 <= k < |times| => Decide(Log(times, max, k), max, times[k]).1)
  }

  /** How many of the first `k` requests a schedule takes. */
  function Taken(schedule: seq<bool>, k: nat): nat
    requires k <= |schedule|
  {
    if k == 0 then 0 else Taken(schedule, k - 1) + if schedule[k - 1] then 1 else 0
  }

  /** How many of the first `k` requests are taken later than `cutoff`. */
  function TakenAfter(times: seq<real>, schedule: seq<bool>, k: nat, cutoff: real): nat
    requires k <= |times| == |schedule|
  {
    if k == 0 then 0
    else TakenAfter(times, schedule, k - 1, cutoff) + if schedule[k - 1] && times[k - 1] > cutoff then 1 else 0
  }

  /** At most `max` requests are taken in the minute that ends with any taken request. */
  ghost predicate Feasible(times: seq<real>, max: int, schedule: seq<bool>) {
    && |times| == |schedule|
    && forall k :: 0 <= k < |times| && schedule[k] ==> TakenAfter(times, schedule, k + 1, times[k] - MINUTE) <= max
  }

  lemma {:induction false} RecentTwice(log: seq<real>, a: real, b: real)
    requires a <= b
    ensures Recent(Recent(log, a), b) == Recent(log, b)
  {
    if log != [] {
      RecentTwice(log[1..], a, b);
      if log[0] > a {
        assert ([log[0]] + Recent(log[1..], a))[1..] == Recent(log[1..], a);
      }
    }
  }

  lemma {:induction false} RecentAppends(log: seq<real>, t: real, cutoff: real)
    ensures Recent(log + [t], cutoff) == Recent(log, cutoff) + if t > cutoff then [t] else []
  {
    if log == [] {
      assert [] + [t] == [t] && [t][1..] == [];
    } else {
      assert (log + [t])[1..] == log[1..] + [t];
      RecentAppends(log[1..], t, cutoff);
    }
  }

  lemma {:induction false} DecideStep(log: seq<real>, max: int, now: real, cutoff: real)
    requires now - MINUTE <= cutoff
    ensures var (log', accepted) := Decide(log, max, now);
            |Recent(log', cutoff)| == |Recent(log, cutoff)| + if accepted && now > cutoff then 1 else 0
  {
    RecentTwice(log, now - MINUTE, cutoff);
    RecentAppends(Recent(log, now - MINUTE), now, cutoff);
  }

  /** Pruning loses nothing that will count: the log holds every accepted request of the
      last minute, once each. */
  lemma {:induction false} LogHoldsAccepted(times: seq<real>, max: int, k: nat, cutoff: real)
    requires Chronological(times) && k <= |times|
    requires k > 0 ==> times[k - 1] - MINUTE <= cutoff
    ensures |Recent(Log(times, max, k), cutoff)| == TakenAfter(times, Greedy(times, max), k, cutoff)
    decreases k
  {
    if k > 0 {
      if k > 1 {
        assert times[k - 2] <= times[k - 1];
      }
      LogHoldsAccepted(times, max, k - 1, cutoff);
      DecideStep(Log(times, max, k - 1), max, times[k - 1], cutoff);
      assert Greedy(times, max)[k - 1] == Decide(Log(times, max, k - 1), max, times[k - 1]).1;
    }
  }

  /** The strategy accepts a request exactly when fewer than `max` were accepted in the
      minute before it. */
  lemma {:induction false} AcceptsBelowMax(times: seq<real>, max: int, k: nat)
    requires Chronological(times) && k < |times|
    ensures Greedy(times, max)[k] <==> TakenAfter(times, Greedy(times, max), k, times[k] - 60.0) < max
  {
    LogHoldsAccepted(times, max, k, times[k] - MINUTE);
  }

  lemma GreedyIsFeasible(times: seq<real>, max: int)
    requires Chronological(times)
    ensures Feasible(times, max, Greedy(times, max))
  {
    forall k | 0 <= k < |times| && Greedy(times, max)[k]
      ensures TakenAfter(times, Greedy(times, max), k + 1, times[k] - MINUTE) <= max
    {
      AcceptsBelowMax(times, max, k);
    }
  }

  /** The first of the first `k` requests that is later than `cutoff`. */
  function FirstAfter(times: seq<real>, k: nat, cutoff: real): (m: nat)
    requires k <= |times|
    ensures m <= k
  {
    if k > 0 && times[k - 1] > cutoff then FirstAfter(times, k - 1, cutoff) else k
  }

  lemma {:induction false} TakenSplits(times: seq<real>, schedule: seq<bool>, k: nat, cutoff: real)
    requires Chronological(times) && k <= |times| == |schedule|
    ensures Taken(schedule, k) == Taken(schedule, FirstAfter(times, k, cutoff)) + TakenAfter(times, schedule, k, cutoff)
    decreases k
  {
    if k > 0 {
      if times[k - 1] > cutoff {
        TakenSplits(times, schedule, k - 1, cutoff);
      } else {
        NoneAfter(times, schedule, k, cutoff);
      }
    }
  }

  lemma {:induction false} NoneAfter(times: seq<real>, schedule: seq<bool>, k: nat, cutoff: real)
    requires Chronological(times) && k <= |times| == |schedule|
    requires k > 0 ==> times[k - 1] <= cutoff
    ensures TakenAfter(times, schedule, k, cutoff) == 0
    decreases k
  {
    if k > 1 {
      assert times[k - 2] <= times[k - 1];
      NoneAfter(times, schedule, k - 1, cutoff);
    }
  }

  /** A request that the strategy refuses and the other schedule takes: the strategy was
      ahead, because it has used up the minute that the other one still has room in. */
  lemma {:induction false} RefusedMeansAhead(times: seq<real>, max: int, schedule: seq<bool>, j: nat)
    requires Chronological(times) && Feasible(times, max, schedule) && j < |times|
    requires schedule[j] && !Greedy(times, max)[j]
    requires var m := FirstAfter(times, j, times[j] - MINUTE);
             Taken(schedule, m) <= Taken(Greedy(times, max), m)
    ensures Taken(schedule, j) + 1 <= Taken(Greedy(times, max), j)
  {
    var cutoff := times[j] - MINUTE;
    AcceptsBelowMax(times, max, j);
    TakenSplits(times, schedule, j, cutoff);
    TakenSplits(times, Greedy(times, max), j, cutoff);
    assert TakenAfter(times, schedule, j + 1, cutoff) <= max;
  }

  /** Where request `j` is refused by `greedy` only, `greedy` is ahead if it was not behind
      when the minute before the request began. */
  ghost predicate CatchesUp(times: seq<real>, schedule: seq<bool>, greedy: seq<bool>, j: nat)
    requires j < |times| == |schedule| == |greedy|
  {
    var m := FirstAfter(times, j, times[j] - MINUTE);
    schedule[j] && !greedy[j] && Taken(schedule, m) <= Taken(greedy, m) ==> Taken(schedule, j) + 1 <= Taken(greedy, j)
  }

  lemma {:induction false} StaysAhead(times: seq<real>, schedule: seq<bool>, greedy: seq<bool>, k: nat)
    requires k <= |times| == |schedule| == |greedy|
    requires forall j :: 0 <= j < |times| ==> CatchesUp(times, schedule, greedy, j)
    ensures Taken(schedule, k) <= Taken(greedy, k)
    decreases k
  {
    if k > 0 {
      StaysAhead(times, schedule, greedy, k - 1);
      StaysAhead(times, schedule, greedy, FirstAfter(times, k - 1, times[k - 1] - MINUTE));
      assert CatchesUp(times, schedule, greedy, k - 1);
    }
  }

  /** Greedy stays ahead: in every prefix of every trace the strategy has accepted at least
      as many requests as any schedule with at most `max` in every minute. */
  lemma {:induction false} GreedyStaysAhead(times: seq<real>, max: int, schedule: seq<bool>, k: nat)
    requires Chronological(times) && Feasible(times, max, schedule) && k <= |times|
    ensures Taken(schedule, k) <= Taken(Greedy(times, max), k)
  {
    var greedy := Greedy(times, max);
    forall j | 0 <= j < |times| ensures CatchesUp(times, schedule, greedy, j) {
      var m := FirstAfter(times, j, times[j] - MINUTE);
      if schedule[j] && !greedy[j] && Taken(schedule, m) <= Taken(greedy, m) {
        RefusedMeansAhead(times, max, schedule, j);
      }
    }
    StaysAhead(times, schedule, greedy, k);
  }

  // ----- Compared with the sliding-window limiter -----

  /** Which requests the sliding-window limiter allows. */
  function AllowedBy(times: seq<real>, limit: int, window: int): (allowed: seq<bool>)
    ensures |allowed| == |times|
  {
    seq(|times|, k requires 0 <= k < |times| => SlidingWindow.Answer(times, limit, window, k).allowed)
  }

  /** The same with a window of a minute. */
  function Sliding(times: seq<real>, limit: int): (allowed: seq<bool>)
    ensures |allowed| == |times|
  {
    AllowedBy(times, limit, 60)
  }

  ghost predicate Distinct(times: seq<real>) {
    forall i, j :: 0 <= i < j < |times| ==> times[i] != times[j]
  }

  /** One more request, at an instant of its own. */
  lemma NewInstant(times: seq<real>, k: nat, cutoff: real)
    requires Distinct(times) && 0 < k <= |times|
    ensures |SlidingWindow.After(Elements(times[..k]), cutoff)|
         == |SlidingWindow.After(Elements(times[..k - 1]), cutoff)| + if times[k - 1] > cutoff then 1 else 0
  {
    var before := SlidingWindow.After(Elements(times[..k - 1]), cutoff);
    assert times[..k] == times[..k - 1] + [times[k - 1]];
    assert times[k - 1] !in before;
    assert SlidingWindow.After(Elements(times[..k]), cutoff)
        == before + if times[k - 1] > cutoff then {times[k - 1]} else {};
  }

  lemma {:induction false} TakenAreInstants(times: seq<real>, schedule: seq<bool>, k: nat, cutoff: real)
    requires Distinct(times) && k <= |times| == |schedule|
    ensures TakenAfter(times, schedule, k, cutoff)
         <= |SlidingWindow.After(Elements(times[..k]), cutoff)|
    decreases k
  {
    if k > 0 {
      TakenAreInstants(times, schedule, k - 1, cutoff);
      NewInstant(times, k, cutoff);
    }
  }

  lemma SlidingIsFeasible(times: seq<real>, limit: int)
    requires Chronological(times) && Distinct(times)
    ensures Feasible(times, limit, Sliding(times, limit))
  {
    forall k | 0 <= k < |times| && Sliding(times, limit)[k]
      ensures TakenAfter(times, Sliding(times, limit), k + 1, times[k] - MINUTE) <= limit
    {
      SlidingWindow.AnswerByRecent(times, limit, 60, k);
      TakenAreInstants(times, Sliding(times, limit), k + 1, times[k] - MINUTE);
    }
  }

  /** The instants of the first `k` requests that a schedule takes. */
  function Instants(times: seq<real>, schedule: seq<bool>, k: nat): set<real>
    requires k <= |times| == |schedule|
  {
    if k == 0 then {}
    else if schedule[k - 1] then Instants(times, schedule, k - 1) + {times[k - 1]}
    else Instants(times, schedule, k - 1)
  }

  /** The schedule that takes the first request at each of these instants. */
  function Firsts(times: seq<real>, schedule: seq<bool>): (firsts: seq<bool>)
    requires |times| == |schedule|
    ensures |firsts| == |times|
    ensures forall k :: 0 <= k < |times| ==> firsts[k] == (schedule[k] && times[k] !in Instants(times, schedule, k))
  {
    seq(|times|, k requires 0 <= k < |times| => schedule[k] && times[k] !in Instants(times, schedule, k))
  }

  lemma {:induction false} FirstsTakeInstants(times: seq<real>, schedule: seq<bool>, k: nat)
    requires k <= |times| == |schedule|
    ensures Taken(Firsts(times, schedule), k) == |Instants(times, schedule, k)|
  {
    if k > 0 {
      FirstsTakeInstants(times, schedule, k - 1);
      SizeWith(Instants(times, schedule, k - 1), times[k - 1]);
    }
  }

  lemma LaterWith(s: set<real>, x: real, cutoff: real)
    ensures |SlidingWindow.After(s + {x}, cutoff)|
         == |SlidingWindow.After(s, cutoff)| + if x !in s && x > cutoff then 1 else 0
  {
    SizeWith(SlidingWindow.After(s, cutoff), x);
    assert SlidingWindow.After(s + {x}, cutoff)
        == if x > cutoff then SlidingWindow.After(s, cutoff) + {x} else SlidingWindow.After(s, cutoff);
  }

  lemma {:induction false} FirstsTakeInstantsAfter(times: seq<real>, schedule: seq<bool>, k: nat, cutoff: real)
    requires k <= |times| == |schedule|
    ensures TakenAfter(times, Firsts(times, schedule), k, cutoff)
         == |SlidingWindow.After(Instants(times, schedule, k), cutoff)|
  {
    if k == 0 {
      assert SlidingWindow.After({}, cutoff) == {};
    } else {
      FirstsTakeInstantsAfter(times, schedule, k - 1, cutoff);
      LaterWith(Instants(times, schedule, k - 1), times[k - 1], cutoff);
    }
  }

  lemma {:induction false} InstantsOccur(times: seq<real>, schedule: seq<bool>, k: nat)
    requires k <= |times| == |schedule|
    ensures Instants(times, schedule, k) <= Elements(times[..k])
  {
    if k > 0 {
      InstantsOccur(times, schedule, k - 1);
      assert times[..k] == times[..k - 1] + [times[k - 1]];
    }
  }

  /** When a request is allowed, few instants of its window have been. */
  lemma {:induction false} FewInstants(times: seq<real>, limit: int, window: int, k: nat)
    requires window > 0 && Chronological(times) && k < |times| && AllowedBy(times, limit, window)[k]
    ensures |SlidingWindow.After(Instants(times, AllowedBy(times, limit, window), k + 1), times[k] - window as real)|
         <= limit
  {
    var instants := Instants(times, AllowedBy(times, limit, window), k + 1);
    SlidingWindow.AnswerByRecent(times, limit, window, k);
    InstantsOccur(times, AllowedBy(times, limit, window), k + 1);
    SubsetSize(SlidingWindow.After(instants, times[k] - window as real),
               SlidingWindow.Recent(times[..k + 1], window, times[k]));
  }

  lemma FirstsFeasible(times: seq<real>, limit: int)
    requires Chronological(times)
    ensures Feasible(times, limit, Firsts(times, Sliding(times, limit)))
  {
    forall k | 0 <= k < |times| && Firsts(times, Sliding(times, limit))[k]
      ensures TakenAfter(times, Firsts(times, Sliding(times, limit)), k + 1, times[k] - MINUTE) <= limit
    {
      FirstFeasible(times, limit, k);
    }
  }

  lemma {:induction false} FirstFeasible(times: seq<real>, limit: int, k: nat)
    requires Chronological(times) && k < |times| && Firsts(times, Sliding(times, limit))[k]
    ensures TakenAfter(times, Firsts(times, Sliding(times, limit)), k + 1, times[k] - MINUTE) <= limit
  {
    FewInstants(times, limit, 60, k);
    FirstsTakeInstantsAfter(times, Sliding(times, limit), k + 1, times[k] - MINUTE);
  }

  /** On every trace and in every prefix, the instants at which the sliding-window limiter
      allows something are at most as many as the requests the strategy accepts. */
  lemma {:induction false} NoMoreInstantsThanAccepted(times: seq<real>, limit: int, k: nat)
    requires Chronological(times) && k <= |times|
    ensures |Instants(times, Sliding(times, limit), k)| <= Taken(Greedy(times, limit), k)
  {
    FirstsFeasible(times, limit);
    GreedyStaysAhead(times, limit, Firsts(times, Sliding(times, limit)), k);
    FirstsTakeInstants(times, Sliding(times, limit), k);
  }

  lemma {:induction false} DistinctInstants(times: seq<real>, schedule: seq<bool>, k: nat)
    requires Distinct(times) && k <= |times| == |schedule|
    ensures Taken(schedule, k) == |Instants(times, schedule, k)|
    ensures forall i :: k <= i < |times| ==> times[i] !in Instants(times, schedule, k)
  {
    if k > 0 {
      DistinctInstants(times, schedule, k - 1);
      SizeWith(Instants(times, schedule, k - 1), times[k - 1]);
    }
  }

  /** On traces with distinct times the strategy never accepts fewer requests than the
      sliding-window limiter, in any prefix. */
  lemma {:induction false} NeverFewerThanSliding(times: seq<real>, limit: int, k: nat)
    requires Chronological(times) && Distinct(times) && k <= |times|
    ensures Taken(Sliding(times, limit), k) <= Taken(Greedy(times, limit), k)
  {
    NoMoreInstantsThanAccepted(times, limit, k);
    DistinctInstants(times, Sliding(times, limit), k);
  }

  /** Without distinct times it can: the limiter counts two simultaneous requests as one. */
  lemma SimultaneousRequestsCountOnce()
    ensures Taken(Sliding([0.0, 0.0], 1), 2) == 2
    ensures Taken(Greedy([0.0, 0.0], 1), 2) == 1
  {
    var times := [0.0, 0.0];
    SlidingAllowsBoth(times);
    assert Greedy(times, 1)[0] && !Greedy(times, 1)[1] by {
      assert Log(times, 1, 1) == [0.0];
      assert Recent([0.0], -60.0) == [0.0];
    }
  }

  lemma SlidingAllowsBoth(times: seq<real>)
    requires times == [0.0, 0.0]
    ensures Sliding(times, 1)[0] && Sliding(times, 1)[1]
  {
    OneInstant(times, 0);
    OneInstant(times, 1);
  }

  lemma OneInstant(times: seq<real>, k: nat)
    requires times == [0.0, 0.0] && k < 2
    ensures SlidingWindow.Answer(times, 1, 60, k).allowed
  {
    SlidingWindow.AnswerByRecent(times, 1, 60, k);
    assert SlidingWindow.Recent(times[..k + 1], 60, 0.0) == {0.0};
  }

  class RateLimitedStrategy {
    const maxPerMinute: int
    var executionCounts: map<string, seq<real>>

    constructor (maxExecutionsPerMinute: int)
      ensures maxPerMinute == maxExecutionsPerMinute && executionCounts == map[]
    {
      maxPerMinute := maxExecutionsPerMinute;
      executionCounts := map[];
    }

    method CanExecute(user: string, currentTime: real) returns (allowed: bool)
      modifies this
      ensures var log := if user in old(executionCounts) then old(executionCounts)[user] else [];
              (executionCounts, allowed)
              == (old(executionCounts)[user := Decide(log, maxPerMinute, currentTime).0],
                  Decide(log, maxPerMinute, currentTime).1)
    {
      var minuteAgo := currentTime - MINUTE;
      if user in executionCounts {
        executionCounts := executionCounts[user := Recent(executionCounts[user], minuteAgo)];
      } else {
        executionCounts := executionCounts[user := []];
      }
      if |executionCounts[user]| >= maxPerMinute {
        return false;
      }
      var log := executionCounts[user] + [currentTime];
      executionCounts := executionCounts[user := log];
      assert executionCounts == old(executionCounts)[user := log];
      allowed := true;
    }
  }
}
