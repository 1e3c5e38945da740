/**
 The sliding window counts instants, and several requests can share one. Exactly how many
 requests it admits when at most `m` arrive together, and when that is what it promises.
 */
module Simultaneous {
  import opened Clock
  import opened ExecutionRate
  import opened Sets
  import SlidingWindow

  /** No more than `m` requests share an instant. */
  ghost predicate AtMostTogether(times: seq<real>, m: nat) {
    forall i, j :: 0 <= i && i + m <= j < |times| ==> times[i] != times[j]
  }

  // ----- An upper bound -----

  /** The first request at the instant of request `k - 1`. */
  function GroupStart(times: seq<real>, k: nat): (f: nat)
    requires 0 < k <= |times|
    ensures f < k && times[f] == times[k - 1]
    ensures forall i :: f <= i < k ==> times[i] == times[k - 1]
    ensures f > 0 ==> times[f - 1] != times[k - 1]
  {
    if k > 1 && times[k - 2] == times[k - 1] then GroupStart(times, k - 1) else k - 1
  }

  /** A group takes one instant, and no more requests than it has. */
  lemma {:induction false} GroupTakes(times: seq<real>, schedule: seq<bool>, f: nat, k: nat, cutoff: real, t: real)
    requires f <= k <= |times| == |schedule|
    requires forall i :: f <= i < k ==> times[i] == t
    ensures TakenAfter(times, schedule, k, cutoff) <= TakenAfter(times, schedule, f, cutoff) + (k - f)
    ensures if TakenAfter(times, schedule, k, cutoff) == TakenAfter(times, schedule, f, cutoff)
            then Instants(times, schedule, f) <= Instants(times, schedule, k)
            else t > cutoff && Instants(times, schedule, k) == Instants(times, schedule, f) + {t}
    ensures TakenAfter(times, schedule, k, cutoff) >= TakenAfter(times, schedule, f, cutoff)
    ensures Instants(times, schedule, f) <= Instants(times, schedule, k) <= Instants(times, schedule, f) + {t}
    decreases k
  {
    if f < k {
      GroupTakes(times, schedule, f, k - 1, cutoff, t);
    }
  }

  lemma {:induction false} InstantsUpTo(times: seq<real>, schedule: seq<bool>, k: nat)
    requires Chronological(times) && k <= |times| == |schedule|
    ensures forall x :: x in Instants(times, schedule, k) ==> k > 0 && x <= times[k - 1]
  {
    if k > 1 {
      InstantsUpTo(times, schedule, k - 1);
      assert times[k - 2] <= times[k - 1];
    }
  }

  lemma {:induction false} GroupIsSmall(times: seq<real>, m: nat, k: nat)
    requires AtMostTogether(times, m) && 0 < k <= |times|
    ensures k - GroupStart(times, k) <= m
  {
  }

  lemma ProductGrows(m: nat, a: nat, b: nat)
    ensures a <= b ==> m * a <= m * b
    ensures m * (a + 1) == m * a + m
  {
  }

  /** Every instant stands for at most `m` requests. */
  lemma {:induction false} TakenPerInstant(times: seq<real>, schedule: seq<bool>, m: nat, k: nat, cutoff: real)
    requires Chronological(times) && AtMostTogether(times, m) && k <= |times| == |schedule|
    ensures TakenAfter(times, schedule, k, cutoff) <= m * |SlidingWindow.After(Instants(times, schedule, k), cutoff)|
    decreases k
  {
    if k > 0 {
      var f, t := GroupStart(times, k), times[k - 1];
      var before, now := Instants(times, schedule, f), Instants(times, schedule, k);
      TakenPerInstant(times, schedule, m, f, cutoff);
      GroupTakes(times, schedule, f, k, cutoff, t);
      GroupIsSmall(times, m, k);
      InstantsUpTo(times, schedule, f);
      LaterWith(before, t, cutoff);
      var a, b := |SlidingWindow.After(before, cutoff)|, |SlidingWindow.After(now, cutoff)|;
      SubsetSize(SlidingWindow.After(before, cutoff), SlidingWindow.After(now, cutoff));
      ProductGrows(m, a, b);
    }
  }

  /** How many requests the window that ends with an allowed one may hold, over all runs. */
  ghost predicate RequestBound(limit: int, window: int, m: nat, bound: int) {
    forall times: seq<real>, k: nat |
      Chronological(times) && AtMostTogether(times, m) && k < |times| && AllowedBy(times, limit, window)[k] ::
      TakenAfter(times, AllowedBy(times, limit, window), k + 1, times[k] - window as real) <= bound
  }

  lemma {:induction false} AtMostProduct(times: seq<real>, limit: int, window: int, m: nat, k: nat)
    requires window > 0 && Chronological(times) && AtMostTogether(times, m)
    requires k < |times| && AllowedBy(times, limit, window)[k]
    ensures limit >= 1 && m >= 1
    ensures TakenAfter(times, AllowedBy(times, limit, window), k + 1, times[k] - window as real) <= m * limit
  {
    var cutoff := times[k] - window as real;
    var allowed := AllowedBy(times, limit, window);
    SlidingWindow.AnswerByRecent(times, limit, window, k);
    SomeMember(SlidingWindow.Recent(times[..k + 1], window, times[k]), times[k]);
    GroupIsSmall(times, m, k + 1);
    TakenPerInstant(times, allowed, m, k + 1, cutoff);
    FewInstants(times, limit, window, k);
    ProductGrows(m, |SlidingWindow.After(Instants(times, allowed, k + 1), cutoff)|, limit);
  }

  lemma SomeMember(s: set<real>, x: real)
    requires x in s
    ensures |s| >= 1
  {
    SizeWith(s - {x}, x);
    assert (s - {x}) + {x} == s;
  }

  // ----- The run that reaches it -----

  /** `n * step`, counted up. */
  function Tick(n: nat, step: real): real {
    if n == 0 then 0.0 else Tick(n - 1, step) + step
  }

  lemma {:induction false} TickIsProduct(n: nat, step: real)
    ensures Tick(n, step) == n as real * step
  {
    if n > 0 {
      TickIsProduct(n - 1, step);
      NextProduct((n - 1) as real, step);
      assert n as real == (n - 1) as real + 1.0;
    }
  }

  lemma NextProduct(x: real, step: real)
    ensures (x + 1.0) * step == x * step + step
  {
  }

  /** `n` instants a step apart, with `m` requests at each. */
  function Groups(m: nat, n: nat, step: real): seq<real> {
    if n == 0 then [] else Groups(m, n - 1, step) + seq(m, _ => Tick(n - 1, step))
  }

  /** What such a run is like. */
  lemma {:induction false} GroupsFacts(m: nat, n: nat, step: real)
    requires step > 0.0
    ensures |Groups(m, n, step)| == m * n
    ensures forall i :: 0 <= i < |Groups(m, n, step)| ==> 0.0 <= Groups(m, n, step)[i] < Tick(n, step)
    ensures Chronological(Groups(m, n, step)) && AtMostTogether(Groups(m, n, step), m)
    ensures Tick(n, step) >= 0.0
  {
    if n > 0 {
      GroupsFacts(m, n - 1, step);
      ProductGrows(m, n - 1, n);
      GroupAppended(Groups(m, n - 1, step), m, Tick(n - 1, step));
    }
  }

  lemma GroupAppended(times: seq<real>, m: nat, t: real)
    requires Chronological(times) && AtMostTogether(times, m)
    requires 0.0 <= t && forall i :: 0 <= i < |times| ==> times[i] < t
    ensures Chronological(times + seq(m, _ => t)) && AtMostTogether(times + seq(m, _ => t), m)
  {
    var more := times + seq(m, _ => t);
    forall i, j | 0 <= i && i + m <= j < |more| ensures more[i] != more[j] {
      if j < |times| {
        assert times[i] != times[j];
      }
    }
  }

  lemma {:induction false} GroupsInstants(m: nat, n: nat, step: real)
    ensures |Elements(Groups(m, n, step))| <= n
  {
    if n > 0 {
      GroupsInstants(m, n - 1, step);
      var before := Elements(Groups(m, n - 1, step));
      SizeWith(before, Tick(n - 1, step));
      SubsetSize(Elements(Groups(m, n, step)), before + {Tick(n - 1, step)});
    }
  }

  /** A run within one window, with no more instants than the limit, is allowed entirely. */
  lemma FewInstantsAllAllowed(times: seq<real>, limit: int, window: int, k: nat)
    requires window > 0 && Chronological(times) && k < |times| && |Elements(times)| <= limit
    ensures AllowedBy(times, limit, window)[k]
  {
    SlidingWindow.AnswerByRecent(times, limit, window, k);
    SubsetSize(SlidingWindow.Recent(times[..k + 1], window, times[k]), Elements(times));
  }

  lemma {:induction false} AllTaken(times: seq<real>, schedule: seq<bool>, k: nat, cutoff: real)
    requires k <= |times| == |schedule|
    requires forall i :: 0 <= i < k ==> schedule[i] && times[i] > cutoff
    ensures Taken(schedule, k) == TakenAfter(times, schedule, k, cutoff) == k
  {
    if k > 0 {
      AllTaken(times, schedule, k - 1, cutoff);
    }
  }

  /** `m` requests at each of `limit` instants within a second. */
  function Crowd(m: nat, limit: nat): seq<real>
    requires limit > 0
  {
    Groups(m, limit, 1.0 / limit as real)
  }

  lemma CrowdWithinSecond(m: nat, limit: nat)
    requires limit > 0
    ensures var times := Crowd(m, limit);
            && |times| == m * limit && Chronological(times) && AtMostTogether(times, m)
            && (forall i :: 0 <= i < |times| ==> 0.0 <= times[i] < 1.0)
  {
    var step := 1.0 / limit as real;
    GroupsFacts(m, limit, step);
    TickIsProduct(limit, step);
    assert limit as real * step == 1.0;
  }

  /** Requests of the first second that are all taken, and all taken in any longer window. */
  ghost predicate AllTakenAtOnce(times: seq<real>, schedule: seq<bool>) {
    && |times| == |schedule|
    && forall i :: 0 <= i < |times| ==> 0.0 <= times[i] < 1.0 && schedule[i]
  }

  lemma CrowdIsAllowed(m: nat, limit: nat, window: int)
    requires limit > 0 && window > 0
    ensures var times := Crowd(m, limit);
            && |times| == m * limit && Chronological(times) && AtMostTogether(times, m)
            && AllTakenAtOnce(times, AllowedBy(times, limit, window))
  {
    var times := Crowd(m, limit);
    CrowdWithinSecond(m, limit);
    GroupsInstants(m, limit, 1.0 / limit as real);
    forall i | 0 <= i < |times| ensures AllowedBy(times, limit, window)[i] {
      FewInstantsAllAllowed(times, limit, window, i);
    }
  }

  lemma AllCounted(times: seq<real>, schedule: seq<bool>, window: int, k: nat)
    requires AllTakenAtOnce(times, schedule) && window > 0 && k < |times|
    ensures schedule[k]
    ensures TakenAfter(times, schedule, k + 1, times[k] - window as real) == k + 1
  {
    AllTaken(times, schedule, k + 1, times[k] - window as real);
  }

  lemma CrowdFillsWindow(m: nat, limit: nat, window: int) returns (times: seq<real>, k: nat)
    requires limit > 0 && m > 0 && window > 0
    ensures Chronological(times) && AtMostTogether(times, m) && k < |times| && AllowedBy(times, limit, window)[k]
    ensures TakenAfter(times, AllowedBy(times, limit, window), k + 1, times[k] - window as real) == m * limit
  {
    times := Crowd(m, limit);
    CrowdIsAllowed(m, limit, window);
    ProductGrows(m, 1, limit);
    k := |times| - 1;
    AllCounted(times, AllowedBy(times, limit, window), window, k);
  }

  /** A limiter of `limit` instants a window admits up to `m * limit` requests a window when `m`
      may arrive together: this bound holds in every run, and no smaller one does. */
  lemma RequestBoundIff(limit: int, window: int, m: nat, bound: int)
    requires window > 0
    ensures RequestBound(limit, window, m, bound) <==> limit <= 0 || m == 0 || m * limit <= bound
  {
    if limit <= 0 || m == 0 || m * limit <= bound {
      forall times: seq<real>, k: nat |
        Chronological(times) && AtMostTogether(times, m) && k < |times| && AllowedBy(times, limit, window)[k]
        ensures TakenAfter(times, AllowedBy(times, limit, window), k + 1, times[k] - window as real) <= bound
      {
        AtMostProduct(times, limit, window, m, k);
      }
    } else {
      var times, k := CrowdFillsWindow(m, limit, window);
      assert !RequestBound(limit, window, m, bound);
    }
  }

  // ----- Compared with the per-minute strategy -----

  /** At most `limit` requests in the minute that ends with an allowed one. */
  ghost predicate AlwaysFeasible(limit: int, m: nat) {
    forall times: seq<real> | Chronological(times) && AtMostTogether(times, m) ::
      Feasible(times, limit, Sliding(times, limit))
  }

  /** The strategy never accepts fewer requests than the limiter allows. */
  ghost predicate NeverAhead(limit: int, m: nat) {
    forall times: seq<real>, k: nat | Chronological(times) && AtMostTogether(times, m) && k <= |times| ::
      Taken(Sliding(times, limit), k) <= Taken(Greedy(times, limit), k)
  }

  lemma FactorAtMostOne(m: nat, limit: int)
    ensures limit <= 0 || m == 0 || m * limit <= limit <==> limit <= 0 || m <= 1
  {
    if limit > 0 && m > 1 {
      assert (m - 1) * limit > 0;
    }
  }

  /** The sliding window keeps to its limit in requests if and only if no two of them can
      arrive at the same instant, or it allows nothing. */
  lemma AlwaysFeasibleIffAlone(limit: int, m: nat)
    ensures AlwaysFeasible(limit, m) <==> limit <= 0 || m <= 1
  {
    RequestBoundIff(limit, 60, m, limit);
    FactorAtMostOne(m, limit);
    if RequestBound(limit, 60, m, limit) {
      forall times: seq<real> | Chronological(times) && AtMostTogether(times, m)
        ensures Feasible(times, limit, Sliding(times, limit))
      {
      }
    }
    if AlwaysFeasible(limit, m) {
      forall times: seq<real>, k: nat |
        Chronological(times) && AtMostTogether(times, m) && k < |times| && AllowedBy(times, limit, 60)[k]
        ensures TakenAfter(times, AllowedBy(times, limit, 60), k + 1, times[k] - 60 as real) <= limit
      {
        assert Feasible(times, limit, Sliding(times, limit));
      }
    }
  }

  /** Within the first minute a request is accepted only below the limit. */
  lemma {:induction false} AcceptsBelowLimit(times: seq<real>, limit: int, k: nat)
    requires Chronological(times) && k < |times| && times[k] < MINUTE
    ensures Greedy(times, limit)[k] ==> Taken(Greedy(times, limit), k) < limit
  {
    AcceptsBelowMax(times, limit, k);
    AllAfter(times, Greedy(times, limit), k, times[k] - MINUTE);
  }

  lemma {:induction false} AcceptsAtMostLimit(times: seq<real>, limit: nat, greedy: seq<bool>, k: nat)
    requires Chronological(times) && k <= |times| && greedy == Greedy(times, limit)
    requires k > 0 ==> times[k - 1] < MINUTE
    ensures Taken(greedy, k) <= limit
  {
    if k > 0 {
      assert k > 1 ==> times[k - 2] <= times[k - 1];
      AcceptsAtMostLimit(times, limit, greedy, k - 1);
      AcceptsBelowLimit(times, limit, k - 1);
    }
  }

  lemma {:induction false} AllAfter(times: seq<real>, schedule: seq<bool>, k: nat, cutoff: real)
    requires k <= |times| == |schedule|
    requires forall i :: 0 <= i < k ==> times[i] > cutoff
    ensures TakenAfter(times, schedule, k, cutoff) == Taken(schedule, k)
  {
    if k > 0 {
      AllAfter(times, schedule, k - 1, cutoff);
    }
  }

  lemma CrowdGetsAhead(m: nat, limit: nat)
    requires limit > 0 && m > 1
    ensures !NeverAhead(limit, m)
  {
    var times := Crowd(m, limit);
    CrowdIsAllowed(m, limit, 60);
    AllTaken(times, Sliding(times, limit), |times|, -1.0);
    assert times[|times| - 1] < MINUTE;
    AcceptsAtMostLimit(times, limit, Greedy(times, limit), |times|);
    FactorAtMostOne(m, limit);
    assert Taken(Sliding(times, limit), |times|) > Taken(Greedy(times, limit), |times|);
  }

  /** The strategy never falls behind the limiter if and only if no two requests can arrive at
      the same instant, or the limiter allows nothing. */
  lemma NeverAheadIffAlone(limit: int, m: nat)
    ensures NeverAhead(limit, m) <==> limit <= 0 || m <= 1
  {
    if limit <= 0 || m <= 1 {
      AlwaysFeasibleIffAlone(limit, m);
      forall times: seq<real>, k: nat | Chronological(times) && AtMostTogether(times, m) && k <= |times|
        ensures Taken(Sliding(times, limit), k) <= Taken(Greedy(times, limit), k)
      {
        GreedyStaysAhead(times, limit, Sliding(times, limit), k);
      }
    } else {
      CrowdGetsAhead(m, limit);
    }
  }
}
