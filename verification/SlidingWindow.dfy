/**
 The sliding-window limiter: a sorted set of request instants under a key that expires.
 Members and scores coincide, so the sorted set is the set of its scores.
 */
module SlidingWindow {
  import opened OrderedDict
  import opened Clock
  import opened Sets

  type Scores = set<real>

  type Slot = Option<Expiring<Scores>>

  /** `zremrangebyscore(key, 0, start)` */
  function RemoveUpTo(scores: Scores, start: real): Scores {
    set s | s in scores && !(0.0 <= s <= start)
  }

  /** `zcount(key, from, to)` */
  function CountBetween(scores: Scores, from: real, to: real): nat {
    |set s | s in scores && from <= s <= to|
  }

  ghost predicate IsOldest(scores: Scores, s: real) {
    s in scores && forall x :: x in scores ==> s <= x
  }

  lemma {:induction false} OldestExists(scores: Scores)
    requires scores != {}
    ensures exists s :: IsOldest(scores, s)
    decreases scores
  {
    var x := Member(scores);
    var rest := scores - {x};
    if rest == {} {
      assert scores == {x};
      assert IsOldest(scores, x);
    } else {
      OldestExists(rest);
      var y :| IsOldest(rest, y);
      var s := if x < y then x else y;
      forall z | z in scores ensures s <= z {
        assert z == x || z in rest;
      }
      assert IsOldest(scores, s);
    }
  }

  /** `zrange(key, 0, 0)`: the member with the lowest score. */
  function Oldest(scores: Scores): (s: real)
    requires scores != {}
    ensures IsOldest(scores, s)
  {
    OldestExists(scores);
    assert forall s, t :: IsOldest(scores, s) && IsOldest(scores, t) ==> s == t;
    var s :| s in scores && forall x :: x in scores ==> s <= x;
    s
  }

  /** One check, given what the key holds. */
  function Check(scores: Scores, limit: int, window: int, now: real): (Scores, Verdict) {
    var start := now - window as real;
    var updated := RemoveUpTo(scores, start) + {now};
    var count := CountBetween(updated, start, now);
    var retry := if count <= limit then 0 else Truncate(Oldest(updated) + window as real - now);
    (updated, Verdict(count <= limit, Max(0, limit - count), retry))
  }

  function Stored(slot: Slot, now: real): Scores {
    match Live(slot, now)
    case Some(scores) => scores
    case None => {}
  }

  /** One check on the stored key, which is given `window` more seconds to live. */
  function CheckSlot(slot: Slot, limit: int, window: int, now: real): (Slot, Verdict) {
    var (scores, verdict) := Check(Stored(slot, now), limit, window, now);
    (Some(Expiring(scores, now + window as real)), verdict)
  }

  /** The key after a run of requests. */
  function SlotAfter(times: seq<real>, limit: int, window: int): Slot
    decreases |times|
  {
    if times == [] then None
    else CheckSlot(SlotAfter(times[..|times| - 1], limit, window), limit, window, times[|times| - 1]).0
  }

  /** The answer to request `k` of a run. */
  function Answer(times: seq<real>, limit: int, window: int, k: nat): Verdict
    requires k < |times|
  {
    CheckSlot(SlotAfter(times[..k], limit, window), limit, window, times[k]).1
  }

  // ----- What the key holds -----

  function After(instants: Scores, start: real): Scores {
    set s | s in instants && s > start
  }

  /** The distinct instants of the run in the `window` seconds that end at `now`. */
  function Recent(times: seq<real>, window: int, now: real): Scores {
    After(Elements(times), now - window as real)
  }

  /** Instants between 0 and `now`. */
  ghost predicate UpTo(scores: Scores, now: real) {
    forall s :: s in scores ==> 0.0 <= s <= now
  }

  lemma CheckOutcome(scores: Scores, limit: int, window: int, now: real)
    requires window > 0 && 0.0 <= now && UpTo(scores, now)
    ensures var (updated, verdict) := Check(scores, limit, window, now);
            && updated == After(scores, now - window as real) + {now}
            && verdict.allowed == (|updated| <= limit)
            && verdict.remaining == Max(0, limit - |updated|)
            && verdict.retryAfter == if verdict.allowed then 0 else (Oldest(updated) + window as real - now).Floor
  {
    var start := now - window as real;
    var updated := RemoveUpTo(scores, start) + {now};
    assert RemoveUpTo(scores, start) == After(scores, start);
    assert updated == set s | s in updated && start <= s <= now;
    assert Oldest(updated) in updated;
  }

  lemma {:induction false} ElementsUpTo(times: seq<real>, now: real)
    requires Chronological(times + [now])
    ensures UpTo(Elements(times + [now]), now)
  {
    var more := times + [now];
    forall s | s in Elements(more) ensures 0.0 <= s <= now {
      var i :| 0 <= i < |more| && more[i] == s;
      assert more[i] <= more[|times|] == now;
    }
  }

  lemma RecentGrows(times: seq<real>, window: int, last: real, now: real)
    requires window > 0 && last <= now
    ensures After(Recent(times, window, last), now - window as real) + {now} == Recent(times + [now], window, now)
  {
  }

  /** The key never expires while it holds an instant that a check would count: after any
      run, whatever was allowed or refused, the next check finds the instants of the run
      that are less than `window` old. */
  lemma {:induction false} SlotHoldsRecent(times: seq<real>, limit: int, window: int, now: real)
    requires window > 0 && Chronological(times + [now])
    ensures UpTo(Stored(SlotAfter(times, limit, window), now), now)
    ensures After(Stored(SlotAfter(times, limit, window), now), now - window as real) + {now}
         == Recent(times + [now], window, now)
    decreases |times|
  {
    LastInstants(times, now);
    if times == [] {
      assert Recent([] + [now], window, now) == {now};
      assert After({}, now - window as real) == {};
    } else {
      var before, last := times[..|times| - 1], times[|times| - 1];
      assert before + [last] == times;
      SlotHoldsRecent(before, limit, window, last);
      var stored := Stored(SlotAfter(before, limit, window), last);
      CheckOutcome(stored, limit, window, last);
      ElementsUpTo(before, last);
      RecentGrows(times, window, last, now);
      if last + window as real <= now {
        Forgotten(Recent(times, window, last), window, last, now);
      }
    }
  }

  /** When the key expires, nothing it holds is recent any more. */
  lemma Forgotten(scores: Scores, window: int, last: real, now: real)
    requires UpTo(scores, last) && last + window as real <= now
    ensures After(scores, now - window as real) == After({}, now - window as real)
  {
  }

  /** The answer to a request in terms of the run alone: the instants of the last `window`
      seconds are counted, its own included, whether they were allowed or refused. */
  lemma AnswerByRecent(times: seq<real>, limit: int, window: int, k: nat)
    requires window > 0 && Chronological(times) && k < |times|
    ensures var recent := Recent(times[..k + 1], window, times[k]);
            var answer := Answer(times, limit, window, k);
            && times[k] in recent
            && answer.allowed == (|recent| <= limit)
            && answer.remaining == Max(0, limit - |recent|)
            && answer.retryAfter == if answer.allowed then 0 else (Oldest(recent) + window as real - times[k]).Floor
  {
    var before, now := times[..k], times[k];
    assert times[..k + 1] == before + [now];
    ChronologicalPrefix(times, k + 1);
    SlotHoldsRecent(before, limit, window, now);
    CheckOutcome(Stored(SlotAfter(before, limit, window), now), limit, window, now);
  }

  /** A key without expiry: the same checks on the set alone. */
  function ScoresAfter(times: seq<real>, limit: int, window: int): Scores
    decreases |times|
  {
    if times == [] then {}
    else Check(ScoresAfter(times[..|times| - 1], limit, window), limit, window, times[|times| - 1]).0
  }

  lemma {:induction false} ScoresHoldRecent(times: seq<real>, limit: int, window: int, now: real)
    requires window > 0 && Chronological(times + [now])
    ensures UpTo(ScoresAfter(times, limit, window), now)
    ensures After(ScoresAfter(times, limit, window), now - window as real) + {now} == Recent(times + [now], window, now)
    decreases |times|
  {
    LastInstants(times, now);
    if times == [] {
      assert Recent([] + [now], window, now) == {now};
      assert After({}, now - window as real) == {};
    } else {
      var before, last := times[..|times| - 1], times[|times| - 1];
      assert before + [last] == times;
      ScoresHoldRecent(before, limit, window, last);
      CheckOutcome(ScoresAfter(before, limit, window), limit, window, last);
      ElementsUpTo(before, last);
      RecentGrows(times, window, last, now);
    }
  }

  /** The expiry of the key never changes an answer. */
  lemma {:induction false} ExpiryIsInvisible(times: seq<real>, limit: int, window: int, k: nat)
    requires window > 0 && Chronological(times) && k < |times|
    ensures Answer(times, limit, window, k) == Check(ScoresAfter(times[..k], limit, window), limit, window, times[k]).1
  {
    var before, now := times[..k], times[k];
    assert times[..k + 1] == before + [now];
    ChronologicalPrefix(times, k + 1);
    LastInstants(before, now);
    AnswerByRecent(times, limit, window, k);
    ScoresHoldRecent(before, limit, window, now);
    CheckOutcome(ScoresAfter(before, limit, window), limit, window, now);
  }

  // ----- At most `limit` instants in a window -----

  ghost predicate AllowedAt(times: seq<real>, limit: int, window: int, instant: real) {
    exists k :: 0 <= k < |times| && times[k] == instant && Answer(times, limit, window, k).allowed
  }

  lemma {:induction false} Latest(instants: Scores) returns (latest: real)
    requires instants != {}
    ensures latest in instants && forall x :: x in instants ==> x <= latest
    decreases |instants|
  {
    var x := Member(instants);
    latest := x;
    if instants != {x} {
      var rest := instants - {x};
      var y := Latest(rest);
      latest := if y < x then x else y;
      forall z | z in instants ensures z <= latest {
        assert z == x || z in rest;
      }
    }
  }

  lemma InstantIsRecent(times: seq<real>, limit: int, window: int, k: nat, x: real)
    requires Chronological(times) && k < |times| && AllowedAt(times, limit, window, x)
    requires times[k] - window as real < x <= times[k]
    ensures x in Recent(times[..k + 1], window, times[k])
  {
  }

  /** Any allowed instants that lie less than `window` apart are at most `limit`, although
      refused attempts are recorded too. Half-open windows of length `window`, closed on
      either side, are instances. */
  lemma AtMostLimitInstants(times: seq<real>, limit: int, window: int, instants: Scores)
    requires window > 0 && Chronological(times) && instants != {}
    requires forall x :: x in instants ==> AllowedAt(times, limit, window, x)
    requires forall x, y :: x in instants && y in instants ==> y - x < window as real
    ensures |instants| <= limit
  {
    var latest := Latest(instants);
    var k :| 0 <= k < |times| && times[k] == latest && Answer(times, limit, window, k).allowed;
    AnswerByRecent(times, limit, window, k);
    forall x | x in instants ensures x in Recent(times[..k + 1], window, latest) {
      InstantIsRecent(times, limit, window, k, x);
    }
    SubsetSize(instants, Recent(times[..k + 1], window, latest));
  }

  // ----- When to come back -----

  /** `s` is the `n`-th youngest of the instants: exactly `n - 1` are later. */
  ghost predicate IsYoungest(instants: Scores, n: nat, s: real) {
    s in instants && |After(instants, s)| == n - 1
  }

  lemma {:induction false} YoungestExists(instants: Scores, n: nat)
    requires 1 <= n <= |instants|
    ensures exists s :: IsYoungest(instants, n, s)
    decreases n
  {
    var latest := Latest(instants);
    if n == 1 {
      assert After(instants, latest) == {};
      assert IsYoungest(instants, 1, latest);
    } else {
      var rest := instants - {latest};
      YoungestExists(rest, n - 1);
      var s :| IsYoungest(rest, n - 1, s);
      assert After(instants, s) == After(rest, s) + {latest};
      assert IsYoungest(instants, n, s);
    }
  }

  lemma WaitingHelps(recent: Scores, limit: int, s: real, start: real, t: real)
    requires limit >= 1 && IsYoungest(recent, limit, s) && t !in recent
    ensures |After(recent, start) + {t}| <= limit <==> start >= s
  {
    if start >= s {
      SubsetSize(After(recent, start), After(recent, s));
    } else {
      assert s !in After(recent, s);
      SubsetSize(After(recent, s) + {s}, After(recent, start));
    }
  }

  /** The instants that count at the end of a run. */
  function Current(times: seq<real>, window: int): Scores
    requires times != []
  {
    Recent(times, window, times[|times| - 1])
  }

  lemma LastAnswer(times: seq<real>, limit: int, window: int)
    requires window > 0 && times != [] && Chronological(times)
    ensures var answer := Answer(times, limit, window, |times| - 1);
            var current := Current(times, window);
            && times[|times| - 1] in current
            && answer.allowed == (|current| <= limit)
            && answer.retryAfter == if answer.allowed then 0
                                    else (Oldest(current) + window as real - times[|times| - 1]).Floor
  {
    assert times[..|times| - 1 + 1] == times;
    AnswerByRecent(times, limit, window, |times| - 1);
  }

  /** The answer to one more request, in terms of what counted before it. */
  lemma NextAnswer(times: seq<real>, limit: int, window: int, t: real)
    requires window > 0 && times != [] && Chronological(times + [t])
    ensures Answer(times + [t], limit, window, |times|).allowed
            == (|After(Current(times, window), t - window as real) + {t}| <= limit)
  {
    LastInstants(times, t);
    LastAnswer(times + [t], limit, window);
    RecentGrows(times, window, times[|times| - 1], t);
  }

  lemma CurrentUpTo(times: seq<real>, window: int)
    requires times != [] && Chronological(times)
    ensures UpTo(Current(times, window), times[|times| - 1])
  {
  }

  /** After a refusal, a client that waits alone is allowed at `t` exactly when the `limit`-th
      youngest recorded instant is then at least `window` old. */
  lemma EarliestRetry(times: seq<real>, limit: int, window: int, s: real, t: real)
    requires window > 0 && limit >= 1 && times != [] && Chronological(times + [t])
    requires !Answer(times, limit, window, |times| - 1).allowed
    requires IsYoungest(Current(times, window), limit, s)
    ensures Answer(times + [t], limit, window, |times|).allowed <==> t >= s + window as real
  {
    var now, current := times[|times| - 1], Current(times, window);
    LastInstants(times, t);
    LastAnswer(times, limit, window);
    NextAnswer(times, limit, window, t);
    CurrentUpTo(times, window);
    RetryOnCurrent(current, limit, window, s, now, t);
  }

  lemma RetryOnCurrent(current: Scores, limit: int, window: int, s: real, now: real, t: real)
    requires 1 <= limit < |current| && IsYoungest(current, limit, s) && now <= t
    requires now in current && forall x :: x in current ==> now - window as real < x <= now
    ensures |After(current, t - window as real) + {t}| <= limit <==> t >= s + window as real
  {
    if t > now {
      WaitingHelps(current, limit, s, t - window as real, t);
    } else {
      assert After(current, now - window as real) + {now} == current;
    }
  }

  /** Every refusal has such an instant to wait for. */
  lemma RefusalHasYoungest(times: seq<real>, limit: int, window: int) returns (s: real)
    requires window > 0 && limit >= 1 && times != [] && Chronological(times)
    requires !Answer(times, limit, window, |times| - 1).allowed
    ensures IsYoungest(Current(times, window), limit, s)
  {
    LastAnswer(times, limit, window);
    YoungestExists(Current(times, window), limit);
    s :| IsYoungest(Current(times, window), limit, s);
  }

  lemma AfterOldest(instants: Scores, s: real)
    requires IsOldest(instants, s)
    ensures |After(instants, s)| + 1 == |instants|
  {
    assert instants == After(instants, s) + {s};
  }

  lemma OldestIsNotYoungest(instants: Scores, limit: int, s: real)
    requires 1 <= limit < |instants| && IsYoungest(instants, limit, s)
    ensures Oldest(instants) < s
  {
    AfterOldest(instants, Oldest(instants));
  }

  /** The delay computed from the oldest instant ends before the one that matters leaves. */
  lemma ReportedWait(instants: Scores, limit: int, window: int, s: real, now: real)
    requires 1 <= limit < |instants| && IsYoungest(instants, limit, s)
    requires now in instants && forall x :: x in instants ==> now - window as real < x <= now
    ensures var r := (Oldest(instants) + window as real - now).Floor;
            0 <= r < window && now + r as real < s + window as real
  {
    OldestIsNotYoungest(instants, limit, s);
  }

  lemma RefusalWait(times: seq<real>, limit: int, window: int) returns (s: real)
    requires window > 0 && limit >= 1 && times != [] && Chronological(times)
    requires !Answer(times, limit, window, |times| - 1).allowed
    ensures IsYoungest(Current(times, window), limit, s)
    ensures var r := Answer(times, limit, window, |times| - 1).retryAfter;
            0 <= r < window && times[|times| - 1] + r as real < s + window as real
  {
    LastAnswer(times, limit, window);
    CurrentUpTo(times, window);
    s := RefusalHasYoungest(times, limit, window);
    ReportedWait(Current(times, window), limit, window, s, times[|times| - 1]);
  }

  /** The reported delay is a whole number of seconds in `[0, window)`, and always too short:
      a client that retries alone after exactly that long is refused. */
  lemma ReportedRetryIsTooEarly(times: seq<real>, limit: int, window: int)
    requires window > 0 && limit >= 1 && times != [] && Chronological(times)
    requires !Answer(times, limit, window, |times| - 1).allowed
    ensures var r := Answer(times, limit, window, |times| - 1).retryAfter;
            && 0 <= r < window
            && !Answer(times + [times[|times| - 1] + r as real], limit, window, |times|).allowed
  {
    var s := RefusalWait(times, limit, window);
    var retry := times[|times| - 1] + Answer(times, limit, window, |times| - 1).retryAfter as real;
    ChronologicalExtends(times, retry);
    EarliestRetry(times, limit, window, s, retry);
  }
}
