/** Time and the values that Redis keeps until an expiry instant. */
module Clock {
  import opened OrderedDict

  /** What a rate limiter answers. */
  datatype Verdict = Verdict(allowed: bool, remaining: int, retryAfter: int)

  /** A stored value with the instant at which its key expires. */
  datatype Expiring<T> = Expiring(value: T, expiresAt: real)

  /** What a read at `now` finds. */
  function Live<T>(slot: Option<Expiring<T>>, now: real): Option<T> {
    if slot.Some? && now < slot.value.expiresAt then Some(slot.value.value) else None
  }

  /** Python's `int(x)`: truncation toward zero. */
  function Truncate(x: real): int {
    if x >= 0.0 then x.Floor else -(-x).Floor
  }

  function Max(a: int, b: int): int {
    if a < b then b else a
  }

  /** Request times as a monotone clock shows them. */
  ghost predicate Chronological(times: seq<real>) {
    && (forall i :: 0 <= i < |times| ==> 0.0 <= times[i])
    && (forall i, j :: 0 <= i <= j < |times| ==> times[i] <= times[j])
  }

  lemma ChronologicalPrefix(times: seq<real>, k: nat)
    requires k <= |times| && Chronological(times)
    ensures Chronological(times[..k])
  {
  }

  lemma ChronologicalExtends(times: seq<real>, t: real)
    requires Chronological(times) && 0.0 <= t && (times == [] || times[|times| - 1] <= t)
    ensures Chronological(times + [t])
  {
  }

  lemma LastInstants(times: seq<real>, t: real)
    requires Chronological(times + [t])
    ensures Chronological(times) && 0.0 <= t
    ensures times != [] ==> 0.0 <= times[|times| - 1] <= t
  {
    assert (times + [t])[..|times|] == times;
    ChronologicalPrefix(times + [t], |times|);
    assert (times + [t])[|times|] == t;
    if times != [] {
      assert (times + [t])[|times| - 1] == times[|times| - 1];
    }
  }
}
