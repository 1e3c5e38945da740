/**
 The verdict of the anomaly detector, said of the values alone: the newest one is judged against
 the ones before it, by their sample deviation.
 */
module Deviations {
  import opened Anomalies

  /** The newest value of a window is an anomaly if and only if at least nine came before it and
      it is more than `threshold` of their standard deviations `sd` away from their mean. */
  lemma NewestIsJudged(earlier: seq<real>, current: real, threshold: real, sd: real)
    requires |earlier| >= 2 ==> sd >= 0.0 && sd * sd == Variance(earlier)
    ensures Detects(earlier + [current], threshold)
       <==> && |earlier| >= 9 && sd != 0.0
            && (if current >= Mean(earlier) then (current - Mean(earlier)) / sd > threshold
                else (Mean(earlier) - current) / sd > threshold)
  {
    assert (earlier + [current])[..|earlier|] == earlier;
    if |earlier| >= 9 {
      ZScoreIffAnomalous(earlier, current, threshold, sd);
      if sd != 0.0 {
        AbsOfQuotient(current - Mean(earlier), sd);
      }
    }
  }

  // ----- The variance -----

  /** Two values deviate by half the square of their distance. */
  lemma TwoValuesVary(x: real, y: real)
    ensures Variance([x, y]) == (x - y) * (x - y) / 2.0
  {
    var v, m := [x, y], (x + y) / 2.0;
    assert Sum(v, 2) == Sum(v, 1) + y && Sum(v, 1) == Sum(v, 0) + x;
    assert Spread(v, m, 2) == Spread(v, m, 1) + Square(y - m) && Spread(v, m, 1) == Spread(v, m, 0) + Square(x - m);
    assert x - m == (x - y) / 2.0 && y - m == -((x - y) / 2.0);
    SquareOpposite((x - y) / 2.0);
    HalfSquared(x - y);
  }

  lemma HalfSquared(d: real)
    ensures Square(d / 2.0) == d * d / 4.0
  {
  }

  lemma {:induction false} SumOfPrefix(v: seq<real>, x: real, k: nat)
    requires k <= |v|
    ensures Sum(v + [x], k) == Sum(v, k)
  {
    if k > 0 {
      SumOfPrefix(v, x, k - 1);
    }
  }

  lemma {:induction false} SpreadOfPrefix(v: seq<real>, x: real, m: real, k: nat)
    requires k <= |v|
    ensures Spread(v + [x], m, k) == Spread(v, m, k)
  {
    if k > 0 {
      SpreadOfPrefix(v, x, m, k - 1);
    }
  }

  lemma MeanOnceMore(s: real, n: real)
    requires n > 0.0
    ensures (s + s / n) / (n + 1.0) == s / n
  {
    var m := s / n;
    assert s == m * n;
    assert s + m == m * (n + 1.0);
  }

  /** A value at the mean leaves the mean where it is, adds nothing to the deviations, and counts:
      the squared deviations of `n` values are shared by `n - 1`. */
  lemma MeanValueDilutes(v: seq<real>)
    requires |v| >= 2
    ensures var w := v + [Mean(v)];
            && Mean(w) == Mean(v)
            && Variance(w) * |v| as real == Variance(v) * (|v| - 1) as real
  {
    var w, m := v + [Mean(v)], Mean(v);
    SumOfPrefix(v, m, |v|);
    SpreadOfPrefix(v, m, m, |v|);
    assert |w| as real == |v| as real + 1.0;
    MeanOnceMore(Sum(v, |v|), |v| as real);
    SquareZero(m - m);
    assert Spread(w, m, |w|) == Spread(v, m, |v|);
    Undivide(Spread(v, m, |v|), |v| as real);
    Undivide(Spread(v, m, |v|), (|v| - 1) as real);
  }

  lemma Undivide(x: real, n: real)
    requires n != 0.0
    ensures x / n * n == x
  {
  }
}
