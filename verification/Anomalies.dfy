/** The anomaly detector: one bounded window per series, and a z-score test of its last value. */
module Anomalies {

  /** The smallest window on which the detector gives a verdict. */
  const WARM_UP := 10

  /** A data point; `labels` are in key order. */
  datatype Metric = Metric(name: string, value: real, labels: seq<(string, string)>)

  function Joined(labels: seq<(string, string)>): string {
    if labels == [] then ""
    else
      var head := labels[0].0 + "=" + labels[0].1;
      if |labels| == 1 then head else head + ":" + Joined(labels[1..])
  }

  /** The series a metric belongs to: its name and labels. */
  function SeriesKey(m: Metric): string {
    m.name + ":" + Joined(m.labels)
  }

  // ---- Windows ----

  /** The last `n` elements, or all of them. */
  function LastOf<T>(s: seq<T>, n: nat): (r: seq<T>)
    ensures |r| <= n && |r| <= |s|
    ensures |s| <= n ==> r == s
    ensures |s| > n ==> r == s[|s| - n..]
  {
    if |s| <= n then s else s[|s| - n..]
  }

  /** Appending to a deque that holds at most `n` elements. */
  function Push<T>(window: seq<T>, n: nat, v: T): seq<T> {
    LastOf(window + [v], n)
  }

  lemma PushKeepsLast<T>(s: seq<T>, n: nat, v: T)
    ensures Push(LastOf(s, n), n, v) == LastOf(s + [v], n)
  {
  }

  function WindowOf(windows: map<string, seq<real>>, key: string): seq<real> {
    if key in windows then windows[key] else []
  }

  function WindowsAfter(metrics: seq<Metric>, n: nat): map<string, seq<real>> {
    if metrics == [] then map[]
    else
      var before := WindowsAfter(metrics[..|metrics| - 1], n);
      var m := metrics[|metrics| - 1];
      before[SeriesKey(m) := Push(WindowOf(before, SeriesKey(m)), n, m.value)]
  }

  /** The values of one series, in order of arrival. */
  function StreamOf(metrics: seq<Metric>, key: string): seq<real> {
    if metrics == [] then []
    else
      var before := StreamOf(metrics[..|metrics| - 1], key);
      var m := metrics[|metrics| - 1];
      if SeriesKey(m) == key then before + [m.value] else before
  }

  /** Each window is the end of its own series, whatever arrives under other keys. */
  lemma {:induction false} WindowIsEndOfStream(metrics: seq<Metric>, n: nat, key: string)
    ensures WindowOf(WindowsAfter(metrics, n), key) == LastOf(StreamOf(metrics, key), n)
    decreases |metrics|
  {
    if metrics != [] {
      var before := metrics[..|metrics| - 1];
      WindowIsEndOfStream(before, n, key);
      PushKeepsLast(StreamOf(before, key), n, metrics[|metrics| - 1].value);
    }
  }

  // ---- Statistics ----

  function Sum(v: seq<real>, k: nat): real
    requires k <= |v|
  {
    if k == 0 then 0.0 else Sum(v, k - 1) + v[k - 1]
  }

  function Mean(v: seq<real>): real
    requires v != []
  {
    Sum(v, |v|) / |v| as real
  }

  function Square(x: real): (r: real)
    ensures r >= 0.0
  {
    x * x
  }

  lemma ProductPositive(x: real, y: real)
    requires x > 0.0 && y > 0.0
    ensures x * y > 0.0
  {
  }

  lemma ProductNonNegative(x: real, y: real)
    requires x >= 0.0 && y >= 0.0
    ensures x * y >= 0.0
  {
  }

  lemma SquareGrows(x: real, y: real)
    requires x > y >= 0.0
    ensures Square(x) > Square(y)
  {
    var d := x - y;
    ProductPositive(d, x);
    ProductNonNegative(y, d);
    assert Square(x) == Square(y) + y * d + d * x by {
      assert Square(x) == (y + d) * x;
      assert (y + d) * x == y * x + d * x;
      assert y * x == y * (y + d);
    }
  }

  lemma SquareOpposite(x: real)
    ensures Square(-x) == Square(x)
  {
  }

  lemma SquareZero(x: real)
    ensures Square(x) == 0.0 <==> x == 0.0
  {
    if x > 0.0 {
      SquareGrows(x, 0.0);
    } else if x < 0.0 {
      SquareGrows(-x, 0.0);
      SquareOpposite(x);
    }
  }

  /** The squared deviations of the first `k` values from `m`, added up. */
  function Spread(v: seq<real>, m: real, k: nat): (r: real)
    requires k <= |v|
    ensures r >= 0.0
  {
    if k == 0 then 0.0 else Spread(v, m, k - 1) + Square(v[k - 1] - m)
  }

  /** The sample variance. */
  function Variance(v: seq<real>): real
    requires |v| >= 2
  {
    Spread(v, Mean(v), |v|) / (|v| - 1) as real
  }

  /** The verdict on `current` after the values `earlier`, over squared deviations. */
  predicate Anomalous(earlier: seq<real>, current: real, threshold: real) {
    && |earlier| >= 2
    && Variance(earlier) != 0.0
    && (threshold < 0.0 || Square(current - Mean(earlier)) > Square(threshold) * Variance(earlier))
  }

  /** The detector's answer for a whole window, whose last value is the current one. */
  predicate Detects(window: seq<real>, threshold: real) {
    && |window| >= WARM_UP
    && Anomalous(window[..|window| - 1], window[|window| - 1], threshold)
  }

  // ---- The z-score and the squared form ----

  function Abs(x: real): real {
    if x < 0.0 then -x else x
  }

  lemma QuotientExceeds(x: real, y: real, t: real)
    requires y > 0.0
    ensures x / y > t <==> x > t * y
  {
  }

  lemma SquaresCompare(x: real, y: real)
    requires x >= 0.0 && y >= 0.0
    ensures x > y <==> Square(x) > Square(y)
  {
    if x > y {
      SquareGrows(x, y);
    } else if y > x {
      SquareGrows(y, x);
    }
  }

  lemma SquareOfProduct(t: real, sd: real)
    ensures Square(t * sd) == Square(t) * Square(sd)
  {
  }

  lemma ProductSign(t: real, sd: real)
    requires sd > 0.0
    ensures t >= 0.0 ==> t * sd >= 0.0
    ensures t < 0.0 ==> t * sd < 0.0
  {
  }

  lemma AbsOfQuotient(d: real, sd: real)
    requires sd > 0.0
    ensures Abs(d / sd) == Abs(d) / sd
  {
  }

  lemma ZTest(d: real, sd: real, t: real)
    requires sd > 0.0
    ensures Abs(d / sd) > t <==> t < 0.0 || Square(d) > Square(t) * Square(sd)
  {
    AbsOfQuotient(d, sd);
    QuotientExceeds(Abs(d), sd, t);
    ProductSign(t, sd);
    if t >= 0.0 {
      SquaresCompare(Abs(d), t * sd);
      SquareOfProduct(t, sd);
      SquareOpposite(d);
    }
  }

  /** With `sd` the standard deviation, the test `abs((current - mean) / sd) > threshold`
      is the squared comparison. */
  lemma ZScoreIffAnomalous(earlier: seq<real>, current: real, threshold: real, sd: real)
    requires |earlier| >= 2
    requires sd >= 0.0 && Square(sd) == Variance(earlier)
    ensures Anomalous(earlier, current, threshold)
       <==> sd != 0.0 && Abs((current - Mean(earlier)) / sd) > threshold
  {
    SquareZero(sd);
    if sd != 0.0 {
      ZTest(current - Mean(earlier), sd, threshold);
    }
  }

  // ---- Rescaling ----

  function Affine(a: real, b: real, x: real): real {
    a * x + b
  }

  function Rescale(v: seq<real>, a: real, b: real): (r: seq<real>)
    ensures |r| == |v|
    ensures forall i :: 0 <= i < |v| ==> r[i] == Affine(a, b, v[i])
  {
    seq(|v|, i requires 0 <= i < |v| => Affine(a, b, v[i]))
  }

  lemma Distribute(a: real, b: real, s: real, x: real, k: real)
    ensures (a * s + b * k) + (a * x + b) == a * (s + x) + b * (k + 1.0)
  {
  }

  lemma {:induction false} SumRescaled(v: seq<real>, a: real, b: real, k: nat)
    requires k <= |v|
    ensures Sum(Rescale(v, a, b), k) == a * Sum(v, k) + b * k as real
  {
    if k > 0 {
      SumRescaled(v, a, b, k - 1);
      Distribute(a, b, Sum(v, k - 1), v[k - 1], (k - 1) as real);
    }
  }

  lemma QuotientRescaled(a: real, b: real, s: real, n: real)
    requires n > 0.0
    ensures (a * s + b * n) / n == Affine(a, b, s / n)
  {
  }

  lemma QuotientScaled(a: real, s: real, n: real)
    requires n > 0.0
    ensures (a * s) / n == a * (s / n)
  {
  }

  lemma MeanRescaled(v: seq<real>, a: real, b: real)
    requires v != []
    ensures Mean(Rescale(v, a, b)) == Affine(a, b, Mean(v))
  {
    SumRescaled(v, a, b, |v|);
    QuotientRescaled(a, b, Sum(v, |v|), |v| as real);
  }

  lemma SquareRescaled(a: real, b: real, x: real, m: real)
    ensures Square(Affine(a, b, x) - Affine(a, b, m)) == Square(a) * Square(x - m)
  {
  }

  lemma {:induction false} SpreadRescaled(v: seq<real>, a: real, b: real, m: real, k: nat)
    requires k <= |v|
    ensures Spread(Rescale(v, a, b), Affine(a, b, m), k) == Square(a) * Spread(v, m, k)
  {
    if k > 0 {
      SpreadRescaled(v, a, b, m, k - 1);
      SquareRescaled(a, b, v[k - 1], m);
      Factor(Square(a), Spread(v, m, k - 1), Square(v[k - 1] - m));
    }
  }

  lemma Factor(a: real, x: real, y: real)
    ensures a * x + a * y == a * (x + y)
  {
  }

  lemma {:induction false} VarianceFromSpread(v: seq<real>, w: seq<real>, f: real)
    requires |v| == |w| >= 2
    requires Spread(w, Mean(w), |w|) == f * Spread(v, Mean(v), |v|)
    ensures Variance(w) == f * Variance(v)
  {
    QuotientScaled(f, Spread(v, Mean(v), |v|), (|v| - 1) as real);
  }

  lemma VarianceRescaled(v: seq<real>, a: real, b: real)
    requires |v| >= 2
    ensures Variance(Rescale(v, a, b)) == Square(a) * Variance(v)
  {
    MeanRescaled(v, a, b);
    SpreadRescaled(v, a, b, Mean(v), |v|);
    VarianceFromSpread(v, Rescale(v, a, b), Square(a));
  }

  lemma ComparisonRescaled(a: real, x: real, t: real, v: real)
    requires a > 0.0
    ensures a * x > t * (a * v) <==> x > t * v
    ensures a * v != 0.0 <==> v != 0.0
  {
  }

  /** Changing the unit of a series, even to a negative multiple, changes no verdict. */
  lemma AnomalousRescaled(earlier: seq<real>, current: real, threshold: real, a: real, b: real)
    requires a != 0.0
    ensures Anomalous(Rescale(earlier, a, b), Affine(a, b, current), threshold)
       <==> Anomalous(earlier, current, threshold)
  {
    if |earlier| >= 2 {
      MeanRescaled(earlier, a, b);
      VarianceRescaled(earlier, a, b);
      SquareRescaled(a, b, current, Mean(earlier));
      SquareZero(a);
      ComparisonRescaled(Square(a), Square(current - Mean(earlier)), Square(threshold), Variance(earlier));
    }
  }

  lemma RescalePrefix(v: seq<real>, a: real, b: real, k: nat)
    requires k <= |v|
    ensures Rescale(v, a, b)[..k] == Rescale(v[..k], a, b)
  {
  }

  /** The same for the detector's window. */
  lemma DetectsRescaled(window: seq<real>, threshold: real, a: real, b: real)
    requires a != 0.0
    ensures Detects(Rescale(window, a, b), threshold) <==> Detects(window, threshold)
  {
    if |window| >= WARM_UP {
      var earlier := window[..|window| - 1];
      RescalePrefix(window, a, b, |window| - 1);
      AnomalousRescaled(earlier, window[|window| - 1], threshold, a, b);
    }
  }

  // ---- Flat series ----

  predicate Flat(v: seq<real>) {
    forall i :: 0 <= i < |v| ==> v[i] == v[0]
  }

  lemma {:induction false} SumOfFlat(v: seq<real>, k: nat)
    requires k <= |v| && v != [] && Flat(v)
    ensures Sum(v, k) == k as real * v[0]
  {
    if k > 0 {
      SumOfFlat(v, k - 1);
      Distribute(0.0, v[0], 0.0, 0.0, (k - 1) as real);
    }
  }

  lemma {:induction false} SpreadZeroIff(v: seq<real>, m: real, k: nat)
    requires k <= |v|
    ensures Spread(v, m, k) == 0.0 <==> forall i :: 0 <= i < k ==> v[i] == m
  {
    if k > 0 {
      SpreadZeroIff(v, m, k - 1);
      SquareZero(v[k - 1] - m);
    }
  }

  lemma QuotientZero(x: real, n: real)
    requires n > 0.0
    ensures x / n == 0.0 <==> x == 0.0
    ensures x >= 0.0 ==> x / n >= 0.0
  {
  }

  lemma VarianceZeroIffFlat(v: seq<real>)
    requires |v| >= 2
    ensures Variance(v) >= 0.0
    ensures Variance(v) == 0.0 <==> Flat(v)
  {
    var m := Mean(v);
    SpreadZeroIff(v, m, |v|);
    QuotientZero(Spread(v, m, |v|), (|v| - 1) as real);
    if Flat(v) {
      SumOfFlat(v, |v|);
      assert m == v[0] by {
        QuotientRescaled(0.0, v[0], 0.0, |v| as real);
      }
    }
  }

  lemma SquareOfLarge(y: real)
    requires y >= 0.0
    ensures Square(y + 1.0) > y
  {
  }

  /** After a constant series no jump, however large, is an anomaly; after any other
      series some value is one. */
  lemma SomeValueAnomalousIffNotFlat(earlier: seq<real>, threshold: real)
    requires |earlier| >= 2
    ensures (exists x :: Anomalous(earlier, x, threshold)) <==> !Flat(earlier)
  {
    VarianceZeroIffFlat(earlier);
    if !Flat(earlier) {
      var bound := Square(threshold) * Variance(earlier);
      assert bound >= 0.0;
      SquareOfLarge(bound);
      var x := Mean(earlier) + (bound + 1.0);
      assert x - Mean(earlier) == bound + 1.0;
      assert Anomalous(earlier, x, threshold);
    }
  }

  // ---- The detector object ----

  class AnomalyDetector {
    const windowSize: nat
    const threshold: real
    var metricWindows: map<string, seq<real>>
    /** Everything added so far. */
    ghost var added: seq<Metric>

    constructor (windowSize: nat, threshold: real)
      ensures this.windowSize == windowSize && this.threshold == threshold
      ensures Valid() && added == []
    {
      this.windowSize, this.threshold := windowSize, threshold;
      metricWindows, added := map[], [];
    }

    ghost predicate Valid()
      reads this
    {
      metricWindows == WindowsAfter(added, windowSize)
    }

    /** Files the value under its series and judges it against the end of that series. */
    method AddMetric(metric: Metric) returns (anomalous: bool)
      requires Valid()
      modifies this
      ensures Valid() && added == old(added) + [metric]
      ensures anomalous == Detects(LastOf(StreamOf(added, SeriesKey(metric)), windowSize), threshold)
    {
      var key := SeriesKey(metric);
      var window := Push(WindowOf(metricWindows, key), windowSize, metric.value);
      metricWindows := metricWindows[key := window];
      added := added + [metric];
      assert added[..|added| - 1] == old(added);
      WindowIsEndOfStream(added, windowSize, key);
      if |window| < WARM_UP {
        return false;
      }
      var earlier, current := window[..|window| - 1], window[|window| - 1];
      anomalous := Anomalous(earlier, current, threshold);
    }
  }
}
