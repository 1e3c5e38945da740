/** What alerting guarantees over whole runs. */
module AlertRuns {
  import opened OrderedDict
  import opened Anomalies
  import opened Alerts

  // ---- Deduplication ----

  ghost predicate FiredWithin(records: seq<Record>, key: string, now: real) {
    exists i :: 0 <= i < |records| && records[i].key == key && now - records[i].firedAt < DEDUP_WINDOW
  }

  /** A candidate is dropped exactly if its key fired less than a window ago, or the clock
      itself still shows less than one window. */
  lemma DroppedIffRecent(d: Desk, key: string, now: real)
    requires Inv(d)
    ensures Duplicate(d, key, now) <==> now < DEDUP_WINDOW || FiredWithin(d.records, key, now)
  {
  }

  /** How many of the first `n` alerts fired under the key between the two instants. */
  function FiringsBetween(records: seq<Record>, key: string, from: real, to: real, n: nat): nat
    requires n <= |records|
  {
    if n == 0 then 0
    else if records[n - 1].key == key && from <= records[n - 1].firedAt <= to
    then FiringsBetween(records, key, from, to, n - 1) + 1
    else FiringsBetween(records, key, from, to, n - 1)
  }

  lemma {:induction false} FiringsSpread(records: seq<Record>, key: string, from: real, to: real, n: nat)
    returns (last: nat)
    requires n <= |records| && Spaced(records) && FiringsBetween(records, key, from, to, n) > 0
    ensures last < n && records[last].key == key && records[last].firedAt <= to
    ensures from + (FiringsBetween(records, key, from, to, n) - 1) as real * DEDUP_WINDOW <= records[last].firedAt
  {
    if records[n - 1].key == key && from <= records[n - 1].firedAt <= to {
      last := n - 1;
      if FiringsBetween(records, key, from, to, n - 1) > 0 {
        var before := FiringsSpread(records, key, from, to, n - 1);
        assert records[before].firedAt + DEDUP_WINDOW <= records[last].firedAt;
      }
    } else {
      last := FiringsSpread(records, key, from, to, n - 1);
    }
  }

  /** In every run, whatever the clock shows from call to call, an interval of length T holds
      at most floor(T / 300) + 1 alerts of one key. */
  lemma {:induction false} AlertsPerInterval(steps: seq<Step>, key: string, from: real, to: real)
    requires from <= to
    ensures FiringsBetween(Run(steps).records, key, from, to, |Run(steps).records|)
         <= ((to - from) / DEDUP_WINDOW).Floor + 1
  {
    RunKeepsInv(steps);
    var records := Run(steps).records;
    var n := FiringsBetween(records, key, from, to, |records|);
    if n > 0 {
      var last := FiringsSpread(records, key, from, to, |records|);
      assert (n - 1) as real <= (to - from) / DEDUP_WINDOW;
    }
  }

  // ---- What one metric fires ----

  /** The rule fires on this metric: it triggers, its key is not recent, and its key is not
      the one the anomaly alert of the same metric uses. */
  predicate Due(d: Desk, r: Rule, m: Metric, anomalous: bool, now: real) {
    Triggers(r, m) && !Duplicate(d, KeyOf(r, m), now) && !(anomalous && r.name == "anomaly")
  }

  function DueAlerts(d: Desk, rules: Dict<Rule>, n: nat, m: Metric, anomalous: bool, now: real): seq<Record>
    requires n <= |rules|
  {
    if n == 0 then []
    else if Due(d, rules[n - 1].1, m, anomalous, now)
    then DueAlerts(d, rules, n - 1, m, anomalous, now) + [RuleAlert(rules[n - 1].1, m, now)]
    else DueAlerts(d, rules, n - 1, m, anomalous, now)
  }

  lemma KeyNamesRule(a: string, b: string, metric: string)
    requires a + ":" + metric == b + ":" + metric
    ensures a == b
  {
    assert |a| == |b|;
    assert a == (a + ":" + metric)[..|a|] == (b + ":" + metric)[..|b|] == b;
  }

  /** No earlier rule in the loop has the key. */
  ghost predicate Untouched(rules: Dict<Rule>, n: nat, m: Metric, key: string)
    requires n <= |rules|
  {
    forall i :: 0 <= i < n ==> KeyOf(rules[i].1, m) != key
  }

  lemma OwnKey(rules: Dict<Rule>, n: nat, m: Metric)
    requires RulesNamed(rules) && n < |rules|
    ensures Untouched(rules, n, m, KeyOf(rules[n].1, m))
  {
    forall i | 0 <= i < n ensures KeyOf(rules[i].1, m) != KeyOf(rules[n].1, m) {
      DistinctByIndex(rules, i, n);
      assert rules[i] in rules && rules[n] in rules;
      if KeyOf(rules[i].1, m) == KeyOf(rules[n].1, m) {
        KeyNamesRule(rules[i].1.name, rules[n].1.name, m.name);
      }
    }
  }

  lemma {:induction false} EvaluateLeavesOthers(d: Desk, rules: Dict<Rule>, n: nat, m: Metric, now: real, key: string)
    requires n <= |rules| && Untouched(rules, n, m, key)
    ensures LastTime(Evaluate(d, rules, n, m, now), key) == LastTime(d, key)
  {
    if n > 0 {
      EvaluateLeavesOthers(d, rules, n - 1, m, now, key);
      assert KeyOf(rules[n - 1].1, m) != key;
    }
  }

  /** `d` is the state before the step and `d1` the one after the anomaly alert, if any. */
  ghost predicate AfterAnomaly(d: Desk, d1: Desk, m: Metric, anomalous: bool, now: real) {
    d1 == if anomalous then Attempt(d, AnomalyAlert(m, now)) else d
  }

  lemma AnomalyShadows(d: Desk, d1: Desk, r: Rule, m: Metric, anomalous: bool, now: real)
    requires AfterAnomaly(d, d1, m, anomalous, now)
    ensures Triggers(r, m) && !Duplicate(d1, KeyOf(r, m), now) <==> Due(d, r, m, anomalous, now)
  {
    if KeyOf(r, m) == AnomalyKey(m) {
      assert AnomalyKey(m) == "anomaly" + ":" + m.name;
      KeyNamesRule(r.name, "anomaly", m.name);
    } else {
      assert r.name == "anomaly" ==> KeyOf(r, m) == "anomaly" + ":" + m.name == AnomalyKey(m);
    }
  }

  lemma {:induction false} EvaluateFiresDue(d: Desk, d1: Desk, rules: Dict<Rule>, n: nat, m: Metric, anomalous: bool,
                                            now: real)
    requires n <= |rules| && RulesNamed(rules) && AfterAnomaly(d, d1, m, anomalous, now)
    ensures Evaluate(d1, rules, n, m, now).records == d1.records + DueAlerts(d, rules, n, m, anomalous, now)
  {
    if n > 0 {
      EvaluateFiresDue(d, d1, rules, n - 1, m, anomalous, now);
      OwnKey(rules, n - 1, m);
      EvaluateLeavesOthers(d1, rules, n - 1, m, now, KeyOf(rules[n - 1].1, m));
      AnomalyShadows(d, d1, rules[n - 1].1, m, anomalous, now);
    }
  }

  /** One metric fires the anomaly alert unless it is recent, then exactly the rules that are
      due in the state before the step: what one rule does depends on no other rule. */
  lemma {:induction false} ProcessFiresExactlyDue(d: Desk, m: Metric, anomalous: bool, now: real)
    requires Inv(d)
    ensures Process(d, m, anomalous, now).records
         == d.records
          + (if anomalous && !Duplicate(d, AnomalyKey(m), now) then [AnomalyAlert(m, now)] else [])
          + DueAlerts(d, d.rules, |d.rules|, m, anomalous, now)
  {
    var d1 := if anomalous then Attempt(d, AnomalyAlert(m, now)) else d;
    EvaluateFiresDue(d, d1, d.rules, |d.rules|, m, anomalous, now);
  }

  // ---- The life of an alert ----

  /** How far an alert has come. */
  function Stage(s: Status): nat {
    match s case Firing => 0 case Acknowledged => 1 case Resolved => 2
  }

  /** The firing of an alert never changes, its status only moves forward, and a resolved
      alert does not change at all. */
  ghost predicate Advances(a: Record, b: Record) {
    && b == a.(status := b.status, acknowledgedBy := b.acknowledgedBy, resolvedAt := b.resolvedAt)
    && Stage(a.status) <= Stage(b.status)
    && (a.status == Resolved ==> a == b)
  }

  ghost predicate AllAdvance(before: seq<Record>, after: seq<Record>) {
    && |before| <= |after|
    && forall i :: 0 <= i < |before| ==> Advances(before[i], after[i])
  }

  lemma {:induction false} EvaluateAdvances(d: Desk, rules: Dict<Rule>, n: nat, m: Metric, now: real)
    requires n <= |rules|
    ensures AllAdvance(d.records, Evaluate(d, rules, n, m, now).records)
  {
    if n > 0 {
      EvaluateAdvances(d, rules, n - 1, m, now);
    }
  }

  lemma AcknowledgeAdvances(d: Desk, id: AlertId, user: string)
    requires ActiveIsUnresolved(d.records, d.active)
    ensures AllAdvance(d.records, Acknowledge(d, id, user).records)
  {
  }

  lemma ResolveAdvances(d: Desk, id: AlertId, now: real)
    requires ActiveIsUnresolved(d.records, d.active)
    ensures AllAdvance(d.records, Resolve(d, id, now).records)
  {
  }

  lemma ProcessAdvances(d: Desk, m: Metric, anomalous: bool, now: real)
    ensures AllAdvance(d.records, Process(d, m, anomalous, now).records)
  {
    var d1 := if anomalous then Attempt(d, AnomalyAlert(m, now)) else d;
    EvaluateAdvances(d1, d1.rules, |d1.rules|, m, now);
  }

  lemma PerformAdvances(d: Desk, s: Step)
    requires Inv(d)
    ensures AllAdvance(d.records, Perform(d, s).records)
  {
    match s {
      case ProcessMetric(m, anomalous, now) => ProcessAdvances(d, m, anomalous, now);
      case AcknowledgeAlert(id, user) => AcknowledgeAdvances(d, id, user);
      case ResolveAlert(id, now) => ResolveAdvances(d, id, now);
      case PutRule(rule) =>
      case RemoveRule(name) =>
    }
  }

  /** From any moment of a run to any later one. */
  lemma {:induction false} RunAdvances(steps: seq<Step>, k: nat)
    requires k <= |steps|
    ensures AllAdvance(Run(steps[..k]).records, Run(steps).records)
    decreases |steps|
  {
    if k == |steps| {
      assert steps[..k] == steps;
    } else {
      var before := steps[..|steps| - 1];
      assert before[..k] == steps[..k];
      RunAdvances(before, k);
      RunKeepsInv(before);
      PerformAdvances(Run(before), steps[|steps| - 1]);
      forall i | 0 <= i < |Run(steps[..k]).records|
        ensures Advances(Run(steps[..k]).records[i], Run(steps).records[i])
      {
        assert Advances(Run(before).records[i], Run(steps).records[i]);
      }
    }
  }

  /** In every run, acknowledging or resolving an id finds something exactly if an unresolved
      alert has it; in particular an alert is resolved at most once. */
  lemma {:induction false} FoundIffUnresolved(steps: seq<Step>, id: AlertId)
    ensures var d := Run(steps);
            id in d.active <==>
            exists i :: 0 <= i < |d.records| && IdOf(d.records[i]) == id && d.records[i].status != Resolved
  {
    var d := Run(steps);
    RunKeepsInv(steps);
    if id in d.active {
      assert IdOf(d.records[d.active[id]]) == id;
    }
  }
}
