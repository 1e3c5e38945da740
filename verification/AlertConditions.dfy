/**
 When an alert fires, said without the functions that decide it: the comparisons by their
 inequalities, the match by the texts around it, the alert by its fields.
 */
module AlertConditions {
  import opened OrderedDict
  import opened Anomalies
  import opened Alerts
  import opened AlertRuns

  // ----- The comparisons -----

  /** At every value exactly one of above, equal and below holds; the other three are their
      opposites, and a comparison that the service does not know never holds. */
  lemma OneOfThree(value: real, threshold: real)
    ensures Holds(Above, value, threshold) || Holds(Equal, value, threshold) || Holds(Below, value, threshold)
    ensures !(Holds(Above, value, threshold) && Holds(Below, value, threshold))
    ensures !(Holds(Above, value, threshold) && Holds(Equal, value, threshold))
    ensures !(Holds(Below, value, threshold) && Holds(Equal, value, threshold))
    ensures Holds(AtLeast, value, threshold) <==> !Holds(Below, value, threshold)
    ensures Holds(AtMost, value, threshold) <==> !Holds(Above, value, threshold)
    ensures Holds(Unequal, value, threshold) <==> !Holds(Equal, value, threshold)
    ensures !Holds(Unknown, value, threshold)
  {
  }

  /** Above keeps holding for larger values, below for smaller ones; equal holds at the
      threshold, and nowhere else. */
  lemma HoldsOnwards(value: real, other: real, threshold: real)
    ensures Holds(Above, value, threshold) && value <= other ==> Holds(Above, other, threshold)
    ensures Holds(Below, value, threshold) && other <= value ==> Holds(Below, other, threshold)
    ensures Holds(Equal, value, threshold) <==> value == threshold
  {
  }

  // ----- What one metric fires -----

  /** The name of the metric stands somewhere in the expression. */
  ghost predicate Mentions(expression: string, name: string) {
    exists before: string, after: string :: expression == before + name + after
  }

  lemma OccursMeans(name: string, text: string)
    ensures Occurs(name, text) <==> Mentions(text, name)
  {
    if Occurs(name, text) {
      var i :| 0 <= i <= |text| && OccursAt(name, text, i);
      assert text == text[..i] + name + text[i + |name|..];
    }
    if Mentions(text, name) {
      var before, after :| text == before + name + after;
      assert OccursAt(name, text, |before|);
    }
  }

  /** Whether an alert could fire under the key: the clock shows at least 300 s, and no alert
      of the key fired in the last 300 s. */
  ghost predicate Free(d: Desk, key: string, now: real) {
    && now >= 300.0
    && forall i :: 0 <= i < |d.records| && d.records[i].key == key ==> now - d.records[i].firedAt >= 300.0
  }

  /** The rule is about the metric and nothing keeps it from firing. */
  ghost predicate Ready(d: Desk, r: Rule, m: Metric, anomalous: bool, now: real) {
    && r.enabled && Mentions(r.expression, m.name) && Free(d, r.name + ":" + m.name, now)
    && !(anomalous && r.name == "anomaly")
  }

  lemma DueMeans(d: Desk, r: Rule, m: Metric, anomalous: bool, now: real)
    requires Inv(d)
    ensures Due(d, r, m, anomalous, now)
       <==> Ready(d, r, m, anomalous, now) && Holds(r.comparison, m.value, r.threshold)
  {
    DroppedIffRecent(d, r.name + ":" + m.name, now);
    OccursMeans(m.name, r.expression);
  }

  /** The alerts that processing the metric adds. */
  function NewAlerts(d: Desk, m: Metric, anomalous: bool, now: real): seq<Record>
    requires |d.records| <= |Process(d, m, anomalous, now).records|
  {
    Process(d, m, anomalous, now).records[|d.records|..]
  }

  lemma {:induction false} AmongDue(d: Desk, rules: Dict<Rule>, n: nat, m: Metric, anomalous: bool, now: real, i: nat)
    requires RulesNamed(rules) && i < n <= |rules|
    ensures RuleAlert(rules[i].1, m, now) in DueAlerts(d, rules, n, m, anomalous, now)
       <==> Due(d, rules[i].1, m, anomalous, now)
    decreases n
  {
    if i < n - 1 {
      AmongDue(d, rules, n - 1, m, anomalous, now, i);
      OtherAlert(rules, i, n - 1, m, now);
    } else {
      NotYetDue(d, rules, n - 1, m, anomalous, now, i);
    }
  }

  lemma OtherAlert(rules: Dict<Rule>, i: nat, j: nat, m: Metric, now: real)
    requires RulesNamed(rules) && i < j < |rules|
    ensures RuleAlert(rules[i].1, m, now) != RuleAlert(rules[j].1, m, now)
  {
    OwnKey(rules, j, m);
    assert KeyOf(rules[i].1, m) != KeyOf(rules[j].1, m);
  }

  lemma {:induction false} NotYetDue(d: Desk, rules: Dict<Rule>, n: nat, m: Metric, anomalous: bool, now: real, i: nat)
    requires RulesNamed(rules) && n <= i < |rules|
    ensures RuleAlert(rules[i].1, m, now) !in DueAlerts(d, rules, n, m, anomalous, now)
    decreases n
  {
    if n > 0 {
      NotYetDue(d, rules, n - 1, m, anomalous, now, i);
      OtherAlert(rules, n - 1, i, m, now);
    }
  }

  lemma {:induction false} DueAreOfRules(d: Desk, rules: Dict<Rule>, n: nat, m: Metric, anomalous: bool, now: real,
                                         alert: Record) returns (i: nat)
    requires n <= |rules| && alert in DueAlerts(d, rules, n, m, anomalous, now)
    ensures i < n && alert == RuleAlert(rules[i].1, m, now)
    decreases n
  {
    if Due(d, rules[n - 1].1, m, anomalous, now) && alert == RuleAlert(rules[n - 1].1, m, now) {
      i := n - 1;
    } else {
      i := DueAreOfRules(d, rules, n - 1, m, anomalous, now, alert);
    }
  }

  /** The alert of rule `i` of the table, by its fields. */
  function AlertOf(r: Rule, m: Metric, now: real): Record {
    Record(r.name + ":" + m.name, true, r.severity, now, m.value, Some(r.threshold), Firing, None, None)
  }

  /** The alert of an anomaly, by its fields. */
  function AnomalyOf(m: Metric, now: real): Record {
    Record("anomaly:" + m.name, false, Warning, now, m.value, None, Firing, None, None)
  }

  lemma {:induction false} NewAlertsAre(d: Desk, m: Metric, anomalous: bool, now: real)
    requires Inv(d)
    ensures |d.records| <= |Process(d, m, anomalous, now).records|
    ensures d.records == Process(d, m, anomalous, now).records[..|d.records|]
    ensures NewAlerts(d, m, anomalous, now)
         == (if anomalous && Free(d, "anomaly:" + m.name, now) then [AnomalyOf(m, now)] else [])
          + DueAlerts(d, d.rules, |d.rules|, m, anomalous, now)
  {
    ProcessFiresExactlyDue(d, m, anomalous, now);
    DroppedIffRecent(d, "anomaly:" + m.name, now);
  }

  lemma {:induction false} OnlyDueByRule(d: Desk, m: Metric, anomalous: bool, now: real, alert: Record)
    requires Inv(d) && alert.byRule
    ensures |d.records| <= |Process(d, m, anomalous, now).records|
    ensures alert in NewAlerts(d, m, anomalous, now) <==> alert in DueAlerts(d, d.rules, |d.rules|, m, anomalous, now)
  {
    NewAlertsAre(d, m, anomalous, now);
  }

  lemma RuleFiresIffDue(d: Desk, m: Metric, anomalous: bool, now: real, i: nat)
    requires Inv(d) && i < |d.rules|
    ensures |d.records| <= |Process(d, m, anomalous, now).records|
    ensures var r := d.rules[i].1;
            AlertOf(r, m, now) in NewAlerts(d, m, anomalous, now) <==>
            Ready(d, r, m, anomalous, now) && Holds(r.comparison, m.value, r.threshold)
  {
    var r := d.rules[i].1;
    assert AlertOf(r, m, now) == RuleAlert(r, m, now);
    OnlyDueByRule(d, m, anomalous, now, AlertOf(r, m, now));
    AmongDue(d, d.rules, |d.rules|, m, anomalous, now, i);
    DueMeans(d, r, m, anomalous, now);
  }

  /** A rule of the table fires on a metric if and only if it is ready and the inequality that
      its comparison names holds between the value and the threshold. */
  lemma RuleFiresIff(d: Desk, m: Metric, anomalous: bool, now: real, i: nat)
    requires Inv(d) && i < |d.rules|
    ensures |d.records| <= |Process(d, m, anomalous, now).records|
    ensures var r := d.rules[i].1;
            var fires := AlertOf(r, m, now) in NewAlerts(d, m, anomalous, now);
            var ready := Ready(d, r, m, anomalous, now);
            && (r.comparison == Above ==> (fires <==> ready && m.value > r.threshold))
            && (r.comparison == AtLeast ==> (fires <==> ready && m.value >= r.threshold))
            && (r.comparison == Below ==> (fires <==> ready && m.value < r.threshold))
            && (r.comparison == AtMost ==> (fires <==> ready && m.value <= r.threshold))
            && (r.comparison == Equal ==> (fires <==> ready && m.value == r.threshold))
            && (r.comparison == Unequal ==> (fires <==> ready && m.value != r.threshold))
            && (r.comparison == Unknown ==> !fires)
  {
    RuleFiresIffDue(d, m, anomalous, now, i);
  }

  /** Nothing else happens to the alerts: the earlier ones stay, and a new one is that of a
      rule of the table or, if the value is an anomaly, its key permitting, that of the anomaly. */
  lemma NothingElseFires(d: Desk, m: Metric, anomalous: bool, now: real)
    requires Inv(d)
    ensures |d.records| <= |Process(d, m, anomalous, now).records|
    ensures d.records == Process(d, m, anomalous, now).records[..|d.records|]
    ensures AnomalyOf(m, now) in NewAlerts(d, m, anomalous, now)
       <==> anomalous && Free(d, "anomaly:" + m.name, now)
    ensures forall alert | alert in NewAlerts(d, m, anomalous, now) && alert != AnomalyOf(m, now) ::
      exists i :: 0 <= i < |d.rules| && alert == AlertOf(d.rules[i].1, m, now)
  {
    NewAlertsAre(d, m, anomalous, now);
    var due := DueAlerts(d, d.rules, |d.rules|, m, anomalous, now);
    forall alert | alert in due
      ensures alert.byRule && exists i :: 0 <= i < |d.rules| && alert == AlertOf(d.rules[i].1, m, now)
    {
      var i := DueAreOfRules(d, d.rules, |d.rules|, m, anomalous, now, alert);
      assert alert == AlertOf(d.rules[i].1, m, now);
    }
  }

  // ----- The other steps -----

  /** In every run: acknowledging an id changes the one unresolved alert that has it, and
      resolving it as well; without such an alert nothing happens. */
  lemma {:induction false} StampsOne(steps: seq<Step>, id: AlertId, user: string, now: real)
    ensures var d := Run(steps);
            var acknowledged, resolved := Run(steps + [AcknowledgeAlert(id, user)]).records,
                                          Run(steps + [ResolveAlert(id, now)]).records;
            && ((forall i :: 0 <= i < |d.records| && IdOf(d.records[i]) == id ==> d.records[i].status == Resolved) ==>
                  acknowledged == d.records && resolved == d.records)
            && forall i :: 0 <= i < |d.records| && IdOf(d.records[i]) == id && d.records[i].status != Resolved ==>
                 && acknowledged
                    == d.records[i := d.records[i].(status := Acknowledged, acknowledgedBy := Some(user))]
                 && resolved == d.records[i := d.records[i].(status := Resolved, resolvedAt := Some(now))]
  {
    RunKeepsInv(steps);
    assert (steps + [AcknowledgeAlert(id, user)])[..|steps|] == steps;
    assert (steps + [ResolveAlert(id, now)])[..|steps|] == steps;
  }

  /** In every run the history refers to the last thousand alerts, in order. */
  lemma {:induction false} HistoryIsLatest(steps: seq<Step>)
    ensures var d := Run(steps);
            var n := |d.records|;
            && |d.history| == (if n < 1000 then n else 1000)
            && forall i :: 0 <= i < |d.history| ==> d.history[i] == n - |d.history| + i
  {
    RunKeepsInv(steps);
  }

  predicate Names(step: Step, name: string) {
    match step
    case PutRule(rule) => rule.name == name
    case RemoveRule(n) => n == name
    case _ => false
  }

  lemma {:induction false} RulesAfter(d: Desk, step: Step, name: string)
    ensures Lookup(Perform(d, step).rules, name)
         == if !Names(step, name) then Lookup(d.rules, name) else if step.PutRule? then Some(step.rule) else None
  {
    match step
    case PutRule(rule) => LookupPut(d.rules, rule.name, rule, name);
    case RemoveRule(n) => LookupWithout(d.rules, {n}, name);
    case ProcessMetric(m, anomalous, now) => ProcessKeepsRules(d, m, anomalous, now);
    case _ =>
  }

  lemma {:induction false} EvaluateKeepsRules(d: Desk, rules: Dict<Rule>, n: nat, m: Metric, now: real)
    requires n <= |rules|
    ensures Evaluate(d, rules, n, m, now).rules == d.rules
  {
    if n > 0 {
      EvaluateKeepsRules(d, rules, n - 1, m, now);
    }
  }

  lemma ProcessKeepsRules(d: Desk, m: Metric, anomalous: bool, now: real)
    ensures Process(d, m, anomalous, now).rules == d.rules
  {
    EvaluateKeepsRules(if anomalous then Attempt(d, AnomalyAlert(m, now)) else d, d.rules, |d.rules|, m, now);
  }

  /** In every run the table holds a rule under a name if and only if that was the last thing
      done to the name. */
  lemma {:induction false} TableHoldsLatest(steps: seq<Step>, name: string, rule: Rule)
    ensures Lookup(Run(steps).rules, name) == Some(rule)
       <==> && rule.name == name
            && exists k :: && 0 <= k < |steps| && steps[k] == PutRule(rule)
                           && forall j :: k < j < |steps| ==> !Names(steps[j], name)
    decreases |steps|
  {
    if steps != [] {
      var before, last := steps[..|steps| - 1], steps[|steps| - 1];
      TableHoldsLatest(before, name, rule);
      RulesAfter(Run(before), last, name);
      assert forall k :: 0 <= k < |before| ==> before[k] == steps[k];
    }
  }
}
