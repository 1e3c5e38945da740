/** Alerting: rules, deduplication per key, and the life of an alert. */
module Alerts {
  import opened OrderedDict
  import opened Anomalies

  const DEDUP_WINDOW := 300.0
  const HISTORY_LIMIT := 1000

  datatype Severity = Info | Warning | Error | Critical
  datatype Status = Firing | Resolved | Acknowledged
  datatype Comparison = Above | AtLeast | Below | AtMost | Equal | Unequal | Unknown

  datatype Rule = Rule(name: string, expression: string, threshold: real, comparison: Comparison,
                       severity: Severity, enabled: bool)

  /** An alert's id is the digest of its key and the firing time; the model keeps the pair. */
  datatype AlertId = AlertId(key: string, at: real)

  datatype Record = Record(key: string, byRule: bool, severity: Severity, firedAt: real, value: real,
                           threshold: Option<real>, status: Status, acknowledgedBy: Option<string>,
                           resolvedAt: Option<real>)

  function IdOf(r: Record): AlertId {
    AlertId(r.key, r.firedAt)
  }

  /** Every alert ever fired, with the active ones and the bounded history as references to
      them; the last firing time and the number of rule alerts of each key; the rules. */
  datatype Desk = Desk(records: seq<Record>, active: map<AlertId, nat>, history: seq<nat>,
                       last: map<string, real>, counts: map<string, nat>, rules: Dict<Rule>)

  const EMPTY := Desk([], map[], [], map[], map[], [])

  // ---- Firing ----

  function LastTime(d: Desk, key: string): real {
    if key in d.last then d.last[key] else 0.0
  }

  function Count(d: Desk, key: string): nat {
    if key in d.counts then d.counts[key] else 0
  }

  predicate Duplicate(d: Desk, key: string, now: real) {
    now - LastTime(d, key) < DEDUP_WINDOW
  }

  predicate OccursAt(name: string, text: string, i: nat) {
    i + |name| <= |text| && text[i..i + |name|] == name
  }

  /** Python's `name in text`. */
  predicate Occurs(name: string, text: string) {
    exists i :: 0 <= i <= |text| && OccursAt(name, text, i)
  }

  predicate Holds(c: Comparison, value: real, threshold: real) {
    match c
    case Above => value > threshold
    case AtLeast => value >= threshold
    case Below => value < threshold
    case AtMost => value <= threshold
    case Equal => value == threshold
    case Unequal => value != threshold
    case Unknown => false
  }

  /** The rule is enabled, is about the metric, and its comparison holds. */
  predicate Triggers(r: Rule, m: Metric) {
    r.enabled && Occurs(m.name, r.expression) && Holds(r.comparison, m.value, r.threshold)
  }

  function KeyOf(r: Rule, m: Metric): string {
    r.name + ":" + m.name
  }

  function AnomalyKey(m: Metric): string {
    "anomaly:" + m.name
  }

  function RuleAlert(r: Rule, m: Metric, now: real): Record {
    Record(KeyOf(r, m), true, r.severity, now, m.value, Some(r.threshold), Firing, None, None)
  }

  function AnomalyAlert(m: Metric, now: real): Record {
    Record(AnomalyKey(m), false, Warning, now, m.value, None, Firing, None, None)
  }

  /** A candidate alert: dropped if its key fired within the window, else fired. */
  function Attempt(d: Desk, alert: Record): Desk {
    if Duplicate(d, alert.key, alert.firedAt) then d
    else Desk(d.records + [alert], d.active[IdOf(alert) := |d.records|],
              Push(d.history, HISTORY_LIMIT, |d.records|), d.last[alert.key := alert.firedAt],
              if alert.byRule then d.counts[alert.key := Count(d, alert.key) + 1] else d.counts, d.rules)
  }

  /** The first `n` rules, each evaluated on the metric. */
  function Evaluate(d: Desk, rules: Dict<Rule>, n: nat, m: Metric, now: real): Desk
    requires n <= |rules|
  {
    if n == 0 then d
    else
      var before := Evaluate(d, rules, n - 1, m, now);
      var r := rules[n - 1].1;
      if Triggers(r, m) then Attempt(before, RuleAlert(r, m, now)) else before
  }

  function Process(d: Desk, m: Metric, anomalous: bool, now: real): Desk {
    var d1 := if anomalous then Attempt(d, AnomalyAlert(m, now)) else d;
    Evaluate(d1, d1.rules, |d1.rules|, m, now)
  }

  // ---- The life of an alert ----

  function Acknowledge(d: Desk, id: AlertId, user: string): Desk {
    if id !in d.active || d.active[id] >= |d.records| then d
    else
      var i := d.active[id];
      d.(records := d.records[i := d.records[i].(status := Acknowledged, acknowledgedBy := Some(user))])
  }

  function Resolve(d: Desk, id: AlertId, now: real): Desk {
    if id !in d.active || d.active[id] >= |d.records| then d
    else
      var i := d.active[id];
      d.(records := d.records[i := d.records[i].(status := Resolved, resolvedAt := Some(now))],
         active := d.active - {id})
  }

  datatype Step =
    | ProcessMetric(metric: Metric, anomalous: bool, now: real)
    | AcknowledgeAlert(id: AlertId, user: string)
    | ResolveAlert(id: AlertId, now: real)
    | PutRule(rule: Rule)
    | RemoveRule(name: string)

  function Perform(d: Desk, s: Step): Desk {
    match s
    case ProcessMetric(m, anomalous, now) => Process(d, m, anomalous, now)
    case AcknowledgeAlert(id, user) => Acknowledge(d, id, user)
    case ResolveAlert(id, now) => Resolve(d, id, now)
    case PutRule(rule) => d.(rules := Put(d.rules, rule.name, rule))
    case RemoveRule(name) => d.(rules := Pop(d.rules, name))
  }

  function Run(steps: seq<Step>): Desk {
    if steps == [] then EMPTY else Perform(Run(steps[..|steps| - 1]), steps[|steps| - 1])
  }

  // ---- The invariant ----

  /** Two firings under one key are a window apart, in order. */
  ghost predicate Spaced(records: seq<Record>) {
    forall i, j :: 0 <= i < j < |records| && records[i].key == records[j].key ==>
      records[i].firedAt + DEDUP_WINDOW <= records[j].firedAt
  }

  /** The last firing time of a key is that of its latest record. */
  ghost predicate LastIsLatest(records: seq<Record>, last: map<string, real>) {
    && (forall i :: 0 <= i < |records| ==> records[i].key in last && records[i].firedAt <= last[records[i].key])
    && (forall key :: key in last ==>
          exists i :: 0 <= i < |records| && records[i].key == key && records[i].firedAt == last[key])
  }

  /** The active alerts are the unresolved ones, each under its own id. */
  ghost predicate ActiveIsUnresolved(records: seq<Record>, active: map<AlertId, nat>) {
    && (forall id :: id in active ==>
          active[id] < |records| && IdOf(records[active[id]]) == id && records[active[id]].status != Resolved)
    && (forall i :: 0 <= i < |records| && records[i].status != Resolved ==>
          IdOf(records[i]) in active && active[IdOf(records[i])] == i)
  }

  ghost predicate Stamped(r: Record) {
    && (r.status == Resolved <==> r.resolvedAt.Some?)
    && (r.status == Acknowledged ==> r.acknowledgedBy.Some?)
    && (r.status == Firing ==> r.acknowledgedBy.None?)
    && r.firedAt >= DEDUP_WINDOW
  }

  /** How many of the first `n` alerts were fired by rules under the key. */
  function RuleFirings(records: seq<Record>, key: string, n: nat): nat
    requires n <= |records|
  {
    if n == 0 then 0
    else if records[n - 1].byRule && records[n - 1].key == key then RuleFirings(records, key, n - 1) + 1
    else RuleFirings(records, key, n - 1)
  }

  ghost predicate Counted(d: Desk) {
    forall key :: Count(d, key) == RuleFirings(d.records, key, |d.records|)
  }

  function Indices(n: nat): seq<nat> {
    seq(n, i => i)
  }

  ghost predicate AllStamped(records: seq<Record>) {
    forall i :: 0 <= i < |records| ==> Stamped(records[i])
  }

  /** Each rule is filed under its own name, once. */
  ghost predicate RulesNamed(rules: Dict<Rule>) {
    Distinct(rules) && forall e :: e in rules ==> e.0 == e.1.name
  }

  ghost predicate Inv(d: Desk) {
    && Spaced(d.records)
    && LastIsLatest(d.records, d.last)
    && ActiveIsUnresolved(d.records, d.active)
    && AllStamped(d.records)
    && Counted(d)
    && d.history == LastOf(Indices(|d.records|), HISTORY_LIMIT)
    && RulesNamed(d.rules)
  }

  // ---- Firing keeps the invariant ----

  lemma FiringIsSpaced(d: Desk, alert: Record)
    requires Spaced(d.records) && LastIsLatest(d.records, d.last)
    requires !Duplicate(d, alert.key, alert.firedAt)
    ensures Spaced(d.records + [alert])
  {
  }

  lemma FiringIsLatest(d: Desk, alert: Record)
    requires LastIsLatest(d.records, d.last)
    requires !Duplicate(d, alert.key, alert.firedAt)
    ensures LastIsLatest(d.records + [alert], d.last[alert.key := alert.firedAt])
  {
    var records, last := d.records + [alert], d.last[alert.key := alert.firedAt];
    var n := |d.records|;
    assert records[n] == alert;
    forall i | 0 <= i < |records| ensures records[i].key in last && records[i].firedAt <= last[records[i].key] {
      if i < n {
        assert records[i] == d.records[i] && d.records[i].key in d.last;
      }
    }
    forall key | key in last
      ensures exists i :: 0 <= i < |records| && records[i].key == key && records[i].firedAt == last[key]
    {
      if key != alert.key {
        var i :| 0 <= i < n && d.records[i].key == key && d.records[i].firedAt == d.last[key];
        assert records[i].key == key;
      }
    }
  }

  /** Because firings of a key are spaced, a new alert never takes the id of another one. */
  lemma FiringIsFreshlyNamed(d: Desk, alert: Record)
    requires LastIsLatest(d.records, d.last)
    requires !Duplicate(d, alert.key, alert.firedAt)
    ensures forall i :: 0 <= i < |d.records| ==> IdOf(d.records[i]) != IdOf(alert)
  {
  }

  lemma FiringKeepsActive(d: Desk, alert: Record)
    requires LastIsLatest(d.records, d.last) && ActiveIsUnresolved(d.records, d.active)
    requires !Duplicate(d, alert.key, alert.firedAt) && alert.status == Firing
    ensures ActiveIsUnresolved(d.records + [alert], d.active[IdOf(alert) := |d.records|])
  {
  }

  lemma {:induction false} RuleFiringsPrefix(a: seq<Record>, b: seq<Record>, key: string, n: nat)
    requires n <= |a| && n <= |b|
    requires forall i :: 0 <= i < n ==> a[i].key == b[i].key && a[i].byRule == b[i].byRule
    ensures RuleFirings(a, key, n) == RuleFirings(b, key, n)
  {
    if n > 0 {
      RuleFiringsPrefix(a, b, key, n - 1);
    }
  }

  lemma FiringIsCounted(d: Desk, alert: Record)
    requires Counted(d) && !Duplicate(d, alert.key, alert.firedAt)
    ensures Counted(Attempt(d, alert))
  {
    var d1 := Attempt(d, alert);
    forall key ensures Count(d1, key) == RuleFirings(d1.records, key, |d1.records|) {
      assert Count(d, key) == RuleFirings(d.records, key, |d.records|);
      RuleFiringsPrefix(d1.records, d.records, key, |d.records|);
    }
  }

  lemma HistoryExtends(n: nat)
    ensures Push(LastOf(Indices(n), HISTORY_LIMIT), HISTORY_LIMIT, n) == LastOf(Indices(n + 1), HISTORY_LIMIT)
  {
    PushKeepsLast(Indices(n), HISTORY_LIMIT, n);
    assert Indices(n) + [n] == Indices(n + 1);
  }

  lemma AttemptKeepsInv(d: Desk, alert: Record)
    requires Inv(d)
    requires alert.status == Firing && alert.acknowledgedBy.None? && alert.resolvedAt.None?
    ensures Inv(Attempt(d, alert)) && Attempt(d, alert).rules == d.rules
  {
    if !Duplicate(d, alert.key, alert.firedAt) {
      FiringIsSpaced(d, alert);
      FiringIsLatest(d, alert);
      FiringKeepsActive(d, alert);
      FiringIsCounted(d, alert);
      HistoryExtends(|d.records|);
      if alert.key in d.last {
        var i :| 0 <= i < |d.records| && d.records[i].key == alert.key && d.records[i].firedAt == d.last[alert.key];
        assert Stamped(d.records[i]);
      }
      assert Stamped(alert);
    }
  }

  lemma {:induction false} EvaluateKeepsInv(d: Desk, rules: Dict<Rule>, n: nat, m: Metric, now: real)
    requires Inv(d) && n <= |rules|
    ensures Inv(Evaluate(d, rules, n, m, now))
  {
    if n > 0 {
      EvaluateKeepsInv(d, rules, n - 1, m, now);
      AttemptKeepsInv(Evaluate(d, rules, n - 1, m, now), RuleAlert(rules[n - 1].1, m, now));
    }
  }

  lemma ProcessKeepsInv(d: Desk, m: Metric, anomalous: bool, now: real)
    requires Inv(d)
    ensures Inv(Process(d, m, anomalous, now))
  {
    var d1 := if anomalous then Attempt(d, AnomalyAlert(m, now)) else d;
    AttemptKeepsInv(d, AnomalyAlert(m, now));
    EvaluateKeepsInv(d1, d1.rules, |d1.rules|, m, now);
  }

  // ---- The other steps keep it ----

  /** `r` has the same firing as record `i`. */
  ghost predicate SameFiring(records: seq<Record>, i: nat, r: Record) {
    && i < |records|
    && r.key == records[i].key && r.firedAt == records[i].firedAt && r.byRule == records[i].byRule
  }

  lemma RestampKeepsSpacing(records: seq<Record>, last: map<string, real>, i: nat, r: Record)
    requires Spaced(records) && LastIsLatest(records, last) && SameFiring(records, i, r)
    ensures Spaced(records[i := r]) && LastIsLatest(records[i := r], last)
  {
    var records' := records[i := r];
    forall k | 0 <= k < |records|
      ensures records'[k].key == records[k].key && records'[k].firedAt == records[k].firedAt
    {
    }
    forall key | key in last
      ensures exists k :: 0 <= k < |records'| && records'[k].key == key && records'[k].firedAt == last[key]
    {
      var k :| 0 <= k < |records| && records[k].key == key && records[k].firedAt == last[key];
      assert records'[k].key == key;
    }
  }

  lemma RestampKeepsCounts(d: Desk, i: nat, r: Record)
    requires Counted(d) && SameFiring(d.records, i, r)
    ensures forall key :: Count(d, key) == RuleFirings(d.records[i := r], key, |d.records|)
  {
    forall key ensures Count(d, key) == RuleFirings(d.records[i := r], key, |d.records|) {
      RuleFiringsPrefix(d.records, d.records[i := r], key, |d.records|);
    }
  }

  lemma AcknowledgeKeepsActive(d: Desk, id: AlertId, user: string)
    requires ActiveIsUnresolved(d.records, d.active) && AllStamped(d.records)
    ensures var d1 := Acknowledge(d, id, user);
            ActiveIsUnresolved(d1.records, d1.active) && AllStamped(d1.records)
  {
    if id in d.active {
      var i := d.active[id];
      var d1 := Acknowledge(d, id, user);
      assert Stamped(d.records[i]);
      forall k | 0 <= k < |d1.records|
        ensures IdOf(d1.records[k]) == IdOf(d.records[k]) && Stamped(d1.records[k])
        ensures d1.records[k].status == Resolved <==> d.records[k].status == Resolved
      {
      }
    }
  }

  lemma RestampKeepsInv(d: Desk, i: nat, r: Record, active: map<AlertId, nat>)
    requires Inv(d) && SameFiring(d.records, i, r)
    requires ActiveIsUnresolved(d.records[i := r], active) && AllStamped(d.records[i := r])
    ensures Inv(d.(records := d.records[i := r], active := active))
  {
    RestampKeepsSpacing(d.records, d.last, i, r);
    RestampKeepsCounts(d, i, r);
    var d1 := d.(records := d.records[i := r], active := active);
    assert Counted(d1) by {
      forall key ensures Count(d1, key) == RuleFirings(d1.records, key, |d1.records|) {
        assert Count(d1, key) == Count(d, key);
      }
    }
  }

  lemma AcknowledgeKeepsInv(d: Desk, id: AlertId, user: string)
    requires Inv(d)
    ensures Inv(Acknowledge(d, id, user))
  {
    AcknowledgeKeepsActive(d, id, user);
    if id in d.active {
      var i := d.active[id];
      RestampKeepsInv(d, i, d.records[i].(status := Acknowledged, acknowledgedBy := Some(user)), d.active);
    }
  }

  lemma ResolveKeepsActive(d: Desk, id: AlertId, now: real)
    requires ActiveIsUnresolved(d.records, d.active) && AllStamped(d.records)
    ensures var d1 := Resolve(d, id, now);
            ActiveIsUnresolved(d1.records, d1.active) && AllStamped(d1.records)
  {
    if id in d.active {
      var i := d.active[id];
      var d1 := Resolve(d, id, now);
      assert Stamped(d.records[i]);
      forall id' | id' in d1.active
        ensures d1.active[id'] < |d1.records| && IdOf(d1.records[d1.active[id']]) == id'
        ensures d1.records[d1.active[id']].status != Resolved
      {
        assert IdOf(d.records[d.active[id']]) == id' && d.active[id'] != i;
      }
      forall k | 0 <= k < |d1.records| && d1.records[k].status != Resolved
        ensures IdOf(d1.records[k]) in d1.active && d1.active[IdOf(d1.records[k])] == k
      {
        assert k != i && d1.records[k] == d.records[k];
        assert IdOf(d.records[k]) != id;
      }
    }
  }

  lemma ResolveKeepsInv(d: Desk, id: AlertId, now: real)
    requires Inv(d)
    ensures Inv(Resolve(d, id, now))
  {
    ResolveKeepsActive(d, id, now);
    if id in d.active {
      var i := d.active[id];
      RestampKeepsInv(d, i, d.records[i].(status := Resolved, resolvedAt := Some(now)), d.active - {id});
    }
  }

  lemma {:induction false} PutKeepsNames(rules: Dict<Rule>, rule: Rule)
    requires RulesNamed(rules)
    ensures RulesNamed(Put(rules, rule.name, rule))
  {
    PutEntries(rules, rule.name, rule);
  }

  lemma PopKeepsNames(rules: Dict<Rule>, name: string)
    requires RulesNamed(rules)
    ensures RulesNamed(Pop(rules, name))
  {
    WithoutKeys(rules, {name});
    WithoutDistinct(rules, {name});
  }

  lemma RulesStepKeepsInv(d: Desk, rules: Dict<Rule>)
    requires Inv(d) && RulesNamed(rules)
    ensures Inv(d.(rules := rules))
  {
  }

  lemma PerformKeepsInv(d: Desk, s: Step)
    requires Inv(d)
    ensures Inv(Perform(d, s))
  {
    match s {
      case ProcessMetric(m, anomalous, now) => ProcessKeepsInv(d, m, anomalous, now);
      case AcknowledgeAlert(id, user) => AcknowledgeKeepsInv(d, id, user);
      case ResolveAlert(id, now) => ResolveKeepsInv(d, id, now);
      case PutRule(rule) =>
        PutKeepsNames(d.rules, rule);
        RulesStepKeepsInv(d, Put(d.rules, rule.name, rule));
      case RemoveRule(name) =>
        PopKeepsNames(d.rules, name);
        RulesStepKeepsInv(d, Pop(d.rules, name));
    }
  }

  lemma {:induction false} RunKeepsInv(steps: seq<Step>)
    ensures Inv(Run(steps))
    decreases |steps|
  {
    if steps == [] {
      assert Indices(0) == [];
    } else {
      RunKeepsInv(steps[..|steps| - 1]);
      PerformKeepsInv(Run(steps[..|steps| - 1]), steps[|steps| - 1]);
    }
  }
}
