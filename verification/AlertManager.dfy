/** Alerts as shared objects and the manager that fires, acknowledges and resolves them. */
module AlertManagers {
  import opened OrderedDict
  import opened Anomalies
  import opened Alerts

  class Alert {
    const key: string
    const byRule: bool
    const severity: Severity
    const firedAt: real
    const value: real
    const threshold: Option<real>
    var status: Status
    var acknowledgedBy: Option<string>
    var resolvedAt: Option<real>

    constructor (key: string, byRule: bool, severity: Severity, firedAt: real, value: real, threshold: Option<real>)
      ensures Value() == Record(key, byRule, severity, firedAt, value, threshold, Firing, None, None)
    {
      this.key, this.byRule, this.severity := key, byRule, severity;
      this.firedAt, this.value, this.threshold := firedAt, value, threshold;
      status, acknowledgedBy, resolvedAt := Firing, None, None;
    }

    function Value(): Record
      reads this
    {
      Record(key, byRule, severity, firedAt, value, threshold, status, acknowledgedBy, resolvedAt)
    }
  }

  /** Distinct objects that hold the records, in order. */
  ghost predicate Shows(fired: seq<Alert>, records: seq<Record>)
    reads fired
  {
    && |fired| == |records|
    && (forall i :: 0 <= i < |fired| ==> fired[i].Value() == records[i])
    && (forall i, j :: 0 <= i < j < |fired| ==> fired[i] != fired[j])
  }

  lemma ShowsFire(fired: seq<Alert>, records: seq<Record>, alert: Alert)
    requires Shows(fired, records) && alert !in fired
    ensures Shows(fired + [alert], records + [alert.Value()])
  {
  }

  /** Changes one alert; whoever holds a reference to it sees the change. */
  method Stamp(alert: Alert, ghost fired: seq<Alert>, ghost records: seq<Record>, ghost i: nat,
               status: Status, acknowledgedBy: Option<string>, resolvedAt: Option<real>)
    requires Shows(fired, records) && i < |fired| && fired[i] == alert
    modifies alert
    ensures Shows(fired, records[i := records[i].(
              status := status, acknowledgedBy := acknowledgedBy, resolvedAt := resolvedAt)])
  {
    assert forall k :: 0 <= k < |fired| && k != i ==> fired[k] != alert;
    alert.status, alert.acknowledgedBy, alert.resolvedAt := status, acknowledgedBy, resolvedAt;
  }

  /** The active alerts are the fired objects that `ids` points to. */
  ghost predicate ActiveLinked(fired: seq<Alert>, active: map<AlertId, Alert>, ids: map<AlertId, nat>) {
    && active.Keys == ids.Keys
    && forall id :: id in active ==> ids[id] < |fired| && active[id] == fired[ids[id]]
  }

  /** The history lists the fired objects that `indices` points to. */
  ghost predicate HistoryLinked(fired: seq<Alert>, history: seq<Alert>, indices: seq<nat>) {
    && |history| == |indices|
    && forall i :: 0 <= i < |history| ==> indices[i] < |fired| && history[i] == fired[indices[i]]
  }

  lemma ActiveLinkedFire(fired: seq<Alert>, active: map<AlertId, Alert>, ids: map<AlertId, nat>, id: AlertId,
                         alert: Alert)
    requires ActiveLinked(fired, active, ids)
    ensures ActiveLinked(fired + [alert], active[id := alert], ids[id := |fired|])
  {
  }

  lemma ActiveLinkedDrop(fired: seq<Alert>, active: map<AlertId, Alert>, ids: map<AlertId, nat>, id: AlertId)
    requires ActiveLinked(fired, active, ids)
    ensures ActiveLinked(fired, active - {id}, ids - {id})
  {
  }

  lemma HistoryLinkedPush(fired: seq<Alert>, history: seq<Alert>, indices: seq<nat>, n: nat, alert: Alert)
    requires HistoryLinked(fired, history, indices)
    ensures HistoryLinked(fired + [alert], Push(history, n, alert), Push(indices, n, |fired|))
  {
  }

  lemma AttemptFires(d: Desk, alert: Record)
    requires !Duplicate(d, alert.key, alert.firedAt)
    ensures var d1 := Attempt(d, alert);
            && d1.records == d.records + [alert] && d1.active == d.active[IdOf(alert) := |d.records|]
            && d1.history == Push(d.history, HISTORY_LIMIT, |d.records|)
            && d1.last == d.last[alert.key := alert.firedAt] && d1.rules == d.rules
            && d1.counts == if alert.byRule then d.counts[alert.key := Count(d, alert.key) + 1] else d.counts
  {
  }

  class AlertManager {
    var activeAlerts: map<AlertId, Alert>
    var alertHistory: seq<Alert>
    var alertCounts: map<string, nat>
    var lastAlertTime: map<string, real>
    var rules: Dict<Rule>
    const detector: AnomalyDetector
    /** Every alert ever fired, and the value of the whole manager. */
    ghost var fired: seq<Alert>
    ghost var desk: Desk

    constructor (windowSize: nat, threshold: real)
      ensures Valid() && desk == EMPTY
      ensures detector.Valid() && detector.added == [] && fresh(detector)
      ensures detector.windowSize == windowSize && detector.threshold == threshold
    {
      detector := new AnomalyDetector(windowSize, threshold);
      activeAlerts, alertHistory, alertCounts, lastAlertTime, rules := map[], [], map[], map[], [];
      fired, desk := [], EMPTY;
    }

    /** The fields hold `desk`: an active alert and a history entry are the fired objects. */
    ghost predicate Valid()
      reads this, fired
    {
      && Shows(fired, desk.records)
      && alertCounts == desk.counts && lastAlertTime == desk.last && rules == desk.rules
      && ActiveLinked(fired, activeAlerts, desk.active)
      && HistoryLinked(fired, alertHistory, desk.history)
    }

    predicate IsDuplicate(key: string, now: real)
      reads this
    {
      now - (if key in lastAlertTime then lastAlertTime[key] else 0.0) < DEDUP_WINDOW
    }

    /** What the two creators below share: file the alert and note the time of its key. */
    method Fire(alert: Alert)
      requires Valid() && alert !in fired
      requires !Duplicate(desk, alert.key, alert.firedAt)
      requires alert.status == Firing && alert.acknowledgedBy.None? && alert.resolvedAt.None?
      modifies this
      ensures Valid() && fired == old(fired) + [alert]
      ensures desk == Attempt(old(desk), alert.Value())
    {
      var id := AlertId(alert.key, alert.firedAt);
      activeAlerts := activeAlerts[id := alert];
      alertHistory := Push(alertHistory, HISTORY_LIMIT, alert);
      lastAlertTime := lastAlertTime[alert.key := alert.firedAt];
      if alert.byRule {
        var count := if alert.key in alertCounts then alertCounts[alert.key] else 0;
        alertCounts := alertCounts[alert.key := count + 1];
      }
      AttemptFires(desk, alert.Value());
      ShowsFire(fired, desk.records, alert);
      ActiveLinkedFire(fired, old(activeAlerts), desk.active, id, alert);
      HistoryLinkedPush(fired, old(alertHistory), desk.history, HISTORY_LIMIT, alert);
      desk := Attempt(desk, alert.Value());
      fired := fired + [alert];
    }

    method CreateAlert(metric: Metric, rule: Rule, now: real) returns (alert: Alert?)
      requires Valid()
      modifies this
      ensures Valid() && desk == Attempt(old(desk), RuleAlert(rule, metric, now))
      ensures fired == old(fired) + if alert == null then [] else [alert]
    {
      var key := rule.name + ":" + metric.name;
      if IsDuplicate(key, now) {
        return null;
      }
      alert := new Alert(key, true, rule.severity, now, metric.value, Some(rule.threshold));
      Fire(alert);
    }

    method CreateAnomalyAlert(metric: Metric, now: real) returns (alert: Alert?)
      requires Valid()
      modifies this
      ensures Valid() && desk == Attempt(old(desk), AnomalyAlert(metric, now))
      ensures fired == old(fired) + if alert == null then [] else [alert]
    {
      var key := "anomaly:" + metric.name;
      if IsDuplicate(key, now) {
        return null;
      }
      alert := new Alert(key, false, Warning, now, metric.value, None);
      Fire(alert);
    }

    method EvaluateRule(metric: Metric, rule: Rule, now: real) returns (alert: Alert?)
      requires Valid()
      modifies this
      ensures Valid()
      ensures desk == if Triggers(rule, metric) then Attempt(old(desk), RuleAlert(rule, metric, now)) else old(desk)
      ensures fired == old(fired) + if alert == null then [] else [alert]
    {
      if rule.enabled && Occurs(metric.name, rule.expression) && Holds(rule.comparison, metric.value, rule.threshold) {
        alert := CreateAlert(metric, rule, now);
      } else {
        alert := null;
      }
    }

    /** Tries every rule on the metric, in order; returns the alerts that fired. */
    method EvaluateRules(metric: Metric, now: real) returns (alerts: seq<Alert>)
      requires Valid()
      modifies this
      ensures Valid() && desk == Evaluate(old(desk), old(rules), |old(rules)|, metric, now)
      ensures fired == old(fired) + alerts
    {
      alerts := [];
      for i := 0 to |rules|
        invariant Valid() && rules == old(rules)
        invariant desk == Evaluate(old(desk), old(rules), i, metric, now)
        invariant fired == old(fired) + alerts
      {
        var alert := EvaluateRule(metric, rules[i].1, now);
        if alert != null {
          alerts := alerts + [alert];
        }
      }
    }

    /** Judges the metric against the end of its series; fires if it is an anomaly. */
    method JudgeMetric(metric: Metric, now: real) returns (ghost anomalous: bool, alert: Alert?)
      requires Valid() && detector.Valid()
      modifies this, detector
      ensures Valid() && detector.Valid() && detector.added == old(detector.added) + [metric]
      ensures anomalous == Detects(LastOf(StreamOf(detector.added, SeriesKey(metric)), detector.windowSize),
                                   detector.threshold)
      ensures desk == if anomalous then Attempt(old(desk), AnomalyAlert(metric, now)) else old(desk)
      ensures fired == old(fired) + if alert == null then [] else [alert]
    {
      var detected := detector.AddMetric(metric);
      anomalous, alert := detected, null;
      if detected {
        alert := CreateAnomalyAlert(metric, now);
      }
    }

    /** Judges the metric, then tries the rules on it; returns the alerts that fired. */
    method ProcessMetric(metric: Metric, now: real) returns (alerts: seq<Alert>)
      requires Valid() && detector.Valid()
      modifies this, detector
      ensures Valid() && detector.Valid() && detector.added == old(detector.added) + [metric]
      ensures var stream := StreamOf(detector.added, SeriesKey(metric));
              desk == Process(old(desk), metric,
                              Detects(LastOf(stream, detector.windowSize), detector.threshold), now)
      ensures fired == old(fired) + alerts
    {
      ghost var anomalous: bool;
      var alert: Alert?;
      anomalous, alert := JudgeMetric(metric, now);
      var more := EvaluateRules(metric, now);
      alerts := (if alert == null then [] else [alert]) + more;
    }

    method AcknowledgeAlert(id: AlertId, user: string) returns (alert: Alert?)
      requires Valid()
      modifies this`desk, if id in activeAlerts then {activeAlerts[id]} else {}
      ensures Valid() && desk == Acknowledge(old(desk), id, user)
      ensures alert == if id in activeAlerts then activeAlerts[id] else null
    {
      if id !in activeAlerts {
        return null;
      }
      alert := activeAlerts[id];
      Stamp(alert, fired, desk.records, desk.active[id], Acknowledged, Some(user), alert.resolvedAt);
      desk := Acknowledge(desk, id, user);
    }

    method ResolveAlert(id: AlertId, now: real) returns (alert: Alert?)
      requires Valid()
      modifies this`desk, this`activeAlerts, if id in activeAlerts then {activeAlerts[id]} else {}
      ensures Valid() && desk == Resolve(old(desk), id, now)
      ensures alert == if id in old(activeAlerts) then old(activeAlerts[id]) else null
    {
      if id !in activeAlerts {
        return null;
      }
      alert := activeAlerts[id];
      activeAlerts := activeAlerts - {id};
      ActiveLinkedDrop(fired, old(activeAlerts), desk.active, id);
      Stamp(alert, fired, desk.records, desk.active[id], Resolved, alert.acknowledgedBy, Some(now));
      desk := Resolve(desk, id, now);
    }

    method AddRule(rule: Rule)
      requires Valid()
      modifies this`rules, this`desk
      ensures Valid() && desk == Perform(old(desk), PutRule(rule))
    {
      rules := Put(rules, rule.name, rule);
      desk := desk.(rules := rules);
    }

    method DropRule(name: string)
      requires Valid()
      modifies this`rules, this`desk
      ensures Valid() && desk == Perform(old(desk), RemoveRule(name))
    {
      rules := Pop(rules, name);
      desk := desk.(rules := rules);
    }
  }
}
