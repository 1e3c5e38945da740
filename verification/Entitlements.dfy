/**
 Who decided and with what right: approvals over whole runs, said of the rule table itself.
 The rule that counts is the first active one for the type of the request.
 */
module Entitlements {
  import opened OrderedDict
  import opened Approvals

  predicate ActiveFor(rule: Rule, approvalType: string) {
    rule.approvalType == approvalType && rule.isActive
  }

  /** Entry `i` is the first active rule for the type. */
  predicate FirstActive(rules: seq<Rule>, approvalType: string, i: nat) {
    && i < |rules| && ActiveFor(rules[i], approvalType)
    && forall j :: 0 <= j < i ==> !ActiveFor(rules[j], approvalType)
  }

  /** The first active rule for the type, if there is one and it lists roles, lists this one. */
  ghost predicate Entitled(rules: seq<Rule>, approvalType: string, role: string) {
    forall i: nat | FirstActive(rules, approvalType, i) ::
      rules[i].requiredRoles.Some? ==> role in rules[i].requiredRoles.value
  }

  lemma {:induction false} RuleForIsFirstActive(rules: seq<Rule>, approvalType: string)
    ensures RuleFor(rules, approvalType).None? <==> forall i :: 0 <= i < |rules| ==> !ActiveFor(rules[i], approvalType)
    ensures RuleFor(rules, approvalType).Some? ==>
      exists i: nat :: FirstActive(rules, approvalType, i) && rules[i] == RuleFor(rules, approvalType).value
  {
    if rules != [] {
      RuleForIsFirstActive(rules[1..], approvalType);
      if !ActiveFor(rules[0], approvalType) {
        assert forall i :: 0 < i < |rules| ==> rules[i] == rules[1..][i - 1];
        if RuleFor(rules[1..], approvalType).Some? {
          var i: nat :| FirstActive(rules[1..], approvalType, i) && rules[1..][i] == RuleFor(rules, approvalType).value;
          assert FirstActive(rules, approvalType, i + 1);
        }
      } else {
        assert FirstActive(rules, approvalType, 0);
      }
    }
  }

  lemma CanApproveMeans(rules: seq<Rule>, record: Record, user: User)
    ensures CanApprove(rules, record, user)
       <==> record.requester != user.name && Entitled(rules, record.request.approvalType, user.role)
  {
    var approvalType := record.request.approvalType;
    RuleForIsFirstActive(rules, approvalType);
    if RuleFor(rules, approvalType).Some? {
      var i: nat :| FirstActive(rules, approvalType, i) && rules[i] == RuleFor(rules, approvalType).value;
      assert forall j: nat :: FirstActive(rules, approvalType, j) ==> j == i;
    }
  }

  // ----- One decision -----

  /** The record after a decision. */
  ghost predicate DecidedTo(before: Record, after: Record, approved: bool, username: string) {
    && after.request == before.request && after.requester == before.requester
    && after.requiresCount == before.requiresCount && after.approver == Some(username)
    && (approved ==>
          && after.approvalCount == before.approvalCount + 1
          && after.status == if before.approvalCount + 1 >= before.requiresCount then Approved else Pending)
    && (!approved ==> after.approvalCount == before.approvalCount && after.status == Rejected)
  }

  /** What a decision answers and does: refused without effect unless the record is there, is
      pending, is somebody else's, and the first active rule admits the role; otherwise it
      changes that record and the logs, and nothing else. */
  lemma DecisionOutcome(db: Db, id: int, approved: bool, user: User)
    ensures var (db', response) := Decide(db, id, approved, user);
            if id !in db.approvals then response == NotFound && db' == db
            else
              var record := db.approvals[id];
              if record.status != Pending then response == AlreadyFinal && db' == db
              else if record.requester == user.name
                      || !Entitled(db.rules, record.request.approvalType, user.role)
              then response == Forbidden && db' == db
              else
                && response == Ok && db'.approvals.Keys == db.approvals.Keys
                && DecidedTo(record, db'.approvals[id], approved, user.name)
                && (forall i :: i in db.approvals && i != id ==> db'.approvals[i] == db.approvals[i])
                && db'.rules == db.rules && db'.nextId == db.nextId
                && db'.decisions == db.decisions + [Decision(id, user.name, approved)]
                && db'.triggered == db.triggered
                   + if && approved && record.approvalCount + 1 >= record.requiresCount
                        && record.request.resourceType == "script" && record.request.action == "execute"
                     then [id] else []
  {
    if id in db.approvals {
      CanApproveMeans(db.rules, db.approvals[id], user);
    }
  }

  // ----- All decisions of a run -----

  /** A recorded decision, with the role of its author and the rules then in force. */
  datatype Entry = Entry(decision: Decision, role: string, rules: seq<Rule>)

  function Recorded(db: Db, step: Step): seq<Entry> {
    match step
    case DecideStep(id, approved, user) =>
      if Decide(db, id, approved, user).1 == Ok then [Entry(Decision(id, user.name, approved), user.role, db.rules)]
      else []
    case _ => []
  }

  /** The decisions that the steps of a run record. */
  function Trail(db: Db, steps: seq<Step>): seq<Entry>
    decreases |steps|
  {
    if steps == [] then [] else Recorded(db, steps[0]) + Trail(Perform(db, steps[0]), steps[1..])
  }

  function DecisionsOf(entries: seq<Entry>): (decisions: seq<Decision>)
    ensures |decisions| == |entries|
  {
    seq(|entries|, i requires 0 <= i < |entries| => entries[i].decision)
  }

  /** The decision was made on somebody else's request, in a role that the rules admit. */
  ghost predicate Rightful(db: Db, e: Entry) {
    && e.decision.id in db.approvals
    && db.approvals[e.decision.id].requester != e.decision.username
    && Entitled(e.rules, db.approvals[e.decision.id].request.approvalType, e.role)
  }

  lemma RecordedIsRightful(db: Db, step: Step)
    requires Inv(db)
    ensures var db' := Perform(db, step);
            && db'.decisions == db.decisions + DecisionsOf(Recorded(db, step))
            && forall e | e in Recorded(db, step) :: Rightful(db', e)
  {
    if step.DecideStep? {
      DecisionOutcome(db, step.id, step.approved, step.user);
    }
  }

  lemma {:induction false} EntryStaysRightful(db: Db, steps: seq<Step>, e: Entry)
    requires Inv(db) && Rightful(db, e)
    ensures Rightful(PerformAll(db, steps), e)
  {
    FinalRecordsNeverChange(db, steps, e.decision.id);
  }

  lemma DecisionsAppend(log: seq<Decision>, a: seq<Entry>, b: seq<Entry>)
    ensures log + DecisionsOf(a) + DecisionsOf(b) == log + DecisionsOf(a + b)
  {
  }

  lemma {:induction false} TrailIsLog(db: Db, steps: seq<Step>)
    requires Inv(db)
    ensures PerformAll(db, steps).decisions == db.decisions + DecisionsOf(Trail(db, steps))
    decreases |steps|
  {
    if steps != [] {
      var db' := Perform(db, steps[0]);
      PerformKeepsInv(db, steps[0]);
      RecordedIsRightful(db, steps[0]);
      TrailIsLog(db', steps[1..]);
      DecisionsAppend(db.decisions, Recorded(db, steps[0]), Trail(db', steps[1..]));
    }
  }

  lemma {:induction false} TrailIsRightful(db: Db, steps: seq<Step>, e: Entry)
    requires Inv(db) && e in Trail(db, steps)
    ensures Rightful(PerformAll(db, steps), e)
    decreases |steps|
  {
    var db' := Perform(db, steps[0]);
    PerformKeepsInv(db, steps[0]);
    if e in Recorded(db, steps[0]) {
      RecordedIsRightful(db, steps[0]);
      EntryStaysRightful(db', steps[1..], e);
    } else {
      TrailIsRightful(db', steps[1..], e);
    }
  }

  /** Every decision of every run, in order, was made by somebody other than the requester whose
      role the first active rule of the time admits. */
  lemma {:induction false} DecidersAreEntitled(db: Db, steps: seq<Step>)
    requires Inv(db)
    ensures PerformAll(db, steps).decisions == db.decisions + DecisionsOf(Trail(db, steps))
    ensures forall e | e in Trail(db, steps) :: Rightful(PerformAll(db, steps), e)
  {
    TrailIsLog(db, steps);
    forall e | e in Trail(db, steps) ensures Rightful(PerformAll(db, steps), e) {
      TrailIsRightful(db, steps, e);
    }
  }

  // ----- Creating, cancelling, executing -----

  /** A request is filed exactly if its author is no administrator and an active rule is about
      its type; it needs the approvals that the first such rule asks for. */
  lemma CreationOutcome(db: Db, request: Request, user: User)
    ensures var (db', response) := Create(db, request, user);
            if user.role == "admin" || forall i :: 0 <= i < |db.rules| ==> !ActiveFor(db.rules[i], request.approvalType)
            then response == NotRequired && db' == db
            else
              && response == Ok
              && exists i: nat :: && FirstActive(db.rules, request.approvalType, i)
                                  && db' == db.(nextId := db.nextId + 1,
                                                approvals := db.approvals[db.nextId := Record(
                                                  request, Pending, user.name, db.rules[i].requiredCount, 0, None)])
  {
    RuleForIsFirstActive(db.rules, request.approvalType);
  }

  /** A step cancels a pending request if and only if it is a cancellation by its requester. */
  lemma StepCancelsIff(db: Db, step: Step, id: int)
    requires Inv(db) && id in db.approvals && db.approvals[id].status == Pending
    ensures id in Perform(db, step).approvals
    ensures Perform(db, step).approvals[id].status == Cancelled
       <==> step.CancelStep? && step.id == id && step.user.name == db.approvals[id].requester
  {
    StepKeepsRecord(db, step, id);
  }

  /** A request that a run finds pending and leaves cancelled was cancelled by its requester. */
  lemma {:induction false} CancelledByRequester(db: Db, steps: seq<Step>, id: int) returns (k: nat, user: User)
    requires Inv(db) && id in db.approvals && db.approvals[id].status == Pending
    requires id in PerformAll(db, steps).approvals && PerformAll(db, steps).approvals[id].status == Cancelled
    ensures k < |steps| && steps[k] == CancelStep(id, user) && user.name == db.approvals[id].requester
    decreases |steps|
  {
    var db' := Perform(db, steps[0]);
    PerformKeepsInv(db, steps[0]);
    StepKeepsRecord(db, steps[0], id);
    if db'.approvals[id].status == Pending {
      k, user := CancelledByRequester(db', steps[1..], id);
      k := k + 1;
    } else {
      FinalRecordsNeverChange(db', steps[1..], id);
      StepCancelsIff(db, steps[0], id);
      k, user := 0, steps[0].user;
    }
  }

  /** In every run an execution is requested once for each approved request to execute a
      script, and for nothing else. */
  lemma {:induction false} ExecutedIffApprovedScript(steps: seq<Step>, id: int)
    ensures var db := PerformAll(EMPTY, steps);
            Triggers(db.triggered, id)
            == if && id in db.approvals && db.approvals[id].status == Approved
                  && db.approvals[id].request.resourceType == "script" && db.approvals[id].request.action == "execute"
               then 1 else 0
  {
    EmptyHasInv();
    RunKeepsInv(EMPTY, steps);
    var db := PerformAll(EMPTY, steps);
    if id !in db.approvals {
      NotTriggered(db.triggered, id);
    }
  }

  lemma {:induction false} NotTriggered(triggered: seq<int>, id: int)
    requires id !in triggered
    ensures Triggers(triggered, id) == 0
    decreases |triggered|
  {
    if triggered != [] {
      NotTriggered(triggered[..|triggered| - 1], id);
    }
  }

  // ----- The rule table -----

  function AddedBy(step: Step): seq<Rule> {
    match step
    case AddRuleStep(rule, user) => if user.role == "admin" then [rule] else []
    case _ => []
  }

  /** The rules that administrators add in the run, in order. */
  function Added(steps: seq<Step>): seq<Rule> {
    if steps == [] then [] else AddedBy(steps[0]) + Added(steps[1..])
  }

  lemma StepAddsRules(db: Db, step: Step)
    ensures Perform(db, step).rules == db.rules + AddedBy(step)
  {
  }

  lemma Associates(a: seq<Rule>, b: seq<Rule>, c: seq<Rule>)
    ensures a + b + c == a + (b + c)
  {
  }

  /** Only administrators add rules, at the end of the table, and no rule ever changes. */
  lemma {:induction false} OnlyAdministratorsAddRules(db: Db, steps: seq<Step>)
    ensures PerformAll(db, steps).rules == db.rules + Added(steps)
    decreases |steps|
  {
    if steps != [] {
      StepAddsRules(db, steps[0]);
      OnlyAdministratorsAddRules(Perform(db, steps[0]), steps[1..]);
      Associates(db.rules, AddedBy(steps[0]), Added(steps[1..]));
    }
  }
}
