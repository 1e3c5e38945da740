/**
 Approval requests: the route handlers with their guards, composed with the service that
 changes the records, as a state machine over the table of approvals.
 */
module Approvals {
  import opened OrderedDict

  datatype Status = Pending | Approved | Rejected | Cancelled

  datatype Rule = Rule(approvalType: string, isActive: bool, requiredCount: int, requiredRoles: Option<seq<string>>)

  datatype Request = Request(approvalType: string, resourceType: string, resourceId: int, action: string)

  datatype Record = Record(
    request: Request, status: Status, requester: string,
    requiresCount: int, approvalCount: int, approver: Option<string>)

  datatype User = User(name: string, role: string)

  /** A decision that was recorded. */
  datatype Decision = Decision(id: int, username: string, approved: bool)

  /** The tables, with a log of recorded decisions and of executions that were triggered. */
  datatype Db = Db(
    approvals: map<int, Record>, rules: seq<Rule>, nextId: int,
    decisions: seq<Decision>, triggered: seq<int>)

  datatype Response = Ok | NotRequired | NotFound | AlreadyFinal | Forbidden

  const EMPTY := Db(map[], [], 1, [], [])

  /** The first active rule for a type. */
  function RuleFor(rules: seq<Rule>, approvalType: string): Option<Rule> {
    if rules == [] then None
    else if rules[0].approvalType == approvalType && rules[0].isActive then Some(rules[0])
    else RuleFor(rules[1..], approvalType)
  }

  predicate ApprovalRequired(rules: seq<Rule>, approvalType: string, role: string) {
    role != "admin" && RuleFor(rules, approvalType).Some?
  }

  predicate CanApprove(rules: seq<Rule>, record: Record, user: User) {
    && record.requester != user.name
    && match RuleFor(rules, record.request.approvalType)
       case Some(rule) => rule.requiredRoles.Some? ==> user.role in rule.requiredRoles.value
       case None => true
  }

  function Create(db: Db, request: Request, user: User): (Db, Response) {
    if !ApprovalRequired(db.rules, request.approvalType, user.role) then (db, NotRequired)
    else
      var required := match RuleFor(db.rules, request.approvalType) case Some(r) => r.requiredCount case None => 1;
      var record := Record(request, Pending, user.name, required, 0, None);
      (db.(approvals := db.approvals[db.nextId := record], nextId := db.nextId + 1), Ok)
  }

  /** `make_decision` on the record itself. */
  function Decided(record: Record, approved: bool, username: string): Record {
    var counted := record.(approvalCount := record.approvalCount + 1, approver := Some(username));
    if !approved then record.(status := Rejected, approver := Some(username))
    else if counted.approvalCount >= counted.requiresCount then counted.(status := Approved)
    else counted
  }

  predicate Executable(request: Request) {
    request.resourceType == "script" && request.action == "execute"
  }

  function Decide(db: Db, id: int, approved: bool, user: User): (Db, Response) {
    if id !in db.approvals then (db, NotFound)
    else if !db.approvals[id].status.Pending? then (db, AlreadyFinal)
    else if !CanApprove(db.rules, db.approvals[id], user) then (db, Forbidden)
    else
      var record := Decided(db.approvals[id], approved, user.name);
      (db.(approvals := db.approvals[id := record],
           decisions := db.decisions + [Decision(id, user.name, approved)],
           triggered := if record.status.Approved? && Executable(record.request) then db.triggered + [id]
                        else db.triggered),
       Ok)
  }

  function Cancel(db: Db, id: int, user: User): (Db, Response) {
    if id !in db.approvals then (db, NotFound)
    else if db.approvals[id].requester != user.name then (db, Forbidden)
    else if !db.approvals[id].status.Pending? then (db, AlreadyFinal)
    else (db.(approvals := db.approvals[id := db.approvals[id].(status := Cancelled)]), Ok)
  }

  function AddRule(db: Db, rule: Rule, user: User): (Db, Response) {
    if user.role != "admin" then (db, Forbidden) else (db.(rules := db.rules + [rule]), Ok)
  }

  datatype Step =
    | CreateStep(request: Request, user: User)
    | DecideStep(id: int, approved: bool, user: User)
    | CancelStep(id: int, user: User)
    | AddRuleStep(rule: Rule, user: User)

  function Perform(db: Db, step: Step): Db {
    match step
    case CreateStep(request, user) => Create(db, request, user).0
    case DecideStep(id, approved, user) => Decide(db, id, approved, user).0
    case CancelStep(id, user) => Cancel(db, id, user).0
    case AddRuleStep(rule, user) => AddRule(db, rule, user).0
  }

  function PerformAll(db: Db, steps: seq<Step>): Db
    decreases |steps|
  {
    if steps == [] then db else PerformAll(Perform(db, steps[0]), steps[1..])
  }

  // ----- What the log says about one approval -----

  function Approving(decisions: seq<Decision>, id: int): nat
    decreases |decisions|
  {
    if decisions == [] then 0
    else
      var d := decisions[|decisions| - 1];
      Approving(decisions[..|decisions| - 1], id) + if d.id == id && d.approved then 1 else 0
  }

  function Rejecting(decisions: seq<Decision>, id: int): nat
    decreases |decisions|
  {
    if decisions == [] then 0
    else
      var d := decisions[|decisions| - 1];
      Rejecting(decisions[..|decisions| - 1], id) + if d.id == id && !d.approved then 1 else 0
  }

  function Triggers(triggered: seq<int>, id: int): nat
    decreases |triggered|
  {
    if triggered == [] then 0
    else Triggers(triggered[..|triggered| - 1], id) + if triggered[|triggered| - 1] == id then 1 else 0
  }

  function AtLeastOne(n: int): int {
    if n < 1 then 1 else n
  }

  /** What a record and the logs about it agree on. */
  ghost predicate RecordInv(r: Record, approving: nat, rejecting: nat, triggers: nat) {
    && r.approvalCount == approving
    && (r.status.Pending? || r.status.Cancelled? ==> r.approvalCount < AtLeastOne(r.requiresCount) && rejecting == 0)
    && (r.status.Approved? ==> r.approvalCount == AtLeastOne(r.requiresCount) && rejecting == 0)
    && (r.status.Rejected? ==> r.approvalCount < AtLeastOne(r.requiresCount) && rejecting == 1)
    && triggers == if r.status.Approved? && Executable(r.request) then 1 else 0
  }

  ghost predicate DecisionInv(db: Db, d: Decision) {
    d.id in db.approvals && db.approvals[d.id].requester != d.username
  }

  /** A pending approval is short of its requirement, an approved one has met it exactly,
      the count is the number of approving decisions, nobody decides on his own request, and
      an execution was triggered once for every executable approval that was approved, never
      for another. */
  ghost predicate Inv(db: Db) {
    && (forall id :: id in db.approvals ==> id < db.nextId)
    && (forall id :: id in db.approvals ==>
          RecordInv(db.approvals[id], Approving(db.decisions, id), Rejecting(db.decisions, id),
                    Triggers(db.triggered, id)))
    && (forall d :: d in db.decisions ==> DecisionInv(db, d))
    && (forall id :: id in db.triggered ==> id in db.approvals)
  }

  lemma {:induction false} NoLogEntries(db: Db, decisions: seq<Decision>, triggered: seq<int>, id: int)
    requires forall d :: d in decisions ==> d.id != id
    requires id !in triggered
    ensures Approving(decisions, id) == 0 && Rejecting(decisions, id) == 0 && Triggers(triggered, id) == 0
    decreases |decisions| + |triggered|
  {
    if decisions != [] {
      assert decisions[|decisions| - 1] in decisions;
      NoLogEntries(db, decisions[..|decisions| - 1], triggered, id);
    } else if triggered != [] {
      assert triggered[|triggered| - 1] in triggered;
      NoLogEntries(db, decisions, triggered[..|triggered| - 1], id);
    }
  }

  lemma CreateKeepsInv(db: Db, request: Request, user: User)
    requires Inv(db)
    ensures Inv(Create(db, request, user).0)
  {
    if ApprovalRequired(db.rules, request.approvalType, user.role) {
      var db' := Create(db, request, user).0;
      NoLogEntries(db, db.decisions, db.triggered, db.nextId);
      forall d | d in db'.decisions ensures DecisionInv(db', d) {
        assert DecisionInv(db, d);
      }
    }
  }

  /** One decision on a pending record. */
  lemma DecidedKeepsInv(r: Record, approved: bool, username: string, approving: nat, rejecting: nat, triggers: nat)
    requires r.status.Pending? && RecordInv(r, approving, rejecting, triggers)
    ensures var r' := Decided(r, approved, username);
            RecordInv(r', approving + (if approved then 1 else 0), rejecting + (if approved then 0 else 1),
                      triggers + if r'.status.Approved? && Executable(r'.request) then 1 else 0)
  {
  }

  lemma {:induction false} DecideKeepsRecord(db: Db, id: int, approved: bool, user: User, i: int)
    requires i in db.approvals && Decide(db, id, approved, user).1 == Ok
    requires RecordInv(db.approvals[i], Approving(db.decisions, i), Rejecting(db.decisions, i),
                       Triggers(db.triggered, i))
    ensures var db' := Decide(db, id, approved, user).0;
            RecordInv(db'.approvals[i], Approving(db'.decisions, i), Rejecting(db'.decisions, i),
                      Triggers(db'.triggered, i))
  {
    if i == id {
      DecidedKeepsInv(db.approvals[i], approved, user.name,
                      Approving(db.decisions, i), Rejecting(db.decisions, i), Triggers(db.triggered, i));
    }
  }

  lemma DecideKeepsDecisions(db: Db, id: int, approved: bool, user: User, d: Decision)
    requires Decide(db, id, approved, user).1 == Ok
    requires d in db.decisions ==> DecisionInv(db, d)
    requires d in Decide(db, id, approved, user).0.decisions
    ensures DecisionInv(Decide(db, id, approved, user).0, d)
  {
  }

  lemma DecideKeepsInv(db: Db, id: int, approved: bool, user: User)
    requires Inv(db)
    ensures Inv(Decide(db, id, approved, user).0)
  {
    var (db', response) := Decide(db, id, approved, user);
    if response == Ok {
      assert db'.approvals.Keys == db.approvals.Keys && db'.nextId == db.nextId;
      forall i | i in db'.approvals
        ensures RecordInv(db'.approvals[i], Approving(db'.decisions, i), Rejecting(db'.decisions, i),
                          Triggers(db'.triggered, i))
      {
        DecideKeepsRecord(db, id, approved, user, i);
      }
      forall d | d in db'.decisions ensures DecisionInv(db', d) {
        DecideKeepsDecisions(db, id, approved, user, d);
      }
    }
  }

  lemma CancelKeepsInv(db: Db, id: int, user: User)
    requires Inv(db)
    ensures Inv(Cancel(db, id, user).0)
  {
  }

  lemma PerformKeepsInv(db: Db, step: Step)
    requires Inv(db)
    ensures Inv(Perform(db, step))
  {
    match step
    case CreateStep(request, user) => CreateKeepsInv(db, request, user);
    case DecideStep(id, approved, user) => DecideKeepsInv(db, id, approved, user);
    case CancelStep(id, user) => CancelKeepsInv(db, id, user);
    case AddRuleStep(rule, user) =>
      var db' := AddRule(db, rule, user).0;
      forall d | d in db'.decisions ensures DecisionInv(db', d) {
        assert DecisionInv(db, d);
      }
  }

  lemma EmptyHasInv()
    ensures Inv(EMPTY)
  {
  }

  /** The approval invariant holds after every run. */
  lemma {:induction false} RunKeepsInv(db: Db, steps: seq<Step>)
    requires Inv(db)
    ensures Inv(PerformAll(db, steps))
    decreases |steps|
  {
    if steps != [] {
      PerformKeepsInv(db, steps[0]);
      RunKeepsInv(Perform(db, steps[0]), steps[1..]);
    }
  }

  /** `after` is a later state of `before`: the same request and requirement, and the same
      record if it had left the pending state. */
  ghost predicate LaterRecord(before: Record, after: Record) {
    && after.requester == before.requester && after.request == before.request
    && after.requiresCount == before.requiresCount
    && (!before.status.Pending? ==> after == before)
  }

  lemma StepKeepsRecord(db: Db, step: Step, id: int)
    requires Inv(db) && id in db.approvals
    ensures id in Perform(db, step).approvals
    ensures LaterRecord(db.approvals[id], Perform(db, step).approvals[id])
  {
  }

  /** A record that left the pending state never changes again, in any run, and none is
      ever removed or changes its requester or its request. */
  lemma {:induction false} FinalRecordsNeverChange(db: Db, steps: seq<Step>, id: int)
    requires Inv(db) && id in db.approvals
    ensures id in PerformAll(db, steps).approvals
    ensures LaterRecord(db.approvals[id], PerformAll(db, steps).approvals[id])
    decreases |steps|
  {
    if steps != [] {
      PerformKeepsInv(db, steps[0]);
      StepKeepsRecord(db, steps[0], id);
      FinalRecordsNeverChange(Perform(db, steps[0]), steps[1..], id);
    }
  }
}
