/** The approval records as objects, the service that changes them, and the route handlers. */
module ApprovalServices {
  import opened OrderedDict
  import opened Approvals

  class Approval {
    const id: int
    const request: Request
    const requester: string
    const requiresCount: int
    var status: Status
    var approvalCount: int
    var approver: Option<string>

    constructor (id: int, request: Request, requester: string, requiresCount: int)
      ensures this.id == id && Value() == Record(request, Pending, requester, requiresCount, 0, None)
    {
      this.id, this.request, this.requester, this.requiresCount := id, request, requester, requiresCount;
      status, approvalCount, approver := Pending, 0, None;
    }

    function Value(): Record
      reads this
    {
      Record(request, status, requester, requiresCount, approvalCount, approver)
    }
  }

  class ApprovalService {
    var approvals: map<int, Approval>
    var rules: seq<Rule>
    var nextId: int
    /** Logs: the decisions recorded and the executions requested of the execution service. */
    var decisions: seq<Decision>
    var triggered: seq<int>

    constructor ()
      ensures Valid() && Value() == EMPTY
    {
      approvals, rules, nextId, decisions, triggered := map[], [], 1, [], [];
      new;
      assert Value().approvals == map[];
    }

    /** Every record is filed under its own id. */
    ghost predicate Valid()
      reads this, approvals.Values
    {
      forall id :: id in approvals ==> approvals[id].id == id
    }

    ghost function Value(): Db
      reads this, approvals.Values
    {
      Db(map id | id in approvals :: approvals[id].Value(), rules, nextId, decisions, triggered)
    }

    method CreateApproval(request: Request, user: User) returns (response: Response)
      requires Valid()
      modifies this
      ensures Valid() && (Value(), response) == Create(old(Value()), request, user)
    {
      if !ApprovalRequired(rules, request.approvalType, user.role) {
        return NotRequired;
      }
      var rule := RuleFor(rules, request.approvalType);
      var required := if rule.Some? then rule.value.requiredCount else 1;
      var approval := new Approval(nextId, request, user.name, required);
      approvals := approvals[nextId := approval];
      nextId := nextId + 1;
      assert Value().approvals == Create(old(Value()), request, user).0.approvals;
      response := Ok;
    }

    /** Counts an approval or rejects, and leaves every other record alone. */
    method MakeDecision(approval: Approval, approved: bool, username: string)
      requires Valid() && approval.id in approvals && approvals[approval.id] == approval
      modifies approval, this`decisions
      ensures approval.Value() == Decided(old(approval.Value()), approved, username)
      ensures decisions == old(decisions) + [Decision(approval.id, username, approved)]
      ensures Valid() && Value() == old(Value()).(
        approvals := old(Value()).approvals[approval.id := Decided(old(approval.Value()), approved, username)],
        decisions := decisions)
    {
      if approved {
        approval.approvalCount := approval.approvalCount + 1;
        if approval.approvalCount >= approval.requiresCount {
          approval.status := Approved;
        }
      } else {
        approval.status := Rejected;
      }
      approval.approver := Some(username);
      decisions := decisions + [Decision(approval.id, username, approved)];
      ghost var decided := old(Value()).approvals[approval.id := Decided(old(approval.Value()), approved, username)];
      assert Value().approvals.Keys == decided.Keys;
      assert forall id :: id in decided ==> Value().approvals[id] == decided[id];
    }

    /** The `decide` route: the guards, the decision, and the execution if it is approved. */
    method MakeApprovalDecision(id: int, approved: bool, user: User) returns (response: Response)
      requires Valid()
      modifies this`decisions, this`triggered, if id in approvals then {approvals[id]} else {}
      ensures Valid() && (Value(), response) == Decide(old(Value()), id, approved, user)
    {
      if id !in approvals {
        return NotFound;
      }
      var approval := approvals[id];
      if approval.status != Pending {
        return AlreadyFinal;
      }
      if !CanApprove(rules, approval.Value(), user) {
        return Forbidden;
      }
      MakeDecision(approval, approved, user.name);
      if approval.status == Approved && Executable(approval.request) {
        triggered := triggered + [id];
      }
      assert Value().approvals == Decide(old(Value()), id, approved, user).0.approvals;
      response := Ok;
    }

    /** The `cancel` route. */
    method CancelApproval(id: int, user: User) returns (response: Response)
      requires Valid()
      modifies if id in approvals then {approvals[id]} else {}
      ensures Valid() && (Value(), response) == Cancel(old(Value()), id, user)
    {
      if id !in approvals {
        return NotFound;
      }
      var approval := approvals[id];
      if approval.requester != user.name {
        return Forbidden;
      }
      if approval.status != Pending {
        return AlreadyFinal;
      }
      approval.status := Cancelled;
      ghost var cancelled := Cancel(old(Value()), id, user).0.approvals;
      assert Value().approvals.Keys == cancelled.Keys;
      assert forall i :: i in cancelled ==> Value().approvals[i] == cancelled[i];
      assert Value().approvals == cancelled;
      response := Ok;
    }

    /** The `rules` route. */
    method CreateApprovalRule(rule: Rule, user: User) returns (response: Response)
      requires Valid()
      modifies this`rules
      ensures Valid() && (Value(), response) == AddRule(old(Value()), rule, user)
    {
      if user.role != "admin" {
        return Forbidden;
      }
      rules := rules + [rule];
      assert Value().approvals == old(Value()).approvals;
      response := Ok;
    }
  }
}
