/**
 Decisions are counted, not approvers: exactly when an approved request has had as many
 different approvers as it requires.
 */
module DistinctApprovers {
  import opened OrderedDict
  import opened Approvals
  import opened Sets

  /** Who has approved. */
  function Approvers(decisions: seq<Decision>, id: int): set<string>
    decreases |decisions|
  {
    if decisions == [] then {}
    else
      var before := Approvers(decisions[..|decisions| - 1], id);
      var d := decisions[|decisions| - 1];
      if d.id == id && d.approved then before + {d.username} else before
  }

  lemma {:induction false} ApproversGrow(decisions: seq<Decision>, d: Decision, id: int)
    ensures Approvers(decisions + [d], id)
         == Approvers(decisions, id) + if d.id == id && d.approved then {d.username} else {}
  {
    assert (decisions + [d])[..|decisions|] == decisions;
  }

  // ----- One approver is enough -----

  function Repeated(n: nat, step: Step): seq<Step> {
    seq(n, _ => step)
  }

  /** One more approval by someone who may approve. */
  lemma {:induction false} ApproveOnce(db: Db, id: int, user: User)
    requires id in db.approvals && db.approvals[id].status.Pending?
    requires CanApprove(db.rules, db.approvals[id], user)
    ensures var db1 := Perform(db, DecideStep(id, true, user));
            && db1.rules == db.rules && id in db1.approvals
            && db1.approvals[id] == Decided(db.approvals[id], true, user.name)
            && CanApprove(db1.rules, db1.approvals[id], user)
            && Approvers(db1.decisions, id) == Approvers(db.decisions, id) + {user.name}
  {
    ApproversGrow(db.decisions, Decision(id, user.name, true), id);
  }

  lemma RepeatedSplits(n: nat, step: Step)
    requires n > 0
    ensures Repeated(n, step) != [] && Repeated(n, step)[0] == step
    ensures Repeated(n, step)[1..] == Repeated(n - 1, step)
  {
  }

  lemma PendingIsShort(db: Db, id: int) returns (n: nat)
    requires Inv(db) && id in db.approvals && db.approvals[id].status.Pending?
    ensures n > 0
    ensures n == AtLeastOne(db.approvals[id].requiresCount) - db.approvals[id].approvalCount
  {
    assert RecordInv(db.approvals[id], Approving(db.decisions, id), Rejecting(db.decisions, id),
                     Triggers(db.triggered, id));
    n := AtLeastOne(db.approvals[id].requiresCount) - db.approvals[id].approvalCount;
  }

  /** One user who may approve meets any requirement alone, by deciding as often as it
      demands: the request ends up approved and he is the only new approver. */
  lemma {:induction false} OneApproverSuffices(db: Db, id: int, user: User, n: nat)
    requires Inv(db) && id in db.approvals && db.approvals[id].status.Pending?
    requires CanApprove(db.rules, db.approvals[id], user)
    requires n == AtLeastOne(db.approvals[id].requiresCount) - db.approvals[id].approvalCount
    ensures var db' := PerformAll(db, Repeated(n, DecideStep(id, true, user)));
            && id in db'.approvals && db'.approvals[id].status.Approved?
            && Approvers(db'.decisions, id) == Approvers(db.decisions, id) + {user.name}
    decreases n
  {
    var step := DecideStep(id, true, user);
    var db1 := Perform(db, step);
    var left := PendingIsShort(db, id);
    ApproveOnce(db, id, user);
    RepeatedSplits(n, step);
    if n > 1 {
      PerformKeepsInv(db, step);
      OneApproverSuffices(db1, id, user, n - 1);
    } else {
      assert PerformAll(db1, Repeated(0, step)) == db1;
    }
  }

  // ----- Whoever approves later may approve now -----

  lemma {:induction false} RuleForStays(rules: seq<Rule>, rule: Rule, approvalType: string)
    ensures RuleFor(rules, approvalType).Some? ==> RuleFor(rules + [rule], approvalType) == RuleFor(rules, approvalType)
    decreases |rules|
  {
    if rules != [] {
      assert (rules + [rule])[1..] == rules[1..] + [rule];
      RuleForStays(rules[1..], rule, approvalType);
    }
  }

  lemma StepKeepsPermission(db: Db, step: Step, id: int, user: User)
    requires Inv(db) && id in db.approvals
    requires CanApprove(Perform(db, step).rules, Perform(db, step).approvals[id], user)
    ensures CanApprove(db.rules, db.approvals[id], user)
  {
    StepKeepsRecord(db, step, id);
    if step.AddRuleStep? {
      RuleForStays(db.rules, step.rule, db.approvals[id].request.approvalType);
    }
  }

  lemma {:induction false} StepKeepsApprovers(db: Db, step: Step, id: int)
    ensures Approvers(db.decisions, id) <= Approvers(Perform(db, step).decisions, id)
  {
    if step.DecideStep? {
      ApproversGrow(db.decisions, Decision(step.id, step.user.name, step.approved), id);
    }
  }

  lemma {:induction false} RunKeepsApprovers(db: Db, steps: seq<Step>, id: int)
    ensures Approvers(db.decisions, id) <= Approvers(PerformAll(db, steps).decisions, id)
    decreases |steps|
  {
    if steps != [] {
      StepKeepsApprovers(db, steps[0], id);
      RunKeepsApprovers(Perform(db, steps[0]), steps[1..], id);
    }
  }

  /** The one step that approves a pending request. */
  lemma ApprovingStep(db: Db, step: Step, id: int)
    requires Inv(db) && id in db.approvals && db.approvals[id].status.Pending?
    requires Perform(db, step).approvals[id].status.Approved?
    ensures step.DecideStep? && step.id == id && step.approved
    ensures CanApprove(db.rules, db.approvals[id], step.user)
  {
  }

  /** A run that ends with the request approved has an approver who may approve now. */
  lemma {:induction false} ApprovedBySomeone(db: Db, steps: seq<Step>, id: int) returns (user: User)
    requires Inv(db) && id in db.approvals && db.approvals[id].status.Pending?
    requires id in PerformAll(db, steps).approvals && PerformAll(db, steps).approvals[id].status.Approved?
    ensures CanApprove(db.rules, db.approvals[id], user)
    ensures Approvers(db.decisions, id) + {user.name} <= Approvers(PerformAll(db, steps).decisions, id)
    decreases |steps|
  {
    var step, db1 := steps[0], Perform(db, steps[0]);
    PerformKeepsInv(db, step);
    StepKeepsRecord(db, step, id);
    if db1.approvals[id].status.Pending? {
      user := ApprovedBySomeone(db1, steps[1..], id);
      StepKeepsPermission(db, step, id, user);
      StepKeepsApprovers(db, step, id);
    } else {
      FinalRecordsNeverChange(db1, steps[1..], id);
      ApprovingStep(db, step, id);
      user := step.user;
      ApproveOnce(db, id, user);
      RunKeepsApprovers(db1, steps[1..], id);
    }
  }

  // ----- When approvers are counted after all -----

  /** Whatever happens from here on: once approved, the request has had as many different
      approvers as it requires. */
  ghost predicate DistinctApproversEnforced(db: Db, id: int)
    requires id in db.approvals
  {
    forall steps: seq<Step> ::
      var db' := PerformAll(db, steps);
      id in db'.approvals && db'.approvals[id].status.Approved? ==>
        |Approvers(db'.decisions, id)| >= AtLeastOne(db.approvals[id].requiresCount)
  }

  /** The code enforces distinct approvers of a pending request if and only if every user who
      may approve it now would, added to those who have, complete the required number. */
  lemma {:induction false} DistinctApproversEnforcedIff(db: Db, id: int)
    requires Inv(db) && id in db.approvals && db.approvals[id].status.Pending?
    ensures DistinctApproversEnforced(db, id) <==>
            forall user | CanApprove(db.rules, db.approvals[id], user) ::
              |Approvers(db.decisions, id) + {user.name}| >= AtLeastOne(db.approvals[id].requiresCount)
  {
    var required := AtLeastOne(db.approvals[id].requiresCount);
    if user :| CanApprove(db.rules, db.approvals[id], user) && |Approvers(db.decisions, id) + {user.name}| < required {
      var n := PendingIsShort(db, id);
      OneApproverSuffices(db, id, user, n);
      assert !DistinctApproversEnforced(db, id);
    } else {
      forall steps: seq<Step> |
        id in PerformAll(db, steps).approvals && PerformAll(db, steps).approvals[id].status.Approved?
        ensures |Approvers(PerformAll(db, steps).decisions, id)| >= required
      {
        var user := ApprovedBySomeone(db, steps, id);
        SubsetSize(Approvers(db.decisions, id) + {user.name}, Approvers(PerformAll(db, steps).decisions, id));
      }
    }
  }

  lemma {:induction false} NobodyApproved(decisions: seq<Decision>, id: int)
    ensures Approvers(decisions, id) == {} <==> Approving(decisions, id) == 0
    decreases |decisions|
  {
    if decisions != [] {
      NobodyApproved(decisions[..|decisions| - 1], id);
    }
  }

  /** For a new request that somebody may approve: if and only if it requires at most one. */
  lemma NewRequestEnforcedIffOneRequired(db: Db, id: int, user: User)
    requires Inv(db) && id in db.approvals && db.approvals[id].status.Pending?
    requires db.approvals[id].approvalCount == 0 && CanApprove(db.rules, db.approvals[id], user)
    ensures DistinctApproversEnforced(db, id) <==> db.approvals[id].requiresCount <= 1
  {
    DistinctApproversEnforcedIff(db, id);
    assert RecordInv(db.approvals[id], Approving(db.decisions, id), Rejecting(db.decisions, id),
                     Triggers(db.triggered, id));
    NobodyApproved(db.decisions, id);
    assert forall u: User :: Approvers(db.decisions, id) + {u.name} == {u.name};
  }
}
