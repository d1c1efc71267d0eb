/** The protocol's transactions as the service writes them: methods that update the tables in place.
    Each leaves exactly the rows, and gives exactly the reply, of its function in RecoveryDb. */
module RecoveryStore {
  import opened Options
  import opened Lifecycle
  import opened Policy
  import opened RecoveryDb
  import IncidentGraph

  class Store {
    var incidents: seq<Incident>
    var plans: seq<Plan>
    var approvals: seq<Approval>
    var executions: seq<Execution>
    var checks: seq<Check>

    constructor ()
      ensures Rows() == Db([], [], [], [], [])
    {
      incidents, plans, approvals, executions, checks := [], [], [], [], [];
    }

    function Rows(): Db
      reads this
    {
      Db(incidents, plans, approvals, executions, checks)
    }

    /** `incident.status = target`, after `ensure_transition`. */
    method SetStatus(inc: Id, target: Status)
      requires inc < |incidents|
      modifies this`incidents
      ensures Rows() == SetIncident(old(Rows()), inc, Moved(old(incidents)[inc], target))
    {
      incidents := incidents[inc := incidents[inc].(status := target, trail := incidents[inc].trail + [target])];
    }

    /** `approve_incident`: on success exactly the latest plan becomes APPROVED and one decision is added. */
    method ApproveIncident(inc: Id, hash: string, user: Id, config: Option<RecoveryConfig>, now: int)
      returns (reply: RouteReply)
      modifies this`plans, this`approvals
      ensures (Rows(), reply) == RecoveryDb.ApproveIncident(old(Rows()), inc, hash, user, config, now)
    {
      var latest := LatestPlan(plans, inc);
      if inc >= |incidents| || latest.None? { return Refused(NOT_FOUND); }
      var plan := latest.value;
      if incidents[inc].status != WAITING_APPROVAL { return Refused(CONFLICT); }
      if plans[plan].hash != hash { return Refused(CONFLICT); }
      if plans[plan].status != PENDING_APPROVAL || plans[plan].graphRun == "" { return Refused(CONFLICT); }
      var verdict := Evaluate(plans[plan].rollback, Some(incidents[inc].scope), config);
      if verdict.Raised? { return Refused(RAISED); }
      if verdict.Denied? { return Refused(FORBIDDEN); }
      plans := plans[plan := plans[plan].(status := APPROVED)];
      approvals := approvals + [Approval(plan, hash, user, Approve, now)];
      return Decided(|approvals| - 1, plan);
    }

    method RejectIncident(inc: Id, hash: string, user: Id, now: int) returns (reply: RouteReply)
      modifies this`incidents, this`plans, this`approvals
      ensures (Rows(), reply) == RecoveryDb.RejectIncident(old(Rows()), inc, hash, user, now)
    {
      var latest := LatestPlan(plans, inc);
      if inc >= |incidents| || latest.None? { return Refused(NOT_FOUND); }
      var plan := latest.value;
      if incidents[inc].status != WAITING_APPROVAL { return Refused(CONFLICT); }
      if plans[plan].hash != hash { return Refused(CONFLICT); }
      if plans[plan].status != PENDING_APPROVAL { return Refused(CONFLICT); }
      plans := plans[plan := plans[plan].(status := REJECTED)];
      SetStatus(inc, NEED_HUMAN);
      approvals := approvals + [Approval(plan, hash, user, Reject, now)];
      return Decided(|approvals| - 1, plan);
    }

    method RetryInvestigation(inc: Id) returns (committed: bool)
      modifies this`incidents
      ensures (Rows(), committed) == RecoveryDb.RetryInvestigation(old(Rows()), inc)
    {
      if inc >= |incidents| || incidents[inc].status != NEED_HUMAN { return false; }
      SetStatus(inc, TRIAGING);
      return true;
    }

    method StartBegin(inc: Id) returns (go: bool)
      modifies this`incidents
      ensures (Rows(), go) == RecoveryDb.StartBegin(old(Rows()), inc)
    {
      if inc >= |incidents| { return false; }
      if incidents[inc].status != RECEIVED && incidents[inc].status != TRIAGING { return false; }
      if incidents[inc].status == RECEIVED {
        SetStatus(inc, TRIAGING);
      }
      return true;
    }

    method PersistPlan(inc: Id, run: string, draft: Option<IncidentGraph.PlanDraft>)
      modifies this`plans
      ensures Rows() == RecoveryDb.PersistPlan(old(Rows()), inc, run, draft)
    {
      if draft.None? { return; }
      var plan := PlanWithHash(plans, inc, draft.value.hash);
      if plan.Some? && plans[plan.value].status == PENDING_APPROVAL { return; }
      var latest := LatestPlan(plans, inc);
      var version := if latest.Some? then plans[latest.value].version else 0;
      plans := plans + [Plan(inc, run, version + 1, draft.value.rollback, draft.value.criteria, draft.value.hash, PENDING_APPROVAL)];
    }

    /** The loop that assigns one status of the path after another; `false` is the raised transition error. */
    method WalkPath(inc: Id, path: seq<Status>) returns (ok: bool)
      requires inc < |incidents|
      modifies this`incidents
      ensures var i := old(incidents)[inc]; var hops := Walk(i.status, path);
        && (ok <==> hops.Some?)
        && (ok ==> incidents == old(incidents)[inc := i.(status := Last(i.status, hops.value), trail := i.trail + hops.value)])
    {
      var k := 0;
      ghost var i := incidents[inc];
      ghost var hops: seq<Status> := [];
      assert i.trail + hops == i.trail && old(incidents)[inc := i] == old(incidents);
      assert path[0..] == path;
      PrependNothing(Walk(i.status, path));
      while k < |path|
        invariant 0 <= k <= |path|
        invariant incidents == old(incidents)[inc := i.(status := Last(i.status, hops), trail := i.trail + hops)]
        invariant Walk(i.status, path) == Prepend(hops, Walk(Last(i.status, hops), path[k..]))
      {
        assert path[k..][1..] == path[k + 1..];
        var current := incidents[inc].status;
        if current != path[k] {
          if EnsureTransition(current, path[k]).None? { return false; }
          SetStatus(inc, path[k]);
          PrependMore(hops, path[k], Walk(path[k], path[k + 1..]));
          assert (i.trail + hops) + [path[k]] == i.trail + (hops + [path[k]]);
          hops := hops + [path[k]];
        }
        k := k + 1;
      }
      assert hops + [] == hops;
      return true;
    }

    /** Second transaction of `_start_incident`: a raised transition error rolls the whole session back. */
    method StartFinish(inc: Id, run: string, status: Status, draft: Option<IncidentGraph.PlanDraft>) returns (ok: bool)
      modifies this`incidents, this`plans
      ensures (Rows(), ok) == RecoveryDb.StartFinish(old(Rows()), inc, run, status, draft)
    {
      hide Walk;
      if inc >= |incidents| { return false; }
      var incidentsBefore, plansBefore := incidents, plans;
      var previous := incidents[inc].status;
      PersistPlan(inc, run, draft);
      if previous == status { return true; }
      ok := WalkPath(inc, GraphPath(status));
      if !ok {
        incidents, plans := incidentsBefore, plansBefore;
      }
    }

    method MarkNeedHuman(inc: Id)
      modifies this`incidents
      ensures Rows() == RecoveryDb.MarkNeedHuman(old(Rows()), inc)
    {
      if inc >= |incidents| { return; }
      if incidents[inc].status !in {NEED_HUMAN, RESOLVED, Lifecycle.FAILED} {
        SetStatus(inc, NEED_HUMAN);
      }
    }

    /** First transaction of `execute_approved_plan`. */
    method ExecuteBegin(inc: Id, plan: Id, config: Option<RecoveryConfig>) returns (reply: ExecuteReply)
      modifies this`incidents, this`executions
      ensures (Rows(), reply) == RecoveryDb.ExecuteBegin(old(Rows()), inc, plan, config)
    {
      if inc >= |incidents| || plan >= |plans| || plans[plan].incident != inc { return PlanNotFound; }
      var approval := LatestApproval(approvals, plan, plans[plan].hash);
      if approval.None? || plans[plan].status != APPROVED { return PlanNotApproved; }
      var verdict := Evaluate(plans[plan].rollback, Some(incidents[inc].scope), config);
      if verdict.Raised? { return PolicyRaised; }
      if verdict.Denied? { return PolicyDenied; }
      if config.value.tencentTat.None? { return TatMissing; }
      var key := Key(plan, plans[plan].hash, approval.value);
      var saved := ExecutionWithKey(executions, key);
      if saved.Some? { return Saved(saved.value, executions[saved.value].status); }
      executions := executions + [Execution(plan, key, approval.value, plans[plan].hash, RUNNING)];
      if incidents[inc].status == WAITING_APPROVAL {
        SetStatus(inc, EXECUTING);
      }
      return Started(|executions| - 1);
    }

    /** Second transaction of `execute_approved_plan`. */
    method ExecuteFinish(execution: Id, answer: Answer)
      modifies this`executions
      ensures Rows() == RecoveryDb.ExecuteFinish(old(Rows()), execution, answer)
    {
      if execution >= |executions| { return; }
      executions := executions[execution := executions[execution].(status := StatusOf(answer))];
    }

    /** First transaction of `verify_executed_plan`. */
    method VerifyBegin(inc: Id, plan: Id, execution: Id) returns (reply: VerifyReply)
      modifies this`incidents
      ensures (Rows(), reply) == RecoveryDb.VerifyBegin(old(Rows()), inc, plan, execution)
    {
      if !OwnsPlan(Rows(), inc, plan) || execution >= |executions| || executions[execution].plan != plan {
        return NotVerifiable;
      }
      if executions[execution].status != SUCCEEDED { return NotVerifiable; }
      var existing := ChecksOf(checks, execution);
      if existing != [] { return StoredReply(Rows(), inc, existing); }
      if incidents[inc].status == EXECUTING {
        SetStatus(inc, VERIFYING);
      } else if incidents[inc].status != VERIFYING {
        return NotVerifiable;
      }
      return Proceed(plans[plan].criteria);
    }

    /** Second transaction of `verify_executed_plan`, which adds the check rows one by one. */
    method VerifyFinish(inc: Id, plan: Id, execution: Id, v: Verification, now: int) returns (reply: VerifyReply)
      modifies this`incidents, this`plans, this`checks
      ensures (Rows(), reply) == RecoveryDb.VerifyFinish(old(Rows()), inc, plan, execution, v, now)
    {
      if !OwnsPlan(Rows(), inc, plan) || execution >= |executions| { return NotVerifiable; }
      var existing := ChecksOf(checks, execution);
      if existing != [] { return StoredReply(Rows(), inc, existing); }
      var batch := |checks|;
      for k := 0 to |v.checks|
        invariant incidents == old(incidents) && plans == old(plans)
        invariant checks == old(checks) + CheckRows(inc, execution, v, batch)[..k]
      {
        var row := Check(inc, execution, v.checks[k].name, v.checks[k].status, if v.passed then PASSED else FAILED_CHECK, batch);
        assert CheckRows(inc, execution, v, batch)[..k + 1] == CheckRows(inc, execution, v, batch)[..k] + [row];
        checks := checks + [row];
      }
      assert CheckRows(inc, execution, v, batch)[..|v.checks|] == CheckRows(inc, execution, v, batch);
      if incidents[inc].status != VERIFYING { return Recorded(incidents[inc].status, v.passed); }
      if v.passed {
        SetStatus(inc, RESOLVED);
        incidents := incidents[inc := incidents[inc].(resolvedAt := Some(now))];
        assert incidents == old(incidents)[inc := incidents[inc]];
        plans := plans[plan := plans[plan].(status := EXECUTED)];
      } else {
        SetStatus(inc, NEED_HUMAN);
      }
      return Recorded(incidents[inc].status, v.passed);
    }
  }

  /** The hops already taken, in front of those still to come. */
  function Prepend(hops: seq<Status>, rest: Option<seq<Status>>): Option<seq<Status>> {
    match rest
    case None => None
    case Some(more) => Some(hops + more)
  }

  lemma PrependNothing(rest: Option<seq<Status>>)
    ensures Prepend([], rest) == rest
  {
    if rest.Some? {
      assert [] + rest.value == rest.value;
    }
  }

  lemma PrependMore(hops: seq<Status>, hop: Status, rest: Option<seq<Status>>)
    ensures Prepend(hops + [hop], rest) == Prepend(hops, Prepend([hop], rest))
  {
    if rest.Some? {
      assert hops + [hop] + rest.value == hops + ([hop] + rest.value);
    }
  }
}
