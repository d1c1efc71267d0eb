/** What each request and task of the recovery protocol does, said without its function: exactly when it
    acts, and what is then stored. */
module RecoveryLaws {
  import opened Options
  import opened Lifecycle
  import opened Policy
  import opened RecoveryDb
  import opened RecoveryProtocol
  import opened RecoveryGuarantees
  import IncidentGraph

  /** The service is configured for approved Tencent rollbacks, the plan's versions are well formed, and the
      plan is for the incident's own scope. */
  predicate Permits(r: Rollback, scope: Scope, config: Option<RecoveryConfig>) {
    && IsVersion(r.currentVersion) && IsVersion(r.targetVersion)
    && config.Some? && config.value.provider == Some("tencent_tat") && config.value.rollbackRule == Some("approval")
    && scope == r.scope
  }

  /** Plan `p` is the incident's plan with the highest version, the last stored of them. */
  ghost predicate IsNewest(plans: seq<Plan>, inc: Id, p: Id) {
    p < |plans| && plans[p].incident == inc && forall q :: p < q < |plans| ==> plans[q].incident != inc
  }

  ghost predicate HasPlan(plans: seq<Plan>, inc: Id) { exists p :: 0 <= p < |plans| && plans[p].incident == inc }

  lemma NewestIsLatest(plans: seq<Plan>, inc: Id)
    requires VersionsRise(plans)
    ensures HasPlan(plans, inc) <==> LatestPlan(plans, inc).Some?
    ensures LatestPlan(plans, inc).Some? ==> IsNewest(plans, inc, LatestPlan(plans, inc).value)
    ensures forall p: nat :: IsNewest(plans, inc, p) ==> LatestPlan(plans, inc) == Some(p)
  {
    hide LatestPlan;
    var latest := LatestPlan(plans, inc);
    forall p: nat | IsNewest(plans, inc, p) ensures latest == Some(p) {
      assert plans[p].incident == inc;
    }
  }

  // ---------------------------------------------------------------- decisions

  /** In every reachable state an approval is recorded exactly when the incident waits for one and its newest
      plan is pending, resumable, has the submitted hash and is permitted; then that plan becomes APPROVED, one
      decision is added and nothing else changes. A refused request changes nothing. */
  lemma ApprovesExactly(run: seq<Sys>, i: nat, inc: Id, p: Id, hash: string, user: Id, config: Option<RecoveryConfig>, now: int)
    requires IsRun(run) && i < |run|
    ensures var db := run[i].db; var (y, reply) := ApproveIncident(db, inc, hash, user, config, now);
      && (reply.Refused? ==> y == db)
      && (reply == Refused(NOT_FOUND) <==> inc >= |db.incidents| || !HasPlan(db.plans, inc))
      && (inc < |db.incidents| && IsNewest(db.plans, inc, p) ==>
            var r, approvable := db.plans[p].rollback, db.incidents[inc].status == WAITING_APPROVAL && db.plans[p].hash == hash
                                                       && db.plans[p].status == PENDING_APPROVAL && db.plans[p].graphRun != "";
            && (reply == Refused(CONFLICT) <==> !approvable)
            && (reply == Refused(RAISED) <==> approvable && !(IsVersion(r.currentVersion) && IsVersion(r.targetVersion)))
            && (reply.Decided? <==>
                  && db.incidents[inc].status == WAITING_APPROVAL && db.plans[p].status == PENDING_APPROVAL
                  && db.plans[p].hash == hash && db.plans[p].graphRun != ""
                  && Permits(db.plans[p].rollback, db.incidents[inc].scope, config))
            && (reply.Decided? ==>
                  && reply == RouteReply.Decided(|db.approvals|, p)
                  && y == db.(plans := db.plans[p := db.plans[p].(status := APPROVED)],
                              approvals := db.approvals + [Approval(p, hash, user, Approve, now)])))
  {
    RunVersions(run, i);
    var db := run[i].db;
    NewestIsLatest(db.plans, inc);
    hide IsRun, LatestPlan, VersionsRise, HasPlan, IsNewest;
    var latest := LatestPlan(db.plans, inc);
    if inc < |db.incidents| && latest.Some? {
      AllowedExactly(db.plans[latest.value].rollback, Some(db.incidents[inc].scope), config);
    }
    hide Evaluate;
  }

  /** A rejection is recorded under the same conditions except resumability and the policy; then the plan is
      REJECTED and its incident handed to a human. */
  lemma RejectsExactly(run: seq<Sys>, i: nat, inc: Id, p: Id, hash: string, user: Id, now: int)
    requires IsRun(run) && i < |run|
    ensures var db := run[i].db; var (y, reply) := RejectIncident(db, inc, hash, user, now);
      && (reply.Refused? ==> y == db)
      && (reply == Refused(NOT_FOUND) <==> inc >= |db.incidents| || !HasPlan(db.plans, inc))
      && (inc < |db.incidents| && IsNewest(db.plans, inc, p) ==>
            && (reply.Decided? <==>
                  db.incidents[inc].status == WAITING_APPROVAL && db.plans[p].status == PENDING_APPROVAL && db.plans[p].hash == hash)
            && (reply.Decided? ==>
                  && reply == RouteReply.Decided(|db.approvals|, p)
                  && y.plans == db.plans[p := db.plans[p].(status := REJECTED)]
                  && y.approvals == db.approvals + [Approval(p, hash, user, Reject, now)]
                  && y.incidents == db.incidents[inc := db.incidents[inc].(status := NEED_HUMAN, trail := db.incidents[inc].trail + [NEED_HUMAN])]
                  && y.executions == db.executions && y.checks == db.checks))
  {
    RunVersions(run, i);
    NewestIsLatest(run[i].db.plans, inc);
    hide IsRun, LatestPlan, VersionsRise, HasPlan, IsNewest;
  }

  /** The decision a plan's status stands for. */
  ghost predicate HasDecision(db: Db, p: Id, d: Decision)
    requires p < |db.plans|
  {
    exists a :: 0 <= a < |db.approvals| && db.approvals[a].plan == p && db.approvals[a].planHash == db.plans[p].hash
      && db.approvals[a].decision == d
  }

  /** A plan's status says exactly what was decided about it. */
  ghost predicate StatusDecided(db: Db, p: Id)
    requires p < |db.plans|
  {
    match db.plans[p].status
    case PENDING_APPROVAL => !HasDecision(db, p, Approve) && !HasDecision(db, p, Reject)
    case APPROVED => HasDecision(db, p, Approve)
    case REJECTED => HasDecision(db, p, Reject)
    case EXECUTED => HasDecision(db, p, Approve)
  }

  ghost predicate AllDecided(db: Db) { forall p :: 0 <= p < |db.plans| ==> StatusDecided(db, p) }

  /** Without a new decision, plans that keep their status, or go from APPROVED to EXECUTED, keep what was
      decided; new plans are pending. */
  lemma NoDecision(x: Db, y: Db)
    requires AllDecided(x) && y.approvals == x.approvals && |x.plans| <= |y.plans|
    requires forall a :: 0 <= a < |x.approvals| ==> x.approvals[a].plan < |x.plans|
    requires forall p :: 0 <= p < |x.plans| ==>
      y.plans[p].hash == x.plans[p].hash && (y.plans[p].status == x.plans[p].status || (x.plans[p].status == APPROVED && y.plans[p].status == EXECUTED))
    requires forall p :: |x.plans| <= p < |y.plans| ==> y.plans[p].status == PENDING_APPROVAL
    ensures AllDecided(y)
  {
    forall p | 0 <= p < |y.plans| ensures StatusDecided(y, p) {
      if p < |x.plans| {
        assert StatusDecided(x, p);
        assert forall d :: HasDecision(y, p, d) <==> HasDecision(x, p, d);
      }
    }
  }

  lemma DecidingKeeps(x: Db, y: Db, p: Id, a: Approval)
    requires AllDecided(x) && p < |x.plans| && a.plan == p && a.planHash == x.plans[p].hash
    requires y.plans == x.plans[p := x.plans[p].(status := if a.decision == Approve then APPROVED else REJECTED)]
    requires y.approvals == x.approvals + [a]
    ensures AllDecided(y)
  {
    forall q | 0 <= q < |y.plans| ensures StatusDecided(y, q) {
      if q == p {
        assert y.approvals[|x.approvals|] == a;
      } else {
        assert StatusDecided(x, q);
        forall d ensures HasDecision(y, q, d) <==> HasDecision(x, q, d) {
          if HasDecision(x, q, d) {
            var b :| 0 <= b < |x.approvals| && x.approvals[b].plan == q && x.approvals[b].planHash == x.plans[q].hash && x.approvals[b].decision == d;
            assert y.approvals[b] == x.approvals[b];
          }
        }
      }
    }
  }

  lemma OthersDoNotDecide(s: Sys, a: Action)
    requires !a.UserApproves? && !a.UserRejects?
    ensures Next(s, a).db.approvals == s.db.approvals
    ensures forall p :: |s.db.plans| <= p < |Next(s, a).db.plans| ==> Next(s, a).db.plans[p].status == PENDING_APPROVAL
  {
    hide Evaluate, LatestApproval, LatestPlan, PlanWithHash, ExecutionWithKey, Walk, IncidentGraph.StartOutcome;
  }

  lemma OthersOnlyAddPlans(s: Sys, a: Action)
    requires !a.UserApproves? && !a.UserRejects? && !a.TaskSavesChecks?
    ensures s.db.plans <= Next(s, a).db.plans
  {
    hide Evaluate, LatestApproval, LatestPlan, PlanWithHash, ExecutionWithKey, Walk, IncidentGraph.StartOutcome, ChecksOf;
  }

  /** Outside decisions a plan's status changes only from APPROVED to EXECUTED. */
  lemma OthersKeepPlans(s: Sys, a: Action)
    requires Inv(s) && !a.UserApproves? && !a.UserRejects?
    ensures |s.db.plans| <= |Next(s, a).db.plans|
    ensures forall p :: 0 <= p < |s.db.plans| ==> var x, y := s.db.plans[p], Next(s, a).db.plans[p];
      y.hash == x.hash && (y.status == x.status || (x.status == APPROVED && y.status == EXECUTED))
  {
    hide Next, Inv;
    if a.TaskSavesChecks? {
      ResolvingKeepsPlans(s, a);
    } else {
      OthersOnlyAddPlans(s, a);
    }
  }

  lemma ResolvingKeepsPlans(s: Sys, a: Action)
    requires Inv(s) && a.TaskSavesChecks?
    ensures |Next(s, a).db.plans| == |s.db.plans|
    ensures forall p :: 0 <= p < |s.db.plans| ==> var x, y := s.db.plans[p], Next(s, a).db.plans[p];
      y.hash == x.hash && (y.status == x.status || (x.status == APPROVED && y.status == EXECUTED))
  {
    if a.w < |s.workers| && s.workers[a.w].Checking? {
      var t := s.workers[a.w];
      CheckedPlanIsApproved(s, a.w);
      hide Inv, ChecksOf, VerifyRecovery, CheckRows;
      var y := VerifyFinish(s.db, t.inc, t.plan, t.execution, VerifyRecovery(t.criteria, a.logs), a.now).0;
      assert Next(s, a).db == y;
      assert y.plans == s.db.plans || y.plans == s.db.plans[t.plan := s.db.plans[t.plan].(status := EXECUTED)];
    }
  }

  lemma CheckedPlanIsApproved(s: Sys, w: nat)
    requires Inv(s) && w < |s.workers| && s.workers[w].Checking?
    ensures s.workers[w].plan < |s.db.plans| && s.db.plans[s.workers[w].plan].status in {APPROVED, EXECUTED}
  {
    assert WorkerOk(s, s.workers[w]);
    var row := s.db.executions[s.workers[w].execution];
    assert ExecutionOk(s.db, row);
    assert ApprovalOk(s.db, s.db.approvals[row.approval]);
  }

  lemma StepDecided(s: Sys, a: Action)
    requires Inv(s) && VersionsRise(s.db.plans) && AllDecided(s.db)
    ensures AllDecided(Next(s, a).db)
  {
    hide AllDecided, LatestPlan, Evaluate, Inv, VersionsRise;
    if a.UserApproves? {
      var (y, reply) := ApproveIncident(s.db, a.inc, a.hash, a.user, a.config, a.now);
      if reply.Decided? { DecidingKeeps(s.db, y, reply.plan, y.approvals[|s.db.approvals|]); }
    } else if a.UserRejects? {
      var (y, reply) := RejectIncident(s.db, a.inc, a.hash, a.user, a.now);
      if reply.Decided? { DecidingKeeps(s.db, y, reply.plan, y.approvals[|s.db.approvals|]); }
    } else {
      OthersDoNotDecide(s, a);
      hide Next, Inv;
      OthersKeepPlans(s, a);
      PlansOfApprovals(s);
      NoDecision(s.db, Next(s, a).db);
    }
  }

  lemma PlansOfApprovals(s: Sys)
    requires Inv(s)
    ensures forall a :: 0 <= a < |s.db.approvals| ==> s.db.approvals[a].plan < |s.db.plans|
  {
    assert forall a :: 0 <= a < |s.db.approvals| ==> ApprovalOk(s.db, s.db.approvals[a]);
  }

  /** In every reachable state a pending plan has no decision, an approved or executed one an approval and a
      rejected one a rejection, each for the plan's own hash. */
  lemma {:induction false} PlanStatusIsDecided(run: seq<Sys>, i: nat)
    requires IsRun(run) && i < |run|
    ensures AllDecided(run[i].db)
  {
    if i > 0 {
      PlanStatusIsDecided(run, i - 1);
      RunKeeps(run, i - 1);
      RunVersions(run, i - 1);
      assert Steps(run[i - 1], run[i]);
      hide Inv, Next, AllDecided, VersionsRise;
      var a :| run[i] == Next(run[i - 1], a);
      StepDecided(run[i - 1], a);
    }
  }

  // ---------------------------------------------------------------- execution

  ghost predicate HasExecution(db: Db, plan: Id) { exists e :: 0 <= e < |db.executions| && db.executions[e].plan == plan }

  /** In every reachable state execution starts exactly for an approved, still permitted plan of the incident
      with a Tencent configuration and without an execution row. It then stores one RUNNING row for the plan,
      its hash and an approval of that hash, and moves a waiting incident to EXECUTING. */
  lemma ExecutesExactly(run: seq<Sys>, i: nat, inc: Id, plan: Id, config: Option<RecoveryConfig>)
    requires IsRun(run) && i < |run|
    ensures var db := run[i].db; var (y, reply) := ExecuteBegin(db, inc, plan, config);
      && (reply == PlanNotFound <==> !(inc < |db.incidents| && plan < |db.plans| && db.plans[plan].incident == inc))
      && (reply == PlanNotApproved <==> reply != PlanNotFound && db.plans[plan].status != APPROVED)
      && (reply.Started? <==>
            && inc < |db.incidents| && plan < |db.plans| && db.plans[plan].incident == inc
            && db.plans[plan].status == APPROVED && Permits(db.plans[plan].rollback, db.incidents[inc].scope, config)
            && config.value.tencentTat.Some? && !HasExecution(db, plan))
      && (reply != PlanNotFound && reply != PlanNotApproved ==>
            var r := db.plans[plan].rollback; var permitted := Permits(r, db.incidents[inc].scope, config);
            && (reply == PolicyRaised <==> !IsVersion(r.currentVersion) || !IsVersion(r.targetVersion))
            && (reply == PolicyDenied <==> IsVersion(r.currentVersion) && IsVersion(r.targetVersion) && !permitted)
            && (reply == TatMissing <==> permitted && config.value.tencentTat.None?)
            && (reply.Saved? <==> permitted && config.value.tencentTat.Some? && HasExecution(db, plan))
            && (reply.Saved? ==> reply.execution < |db.executions| && db.executions[reply.execution].plan == plan
                                 && reply.status == db.executions[reply.execution].status))
      && (!reply.Started? ==> y == db)
      && (reply.Started? ==>
            && reply.execution == |db.executions| && |y.executions| == |db.executions| + 1 && db.executions <= y.executions
            && y.plans == db.plans && y.approvals == db.approvals && y.checks == db.checks
            && var e := y.executions[|db.executions|];
               && e.plan == plan && e.planHash == db.plans[plan].hash && e.status == RUNNING
               && e.approval < |db.approvals|
               && db.approvals[e.approval].plan == plan && db.approvals[e.approval].planHash == db.plans[plan].hash
               && db.approvals[e.approval].decision == Approve
               && y.incidents == if db.incidents[inc].status != WAITING_APPROVAL then db.incidents
                  else db.incidents[inc := db.incidents[inc].(status := EXECUTING, trail := db.incidents[inc].trail + [EXECUTING])])
  {
    var db := run[i].db;
    RunKeeps(run, i);
    PlanStatusIsDecided(run, i);
    hide IsRun;
    if inc < |db.incidents| && plan < |db.plans| && db.plans[plan].incident == inc && db.plans[plan].status == APPROVED {
      assert StatusDecided(db, plan);
      ApprovalIsFound(db, plan);
      AllowedExactly(db.plans[plan].rollback, Some(db.incidents[inc].scope), config);
      KeyIsFree(db, plan);
    }
    hide Inv, AllDecided, Evaluate, LatestApproval, ExecutionWithKey, HasExecution;
  }

  lemma ApprovalIsFound(db: Db, plan: Id)
    requires plan < |db.plans| && HasDecision(db, plan, Approve)
    ensures LatestApproval(db.approvals, plan, db.plans[plan].hash).Some?
  {
    var a :| 0 <= a < |db.approvals| && db.approvals[a].plan == plan && db.approvals[a].planHash == db.plans[plan].hash
      && db.approvals[a].decision == Approve;
    assert Approves(db.approvals[a], plan, db.plans[plan].hash);
  }

  lemma KeyIsFree(db: Db, plan: Id)
    requires DbOk(db) && plan < |db.plans|
    ensures var a := LatestApproval(db.approvals, plan, db.plans[plan].hash);
      var saved := ExecutionWithKey(db.executions, Key(plan, db.plans[plan].hash, if a.Some? then a.value else 0));
      a.Some? ==> (HasExecution(db, plan) <==> saved.Some?) && (saved.Some? ==> db.executions[saved.value].plan == plan)
  {
    var a := LatestApproval(db.approvals, plan, db.plans[plan].hash);
    if a.Some? && HasExecution(db, plan) {
      var e :| 0 <= e < |db.executions| && db.executions[e].plan == plan;
      assert ExecutionOk(db, db.executions[e]);
      assert db.approvals[db.executions[e].approval].plan == plan;
      assert db.executions[e].key == Key(plan, db.plans[plan].hash, a.value);
    }
    forall e | 0 <= e < |db.executions| ensures db.executions[e].key.plan == db.executions[e].plan {
      assert ExecutionOk(db, db.executions[e]);
    }
  }

  // ---------------------------------------------------------------- verification

  /** Stored rows are answered for the incident's own SUCCEEDED execution, and count as passed exactly when the incident
      is RESOLVED and all of them passed. Verification goes ahead exactly for the incident's own plan and execution, SUCCEEDED, without stored rows,
      while the incident is EXECUTING or already VERIFYING; it leaves the incident VERIFYING and changes
      nothing else. Any other request changes nothing. */
  lemma VerificationStartsExactly(db: Db, inc: Id, plan: Id, e: Id)
    ensures var (y, reply) := VerifyBegin(db, inc, plan, e);
      && (reply.Proceed? <==>
            && inc < |db.incidents| && plan < |db.plans| && db.plans[plan].incident == inc
            && e < |db.executions| && db.executions[e].plan == plan && db.executions[e].status == SUCCEEDED
            && db.incidents[inc].status in {EXECUTING, VERIFYING}
            && forall k :: 0 <= k < |db.checks| ==> db.checks[k].execution != e)
      && (!reply.Proceed? ==> y == db)
      && (reply.Stored? <==>
            && inc < |db.incidents| && plan < |db.plans| && db.plans[plan].incident == inc
            && e < |db.executions| && db.executions[e].plan == plan && db.executions[e].status == SUCCEEDED
            && exists k :: 0 <= k < |db.checks| && db.checks[k].execution == e)
      && (reply.Stored? ==>
            && reply.status == db.incidents[inc].status
            && (reply.passed <==> reply.status == RESOLVED
                                  && forall k :: 0 <= k < |db.checks| && db.checks[k].execution == e ==> db.checks[k].conclusion == PASSED))
      && (reply.Proceed? ==>
            && reply.criteria == db.plans[plan].criteria
            && y == db.(incidents := y.incidents)
            && y.incidents == if db.incidents[inc].status == VERIFYING then db.incidents
               else db.incidents[inc := db.incidents[inc].(status := VERIFYING, trail := db.incidents[inc].trail + [VERIFYING])])
  {
    StoredRows(db.checks, e);
    hide ChecksOf;
  }

  lemma {:induction false} StoredRows(checks: seq<Check>, e: Id)
    ensures ChecksOf(checks, e) == [] <==> forall k :: 0 <= k < |checks| ==> checks[k].execution != e
    ensures StoredPassed(checks, e) <==> Passed(ChecksOf(checks, e))
  {
    if checks != [] {
      var n := |checks| - 1;
      var front, last := ChecksOf(checks[..n], e), checks[n];
      StoredRows(checks[..n], e);
      assert checks[..n] + [last] == checks;
      assert ChecksOf(checks, e) == if last.execution == e then front + [last] else front;
      assert StoredPassed(checks, e) <==> StoredPassed(checks[..n], e) && (last.execution == e ==> last.conclusion == PASSED);
      PassedAppend(front, last);
      hide StoredPassed, Passed;
    }
  }

  predicate Passed(rows: seq<Check>) { forall k :: 0 <= k < |rows| ==> rows[k].conclusion == PASSED }

  lemma PassedAppend(rows: seq<Check>, c: Check)
    ensures Passed(rows + [c]) <==> Passed(rows) && c.conclusion == PASSED
  {
    assert (rows + [c])[|rows|] == c && forall k :: 0 <= k < |rows| ==> (rows + [c])[k] == rows[k];
  }

  ghost predicate StoredPassed(checks: seq<Check>, e: Id) {
    forall k :: 0 <= k < |checks| && checks[k].execution == e ==> checks[k].conclusion == PASSED
  }

  /** The rows that one verification stores: a single error-log check when the logs could be read, otherwise one
      unavailable check per criterion; the conclusion is PASSED exactly when the logs show no error. */
  ghost predicate RowsTell(rows: seq<Check>, inc: Id, e: Id, criteria: seq<string>, logs: Logs) {
    && (forall k :: 0 <= k < |rows| ==>
          rows[k].incident == inc && rows[k].execution == e && (rows[k].conclusion == PASSED <==> logs == LogEntries(0)))
    && match logs
       case LogEntries(n) =>
         |rows| == 1 && rows[0].name == "cls_error_logs" && rows[0].status == (if n == 0 then "PASSED" else "FAILED")
       case LogsUnavailable =>
         |rows| == |criteria| && forall k :: 0 <= k < |rows| ==>
           rows[k].name == (if criteria[k] == "" then "verification" else criteria[k]) && rows[k].status == "UNAVAILABLE"
  }

  lemma {:induction false} UnavailableIs(criteria: seq<string>)
    ensures forall k :: 0 <= k < |criteria| ==>
      Unavailable(criteria)[k] == CheckItem(if criteria[k] == "" then "verification" else criteria[k], "UNAVAILABLE")
  {
    if criteria != [] {
      UnavailableIs(criteria[1..]);
    }
  }

  /** The rows after a verification is stored: those that tell the log answer are added; a VERIFYING incident
      becomes RESOLVED, at that moment and with its plan EXECUTED, when the logs show no error, and NEED_HUMAN
      otherwise; an incident that has moved on keeps its status. */
  ghost predicate Concluded(x: Db, y: Db, inc: Id, plan: Id, e: Id, criteria: seq<string>, logs: Logs, now: int)
    requires inc < |x.incidents| && plan < |x.plans|
  {
    var i, p := x.incidents[inc], x.plans[plan];
    && x.checks <= y.checks && RowsTell(y.checks[|x.checks|..], inc, e, criteria, logs)
    && y.approvals == x.approvals && y.executions == x.executions
    && if i.status != VERIFYING then y.plans == x.plans && y.incidents == x.incidents
       else if logs == LogEntries(0) then
         && y.plans == x.plans[plan := p.(status := EXECUTED)]
         && y.incidents == x.incidents[inc := i.(status := RESOLVED, trail := i.trail + [RESOLVED], resolvedAt := Some(now))]
       else
         && y.plans == x.plans
         && y.incidents == x.incidents[inc := i.(status := NEED_HUMAN, trail := i.trail + [NEED_HUMAN])]
  }

  /** Whenever a worker stores its verification, the rows say so as above, unless the execution already had
      rows: then nothing changes. */
  lemma VerificationStores(run: seq<Sys>, i: nat, w: nat, logs: Logs, now: int)
    requires IsRun(run) && i < |run| && w < |run[i].workers| && run[i].workers[w].Checking?
    ensures var t := run[i].workers[w]; var x, y := run[i].db, Next(run[i], TaskSavesChecks(w, logs, now)).db;
      var reply := VerifyFinish(x, t.inc, t.plan, t.execution, VerifyRecovery(t.criteria, logs), now).1;
      && t.inc < |x.incidents| && t.plan < |x.plans| && |y.incidents| == |x.incidents|
      && (!Checked(x, t.execution) ==> reply == Recorded(y.incidents[t.inc].status, logs == LogEntries(0)))
      && if Checked(x, t.execution) then y == x else Concluded(x, y, t.inc, t.plan, t.execution, t.criteria, logs, now)
  {
    RunKeeps(run, i);
    var t := run[i].workers[w];
    assert WorkerOk(run[i], t);
    hide Inv, IsRun, Checked, Concluded, VerifyFinish, VerifyRecovery;
    FinishConcludes(run[i].db, t.inc, t.plan, t.execution, t.criteria, logs, now);
  }

  lemma FinishConcludes(x: Db, inc: Id, plan: Id, e: Id, criteria: seq<string>, logs: Logs, now: int)
    requires OwnsPlan(x, inc, plan) && e < |x.executions|
    ensures var y := VerifyFinish(x, inc, plan, e, VerifyRecovery(criteria, logs), now).0;
      && |y.incidents| == |x.incidents|
      && (!Checked(x, e) ==>
            VerifyFinish(x, inc, plan, e, VerifyRecovery(criteria, logs), now).1 == Recorded(y.incidents[inc].status, logs == LogEntries(0)))
      && if Checked(x, e) then y == x else Concluded(x, y, inc, plan, e, criteria, logs, now)
  {
    StoredRows(x.checks, e);
    var v := VerifyRecovery(criteria, logs);
    RowsAreTold(inc, e, criteria, logs, |x.checks|);
    assert Checked(x, e) <==> ChecksOf(x.checks, e) != [];
    assert v.passed <==> logs == LogEntries(0);
    var rows := CheckRows(inc, e, v, |x.checks|);
    hide ChecksOf, VerifyRecovery, CheckRows, RowsTell, Checked, StoredPassed, Passed, StoredReply;
    assert (x.checks + rows)[|x.checks|..] == rows;
  }

  lemma RowsAreTold(inc: Id, e: Id, criteria: seq<string>, logs: Logs, batch: nat)
    ensures RowsTell(CheckRows(inc, e, VerifyRecovery(criteria, logs), batch), inc, e, criteria, logs)
  {
    UnavailableIs(criteria);
    hide Unavailable;
  }

  // ---------------------------------------------------------------- the remaining tasks

  /** A retry takes NEED_HUMAN back to TRIAGING, giving up takes any other open incident to NEED_HUMAN, and a
      start takes RECEIVED to TRIAGING and leaves a worker exactly from RECEIVED or TRIAGING. Nothing else moves. */
  lemma SmallMovesExactly(s: Sys, inc: Id, graphRun: string)
    ensures var t := Next(s, UserRetries(inc));
      t == if inc < |s.db.incidents| && s.db.incidents[inc].status == NEED_HUMAN then s.(db := Put(s.db, inc, TRIAGING)) else s
    ensures var t := Next(s, TaskGivesUp(inc));
      t == if inc < |s.db.incidents| && s.db.incidents[inc].status !in {NEED_HUMAN, RESOLVED, Lifecycle.FAILED} then s.(db := Put(s.db, inc, NEED_HUMAN)) else s
    ensures var t := Next(s, TaskStarts(inc, graphRun));
      && t.db == (if inc < |s.db.incidents| && s.db.incidents[inc].status == RECEIVED then Put(s.db, inc, TRIAGING) else s.db)
      && t.calls == s.calls
      && t.workers == if inc < |s.db.incidents| && s.db.incidents[inc].status in {RECEIVED, TRIAGING} then s.workers + [Investigating(inc, graphRun)] else s.workers
  {
  }

  /** What the steps of the tasks do to workers and calls: a started execution leaves a worker about to make the one
      call of its row, the call is recorded with its answer, and saving the answer ends the worker; verification
      leaves a worker with the plan's criteria. A worker that dies leaves the rows and calls alone, and a new incident is
      RECEIVED. */
  lemma WorkersMoveExactly(s: Sys, a: Action)
    ensures var t := Next(s, a);
      match a
      case TaskExecutes(inc, plan, config) =>
        var (y, reply) := ExecuteBegin(s.db, inc, plan, config);
        && t.db == y && t.calls == s.calls
        && (!reply.Started? ==> t.workers == s.workers)
        && (reply.Started? ==>
              && reply.execution == |s.db.executions| < |y.executions|
              && var e := y.executions[|s.db.executions|];
                 t.workers == s.workers + [Calling(Call(plan, e.planHash, e.approval, |s.db.executions|, None))])
      case TaskCalls(w, answer) =>
        if w < |s.workers| && s.workers[w].Calling? then
          var c := s.workers[w].call;
          t == Sys(s.db, s.workers[w := Answered(c.execution, answer)],
                   s.calls + [Call(c.plan, c.planHash, c.approval, c.execution, Some(answer))])
        else t == s
      case TaskSavesAnswer(w) =>
        if w < |s.workers| && s.workers[w].Answered? then t == Sys(t.db, s.workers[w := Gone], s.calls) else t == s
      case TaskVerifies(inc, plan, execution) =>
        var (y, reply) := VerifyBegin(s.db, inc, plan, execution);
        t == Sys(y, if reply.Proceed? then s.workers + [Checking(inc, plan, execution, s.db.plans[plan].criteria)] else s.workers, s.calls)
      case TaskSavesChecks(w, logs, now) =>
        if w < |s.workers| && s.workers[w].Checking? then t == Sys(t.db, s.workers[w := Gone], s.calls) else t == s
      case TaskPersists(w, st, world) =>
        if w < |s.workers| && s.workers[w].Investigating? then t == Sys(t.db, s.workers[w := Gone], s.calls) else t == s
      case WorkerDies(w) => t == if w < |s.workers| then Sys(s.db, s.workers[w := Gone], s.calls) else s
      case AlertOpens(scope) =>
        t == Sys(s.db.(incidents := s.db.incidents + [Incident(scope, RECEIVED, [RECEIVED], None)]), s.workers, s.calls)
      case TaskStarts(_, _) => t.calls == s.calls
      case _ => t.workers == s.workers && t.calls == s.calls
  {
    hide Evaluate, LatestApproval, LatestPlan, PlanWithHash, ExecutionWithKey, Walk, IncidentGraph.StartOutcome, ChecksOf;
  }

  /** One incident given a new status, appended to its history. */
  function Put(db: Db, inc: Id, target: Status): Db
    requires inc < |db.incidents|
  {
    var i := db.incidents[inc];
    db.(incidents := db.incidents[inc := Incident(i.scope, target, i.trail + [target], i.resolvedAt)])
  }

  /** A graph's plan is stored as the incident's newest, pending, with the next version and the graph's run,
      unless the first stored plan with its hash is still pending; without a plan nothing is stored. */
  lemma PersistsExactly(db: Db, inc: Id, graphRun: string, draft: Option<IncidentGraph.PlanDraft>)
    requires VersionsRise(db.plans)
    ensures var y := PersistPlan(db, inc, graphRun, draft);
      if draft.None? || FirstIsPending(db.plans, inc, draft.value.hash) then y == db
      else
        && y == db.(plans := y.plans) && |y.plans| == |db.plans| + 1 && db.plans <= y.plans
        && var p := y.plans[|db.plans|];
           && p == Plan(inc, graphRun, p.version, draft.value.rollback, draft.value.criteria, draft.value.hash, PENDING_APPROVAL)
           && IsNewest(y.plans, inc, |db.plans|)
           && (!HasPlan(db.plans, inc) ==> p.version == 1)
           && forall q: nat :: IsNewest(db.plans, inc, q) ==> p.version == db.plans[q].version + 1
  {
    NewestIsLatest(db.plans, inc);
    if draft.Some? {
      FirstWithHash(db.plans, inc, draft.value.hash);
    }
    hide LatestPlan, PlanWithHash, HasPlan;
  }

  ghost predicate FirstIsPending(plans: seq<Plan>, inc: Id, hash: string) {
    exists p :: 0 <= p < |plans| && plans[p].incident == inc && plans[p].hash == hash && plans[p].status == PENDING_APPROVAL
      && forall q :: 0 <= q < p ==> plans[q].incident != inc || plans[q].hash != hash
  }

  lemma {:induction false} FirstWithHash(plans: seq<Plan>, inc: Id, hash: string)
    ensures var first := PlanWithHash(plans, inc, hash);
      && (first.Some? ==> forall q :: 0 <= q < first.value ==> plans[q].incident != inc || plans[q].hash != hash)
      && (FirstIsPending(plans, inc, hash) <==> first.Some? && plans[first.value].status == PENDING_APPROVAL)
  {
    if plans != [] {
      var n := |plans| - 1;
      FirstWithHash(plans[..n], inc, hash);
      assert plans == plans[..n] + [plans[n]];
      var first := PlanWithHash(plans, inc, hash);
      if FirstIsPending(plans, inc, hash) {
        var p :| 0 <= p < |plans| && plans[p].incident == inc && plans[p].hash == hash && plans[p].status == PENDING_APPROVAL
          && forall q :: 0 <= q < p ==> plans[q].incident != inc || plans[q].hash != hash;
        assert first.Some? && first.value == p;
      }
    }
  }

  /** A resume goes ahead exactly for the incident's own APPROVED plan with a graph run, while the incident still
      waits; the approval it hands over is one of that plan and hash. */
  lemma ResumesExactly(run: seq<Sys>, i: nat, inc: Id, plan: Id)
    requires IsRun(run) && i < |run|
    ensures var db := run[i].db; var approval := ResumeBegin(db, inc, plan);
      && (approval.Some? <==>
            && inc < |db.incidents| && plan < |db.plans| && db.plans[plan].incident == inc
            && db.incidents[inc].status == WAITING_APPROVAL && db.plans[plan].status == APPROVED && db.plans[plan].graphRun != "")
      && (approval.Some? ==>
            && approval.value < |db.approvals| && db.approvals[approval.value].plan == plan
            && db.approvals[approval.value].planHash == db.plans[plan].hash && db.approvals[approval.value].decision == Approve)
  {
    PlanStatusIsDecided(run, i);
    var db := run[i].db;
    if plan < |db.plans| && db.plans[plan].status == APPROVED {
      assert StatusDecided(db, plan);
      ApprovalIsFound(db, plan);
    }
  }
}
