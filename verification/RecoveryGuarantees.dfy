/** What the recovery protocol guarantees over every interleaving. */
module RecoveryGuarantees {
  import opened Options
  import opened Lifecycle
  import opened Policy
  import opened RecoveryDb
  import opened RecoveryProtocol
  import opened RecoveryAnswers
  import IncidentGraph

  /** Each plan is decided at most once, gets at most one execution row and at most one Recovery MCP
      call, and every call carries the hash its plan was approved with. */
  lemma OncePerPlan(run: seq<Sys>, i: nat)
    requires IsRun(run) && i < |run|
    ensures var s := run[i];
      && (forall a, b :: 0 <= a < |s.db.approvals| && 0 <= b < |s.db.approvals| && s.db.approvals[a].plan == s.db.approvals[b].plan ==> a == b)
      && (forall e, f :: 0 <= e < |s.db.executions| && 0 <= f < |s.db.executions| && s.db.executions[e].plan == s.db.executions[f].plan ==> e == f)
      && (forall c, d :: 0 <= c < |s.calls| && 0 <= d < |s.calls| && s.calls[c].plan == s.calls[d].plan ==> c == d)
      && (forall c :: 0 <= c < |s.calls| ==> Authorised(s.db, s.calls[c]))
  {
    var s := run[i];
    RunKeeps(run, i);
    forall e, f | 0 <= e < |s.db.executions| && 0 <= f < |s.db.executions| && s.db.executions[e].plan == s.db.executions[f].plan
      ensures e == f
    {
      OneExecution(s.db, e, f);
    }
    forall c, d | 0 <= c < |s.calls| && 0 <= d < |s.calls| && s.calls[c].plan == s.calls[d].plan ensures c == d {
      assert CallMatches(s.db, s.calls[c]) && CallMatches(s.db, s.calls[d]);
      OneExecution(s.db, s.calls[c].execution, s.calls[d].execution);
    }
    forall c | 0 <= c < |s.calls| ensures Authorised(s.db, s.calls[c]) {
      assert CallMatches(s.db, s.calls[c]);
      assert ExecutionOk(s.db, s.db.executions[s.calls[c].execution]);
    }
  }

  /** The call's plan has the call's hash and an APPROVED decision for exactly that hash. */
  ghost predicate Authorised(db: Db, c: Call) {
    && c.plan < |db.plans| && db.plans[c.plan].hash == c.planHash
    && c.approval < |db.approvals|
    && db.approvals[c.approval].plan == c.plan && db.approvals[c.approval].planHash == c.planHash && db.approvals[c.approval].decision == Approve
  }

  /** Two execution rows of one plan carry the key of its one approval, so they are one row. */
  lemma OneExecution(db: Db, e: Id, f: Id)
    requires DbOk(db) && e < |db.executions| && f < |db.executions| && db.executions[e].plan == db.executions[f].plan
    ensures e == f
  {
    assert ExecutionOk(db, db.executions[e]) && ExecutionOk(db, db.executions[f]);
    assert db.executions[e].approval == db.executions[f].approval;
  }

  /** In state `s` the approval of call `c` is committed, its execution RUNNING, and no earlier call was
      made for its plan. */
  ghost predicate FirstAuthorisedCall(s: Sys, c: Call) {
    && Authorised(s.db, c) && s.db.plans[c.plan].status in {APPROVED, EXECUTED}
    && c.execution < |s.db.executions| && s.db.executions[c.execution].status == RUNNING
    && forall k :: 0 <= k < |s.calls| ==> s.calls[k].plan != c.plan
  }

  /** A call is made only when the approval is already committed and the execution row still RUNNING. */
  lemma CallFollowsApproval(run: seq<Sys>, i: nat)
    requires IsRun(run) && 0 < i < |run| && run[i].calls != run[i - 1].calls
    ensures |run[i].calls| == |run[i - 1].calls| + 1 && FirstAuthorisedCall(run[i - 1], run[i].calls[|run[i - 1].calls|])
  {
    RunKeeps(run, i - 1);
    assert Steps(run[i - 1], run[i]);
    var a :| run[i] == Next(run[i - 1], a);
    CallStepIsAuthorised(run[i - 1], a);
  }

  lemma CallStepIsAuthorised(s: Sys, a: Action)
    requires Inv(s) && Next(s, a).calls != s.calls
    ensures var t := Next(s, a);
      && |t.calls| == |s.calls| + 1
      && FirstAuthorisedCall(s, t.calls[|s.calls|])
  {
    assert a.TaskCalls?;
    var c := s.workers[a.w].call;
    assert WorkerOk(s, s.workers[a.w]);
    assert ExecutionOk(s.db, s.db.executions[c.execution]);
    assert ApprovalOk(s.db, s.db.approvals[c.approval]);
    forall k | 0 <= k < |s.calls| ensures s.calls[k].plan != c.plan {
      assert CallMatches(s.db, s.calls[k]);
      if s.calls[k].plan == c.plan { OneExecution(s.db, s.calls[k].execution, c.execution); }
    }
  }

  /** Later plans of an incident have higher versions. */
  ghost predicate VersionsRise(plans: seq<Plan>) {
    forall p, q :: 0 <= p < q < |plans| && plans[p].incident == plans[q].incident ==> plans[p].version < plans[q].version
  }

  lemma PersistVersions(db: Db, inc: Id, run: string, status: Status, draft: Option<IncidentGraph.PlanDraft>)
    requires VersionsRise(db.plans)
    ensures VersionsRise(StartFinish(db, inc, run, status, draft).0.plans)
  {
    hide Walk;
    assert VersionsRise(PersistPlan(db, inc, run, draft).plans);
  }

  lemma OnlyPersistingAddsPlans(s: Sys, a: Action)
    requires !a.TaskPersists?
    ensures |Next(s, a).db.plans| == |s.db.plans|
  {
    hide Evaluate;
  }

  lemma StepVersions(s: Sys, a: Action)
    requires Inv(s) && VersionsRise(s.db.plans)
    ensures VersionsRise(Next(s, a).db.plans)
  {
    if a.TaskPersists? {
      hide Inv, VersionsRise, StartFinish, IncidentGraph.StartOutcome;
      if a.w < |s.workers| && s.workers[a.w].Investigating? {
        var (status, draft) := IncidentGraph.StartOutcome(a.st, a.world.(payload := None));
        PersistVersions(s.db, s.workers[a.w].inc, s.workers[a.w].run, status, draft);
      }
    } else {
      hide Next, Inv;
      StepKeeps(s, a);
      OnlyPersistingAddsPlans(s, a);
      assert forall p :: 0 <= p < |s.db.plans| ==> PlanEvolves(s.db.plans[p], Next(s, a).db.plans[p]);
    }
  }

  lemma {:induction false} RunVersions(run: seq<Sys>, i: nat)
    requires IsRun(run) && i < |run|
    ensures VersionsRise(run[i].db.plans)
  {
    if i > 0 {
      RunVersions(run, i - 1);
      RunKeeps(run, i - 1);
      assert Steps(run[i - 1], run[i]);
      hide Inv, VersionsRise, Next;
      var a :| run[i] == Next(run[i - 1], a);
      StepVersions(run[i - 1], a);
    }
  }

  /** The plan that approval and rejection decide on, the one with the highest version, is always the one
      stored last for the incident. */
  lemma NewestPlanDecides(run: seq<Sys>, i: nat, inc: Id)
    requires IsRun(run) && i < |run|
    ensures var plans := run[i].db.plans; var latest := LatestPlan(plans, inc);
      if latest.None? then forall p :: 0 <= p < |plans| ==> plans[p].incident != inc
      else plans[latest.value].incident == inc && forall p :: latest.value < p < |plans| ==> plans[p].incident != inc
  {
    RunVersions(run, i);
  }

  ghost predicate ExecutedAsApproved(db: Db, n: Id, p: Id) {
    && p < |db.plans| && db.plans[p].incident == n && db.plans[p].status == EXECUTED
    && exists a :: 0 <= a < |db.approvals|
         && db.approvals[a].plan == p && db.approvals[a].planHash == db.plans[p].hash && db.approvals[a].decision == Approve
  }

  /** Execution `e` belongs to an EXECUTED plan of incident `n` that was approved for its own hash; it
      SUCCEEDED and its stored check rows exist and all PASSED. */
  ghost predicate VerifiedRecovery(db: Db, n: Id, e: Id) {
    && e < |db.executions| && db.executions[e].status == SUCCEEDED
    && ExecutedAsApproved(db, n, db.executions[e].plan)
    && ChecksOf(db.checks, e) != []
    && forall c :: c in ChecksOf(db.checks, e) ==> c.conclusion == PASSED && c.incident == n
  }

  /** RESOLVED only after a verified recovery whose one call reported success. */
  lemma ResolvedIsVerified(run: seq<Sys>, i: nat, n: Id)
    requires IsRun(run) && i < |run| && n < |run[i].db.incidents| && run[i].db.incidents[n].status == RESOLVED
    ensures exists e :: VerifiedRecovery(run[i].db, n, e) && Ended(run[i], e, REPORTED_SUCCESS)
  {
    RunKeeps(run, i);
    RunAnswers(run, i);
    assert IncidentOk(run[i].db, n);
    var e :| ResolvedBy(run[i].db, n, e);
    ResolvedIsVerifiedRecovery(run[i].db, n, e);
    assert Earned(run[i], e);
  }

  lemma ResolvedIsVerifiedRecovery(db: Db, n: Id, e: Id)
    requires DbOk(db) && ResolvedBy(db, n, e)
    ensures VerifiedRecovery(db, n, e)
  {
    var row := db.executions[e];
    assert ExecutionOk(db, row);
    assert Approves(db.approvals[row.approval], row.plan, db.plans[row.plan].hash);
    forall c | c in ChecksOf(db.checks, e) ensures c.conclusion == PASSED && c.incident == n {
      var k :| 0 <= k < |db.checks| && db.checks[k] == c;
      assert CheckOk(db, db.checks[k]);
    }
  }

  /** A terminal incident row never changes again, and every incident's history stays a path of the
      table from RECEIVED that later histories extend. */
  lemma TerminalRowsStay(run: seq<Sys>, i: nat, j: nat, n: Id)
    requires IsRun(run) && i <= j < |run| && n < |run[i].db.incidents|
    ensures var now := run[i].db.incidents[n]; var later := run[j].db.incidents;
      && LegalTrail(now.trail) && now.status == now.trail[|now.trail| - 1]
      && n < |later| && now.trail <= later[n].trail
      && (!Open(now.status) ==> later[n] == now)
  {
    RunKeeps(run, i);
    RunEvolves(run, i, j);
    assert IncidentOk(run[i].db, n);
    assert IncidentEvolves(run[i].db.incidents[n], run[j].db.incidents[n]);
  }

  /** VERIFYING is never entered without an execution of one of the incident's plans whose call reported
      success. */
  lemma VerifyingIsExecuted(run: seq<Sys>, i: nat, n: Id)
    requires IsRun(run) && i < |run| && n < |run[i].db.incidents| && run[i].db.incidents[n].status == VERIFYING
    ensures exists e :: RecoveredBy(run[i].db, n, e) && Ended(run[i], e, REPORTED_SUCCESS)
  {
    RunKeeps(run, i);
    RunAnswers(run, i);
    assert IncidentOk(run[i].db, n);
    var e :| RecoveredBy(run[i].db, n, e);
    assert Earned(run[i], e);
  }

  /** The check rows of one execution were all inserted by one transaction, share one conclusion and
      belong to a SUCCEEDED execution; a transaction's rows are all of one execution. */
  lemma ChecksShareOneTransaction(run: seq<Sys>, i: nat, k: nat, l: nat)
    requires IsRun(run) && i < |run| && k < |run[i].db.checks| && l < |run[i].db.checks|
    ensures var db := run[i].db; var c := db.checks[k]; var d := db.checks[l];
      && c.execution < |db.executions| && db.executions[c.execution].status == SUCCEEDED
      && (c.execution == d.execution <==> c.batch == d.batch)
      && (c.execution == d.execution ==> c.conclusion == d.conclusion)
  {
    RunKeeps(run, i);
    assert CheckOk(run[i].db, run[i].db.checks[k]);
  }

  lemma {:induction false} ChecksOfAppend(checks: seq<Check>, more: seq<Check>, e: Id)
    requires forall k :: 0 <= k < |more| ==> more[k].execution != e
    ensures ChecksOf(checks + more, e) == ChecksOf(checks, e)
  {
    if more == [] {
      assert checks + more == checks;
    } else {
      var n := |more| - 1;
      assert (checks + more)[..|checks| + n] == checks + more[..n];
      ChecksOfAppend(checks, more[..n], e);
    }
  }

  /** Once an execution has check rows, every later verification finds exactly those rows, answers with
      them and changes nothing. */
  lemma ChecksAreFinal(run: seq<Sys>, i: nat, j: nat, e: Id)
    requires IsRun(run) && i <= j < |run| && ChecksOf(run[i].db.checks, e) != []
    ensures ChecksOf(run[j].db.checks, e) == ChecksOf(run[i].db.checks, e)
    ensures forall inc, plan :: OnlyRepeats(run[j].db, inc, plan, e)
  {
    RunKeeps(run, i);
    RunKeeps(run, j);
    RunEvolves(run, i, j);
    hide IsRun, Evolves, OnlyRepeats, ChecksOf;
    ChecksOfStay(run[i].db, run[j].db, e);
    forall inc, plan ensures OnlyRepeats(run[j].db, inc, plan, e) {
      StoredRowsRepeat(run[j].db, inc, plan, e);
    }
  }

  lemma ChecksOfStay(x: Db, y: Db, e: Id)
    requires Evolves(x, y) && ChecksOf(x.checks, e) != []
    ensures ChecksOf(y.checks, e) == ChecksOf(x.checks, e)
  {
    assert Checked(x, e) by {
      assert ChecksOf(x.checks, e)[0] in x.checks;
    }
    var more := y.checks[|x.checks|..];
    assert y.checks == x.checks + more;
    forall k | 0 <= k < |more| ensures more[k].execution != e {
      assert !Checked(x, y.checks[|x.checks| + k].execution);
    }
    ChecksOfAppend(x.checks, more, e);
  }

  /** Both transactions of a verification of `e` change nothing and, for the plan that was executed, give
      the stored rows back with the incident's status and whether they all passed. */
  ghost predicate OnlyRepeats(db: Db, inc: Id, plan: Id, e: Id) {
    && VerifyBegin(db, inc, plan, e).0 == db
    && (forall v, now :: VerifyFinish(db, inc, plan, e, v, now).0 == db)
    && e < |db.executions|
    && (OwnsPlan(db, inc, plan) && db.executions[e].plan == plan ==>
          && VerifyBegin(db, inc, plan, e).1 == StoredReply(db, inc, ChecksOf(db.checks, e))
          && forall v, now :: VerifyFinish(db, inc, plan, e, v, now).1 == StoredReply(db, inc, ChecksOf(db.checks, e)))
  }

  lemma StoredRowsRepeat(db: Db, inc: Id, plan: Id, e: Id)
    requires DbOk(db) && ChecksOf(db.checks, e) != []
    ensures OnlyRepeats(db, inc, plan, e)
  {
    var c := ChecksOf(db.checks, e)[0];
    var k :| 0 <= k < |db.checks| && db.checks[k] == c;
    assert CheckOk(db, db.checks[k]);
  }

  /** Once a plan has an execution row, every later delivery leaves all rows alone and calls nothing; it
      answers with that row exactly while the plan is still APPROVED and the policy still allows it. */
  lemma ReplayedExecution(run: seq<Sys>, i: nat, j: nat, e: Id, inc: Id, config: Option<RecoveryConfig>)
    requires IsRun(run) && i <= j < |run| && e < |run[i].db.executions|
    ensures e < |run[j].db.executions| && AnswersOnly(run[j].db, e, inc, config)
  {
    RunKeeps(run, j);
    RunEvolves(run, i, j);
    AnswersOnlyAlways(run[j].db, e, inc, config);
  }

  ghost predicate AnswersOnly(db: Db, e: Id, inc: Id, config: Option<RecoveryConfig>)
    requires e < |db.executions|
  {
    var plan := db.executions[e].plan;
    var (y, reply) := ExecuteBegin(db, inc, plan, config);
    && y == db && !reply.Started? && plan < |db.plans|
    && (reply.Saved? <==> && OwnsPlan(db, inc, plan) && db.plans[plan].status == APPROVED
                          && Evaluate(db.plans[plan].rollback, Some(db.incidents[inc].scope), config) == Allowed
                          && config.value.tencentTat.Some?)
    && (reply.Saved? ==> reply == Saved(e, db.executions[e].status))
  }

  lemma AnswersOnlyAlways(db: Db, e: Id, inc: Id, config: Option<RecoveryConfig>)
    requires DbOk(db) && e < |db.executions|
    ensures AnswersOnly(db, e, inc, config)
  {
    var row := db.executions[e];
    assert ExecutionOk(db, row);
    var a := LatestApproval(db.approvals, row.plan, row.planHash);
    assert a == Some(row.approval);
    var saved := ExecutionWithKey(db.executions, row.key);
    assert saved == Some(e);
  }

  /** The second transaction of a start task ends exactly at the graph's status, with the graph's plan stored and no
      other incident touched, or raises and leaves every row alone. Towards WAITING_APPROVAL it succeeds from exactly
      four statuses, towards NEED_HUMAN from every open one. */
  lemma StartWalkEndsOrRaises(db: Db, inc: Id, run: string, status: Status, draft: Option<IncidentGraph.PlanDraft>)
    requires inc < |db.incidents|
    ensures var (y, ok) := StartFinish(db, inc, run, status, draft);
      && (ok ==> inc < |y.incidents| && y.incidents[inc].status == status)
      && (ok ==> y == PersistPlan(db, inc, run, draft).(incidents := db.incidents[inc := y.incidents[inc]]))
      && (ok ==> db.incidents[inc].trail <= y.incidents[inc].trail && y.incidents[inc].scope == db.incidents[inc].scope)
      && (!ok ==> y == db)
      && (status == WAITING_APPROVAL ==>
            (ok <==> db.incidents[inc].status in {TRIAGING, INVESTIGATING, NEED_HUMAN, WAITING_APPROVAL}))
      && (status == NEED_HUMAN ==> (ok <==> db.incidents[inc].status != RESOLVED && db.incidents[inc].status != Lifecycle.FAILED))
  {
    var current := db.incidents[inc].status;
    GraphPathStarts(current);
    OneStatus(current);
    hide LatestPlan, PlanWithHash, Walk;
    if Walk(current, GraphPath(status)).Some? {
      WalkEnds(current, GraphPath(status));
    }
    assert db.incidents[inc := db.incidents[inc]] == db.incidents;
  }

  lemma OneStatus(current: Status)
    ensures Walk(current, [NEED_HUMAN]).Some? <==> Open(current)
  {
    assert [NEED_HUMAN][1..] == [];
    assert Walk(NEED_HUMAN, []) == Some([]);
  }

  lemma {:induction false} WalkEnds(current: Status, path: seq<Status>)
    requires path != [] && Walk(current, path).Some?
    ensures Last(current, Walk(current, path).value) == path[|path| - 1]
    decreases |path|
  {
    if |path| == 1 {
      assert Walk(path[0], path[1..]) == Some([]);
    } else if current == path[0] {
      WalkEnds(current, path[1..]);
    } else {
      WalkEnds(path[0], path[1..]);
    }
  }

  /** A resume that passes its guard hands the graph an approval the boundary accepts, and execution of
      the same rows under a permitting policy starts, or finds the plan's one execution row. */
  lemma ResumeIsExecutable(
      run: seq<Sys>, i: nat, inc: Id, plan: Id, config: Option<RecoveryConfig>,
      st: IncidentGraph.State, w: IncidentGraph.World, approvalId: string, planId: string)
    requires IsRun(run) && i < |run| && ResumeBegin(run[i].db, inc, plan).Some?
    requires st.plan.Some? && st.plan.value.hash == run[i].db.plans[plan].hash
    requires w.parse(approvalId).Some? && w.parse(planId).Some?
    ensures var db := run[i].db;
      var approval := db.approvals[ResumeBegin(db, inc, plan).value];
      && Approves(approval, plan, db.plans[plan].hash)
      && IncidentGraph.MatchingApproval(st, IncidentGraph.Dict(true, Some(approval.planHash), Some(approvalId), Some(planId)), w)
    ensures var db := run[i].db;
      Evaluate(db.plans[plan].rollback, Some(db.incidents[inc].scope), config) == Allowed && config.value.tencentTat.Some? ==>
        var (y, reply) := ExecuteBegin(db, inc, plan, config);
        if exists e :: 0 <= e < |db.executions| && db.executions[e].plan == plan then reply.Saved?
        else reply.Started? && inc < |y.incidents| && y.incidents[inc].status == EXECUTING
  {
    var db := run[i].db;
    RunKeeps(run, i);
    if e :| 0 <= e < |db.executions| && db.executions[e].plan == plan {
      AnswersOnlyAlways(db, e, inc, config);
    } else {
      forall e | 0 <= e < |db.executions| ensures db.executions[e].key.plan != plan {
        assert ExecutionOk(db, db.executions[e]);
      }
    }
  }
}
