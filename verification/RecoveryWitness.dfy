/** The guarantees are not empty: for every complete plan that the policy allows, some run recovers the
    incident, with exactly one approval, one execution row and one Recovery MCP call. */
module RecoveryWitness {
  import opened Options
  import opened Lifecycle
  import opened Policy
  import opened RecoveryDb
  import opened RecoveryProtocol
  import IncidentGraph

  const TO_APPROVAL: seq<Status> := [RECEIVED, TRIAGING, INVESTIGATING, DIAGNOSED, PLANNING, WAITING_APPROVAL]

  /** One incident that reached the approval boundary with a pending plan, its worker gone. */
  function Waiting(scope: Scope, run: string, d: IncidentGraph.PlanDraft): Sys {
    Sys(Db([Incident(scope, WAITING_APPROVAL, TO_APPROVAL, None)],
           [Plan(0, run, 1, d.rollback, d.criteria, d.hash, PENDING_APPROVAL)], [], [], []),
        [Gone], [])
  }

  function Executing(scope: Scope, run: string, d: IncidentGraph.PlanDraft, now: int): Sys {
    Sys(Db([Incident(scope, EXECUTING, TO_APPROVAL + [EXECUTING], None)],
           [Plan(0, run, 1, d.rollback, d.criteria, d.hash, APPROVED)],
           [Approval(0, d.hash, 0, Approve, now)],
           [Execution(0, Key(0, d.hash, 0), 0, d.hash, RUNNING)], []),
        [Gone, Calling(Call(0, d.hash, 0, 0, None))], [])
  }

  function Opened(scope: Scope): Sys {
    Sys(Db([Incident(scope, RECEIVED, [RECEIVED], None)], [], [], [], []), [], [])
  }

  function Investigated(scope: Scope, run: string): Sys {
    Sys(Db([Incident(scope, TRIAGING, [RECEIVED, TRIAGING], None)], [], [], [], []), [Investigating(0, run)], [])
  }

  lemma Starting(scope: Scope, run: string)
    ensures Steps(EMPTY, Opened(scope)) && Steps(Opened(scope), Investigated(scope, run))
  {
    var s1, s2 := Opened(scope), Investigated(scope, run);
    assert Next(EMPTY, AlertOpens(scope)) == s1;
    assert [RECEIVED] + [TRIAGING] == [RECEIVED, TRIAGING];
    assert s1.db.incidents[0 := Moved(s1.db.incidents[0], TRIAGING)] == s2.db.incidents;
    assert Next(s1, TaskStarts(0, run)) == s2;
  }

  lemma Persisting(scope: Scope, run: string, d: IncidentGraph.PlanDraft, parse: string -> Option<IncidentGraph.Uuid>)
    ensures Steps(Investigated(scope, run), Waiting(scope, run, d))
  {
    hide Next, Investigated, Waiting, Steps;
    var st := IncidentGraph.State("incident", TRIAGING, false, None, None, None, None, 0, None);
    var w := IncidentGraph.World(
      IncidentGraph.Gave(IncidentGraph.Findings(DIAGNOSED, true, Some(d), None)), None, IncidentGraph.Threw("unused"),
      IncidentGraph.Threw("unused"), parse);
    PersistingStep(scope, run, d, st, w);
  }

  lemma PersistingStep(scope: Scope, run: string, d: IncidentGraph.PlanDraft, st: IncidentGraph.State, w: IncidentGraph.World)
    requires w.payload.None? && w.findings == IncidentGraph.Gave(IncidentGraph.Findings(DIAGNOSED, true, Some(d), None))
    ensures Steps(Investigated(scope, run), Waiting(scope, run, d))
  {
    hide IncidentGraph.StartOutcome, StartFinish, Next;
    GraphPauses(st, w, d);
    Finishing(scope, run, d);
    var s, t := Investigated(scope, run), Waiting(scope, run, d);
    assert s.workers[0 := Gone] == t.workers;
    PersistingNext(s, 0, st, w);
    assert Next(s, TaskPersists(0, st, w)) == t;
  }

  lemma PersistingNext(s: Sys, n: nat, st: IncidentGraph.State, w: IncidentGraph.World)
    requires n < |s.workers| && s.workers[n].Investigating? && w.payload.None?
    ensures var (status, draft) := IncidentGraph.StartOutcome(st, w);
      Next(s, TaskPersists(n, st, w))
      == Sys(StartFinish(s.db, s.workers[n].inc, s.workers[n].run, status, draft).0, s.workers[n := Gone], s.calls)
  {
    hide IncidentGraph.StartOutcome, StartFinish, OpenIncident, ApproveIncident, RejectIncident, StartBegin, ExecuteBegin, ExecuteFinish,
      VerifyBegin, VerifyFinish, VerifyRecovery, MarkNeedHuman, RetryInvestigation;
    assert w.(payload := None) == w;
  }

  lemma Finishing(scope: Scope, run: string, d: IncidentGraph.PlanDraft)
    ensures StartFinish(Investigated(scope, run).db, 0, run, WAITING_APPROVAL, Some(d)) == (Waiting(scope, run, d).db, true)
  {
    WalkToApproval();
    hide Walk;
    var db := Investigated(scope, run).db;
    var i := db.incidents[0];
    assert db.incidents[0 := i.(status := WAITING_APPROVAL, trail := TO_APPROVAL)] == Waiting(scope, run, d).db.incidents;
    assert PersistPlan(db, 0, run, Some(d)).plans == Waiting(scope, run, d).db.plans;
    assert [RECEIVED, TRIAGING] + GRAPH_STATUS_PATH == TO_APPROVAL;
  }

  lemma GraphPauses(st: IncidentGraph.State, w: IncidentGraph.World, d: IncidentGraph.PlanDraft)
    requires w.payload.None? && w.findings == IncidentGraph.Gave(IncidentGraph.Findings(DIAGNOSED, true, Some(d), None))
    ensures IncidentGraph.StartOutcome(st, w) == (WAITING_APPROVAL, Some(d))
  {
    var s1 := IncidentGraph.Visit(IncidentGraph.EnterInvestigation, st, w).state;
    var s2 := IncidentGraph.Visit(IncidentGraph.Investigate, s1, w).state;
    var s3 := IncidentGraph.Visit(IncidentGraph.Plan, s2, w).state;
    assert IncidentGraph.RunFrom(IncidentGraph.AwaitApproval, s3, w).end == IncidentGraph.Paused(s3);
    assert IncidentGraph.RunFrom(IncidentGraph.Plan, s2, w).end == IncidentGraph.Paused(s3);
  }

  lemma WalkToApproval()
    ensures Walk(TRIAGING, GRAPH_STATUS_PATH) == Some(GRAPH_STATUS_PATH)
  {
    assert Walk(WAITING_APPROVAL, []) == Some([]);
    OneHop(PLANNING, WAITING_APPROVAL, []);
    assert [WAITING_APPROVAL] + [] == [WAITING_APPROVAL];
    OneHop(DIAGNOSED, PLANNING, [WAITING_APPROVAL]);
    assert [PLANNING] + [WAITING_APPROVAL] == [PLANNING, WAITING_APPROVAL];
    OneHop(INVESTIGATING, DIAGNOSED, [PLANNING, WAITING_APPROVAL]);
    assert [DIAGNOSED] + [PLANNING, WAITING_APPROVAL] == [DIAGNOSED, PLANNING, WAITING_APPROVAL];
    OneHop(TRIAGING, INVESTIGATING, [DIAGNOSED, PLANNING, WAITING_APPROVAL]);
    assert [INVESTIGATING] + [DIAGNOSED, PLANNING, WAITING_APPROVAL] == GRAPH_STATUS_PATH;
  }

  lemma OneHop(current: Status, next: Status, rest: seq<Status>)
    requires next in AllowedTransitions(current) && next != current
    ensures Walk(next, rest).Some? ==> Walk(current, [next] + rest) == Some([next] + Walk(next, rest).value)
  {
    assert ([next] + rest)[1..] == rest;
  }

  function Approved(scope: Scope, run: string, d: IncidentGraph.PlanDraft, now: int): Sys {
    var s := Waiting(scope, run, d);
    s.(db := s.db.(plans := [s.db.plans[0].(status := APPROVED)], approvals := [Approval(0, d.hash, 0, Approve, now)]))
  }

  lemma Approving(scope: Scope, run: string, d: IncidentGraph.PlanDraft, config: RecoveryConfig, now: int)
    requires run != "" && Evaluate(d.rollback, Some(scope), Some(config)) == Allowed
    ensures Steps(Waiting(scope, run, d), Approved(scope, run, d, now))
  {
    hide Evaluate;
    var s := Waiting(scope, run, d);
    assert s.db.plans[..0] == [];
    assert LatestPlan(s.db.plans, 0) == Some(0);
    assert Next(s, UserApproves(0, d.hash, 0, Some(config), now)) == Approved(scope, run, d, now);
  }

  lemma StartingExecution(scope: Scope, run: string, d: IncidentGraph.PlanDraft, config: RecoveryConfig, now: int)
    requires Evaluate(d.rollback, Some(scope), Some(config)) == Allowed && config.tencentTat.Some?
    ensures Steps(Approved(scope, run, d, now), Executing(scope, run, d, now))
  {
    hide Evaluate;
    var s, t := Approved(scope, run, d, now), Executing(scope, run, d, now);
    assert s.db.approvals[..0] == [];
    assert LatestApproval(s.db.approvals, 0, d.hash) == Some(0);
    assert Moved(s.db.incidents[0], EXECUTING) == t.db.incidents[0];
    assert s.db.incidents[0 := t.db.incidents[0]] == t.db.incidents;
    assert s.db.executions + t.db.executions == t.db.executions;
    assert ExecuteBegin(s.db, 0, 0, Some(config)) == (t.db, Started(0));
    assert Next(s, TaskExecutes(0, 0, Some(config))) == t;
  }

  /** The call succeeded and its answer is saved. */
  function Recovered(scope: Scope, run: string, d: IncidentGraph.PlanDraft, now: int): Sys {
    var s := Executing(scope, run, d, now);
    Sys(s.db.(executions := [s.db.executions[0].(status := ExecutionStatus.SUCCEEDED)]), [Gone, Gone],
        [Call(0, d.hash, 0, 0, Some(REPORTED_SUCCESS))])
  }

  lemma Recovering(scope: Scope, run: string, d: IncidentGraph.PlanDraft, now: int) returns (s6: Sys)
    ensures Steps(Executing(scope, run, d, now), s6) && Steps(s6, Recovered(scope, run, d, now))
  {
    var s5, t := Executing(scope, run, d, now), Recovered(scope, run, d, now);
    hide OpenIncident, ApproveIncident, RejectIncident, StartBegin, StartFinish, ExecuteBegin, VerifyBegin, VerifyFinish;
    s6 := Next(s5, TaskCalls(1, REPORTED_SUCCESS));
    assert s5.workers[1 := Gone] == t.workers && [] + t.calls == t.calls;
    assert s5.db.executions[0 := t.db.executions[0]] == t.db.executions;
    assert Next(s6, TaskSavesAnswer(1)) == t;
  }

  lemma Verifying(scope: Scope, run: string, d: IncidentGraph.PlanDraft, now: int) returns (s8: Sys, s9: Sys)
    ensures Steps(Recovered(scope, run, d, now), s8) && Steps(s8, s9)
    ensures s9.db.incidents == [Incident(scope, RESOLVED, TO_APPROVAL + [EXECUTING, VERIFYING, RESOLVED], Some(now))]
    ensures |s9.calls| == |s9.db.executions| == |s9.db.approvals| == 1
  {
    var s7 := Recovered(scope, run, d, now);
    hide OpenIncident, ApproveIncident, RejectIncident, StartBegin, StartFinish, ExecuteBegin, ExecuteFinish;
    assert ChecksOf([], 0) == [];
    s8 := Next(s7, TaskVerifies(0, 0, 0));
    assert s8.workers == [Gone, Gone, Checking(0, 0, 0, d.criteria)];
    s9 := Next(s8, TaskSavesChecks(2, LogEntries(0), now));
    assert TO_APPROVAL + [EXECUTING] + [VERIFYING] + [RESOLVED] == TO_APPROVAL + [EXECUTING, VERIFYING, RESOLVED];
  }

  /** A run from the empty system that recovers an incident. */
  lemma ARecoveryCompletes(
      scope: Scope, run: string, d: IncidentGraph.PlanDraft, config: RecoveryConfig, now: int, parse: string -> Option<IncidentGraph.Uuid>)
    returns (states: seq<Sys>)
    requires run != "" && Evaluate(d.rollback, Some(scope), Some(config)) == Allowed && config.tencentTat.Some?
    ensures IsRun(states)
    ensures var last := states[|states| - 1];
      && last.db.incidents == [Incident(scope, RESOLVED, TO_APPROVAL + [EXECUTING, VERIFYING, RESOLVED], Some(now))]
      && |last.calls| == |last.db.executions| == |last.db.approvals| == 1
  {
    hide Next, Evaluate;
    Starting(scope, run);
    Persisting(scope, run, d, parse);
    Approving(scope, run, d, config, now);
    StartingExecution(scope, run, d, config, now);
    var s6 := Recovering(scope, run, d, now);
    var s8, s9 := Verifying(scope, run, d, now);
    states := [EMPTY, Opened(scope), Investigated(scope, run), Waiting(scope, run, d), Approved(scope, run, d, now),
               Executing(scope, run, d, now), s6, Recovered(scope, run, d, now), s8, s9];
  }
}
