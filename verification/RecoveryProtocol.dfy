/** All interleavings of the protocol: API requests, task deliveries and redeliveries, worker crashes and
    every answer from outside, as lists of actions. */
module RecoveryProtocol {
  import opened Options
  import opened Lifecycle
  import opened Policy
  import opened RecoveryDb
  import IncidentGraph

  /** A Recovery MCP call; `answer` is how it ended for the caller, None while it is under way. */
  datatype Call = Call(plan: Id, planHash: string, approval: Id, execution: Id, answer: Option<Answer>)

  /** A worker between two commits. Gone has finished, raised or died. */
  datatype Worker =
    | Investigating(inc: Id, run: string)
    | Calling(call: Call)
    | Answered(execution: Id, answer: Answer)
    | Checking(inc: Id, plan: Id, execution: Id, criteria: seq<string>)
    | Gone

  datatype Sys = Sys(db: Db, workers: seq<Worker>, calls: seq<Call>)

  /** One atomic step. Any task may be delivered at any time, any number of times, with any arguments. */
  datatype Action =
    | AlertOpens(scope: Scope)
    | UserApproves(inc: Id, hash: string, user: Id, config: Option<RecoveryConfig>, now: int)
    | UserRejects(inc: Id, hash: string, user: Id, now: int)
    | UserRetries(inc: Id)
    | TaskStarts(inc: Id, run: string)
    | TaskPersists(w: nat, st: IncidentGraph.State, world: IncidentGraph.World)
    | TaskGivesUp(inc: Id)
    | TaskExecutes(inc: Id, plan: Id, config: Option<RecoveryConfig>)
    | TaskCalls(w: nat, answer: Answer)
    | TaskSavesAnswer(w: nat)
    | TaskVerifies(inc: Id, plan: Id, execution: Id)
    | TaskSavesChecks(w: nat, logs: Logs, now: int)
    | WorkerDies(w: nat)

  const EMPTY: Sys := Sys(Db([], [], [], [], []), [], [])

  function Next(s: Sys, a: Action): Sys {
    match a
    case AlertOpens(scope) => s.(db := OpenIncident(s.db, scope))
    case UserApproves(inc, hash, user, config, now) => s.(db := ApproveIncident(s.db, inc, hash, user, config, now).0)
    case UserRejects(inc, hash, user, now) => s.(db := RejectIncident(s.db, inc, hash, user, now).0)
    case UserRetries(inc) => s.(db := RetryInvestigation(s.db, inc).0)
    case TaskStarts(inc, run) =>
      var (db, go) := StartBegin(s.db, inc);
      if go then s.(db := db, workers := s.workers + [Investigating(inc, run)]) else s.(db := db)
    case TaskPersists(w, st, world) =>
      if w < |s.workers| && s.workers[w].Investigating? then
        var (status, draft) := IncidentGraph.StartOutcome(st, world.(payload := None));
        Leaves(s, w, StartFinish(s.db, s.workers[w].inc, s.workers[w].run, status, draft).0)
      else s
    case TaskGivesUp(inc) => s.(db := MarkNeedHuman(s.db, inc))
    case TaskExecutes(inc, plan, config) =>
      var (db, reply) := ExecuteBegin(s.db, inc, plan, config);
      if reply.Started? then
        var e := db.executions[reply.execution];
        s.(db := db, workers := s.workers + [Calling(Call(plan, e.planHash, e.approval, reply.execution, None))])
      else s.(db := db)
    case TaskCalls(w, answer) =>
      if w < |s.workers| && s.workers[w].Calling? then
        var call := s.workers[w].call;
        s.(workers := s.workers[w := Answered(call.execution, answer)], calls := s.calls + [call.(answer := Some(answer))])
      else s
    case TaskSavesAnswer(w) =>
      if w < |s.workers| && s.workers[w].Answered? then
        Leaves(s, w, ExecuteFinish(s.db, s.workers[w].execution, s.workers[w].answer))
      else s
    case TaskVerifies(inc, plan, execution) =>
      var (db, reply) := VerifyBegin(s.db, inc, plan, execution);
      if reply.Proceed? then s.(db := db, workers := s.workers + [Checking(inc, plan, execution, reply.criteria)])
      else s.(db := db)
    case TaskSavesChecks(w, logs, now) =>
      if w < |s.workers| && s.workers[w].Checking? then
        var t := s.workers[w];
        Leaves(s, w, VerifyFinish(s.db, t.inc, t.plan, t.execution, VerifyRecovery(t.criteria, logs), now).0)
      else s
    case WorkerDies(w) => if w < |s.workers| then Leaves(s, w, s.db) else s
  }

  function Leaves(s: Sys, w: nat, db: Db): Sys
    requires w < |s.workers|
  {
    s.(db := db, workers := s.workers[w := Gone])
  }

  ghost predicate Steps(s: Sys, t: Sys) { exists a: Action :: t == Next(s, a) }

  /** A run: from the empty system, one atomic step after another. */
  ghost predicate IsRun(run: seq<Sys>) {
    && |run| > 0 && run[0] == EMPTY
    && forall i {:trigger Steps(run[i - 1], run[i])} :: 0 < i < |run| ==> Steps(run[i - 1], run[i])
  }

  // ---------------------------------------------------------------- what every state satisfies

  ghost predicate ApprovalsOk(db: Db) {
    && (forall a :: 0 <= a < |db.approvals| ==> ApprovalOk(db, db.approvals[a]))
    && (forall a, b :: 0 <= a < |db.approvals| && 0 <= b < |db.approvals| && db.approvals[a].plan == db.approvals[b].plan ==> a == b)
  }

  ghost predicate ApprovalOk(db: Db, a: Approval) {
    && a.plan < |db.plans| && a.planHash == db.plans[a.plan].hash
    && db.plans[a.plan].status in (if a.decision == Approve then {APPROVED, EXECUTED} else {REJECTED})
  }

  ghost predicate ExecutionOk(db: Db, e: Execution) {
    && e.plan < |db.plans| && e.approval < |db.approvals|
    && e.planHash == db.plans[e.plan].hash
    && Approves(db.approvals[e.approval], e.plan, e.planHash)
    && e.key == Key(e.plan, e.planHash, e.approval)
  }

  ghost predicate ExecutionsOk(db: Db) {
    && (forall e :: 0 <= e < |db.executions| ==> ExecutionOk(db, db.executions[e]))
    && (forall e, f :: 0 <= e < |db.executions| && 0 <= f < |db.executions| && db.executions[e].key == db.executions[f].key ==> e == f)
  }

  /** Execution `e` recovered incident `n`. */
  ghost predicate RecoveredBy(db: Db, n: Id, e: Id) {
    && e < |db.executions| && db.executions[e].status == SUCCEEDED
    && db.executions[e].plan < |db.plans| && db.plans[db.executions[e].plan].incident == n
  }

  ghost predicate Checked(db: Db, e: Id) { exists k :: 0 <= k < |db.checks| && db.checks[k].execution == e }

  ghost predicate AllPassed(db: Db, e: Id) {
    forall k :: 0 <= k < |db.checks| && db.checks[k].execution == e ==> db.checks[k].conclusion == PASSED
  }

  ghost predicate ResolvedBy(db: Db, n: Id, e: Id) {
    && RecoveredBy(db, n, e) && db.plans[db.executions[e].plan].status == EXECUTED
    && Checked(db, e) && AllPassed(db, e)
  }

  ghost predicate CheckOk(db: Db, c: Check) {
    && RecoveredBy(db, c.incident, c.execution)
    && c.batch < |db.checks|
  }

  ghost predicate ChecksOk(db: Db) {
    && (forall k :: 0 <= k < |db.checks| ==> CheckOk(db, db.checks[k]))
    && (forall k, l :: 0 <= k < |db.checks| && 0 <= l < |db.checks| && db.checks[k].execution == db.checks[l].execution
          ==> db.checks[k].conclusion == db.checks[l].conclusion && db.checks[k].batch == db.checks[l].batch)
    && (forall k, l :: 0 <= k < |db.checks| && 0 <= l < |db.checks| && db.checks[k].batch == db.checks[l].batch
          ==> db.checks[k].execution == db.checks[l].execution)
  }

  ghost predicate IncidentOk(db: Db, n: Id)
    requires n < |db.incidents|
  {
    var i := db.incidents[n];
    && LegalTrail(i.trail) && i.status == i.trail[|i.trail| - 1]
    && (i.status == RESOLVED <==> i.resolvedAt.Some?)
    && (i.status == RESOLVED ==> exists e :: ResolvedBy(db, n, e))
    && (i.status == VERIFYING ==> exists e :: RecoveredBy(db, n, e))
  }

  ghost predicate DbOk(db: Db) {
    && (forall p :: 0 <= p < |db.plans| ==> db.plans[p].incident < |db.incidents|)
    && ApprovalsOk(db) && ExecutionsOk(db) && ChecksOk(db)
    && (forall n :: 0 <= n < |db.incidents| ==> IncidentOk(db, n))
  }

  ghost predicate CallMatches(db: Db, c: Call) {
    && c.execution < |db.executions|
    && db.executions[c.execution].plan == c.plan
    && db.executions[c.execution].planHash == c.planHash
    && db.executions[c.execution].approval == c.approval
  }

  ghost predicate WorkerOk(s: Sys, w: Worker) {
    match w
    case Investigating(inc, _) => inc < |s.db.incidents|
    case Calling(c) =>
      && CallMatches(s.db, c) && s.db.executions[c.execution].status == RUNNING
      && forall k :: 0 <= k < |s.calls| ==> s.calls[k].execution != c.execution
    case Answered(e, _) => e < |s.db.executions| && s.db.executions[e].status == RUNNING
    case Checking(inc, plan, e, _) =>
      OwnsPlan(s.db, inc, plan) && RecoveredBy(s.db, inc, e) && s.db.executions[e].plan == plan
    case Gone => true
  }

  /** The execution row a worker alone may still finish. */
  function Holds(w: Worker): Option<Id> {
    match w
    case Calling(c) => Some(c.execution)
    case Answered(e, _) => Some(e)
    case _ => None
  }

  predicate SameHold(v: Worker, w: Worker) { Holds(v).Some? && Holds(v) == Holds(w) }

  ghost predicate WorkersOk(s: Sys) {
    && (forall w :: 0 <= w < |s.workers| ==> WorkerOk(s, s.workers[w]))
    && (forall v, w :: 0 <= v < |s.workers| && 0 <= w < |s.workers| && SameHold(s.workers[v], s.workers[w]) ==> v == w)
  }

  ghost predicate CallsOk(s: Sys) {
    && (forall c :: 0 <= c < |s.calls| ==> CallMatches(s.db, s.calls[c]))
    && (forall c, d :: 0 <= c < |s.calls| && 0 <= d < |s.calls| && s.calls[c].execution == s.calls[d].execution ==> c == d)
  }

  ghost predicate Inv(s: Sys) { DbOk(s.db) && WorkersOk(s) && CallsOk(s) }

  // ---------------------------------------------------------------- how rows may evolve

  ghost predicate IncidentEvolves(i: Incident, j: Incident) {
    i.trail <= j.trail && i.scope == j.scope && (Open(i.status) || i == j)
  }

  ghost predicate PlanEvolves(p: Plan, q: Plan) {
    && q == p.(status := q.status)
    && (q.status == p.status || p.status == PENDING_APPROVAL || (p.status == APPROVED && q.status == EXECUTED))
  }

  ghost predicate ExecutionEvolves(e: Execution, f: Execution) {
    f == e.(status := f.status) && (e.status == RUNNING || f.status == e.status)
  }

  /** Rows are never deleted; only open incidents, unfinished plans and RUNNING executions change; check
      rows are added only to executions that had none. */
  ghost predicate Evolves(x: Db, y: Db) {
    && |x.incidents| <= |y.incidents| && |x.plans| <= |y.plans| && |x.executions| <= |y.executions|
    && x.approvals <= y.approvals && x.checks <= y.checks
    && (forall n :: 0 <= n < |x.incidents| ==> IncidentEvolves(x.incidents[n], y.incidents[n]))
    && (forall p :: 0 <= p < |x.plans| ==> PlanEvolves(x.plans[p], y.plans[p]))
    && (forall e :: 0 <= e < |x.executions| ==> ExecutionEvolves(x.executions[e], y.executions[e]))
    && (forall k :: |x.checks| <= k < |y.checks| ==> !Checked(x, y.checks[k].execution))
  }

  lemma CheckedEvolves(x: Db, y: Db, e: Id)
    requires x.checks <= y.checks
    ensures Checked(x, e) ==> Checked(y, e)
  {
    if Checked(x, e) {
      var k :| 0 <= k < |x.checks| && x.checks[k].execution == e;
      assert y.checks[k].execution == e;
    }
  }

  lemma EvolvesReflexive(x: Db)
    ensures Evolves(x, x)
  {
  }

  lemma EvolvesTransitive(x: Db, y: Db, z: Db)
    requires Evolves(x, y) && Evolves(y, z)
    ensures Evolves(x, z)
  {
    forall k | |x.checks| <= k < |z.checks| ensures !Checked(x, z.checks[k].execution) {
      CheckedEvolves(x, y, z.checks[k].execution);
    }
  }

  lemma ResolvedByEvolves(x: Db, y: Db, n: Id, e: Id)
    requires Evolves(x, y) && ResolvedBy(x, n, e)
    ensures ResolvedBy(y, n, e)
  {
    var k :| 0 <= k < |x.checks| && x.checks[k].execution == e;
    assert y.checks[k] == x.checks[k];
    assert ExecutionEvolves(x.executions[e], y.executions[e]);
    assert PlanEvolves(x.plans[x.executions[e].plan], y.plans[x.executions[e].plan]);
  }

  lemma RecoveredByEvolves(x: Db, y: Db, n: Id, e: Id)
    requires Evolves(x, y) && RecoveredBy(x, n, e)
    ensures RecoveredBy(y, n, e)
  {
    assert ExecutionEvolves(x.executions[e], y.executions[e]);
    assert PlanEvolves(x.plans[x.executions[e].plan], y.plans[x.executions[e].plan]);
  }

  /** An incident whose row did not change keeps its guarantees while other rows evolve. */
  lemma IncidentsKeep(x: Db, y: Db, n: Id)
    requires Evolves(x, y) && n < |x.incidents| && IncidentOk(x, n) && y.incidents[n] == x.incidents[n]
    ensures IncidentOk(y, n)
  {
    if x.incidents[n].status == RESOLVED {
      var e :| ResolvedBy(x, n, e);
      ResolvedByEvolves(x, y, n, e);
    }
    if x.incidents[n].status == VERIFYING {
      var e :| RecoveredBy(x, n, e);
      RecoveredByEvolves(x, y, n, e);
    }
  }

  lemma ApprovalsStay(x: Db, y: Db)
    requires ApprovalsOk(x) && Evolves(x, y) && y.approvals == x.approvals
    ensures ApprovalsOk(y)
  {
    forall a | 0 <= a < |y.approvals| ensures ApprovalOk(y, y.approvals[a]) {
      assert ApprovalOk(x, x.approvals[a]);
      assert PlanEvolves(x.plans[x.approvals[a].plan], y.plans[x.approvals[a].plan]);
    }
  }

  lemma ExecutionsStay(x: Db, y: Db)
    requires ExecutionsOk(x) && Evolves(x, y) && |y.executions| == |x.executions|
    ensures ExecutionsOk(y)
  {
    forall e | 0 <= e < |y.executions| ensures ExecutionOk(y, y.executions[e]) {
      assert ExecutionOk(x, x.executions[e]);
      assert ExecutionEvolves(x.executions[e], y.executions[e]);
      assert PlanEvolves(x.plans[x.executions[e].plan], y.plans[x.executions[e].plan]);
    }
    assert forall e :: 0 <= e < |y.executions| ==> ExecutionEvolves(x.executions[e], y.executions[e]);
  }

  lemma ChecksStay(x: Db, y: Db)
    requires ChecksOk(x) && Evolves(x, y) && y.checks == x.checks
    ensures ChecksOk(y)
  {
    forall k | 0 <= k < |y.checks| ensures CheckOk(y, y.checks[k]) {
      assert CheckOk(x, x.checks[k]);
      RecoveredByEvolves(x, y, x.checks[k].incident, x.checks[k].execution);
    }
  }

  lemma IncidentsStay(x: Db, y: Db)
    requires DbOk(x) && Evolves(x, y)
    ensures forall n :: 0 <= n < |x.incidents| && y.incidents[n] == x.incidents[n] ==> IncidentOk(y, n)
  {
    hide ApprovalsOk, ExecutionsOk, ChecksOk, IncidentOk;
    forall n | 0 <= n < |x.incidents| && y.incidents[n] == x.incidents[n] ensures IncidentOk(y, n) {
      IncidentsKeep(x, y, n);
    }
  }

  /** Tables that a transaction leaves alone stay consistent while the others evolve. */
  lemma Unchanged(x: Db, y: Db)
    requires DbOk(x) && Evolves(x, y)
    ensures y.approvals == x.approvals ==> ApprovalsOk(y)
    ensures |y.executions| == |x.executions| ==> ExecutionsOk(y)
    ensures y.checks == x.checks ==> ChecksOk(y)
    ensures forall n :: 0 <= n < |x.incidents| && y.incidents[n] == x.incidents[n] ==> IncidentOk(y, n)
    ensures forall p :: 0 <= p < |x.plans| ==> y.plans[p].incident < |y.incidents|
  {
    assert forall p :: 0 <= p < |x.plans| ==> PlanEvolves(x.plans[p], y.plans[p]);
    IncidentsStay(x, y);
    hide ApprovalsOk, ExecutionsOk, ChecksOk, IncidentOk;
    if y.approvals == x.approvals { ApprovalsStay(x, y); }
    if |y.executions| == |x.executions| { ExecutionsStay(x, y); }
    if y.checks == x.checks { ChecksStay(x, y); }
  }

  /** Moving one open incident along the table, to a status that promises nothing, keeps every row's
      guarantees. */
  lemma HopsKeep(db: Db, n: Id, hops: seq<Status>)
    requires DbOk(db) && n < |db.incidents| && hops != [] && Open(db.incidents[n].status)
    requires LegalTrail(db.incidents[n].trail + hops) && hops[|hops| - 1] !in {RESOLVED, VERIFYING}
    ensures var i := db.incidents[n];
      var y := SetIncident(db, n, i.(status := hops[|hops| - 1], trail := i.trail + hops)); DbOk(y) && Evolves(db, y)
  {
    hide ApprovalsOk, ExecutionsOk, ChecksOk, LegalTrail;
    var i := db.incidents[n];
    var y := SetIncident(db, n, i.(status := hops[|hops| - 1], trail := i.trail + hops));
    assert IncidentOk(db, n);
    assert Evolves(db, y);
    Unchanged(db, y);
    assert IncidentOk(y, n);
  }

  lemma MoveKeeps(db: Db, n: Id, target: Status)
    requires DbOk(db) && n < |db.incidents| && target in AllowedTransitions(db.incidents[n].status)
    requires target != RESOLVED && target != VERIFYING
    ensures var y := SetIncident(db, n, Moved(db.incidents[n], target)); DbOk(y) && Evolves(db, y)
  {
    assert IncidentOk(db, n);
    HopsKeep(db, n, [target]);
  }

  // ---------------------------------------------------------------- every transaction keeps the rows consistent

  lemma OpenKeeps(db: Db, scope: Scope)
    requires DbOk(db)
    ensures var y := OpenIncident(db, scope); DbOk(y) && Evolves(db, y)
  {
    hide ApprovalsOk, ExecutionsOk, ChecksOk;
    var y := OpenIncident(db, scope);
    assert Evolves(db, y);
    Unchanged(db, y);
    assert IncidentOk(y, |db.incidents|);
  }

  lemma ApproveKeeps(db: Db, inc: Id, hash: string, user: Id, config: Option<RecoveryConfig>, now: int)
    requires DbOk(db)
    ensures var y := ApproveIncident(db, inc, hash, user, config, now).0; DbOk(y) && Evolves(db, y) && y.executions == db.executions
  {
    hide DbOk, Evolves, Evaluate;
    var (y, reply) := ApproveIncident(db, inc, hash, user, config, now);
    if reply.Decided? {
      DecisionKeeps(db, y, reply.plan, y.approvals[|db.approvals|]);
    } else {
      EvolvesReflexive(db);
    }
  }

  lemma RejectKeeps(db: Db, inc: Id, hash: string, user: Id, now: int)
    requires DbOk(db)
    ensures var y := RejectIncident(db, inc, hash, user, now).0; DbOk(y) && Evolves(db, y) && y.executions == db.executions
  {
    var (y, reply) := RejectIncident(db, inc, hash, user, now);
    if reply.Decided? {
      var moved := SetIncident(db, inc, Moved(db.incidents[inc], NEED_HUMAN));
      MoveKeeps(db, inc, NEED_HUMAN);
      DecisionKeeps(moved, y, reply.plan, y.approvals[|db.approvals|]);
      EvolvesTransitive(db, moved, y);
    }
  }

  /** A first decision on a pending plan, recorded together with the plan's new status. */
  lemma DecisionKeeps(x: Db, y: Db, p: Id, a: Approval)
    requires DbOk(x) && p < |x.plans| && x.plans[p].status == PENDING_APPROVAL
    requires a.plan == p && a.planHash == x.plans[p].hash
    requires y == SetPlan(x, p, x.plans[p].(status := if a.decision == Approve then APPROVED else REJECTED)).(approvals := x.approvals + [a])
    ensures DbOk(y) && Evolves(x, y)
  {
    hide ExecutionsOk, ChecksOk, IncidentOk;
    assert Evolves(x, y);
    Unchanged(x, y);
    assert ApprovalsOk(y) by {
      forall b | 0 <= b < |x.approvals| ensures y.approvals[b].plan != p && ApprovalOk(y, y.approvals[b]) {
        assert ApprovalOk(x, x.approvals[b]);
      }
    }
  }

  lemma RetryKeeps(db: Db, inc: Id)
    requires DbOk(db)
    ensures var y := RetryInvestigation(db, inc).0; DbOk(y) && Evolves(db, y) && y.executions == db.executions
  {
    if RetryInvestigation(db, inc).1 { MoveKeeps(db, inc, TRIAGING); }
  }

  lemma StartBeginKeeps(db: Db, inc: Id)
    requires DbOk(db)
    ensures var y := StartBegin(db, inc).0; DbOk(y) && Evolves(db, y) && y.executions == db.executions
  {
    if inc < |db.incidents| && db.incidents[inc].status == RECEIVED { MoveKeeps(db, inc, TRIAGING); }
  }

  lemma GiveUpKeeps(db: Db, inc: Id)
    requires DbOk(db)
    ensures var y := MarkNeedHuman(db, inc); DbOk(y) && Evolves(db, y) && y.executions == db.executions
  {
    if inc < |db.incidents| && db.incidents[inc].status !in {NEED_HUMAN, RESOLVED, Lifecycle.FAILED} {
      MoveKeeps(db, inc, NEED_HUMAN);
    }
  }

  lemma PersistKeeps(db: Db, inc: Id, run: string, draft: Option<IncidentGraph.PlanDraft>)
    requires DbOk(db) && inc < |db.incidents|
    ensures var y := PersistPlan(db, inc, run, draft);
      DbOk(y) && Evolves(db, y) && y.executions == db.executions && y.incidents == db.incidents
  {
    hide ApprovalsOk, ExecutionsOk, ChecksOk, IncidentOk;
    var y := PersistPlan(db, inc, run, draft);
    assert Evolves(db, y);
    Unchanged(db, y);
  }

  /** A walk that ends at a status that promises nothing keeps every row consistent. */
  lemma WalkKeeps(db: Db, inc: Id, path: seq<Status>)
    requires DbOk(db) && inc < |db.incidents| && path != [] && path[|path| - 1] !in {db.incidents[inc].status, RESOLVED, VERIFYING}
    requires Walk(db.incidents[inc].status, path).Some?
    ensures var i := db.incidents[inc]; var hops := Walk(i.status, path).value;
      var y := SetIncident(db, inc, i.(status := Last(i.status, hops), trail := i.trail + hops)); DbOk(y) && Evolves(db, y)
  {
    var i := db.incidents[inc];
    assert LegalTrail(i.trail) && i.status == i.trail[|i.trail| - 1] by { assert IncidentOk(db, inc); }
    hide DbOk, Evolves, LegalTrail, Walk;
    WalkIsLegal(i.trail, path);
    WalkMoves(i.status, path);
    HopsKeep(db, inc, Walk(i.status, path).value);
  }

  lemma StartFinishKeeps(db: Db, inc: Id, run: string, status: Status, draft: Option<IncidentGraph.PlanDraft>)
    requires DbOk(db) && status in {WAITING_APPROVAL, NEED_HUMAN}
    ensures var y := StartFinish(db, inc, run, status, draft).0; DbOk(y) && Evolves(db, y) && y.executions == db.executions
  {
    hide DbOk, Evolves, Walk, PersistPlan;
    if inc < |db.incidents| {
      var previous := db.incidents[inc].status;
      var x := PersistPlan(db, inc, run, draft);
      PersistKeeps(db, inc, run, draft);
      EvolvesReflexive(db);
      if previous != status && Walk(previous, GraphPath(status)).Some? {
        WalkKeeps(x, inc, GraphPath(status));
        EvolvesTransitive(db, x, StartFinish(db, inc, run, status, draft).0);
      }
    } else {
      EvolvesReflexive(db);
    }
  }

  /** A walk to a different status takes at least one hop, and starts from an open status. */
  lemma {:induction false} WalkMoves(current: Status, path: seq<Status>)
    requires path != [] && path[|path| - 1] != current && Walk(current, path).Some?
    ensures Walk(current, path).value != [] && Open(current)
    decreases |path|
  {
    if current == path[0] {
      WalkMoves(current, path[1..]);
    }
  }

  lemma InsertKeeps(x: Db, e: Execution)
    requires DbOk(x) && ExecutionOk(x, e) && ExecutionWithKey(x.executions, e.key).None?
    ensures var y := x.(executions := x.executions + [e]); DbOk(y) && Evolves(x, y)
  {
    hide ApprovalsOk, ChecksOk, IncidentOk;
    var y := x.(executions := x.executions + [e]);
    assert Evolves(x, y);
    Unchanged(x, y);
    assert ExecutionsOk(y) by {
      forall f | 0 <= f < |y.executions| ensures ExecutionOk(y, y.executions[f]) {
        if f < |x.executions| { assert ExecutionOk(x, x.executions[f]); }
      }
    }
  }

  lemma ExecuteBeginKeeps(db: Db, inc: Id, plan: Id, config: Option<RecoveryConfig>)
    requires DbOk(db)
    ensures var (y, reply) := ExecuteBegin(db, inc, plan, config);
      && DbOk(y) && Evolves(db, y) && db.executions <= y.executions
      && (if reply.Started? then reply.execution == |db.executions| && |y.executions| == |db.executions| + 1
            && y.executions[reply.execution].plan == plan && y.executions[reply.execution].status == RUNNING
          else y == db)
  {
    hide DbOk, Evolves, Evaluate;
    var (y, reply) := ExecuteBegin(db, inc, plan, config);
    EvolvesReflexive(db);
    if reply.Started? {
      var hash := db.plans[plan].hash;
      var a := LatestApproval(db.approvals, plan, hash).value;
      var e := Execution(plan, Key(plan, hash, a), a, hash, RUNNING);
      var x := db.(executions := db.executions + [e]);
      InsertKeeps(db, e);
      if db.incidents[inc].status == WAITING_APPROVAL {
        MoveKeeps(x, inc, EXECUTING);
        EvolvesTransitive(db, x, y);
      }
    }
  }

  lemma ExecuteFinishKeeps(x: Db, e: Id, answer: Answer)
    requires DbOk(x) && e < |x.executions| && x.executions[e].status == RUNNING
    ensures var y := ExecuteFinish(x, e, answer); DbOk(y) && Evolves(x, y)
  {
    hide ApprovalsOk, ExecutionsOk, ChecksOk, IncidentOk;
    var y := ExecuteFinish(x, e, answer);
    assert Evolves(x, y);
    Unchanged(x, y);
  }

  /** A recovered incident may start verifying. */
  lemma VerifyingKeeps(x: Db, inc: Id, e: Id)
    requires DbOk(x) && inc < |x.incidents| && x.incidents[inc].status == EXECUTING && RecoveredBy(x, inc, e)
    ensures var y := SetIncident(x, inc, Moved(x.incidents[inc], VERIFYING)); DbOk(y) && Evolves(x, y)
  {
    hide ApprovalsOk, ExecutionsOk, ChecksOk;
    var y := SetIncident(x, inc, Moved(x.incidents[inc], VERIFYING));
    assert IncidentOk(x, inc);
    assert RecoveredBy(y, inc, e);
    assert Evolves(x, y);
    Unchanged(x, y);
    assert IncidentOk(y, inc);
  }

  lemma VerifyBeginKeeps(db: Db, inc: Id, plan: Id, e: Id)
    requires DbOk(db)
    ensures var (y, reply) := VerifyBegin(db, inc, plan, e);
      && DbOk(y) && Evolves(db, y) && y.executions == db.executions
      && (if reply.Proceed? then OwnsPlan(y, inc, plan) && RecoveredBy(y, inc, e) && y.executions[e].plan == plan else y == db)
  {
    hide DbOk, Evolves;
    if VerifyBegin(db, inc, plan, e).1.Proceed? && db.incidents[inc].status == EXECUTING {
      VerifyingKeeps(db, inc, e);
    } else {
      EvolvesReflexive(db);
    }
  }

  /** Recording the check rows of an execution that has none. */
  lemma RecordKeeps(x: Db, inc: Id, e: Id, v: Verification)
    requires DbOk(x) && RecoveredBy(x, inc, e) && !Checked(x, e)
    ensures var y := x.(checks := x.checks + CheckRows(inc, e, v, |x.checks|)); DbOk(y) && Evolves(x, y)
  {
    hide ApprovalsOk, ExecutionsOk, IncidentOk;
    var y := x.(checks := x.checks + CheckRows(inc, e, v, |x.checks|));
    assert Evolves(x, y);
    Unchanged(x, y);
    RecordedChecks(x, inc, e, v);
  }

  lemma RecordedChecks(x: Db, inc: Id, e: Id, v: Verification)
    requires ChecksOk(x) && RecoveredBy(x, inc, e) && !Checked(x, e)
    ensures ChecksOk(x.(checks := x.checks + CheckRows(inc, e, v, |x.checks|)))
  {
    var y := x.(checks := x.checks + CheckRows(inc, e, v, |x.checks|));
    forall k | 0 <= k < |x.checks| ensures y.checks[k].execution != e && y.checks[k].batch < |x.checks| {
      assert CheckOk(x, x.checks[k]);
    }
    forall k | 0 <= k < |y.checks| ensures CheckOk(y, y.checks[k]) {
      if k < |x.checks| { assert CheckOk(x, x.checks[k]); }
    }
  }

  /** Resolving a verifying incident on the strength of a recovered, checked and passed execution. */
  lemma ResolveKeeps(x: Db, inc: Id, e: Id, now: int)
    requires DbOk(x) && RecoveredBy(x, inc, e) && Checked(x, e) && AllPassed(x, e)
    requires inc < |x.incidents| && x.incidents[inc].status == VERIFYING
    ensures var p := x.executions[e].plan;
      var y := SetPlan(SetIncident(x, inc, Moved(x.incidents[inc], RESOLVED).(resolvedAt := Some(now))), p, x.plans[p].(status := EXECUTED));
      DbOk(y) && Evolves(x, y)
  {
    var p := x.executions[e].plan;
    var y := SetPlan(SetIncident(x, inc, Moved(x.incidents[inc], RESOLVED).(resolvedAt := Some(now))), p, x.plans[p].(status := EXECUTED));
    assert x.plans[p].status in {APPROVED, EXECUTED} by {
      assert ExecutionOk(x, x.executions[e]);
      assert ApprovalOk(x, x.approvals[x.executions[e].approval]);
    }
    hide ApprovalsOk, ExecutionsOk, ChecksOk;
    assert IncidentOk(x, inc);
    assert Evolves(x, y);
    Unchanged(x, y);
    assert ResolvedBy(y, inc, e);
    assert IncidentOk(y, inc);
  }

  lemma VerifyFinishKeeps(db: Db, inc: Id, plan: Id, e: Id, criteria: seq<string>, logs: Logs, now: int)
    requires DbOk(db) && OwnsPlan(db, inc, plan) && RecoveredBy(db, inc, e) && db.executions[e].plan == plan
    ensures var y := VerifyFinish(db, inc, plan, e, VerifyRecovery(criteria, logs), now).0;
      DbOk(y) && Evolves(db, y) && y.executions == db.executions
  {
    var v := VerifyRecovery(criteria, logs);
    var y := VerifyFinish(db, inc, plan, e, v, now).0;
    if ChecksOf(db.checks, e) == [] {
      assert !Checked(db, e);
      var rows := CheckRows(inc, e, v, |db.checks|);
      var x := db.(checks := db.checks + rows);
      RecordKeeps(db, inc, e, v);
      if db.incidents[inc].status == VERIFYING && v.passed {
        assert x.checks[|db.checks|] == rows[0];
        assert AllPassed(x, e);
        ResolveKeeps(x, inc, e, now);
        EvolvesTransitive(db, x, y);
      } else if db.incidents[inc].status == VERIFYING {
        MoveKeeps(x, inc, NEED_HUMAN);
        EvolvesTransitive(db, x, y);
      }
    }
  }

  // ---------------------------------------------------------------- every step keeps the whole system consistent

  /** Rows that evolve without finishing an execution leave workers and calls with what they rely on. */
  lemma WorkersKeep(s: Sys, y: Db)
    requires Inv(s) && DbOk(y) && Evolves(s.db, y) && s.db.executions <= y.executions
    ensures Inv(s.(db := y))
  {
    var t := s.(db := y);
    forall w | 0 <= w < |t.workers| ensures WorkerOk(t, t.workers[w]) {
      assert WorkerOk(s, s.workers[w]);
      if t.workers[w].Checking? { RecoveredByEvolves(s.db, y, t.workers[w].inc, t.workers[w].execution); }
    }
    forall c | 0 <= c < |t.calls| ensures CallMatches(t.db, t.calls[c]) { assert CallMatches(s.db, s.calls[c]); }
  }

  /** A worker leaving, or a new one arriving with a claim of its own, keeps the rest. */
  lemma WorkerJoins(s: Sys, w: Worker)
    requires Inv(s) && WorkerOk(s, w) && forall v :: 0 <= v < |s.workers| ==> !SameHold(w, s.workers[v])
    ensures Inv(s.(workers := s.workers + [w]))
  {
    var t := s.(workers := s.workers + [w]);
    forall v | 0 <= v < |t.workers| ensures WorkerOk(t, t.workers[v]) {
      if v < |s.workers| { assert WorkerOk(s, s.workers[v]); }
    }
  }

  lemma WorkerLeaves(s: Sys, w: nat)
    requires Inv(s) && w < |s.workers|
    ensures Inv(Leaves(s, w, s.db))
  {
    var t := Leaves(s, w, s.db);
    forall v | 0 <= v < |t.workers| ensures WorkerOk(t, t.workers[v]) { assert WorkerOk(s, s.workers[v]); }
  }

  ghost predicate Sound(s: Sys, t: Sys) { Inv(t) && Evolves(s.db, t.db) && s.calls <= t.calls }

  /** A transaction without workers or calls. */
  lemma RowsStep(s: Sys, y: Db)
    requires Inv(s) && DbOk(y) && Evolves(s.db, y) && s.db.executions <= y.executions
    ensures Sound(s, s.(db := y))
  {
    WorkersKeep(s, y);
  }

  lemma RouteStep(s: Sys, a: Action)
    requires Inv(s) && (a.AlertOpens? || a.UserApproves? || a.UserRejects? || a.UserRetries? || a.TaskGivesUp?)
    ensures Sound(s, Next(s, a))
  {
    hide DbOk, Evolves;
    match a
    case AlertOpens(scope) => OpenKeeps(s.db, scope); RowsStep(s, Next(s, a).db);
    case UserApproves(inc, hash, user, config, now) => ApproveKeeps(s.db, inc, hash, user, config, now); RowsStep(s, Next(s, a).db);
    case UserRejects(inc, hash, user, now) => RejectKeeps(s.db, inc, hash, user, now); RowsStep(s, Next(s, a).db);
    case UserRetries(inc) => RetryKeeps(s.db, inc); RowsStep(s, Next(s, a).db);
    case TaskGivesUp(inc) => GiveUpKeeps(s.db, inc); RowsStep(s, Next(s, a).db);
  }

  lemma StartStep(s: Sys, inc: Id, run: string)
    requires Inv(s)
    ensures Sound(s, Next(s, TaskStarts(inc, run)))
  {
    var (y, go) := StartBegin(s.db, inc);
    StartBeginKeeps(s.db, inc);
    WorkersKeep(s, y);
    if go { WorkerJoins(s.(db := y), Investigating(inc, run)); }
  }

  lemma PersistStep(s: Sys, w: nat, st: IncidentGraph.State, world: IncidentGraph.World)
    requires Inv(s)
    ensures Sound(s, Next(s, TaskPersists(w, st, world)))
  {
    hide DbOk, Evolves, CallsOk, IncidentGraph.StartOutcome, StartFinish;
    EvolvesReflexive(s.db);
    if w < |s.workers| && s.workers[w].Investigating? {
      var (status, draft) := IncidentGraph.StartOutcome(st, world.(payload := None));
      var t := s.workers[w];
      StartFinishKeeps(s.db, t.inc, t.run, status, draft);
      var y := StartFinish(s.db, t.inc, t.run, status, draft).0;
      WorkersKeep(s, y);
      WorkerLeaves(s.(db := y), w);
    }
  }

  lemma ExecuteNext(s: Sys, inc: Id, plan: Id, config: Option<RecoveryConfig>)
    ensures var (y, reply) := ExecuteBegin(s.db, inc, plan, config);
      && (!reply.Started? ==> Next(s, TaskExecutes(inc, plan, config)) == s.(db := y))
      && (reply.Started? ==>
            && reply.execution < |y.executions|
            && var e := y.executions[reply.execution];
               Next(s, TaskExecutes(inc, plan, config))
               == s.(db := y, workers := s.workers + [Calling(Call(plan, e.planHash, e.approval, reply.execution, None))]))
  {
    hide Evaluate, LatestApproval, ExecutionWithKey, Moved;
  }

  lemma ExecuteStep(s: Sys, inc: Id, plan: Id, config: Option<RecoveryConfig>)
    requires Inv(s)
    ensures Sound(s, Next(s, TaskExecutes(inc, plan, config)))
  {
    var (y, reply) := ExecuteBegin(s.db, inc, plan, config);
    ExecuteBeginKeeps(s.db, inc, plan, config);
    ExecuteNext(s, inc, plan, config);
    hide Next, ExecuteBegin;
    WorkersKeep(s, y);
    if reply.Started? {
      var e := y.executions[reply.execution];
      var call := Call(plan, e.planHash, e.approval, reply.execution, None);
      forall k | 0 <= k < |s.calls| ensures s.calls[k].execution != reply.execution { assert CallMatches(s.db, s.calls[k]); }
      forall v | 0 <= v < |s.workers| ensures !SameHold(Calling(call), s.workers[v]) { assert WorkerOk(s, s.workers[v]); }
      WorkerJoins(s.(db := y), Calling(call));
    }
  }

  lemma CallStep(s: Sys, w: nat, answer: Answer)
    requires Inv(s)
    ensures Sound(s, Next(s, TaskCalls(w, answer)))
  {
    hide DbOk;
    EvolvesReflexive(s.db);
    var t := Next(s, TaskCalls(w, answer));
    if w < |s.workers| && s.workers[w].Calling? {
      hide Evolves;
      assert WorkerOk(s, s.workers[w]);
      SameClaims(s.workers, t.workers);
      forall v | 0 <= v < |t.workers| ensures WorkerOk(t, t.workers[v]) {
        assert WorkerOk(s, s.workers[v]);
        if v != w { assert !SameHold(s.workers[v], s.workers[w]); }
      }
      assert CallsOk(t);
    }
  }

  /** Workers that claim nothing new claim nothing twice. */
  lemma SameClaims(x: seq<Worker>, y: seq<Worker>)
    requires |x| == |y| && forall v :: 0 <= v < |x| ==> Holds(y[v]).None? || Holds(y[v]) == Holds(x[v])
    requires forall v, w :: 0 <= v < |x| && 0 <= w < |x| && SameHold(x[v], x[w]) ==> v == w
    ensures forall v, w :: 0 <= v < |y| && 0 <= w < |y| && SameHold(y[v], y[w]) ==> v == w
  {
    forall v, w | 0 <= v < |y| && 0 <= w < |y| && SameHold(y[v], y[w]) ensures v == w {
      assert SameHold(x[v], x[w]);
    }
  }

  lemma SaveAnswerStep(s: Sys, w: nat)
    requires Inv(s)
    ensures Sound(s, Next(s, TaskSavesAnswer(w)))
  {
    hide DbOk;
    var t := Next(s, TaskSavesAnswer(w));
    if w < |s.workers| && s.workers[w].Answered? {
      assert WorkerOk(s, s.workers[w]);
      ExecuteFinishKeeps(s.db, s.workers[w].execution, s.workers[w].answer);
      hide Evolves;
      SameClaims(s.workers, t.workers);
      forall v | 0 <= v < |t.workers| ensures WorkerOk(t, t.workers[v]) {
        assert WorkerOk(s, s.workers[v]);
        if v != w {
          assert !SameHold(s.workers[v], s.workers[w]);
          if t.workers[v].Checking? { RecoveredByEvolves(s.db, t.db, t.workers[v].inc, t.workers[v].execution); }
        }
      }
      assert CallsOk(t) by {
        forall c | 0 <= c < |t.calls| ensures CallMatches(t.db, t.calls[c]) { assert CallMatches(s.db, s.calls[c]); }
      }
    } else {
      EvolvesReflexive(s.db);
    }
  }

  lemma VerifyStep(s: Sys, inc: Id, plan: Id, e: Id)
    requires Inv(s)
    ensures Sound(s, Next(s, TaskVerifies(inc, plan, e)))
  {
    var (y, reply) := VerifyBegin(s.db, inc, plan, e);
    VerifyBeginKeeps(s.db, inc, plan, e);
    WorkersKeep(s, y);
    if reply.Proceed? { WorkerJoins(s.(db := y), Checking(inc, plan, e, reply.criteria)); }
  }

  lemma SaveChecksStep(s: Sys, w: nat, logs: Logs, now: int)
    requires Inv(s)
    ensures Sound(s, Next(s, TaskSavesChecks(w, logs, now)))
  {
    hide DbOk, Evolves, CallsOk, VerifyFinish, VerifyRecovery;
    EvolvesReflexive(s.db);
    if w < |s.workers| && s.workers[w].Checking? {
      var t := s.workers[w];
      assert WorkerOk(s, t);
      VerifyFinishKeeps(s.db, t.inc, t.plan, t.execution, t.criteria, logs, now);
      var y := VerifyFinish(s.db, t.inc, t.plan, t.execution, VerifyRecovery(t.criteria, logs), now).0;
      WorkersKeep(s, y);
      WorkerLeaves(s.(db := y), w);
    }
  }

  lemma DieStep(s: Sys, w: nat)
    requires Inv(s)
    ensures Sound(s, Next(s, WorkerDies(w)))
  {
    hide DbOk, WorkersOk, CallsOk;
    if w < |s.workers| { WorkerLeaves(s, w); }
  }

  /** One step, whatever it is, keeps the invariant; rows only evolve and calls are only added. */
  lemma StepKeeps(s: Sys, a: Action)
    requires Inv(s)
    ensures Sound(s, Next(s, a))
  {
    hide Sound, Inv, Next;
    match a
    case TaskStarts(inc, run) => StartStep(s, inc, run);
    case TaskPersists(w, st, world) => PersistStep(s, w, st, world);
    case TaskExecutes(inc, plan, config) => ExecuteStep(s, inc, plan, config);
    case TaskCalls(w, answer) => CallStep(s, w, answer);
    case TaskSavesAnswer(w) => SaveAnswerStep(s, w);
    case TaskVerifies(inc, plan, e) => VerifyStep(s, inc, plan, e);
    case TaskSavesChecks(w, logs, now) => SaveChecksStep(s, w, logs, now);
    case WorkerDies(w) => DieStep(s, w);
    case _ => RouteStep(s, a);
  }

  /** Every state of every run satisfies the invariant. */
  lemma {:induction false} RunKeeps(run: seq<Sys>, i: nat)
    requires IsRun(run) && i < |run|
    ensures Inv(run[i])
  {
    if i > 0 {
      RunKeeps(run, i - 1);
      assert Steps(run[i - 1], run[i]);
      var a :| run[i] == Next(run[i - 1], a);
      StepKeeps(run[i - 1], a);
    }
  }

  /** Along every run, rows only evolve and calls are only added. */
  lemma {:induction false} RunEvolves(run: seq<Sys>, i: nat, j: nat)
    requires IsRun(run) && i <= j < |run|
    ensures Evolves(run[i].db, run[j].db) && run[i].calls <= run[j].calls
    decreases j
  {
    hide Evolves;
    if i == j {
      EvolvesReflexive(run[i].db);
    } else {
      RunEvolves(run, i, j - 1);
      RunKeeps(run, j - 1);
      assert Steps(run[j - 1], run[j]);
      var a :| run[j] == Next(run[j - 1], a);
      StepKeeps(run[j - 1], a);
      EvolvesTransitive(run[i].db, run[j - 1].db, run[j].db);
    }
  }
}
