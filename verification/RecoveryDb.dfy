/** The rows the approve / execute / verify protocol shares, and every committed transaction on them as
    a function from the rows it finds to the rows it leaves and the reply it gives. */
module RecoveryDb {
  import opened Options
  import opened Lifecycle
  import opened Policy
  import IncidentGraph

  // Tables only grow, so a row's id is its position; a new row's id is fresh as a new UUID is.
  type Id = nat

  /** `trail` records every status the row has been given, in order. */
  datatype Incident = Incident(scope: Scope, status: Status, trail: seq<Status>, resolvedAt: Option<int>)

  datatype PlanStatus = PENDING_APPROVAL | APPROVED | REJECTED | EXECUTED

  datatype Plan = Plan(
    incident: Id, graphRun: string, version: nat, rollback: Rollback, criteria: seq<string>, hash: string,
    status: PlanStatus)

  datatype Decision = Approve | Reject

  datatype Approval = Approval(plan: Id, planHash: string, user: Id, decision: Decision, decidedAt: int)

  datatype ExecutionStatus = RUNNING | SUCCEEDED | FAILED | UNKNOWN

  /** The idempotency key's three parts; ApprovalProof shows that its text determines them. */
  datatype Key = Key(plan: Id, planHash: string, approval: Id)

  datatype Execution = Execution(plan: Id, key: Key, approval: Id, planHash: string, status: ExecutionStatus)

  datatype Conclusion = PASSED | FAILED_CHECK

  /** `batch` is the number of check rows that existed before the inserting transaction. */
  datatype Check = Check(
    incident: Id, execution: Id, name: string, status: string, conclusion: Conclusion, batch: nat)

  datatype Db = Db(
    incidents: seq<Incident>, plans: seq<Plan>, approvals: seq<Approval>, executions: seq<Execution>,
    checks: seq<Check>)

  // ---------------------------------------------------------------- queries

  /** The plan of an incident with the highest version, the later row on a tie. */
  function LatestPlan(plans: seq<Plan>, inc: Id): (r: Option<Id>)
    ensures r.Some? ==> r.value < |plans| && plans[r.value].incident == inc
    ensures r.Some? ==> forall p :: 0 <= p < |plans| && plans[p].incident == inc ==> plans[p].version <= plans[r.value].version
    ensures r.None? ==> forall p :: 0 <= p < |plans| ==> plans[p].incident != inc
  {
    if plans == [] then None
    else
      var n := |plans| - 1;
      var r := LatestPlan(plans[..n], inc);
      if plans[n].incident == inc && (r.None? || plans[r.value].version <= plans[n].version) then Some(n) else r
  }

  /** The plan of an incident with a given hash, the earliest row if there are several. */
  function PlanWithHash(plans: seq<Plan>, inc: Id, hash: string): (r: Option<Id>)
    ensures r.Some? ==> r.value < |plans| && plans[r.value].incident == inc && plans[r.value].hash == hash
    ensures r.None? ==> forall p :: 0 <= p < |plans| ==> plans[p].incident != inc || plans[p].hash != hash
  {
    if plans == [] then None
    else
      var n := |plans| - 1;
      var r := PlanWithHash(plans[..n], inc, hash);
      if r.None? && plans[n].incident == inc && plans[n].hash == hash then Some(n) else r
  }

  predicate Approves(a: Approval, plan: Id, hash: string) {
    a.plan == plan && a.planHash == hash && a.decision == Approve
  }

  /** The newest APPROVED decision for a plan and hash. */
  function LatestApproval(approvals: seq<Approval>, plan: Id, hash: string): (r: Option<Id>)
    ensures r.Some? ==> r.value < |approvals| && Approves(approvals[r.value], plan, hash)
    ensures r.None? ==> forall a :: 0 <= a < |approvals| ==> !Approves(approvals[a], plan, hash)
  {
    if approvals == [] then None
    else
      var n := |approvals| - 1;
      var r := LatestApproval(approvals[..n], plan, hash);
      if Approves(approvals[n], plan, hash) && (r.None? || approvals[r.value].decidedAt <= approvals[n].decidedAt)
      then Some(n) else r
  }

  function ExecutionWithKey(executions: seq<Execution>, key: Key): (r: Option<Id>)
    ensures r.Some? ==> r.value < |executions| && executions[r.value].key == key
    ensures r.None? ==> forall e :: 0 <= e < |executions| ==> executions[e].key != key
  {
    if executions == [] then None
    else
      var n := |executions| - 1;
      var r := ExecutionWithKey(executions[..n], key);
      if r.None? && executions[n].key == key then Some(n) else r
  }

  /** `_persisted_checks`: the check rows of one execution, in insertion order. */
  function ChecksOf(checks: seq<Check>, execution: Id): (r: seq<Check>)
    ensures forall k :: 0 <= k < |r| ==> r[k] in checks && r[k].execution == execution
    ensures r == [] ==> forall k :: 0 <= k < |checks| ==> checks[k].execution != execution
  {
    if checks == [] then []
    else
      var n := |checks| - 1;
      ChecksOf(checks[..n], execution) + (if checks[n].execution == execution then [checks[n]] else [])
  }

  predicate OwnsPlan(db: Db, inc: Id, plan: Id) {
    inc < |db.incidents| && plan < |db.plans| && db.plans[plan].incident == inc
  }

  // ---------------------------------------------------------------- incident moves

  function Moved(i: Incident, target: Status): Incident {
    i.(status := target, trail := i.trail + [target])
  }

  function SetIncident(db: Db, inc: Id, i: Incident): Db
    requires inc < |db.incidents|
  {
    db.(incidents := db.incidents[inc := i])
  }

  function SetPlan(db: Db, p: Id, plan: Plan): Db
    requires p < |db.plans|
  {
    db.(plans := db.plans[p := plan])
  }

  /** The alert hub opens an incident. */
  function OpenIncident(db: Db, scope: Scope): Db {
    db.(incidents := db.incidents + [Incident(scope, RECEIVED, [RECEIVED], None)])
  }

  // ---------------------------------------------------------------- approval routes

  datatype RouteError = NOT_FOUND | CONFLICT | FORBIDDEN | RAISED

  datatype RouteReply = Refused(error: RouteError) | Decided(approval: Id, plan: Id)

  /** `approve_incident`, with the policy's recovery configuration as a parameter. */
  function ApproveIncident(db: Db, inc: Id, hash: string, user: Id, config: Option<RecoveryConfig>, now: int)
    : (Db, RouteReply)
  {
    if inc >= |db.incidents| || LatestPlan(db.plans, inc).None? then (db, Refused(NOT_FOUND))
    else
      var p := LatestPlan(db.plans, inc).value;
      var plan := db.plans[p];
      if db.incidents[inc].status != WAITING_APPROVAL || plan.hash != hash then (db, Refused(CONFLICT))
      else if plan.status != PENDING_APPROVAL || plan.graphRun == "" then (db, Refused(CONFLICT))
      else match Evaluate(plan.rollback, Some(db.incidents[inc].scope), config)
           case Raised => (db, Refused(RAISED))
           case Denied(_) => (db, Refused(FORBIDDEN))
           case Allowed =>
             (SetPlan(db, p, plan.(status := APPROVED)).(approvals := db.approvals + [Approval(p, hash, user, Approve, now)]),
              Decided(|db.approvals|, p))
  }

  /** `reject_incident`. */
  function RejectIncident(db: Db, inc: Id, hash: string, user: Id, now: int): (Db, RouteReply) {
    if inc >= |db.incidents| || LatestPlan(db.plans, inc).None? then (db, Refused(NOT_FOUND))
    else
      var p := LatestPlan(db.plans, inc).value;
      var plan := db.plans[p];
      if db.incidents[inc].status != WAITING_APPROVAL || plan.hash != hash then (db, Refused(CONFLICT))
      else if plan.status != PENDING_APPROVAL then (db, Refused(CONFLICT))
      else
        var moved := SetIncident(db, inc, Moved(db.incidents[inc], NEED_HUMAN));
        (SetPlan(moved, p, plan.(status := REJECTED)).(approvals := db.approvals + [Approval(p, hash, user, Reject, now)]),
         Decided(|db.approvals|, p))
  }

  /** `retry_investigation`: true when the new attempt was committed. */
  function RetryInvestigation(db: Db, inc: Id): (Db, bool) {
    if inc >= |db.incidents| || db.incidents[inc].status != NEED_HUMAN then (db, false)
    else (SetIncident(db, inc, Moved(db.incidents[inc], TRIAGING)), true)
  }

  // ---------------------------------------------------------------- worker tasks

  /** First transaction of `_start_incident`: true when the graph is to be run. */
  function StartBegin(db: Db, inc: Id): (Db, bool) {
    if inc >= |db.incidents| then (db, false)
    else if db.incidents[inc].status == RECEIVED then (SetIncident(db, inc, Moved(db.incidents[inc], TRIAGING)), true)
    else (db, db.incidents[inc].status == TRIAGING)
  }

  /** The plan part of `_persist_graph_findings`. */
  function PersistPlan(db: Db, inc: Id, run: string, draft: Option<IncidentGraph.PlanDraft>): Db {
    if draft.None? then db
    else
      var found := PlanWithHash(db.plans, inc, draft.value.hash);
      if found.Some? && db.plans[found.value].status == PENDING_APPROVAL then db
      else
        var latest := LatestPlan(db.plans, inc);
        var version := (if latest.Some? then db.plans[latest.value].version else 0) + 1;
        var d := draft.value;
        db.(plans := db.plans + [Plan(inc, run, version, d.rollback, d.criteria, d.hash, PENDING_APPROVAL)])
  }

  function GraphPath(status: Status): seq<Status> {
    if status == WAITING_APPROVAL then GRAPH_STATUS_PATH else [status]
  }

  /** Second transaction of `_start_incident`; an illegal hop raises and leaves every row as it was. */
  function StartFinish(db: Db, inc: Id, run: string, status: Status, draft: Option<IncidentGraph.PlanDraft>): (Db, bool) {
    if inc >= |db.incidents| then (db, false)
    else
      var previous := db.incidents[inc].status;
      var planned := PersistPlan(db, inc, run, draft);
      if previous == status then (planned, true)
      else match Walk(previous, GraphPath(status))
           case None => (db, false)
           case Some(hops) =>
             var i := db.incidents[inc];
             (SetIncident(planned, inc, i.(status := Last(previous, hops), trail := i.trail + hops)), true)
  }

  /** `_mark_need_human`. */
  function MarkNeedHuman(db: Db, inc: Id): Db {
    if inc >= |db.incidents| || db.incidents[inc].status in {NEED_HUMAN, RESOLVED, Lifecycle.FAILED} then db
    else SetIncident(db, inc, Moved(db.incidents[inc], NEED_HUMAN))
  }

  /** The guard of `_resume_incident`: the approval the interrupted graph is resumed with. */
  function ResumeBegin(db: Db, inc: Id, plan: Id): Option<Id> {
    if !OwnsPlan(db, inc, plan) then None
    else
      var a := LatestApproval(db.approvals, plan, db.plans[plan].hash);
      if db.incidents[inc].status != WAITING_APPROVAL || db.plans[plan].status != APPROVED || a.None?
         || db.plans[plan].graphRun == ""
      then None else a
  }

  // ---------------------------------------------------------------- execution

  datatype ExecuteReply =
    | PlanNotFound | PlanNotApproved | PolicyRaised | PolicyDenied | TatMissing
    | Saved(execution: Id, status: ExecutionStatus)
    | Started(execution: Id)

  /** First transaction of `execute_approved_plan`. Started is the only reply that goes on to call. */
  function ExecuteBegin(db: Db, inc: Id, plan: Id, config: Option<RecoveryConfig>): (Db, ExecuteReply) {
    if !OwnsPlan(db, inc, plan) then (db, PlanNotFound)
    else
      var p := db.plans[plan];
      var a := LatestApproval(db.approvals, plan, p.hash);
      if a.None? || p.status != APPROVED then (db, PlanNotApproved)
      else match Evaluate(p.rollback, Some(db.incidents[inc].scope), config)
           case Raised => (db, PolicyRaised)
           case Denied(_) => (db, PolicyDenied)
           case Allowed =>
             if config.value.tencentTat.None? then (db, TatMissing)
             else
               var key := Key(plan, p.hash, a.value);
               var saved := ExecutionWithKey(db.executions, key);
               if saved.Some? then (db, Saved(saved.value, db.executions[saved.value].status))
               else
                 var inserted := db.(executions := db.executions + [Execution(plan, key, a.value, p.hash, RUNNING)]);
                 var i := db.incidents[inc];
                 (if i.status == WAITING_APPROVAL then SetIncident(inserted, inc, Moved(i, EXECUTING)) else inserted,
                  Started(|db.executions|))
  }

  /** How the Recovery MCP call can end for the caller. */
  datatype Answer = REPORTED_SUCCESS | REPORTED_FAILURE | REJECTED_CALL | TIMED_OUT

  function StatusOf(answer: Answer): ExecutionStatus {
    match answer
    case REPORTED_SUCCESS => SUCCEEDED
    case REPORTED_FAILURE => ExecutionStatus.FAILED
    case REJECTED_CALL => ExecutionStatus.FAILED
    case TIMED_OUT => UNKNOWN
  }

  /** Second transaction of `execute_approved_plan`. */
  function ExecuteFinish(db: Db, execution: Id, answer: Answer): Db {
    if execution >= |db.executions| then db
    else db.(executions := db.executions[execution := db.executions[execution].(status := StatusOf(answer))])
  }

  // ---------------------------------------------------------------- verification

  datatype CheckItem = CheckItem(name: string, status: string)

  datatype Verification = Verification(passed: bool, checks: seq<CheckItem>)

  /** What the read-only log query answered. */
  datatype Logs = LogsUnavailable | LogEntries(errors: nat)

  /** `verify_recovery`: one check on the error count, or one `unavailable` check per criterion. */
  function VerifyRecovery(criteria: seq<string>, logs: Logs): (v: Verification)
    ensures v.passed <==> logs == LogEntries(0)
    ensures v.passed ==> |v.checks| == 1
  {
    match logs
    case LogsUnavailable => Verification(false, Unavailable(criteria))
    case LogEntries(n) => Verification(n == 0, [CheckItem("cls_error_logs", if n == 0 then "PASSED" else "FAILED")])
  }

  function Unavailable(criteria: seq<string>): (r: seq<CheckItem>)
    ensures |r| == |criteria|
  {
    if criteria == [] then []
    else [CheckItem(if criteria[0] != "" then criteria[0] else "verification", "UNAVAILABLE")] + Unavailable(criteria[1..])
  }

  datatype VerifyReply =
    | NotVerifiable
    | Stored(status: Status, passed: bool, rows: seq<Check>)
    | Proceed(criteria: seq<string>)
    | Recorded(status: Status, passed: bool)

  function StoredReply(db: Db, inc: Id, rows: seq<Check>): VerifyReply
    requires inc < |db.incidents|
  {
    var status := db.incidents[inc].status;
    Stored(status, status == RESOLVED && forall k :: 0 <= k < |rows| ==> rows[k].conclusion == PASSED, rows)
  }

  /** First transaction of `verify_executed_plan`. */
  function VerifyBegin(db: Db, inc: Id, plan: Id, execution: Id): (Db, VerifyReply) {
    if !OwnsPlan(db, inc, plan) || execution >= |db.executions| || db.executions[execution].plan != plan then
      (db, NotVerifiable)
    else if db.executions[execution].status != SUCCEEDED then (db, NotVerifiable)
    else
      var rows := ChecksOf(db.checks, execution);
      var i := db.incidents[inc];
      if rows != [] then (db, StoredReply(db, inc, rows))
      else if i.status == EXECUTING then (SetIncident(db, inc, Moved(i, VERIFYING)), Proceed(db.plans[plan].criteria))
      else if i.status != VERIFYING then (db, NotVerifiable)
      else (db, Proceed(db.plans[plan].criteria))
  }

  function CheckRows(inc: Id, execution: Id, v: Verification, batch: nat): seq<Check> {
    seq(|v.checks|, k requires 0 <= k < |v.checks| =>
      Check(inc, execution, v.checks[k].name, v.checks[k].status, if v.passed then PASSED else FAILED_CHECK, batch))
  }

  /** Second transaction of `verify_executed_plan`. */
  function VerifyFinish(db: Db, inc: Id, plan: Id, execution: Id, v: Verification, now: int): (Db, VerifyReply) {
    if !OwnsPlan(db, inc, plan) || execution >= |db.executions| then (db, NotVerifiable)
    else
      var rows := ChecksOf(db.checks, execution);
      if rows != [] then (db, StoredReply(db, inc, rows))
      else
        var recorded := db.(checks := db.checks + CheckRows(inc, execution, v, |db.checks|));
        var i := db.incidents[inc];
        if i.status != VERIFYING then (recorded, Recorded(i.status, v.passed))
        else if v.passed then
          var resolved := SetIncident(recorded, inc, Moved(i, RESOLVED).(resolvedAt := Some(now)));
          (SetPlan(resolved, plan, db.plans[plan].(status := EXECUTED)), Recorded(RESOLVED, true))
        else (SetIncident(recorded, inc, Moved(i, NEED_HUMAN)), Recorded(NEED_HUMAN, false))
  }
}
