/** The outer incident graph: its nodes, its conditional edges and the approval interrupt. */
module IncidentGraph {
  import opened Options
  import opened Lifecycle
  import Policy

  datatype PlanDraft = PlanDraft(rollback: Policy.Rollback, criteria: seq<string>, hash: string)

  datatype Uuid = Uuid(text: string)

  /** What the API hands to an interrupted run; absent keys are None, the ids are already `str`-ed, and
      `approves` says that `decision` is the text APPROVED. */
  datatype Payload =
    | NotADict
    | Dict(approves: bool, planHash: Option<string>, approvalId: Option<string>, planId: Option<string>)

  datatype ResultStatus = SUCCEEDED | RUNNING | FAILED_RESULT | UNKNOWN | NOT_FOUND | NOT_APPROVED | DENIED

  datatype ExecutionResult = ExecutionResult(executionId: Option<Uuid>, status: ResultStatus, error: Option<string>)

  datatype VerificationOutcome = VerificationOutcome(status: Status, passed: bool, reason: Option<string>)

  /** The answer of an awaited callee: a value, or an exception with its type name. */
  datatype Answer<+T> = Threw(name: string) | Gave(result: T)

  /** A human-review reason: a text a callee supplied, or one of the graph's own sentences. */
  datatype Reason =
    | Said(text: string)
    | IncompletePlan | NoPlanAtBoundary | NotApproved | WrongPlan | MissingIds
    | ExecuteThrew(name: string) | ExecutionEnded(status: ResultStatus)
    | VerifyThrew(name: string) | VerificationFailed
    | ReviewRequired

  function StatusText(s: ResultStatus): string {
    match s
    case SUCCEEDED => "SUCCEEDED"
    case RUNNING => "RUNNING"
    case FAILED_RESULT => "FAILED"
    case UNKNOWN => "UNKNOWN"
    case NOT_FOUND => "NOT_FOUND"
    case NOT_APPROVED => "NOT_APPROVED"
    case DENIED => "DENIED"
  }

  function Render(r: Reason): (text: string)
    ensures text == "" <==> r == Said("")
  {
    match r
    case Said(t) => t
    case IncompletePlan => "The intelligence loop did not produce a complete plan."
    case NoPlanAtBoundary => "No action plan exists at the approval boundary."
    case NotApproved => "The remediation plan was not approved by an authorized user."
    case WrongPlan => "The approval does not match the interrupted action plan."
    case MissingIds => "The approval is missing valid durable identifiers."
    case ExecuteThrew(name) => "The approved recovery could not execute safely: " + name
    case ExecutionEnded(status) => "Recovery execution ended as " + StatusText(status) + "."
    case VerifyThrew(name) => "Recovery verification could not complete safely: " + name
    case VerificationFailed => "Recovery verification did not pass."
    case ReviewRequired => "Graph requires human review."
  }

  datatype Findings = Findings(status: Status, diagnosed: bool, plan: Option<PlanDraft>, reason: Option<Reason>)

  datatype State = State(
    incidentId: string, status: Status, diagnosed: bool, plan: Option<PlanDraft>,
    approval: Option<Payload>, execution: Option<ExecutionResult>, verification: Option<VerificationOutcome>,
    verificationFailures: nat, reason: Option<Reason>)

  datatype Node =
    | EnterInvestigation | Investigate | Plan | AwaitApproval | Execute | Verify | Resolved | NeedHuman

  /** Everything outside the graph: the investigation loop, the resume value (None: the interrupt
      pauses), the execution and verification services, and the UUID parser. */
  datatype World = World(
    findings: Answer<Findings>, payload: Option<Payload>, execute: Answer<ExecutionResult>,
    verify: Answer<VerificationOutcome>, parse: string -> Option<Uuid>)

  datatype End = Finished(state: State) | Paused(state: State) | Escaped(name: string)

  datatype Run = Run(visited: seq<Node>, end: End)

  /** Printing a UUID and parsing it again gives the same UUID, and the empty text is none. */
  ghost predicate UuidsRoundTrip(parse: string -> Option<Uuid>) {
    parse("").None? && forall u: Uuid :: parse(u.text) == Some(u)
  }

  /** Python's `value or default` for an optional text. */
  function Or(o: Option<string>, default: Reason): Reason {
    if o.Some? && o.value != "" then Said(o.value) else default
  }

  function ToHuman(st: State, reason: Reason): State {
    st.(status := NEED_HUMAN, reason := Some(reason))
  }

  function PlanNode(st: State): State {
    if !st.diagnosed || st.plan.None? then ToHuman(st, IncompletePlan)
    else st.(status := WAITING_APPROVAL)
  }

  function Parses(w: World, text: Option<string>): bool {
    text.Some? && w.parse(text.value).Some?
  }

  function ApprovalNode(st: State, response: Payload, w: World): State {
    if st.plan.None? then ToHuman(st, NoPlanAtBoundary)
    else if response.NotADict? || !response.approves then
      ToHuman(st, NotApproved)
    else if response.planHash != Some(st.plan.value.hash) then
      ToHuman(st, WrongPlan)
    else if !Parses(w, response.approvalId) || !Parses(w, response.planId) then
      ToHuman(st, MissingIds)
    else st.(approval := Some(response), status := EXECUTING)
  }

  /** `_approved_ids`: None is the ValueError. */
  function ApprovedIds(st: State, w: World): Option<(Uuid, Uuid)> {
    if st.plan.None? || st.approval.None? || st.approval.value.NotADict? then None
    else
      var a := st.approval.value;
      if !a.approves || a.planHash != Some(st.plan.value.hash) then None
      else if !Parses(w, Some(st.incidentId)) || !Parses(w, a.planId) then None
      else Some((w.parse(st.incidentId).value, w.parse(a.planId.value).value))
  }

  function ExecuteNode(st: State, w: World): State {
    if ApprovedIds(st, w).None? then ToHuman(st, ExecuteThrew("ValueError"))
    else match w.execute
         case Threw(name) => ToHuman(st, ExecuteThrew(name))
         case Gave(result) =>
           var recorded := st.(execution := Some(result));
           if result.status != SUCCEEDED || result.executionId.None?
           then ToHuman(recorded, Or(result.error, ExecutionEnded(result.status)))
           else recorded.(status := VERIFYING, reason := None)
  }

  function VerifyNode(st: State, w: World): State {
    if ApprovedIds(st, w).None? || st.execution.None? || st.execution.value.executionId.None?
       || w.parse(st.execution.value.executionId.value.text).None?
    then ToHuman(st, VerifyThrew("ValueError"))
    else match w.verify
         case Threw(name) => ToHuman(st, VerifyThrew(name))
         case Gave(result) =>
           var recorded := st.(verification := Some(result));
           if result.status != Lifecycle.RESOLVED || !result.passed
           then ToHuman(recorded.(verificationFailures := 1), Or(result.reason, VerificationFailed))
           else recorded.(status := Lifecycle.RESOLVED, reason := None)
  }

  function RouteAfterInvestigation(st: State): Node {
    if st.status == NEED_HUMAN then NeedHuman
    else if st.diagnosed && st.plan.Some? then Plan
    else NeedHuman
  }

  function RouteAfterApproval(st: State): Node {
    if st.status == EXECUTING then Execute else NeedHuman
  }

  function RouteAfterExecution(st: State): Node {
    if st.status == VERIFYING && st.execution.Some? && st.execution.value.status == SUCCEEDED
       && st.execution.value.executionId.Some? && |st.execution.value.executionId.value.text| > 0
    then Verify else NeedHuman
  }

  function RouteAfterVerification(st: State): Node {
    if st.status == Lifecycle.RESOLVED then Resolved else NeedHuman
  }

  /** The longest way from a node to the end; every edge of the graph lowers it. */
  function Rank(n: Node): nat {
    match n
    case EnterInvestigation => 7
    case Investigate => 6
    case Plan => 5
    case AwaitApproval => 4
    case Execute => 3
    case Verify => 2
    case Resolved => 1
    case NeedHuman => 1
  }

  datatype Step = Next(node: Node, state: State) | Stop(end: End)

  /** One node and its outgoing edge. */
  function Visit(n: Node, st: State, w: World): (step: Step)
    ensures step.Next? ==> Rank(step.node) < Rank(n)
  {
    match n
    case EnterInvestigation => Next(Investigate, st.(status := INVESTIGATING))
    case Investigate =>
      (match w.findings
       case Threw(name) => Stop(Escaped(name))
       case Gave(f) =>
         var st' := st.(status := f.status, diagnosed := f.diagnosed, plan := f.plan, reason := f.reason);
         Next(RouteAfterInvestigation(st'), st'))
    case Plan => Next(AwaitApproval, PlanNode(st))
    case AwaitApproval =>
      if st.plan.Some? && w.payload.None? then Stop(Paused(st))
      else
        var st' := ApprovalNode(st, if w.payload.Some? then w.payload.value else NotADict, w);
        Next(RouteAfterApproval(st'), st')
    case Execute => var st' := ExecuteNode(st, w); Next(RouteAfterExecution(st'), st')
    case Verify => var st' := VerifyNode(st, w); Next(RouteAfterVerification(st'), st')
    case Resolved => Stop(Finished(st.(status := Lifecycle.RESOLVED, reason := None)))
    case NeedHuman =>
      Stop(Finished(ToHuman(st, if st.reason.Some? && st.reason.value != Said("") then st.reason.value else ReviewRequired)))
  }

  /** The checkpointed graph, from `n` until it finishes, pauses at the interrupt or an exception escapes. */
  function RunFrom(n: Node, st: State, w: World): Run
    decreases Rank(n)
  {
    match Visit(n, st, w)
    case Stop(end) => Run([n], end)
    case Next(m, st') => var rest := RunFrom(m, st', w); Run([n] + rest.visited, rest.end)
  }

  predicate HandedOver(st: State) {
    st.status == NEED_HUMAN && st.reason.Some? && Render(st.reason.value) != ""
  }

  /** A first run never reaches execution. It pauses, waiting for approval of the plan it found, exactly when the
      investigation diagnosed the incident, made a plan and asked for no human; it lets the investigation's
      exception escape; otherwise it hands over to a human with a reason. */
  lemma FirstRunStopsAtInterrupt(st: State, w: World)
    requires w.payload.None?
    ensures var r := RunFrom(EnterInvestigation, st, w);
      && Execute !in r.visited && Verify !in r.visited && Resolved !in r.visited
      && (r.end.Paused? <==>
            w.findings.Gave? && w.findings.result.status != NEED_HUMAN && w.findings.result.diagnosed && w.findings.result.plan.Some?)
      && (r.end.Paused? ==> r.end.state.plan == w.findings.result.plan)
      && (r.end.Escaped? <==> w.findings.Threw?)
      && match r.end
         case Paused(s) => s.status == WAITING_APPROVAL && s.plan.Some? && s.diagnosed && r.visited[|r.visited| - 1] == AwaitApproval
         case Finished(s) => HandedOver(s)
         case Escaped(name) => w.findings == Threw(name)
  {
    var s1 := Visit(EnterInvestigation, st, w).state;
    if w.findings.Gave? {
      var v2 := Visit(Investigate, s1, w);
      if v2.node == Plan {
        assert RunFrom(AwaitApproval, PlanNode(v2.state), w) == Run([AwaitApproval], Paused(PlanNode(v2.state)));
        assert RunFrom(Plan, v2.state, w).visited == [Plan, AwaitApproval];
      }
    }
  }

  /** Approval in every respect: a dict that says APPROVED, for the interrupted plan, with parsable ids. */
  predicate MatchingApproval(st: State, payload: Payload, w: World) {
    && payload.Dict? && payload.approves
    && st.plan.Some? && payload.planHash == Some(st.plan.value.hash)
    && Parses(w, payload.approvalId) && Parses(w, payload.planId)
  }

  predicate Executes(w: World) {
    w.execute.Gave? && w.execute.result.status == SUCCEEDED && w.execute.result.executionId.Some?
  }

  predicate VerifiesResolved(w: World) {
    w.verify.Gave? && w.verify.result.status == Lifecycle.RESOLVED && w.verify.result.passed
  }

  /** A resumed run always finishes, RESOLVED without a reason or NEED_HUMAN with a non-empty one. It is
      RESOLVED exactly when the approval matched, the execution succeeded with an id and the
      verification passed; execution is reached exactly on a matching approval, always as the second
      node, and it and verification are entered at most once. */
  lemma ResumedRun(st: State, w: World)
    requires w.payload.Some? && UuidsRoundTrip(w.parse)
    ensures var r := RunFrom(AwaitApproval, st, w);
      var approved := MatchingApproval(st, w.payload.value, w);
      var identified := approved && Parses(w, Some(st.incidentId));
      && r.end.Finished?
      && (HandedOver(r.end.state) || (r.end.state.status == Lifecycle.RESOLVED && r.end.state.reason.None?))
      && (r.end.state.status == Lifecycle.RESOLVED <==> identified && Executes(w) && VerifiesResolved(w))
      && (Execute in r.visited <==> approved)
      && (Verify in r.visited <==> identified && Executes(w))
      && (forall i :: 0 <= i < |r.visited| && r.visited[i] == Execute ==> i == 1)
      && (forall i :: 0 <= i < |r.visited| && r.visited[i] == Verify ==> i == 2)
  {
    hide Visit, RunFrom, UuidsRoundTrip, HandedOver;
    BoundaryEdge(st, w);
    Follow(AwaitApproval, st, w);
    var v := Visit(AwaitApproval, st, w);
    if v.node == Execute {
      assert MatchingApproval(v.state, w.payload.value, w);
      hide MatchingApproval, Executes, VerifiesResolved, Parses;
      ExecutedRun(v.state, w);
    } else {
      LastNode(NeedHuman, v.state, w);
    }
  }

  /** Where the resumed approval boundary leads. */
  lemma BoundaryEdge(st: State, w: World)
    requires w.payload.Some?
    ensures var v := Visit(AwaitApproval, st, w);
      && v.Next?
      && (if MatchingApproval(st, w.payload.value, w)
          then v.node == Execute && v.state == st.(approval := w.payload, status := EXECUTING)
          else v.node == NeedHuman && HandedOver(v.state))
  {
  }

  /** Where an execution node that has a matching approval leads. */
  lemma ExecutionEdge(st: State, w: World)
    requires UuidsRoundTrip(w.parse) && st.approval.Some? && MatchingApproval(st, st.approval.value, w)
    ensures var v := Visit(Execute, st, w);
      && v.Next?
      && (if Parses(w, Some(st.incidentId)) && Executes(w)
          then v.node == Verify && v.state == st.(execution := Some(w.execute.result), status := VERIFYING, reason := None)
          else v.node == NeedHuman && HandedOver(v.state))
  {
    assert ApprovedIds(st, w).Some? <==> Parses(w, Some(st.incidentId));
  }

  lemma VerificationEdge(st: State, w: World)
    requires UuidsRoundTrip(w.parse) && st.approval.Some? && MatchingApproval(st, st.approval.value, w)
    requires Parses(w, Some(st.incidentId)) && st.execution.Some? && st.execution.value.executionId.Some?
    ensures var v := Visit(Verify, st, w);
      && v.Next?
      && (if VerifiesResolved(w)
          then v.node == Resolved && v.state == st.(verification := Some(w.verify.result), status := Lifecycle.RESOLVED, reason := None)
          else v.node == NeedHuman && HandedOver(v.state))
  {
    var id := st.execution.value.executionId.value;
    assert w.parse(id.text) == Some(id);
    assert ApprovedIds(st, w).Some?;
  }

  /** The investigation's findings replace status, diagnosis, plan and reason; the plan node is next exactly when it
      asked for no human and found a diagnosis and a plan. */
  lemma InvestigationEdge(st: State, w: World)
    ensures var v := Visit(Investigate, st, w);
      match w.findings
      case Threw(name) => v == Stop(Escaped(name))
      case Gave(f) =>
        && v.Next? && v.state == st.(status := f.status, diagnosed := f.diagnosed, plan := f.plan, reason := f.reason)
        && (v.node == Plan <==> f.status != NEED_HUMAN && f.diagnosed && f.plan != None)
        && (v.node != Plan ==> v.node == NeedHuman)
  {
  }

  /** Execution and verification check the recorded approval again: without a plan, an approval that says APPROVED
      for that plan's hash, and ids that parse, both hand over without calling anything. */
  lemma NodesCheckAgain(st: State, w: World)
    requires !(&& st.plan != None && st.approval != None && st.approval.value != NotADict && st.approval.value.approves
               && st.approval.value.planHash == Some(st.plan.value.hash)
               && Parses(w, Some(st.incidentId)) && Parses(w, st.approval.value.planId))
    ensures Visit(Execute, st, w) == Next(NeedHuman, st.(status := NEED_HUMAN, reason := Some(ExecuteThrew("ValueError"))))
    ensures Visit(Verify, st, w) == Next(NeedHuman, st.(status := NEED_HUMAN, reason := Some(VerifyThrew("ValueError"))))
  {
  }

  /** The plan node asks for approval exactly when the incident is diagnosed and has a plan, and the approval node
      is next in any case. */
  lemma PlanEdge(st: State, w: World)
    ensures var v := Visit(Plan, st, w);
      && v.Next? && v.node == AwaitApproval
      && (if st.diagnosed && st.plan.Some? then v.state == st.(status := WAITING_APPROVAL)
          else v.state == st.(status := NEED_HUMAN, reason := Some(IncompletePlan)))
  {
  }

  /** Why the resumed boundary hands over: no plan, no approval, approval of another plan, or ids that do not parse,
      in this order; nothing else of the state changes. */
  lemma BoundaryReasons(st: State, w: World)
    requires w.payload.Some? && !MatchingApproval(st, w.payload.value, w)
    ensures var v := Visit(AwaitApproval, st, w); var p := w.payload.value;
      && v.Next? && v.state.reason.Some? && v.state == st.(status := NEED_HUMAN, reason := v.state.reason)
      && (v.state.reason == Some(NoPlanAtBoundary) <==> st.plan == None)
      && (v.state.reason == Some(NotApproved) <==> st.plan != None && (p == NotADict || !p.approves))
      && (v.state.reason == Some(WrongPlan) <==>
            st.plan != None && p != NotADict && p.approves && p.planHash != Some(st.plan.value.hash))
      && (v.state.reason == Some(MissingIds) <==>
            st.plan != None && p != NotADict && p.approves && p.planHash == Some(st.plan.value.hash))
  {
  }

  predicate Blank(text: Option<string>) { text == None || text == Some("") }

  /** What a failed execution leaves behind: an exception is named and no result is kept; a result that is no
      identified success is kept, and its error, or else its status, is the reason. */
  lemma ExecutionReasons(st: State, w: World)
    requires UuidsRoundTrip(w.parse) && st.approval.Some? && MatchingApproval(st, st.approval.value, w)
    requires !(Parses(w, Some(st.incidentId)) && Executes(w))
    ensures var after := Visit(Execute, st, w).state;
      if !Parses(w, Some(st.incidentId)) then after == st.(status := NEED_HUMAN, reason := Some(ExecuteThrew("ValueError")))
      else if w.execute.Threw? then after == st.(status := NEED_HUMAN, reason := Some(ExecuteThrew(w.execute.name)))
      else
        && after == st.(execution := Some(w.execute.result), status := NEED_HUMAN, reason := after.reason)
        && (Blank(w.execute.result.error) ==> after.reason == Some(ExecutionEnded(w.execute.result.status)))
        && (!Blank(w.execute.result.error) ==> after.reason == Some(Said(w.execute.result.error.value)))
  {
    assert ApprovedIds(st, w).Some? <==> Parses(w, Some(st.incidentId));
  }

  /** What a failed verification leaves behind: an exception is named and counts as no failed check; a result that
      did not pass is kept and counted once, and its reason, if it gives one, is the reason. */
  lemma VerificationReasons(st: State, w: World)
    requires UuidsRoundTrip(w.parse) && st.approval.Some? && MatchingApproval(st, st.approval.value, w)
    requires Parses(w, Some(st.incidentId)) && st.execution.Some? && st.execution.value.executionId.Some?
    requires !VerifiesResolved(w)
    ensures var after := Visit(Verify, st, w).state;
      if w.verify.Threw? then after == st.(status := NEED_HUMAN, reason := Some(VerifyThrew(w.verify.name)))
      else
        && after == st.(verification := Some(w.verify.result), verificationFailures := 1, status := NEED_HUMAN, reason := after.reason)
        && (Blank(w.verify.result.reason) ==> after.reason == Some(VerificationFailed))
        && (!Blank(w.verify.result.reason) ==> after.reason == Some(Said(w.verify.result.reason.value)))
  {
    var id := st.execution.value.executionId.value;
    assert w.parse(id.text) == Some(id);
    assert ApprovedIds(st, w).Some?;
  }

  /** The last node keeps the reason it is given, unless that is missing or blank. */
  lemma HandOverKeepsReason(st: State, w: World)
    ensures var r := RunFrom(NeedHuman, st, w);
      && r.visited == [NeedHuman] && r.end.Finished?
      && r.end.state == st.(status := NEED_HUMAN, reason := r.end.state.reason)
      && r.end.state.reason == if st.reason == None || st.reason == Some(Said("")) then Some(ReviewRequired) else st.reason
  {
  }

  lemma LastNode(n: Node, st: State, w: World)
    requires n == Resolved || n == NeedHuman
    ensures var r := RunFrom(n, st, w);
      && r.visited == [n] && r.end.Finished?
      && (if n == Resolved then r.end.state.status == Lifecycle.RESOLVED && r.end.state.reason.None?
          else HandedOver(r.end.state))
  {
  }

  lemma Follow(n: Node, st: State, w: World)
    requires Visit(n, st, w).Next?
    ensures var v := Visit(n, st, w); var rest := RunFrom(v.node, v.state, w);
      RunFrom(n, st, w) == Run([n] + rest.visited, rest.end)
  {
  }

  /** The part of a resumed run behind the approval boundary. */
  lemma ExecutedRun(st: State, w: World)
    requires UuidsRoundTrip(w.parse) && st.approval.Some? && MatchingApproval(st, st.approval.value, w)
    ensures var r := RunFrom(Execute, st, w);
      var executed := Parses(w, Some(st.incidentId)) && Executes(w);
      && r.end.Finished?
      && (HandedOver(r.end.state) || (r.end.state.status == Lifecycle.RESOLVED && r.end.state.reason.None?))
      && (r.end.state.status == Lifecycle.RESOLVED <==> executed && VerifiesResolved(w))
      && (if executed then r.visited == [Execute, Verify, Resolved] || r.visited == [Execute, Verify, NeedHuman]
          else r.visited == [Execute, NeedHuman])
  {
    hide Visit, RunFrom;
    ExecutionEdge(st, w);
    Follow(Execute, st, w);
    var v := Visit(Execute, st, w);
    if v.node == Verify {
      VerificationEdge(v.state, w);
      Follow(Verify, v.state, w);
      var last := Visit(Verify, v.state, w);
      LastNode(last.node, last.state, w);
    } else {
      LastNode(NeedHuman, v.state, w);
    }
  }

  /** What `_start_incident` keeps of a first run: the status and the plan it will persist. An escaped
      exception becomes NEED_HUMAN without a plan. */
  function StartOutcome(st: State, w: World): (o: (Status, Option<PlanDraft>))
    requires w.payload.None?
    ensures o.0 in {WAITING_APPROVAL, NEED_HUMAN}
    ensures o.0 == WAITING_APPROVAL ==> o.1.Some?
  {
    FirstRunStopsAtInterrupt(st, w);
    match RunFrom(EnterInvestigation, st, w).end
    case Escaped(_) => (NEED_HUMAN, None)
    case Finished(s) => (s.status, s.plan)
    case Paused(s) => (s.status, s.plan)
  }
}
