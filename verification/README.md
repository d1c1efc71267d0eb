# OnCall verification

A Dafny model of the parts of the on-call service where many actors change shared state, and of its sequence
and arithmetic cores, with proofs of what they promise.

- **Recovery protocol.** `RecoveryDb` has every committed transaction of the approve, start, resume, execute and
  verify paths as a function on the shared rows; `RecoveryStore` has the same transactions as methods that update
  the tables in place, each proved equal to its function. `RecoveryProtocol` interleaves them: any task may be
  delivered at any time and any number of times, a worker may die between two commits, and the Recovery service
  and the log query may answer anything. `RecoveryGuarantees` states what holds in every state of every run,
  `RecoveryAnswers` what earned each stored status, `RecoveryLaws` exactly when each request acts and what it stores,
  and `RecoveryWitness` shows that runs which recover an incident exist. `IncidentGraph`, `Lifecycle` and `Policy` are
  the graph, the transition table and the policy check they use.
- **Knowledge publishing.** `KnowledgeStore` has many publishers and readers around one vector store whose
  requests may be delivered late, partly, repeatedly or not at all; `KnowledgeGuarantees` proves that it refines an
  atomic replacement of a project's chunks. `KnowledgeHost` is one host's `replace_project` as a method.
- **Smaller state machines.** `AlertHub` (de-duplication and correlation), `RefreshTokens`, `Experience` and
  `SkillVersions`, each with a class (`AlertStore`, `TokenStore`, `ExperienceStore`, `SkillStore`) whose methods
  update the rows in place as the code does. `AlertLaws` says exactly what an envelope and a batch do.
- **Sequences and arithmetic.** `Tokens`, `Windows`, `Sections` and `Chunks` (chunking), `ApprovalProof` (the signed payload
  and the idempotency key), `NonceReplay` (freshness and one-time use). `Text` has the string functions they share.

A run is a sequence of states, each one step after the one before; guarantees are stated for every index of every
run. A table that is never deleted from is a sequence, and a row's index is its identifier. Clocks, new
identifiers, passwords, model output and answers from other services are parameters of the steps. Tasks may be
delivered with any arguments, so the guarantees do not lean on the checks a task makes before it runs the graph.

Where the code and its documentation differ, the model follows the code:

- `execute_approved_plan` says that duplicates return the saved record; once the plan is EXECUTED it answers
  NOT_APPROVED instead (`RecoveryGuarantees.ReplayedExecution` says exactly when the record is returned).
- `approve_incident` calls the policy without a recovery configuration, and the policy denies a missing one
  (`Policy.AllowedExactly`), so taken literally no approval commits. The configuration is a parameter of the step.
- `create_candidate_from_resolved_incident` says that it runs inside the resolution transaction; the resume task
  runs it afterwards in a session of its own, and so does the model.
- Heading paths are not always the chain of enclosing headings, even when levels never rise by more than one
  (`Sections.SecondLevelSiblings`); `Sections.PathsAreChainsExactly` has the exact condition.

## Model

| member | source | states |
|---|---|---|
| Lifecycle.TerminalIsLast | src/oncall/incidents/state.py:29-62 | on every legal status history RESOLVED and FAILED are final: nothing follows them |
| Lifecycle.WalkIsLegal | src/oncall/jobs/tasks.py:287-310 | a status walk that does not raise keeps the whole history legal, hop by hop, and stops exactly at the last status of its path |
| Lifecycle.GraphPathStarts | src/oncall/jobs/tasks.py:42-47 | GRAPH_STATUS_PATH can be walked from exactly TRIAGING, INVESTIGATING and NEED_HUMAN; from every other status the walk raises |
| Lifecycle.EnteredOnlyFrom | src/oncall/incidents/state.py:29-41 | which statuses EXECUTING, VERIFYING, RESOLVED and the final statuses can be entered from at all |
| Policy.AllowedExactly | src/oncall/policy/engine.py:11-56 | exactly which plans the policy allows and which denial or validation error every other plan gets; a missing recovery configuration never allows, and the last denial branch is unreachable |
| IncidentGraph.Visit | src/oncall/graph/incident.py:244-308 | every edge of the graph lowers a rank, so no run visits a node twice |
| IncidentGraph.FirstRunStopsAtInterrupt | src/oncall/graph/incident.py:66-100 | a run without a resume value never reaches execution, verification or resolution; it pauses at WAITING_APPROVAL, keeping the plan found, exactly when the investigation diagnosed the incident, made a plan and asked for no human, lets its exception escape, and otherwise hands over with a non-empty reason |
| IncidentGraph.ResumedRun | src/oncall/graph/incident.py:89-308 | every resumed run finishes RESOLVED without a reason or NEED_HUMAN with a non-empty one; RESOLVED exactly when approval, execution and verification all succeeded; execution is entered exactly on a matching approval, once, right after the boundary |
| IncidentGraph.BoundaryEdge | src/oncall/graph/incident.py:89-144 | the resumed boundary continues to execution exactly on a matching, well-formed approval and otherwise hands over |
| IncidentGraph.ExecutionEdge | src/oncall/graph/incident.py:145-188 | after execution the graph verifies exactly when the incident id parses and the result SUCCEEDED with an id, whatever the service answered or threw |
| IncidentGraph.VerificationEdge | src/oncall/graph/incident.py:191-230 | after verification the graph resolves exactly on a passing RESOLVED result |
| IncidentGraph.InvestigationEdge | src/oncall/graph/incident.py:60-71 | the findings replace status, diagnosis, plan and reason, and the plan node follows exactly when there is a diagnosis and a plan and no human was asked for |
| IncidentGraph.PlanEdge | src/oncall/graph/incident.py:74-86 | the plan node asks for approval exactly when there is a diagnosis and a plan, and hands over otherwise |
| IncidentGraph.BoundaryReasons | src/oncall/graph/incident.py:89-144 | which of the four reasons the boundary gives, by the first check that fails; nothing else of the state changes |
| IncidentGraph.ExecutionReasons | src/oncall/graph/incident.py:145-188 | what a failed execution leaves: the exception is named and no result kept, or the result is kept and its error, or else its status, is the reason |
| IncidentGraph.VerificationReasons | src/oncall/graph/incident.py:191-230 | what a failed verification leaves: the exception is named, or the result is kept, counted once, and its reason is the reason |
| IncidentGraph.HandOverKeepsReason | src/oncall/graph/incident.py:237-241 | the last node keeps every reason that is not blank |
| IncidentGraph.NodesCheckAgain | src/oncall/graph/incident.py:128-230 | execution and verification check plan, decision, hash and ids again and hand over when any is missing |
| IncidentGraph.StartOutcome | src/oncall/jobs/tasks.py:262-275 | the start task sees only WAITING_APPROVAL, then always with a plan, or NEED_HUMAN |
| RecoveryProtocol.StepKeeps | src/oncall/execution/service.py:188-337 | every atomic step of any API request, task delivery, crash or outside answer keeps the invariant over all rows, workers and calls; rows are never deleted and change only along their life cycles |
| RecoveryProtocol.ExecuteBeginKeeps | src/oncall/execution/service.py:198-303 | the first execution transaction either adds one RUNNING row for an approved plan without one, or changes nothing |
| RecoveryProtocol.ResolveKeeps | src/oncall/execution/workflow.py:181-186 | resolving a verifying incident on a recovered, checked and passed execution keeps every row consistent |
| RecoveryProtocol.RecordKeeps | src/oncall/execution/workflow.py:154-178 | recording the check rows of an execution that had none keeps one conclusion and one transaction per execution |
| RecoveryGuarantees.OncePerPlan | src/oncall/execution/service.py:198-312 | in every reachable state each plan has at most one decision, one execution row and one Recovery MCP call, and every call is covered by an APPROVED decision with the equal plan hash |
| RecoveryGuarantees.CallFollowsApproval | src/oncall/execution/service.py:305-320 | a call is made only when its approval is already committed, its row still RUNNING and no earlier call was made for the plan |
| RecoveryGuarantees.ResolvedIsVerified | src/oncall/execution/workflow.py:87-215 | a RESOLVED incident has an EXECUTED plan, approved for its own hash, with a SUCCEEDED execution whose one call reported success and whose check rows exist and all PASSED |
| RecoveryGuarantees.TerminalRowsStay | src/oncall/incidents/state.py:29-41 | every incident history is a path of the transition table from RECEIVED that later histories extend, and a terminal row never changes again |
| RecoveryGuarantees.VerifyingIsExecuted | src/oncall/execution/workflow.py:87-132 | a VERIFYING incident has a plan with a SUCCEEDED execution whose call reported success |
| RecoveryGuarantees.ChecksShareOneTransaction | src/oncall/execution/workflow.py:154-178 | two check rows belong to the same execution exactly when one transaction inserted both, and then share one conclusion |
| RecoveryGuarantees.ChecksAreFinal | src/oncall/execution/workflow.py:94-154 | once an execution has check rows, every later or concurrent verification returns exactly those rows and changes nothing |
| RecoveryGuarantees.ReplayedExecution | src/oncall/execution/service.py:256-297 | a later delivery for an executed plan changes no row and calls nothing; it returns the saved row exactly while the plan is APPROVED and the policy allows it |
| RecoveryGuarantees.StartWalkEndsOrRaises | src/oncall/jobs/tasks.py:276-322 | the second start transaction ends exactly at the status of the graph, with the walked hops appended to the history, or leaves every row alone; towards WAITING_APPROVAL it succeeds from exactly four statuses |
| RecoveryGuarantees.ResumeIsExecutable | src/oncall/jobs/tasks.py:389-470 | what the resume guard accepts, the approval boundary accepts too, and execution then starts or finds the one row of the plan |
| RecoveryGuarantees.NewestPlanDecides | src/oncall/incidents/router.py:126-143 | the plan with the highest version, on which the routes decide, is always the one stored last for the incident |
| RecoveryWitness.ARecoveryCompletes | src/oncall/execution/workflow.py:52-222 | for every allowed plan some run resolves the incident with one approval, one execution and one call |
| RecoveryAnswers.StatusIsEarned | src/oncall/execution/service.py:305-337 | in every reachable state a finished execution row has exactly one call, and its status is what the answer of that call earns: SUCCEEDED only for a reported success, UNKNOWN only for a timeout, FAILED only for a reported failure or a rejected call |
| RecoveryAnswers.SavedAnswerStays | src/oncall/execution/service.py:322-337 | once an answer is saved, the row has exactly the status it earns in every later state: a timeout leaves UNKNOWN, a failure or rejected call FAILED |
| RecoveryLaws.ApprovesExactly | src/oncall/incidents/router.py:157-209 | in every reachable state an approval is recorded exactly for a waiting incident whose newest plan is pending, resumable, has the submitted hash and is permitted; what is then stored, and which refusal is given otherwise |
| RecoveryLaws.RejectsExactly | src/oncall/incidents/router.py:212-256 | the same for a rejection, which needs neither policy nor graph run |
| RecoveryLaws.PlanStatusIsDecided | src/oncall/incidents/router.py:157-256 | in every reachable state a pending plan has no decision, an APPROVED or EXECUTED one an approval and a REJECTED one a rejection, each for its own hash |
| RecoveryLaws.ExecutesExactly | src/oncall/execution/service.py:198-303 | in every reachable state execution starts exactly for an APPROVED, still permitted plan of the incident with a Tencent configuration and no execution row; what is then stored, and which reply every other request gets |
| RecoveryLaws.VerificationStartsExactly | src/oncall/execution/workflow.py:64-132 | stored rows are answered for the own SUCCEEDED execution and pass exactly when the incident is RESOLVED and all passed; verification goes ahead exactly without stored rows while the incident is EXECUTING or VERIFYING |
| RecoveryLaws.VerificationStores | src/oncall/execution/workflow.py:136-215 | whenever a worker stores its verification: the rows tell the log answer, and the incident becomes RESOLVED, its plan EXECUTED, exactly when the logs show no error; stored rows are never stored again |
| RecoveryLaws.WorkersMoveExactly | src/oncall/execution/service.py:305-337 | a started execution leaves one worker with the one call of its row, the call is recorded with its answer, and what every other task step does to workers and calls |
| RecoveryLaws.RowsAreTold | src/oncall/execution/verification.py:25-85 | one error-log row when the logs could be read, otherwise one UNAVAILABLE row per criterion; PASSED exactly when no error was found |
| RecoveryLaws.SmallMovesExactly | src/oncall/incidents/router.py:259-292 | what retry, giving up and starting do to status, history and workers, and to nothing else |
| RecoveryLaws.PersistsExactly | src/oncall/jobs/tasks.py:154-196 | a drafted plan becomes the newest, pending, with the next version, unless the first stored plan with its hash is still pending |
| RecoveryLaws.ResumesExactly | src/oncall/jobs/tasks.py:389-430 | a resume goes ahead exactly for the own APPROVED plan with a graph run while the incident waits, and hands over an approval of that plan and hash |
| RecoveryStore.Store.ApproveIncident | src/oncall/incidents/router.py:157-209 | the approve route, in place: exactly the latest pending plan becomes APPROVED and one decision is added, or nothing changes and the error is the right one |
| RecoveryStore.Store.RejectIncident | src/oncall/incidents/router.py:212-256 | the reject route, in place: plan REJECTED, incident NEED_HUMAN, one decision, or nothing |
| RecoveryStore.Store.RetryInvestigation | src/oncall/incidents/router.py:259-292 | NEED_HUMAN goes back to TRIAGING; every other status is refused |
| RecoveryStore.Store.StartBegin | src/oncall/jobs/tasks.py:210-245 | first start transaction: RECEIVED moves to TRIAGING, and only then or from TRIAGING the graph runs |
| RecoveryStore.Store.PersistPlan | src/oncall/jobs/tasks.py:154-196 | a draft whose hash is already pending is not stored twice; otherwise it gets the next version |
| RecoveryStore.Store.WalkPath | src/oncall/jobs/tasks.py:287-310 | the loop over the status path assigns exactly the hops of the walk, or stops at the first illegal one |
| RecoveryStore.Store.StartFinish | src/oncall/jobs/tasks.py:276-322 | the second start transaction with its rollback leaves plan and incident exactly as the functional walk says |
| RecoveryStore.Store.MarkNeedHuman | src/oncall/jobs/tasks.py:339-357 | only an open incident that is not yet NEED_HUMAN moves |
| RecoveryStore.Store.ExecuteBegin | src/oncall/execution/service.py:198-303 | the first execution transaction in the order of its checks, with the conflict-free insert |
| RecoveryStore.Store.ExecuteFinish | src/oncall/execution/service.py:322-337 | the answer is stored on the one execution row |
| RecoveryStore.Store.VerifyBegin | src/oncall/execution/workflow.py:64-120 | stored rows are answered, EXECUTING moves to VERIFYING, anything else is refused |
| RecoveryStore.Store.VerifyFinish | src/oncall/execution/workflow.py:136-215 | the loop that adds check rows and the final status change |
| KnowledgeGuarantees.RefinesAtomicReplace | src/oncall/rag/milvus_store.py:370-484 | every step of the concurrent system leaves what readers see alone, except the delivery of a manifest upsert, which replaces the contents of one project atomically |
| KnowledgeGuarantees.EveryRunRefines | src/oncall/rag/milvus_store.py:370-484 | seen by readers, every run is a run of the specification: it starts empty and each step changes nothing or replaces one project by one whole import |
| KnowledgeGuarantees.PointersAreExact | src/oncall/rag/milvus_store.py:412-484 | in every reachable state the active pointer and every captured pointer name a generation whose stored rows are exactly the rows of one import |
| KnowledgeGuarantees.SearchesAreSnapshots | src/oncall/rag/milvus_store.py:486-564 | however late a search runs and whatever was published meanwhile, it ranks exactly the matching rows visible at its preflight, all of one generation |
| KnowledgeGuarantees.SearchRanksExactly | src/oncall/rag/milvus_store.py:486-564 | over every run a row is ranked exactly when it was visible at the preflight, is approved, and has the wanted service, environment, document_type and version, each unless the query leaves it unset |
| KnowledgeGuarantees.PreflightExactly | src/oncall/rag/milvus_store.py:324-340 | a search gets a pointer exactly when there is one for the configured model and dimension |
| KnowledgeGuarantees.PublishedIsNeverDropped | src/oncall/rag/milvus_store.py:360-410 | no cleanup is ever requested for a generation that any pointer names at any time of the run |
| KnowledgeGuarantees.NormalReturn | src/oncall/rag/milvus_store.py:389-404 | a normal return means that the readback saw its own complete generation, and the count is the number of its rows |
| KnowledgeGuarantees.ImportIsGiven | src/oncall/rag/milvus_store.py:419-450 | an import is accepted exactly when it has chunks, one vector of the right dimension each, a single project and no id twice; it then holds exactly the given chunks with their vectors, each once |
| KnowledgeGuarantees.FailedBuildStaysInvisible | src/oncall/rag/milvus_store.py:451-474 | a publisher that failed before attempting publication is never named by any pointer later |
| KnowledgeGuarantees.FaultyBuildIsNeverPublished | src/oncall/rag/milvus_store.py:451-474 | a build with a wrong count, a failed call or foreign stored keys is never named by any pointer at any later time |
| KnowledgeGuarantees.BuildStepsExactly | src/oncall/rag/milvus_store.py:451-474 | a build goes on exactly when the reported count is the size of its batch, and is verified exactly when the stored keys are its own |
| KnowledgeGuarantees.SendingExactly | src/oncall/rag/milvus_store.py:451-463 | which batch a build sends next, at most a hundred rows, and that an answer counts only after full delivery |
| KnowledgeGuarantees.PublishStepsExactly | src/oncall/rag/milvus_store.py:370-410 | what cleanup, publication and its answer ask for and store |
| KnowledgeGuarantees.ReadBackExactly | src/oncall/rag/milvus_store.py:389-410 | which of the four errors the readback raises when, and a normal return exactly when the own pointer is read |
| KnowledgeGuarantees.DropExactly | src/oncall/rag/milvus_store.py:360-368 | a delivered cleanup removes exactly the rows of its generation |
| KnowledgeGuarantees.PutExactly | src/oncall/rag/milvus_store.py:451-463 | a delivered batch adds exactly its rows and changes no stored one |
| KnowledgeStore.StepKeeps | src/oncall/rag/milvus_store.py:370-484 | every step, with requests delivered late, partly or repeatedly, keeps the invariant over rows, requests, pointers and publishers |
| KnowledgeHost.Client.ReplaceProject | src/oncall/rag/milvus_store.py:412-484 | one host against faults at every call and a rival publisher: no pointer moves unless exactly the given rows are stored, other generations stay untouched, a normal return means they are visible, and without faults it returns |
| KnowledgeHost.Client.BuildGeneration | src/oncall/rag/milvus_store.py:451-474 | the build succeeds whenever every call works, and only with every batch confirmed and exactly the given rows stored; after a failure cleanup leaves none of them |
| KnowledgeHost.Client.WriteBatches | src/oncall/rag/milvus_store.py:451-463 | the batch loop: batches of a hundred, in order, each confirmed with its size before the next |
| KnowledgeHost.Client.PublishSnapshot | src/oncall/rag/milvus_store.py:370-410 | one pointer write, a rival in between, and the readback: which of the four errors is raised when, and a normal return exactly when the own pointer is read back |
| KnowledgeHost.Client.GenerationChunkIds | src/oncall/rag/milvus_store.py:342-358 | paging gathers exactly the stored keys of the generation |
| KnowledgeHost.Client.DeleteGeneration | src/oncall/rag/milvus_store.py:360-368 | cleanup removes only rows of its generation, and all of them when it takes full effect |
| KnowledgeHost.Client.UpsertManifest | src/oncall/rag/milvus_store.py:370-388 | the keyed upsert changes one pointer, or none, and confirms only when it answered |
| AlertHub.CorrelationHolds | src/oncall/incidents/service.py:66-124 | in every reachable state two open incidents of one correlation group were opened more than five minutes apart, and an alert is linked to at most one open incident, of its own group |
| AlertHub.SecondLookupAgrees | src/oncall/incidents/service.py:72-74 | because terminal incidents are never reopened, the second look-up of a linked incident never finds what the first one missed |
| AlertHub.RowsAreOutcomes | src/oncall/alerts/service.py:31-90 | in every reachable state there is one row per alert identity, equal to the outcome of its committed deliveries, and the counts add up to the envelopes committed |
| AlertHub.OutcomeIs | src/oncall/alerts/service.py:83-89 | the outcome counts every delivery and has the latest time with the status of the last processed delivery at that time |
| AlertHub.OrderIndependence | src/oncall/alerts/service.py:83-89 | every processing order gives the same row exactly when the deliveries with the latest time agree on the status; in particular when all times differ |
| AlertHub.LastSeenGrows | src/oncall/alerts/service.py:83-89 | along every run an alert row stays, its last_seen never decreases, and its count grows by exactly the deliveries of its identity committed in between |
| AlertHub.BatchAddsUp | src/oncall/alerts/service.py:117-161 | deduplicated plus newly created alerts is the size of the batch |
| AlertHub.NextKeeps | src/oncall/alerts/service.py:93-161 | a whole batch, committed or rolled back, with other writers moving incident statuses in between, keeps every guarantee |
| AlertLaws.CorrelatesExactly | src/oncall/incidents/service.py:66-124 | for an alert without an open linked incident a new one is opened at the clock exactly if no open incident of its group has openedAt in [clock - 300 s, clock]; otherwise the answer is such an incident and none of them is later; an open linked incident is kept |
| AlertLaws.LinksAreTimely | src/oncall/incidents/service.py:82-152 | in every reachable state each link was made within five minutes after its incident was opened |
| AlertLaws.LinksExactly | src/oncall/incidents/service.py:127-152 | linking adds exactly one link at the clock, and a link made before keeps its time |
| AlertLaws.FiringIsLinked | src/oncall/alerts/service.py:117-137 | after a firing envelope its alert has an open linked incident, which is the one reported; any other envelope links and opens nothing |
| AlertLaws.UpsertsExactly | src/oncall/alerts/service.py:31-90 | which row an envelope writes, with which status, last_seen and count, and that it is refused exactly for other core facts under its identity |
| AlertLaws.FactsNeverConflict | src/oncall/alerts/service.py:73-81 | in every reachable state all committed envelopes of one identity state the facts of its row |
| AlertLaws.DuplicateExactly | src/oncall/alerts/service.py:117-130 | an envelope counts as a duplicate exactly when its identity already had a row |
| AlertLaws.BatchIsLogged | src/oncall/alerts/service.py:117-137 | a committed batch delivers exactly its envelopes, in order |
| AlertLaws.BatchReportsExactly | src/oncall/alerts/service.py:131-161 | the incidents a batch reports are exactly those its envelopes reported at their turns |
| AlertLaws.RollbackUndoesTheBatch | src/oncall/alerts/service.py:93-161 | a rolled-back batch leaves alerts, links and log alone |
| AlertStore.Store.UpsertAlert | src/oncall/alerts/service.py:31-90 | the row update in place, the identity conflict included |
| AlertStore.Store.GetOrCreateIncident | src/oncall/incidents/service.py:66-124 | the linked incident, the newest one inside the window, or a new one opened now |
| AlertStore.Store.LinkAlert | src/oncall/incidents/service.py:127-152 | the idempotent link and whether it is new |
| AlertStore.Store.IngestEnvelope | src/oncall/alerts/service.py:117-137 | one turn of the ingestion loop |
| AlertStore.Store.Ingest | src/oncall/alerts/service.py:93-161 | the loop with its counter and id set is one action of the hub; an identity conflict anywhere rolls back the rows of the batch, and only those |
| RefreshTokens.OneLiveToken | src/oncall/auth/tokens.py:90-190 | in every reachable state a family has at most one unrevoked token, all of one user, and whoever holds one is active |
| RefreshTokens.DeadStaysDead | src/oncall/auth/tokens.py:145-190 | a family without an unrevoked token never gains one |
| RefreshTokens.FamilyEnds | src/oncall/auth/tokens.py:152-190 | after a replayed token or a logout the family has no unrevoked token from then on, and none of its tokens rotates again |
| RefreshTokens.RotationSucceedsExactly | src/oncall/auth/tokens.py:145-171 | in every reachable state a rotation succeeds exactly for an unrevoked, unexpired token; presenting it again is reported as reuse and ends the family |
| RefreshTokens.DisabledTokensStayRevoked | src/oncall/auth/admin_router.py:92-104 | tokens of a disabled user are revoked for good, also after the user is enabled again |
| RefreshTokens.RevokedStays | src/oncall/auth/tokens.py:155-163 | a revocation with its time is never overwritten |
| RefreshTokens.AnAdministratorRemains | src/oncall/auth/admin_router.py:65-90 | once there is an active administrator there always is one |
| RefreshTokens.LogsInExactly | src/oncall/auth/router.py:76-99 | a login issues a token in a family of its own exactly for an active user with a valid password |
| RefreshTokens.IssuesExactly | src/oncall/auth/tokens.py:90-115 | a token is issued exactly for an active user, for seven days, in the given family or in one that no token has yet; a new user has the given role and is active |
| RefreshTokens.RotatesExactly | src/oncall/auth/tokens.py:145-171 | in every reachable state: when a presented token is rotated, reported as reuse or invalid, and which rows are then revoked or added |
| RefreshTokens.LogsOutExactly | src/oncall/auth/tokens.py:174-190 | a logout revokes exactly the unrevoked tokens of the family |
| RefreshTokens.UpdatesExactly | src/oncall/auth/admin_router.py:56-116 | an update is refused exactly for an unknown user or when it would leave no active administrator, and disabling revokes exactly the tokens of the user |
| TokenStore.Store.IssueRefreshToken | src/oncall/auth/tokens.py:90-115 | a token is added for an active user only, in the given or a fresh family |
| TokenStore.Store.Login | src/oncall/auth/router.py:76-99 | a login issues a token in a fresh family or changes nothing |
| TokenStore.Store.Revoke | src/oncall/auth/tokens.py:182-188 | the bulk update revokes exactly the chosen unrevoked rows |
| TokenStore.Store.RotateRefreshToken | src/oncall/auth/tokens.py:145-171 | rotation with its route: reuse is committed, an invalid token is rolled back |
| TokenStore.Store.Logout | src/oncall/auth/router.py:147-165 | logout revokes the whole family of a known token |
| TokenStore.Store.UpdateUser | src/oncall/auth/admin_router.py:56-116 | role and activity change, the guard for the only administrator, and revocation on disabling |
| Experience.OneLeaderPerPattern | src/oncall/experience/service.py:148-197 | in every reachable state each pattern has at most one live candidate that is no duplicate, each incident one candidate, and a duplicate points to an earlier candidate of its pattern |
| Experience.OneExperiencePerPattern | src/oncall/experience/service.py:227-280 | over a whole run at most one experience is ever published per pattern, it stays, and its hash is the hash of its content |
| Experience.PublicationSucceedsExactly | src/oncall/experience/service.py:235-262 | in every reachable state exactly the live non-duplicates publish or return their experience, and the unique content hash never fails |
| Experience.PublishedPatternIsClosed | src/oncall/experience/service.py:148-197 | whatever is extracted for a published pattern is a duplicate that cannot be published |
| Experience.ExtractsExactly | src/oncall/experience/service.py:44-197 | extraction adds one row exactly for a resolved incident without one that has an executed plan, a successful execution, passed checks, evidence, a citation and a hypothesis; the row is a duplicate of the earliest pending or published candidate of its pattern, if any |
| Experience.PublishesExactly | src/oncall/experience/service.py:227-280 | in every reachable state: what a publication stores, and which refusal every other request gets |
| Experience.PublishesByContent | src/oncall/experience/service.py:244-262 | in any state the hash is computed again from the content, and the publication is rolled back exactly when an experience has that hash |
| Experience.RejectsExactly | src/oncall/experience/service.py:283-304 | a rejection marks exactly a pending candidate |
| ExperienceStore.Store.CreateCandidate | src/oncall/experience/service.py:39-209 | extraction in the order of its checks |
| ExperienceStore.Store.PublishCandidate | src/oncall/experience/service.py:227-280 | publication with its rollback on a failed insert |
| ExperienceStore.Store.RejectCandidate | src/oncall/experience/service.py:283-304 | only a pending candidate is rejected |
| SkillVersions.NextPatch | src/oncall/skills/evolution.py:33-37 | through parse and print, the successor of a.b.c is a.b.(c+1), a valid manifest version, and different numbers print differently |
| SkillVersions.FirstVersion | src/oncall/skills/evolution.py:33-35 | without a version, or after a blank one, the first is 1.0.0 |
| SkillVersions.VersionsArePrinted | src/oncall/skills/schemas.py:90-90 | the version pattern of manifests accepts exactly the printed versions |
| SkillVersions.VersionsAreNumbered | src/oncall/skills/evolution.py:209-275 | in every reachable state, whatever the clock did, the n-th version of a pair is 1.0.(n-1) and is active exactly when it is the newest |
| SkillVersions.CandidateIsCreatedExactly | src/oncall/skills/evolution.py:126-194 | a candidate is created exactly for a published experience without one, and proposes the number after the latest version |
| SkillVersions.ExactlyOneActive | src/oncall/skills/evolution.py:235-243 | exactly one version of a pair is active once any is published |
| SkillVersions.PublicationSucceedsExactly | src/oncall/skills/evolution.py:215-276 | a pending candidate publishes exactly when the version with the greatest publication time is the newest one, always so when times increase strictly; otherwise the duplicate number is refused and nothing changes; a success retires the pair, adds the next number as the active one and marks the candidate |
| SkillVersions.OthersAreRefused | src/oncall/skills/evolution.py:197-208 | a published candidate gets its version back, a rejected or unknown one is refused, and nothing changes |
| SkillStore.Store.CreateCandidate | src/oncall/skills/evolution.py:126-194 | the existing candidate, a new one, or an error that changes nothing |
| SkillStore.Store.PublishCandidate | src/oncall/skills/evolution.py:197-284 | publication with its rollback on a duplicate number |
| SkillStore.Store.Retire | src/oncall/skills/evolution.py:235-243 | the bulk update retires exactly the rows of the pair |
| SkillStore.Store.RejectCandidate | src/oncall/skills/evolution.py:287-307 | only a pending candidate is rejected |
| Tokens.SpansCover | src/oncall/rag/chunking.py:66-69 | the tokens hold exactly the characters that are not blank |
| Tokens.SpansOrdered | src/oncall/rag/chunking.py:66-69 | tokens are not empty, in order and disjoint |
| Tokens.TokensOfCut | src/oncall/rag/chunking.py:66-86 | a piece cut between tokens tokenizes to exactly the tokens it was cut around |
| Tokens.StripIsHull | src/oncall/rag/chunking.py:75-83 | stripping keeps exactly the text from the first token to the last |
| Tokens.TokensAreMatches | src/oncall/rag/chunking.py:15-15 | a token is a single character that is no word character, or a whole technical word that could not go on |
| Tokens.ClassesAre | src/oncall/rag/chunking.py:15-15 | the character classes of the token pattern by code point |
| Tokens.StripKeepsTokens | src/oncall/rag/chunking.py:66-83 | stripping a text changes none of its tokens |
| Windows.SplitLargeSection | src/oncall/rag/chunking.py:72-86 | the window loop with its edge slices, strip and break gives exactly the declared windows, and terminates |
| Windows.PieceTokens | src/oncall/rag/chunking.py:72-86 | each piece, tokenized on its own, has exactly its window of the tokens, at most max |
| Windows.PieceIsHull | src/oncall/rag/chunking.py:72-86 | each piece is the text from the first token of its window to the last |
| Windows.NothingLost | src/oncall/rag/chunking.py:72-86 | dropping the first overlap tokens of every later piece and joining gives back all tokens; later pieces repeat exactly overlap tokens and add at least one |
| Windows.EveryCharacterCovered | src/oncall/rag/chunking.py:76-83 | every character that is not blank lies inside some piece |
| Windows.PieceCount | src/oncall/rag/chunking.py:72-86 | one piece within the limit, ceil((n - overlap) / (max - overlap)) beyond it |
| Sections.SplitSections | src/oncall/rag/chunking.py:40-63 | the line loop with its heading stack and line buffer gives exactly the blocks that are not blank |
| Sections.BlocksPartition | src/oncall/rag/chunking.py:40-63 | the blocks put every line in exactly one place, in order |
| Sections.DroppedAreBlank | src/oncall/rag/chunking.py:46-49 | a block is dropped exactly when all its lines are blank |
| Sections.BlockPaths | src/oncall/rag/chunking.py:51-61 | block k starts with the k-th heading, contains no other, and carries the heading stack after it |
| Sections.PathsAreChainsExactly | src/oncall/rag/chunking.py:57-60 | all paths are the chains of enclosing headings exactly when every heading is deeper than the one before it or at the depth its level says |
| Sections.DocumentPaths | src/oncall/rag/chunking.py:40-63 | the same for a whole document, and always so when levels start at one and never rise by more than one |
| Sections.SecondLevelSiblings | src/oncall/rag/chunking.py:57-60 | two second-level headings without a first level: the code nests the second under the first |
| Sections.HeadingExactly | src/oncall/rag/chunking.py:14-14 | which lines are headings of which level and text |
| Chunks.ChunkMarkdown | src/oncall/rag/chunking.py:89-145 | the size check and the two loops: an answer exactly for sizes in range, holding every piece of every kept section, whose tokens without the overlaps are all tokens of the document |
| Chunks.ChunksExactly | src/oncall/rag/chunking.py:89-145 | for every block that is not blank and every k below its number of pieces there is, at its place in document order, a chunk with its path, part k + 1 and piece k, and there are no others |
| Chunks.SectionIsRecovered | src/oncall/rag/chunking.py:72-86 | per section: the tokens of its chunks, the first overlap tokens of every later part dropped, joined, are all tokens of its body |
| Chunks.DocumentIsRecovered | src/oncall/rag/chunking.py:89-145 | per document: the same, over all lines of the document, headings included |
| Chunks.ChunksAreBounded | src/oncall/rag/chunking.py:89-145 | no chunk of a document exceeds the token limit, and each is a piece of a section under its path |
| ApprovalProof.PayloadInjective | mcp_servers/recovery/server.py:68-96 | on requests that meet the field patterns the colon-joined payload determines all nine facts, although nonces may contain colons |
| ApprovalProof.SignatureBindsFacts | src/oncall/execution/service.py:137-169 | a worker signature is accepted exactly with a request that states the signed facts, under the same secret |
| ApprovalProof.KeyInjective | src/oncall/execution/service.py:172-173 | different plans, hashes or approvals have different idempotency keys, whatever the stored hash looks like |
| NonceReplay.VerdictExactly | mcp_servers/recovery/server.py:107-127 | accepted exactly when the truncated clock is within 300 of issued_at, the proof is the HMAC of the nine joined facts under the secret, no unexpired key holds the nonce and the store answers; every other verdict exactly, and exactly what is claimed |
| NonceReplay.AcceptedStatesTheSignedFacts | mcp_servers/recovery/server.py:107-127 | a proof the worker made is accepted, or claims anything, only with a request that states exactly the facts the worker signed, under the same secret |
| NonceReplay.NeverAcceptedAgainExactly | mcp_servers/recovery/server.py:99-127 | after a first acceptance claimed at time c, no later sequence of attempts with claim delay at most d gets the proof accepted again, if and only if c >= issued_at - 299 + d |
| NonceReplay.AtOnce | mcp_servers/recovery/server.py:99-127 | with claims handled at once the bound is: first accepted when the floored clock is at least issued_at - 299 |
| NonceReplay.KeyStays | mcp_servers/recovery/server.py:99-104 | until a nonce key expires nothing anyone attempts removes or shortens it |
| NonceReplay.NonceStore.ClaimNonce | mcp_servers/recovery/server.py:99-104 | SET NX EX 600 against a store that may fail before or after taking effect |
| NonceReplay.NonceStore.VerifyApprovalProof | mcp_servers/recovery/server.py:107-127 | the checks in order, and exactly the claims they leave |

## Left out

- Concurrency inside one transaction: row and advisory locks are held to commit, so each transaction, and each
  alert batch, is one step. The one interference modelled inside a step is that other writers move incident
  statuses between the statements of an alert batch.
- The conversation path that re-queues an incident reads it without a row lock; the run guarantees cover the
  locked writers only.
- Deadlock freedom of alert ingestion, which takes identity and group locks alternately, is not claimed.
- At most one rollback per incident is not claimed: an incident may have several plans, and the guarantees are per
  plan.
- The failed validation of a recovery request between the two execution transactions is a worker that dies there.
- Evidence, hypothesis, citation, step and audit rows; alert severity, labels, annotations and texts; review
  metadata.
- The order in which a batch of alerts is sorted: the guarantees hold for every order.
- The user names, password hashing, access tokens and cookies around the refresh tokens.
- RecoveryDb: the JSON contents of plans beyond rollback, criteria and hash, and the size limits of stored columns.
- SkillVersions.NextPatch: numerals are ASCII digits; signs, blanks, underscores and other digits that Python's
  `int` also reads are rejected, and no published version contains them.
- SkillVersions: building manifests and instructions; a manifest is valid apart from its version.
- SHA-256 and HMAC are injective constructors; generation identifiers, tokens and row identifiers are fresh.
- Quoting of search filter literals, ranking, embeddings, collection schemas, and flush errors as distinct from
  failed calls.
- Splitting a document into lines, front matter, document identifiers and the metadata copied into every chunk.
- Transport, Redis, PostgreSQL, Milvus and cloud internals beyond the contracts the steps state.
- Front end, command line, migrations, read-side queries, reports, metrics, agents, intent routing, redaction and
  configuration: no invariant of their own.
