/** What a stored execution status says about the one call that was made: every call keeps its answer, and
    a status is never stored without the answer that earns it. */
module RecoveryAnswers {
  import opened Options
  import opened RecoveryDb
  import opened RecoveryProtocol
  import IncidentGraph
  import Policy

  /** The call made for execution `e` ended with answer `a`. */
  ghost predicate Ended(s: Sys, e: Id, a: Answer) {
    exists c :: 0 <= c < |s.calls| && s.calls[c].execution == e && s.calls[c].answer == Some(a)
  }

  /** A finished row has the call that earned its status. */
  ghost predicate Earned(s: Sys, e: Id)
    requires e < |s.db.executions|
  {
    match s.db.executions[e].status
    case RUNNING => true
    case SUCCEEDED => Ended(s, e, REPORTED_SUCCESS)
    case FAILED => Ended(s, e, REPORTED_FAILURE) || Ended(s, e, REJECTED_CALL)
    case UNKNOWN => Ended(s, e, TIMED_OUT)
  }

  ghost predicate AnswersOk(s: Sys) {
    && (forall c :: 0 <= c < |s.calls| ==> s.calls[c].answer.Some?)
    && (forall e :: 0 <= e < |s.db.executions| ==> Earned(s, e))
    && (forall w :: 0 <= w < |s.workers| && s.workers[w].Answered? ==> Ended(s, s.workers[w].execution, s.workers[w].answer))
  }

  lemma EndedStays(s: Sys, t: Sys, e: Id, a: Answer)
    requires s.calls <= t.calls && Ended(s, e, a)
    ensures Ended(t, e, a)
  {
    var c :| 0 <= c < |s.calls| && s.calls[c].execution == e && s.calls[c].answer == Some(a);
    assert t.calls[c] == s.calls[c];
  }

  /** Rows that keep their status keep what earned it; a RUNNING row needs nothing. */
  lemma EarnedStays(s: Sys, t: Sys, e: Id)
    requires s.calls <= t.calls && e < |t.db.executions|
    requires t.db.executions[e].status != RUNNING ==>
      e < |s.db.executions| && t.db.executions[e].status == s.db.executions[e].status && Earned(s, e)
    ensures Earned(t, e)
  {
    forall a | Ended(s, e, a) ensures Ended(t, e, a) { EndedStays(s, t, e, a); }
  }

  /** Apart from saving an answer, no step changes a stored status, and new rows are RUNNING. */
  lemma StatusesStay(s: Sys, a: Action)
    requires !a.TaskSavesAnswer?
    ensures var x, y := s.db.executions, Next(s, a).db.executions;
      |x| <= |y| && forall e :: 0 <= e < |y| ==> if e < |x| then y[e] == x[e] else y[e].status == RUNNING
  {
    hide Policy.Evaluate, LatestApproval, ExecutionWithKey, IncidentGraph.StartOutcome;
  }

  lemma NoNewAnswers(s: Sys, a: Action)
    requires !a.TaskCalls?
    ensures var t := Next(s, a);
      t.calls == s.calls && forall w :: 0 <= w < |t.workers| && t.workers[w].Answered? ==> w < |s.workers| && s.workers[w] == t.workers[w]
  {
    hide Policy.Evaluate, LatestApproval, ExecutionWithKey, IncidentGraph.StartOutcome;
  }

  lemma CallAnswers(s: Sys, w: nat, answer: Answer)
    requires AnswersOk(s)
    ensures AnswersOk(Next(s, TaskCalls(w, answer)))
  {
    var t := Next(s, TaskCalls(w, answer));
    if w < |s.workers| && s.workers[w].Calling? {
      var e := s.workers[w].call.execution;
      assert t.calls[|s.calls|].execution == e && t.calls[|s.calls|].answer == Some(answer);
      forall f | 0 <= f < |t.db.executions| ensures Earned(t, f) { EarnedStays(s, t, f); }
      forall v | 0 <= v < |t.workers| && t.workers[v].Answered? ensures Ended(t, t.workers[v].execution, t.workers[v].answer) {
        if v != w { EndedStays(s, t, t.workers[v].execution, t.workers[v].answer); }
      }
    }
  }

  lemma SavingAnswers(s: Sys, w: nat)
    requires Inv(s) && AnswersOk(s)
    ensures AnswersOk(Next(s, TaskSavesAnswer(w)))
  {
    var t := Next(s, TaskSavesAnswer(w));
    if w < |s.workers| && s.workers[w].Answered? {
      hide DbOk, CallsOk;
      assert WorkerOk(s, s.workers[w]);
      var e := s.workers[w].execution;
      EndedStays(s, t, e, s.workers[w].answer);
      forall f | 0 <= f < |t.db.executions| ensures Earned(t, f) {
        if f != e { EarnedStays(s, t, f); }
      }
      forall v | 0 <= v < |t.workers| && t.workers[v].Answered? ensures Ended(t, t.workers[v].execution, t.workers[v].answer) {
        EndedStays(s, t, t.workers[v].execution, t.workers[v].answer);
      }
    }
  }

  lemma StepAnswers(s: Sys, a: Action)
    requires Inv(s) && AnswersOk(s)
    ensures AnswersOk(Next(s, a))
  {
    hide Next, Inv, Earned;
    if a.TaskCalls? {
      CallAnswers(s, a.w, a.answer);
    } else if a.TaskSavesAnswer? {
      SavingAnswers(s, a.w);
    } else {
      var t := Next(s, a);
      StatusesStay(s, a);
      NoNewAnswers(s, a);
      forall e | 0 <= e < |t.db.executions| ensures Earned(t, e) {
        EarnedStays(s, t, e);
      }
    }
  }

  lemma {:induction false} RunAnswers(run: seq<Sys>, i: nat)
    requires IsRun(run) && i < |run|
    ensures AnswersOk(run[i])
  {
    if i > 0 {
      RunAnswers(run, i - 1);
      RunKeeps(run, i - 1);
      assert Steps(run[i - 1], run[i]);
      hide Inv, Next, AnswersOk;
      var a :| run[i] == Next(run[i - 1], a);
      StepAnswers(run[i - 1], a);
    }
  }

  // ---------------------------------------------------------------- guarantees

  /** In every reachable state a finished execution row has exactly one call, and its status is the one that
      call's answer earns: SUCCEEDED a reported success, UNKNOWN a timeout, FAILED a reported failure or a
      rejected call. */
  lemma StatusIsEarned(run: seq<Sys>, i: nat, e: Id) returns (c: nat)
    requires IsRun(run) && i < |run| && e < |run[i].db.executions| && run[i].db.executions[e].status != RUNNING
    ensures c < |run[i].calls| && run[i].calls[c].execution == e && run[i].calls[c].answer.Some?
    ensures forall d :: 0 <= d < |run[i].calls| && run[i].calls[d].execution == e ==> d == c
    ensures var status, answer := run[i].db.executions[e].status, run[i].calls[c].answer.value;
      && (status == SUCCEEDED <==> answer == REPORTED_SUCCESS)
      && (status == UNKNOWN <==> answer == TIMED_OUT)
      && (status == ExecutionStatus.FAILED <==> answer == REPORTED_FAILURE || answer == REJECTED_CALL)
  {
    RunKeeps(run, i);
    RunAnswers(run, i);
    var s := run[i];
    assert Earned(s, e);
    hide IsRun, DbOk, WorkersOk;
    var status := s.db.executions[e].status;
    var a := if status == SUCCEEDED then REPORTED_SUCCESS else if status == UNKNOWN then TIMED_OUT
             else if Ended(s, e, REPORTED_FAILURE) then REPORTED_FAILURE else REJECTED_CALL;
    assert Ended(s, e, a);
    c :| 0 <= c < |s.calls| && s.calls[c].execution == e && s.calls[c].answer == Some(a);
  }

  /** Once the answer of a call is saved, its row has exactly the status that answer earns, for ever: a
      timeout leaves UNKNOWN, a reported failure or a rejected call leaves FAILED. */
  lemma SavedAnswerStays(run: seq<Sys>, i: nat, j: nat, w: nat)
    requires IsRun(run) && 0 < i <= j < |run| && run[i] == Next(run[i - 1], TaskSavesAnswer(w))
    requires w < |run[i - 1].workers| && run[i - 1].workers[w].Answered?
    ensures var e, answer := run[i - 1].workers[w].execution, run[i - 1].workers[w].answer;
      && e < |run[j].db.executions| && Ended(run[j], e, answer)
      && (answer == REPORTED_SUCCESS ==> run[j].db.executions[e].status == SUCCEEDED)
      && (answer == TIMED_OUT ==> run[j].db.executions[e].status == UNKNOWN)
      && (answer == REPORTED_FAILURE || answer == REJECTED_CALL ==> run[j].db.executions[e].status == ExecutionStatus.FAILED)
  {
    var e, answer := run[i - 1].workers[w].execution, run[i - 1].workers[w].answer;
    RunKeeps(run, i - 1);
    RunAnswers(run, i - 1);
    assert WorkerOk(run[i - 1], run[i - 1].workers[w]);
    assert run[i].db.executions[e].status != RUNNING;
    RunEvolves(run, i, j);
    EndedStays(run[i - 1], run[i], e, answer);
    EndedStays(run[i], run[j], e, answer);
    assert ExecutionEvolves(run[i].db.executions[e], run[j].db.executions[e]);
    hide Next, Evolves, Inv, IsRun;
    var c := StatusIsEarned(run, j, e);
    assert run[j].calls[c].answer == Some(answer);
  }
}
