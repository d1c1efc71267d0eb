/** Experience candidates: extraction from resolved incidents, de-duplication by pattern, review and
    publication. Extraction is serialized by the pattern lock and review by the candidate's row lock, so each
    call is one step. SHA-256 of the canonical JSON is an injective constructor. */
module Experience {
  import opened Options

  /** A candidate's content; its provenance names the source incident. */
  datatype Content = Content(document: string, incident: nat)

  datatype Hash = Hash(of: Content)

  datatype ReviewStatus = PENDING_REVIEW | PUBLISHED | REJECTED

  datatype Candidate = Candidate(
    incident: nat, fingerprint: string, content: Content, hash: Hash, status: ReviewStatus,
    duplicateOf: Option<nat>, createdAt: int)

  datatype Published = Published(candidate: nat, fingerprint: string, content: Content, hash: Hash)

  datatype Library = Library(candidates: seq<Candidate>, experiences: seq<Published>)

  /** What extraction reads about an incident: `conclusions` says of each stored check whether it passed. */
  datatype Material = Material(
    incident: nat, resolved: bool, executedPlan: bool, succeededExecution: bool, conclusions: seq<bool>,
    evidence: nat, citations: nat, hypothesis: bool, fingerprint: string, document: string)

  // ---------------------------------------------------------------- operations

  predicate Live(c: Candidate) { c.status == PENDING_REVIEW || c.status == PUBLISHED }

  predicate Eligible(m: Material) {
    && m.executedPlan && m.succeededExecution
    && m.conclusions != [] && (forall i :: 0 <= i < |m.conclusions| ==> m.conclusions[i])
    && m.evidence > 0 && m.citations > 0 && m.hypothesis
  }

  function OfIncident(candidates: seq<Candidate>, incident: nat): (r: Option<nat>)
    ensures r.Some? ==> r.value < |candidates| && candidates[r.value].incident == incident
    ensures r.None? ==> forall i :: 0 <= i < |candidates| ==> candidates[i].incident != incident
  {
    if candidates == [] then None
    else
      var n := |candidates| - 1;
      if candidates[n].incident == incident then Some(n) else OfIncident(candidates[..n], incident)
  }

  /** The live candidate of a pattern that was created first. */
  function EarliestLive(candidates: seq<Candidate>, fingerprint: string): (r: Option<nat>)
    ensures r.Some? ==> r.value < |candidates| && candidates[r.value].fingerprint == fingerprint && Live(candidates[r.value])
    ensures r.Some? ==> (forall i :: 0 <= i < |candidates| && candidates[i].fingerprint == fingerprint && Live(candidates[i]) ==>
        candidates[r.value].createdAt <= candidates[i].createdAt)
    ensures r.None? ==> forall i :: 0 <= i < |candidates| && candidates[i].fingerprint == fingerprint ==> !Live(candidates[i])
  {
    if candidates == [] then None
    else
      var n := |candidates| - 1;
      var r := EarliestLive(candidates[..n], fingerprint);
      if candidates[n].fingerprint == fingerprint && Live(candidates[n]) && (r.None? || candidates[n].createdAt < candidates[r.value].createdAt)
      then Some(n) else r
  }

  datatype Extraction = NotEligible | AlreadyExtracted | Extracted(candidate: nat)

  /** `create_candidate_from_resolved_incident`; NotEligible is the raised error. */
  function Extract(s: Library, m: Material, createdAt: int): (Library, Extraction) {
    if !m.resolved then (s, NotEligible)
    else
      var existing := OfIncident(s.candidates, m.incident);
      if existing.Some? then
        var c := s.candidates[existing.value];
        (if c.status == PENDING_REVIEW then s.(candidates := s.candidates[existing.value := c.(hash := Hash(c.content))]) else s,
         AlreadyExtracted)
      else if !Eligible(m) then (s, NotEligible)
      else
        var content := Content(m.document, m.incident);
        (s.(candidates := s.candidates + [Candidate(m.incident, m.fingerprint, content, Hash(content), PENDING_REVIEW,
                                                    EarliestLive(s.candidates, m.fingerprint), createdAt)]),
         Extracted(|s.candidates|))
  }

  function OfCandidate(experiences: seq<Published>, candidate: nat): (r: Option<nat>)
    ensures r.Some? ==> r.value < |experiences| && experiences[r.value].candidate == candidate
    ensures r.None? ==> forall i :: 0 <= i < |experiences| ==> experiences[i].candidate != candidate
  {
    if experiences == [] then None
    else
      var n := |experiences| - 1;
      if experiences[n].candidate == candidate then Some(n) else OfCandidate(experiences[..n], candidate)
  }

  predicate HashTaken(experiences: seq<Published>, hash: Hash) {
    exists i :: 0 <= i < |experiences| && experiences[i].hash == hash
  }

  /** Collision is the unique-constraint failure on the content hash; the transaction rolls back. */
  datatype Publication = NotFound | NotPending | IsDuplicate | Collision | Returned(experience: nat)

  /** `publish_candidate` with its route. */
  function Publish(s: Library, candidate: nat): (Library, Publication) {
    if candidate >= |s.candidates| then (s, NotFound)
    else
      var existing := OfCandidate(s.experiences, candidate);
      var c := s.candidates[candidate];
      if existing.Some? then (s, Returned(existing.value))
      else if c.status != PENDING_REVIEW then (s, NotPending)
      else if c.duplicateOf.Some? then (s, IsDuplicate)
      else if HashTaken(s.experiences, Hash(c.content)) then (s, Collision)
      else
        (Library(s.candidates[candidate := c.(hash := Hash(c.content), status := PUBLISHED)],
                 s.experiences + [Published(candidate, c.fingerprint, c.content, Hash(c.content))]),
         Returned(|s.experiences|))
  }

  /** `reject_candidate` with its route; `false` is the raised error or the unknown candidate. */
  function Reject(s: Library, candidate: nat): (Library, bool) {
    if candidate >= |s.candidates| || s.candidates[candidate].status != PENDING_REVIEW then (s, false)
    else (s.(candidates := s.candidates[candidate := s.candidates[candidate].(status := REJECTED)]), true)
  }

  // ---------------------------------------------------------------- runs

  datatype Action = ExtractAction(material: Material, createdAt: int) | PublishAction(candidate: nat) | RejectAction(candidate: nat)

  function Next(s: Library, a: Action): Library {
    match a
    case ExtractAction(m, createdAt) => Extract(s, m, createdAt).0
    case PublishAction(c) => Publish(s, c).0
    case RejectAction(c) => Reject(s, c).0
  }

  ghost predicate Steps(s: Library, t: Library) { exists a: Action :: t == Next(s, a) }

  ghost predicate IsRun(run: seq<Library>) {
    && |run| > 0 && run[0] == Library([], [])
    && forall i {:trigger Steps(run[i - 1], run[i])} :: 0 < i < |run| ==> Steps(run[i - 1], run[i])
  }

  // ---------------------------------------------------------------- invariants

  /** A live candidate that is no duplicate leads its pattern. */
  predicate Leads(c: Candidate) { Live(c) && c.duplicateOf.None? }

  /** One row: its hash is its content's, and a duplicate points to an earlier row of its pattern. */
  ghost predicate RowOk(candidates: seq<Candidate>, i: nat)
    requires i < |candidates|
  {
    var c := candidates[i];
    && c.hash == Hash(c.content) && c.content.incident == c.incident
    && (c.duplicateOf.Some? ==> c.duplicateOf.value < i && candidates[c.duplicateOf.value].fingerprint == c.fingerprint)
  }

  ghost predicate OneLeader(candidates: seq<Candidate>) {
    forall i, j :: 0 <= i < |candidates| && 0 <= j < |candidates| && Leads(candidates[i]) && Leads(candidates[j]) ==>
      candidates[i].fingerprint == candidates[j].fingerprint ==> i == j
  }

  ghost predicate CandidatesOk(s: Library) {
    && (forall i :: 0 <= i < |s.candidates| ==> RowOk(s.candidates, i))
    && (forall i, j :: 0 <= i < |s.candidates| && 0 <= j < |s.candidates| && s.candidates[i].incident == s.candidates[j].incident ==> i == j)
    && OneLeader(s.candidates)
  }

  ghost predicate ExperienceOk(s: Library, e: Published) {
    && e.candidate < |s.candidates|
    && var c := s.candidates[e.candidate];
       c.status == PUBLISHED && c.duplicateOf.None? && c.fingerprint == e.fingerprint && c.content == e.content && e.hash == Hash(e.content)
  }

  ghost predicate ExperiencesOk(s: Library) {
    && (forall e :: 0 <= e < |s.experiences| ==> ExperienceOk(s, s.experiences[e]))
    && (forall e, f :: 0 <= e < |s.experiences| && 0 <= f < |s.experiences| && s.experiences[e].candidate == s.experiences[f].candidate ==> e == f)
    && (forall c :: 0 <= c < |s.candidates| && s.candidates[c].status == PUBLISHED ==> OfCandidate(s.experiences, c).Some?)
  }

  ghost predicate Inv(s: Library) { CandidatesOk(s) && ExperiencesOk(s) }

  lemma ExtractKeeps(s: Library, m: Material, createdAt: int)
    requires Inv(s)
    ensures Inv(Extract(s, m, createdAt).0)
  {
    var (t, reply) := Extract(s, m, createdAt);
    if reply.Extracted? {
      NewCandidateKeeps(s, t.candidates[|s.candidates|]);
    } else if reply.AlreadyExtracted? {
      assert RowOk(s.candidates, OfIncident(s.candidates, m.incident).value);
      assert t.candidates == s.candidates;
    }
  }

  lemma NewCandidateKeeps(s: Library, c: Candidate)
    requires Inv(s) && c.status == PENDING_REVIEW && c.hash == Hash(c.content) && c.content.incident == c.incident
    requires OfIncident(s.candidates, c.incident).None? && c.duplicateOf == EarliestLive(s.candidates, c.fingerprint)
    ensures Inv(s.(candidates := s.candidates + [c]))
  {
    NewCandidateOk(s, c);
    hide CandidatesOk;
    assert forall e :: 0 <= e < |s.experiences| ==> ExperienceOk(s, s.experiences[e]);
  }

  lemma NewCandidateOk(s: Library, c: Candidate)
    requires CandidatesOk(s) && c.status == PENDING_REVIEW && c.hash == Hash(c.content) && c.content.incident == c.incident
    requires OfIncident(s.candidates, c.incident).None? && c.duplicateOf == EarliestLive(s.candidates, c.fingerprint)
    ensures CandidatesOk(s.(candidates := s.candidates + [c]))
  {
    hide OfIncident, EarliestLive;
    var t := s.(candidates := s.candidates + [c]);
    forall i | 0 <= i < |t.candidates| ensures RowOk(t.candidates, i) {
      if i < |s.candidates| { assert RowOk(s.candidates, i); }
    }
    assert forall i :: 0 <= i < |s.candidates| ==> t.candidates[i] == s.candidates[i];
  }

  lemma RowsStayOk(x: seq<Candidate>, y: seq<Candidate>)
    requires |y| == |x| && forall i :: 0 <= i < |x| ==> RowOk(x, i)
    requires forall i :: 0 <= i < |x| ==> y[i] == x[i].(hash := y[i].hash, status := y[i].status) && y[i].hash == x[i].hash
    ensures forall i :: 0 <= i < |y| ==> RowOk(y, i)
  {
    forall i | 0 <= i < |y| ensures RowOk(y, i) {
      assert RowOk(x, i);
    }
  }

  lemma PublishKeeps(s: Library, candidate: nat)
    requires Inv(s)
    ensures Inv(Publish(s, candidate).0)
  {
    var (t, reply) := Publish(s, candidate);
    if t != s {
      assert RowOk(s.candidates, candidate);
      RowsStayOk(s.candidates, t.candidates);
      assert CandidatesOk(t);
      hide CandidatesOk;
      forall e | 0 <= e < |t.experiences| ensures ExperienceOk(t, t.experiences[e]) {
        if e < |s.experiences| { assert ExperienceOk(s, s.experiences[e]); }
      }
      forall c | 0 <= c < |t.candidates| && t.candidates[c].status == PUBLISHED ensures OfCandidate(t.experiences, c).Some? {
        assert t.experiences[..|s.experiences|] == s.experiences;
      }
    }
  }

  lemma RejectKeeps(s: Library, candidate: nat)
    requires Inv(s)
    ensures Inv(Reject(s, candidate).0)
  {
    var t := Reject(s, candidate).0;
    RowsStayOk(s.candidates, t.candidates);
    assert forall e :: 0 <= e < |t.experiences| ==> ExperienceOk(s, t.experiences[e]);
  }

  lemma {:induction false} RunKeeps(run: seq<Library>, i: nat)
    requires IsRun(run) && i < |run|
    ensures Inv(run[i])
  {
    if i > 0 {
      RunKeeps(run, i - 1);
      StepKeeps(run, i);
    }
  }

  lemma StepKeeps(run: seq<Library>, i: nat)
    requires IsRun(run) && 0 < i < |run| && Inv(run[i - 1])
    ensures Inv(run[i]) && run[i - 1].experiences <= run[i].experiences && |run[i - 1].candidates| <= |run[i].candidates|
    ensures forall c :: 0 <= c < |run[i - 1].candidates| ==>
      run[i].candidates[c].fingerprint == run[i - 1].candidates[c].fingerprint
      && run[i].candidates[c].duplicateOf == run[i - 1].candidates[c].duplicateOf
      && (run[i - 1].candidates[c].status == PUBLISHED ==> run[i].candidates[c].status == PUBLISHED)
  {
    hide Inv;
    assert Steps(run[i - 1], run[i]);
    var a :| run[i] == Next(run[i - 1], a);
    match a
    case ExtractAction(m, createdAt) => ExtractKeeps(run[i - 1], m, createdAt);
    case PublishAction(c) => PublishKeeps(run[i - 1], c);
    case RejectAction(c) => RejectKeeps(run[i - 1], c);
  }

  // ---------------------------------------------------------------- guarantees

  /** In every state of every run each pattern has at most one candidate that is live and no duplicate, every
      incident has at most one candidate, and a duplicate points to an earlier candidate of its pattern. */
  lemma OneLeaderPerPattern(run: seq<Library>, n: nat, i: nat, j: nat)
    requires IsRun(run) && n < |run| && i < |run[n].candidates| && j < |run[n].candidates|
    ensures var cs := run[n].candidates;
      && (Leads(cs[i]) && Leads(cs[j]) && cs[i].fingerprint == cs[j].fingerprint ==> i == j)
      && (cs[i].incident == cs[j].incident ==> i == j)
      && (cs[i].duplicateOf.Some? ==> cs[i].duplicateOf.value < i && cs[cs[i].duplicateOf.value].fingerprint == cs[i].fingerprint)
  {
    RunKeeps(run, n);
    assert RowOk(run[n].candidates, i);
  }

  /** Ever: any two experiences of one pattern, published at any moments of a run, are the same one; its
      stored hash is the hash of its content, and it is still there in every later state. */
  lemma OneExperiencePerPattern(run: seq<Library>, m: nat, n: nat, e: nat, f: nat)
    requires IsRun(run) && m <= n < |run| && e < |run[m].experiences| && f < |run[n].experiences|
    ensures e < |run[n].experiences| && run[n].experiences[e] == run[m].experiences[e]
    ensures run[n].experiences[f].fingerprint == run[m].experiences[e].fingerprint ==> e == f
    ensures run[n].experiences[f].hash == Hash(run[n].experiences[f].content)
  {
    ExperiencesStay(run, m, n);
    RunKeeps(run, n);
    assert ExperienceOk(run[n], run[n].experiences[e]) && ExperienceOk(run[n], run[n].experiences[f]);
  }

  lemma {:induction false} ExperiencesStay(run: seq<Library>, m: nat, n: nat)
    requires IsRun(run) && m <= n < |run|
    ensures run[m].experiences <= run[n].experiences
    decreases n
  {
    if m < n {
      ExperiencesStay(run, m, n - 1);
      RunKeeps(run, n - 1);
      StepKeeps(run, n);
    }
  }

  /** In every reachable state publishing answers exactly so: an already published candidate gets its existing
      experience back, a pending one that is no duplicate is published with the hash of its content, and the
      unique constraint on content hashes never fires. */
  lemma PublicationSucceedsExactly(run: seq<Library>, n: nat, candidate: nat)
    requires IsRun(run) && n < |run| && candidate < |run[n].candidates|
    ensures var (t, reply) := Publish(run[n], candidate); var c := run[n].candidates[candidate];
      && (reply.Returned? <==> Leads(c))
      && (reply.Returned? ==> reply.experience < |t.experiences| && t.experiences[reply.experience].candidate == candidate
                              && t.experiences[reply.experience].content == c.content
                              && t.experiences[reply.experience].hash == Hash(c.content))
      && (t == run[n] <==> !(Leads(c) && c.status == PENDING_REVIEW))
      && !reply.Collision?
  {
    RunKeeps(run, n);
    var c := run[n].candidates[candidate];
    if e: nat :| e < |run[n].experiences| && run[n].experiences[e].candidate == candidate {
      assert ExperienceOk(run[n], run[n].experiences[e]);
    }
    forall e | 0 <= e < |run[n].experiences| && run[n].experiences[e].hash == Hash(c.content)
      ensures run[n].experiences[e].candidate == candidate
    {
      assert ExperienceOk(run[n], run[n].experiences[e]);
      assert RowOk(run[n].candidates, run[n].experiences[e].candidate) && RowOk(run[n].candidates, candidate);
    }
    var existing := OfCandidate(run[n].experiences, candidate);
    if existing.Some? {
      assert ExperienceOk(run[n], run[n].experiences[existing.value]);
    }
  }

  /** A pattern that has a published experience is closed: whatever is extracted for it later is a duplicate,
      and publishing that duplicate is refused. */
  lemma PublishedPatternIsClosed(run: seq<Library>, m: nat, n: nat, e: nat, material: Material, createdAt: int)
    requires IsRun(run) && m <= n < |run| && e < |run[m].experiences| && material.fingerprint == run[m].experiences[e].fingerprint
    ensures var (t, reply) := Extract(run[n], material, createdAt);
      reply.Extracted? ==> t.candidates[reply.candidate].duplicateOf.Some? && Publish(t, reply.candidate).1 == IsDuplicate
  {
    ExperiencesStay(run, m, n);
    RunKeeps(run, n);
    assert ExperienceOk(run[n], run[n].experiences[e]);
    forall k | 0 <= k < |run[n].experiences| ensures run[n].experiences[k].candidate < |run[n].candidates| {
      assert ExperienceOk(run[n], run[n].experiences[k]);
    }
  }

  predicate Awaited(c: Candidate, fingerprint: string) {
    c.fingerprint == fingerprint && (c.status == PENDING_REVIEW || c.status == PUBLISHED)
  }

  /** A pending row's hash is computed again, any other row is left alone. */
  predicate Refreshed(was: Candidate, now: Candidate) {
    now == if was.status == PENDING_REVIEW then was.(hash := Hash(was.content)) else was
  }

  /** Extraction adds one row exactly for a resolved incident without one that has an executed plan, a successful
      execution, stored checks that all passed, evidence, a citation and a hypothesis. The row is pending, with the
      hash of its content, and is a duplicate of the earliest candidate of its pattern that is pending or
      published, if there is one. Otherwise at most the hash of an existing row is written again. */
  lemma ExtractsExactly(s: Library, m: Material, createdAt: int)
    ensures var (t, reply) := Extract(s, m, createdAt);
      var grounded := m.resolved && m.executedPlan && m.succeededExecution && |m.conclusions| > 0
                      && (forall i :: 0 <= i < |m.conclusions| ==> m.conclusions[i])
                      && m.evidence > 0 && m.citations > 0 && m.hypothesis;
      var known := exists i :: 0 <= i < |s.candidates| && s.candidates[i].incident == m.incident;
      && t.experiences == s.experiences && |s.candidates| <= |t.candidates|
      && (reply.Extracted? <==> grounded && !known)
      && (reply == AlreadyExtracted <==> m.resolved && known)
      && (forall i :: 0 <= i < |s.candidates| ==>
            t.candidates[i] == s.candidates[i] || t.candidates[i] == s.candidates[i].(hash := Hash(s.candidates[i].content)))
      && (!reply.Extracted? ==> |t.candidates| == |s.candidates|)
      && (reply == AlreadyExtracted ==>
            exists i :: 0 <= i < |s.candidates| && s.candidates[i].incident == m.incident && Refreshed(s.candidates[i], t.candidates[i]))
      && (reply.Extracted? ==>
            && reply.candidate == |s.candidates| && |t.candidates| == |s.candidates| + 1 && s.candidates <= t.candidates
            && var c := t.candidates[|s.candidates|]; var content := Content(m.document, m.incident);
               && c == Candidate(m.incident, m.fingerprint, content, Hash(content), PENDING_REVIEW, c.duplicateOf, createdAt)
               && (c.duplicateOf == None <==> forall i :: 0 <= i < |s.candidates| ==> !Awaited(s.candidates[i], m.fingerprint))
               && (c.duplicateOf.Some? ==>
                     && c.duplicateOf.value < |s.candidates| && Awaited(s.candidates[c.duplicateOf.value], m.fingerprint)
                     && forall i :: 0 <= i < |s.candidates| && Awaited(s.candidates[i], m.fingerprint) ==>
                          s.candidates[c.duplicateOf.value].createdAt <= s.candidates[i].createdAt))
  {
    hide OfIncident, EarliestLive;
    var existing := OfIncident(s.candidates, m.incident);
    if existing.Some? {
      assert s.candidates[existing.value].incident == m.incident;
    }
  }

  /** Publishing a pending candidate that is no duplicate stores exactly its content under its hash and marks it
      published; which refusal is given for the others; a refused or repeated request changes nothing. */
  lemma PublishesExactly(run: seq<Library>, n: nat, candidate: nat)
    requires IsRun(run) && n < |run|
    ensures var s := run[n]; var (t, reply) := Publish(s, candidate);
      && (reply == NotFound <==> candidate >= |s.candidates|)
      && (candidate < |s.candidates| ==> var c := s.candidates[candidate];
            && (reply == NotPending <==> c.status == REJECTED)
            && (reply == IsDuplicate <==> c.status == PENDING_REVIEW && c.duplicateOf != None)
            && (if c.status == PENDING_REVIEW && c.duplicateOf == None then
                  && reply == Returned(|s.experiences|)
                  && t == Library(s.candidates[candidate := c.(status := PUBLISHED)],
                                  s.experiences + [Published(candidate, c.fingerprint, c.content, Hash(c.content))])
                else t == s))
  {
    RunKeeps(run, n);
    if candidate < |run[n].candidates| {
      PublicationSucceedsExactly(run, n, candidate);
      assert RowOk(run[n].candidates, candidate);
      OfCandidateKnown(run[n], candidate);
    }
    hide IsRun, Inv, OfCandidate, HashTaken, RowOk;
  }

  lemma OfCandidateKnown(s: Library, candidate: nat)
    requires Inv(s) && candidate < |s.candidates|
    ensures var existing := OfCandidate(s.experiences, candidate);
      existing.Some? <==> s.candidates[candidate].status == PUBLISHED
    ensures s.candidates[candidate].status == PUBLISHED ==> s.candidates[candidate].duplicateOf == None
  {
    var existing := OfCandidate(s.experiences, candidate);
    if existing.Some? {
      assert ExperienceOk(s, s.experiences[existing.value]);
    }
  }

  /** In any state, reachable or not: a publication of a pending candidate without duplicate mark and experience
      recomputes its hash from its content, and is rolled back exactly when an experience has that hash already. */
  lemma PublishesByContent(s: Library, candidate: nat)
    requires candidate < |s.candidates| && s.candidates[candidate].status == PENDING_REVIEW
    requires s.candidates[candidate].duplicateOf == None
    requires forall e :: 0 <= e < |s.experiences| ==> s.experiences[e].candidate != candidate
    ensures var (t, reply) := Publish(s, candidate); var c := s.candidates[candidate];
      var taken := exists e :: 0 <= e < |s.experiences| && s.experiences[e].hash == Hash(c.content);
      if taken then t == s && reply == Collision
      else
        && reply == Returned(|s.experiences|)
        && t.candidates == s.candidates[candidate := c.(status := PUBLISHED, hash := Hash(c.content))]
        && t.experiences == s.experiences + [Published(candidate, c.fingerprint, c.content, Hash(c.content))]
  {
    hide OfCandidate;
  }

  /** A rejection marks exactly a pending candidate; any other request changes nothing. */
  lemma RejectsExactly(s: Library, candidate: nat)
    ensures var (t, ok) := Reject(s, candidate);
      && (ok <==> candidate < |s.candidates| && s.candidates[candidate].status == PENDING_REVIEW)
      && t == if ok then s.(candidates := s.candidates[candidate := s.candidates[candidate].(status := REJECTED)]) else s
  {
  }
}
