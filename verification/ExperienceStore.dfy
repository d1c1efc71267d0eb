/** Extraction and review as the service writes them: candidate and experience rows updated in place. */
module ExperienceStore {
  import opened Options
  import opened Experience

  class Store {
    var candidates: seq<Candidate>
    var experiences: seq<Published>

    constructor ()
      ensures State() == Library([], [])
    {
      candidates, experiences := [], [];
    }

    function State(): Library
      reads this
    {
      Library(candidates, experiences)
    }

    /** `create_candidate_from_resolved_incident`. */
    method CreateCandidate(m: Material, createdAt: int) returns (reply: Extraction)
      modifies this`candidates
      ensures (State(), reply) == Extract(old(State()), m, createdAt)
    {
      if !m.resolved { return NotEligible; }
      var existing := OfIncident(candidates, m.incident);
      if existing.Some? {
        var c := candidates[existing.value];
        if c.status == PENDING_REVIEW {
          candidates := candidates[existing.value := c.(hash := Hash(c.content))];
        }
        return AlreadyExtracted;
      }
      if !m.executedPlan || !m.succeededExecution { return NotEligible; }
      if m.conclusions == [] || exists i :: 0 <= i < |m.conclusions| && !m.conclusions[i] { return NotEligible; }
      if m.evidence == 0 || m.citations == 0 || !m.hypothesis { return NotEligible; }
      var duplicate := EarliestLive(candidates, m.fingerprint);
      var content := Content(m.document, m.incident);
      candidates := candidates + [Candidate(m.incident, m.fingerprint, content, Hash(content), PENDING_REVIEW, duplicate, createdAt)];
      return Extracted(|candidates| - 1);
    }

    /** `publish_candidate` with its route. The candidate row is assigned before the insert, so a failed
        insert rolls that assignment back. */
    method PublishCandidate(candidate: nat) returns (reply: Publication)
      modifies this`candidates, this`experiences
      ensures (State(), reply) == Publish(old(State()), candidate)
    {
      if candidate >= |candidates| { return NotFound; }
      var existing := OfCandidate(experiences, candidate);
      if existing.Some? { return Returned(existing.value); }
      var before, c := candidates, candidates[candidate];
      if c.status != PENDING_REVIEW { return NotPending; }
      if c.duplicateOf.Some? { return IsDuplicate; }
      var expected := Hash(c.content);
      if c.hash != expected {
        candidates := candidates[candidate := candidates[candidate].(hash := expected)];
      }
      candidates := candidates[candidate := candidates[candidate].(status := PUBLISHED)];
      assert candidates == before[candidate := c.(hash := expected, status := PUBLISHED)];
      if HashTaken(experiences, candidates[candidate].hash) {
        candidates := before;
        return Collision;
      }
      experiences := experiences + [Published(candidate, c.fingerprint, c.content, candidates[candidate].hash)];
      return Returned(|experiences| - 1);
    }

    /** `reject_candidate` with its route. */
    method RejectCandidate(candidate: nat) returns (ok: bool)
      modifies this`candidates
      ensures (State(), ok) == Reject(old(State()), candidate)
    {
      if candidate >= |candidates| || candidates[candidate].status != PENDING_REVIEW { return false; }
      candidates := candidates[candidate := candidates[candidate].(status := REJECTED)];
      return true;
    }
  }
}
