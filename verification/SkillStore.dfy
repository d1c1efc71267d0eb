/** Skill publication as the service writes it: candidate and version rows updated in place. */
module SkillStore {
  import opened Options
  import opened SkillVersions

  class Store {
    var candidates: seq<Candidate>
    var versions: seq<Version>

    constructor ()
      ensures State() == Skills([], [])
    {
      candidates, versions := [], [];
    }

    function State(): Skills
      reads this
    {
      Skills(candidates, versions)
    }

    /** The bulk `UPDATE … SET status = 'RETIRED' WHERE … AND status = 'ACTIVE'`. */
    method Retire(key: Key)
      modifies this`versions
      ensures versions == Retired(old(versions), key)
    {
      for i := 0 to |versions|
        invariant |versions| == |old(versions)|
        invariant forall k :: 0 <= k < i ==> versions[k] == Retired(old(versions), key)[k]
        invariant forall k :: i <= k < |versions| ==> versions[k] == old(versions)[k]
      {
        if versions[i].key == key && versions[i].active {
          versions := versions[i := versions[i].(active := false)];
        }
      }
    }

    /** `create_skill_candidate`: the existing candidate, a new one, or a raised error that changes nothing. */
    method CreateCandidate(experience: nat, published: bool, key: Key, pick: nat) returns (ok: bool)
      modifies this`candidates
      ensures State() == SkillVersions.CreateCandidate(old(State()), experience, published, key, pick)
      ensures ok ==> published && Proposed(candidates, experience)
    {
      hide Latest, NextPatchVersion, IsVersion;
      if !published { return false; }
      if Proposed(candidates, experience) { return true; }
      var version := NextPatchVersion(LatestText(versions, key, pick));
      if version.None? || !IsVersion(version.value) { return false; }
      candidates := candidates + [Candidate(experience, key, version.value, PENDING_REVIEW)];
      assert candidates[|candidates| - 1].experience == experience;
      return true;
    }

    /** `publish_skill_candidate` with its route. The rows are retired and the candidate is assigned before
        the insert, so a failed insert rolls both back. */
    method PublishCandidate(candidate: nat, now: int, pick: nat) returns (reply: Reply)
      modifies this`candidates, this`versions
      ensures (State(), reply) == Publish(old(State()), candidate, now, pick)
    {
      hide Latest, NextPatchVersion, IsVersion;
      if candidate >= |candidates| { return NotFound; }
      var existing := OfCandidate(versions, candidate);
      if existing.Some? { return Returned(existing.value); }
      var c := candidates[candidate];
      if c.status != PENDING_REVIEW { return NotPending; }
      var version := NextPatchVersion(LatestText(versions, c.key, pick));
      if version.None? || !IsVersion(version.value) { return Malformed; }
      var candidatesBefore, versionsBefore := candidates, versions;
      Retire(c.key);
      candidates := candidates[candidate := c.(proposed := version.value, status := PUBLISHED)];
      RetiringKeepsNumbers(versionsBefore, c.key, version.value);
      if Taken(versions, c.key, version.value) {
        candidates, versions := candidatesBefore, versionsBefore;
        return Conflict;
      }
      versions := versions + [Version(candidate, c.key, version.value, true, now)];
      return Returned(|versions| - 1);
    }

    /** `reject_skill_candidate` with its route. */
    method RejectCandidate(candidate: nat)
      modifies this`candidates
      ensures State() == Reject(old(State()), candidate)
    {
      if candidate >= |candidates| || candidates[candidate].status != PENDING_REVIEW { return; }
      candidates := candidates[candidate := candidates[candidate].(status := REJECTED)];
    }
  }

  lemma RetiringKeepsNumbers(versions: seq<Version>, key: Key, version: string)
    ensures Taken(Retired(versions, key), key, version) <==> Taken(versions, key, version)
  {
    if Taken(versions, key, version) {
      var i :| 0 <= i < |versions| && versions[i].key == key && versions[i].version == version;
      assert Retired(versions, key)[i].version == version;
    }
  }
}
