/** Learned skills: candidates made from experiences, and versions published one after another. The version
    lock of a (project, skill) pair and the candidate's row lock make each call one step. Nothing is assumed
    about the clock. */
module SkillVersions {
  import opened Options
  import opened Text

  // ---------------------------------------------------------------- version numbers

  function VersionText(major: nat, minor: nat, patch: nat): string {
    Join('.', [Print(major), Print(minor), Print(patch)])
  }

  /** `next_patch_version`; None is the raised ValueError. */
  function NextPatchVersion(version: Option<string>): Option<string> {
    if version.None? || version.value == "" then Some("1.0.0")
    else
      var pieces := Split('.', version.value);
      if |pieces| != 3 then None
      else
        var major, minor, patch := Parse(pieces[0]), Parse(pieces[1]), Parse(pieces[2]);
        if major.None? || minor.None? || patch.None? then None
        else Some(VersionText(major.value, minor.value, patch.value + 1))
  }

  /** The manifest's version pattern: three numerals without leading zeros. */
  predicate IsVersion(s: string) {
    var pieces := Split('.', s);
    |pieces| == 3 && forall i :: 0 <= i < 3 ==> Parse(pieces[i]).Some? && (|pieces[i]| > 1 ==> pieces[i][0] != '0')
  }

  lemma VersionPieces(major: nat, minor: nat, patch: nat)
    ensures Split('.', VersionText(major, minor, patch)) == [Print(major), Print(minor), Print(patch)]
    ensures VersionText(major, minor, patch) != ""
  {
    SplitJoin('.', [Print(major), Print(minor), Print(patch)]);
    assert Split('.', "") == [""];
  }

  /** Through parse and print, the successor of a printed version has its patch number raised by one, meets the
      manifest's pattern, and different numbers print differently. */
  lemma NextPatch(major: nat, minor: nat, patch: nat, other: nat)
    ensures NextPatchVersion(Some(VersionText(major, minor, patch))) == Some(VersionText(major, minor, patch + 1))
    ensures IsVersion(VersionText(major, minor, patch))
    ensures VersionText(major, minor, patch) == VersionText(major, minor, other) ==> patch == other
  {
    VersionPieces(major, minor, patch);
    VersionPieces(major, minor, other);
    ParsePrint(major); ParsePrint(minor); ParsePrint(patch); ParsePrint(other);
    PrintCanonical(major); PrintCanonical(minor); PrintCanonical(patch);
    hide Split, Join, Print, Parse, Value, VersionText;
    if VersionText(major, minor, patch) == VersionText(major, minor, other) {
      assert [Print(major), Print(minor), Print(patch)][2] == [Print(major), Print(minor), Print(other)][2];
    }
  }

  /** The manifest's pattern accepts exactly the printed versions. */
  lemma VersionsArePrinted(s: string)
    ensures IsVersion(s) <==> exists major: nat, minor: nat, patch: nat :: s == VersionText(major, minor, patch)
  {
    var pieces := Split('.', s);
    if IsVersion(s) {
      JoinSplit('.', s);
      PrintValue(pieces[0]);
      PrintValue(pieces[1]);
      PrintValue(pieces[2]);
      hide Split, Join, Print, Value;
      assert pieces == [Print(Value(pieces[0])), Print(Value(pieces[1])), Print(Value(pieces[2]))];
      assert s == VersionText(Value(pieces[0]), Value(pieces[1]), Value(pieces[2]));
    }
    if major: nat, minor: nat, patch: nat :| s == VersionText(major, minor, patch) {
      NextPatch(major, minor, patch, patch);
    }
  }

  /** Without a version, or after a blank one, the first is 1.0.0. */
  lemma FirstVersion()
    ensures NextPatchVersion(None) == Some(VersionText(1, 0, 0))
    ensures NextPatchVersion(Some("")) == Some(VersionText(1, 0, 0))
  {
    assert Print(0) == "0" && Print(1) == "1";
    var fields := [Print(1), Print(0), Print(0)];
    assert fields[1..] == ["0", "0"] && ["0", "0"][1..] == ["0"];
    assert Join('.', ["0", "0"]) == "0" + ['.'] + Join('.', ["0"]) == "0.0";
    assert Join('.', fields) == "1" + ['.'] + "0.0" == "1.0.0";
  }

  // ---------------------------------------------------------------- rows and operations

  datatype Key = Key(project: string, skill: string)

  datatype ReviewStatus = PENDING_REVIEW | PUBLISHED | REJECTED

  datatype Candidate = Candidate(experience: nat, key: Key, proposed: string, status: ReviewStatus)

  datatype Version = Version(candidate: nat, key: Key, version: string, active: bool, publishedAt: int)

  datatype Skills = Skills(candidates: seq<Candidate>, versions: seq<Version>)

  predicate IsLatest(versions: seq<Version>, key: Key, i: nat) {
    && i < |versions| && versions[i].key == key
    && forall j :: 0 <= j < |versions| && versions[j].key == key ==> versions[j].publishedAt <= versions[i].publishedAt
  }

  function FirstLatest(versions: seq<Version>, key: Key): (r: Option<nat>)
    ensures r.Some? ==> IsLatest(versions, key, r.value)
    ensures r.None? ==> forall j :: 0 <= j < |versions| ==> versions[j].key != key
  {
    if versions == [] then None
    else
      var n := |versions| - 1;
      var r := FirstLatest(versions[..n], key);
      if versions[n].key == key && (r.None? || versions[n].publishedAt > versions[r.value].publishedAt) then Some(n) else r
  }

  /** The row with the greatest publication time; `pick` says which one the database returns on a tie. */
  function Latest(versions: seq<Version>, key: Key, pick: nat): (r: Option<nat>)
    ensures r.Some? ==> IsLatest(versions, key, r.value)
    ensures r.None? ==> forall j :: 0 <= j < |versions| ==> versions[j].key != key
  {
    if IsLatest(versions, key, pick) then Some(pick) else FirstLatest(versions, key)
  }

  function LatestText(versions: seq<Version>, key: Key, pick: nat): Option<string> {
    var latest := Latest(versions, key, pick);
    if latest.Some? then Some(versions[latest.value].version) else None
  }

  predicate Proposed(candidates: seq<Candidate>, experience: nat) {
    exists c :: 0 <= c < |candidates| && candidates[c].experience == experience
  }

  /** `create_skill_candidate` for a published experience; a raised error changes nothing. */
  function CreateCandidate(s: Skills, experience: nat, published: bool, key: Key, pick: nat): Skills {
    var version := NextPatchVersion(LatestText(s.versions, key, pick));
    if !published || Proposed(s.candidates, experience) || version.None? || !IsVersion(version.value) then s
    else s.(candidates := s.candidates + [Candidate(experience, key, version.value, PENDING_REVIEW)])
  }

  function OfCandidate(versions: seq<Version>, candidate: nat): (r: Option<nat>)
    ensures r.Some? ==> r.value < |versions| && versions[r.value].candidate == candidate
    ensures r.None? ==> forall i :: 0 <= i < |versions| ==> versions[i].candidate != candidate
  {
    if versions == [] then None
    else
      var n := |versions| - 1;
      if versions[n].candidate == candidate then Some(n) else OfCandidate(versions[..n], candidate)
  }

  predicate Taken(versions: seq<Version>, key: Key, version: string) {
    exists i :: 0 <= i < |versions| && versions[i].key == key && versions[i].version == version
  }

  function Retired(versions: seq<Version>, key: Key): (r: seq<Version>)
    ensures |r| == |versions|
    ensures forall i :: 0 <= i < |r| ==> r[i] == if versions[i].key == key then versions[i].(active := false) else versions[i]
  {
    seq(|versions|, i requires 0 <= i < |versions| =>
      if versions[i].key == key then versions[i].(active := false) else versions[i])
  }

  /** Conflict is the unique-constraint failure on (project, skill, version); the transaction rolls back. */
  datatype Reply = NotFound | NotPending | Malformed | Conflict | Returned(version: nat)

  /** `publish_skill_candidate` with its route. */
  function Publish(s: Skills, candidate: nat, now: int, pick: nat): (Skills, Reply) {
    if candidate >= |s.candidates| then (s, NotFound)
    else
      var existing := OfCandidate(s.versions, candidate);
      var c := s.candidates[candidate];
      var version := NextPatchVersion(LatestText(s.versions, c.key, pick));
      if existing.Some? then (s, Returned(existing.value))
      else if c.status != PENDING_REVIEW then (s, NotPending)
      else if version.None? || !IsVersion(version.value) then (s, Malformed)
      else if Taken(s.versions, c.key, version.value) then (s, Conflict)
      else
        (Skills(s.candidates[candidate := c.(proposed := version.value, status := PUBLISHED)],
                Retired(s.versions, c.key) + [Version(candidate, c.key, version.value, true, now)]),
         Returned(|s.versions|))
  }

  /** `reject_skill_candidate` with its route. */
  function Reject(s: Skills, candidate: nat): Skills {
    if candidate >= |s.candidates| || s.candidates[candidate].status != PENDING_REVIEW then s
    else s.(candidates := s.candidates[candidate := s.candidates[candidate].(status := REJECTED)])
  }

  // ---------------------------------------------------------------- runs

  datatype Action =
    | CreateAction(experience: nat, published: bool, key: Key, pick: nat)
    | PublishAction(candidate: nat, now: int, pick: nat)
    | RejectAction(candidate: nat)

  function Next(s: Skills, a: Action): Skills {
    match a
    case CreateAction(e, published, key, pick) => CreateCandidate(s, e, published, key, pick)
    case PublishAction(c, now, pick) => Publish(s, c, now, pick).0
    case RejectAction(c) => Reject(s, c)
  }

  ghost predicate Steps(s: Skills, t: Skills) { exists a: Action :: t == Next(s, a) }

  ghost predicate IsRun(run: seq<Skills>) {
    && |run| > 0 && run[0] == Skills([], [])
    && forall i {:trigger Steps(run[i - 1], run[i])} :: 0 < i < |run| ==> Steps(run[i - 1], run[i])
  }

  // ---------------------------------------------------------------- invariants

  /** How many versions of the pair there are. */
  function Rank(versions: seq<Version>, key: Key): nat {
    if versions == [] then 0
    else
      var n := |versions| - 1;
      Rank(versions[..n], key) + if versions[n].key == key then 1 else 0
  }

  predicate IsNewest(versions: seq<Version>, i: nat)
    requires i < |versions|
  {
    forall j :: i < j < |versions| ==> versions[j].key != versions[i].key
  }

  ghost predicate Numbered(versions: seq<Version>, i: nat)
    requires i < |versions|
  {
    versions[i].version == VersionText(1, 0, Rank(versions[..i], versions[i].key))
  }

  ghost predicate Inv(s: Skills) {
    && (forall i :: 0 <= i < |s.versions| ==> Numbered(s.versions, i))
    && (forall i :: 0 <= i < |s.versions| ==> (s.versions[i].active <==> IsNewest(s.versions, i)))
    && (forall i :: 0 <= i < |s.versions| ==>
          var v := s.versions[i]; v.candidate < |s.candidates| && s.candidates[v.candidate].status == PUBLISHED && s.candidates[v.candidate].key == v.key)
  }

  lemma {:induction false} RankSplit(x: seq<Version>, y: seq<Version>, key: Key)
    ensures Rank(x + y, key) == Rank(x, key) + Rank(y, key)
  {
    if y == [] {
      assert x + y == x;
    } else {
      var n := |y| - 1;
      assert (x + y)[..|x| + n] == x + y[..n];
      RankSplit(x, y[..n], key);
    }
  }

  lemma {:induction false} RankIgnoresRetiring(versions: seq<Version>, retired: Key, key: Key)
    ensures Rank(Retired(versions, retired), key) == Rank(versions, key)
  {
    if versions != [] {
      var n := |versions| - 1;
      assert Retired(versions, retired)[..n] == Retired(versions[..n], retired);
      RankIgnoresRetiring(versions[..n], retired, key);
    }
  }

  /** Every rank below the number of versions is some version's rank. */
  lemma {:induction false} RankHit(versions: seq<Version>, key: Key, rank: nat) returns (i: nat)
    requires rank < Rank(versions, key)
    ensures i < |versions| && versions[i].key == key && Rank(versions[..i], key) == rank
  {
    var n := |versions| - 1;
    if rank < Rank(versions[..n], key) {
      i := RankHit(versions[..n], key, rank);
      assert versions[..n][..i] == versions[..i];
    } else {
      i := n;
    }
  }

  /** A version's rank is below the number of versions, and is the last rank exactly for the newest version. */
  lemma RankOfRow(versions: seq<Version>, i: nat)
    requires i < |versions|
    ensures var key := versions[i].key;
      Rank(versions[..i], key) < Rank(versions, key) && (Rank(versions[..i], key) + 1 == Rank(versions, key) <==> IsNewest(versions, i))
  {
    hide Rank;
    var key := versions[i].key;
    var rest := versions[i + 1..];
    assert versions == versions[..i] + [versions[i]] + rest;
    RankSplit(versions[..i] + [versions[i]], rest, key);
    RankSplit(versions[..i], [versions[i]], key);
    RankOne(versions[i]);
    RankZero(rest, key);
    assert forall j :: 0 <= j < |rest| ==> rest[j] == versions[i + 1 + j];
    assert forall j :: i < j < |versions| ==> versions[j] == rest[j - i - 1];
  }

  lemma RankOne(v: Version)
    ensures Rank([v], v.key) == 1
  {
    assert [v][..0] == [];
  }

  lemma {:induction false} RankZero(versions: seq<Version>, key: Key)
    ensures Rank(versions, key) == 0 <==> forall j :: 0 <= j < |versions| ==> versions[j].key != key
  {
    if versions != [] {
      var n := |versions| - 1;
      RankZero(versions[..n], key);
      if Rank(versions[..n], key) != 0 {
        var j :| 0 <= j < n && versions[..n][j].key == key;
        assert versions[j].key == key;
      }
    }
  }

  /** No row carries a number that is not below the number of rows. */
  lemma FreeNumber(versions: seq<Version>, key: Key, i: nat, n: nat)
    requires i < |versions| && Numbered(versions, i) && versions[i].key == key && n >= Rank(versions, key)
    ensures versions[i].version != VersionText(1, 0, n)
  {
    hide Rank, VersionText, NextPatchVersion, IsVersion, IsNewest;
    RankOfRow(versions, i);
    NextPatch(1, 0, Rank(versions[..i], key), n);
  }

  /** Every number below the number of rows is taken. */
  lemma TakenNumber(versions: seq<Version>, key: Key, n: nat)
    requires n < Rank(versions, key) && forall i :: 0 <= i < |versions| ==> Numbered(versions, i)
    ensures Taken(versions, key, VersionText(1, 0, n))
  {
    hide Rank, VersionText;
    var i := RankHit(versions, key, n);
    assert Numbered(versions, i);
  }

  /** The number after a row's number is free exactly when the row is its pair's newest. */
  lemma NextNumber(versions: seq<Version>, l: nat)
    requires l < |versions| && forall i :: 0 <= i < |versions| ==> Numbered(versions, i)
    ensures var key := versions[l].key; var r := Rank(versions[..l], key);
      && NextPatchVersion(Some(versions[l].version)) == Some(VersionText(1, 0, r + 1)) && IsVersion(VersionText(1, 0, r + 1))
      && (IsNewest(versions, l) <==> !Taken(versions, key, VersionText(1, 0, r + 1)))
      && (IsNewest(versions, l) ==> r + 1 == Rank(versions, key))
  {
    hide NextPatchVersion, IsVersion, VersionText, Rank, IsNewest;
    var key := versions[l].key;
    var r := Rank(versions[..l], key);
    RankOfRow(versions, l);
    assert Numbered(versions, l);
    NextPatch(1, 0, r, 0);
    NextPatch(1, 0, r + 1, 0);
    hide Numbered;
    if IsNewest(versions, l) {
      forall i | 0 <= i < |versions| && versions[i].key == key ensures versions[i].version != VersionText(1, 0, r + 1) {
        FreeNumber(versions, key, i, r + 1);
      }
    } else {
      TakenNumber(versions, key, r + 1);
    }
  }

  lemma FirstNumber(versions: seq<Version>, key: Key)
    requires forall j :: 0 <= j < |versions| ==> versions[j].key != key
    ensures NextPatchVersion(None) == Some(VersionText(1, 0, 0)) && IsVersion(VersionText(1, 0, 0))
    ensures Rank(versions, key) == 0 && !Taken(versions, key, VersionText(1, 0, 0))
  {
    FirstVersion();
    RankZero(versions, key);
    NextPatch(1, 0, 0, 0);
  }

  lemma PendingIsUnpublished(s: Skills, candidate: nat)
    requires Inv(s) && candidate < |s.candidates| && s.candidates[candidate].status == PENDING_REVIEW
    ensures OfCandidate(s.versions, candidate).None?
    ensures forall i :: 0 <= i < |s.versions| ==> Numbered(s.versions, i)
  {
  }

  /** What publishing a pending candidate does, in any state that satisfies the invariant: it succeeds exactly
      when the row the clock makes latest is the newest one, and otherwise hits the unique constraint. */
  lemma PublishOutcome(s: Skills, candidate: nat, now: int, pick: nat)
    requires Inv(s) && candidate < |s.candidates| && s.candidates[candidate].status == PENDING_REVIEW
    ensures var (t, reply) := Publish(s, candidate, now, pick);
      var latest := Latest(s.versions, s.candidates[candidate].key, pick);
      && (latest.None? || IsNewest(s.versions, latest.value) ==>
            reply == Returned(|s.versions|) && t == Inserted(s, candidate, now))
      && (latest.Some? && !IsNewest(s.versions, latest.value) ==> reply == Conflict && t == s)
  {
    hide Numbered, Latest, NextPatchVersion, IsVersion, VersionText, Retired, Inv, IsNewest, Rank, Taken;
    var key := s.candidates[candidate].key;
    var latest := Latest(s.versions, key, pick);
    PendingIsUnpublished(s, candidate);
    if latest.None? {
      FirstNumber(s.versions, key);
    } else {
      NextNumber(s.versions, latest.value);
    }
  }

  /** The pair's rows retired and the next number added. */
  function Inserted(s: Skills, candidate: nat, now: int): Skills
    requires candidate < |s.candidates|
  {
    var c := s.candidates[candidate];
    var version := VersionText(1, 0, Rank(s.versions, c.key));
    Skills(s.candidates[candidate := c.(proposed := version, status := PUBLISHED)],
           Retired(s.versions, c.key) + [Version(candidate, c.key, version, true, now)])
  }

  lemma PublishKeeps(s: Skills, candidate: nat, now: int, pick: nat)
    requires Inv(s)
    ensures Inv(Publish(s, candidate, now, pick).0)
  {
    if candidate < |s.candidates| && s.candidates[candidate].status == PENDING_REVIEW {
      PublishOutcome(s, candidate, now, pick);
      hide Publish, Latest;
      var key := s.candidates[candidate].key;
      var latest := Latest(s.versions, key, pick);
      if latest.None? || IsNewest(s.versions, latest.value) {
        InsertKeeps(s, candidate, now);
      }
    }
  }

  lemma InsertKeeps(s: Skills, candidate: nat, now: int)
    requires Inv(s) && candidate < |s.candidates| && s.candidates[candidate].status == PENDING_REVIEW
    ensures Inv(Inserted(s, candidate, now))
  {
    hide VersionText;
    var key := s.candidates[candidate].key;
    var t := Inserted(s, candidate, now).versions;
    var n := |s.versions|;
    forall i | 0 <= i < |t| ensures Numbered(t, i) {
      if i < n {
        assert t[..i] == Retired(s.versions[..i], key);
        RankIgnoresRetiring(s.versions[..i], key, t[i].key);
        assert Numbered(s.versions, i);
      } else {
        assert t[..i] == Retired(s.versions, key);
        RankIgnoresRetiring(s.versions, key, key);
      }
    }
    forall i | 0 <= i < |t| ensures t[i].active <==> IsNewest(t, i) {
      if i < n {
        assert t[n].key == key;
        assert IsNewest(t, i) <==> IsNewest(s.versions, i) && s.versions[i].key != key;
      }
    }
  }

  lemma {:induction false} RunKeeps(run: seq<Skills>, i: nat)
    requires IsRun(run) && i < |run|
    ensures Inv(run[i])
  {
    hide Inv, Steps;
    if i > 0 {
      RunKeeps(run, i - 1);
      assert Steps(run[i - 1], run[i]);
      StepKeeps(run[i - 1], run[i]);
    } else {
      StartsWell();
    }
  }

  lemma StartsWell()
    ensures Inv(Skills([], []))
  {
  }

  lemma StepKeeps(s: Skills, t: Skills)
    requires Inv(s) && Steps(s, t)
    ensures Inv(t)
  {
    hide Inv, Next;
    var a :| t == Next(s, a);
    NextKeeps(s, a);
  }

  lemma NextKeeps(s: Skills, a: Action)
    requires Inv(s)
    ensures Inv(Next(s, a))
  {
    hide Inv, Publish, NextPatchVersion, IsVersion;
    match a
    case CreateAction(_, _, _, _) => SameVersionsKeep(s, Next(s, a));
    case PublishAction(c, now, pick) => PublishKeeps(s, c, now, pick);
    case RejectAction(_) => SameVersionsKeep(s, Next(s, a));
  }

  lemma SameVersionsKeep(s: Skills, t: Skills)
    requires Inv(s) && t.versions == s.versions && |s.candidates| <= |t.candidates|
    requires forall c :: 0 <= c < |s.candidates| && s.candidates[c].status == PUBLISHED ==> t.candidates[c] == s.candidates[c]
    ensures Inv(t)
  {
  }

  // ---------------------------------------------------------------- guarantees

  /** In every state of every run, whatever the clock did, each version carries the number of earlier versions
      of its pair as its patch number, and is active exactly when it is the pair's newest. */
  lemma VersionsAreNumbered(run: seq<Skills>, n: nat, i: nat)
    requires IsRun(run) && n < |run| && i < |run[n].versions|
    ensures var vs := run[n].versions;
      && vs[i].version == VersionText(1, 0, Rank(vs[..i], vs[i].key))
      && (vs[i].active <==> IsNewest(vs, i))
  {
    RunKeeps(run, n);
    assert Numbered(run[n].versions, i);
  }

  /** The patch number after the version that the clock makes latest, 0 when there is none. */
  function NextRank(versions: seq<Version>, key: Key, pick: nat): nat {
    var latest := Latest(versions, key, pick);
    if latest.None? then 0 else Rank(versions[..latest.value], key) + 1
  }

  lemma NextText(versions: seq<Version>, key: Key, pick: nat)
    requires forall i :: 0 <= i < |versions| ==> Numbered(versions, i)
    ensures NextPatchVersion(LatestText(versions, key, pick)) == Some(VersionText(1, 0, NextRank(versions, key, pick)))
    ensures IsVersion(VersionText(1, 0, NextRank(versions, key, pick)))
  {
    hide Latest, NextPatchVersion, IsVersion, VersionText, Rank, Taken, IsNewest, Numbered;
    var latest := Latest(versions, key, pick);
    if latest.None? {
      FirstNumber(versions, key);
    } else {
      NextNumber(versions, latest.value);
    }
  }

  /** In every reachable state a candidate is created exactly for a published experience without one, and
      proposes the number after the version that the clock makes latest, 1.0.0 when there is none. */
  lemma CandidateIsCreatedExactly(run: seq<Skills>, n: nat, experience: nat, published: bool, key: Key, pick: nat)
    requires IsRun(run) && n < |run|
    ensures var s := run[n]; var t := CreateCandidate(s, experience, published, key, pick);
      if published && forall c :: 0 <= c < |s.candidates| ==> s.candidates[c].experience != experience then
        t == s.(candidates := s.candidates + [Candidate(experience, key, VersionText(1, 0, NextRank(s.versions, key, pick)), PENDING_REVIEW)])
      else t == s
  {
    RunKeeps(run, n);
    hide NextPatchVersion, IsVersion, VersionText, NextRank, LatestText, Numbered, IsNewest;
    NextText(run[n].versions, key, pick);
  }

  /** Exactly one version of a pair is active once any is published, and none before. */
  lemma ExactlyOneActive(run: seq<Skills>, n: nat, key: Key)
    requires IsRun(run) && n < |run|
    ensures var active := set i | 0 <= i < |run[n].versions| && run[n].versions[i].key == key && run[n].versions[i].active;
      |active| == if Rank(run[n].versions, key) > 0 then 1 else 0
  {
    RunKeeps(run, n);
    var vs := run[n].versions;
    var active := set i | 0 <= i < |vs| && vs[i].key == key && vs[i].active;
    RankZero(vs, key);
    if Rank(vs, key) > 0 {
      var i := RankHit(vs, key, Rank(vs, key) - 1);
      RankOfRow(vs, i);
      forall j | j in active ensures j == i { assert IsNewest(vs, j); }
      assert active == {i};
    } else {
      assert active == {};
    }
  }

  /** In every reachable state a pending candidate is published, as the next number, exactly when the version
      with the greatest publication time is the pair's newest; in particular whenever publication times have
      increased strictly. Then all versions of the pair but the new one are inactive and the candidate is marked;
      nothing else changes. The only other outcome is the refused duplicate number. */
  lemma PublicationSucceedsExactly(run: seq<Skills>, n: nat, candidate: nat, now: int, pick: nat)
    requires IsRun(run) && n < |run| && candidate < |run[n].candidates| && run[n].candidates[candidate].status == PENDING_REVIEW
    ensures var s := run[n]; var (t, reply) := Publish(s, candidate, now, pick); var c := s.candidates[candidate];
      var latest, text := Latest(s.versions, c.key, pick), VersionText(1, 0, Rank(s.versions, c.key));
      && (reply.Returned? <==> latest.None? || IsNewest(s.versions, latest.value))
      && (!reply.Returned? ==> reply == Conflict && t == s)
      && (reply.Returned? ==>
            && reply == Returned(|s.versions|)
            && t.candidates == s.candidates[candidate := c.(proposed := text, status := PUBLISHED)]
            && |t.versions| == |s.versions| + 1 && t.versions[|s.versions|] == Version(candidate, c.key, text, true, now)
            && forall i :: 0 <= i < |s.versions| ==>
                 t.versions[i] == if s.versions[i].key == c.key then s.versions[i].(active := false) else s.versions[i])
      && (Increasing(s.versions, c.key) ==> reply.Returned?)
  {
    RunKeeps(run, n);
    PublishOutcome(run[n], candidate, now, pick);
    hide Publish, VersionText;
  }

  /** A candidate is marked published exactly when it has a version. */
  ghost predicate PublishedOk(s: Skills) {
    forall c :: 0 <= c < |s.candidates| ==> (s.candidates[c].status == PUBLISHED <==> HasVersion(s.versions, c))
  }

  ghost predicate HasVersion(versions: seq<Version>, c: nat) { exists i :: 0 <= i < |versions| && versions[i].candidate == c }

  lemma StepPublished(s: Skills, a: Action)
    requires Inv(s) && PublishedOk(s)
    ensures PublishedOk(Next(s, a))
  {
    hide Publish, Inv, PublishedOk, NextPatchVersion, IsVersion, Latest, Proposed;
    match a
    case CreateAction(_, _, _, _) => NewIsUnpublished(s, Next(s, a));
    case RejectAction(_) => RejectingKeepsPublished(s, a);
    case PublishAction(c, now, pick) => PublishingKeepsPublished(s, c, now, pick);
  }

  lemma RejectingKeepsPublished(s: Skills, a: Action)
    requires PublishedOk(s) && a.RejectAction?
    ensures PublishedOk(Next(s, a))
  {
    hide HasVersion;
  }

  lemma PublishingKeepsPublished(s: Skills, c: nat, now: int, pick: nat)
    requires Inv(s) && PublishedOk(s)
    ensures PublishedOk(Publish(s, c, now, pick).0)
  {
    var t := Publish(s, c, now, pick).0;
    if c < |s.candidates| && s.candidates[c].status == PENDING_REVIEW {
      PublishOutcome(s, c, now, pick);
      hide Publish, Latest, Inv, VersionText, Rank, IsNewest;
      if t != s {
        assert t.versions[|s.versions|].candidate == c;
        forall d: nat | d != c ensures HasVersion(t.versions, d) <==> HasVersion(s.versions, d) {
          if HasVersion(s.versions, d) {
            var i :| 0 <= i < |s.versions| && s.versions[i].candidate == d;
            assert t.versions[i].candidate == d;
          }
        }
      }
    }
  }

  lemma NewIsUnpublished(s: Skills, t: Skills)
    requires Inv(s) && PublishedOk(s) && t.versions == s.versions && s.candidates <= t.candidates
    requires forall c :: |s.candidates| <= c < |t.candidates| ==> t.candidates[c].status == PENDING_REVIEW
    ensures PublishedOk(t)
  {
  }

  lemma {:induction false} RunPublished(run: seq<Skills>, i: nat)
    requires IsRun(run) && i < |run|
    ensures PublishedOk(run[i])
  {
    if i > 0 {
      RunPublished(run, i - 1);
      RunKeeps(run, i - 1);
      assert Steps(run[i - 1], run[i]);
      hide Inv, PublishedOk, Steps;
      StepsPublished(run[i - 1], run[i]);
    }
  }

  lemma StepsPublished(s: Skills, t: Skills)
    requires Inv(s) && PublishedOk(s) && Steps(s, t)
    ensures PublishedOk(t)
  {
    hide Inv, Next, PublishedOk;
    var a :| t == Next(s, a);
    StepPublished(s, a);
  }

  /** Publishing a published candidate again returns its version, a rejected or unknown one is refused, and
      nothing changes; a rejection marks exactly a pending candidate. */
  lemma OthersAreRefused(run: seq<Skills>, n: nat, candidate: nat, now: int, pick: nat)
    requires IsRun(run) && n < |run|
    ensures var s := run[n]; var (t, reply) := Publish(s, candidate, now, pick);
      && (reply == NotFound <==> candidate >= |s.candidates|)
      && (candidate < |s.candidates| && s.candidates[candidate].status == REJECTED ==> reply == NotPending && t == s)
      && (candidate < |s.candidates| && s.candidates[candidate].status == PUBLISHED ==>
            reply.Returned? && reply.version < |s.versions| && s.versions[reply.version].candidate == candidate && t == s)
      && Reject(s, candidate) ==
           if candidate < |s.candidates| && s.candidates[candidate].status == PENDING_REVIEW
           then s.(candidates := s.candidates[candidate := s.candidates[candidate].(status := REJECTED)]) else s
  {
    RunPublished(run, n);
    hide IsRun, OfCandidate, NextPatchVersion, IsVersion, LatestText;
    var existing := OfCandidate(run[n].versions, candidate);
    if candidate < |run[n].candidates| {
      assert existing.Some? <==> HasVersion(run[n].versions, candidate);
    }
  }

  /** Publication times of the pair increase strictly. */
  predicate Increasing(versions: seq<Version>, key: Key) {
    forall i, j :: 0 <= i < j < |versions| && versions[i].key == key && versions[j].key == key ==>
      versions[i].publishedAt < versions[j].publishedAt
  }
}
