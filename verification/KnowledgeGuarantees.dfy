/** What generation-based publishing guarantees over every interleaving of publishers, readers and faults. */
module KnowledgeGuarantees {
  import opened Options
  import opened KnowledgeStore

  lemma {:induction false} RunKeeps(run: seq<State>, i: nat)
    requires IsRun(run) && i < |run|
    ensures Inv(run[i])
  {
    hide Inv, Next;
    if i == 0 {
      EmptyIsOk();
    } else {
      RunKeeps(run, i - 1);
      assert Steps(run[i - 1], run[i]);
      var a :| run[i] == Next(run[i - 1], a);
      StepKeeps(run[i - 1], a);
    }
  }

  lemma EmptyIsOk()
    ensures Inv(EMPTY)
  {
  }

  /** Imports never change, and requests and captures are only added. */
  lemma {:induction false} HistoryGrows(run: seq<State>, i: nat, j: nat)
    requires IsRun(run) && i <= j < |run|
    ensures run[i].imports <= run[j].imports && run[i].sent <= run[j].sent && run[i].captures <= run[j].captures
    decreases j
  {
    if i < j {
      hide Next;
      HistoryGrows(run, i, j - 1);
      assert Steps(run[j - 1], run[j]);
      var a :| run[j] == Next(run[j - 1], a);
      StepGrows(run[j - 1], a);
    }
  }

  lemma StepGrows(s: State, a: Action)
    ensures var t := Next(s, a); s.imports <= t.imports && s.sent <= t.sent && s.captures <= t.captures
  {
  }

  // ---------------------------------------------------------------- refinement

  /** The specification: a table of project contents. */
  type Contents = map<string, set<Row>>

  function Abstract(s: State): Contents { map p | p in s.manifest :: Visible(s, p) }

  /** The one step that publishes: the server applies a manifest upsert that was sent. */
  ghost predicate Publishes(s: State, a: Action, g: Generation) {
    a == Deliver(SetManifest(g)) && a.request in s.sent
  }

  /** Every step is invisible to readers except the manifest upsert, which replaces the whole contents of
      one project, atomically, by the rows of one import. */
  lemma RefinesAtomicReplace(s: State, a: Action)
    requires Inv(s)
    ensures var t := Next(s, a);
      if g: Generation :| Publishes(s, a, g)
      then g < |s.imports| && Abstract(t) == Abstract(s)[s.imports[g].project := ImportRows(s.imports[g])]
      else Abstract(t) == Abstract(s)
  {
    if g: Generation :| Publishes(s, a, g) {
      PublishStep(s, a, g);
    } else {
      hide Inv, Next, Visible;
      StaysVisible(s, a);
    }
  }

  /** One step of the specification: nothing, or one project's contents replaced by one whole import. */
  ghost predicate AtomicStep(x: Contents, y: Contents, imports: seq<Import>) {
    y == x || exists g :: 0 <= g < |imports| && y == x[imports[g].project := ImportRows(imports[g])]
  }

  /** Every run, seen by readers, is a run of the specification that starts empty. */
  lemma EveryRunRefines(run: seq<State>, i: nat)
    requires IsRun(run) && i < |run|
    ensures i == 0 ==> Abstract(run[i]) == map[]
    ensures i > 0 ==> AtomicStep(Abstract(run[i - 1]), Abstract(run[i]), run[i - 1].imports)
  {
    hide Inv, Next, Visible;
    if i > 0 {
      RunKeeps(run, i - 1);
      assert Steps(run[i - 1], run[i]);
      var a :| run[i] == Next(run[i - 1], a);
      RefinesAtomicReplace(run[i - 1], a);
    }
  }

  lemma PublishStep(s: State, a: Action, g: Generation)
    requires Inv(s) && Publishes(s, a, g)
    ensures g < |s.imports| && Abstract(Next(s, a)) == Abstract(s)[s.imports[g].project := ImportRows(s.imports[g])]
  {
    hide Visible, Complete, ImportOk, RowOk, CaptureOk, PointerOk;
    assert RequestOk(s, a.request);
    var t := Next(s, a);
    var i := s.imports[g];
    assert t.manifest == s.manifest[i.project := Snapshot(g, i.model, i.dimension)] && t.imports == s.imports;
    DeliverKeeps(s, a.request);
    ReadersFollow(s, t, g);
  }

  /** Moving one project's pointer changes what readers of that project see, and nothing else. */
  lemma ReadersFollow(s: State, t: State, g: Generation)
    requires Inv(s) && Inv(t) && g < |s.imports| && t.imports == s.imports
    requires var i := s.imports[g]; t.manifest == s.manifest[i.project := Snapshot(g, i.model, i.dimension)]
    ensures Abstract(t) == Abstract(s)[s.imports[g].project := ImportRows(s.imports[g])]
  {
    hide Inv, Visible;
    var i := s.imports[g];
    forall q | q in t.manifest ensures Visible(t, q) == if q == i.project then ImportRows(i) else Visible(s, q) {
      VisibleIsExact(t, q);
      if q != i.project { VisibleIsExact(s, q); }
    }
  }

  lemma StaysVisible(s: State, a: Action)
    requires Inv(s) && forall g: Generation :: !Publishes(s, a, g)
    ensures Next(s, a).manifest == s.manifest && forall p :: Visible(Next(s, a), p) == Visible(s, p)
  {
    OnlyPublishingMovesPointers(s, a);
    hide Inv, Next, Visible;
    match a
    case Begin(_, _, _, _) => BeginKeeps(s, a);
    case Deliver(r) =>
      if r.SetManifest? {
        assert !Publishes(s, a, r.generation);
        Undelivered(s, r);
      } else {
        DeliverKeeps(s, r);
      }
    case DeliverPart(r, kept) => PartKeeps(s, r, kept);
    case Verify(g, answered) => VerifyKeeps(s, g, answered);
    case Preflight(_, _, _) => PreflightKeeps(s, a);
    case _ => PublisherKeeps(s, a);
  }

  lemma OnlyPublishingMovesPointers(s: State, a: Action)
    requires forall g: Generation :: !Publishes(s, a, g)
    ensures Next(s, a).manifest == s.manifest
  {
    if a.Deliver? && a.request.SetManifest? { assert !Publishes(s, a, a.request.generation); }
  }

  lemma Undelivered(s: State, r: Request)
    requires r !in s.sent
    ensures Next(s, Deliver(r)) == s
  {
  }

  /** In every state, the active pointer and every pointer a reader has ever captured name a generation
      whose stored rows are exactly the rows of the one import that built it. */
  lemma PointersAreExact(run: seq<State>, i: nat, project: string, c: nat)
    requires IsRun(run) && i < |run|
    ensures var s := run[i];
      && (project in s.manifest ==>
            && s.manifest[project].generation < |s.imports|
            && s.imports[s.manifest[project].generation].project == project
            && SnapshotRows(s.rows, project, s.manifest[project]) == ImportRows(s.imports[s.manifest[project].generation]))
      && (c < |s.captures| ==>
            var cap := s.captures[c];
            && cap.snapshot.generation < |s.imports|
            && SnapshotRows(s.rows, cap.project, cap.snapshot) == ImportRows(s.imports[cap.snapshot.generation]) == cap.visible)
  {
    RunKeeps(run, i);
    var s := run[i];
    if project in s.manifest { VisibleIsExact(s, project); assert PointerOk(s, project, s.manifest[project]); }
    if c < |s.captures| {
      assert CaptureOk(s, s.captures[c]);
      assert RequestOk(s, SetManifest(s.captures[c].snapshot.generation));
      ExactRows(s, s.captures[c].snapshot.generation);
    }
  }

  // ---------------------------------------------------------------- searches

  /** The scalar filter of a search; None leaves a field unconstrained. */
  datatype Query = Query(
    service: Option<string>, environment: Option<string>, documentType: Option<string>, version: Option<string>)

  predicate FieldIs(c: Chunk, name: string, wanted: Option<string>) {
    wanted.Some? ==> name in c.fields && c.fields[name] == wanted.value
  }

  predicate Matches(c: Chunk, q: Query) {
    && c.approved
    && FieldIs(c, "service", q.service) && FieldIs(c, "environment", q.environment)
    && FieldIs(c, "document_type", q.documentType) && FieldIs(c, "version", q.version)
  }

  /** The rows `hybrid_search` ranks, for a pointer read earlier. */
  function Candidates(s: State, c: Capture, q: Query): set<Row> {
    set r | r in SnapshotRows(s.rows, c.project, c.snapshot) && Matches(r.chunk, q)
  }

  /** However long after its preflight and whatever was published meanwhile, a search ranks exactly the
      matching rows that were visible when the preflight read the pointer. */
  lemma SearchesAreSnapshots(run: seq<State>, i: nat, j: nat, project: string, model: string, dimension: nat, q: Query)
    requires IsRun(run) && i + 1 <= j < |run| && run[i + 1] == Next(run[i], Preflight(project, model, dimension))
    requires run[i + 1].captures != run[i].captures
    ensures var c := |run[i].captures|;
      && |run[j].captures| > c
      && Candidates(run[j], run[j].captures[c], q) == (set r | r in Visible(run[i], project) && Matches(r.chunk, q))
      && forall r :: r in Candidates(run[j], run[j].captures[c], q) ==> r.generation == run[j].captures[c].snapshot.generation
  {
    var c := |run[i].captures|;
    HistoryGrows(run, i + 1, j);
    assert run[j].captures[c] == run[i + 1].captures[c];
    PointersAreExact(run, j, project, c);
  }

  /** A stored attribute of a chunk is what the query wants, or the query leaves it open. */
  predicate Wanted(c: Chunk, name: string, wanted: Option<string>) {
    match wanted
    case None => true
    case Some(value) => name in c.fields && c.fields[name] == value
  }

  /** What a search ranks, row by row: a row that was visible at its preflight, is approved, and has the wanted
      service, environment, document type and version, each unless the query leaves it open. */
  lemma SearchRanksExactly(run: seq<State>, i: nat, j: nat, project: string, model: string, dimension: nat, q: Query, r: Row)
    requires IsRun(run) && i + 1 <= j < |run| && run[i + 1] == Next(run[i], Preflight(project, model, dimension))
    requires run[i + 1].captures != run[i].captures
    ensures |run[i].captures| < |run[j].captures|
    ensures r in Candidates(run[j], run[j].captures[|run[i].captures|], q) <==>
      && r in Visible(run[i], project) && r.chunk.approved
      && Wanted(r.chunk, "service", q.service) && Wanted(r.chunk, "environment", q.environment)
      && Wanted(r.chunk, "document_type", q.documentType) && Wanted(r.chunk, "version", q.version)
  {
    SearchesAreSnapshots(run, i, j, project, model, dimension, q);
    hide IsRun, Next, Visible, Candidates;
  }

  /** A preflight captures the active pointer exactly when there is one for the configured model and dimension; the
      captured pointer is that one, and nothing else changes. */
  lemma PreflightExactly(s: State, project: string, model: string, dimension: nat)
    requires Inv(s)
    ensures var t := Next(s, Preflight(project, model, dimension));
      if project in s.manifest && s.manifest[project].model == model && s.manifest[project].dimension == dimension then
        t == s.(captures := s.captures + [Capture(project, Snapshot(s.manifest[project].generation, model, dimension), Visible(s, project))])
      else t == s
  {
    hide Visible, RowOk, RequestOk, Complete, ImportOk, CaptureOk, PointerOk;
  }

  // ---------------------------------------------------------------- publishers

  /** A build goes on after a batch exactly when the reported count is the size of the batch, and is verified
      exactly when the stored keys were read and are its own; otherwise it cleans up. */
  lemma BuildStepsExactly(s: State, g: Generation, count: Option<nat>, answered: bool)
    requires Inv(s) && g < |s.phases|
    ensures s.phases[g].AwaitingRows? && (count.Some? ==> s.phases[g].applied) ==>
      Next(s, AnswerRows(g, count)).phases[g] ==
        if count == Some(s.phases[g].hi - s.phases[g].lo) then Writing(s.phases[g].hi) else CleaningUp
    ensures s.phases[g] == Writing(|s.imports[g].rows|) ==>
      var own := set r | r in s.imports[g].rows :: PkOf(r);
      var stored := set k | k in s.rows && s.rows[k].chunk.project == s.imports[g].project && s.rows[k].generation == g;
      Next(s, Verify(g, answered)).phases[g] == if answered && stored == own then Verified else CleaningUp
  {
    hide RowOk, RequestOk, Complete, CaptureOk, PointerOk;
    if s.phases[g] == Writing(|s.imports[g].rows|) {
      assert GenerationKeys(s.rows, s.imports[g].project, g)
          == set k | k in s.rows && s.rows[k].chunk.project == s.imports[g].project && s.rows[k].generation == g;
    }
    hide ImportOk;
  }

  /** A build that cleans up asks for its own rows to be dropped and reports that it failed; a verified one asks for
      the pointer to its own generation; its publication counts as failed exactly when one written row is not
      reported, and a success is only reported once the pointer has been written. */
  lemma PublishStepsExactly(s: State, g: Generation, count: Option<nat>)
    requires Inv(s) && g < |s.phases|
    ensures s.phases[g].CleaningUp? ==>
      Next(s, CleanUp(g)) == s.(phases := s.phases[g := Raised(BUILD_FAILED)], sent := s.sent + {DropGeneration(g)})
    ensures s.phases[g].Verified? ==>
      Next(s, SendManifest(g)) == s.(phases := s.phases[g := AwaitingManifest(false)], sent := s.sent + {SetManifest(g)})
    ensures s.phases[g].AwaitingManifest? ==> var t := Next(s, AnswerManifest(g, count));
      if count != None && !s.phases[g].applied then t == s else t == s.(phases := s.phases[g := ReadingBack(count != Some(1))])
  {
    hide RowOk, RequestOk, Complete, CaptureOk, PointerOk, ImportOk;
  }

  /** A row of the slice has this key. */
  predicate WrittenBy(rows: seq<Row>, lo: nat, hi: nat, k: Pk) {
    exists n :: lo <= n < hi <= |rows| && rows[n].generation == k.generation && rows[n].chunk.id == k.chunkId
  }

  /** A delivered cleanup removes exactly the rows of its generation; one that takes effect in part, some of them. */
  lemma DropExactly(s: State, g: Generation, kept: Pk -> bool, k: Pk)
    requires Inv(s) && DropGeneration(g) in s.sent
    ensures var t := Next(s, Deliver(DropGeneration(g)));
      && t == s.(rows := t.rows)
      && (k in t.rows <==> k in s.rows && k.generation != g)
      && (k in t.rows ==> t.rows[k] == s.rows[k])
    ensures var t := Next(s, DeliverPart(DropGeneration(g), kept));
      && t == s.(rows := t.rows)
      && (k in t.rows <==> k in s.rows && !(k.generation == g && kept(k)))
      && (k in t.rows ==> t.rows[k] == s.rows[k])
  {
    assert RequestOk(s, DropGeneration(g)) && ImportOk(s.imports[g], g);
    if k in s.rows {
      assert RowOk(s, k);
    }
  }

  /** A delivered batch adds exactly its rows; one that takes effect in part, some of them. Stored rows stay. */
  lemma PutExactly(s: State, g: Generation, lo: nat, hi: nat, kept: Pk -> bool, k: Pk)
    requires Inv(s) && PutRows(g, lo, hi) in s.sent
    ensures g < |s.imports|
    ensures var t := Next(s, Deliver(PutRows(g, lo, hi)));
      && t == s.(rows := t.rows, phases := t.phases)
      && (k in t.rows <==> k in s.rows || WrittenBy(s.imports[g].rows, lo, hi, k))
      && (k in t.rows && k in s.rows ==> t.rows[k] == s.rows[k])
    ensures var t := Next(s, DeliverPart(PutRows(g, lo, hi), kept));
      && t == s.(rows := t.rows)
      && (k in t.rows <==> k in s.rows || (kept(k) && WrittenBy(s.imports[g].rows, lo, hi, k)))
      && (k in t.rows && k in s.rows ==> t.rows[k] == s.rows[k])
  {
    assert RequestOk(s, PutRows(g, lo, hi));
    PutAll(s, g, lo, hi);
    PutPart(s, g, lo, hi, kept);
    DeliverKeeps(s, PutRows(g, lo, hi));
    PartKeeps(s, PutRows(g, lo, hi), kept);
    var t, u := Next(s, Deliver(PutRows(g, lo, hi))), Next(s, DeliverPart(PutRows(g, lo, hi), kept));
    hide Next, Put, Inv, WrittenBy, RequestOk;
    PutKeys(s.rows, s.imports[g].rows, lo, hi, _ => true, k);
    PutKeys(s.rows, s.imports[g].rows, lo, hi, kept, k);
    if k in s.rows {
      SameRow(s, t, k);
      SameRow(s, u, k);
    }
  }

  lemma PutAll(s: State, g: Generation, lo: nat, hi: nat)
    requires |s.phases| == |s.imports| && PutRows(g, lo, hi) in s.sent && g < |s.imports| && lo <= hi <= |s.imports[g].rows|
    ensures var t := Next(s, Deliver(PutRows(g, lo, hi)));
      t == s.(rows := Put(s.rows, s.imports[g].rows[lo..hi], _ => true), phases := t.phases)
  {
    hide Put, Visible;
  }

  lemma PutPart(s: State, g: Generation, lo: nat, hi: nat, kept: Pk -> bool)
    requires |s.phases| == |s.imports| && PutRows(g, lo, hi) in s.sent && g < |s.imports| && lo <= hi <= |s.imports[g].rows|
    ensures Next(s, DeliverPart(PutRows(g, lo, hi), kept)) == s.(rows := Put(s.rows, s.imports[g].rows[lo..hi], kept))
  {
    hide Put, Visible;
  }

  lemma PutKeys(rows: map<Pk, Row>, all: seq<Row>, lo: nat, hi: nat, kept: Pk -> bool, k: Pk)
    requires lo <= hi <= |all|
    ensures k in Put(rows, all[lo..hi], kept) <==> k in rows || (kept(k) && WrittenBy(all, lo, hi, k))
  {
    var batch := all[lo..hi];
    PutResult(rows, batch, kept);
    if WrittenBy(all, lo, hi, k) {
      var n :| lo <= n < hi <= |all| && all[n].generation == k.generation && all[n].chunk.id == k.chunkId;
      assert batch[n - lo] == all[n];
    }
    var t := Put(rows, batch, kept);
    if k in t && k !in rows {
      var n :| 0 <= n < |batch| && batch[n] == t[k] && PkOf(batch[n]) == k;
      assert all[lo + n] == t[k];
      OnlyKept(rows, batch, kept, k);
    }
  }

  lemma {:induction false} OnlyKept(rows: map<Pk, Row>, batch: seq<Row>, kept: Pk -> bool, k: Pk)
    requires k in Put(rows, batch, kept) && k !in rows
    ensures kept(k)
  {
    if batch != [] && k in Put(rows, batch[..|batch| - 1], kept) {
      OnlyKept(rows, batch[..|batch| - 1], kept, k);
    }
  }

  /** A build sends its next hundred rows, or those that are left. The answer counts the rows only once that batch
      was delivered in full, and likewise for the pointer. A publisher may die at any moment before it returned. */
  lemma SendingExactly(s: State, g: Generation, request: Request)
    requires Inv(s) && g < |s.phases|
    ensures s.phases[g].Writing? && s.phases[g].next < |s.imports[g].rows| ==>
      var lo, n := s.phases[g].next, |s.imports[g].rows|; var hi := if n - lo <= 100 then n else lo + 100;
      Next(s, SendRows(g)) == s.(phases := s.phases[g := AwaitingRows(lo, hi, false)], sent := s.sent + {PutRows(g, lo, hi)})
    ensures !(s.phases[g].Writing? && s.phases[g].next < |s.imports[g].rows|) ==> Next(s, SendRows(g)) == s
    ensures request in s.sent ==>
      Next(s, Deliver(request)).phases ==
        match s.phases[request.generation]
        case AwaitingRows(lo, hi, _) =>
          if request == PutRows(request.generation, lo, hi) then s.phases[request.generation := AwaitingRows(lo, hi, true)] else s.phases
        case AwaitingManifest(_) =>
          if request == SetManifest(request.generation) then s.phases[request.generation := AwaitingManifest(true)] else s.phases
        case _ => s.phases
    ensures Next(s, Die(g)) == if s.phases[g].Returned? then s else s.(phases := s.phases[g := Raised(DIED)])
  {
    hide Put, Visible, RowOk, ImportOk, CaptureOk, PointerOk, Complete, GenerationKeys;
    if request in s.sent {
      assert RequestOk(s, request);
    }
  }

  /** Each key belongs to one row of one import. */
  lemma SameRow(s: State, t: State, k: Pk)
    requires Inv(s) && Inv(t) && t.imports == s.imports && k in s.rows && k in t.rows
    ensures t.rows[k] == s.rows[k]
  {
    assert RowOk(s, k) && RowOk(t, k) && ImportOk(s.imports[k.generation], k.generation);
  }

  /** After the readback a publisher returns exactly when it reads its own pointer; otherwise the error says whether
      the readback failed, the metadata differ, its own write failed or another publisher came first. */
  lemma ReadBackExactly(s: State, g: Generation, answered: bool)
    requires Inv(s) && g < |s.phases| && s.phases[g].ReadingBack?
    ensures var i := s.imports[g]; var after := Next(s, ReadBack(g, answered)).phases[g];
      var named := i.project in s.manifest && s.manifest[i.project].generation == g;
      && (after.Returned? <==> answered && i.project in s.manifest && s.manifest[i.project] == Snapshot(g, i.model, i.dimension))
      && (after == Raised(UNCERTAIN) <==> !answered)
      && (after == Raised(SUPERSEDED) <==> answered && !named && !s.phases[g].failed)
      && (after == Raised(PUBLISH_FAILED) <==> answered && !named && s.phases[g].failed)
      && after != Raised(METADATA_MISMATCH)
      && Next(s, ReadBack(g, answered)) == s.(phases := s.phases[g := after])
  {
    if s.imports[g].project in s.manifest {
      assert PointerOk(s, s.imports[g].project, s.manifest[s.imports[g].project]);
    }
    hide Inv;
  }

  /** A build that cleans up, because a count was wrong, a call failed or the stored keys were not its own, is
      never published: no pointer names it at any later time. */
  lemma {:induction false} FaultyBuildIsNeverPublished(run: seq<State>, i: nat, j: nat, g: Generation)
    requires IsRun(run) && i <= j < |run| && g < |run[i].phases| && run[i].phases[g].CleaningUp?
    ensures g < |run[j].phases| && (run[j].phases[g].CleaningUp? || run[j].phases[g].Raised?) && !Attempted(run[j], g)
    ensures forall p :: p in run[j].manifest ==> run[j].manifest[p].generation != g
    ensures forall c :: 0 <= c < |run[j].captures| ==> run[j].captures[c].snapshot.generation != g
    decreases j
  {
    hide Inv, Next;
    RunKeeps(run, j);
    if i < j {
      FaultyBuildIsNeverPublished(run, i, j - 1, g);
      assert Steps(run[j - 1], run[j]);
      var a :| run[j] == Next(run[j - 1], a);
      StaysFaulty(run[j - 1], a, g);
    } else {
      NotAttempted(run[i], g);
    }
    Unnamed(run[j], g);
  }

  lemma StaysFaulty(s: State, a: Action, g: Generation)
    requires g < |s.phases| && (s.phases[g].CleaningUp? || s.phases[g].Raised?) && !Attempted(s, g)
    ensures var t := Next(s, a); g < |t.phases| && (t.phases[g].CleaningUp? || t.phases[g].Raised?) && !Attempted(t, g)
    ensures s.phases[g].Raised? ==> Next(s, a).phases[g].Raised?
  {
    if a.Deliver? {
      ApplyLeaves(s, a.request, _ => true);
    } else if a.DeliverPart? {
      ApplyLeaves(s, a.request, a.kept);
    }
    hide Visible, GenerationKeys, Apply, BuildRows, Accepts;
  }

  lemma ApplyLeaves(s: State, request: Request, kept: Pk -> bool)
    ensures var t := Apply(s, request, kept); t == s.(rows := t.rows, manifest := t.manifest)
  {
    hide Put, GenerationKeys;
  }

  lemma NotAttempted(s: State, g: Generation)
    requires Inv(s) && g < |s.phases| && s.phases[g].CleaningUp?
    ensures !Attempted(s, g)
  {
    assert SetManifest(g) in s.sent ==> RequestOk(s, SetManifest(g));
  }

  /** Cleanup is never even requested for a generation that any pointer, active or captured, names at any
      time of the run, earlier or later. */
  lemma PublishedIsNeverDropped(run: seq<State>, i: nat, j: nat, project: string, c: nat)
    requires IsRun(run) && i < |run| && j < |run|
    ensures project in run[i].manifest ==> DropGeneration(run[i].manifest[project].generation) !in run[j].sent
    ensures c < |run[i].captures| ==> DropGeneration(run[i].captures[c].snapshot.generation) !in run[j].sent
  {
    if project in run[i].manifest {
      RunKeeps(run, i);
      assert PointerOk(run[i], project, run[i].manifest[project]);
      AttemptedIsNeverDropped(run, i, j, run[i].manifest[project].generation);
    }
    if c < |run[i].captures| {
      RunKeeps(run, i);
      assert CaptureOk(run[i], run[i].captures[c]);
      AttemptedIsNeverDropped(run, i, j, run[i].captures[c].snapshot.generation);
    }
  }

  lemma AttemptedIsNeverDropped(run: seq<State>, i: nat, j: nat, g: Generation)
    requires IsRun(run) && i < |run| && j < |run| && Attempted(run[i], g)
    ensures DropGeneration(g) !in run[j].sent
  {
    var last := if i < j then j else i;
    HistoryGrows(run, i, last);
    HistoryGrows(run, j, last);
    RunKeeps(run, last);
    assert RequestOk(run[last], SetManifest(g));
    NotDropped(run[last], g);
  }

  /** A publisher returns normally only in a state where its readback finds its own generation active and
      complete, and the count it returns is the number of its rows. */
  lemma NormalReturn(run: seq<State>, i: nat, g: Generation)
    requires IsRun(run) && 0 < i < |run| && g < |run[i].phases| && run[i].phases[g].Returned?
    requires g < |run[i - 1].phases| ==> !run[i - 1].phases[g].Returned?
    ensures ReturnsRightly(run[i - 1], g, run[i].phases[g].count)
  {
    hide Inv, Next, ReturnsRightly;
    RunKeeps(run, i - 1);
    assert Steps(run[i - 1], run[i]);
    var a :| run[i] == Next(run[i - 1], a);
    ReturnStep(run[i - 1], a, g);
  }

  ghost predicate ReturnsRightly(s: State, g: Generation, count: nat) {
    && g < |s.imports| && count == |s.imports[g].rows|
    && var i := s.imports[g];
       i.project in s.manifest && s.manifest[i.project] == Snapshot(g, i.model, i.dimension) && Visible(s, i.project) == ImportRows(i)
  }

  lemma ReturnStep(s: State, a: Action, g: Generation)
    requires Inv(s) && g < |Next(s, a).phases| && Next(s, a).phases[g].Returned?
    requires g < |s.phases| ==> !s.phases[g].Returned?
    ensures ReturnsRightly(s, g, Next(s, a).phases[g].count)
  {
    hide Inv, Visible;
    assert a.ReadBack? && a.g == g;
    VisibleIsExact(s, s.imports[g].project);
  }

  /** An import is accepted exactly when it has chunks, one vector of the right dimension for each, a single project
      and no chunk id twice; it then holds exactly the given chunks with their vectors, each once, under the
      caller's model. */
  lemma ImportIsGiven(s: State, chunks: seq<Chunk>, vectors: seq<seq<real>>, model: string, dimension: nat)
    requires Inv(s)
    ensures var t := Next(s, Begin(chunks, vectors, model, dimension));
      var accepted := && chunks != [] && |chunks| == |vectors|
                      && (forall k :: 0 <= k < |chunks| ==> chunks[k].project == chunks[0].project)
                      && (forall k, l :: 0 <= k < l < |chunks| ==> chunks[k].id != chunks[l].id)
                      && (forall k :: 0 <= k < |vectors| ==> |vectors[k]| == dimension);
      if !accepted then t == s
      else
        var g := |s.imports|;
        && |t.imports| == g + 1 && |t.imports[g].rows| == |chunks| == |Keys(t.imports[g].rows)|
        && t.imports[g].project == chunks[0].project && t.imports[g].model == model && t.imports[g].dimension == dimension
        && forall k :: 0 <= k < |chunks| ==> t.imports[g].rows[k] == Row(chunks[k], g, model, vectors[k])
  {
    if Accepts(chunks, vectors, dimension) {
      DistinctKeys(BuildRows(chunks, vectors, |s.imports|, model));
    }
  }

  lemma {:induction false} DistinctKeys(rows: seq<Row>)
    requires forall i, j :: 0 <= i < j < |rows| ==> PkOf(rows[i]) != PkOf(rows[j])
    ensures |Keys(rows)| == |rows|
  {
    if rows != [] {
      var n := |rows| - 1;
      DistinctKeys(rows[..n]);
      assert Keys(rows) == Keys(rows[..n]) + {PkOf(rows[n])} by {
        assert rows == rows[..n] + [rows[n]];
      }
    }
  }

  /** A publisher that gave up before attempting publication stays invisible for ever: no later step can
      publish its generation, and no pointer ever names it. */
  lemma {:induction false} FailedBuildStaysInvisible(run: seq<State>, i: nat, j: nat, g: Generation)
    requires IsRun(run) && i <= j < |run| && g < |run[i].phases| && run[i].phases[g].Raised? && !Attempted(run[i], g)
    ensures g < |run[j].phases| && run[j].phases[g].Raised? && !Attempted(run[j], g)
    ensures forall a :: !Publishes(run[j], a, g)
    ensures forall p :: p in run[j].manifest ==> run[j].manifest[p].generation != g
    ensures forall c :: 0 <= c < |run[j].captures| ==> run[j].captures[c].snapshot.generation != g
    decreases j
  {
    hide Inv, Next, Publishes;
    if i < j {
      FailedBuildStaysInvisible(run, i, j - 1, g);
      assert Steps(run[j - 1], run[j]);
      var a :| run[j] == Next(run[j - 1], a);
      StaysFaulty(run[j - 1], a, g);
    }
    RunKeeps(run, j);
    Unnamed(run[j], g);
    forall a ensures !Publishes(run[j], a, g) { CannotPublish(run[j], a, g); }
  }

  lemma CannotPublish(s: State, a: Action, g: Generation)
    requires !Attempted(s, g)
    ensures !Publishes(s, a, g)
  {
  }

  lemma Unnamed(s: State, g: Generation)
    requires Inv(s) && !Attempted(s, g)
    ensures forall p :: p in s.manifest ==> s.manifest[p].generation != g
    ensures forall c :: 0 <= c < |s.captures| ==> s.captures[c].snapshot.generation != g
  {
    forall p | p in s.manifest ensures s.manifest[p].generation != g { assert PointerOk(s, p, s.manifest[p]); }
    forall c | 0 <= c < |s.captures| ensures s.captures[c].snapshot.generation != g { assert CaptureOk(s, s.captures[c]); }
  }
}
