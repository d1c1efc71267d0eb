/** Generation-based knowledge publishing: many publishers and readers against one Milvus deployment.
    A client call is a request; the server may apply it at once, later, in part, more than once or never,
    whatever the caller is told. A success answer is only given once the request has been applied. */
module KnowledgeStore {
  import opened Options

  /** `approved` stands for `review_status == "approved"`; `fields` for the other stored attributes. */
  datatype Chunk = Chunk(id: string, project: string, approved: bool, fields: map<string, string>)

  // The position of an import in the list of imports: fresh, as a new UUID is.
  type Generation = nat

  /** A row's primary key, the digest of generation and chunk id; SHA-256 is taken to be injective. */
  datatype Pk = Pk(generation: Generation, chunkId: string)

  datatype Row = Row(chunk: Chunk, generation: Generation, model: string, vector: seq<real>)

  datatype Snapshot = Snapshot(generation: Generation, model: string, dimension: nat)

  /** What one call of `replace_project` set out to publish. */
  datatype Import = Import(project: string, rows: seq<Row>, model: string, dimension: nat)

  datatype Request =
    | PutRows(generation: Generation, lo: nat, hi: nat)
    | DropGeneration(generation: Generation)
    | SetManifest(generation: Generation)

  datatype Failure = BUILD_FAILED | UNCERTAIN | METADATA_MISMATCH | PUBLISH_FAILED | SUPERSEDED | DIED

  /** Where a publisher is. `applied`: the awaited request has been applied in full. */
  datatype Phase =
    | Writing(next: nat)
    | AwaitingRows(lo: nat, hi: nat, applied: bool)
    | CleaningUp
    | Verified
    | AwaitingManifest(applied: bool)
    | ReadingBack(failed: bool)
    | Returned(count: nat)
    | Raised(why: Failure)

  /** A reader's pointer, and the rows that were visible when it was read. */
  datatype Capture = Capture(project: string, snapshot: Snapshot, visible: set<Row>)

  datatype State = State(
    rows: map<Pk, Row>, manifest: map<string, Snapshot>, sent: set<Request>,
    imports: seq<Import>, phases: seq<Phase>, captures: seq<Capture>)

  const EMPTY: State := State(map[], map[], {}, [], [], [])

  const WRITE_BATCH_SIZE := 100

  // ---------------------------------------------------------------- building an import

  /** The checks `replace_project` makes before it writes anything. */
  predicate Accepts(chunks: seq<Chunk>, vectors: seq<seq<real>>, dimension: nat) {
    && |chunks| > 0 && |chunks| == |vectors|
    && (forall i :: 0 <= i < |chunks| ==> chunks[i].project == chunks[0].project)
    && (forall i, j :: 0 <= i < j < |chunks| ==> chunks[i].id != chunks[j].id)
    && (forall i :: 0 <= i < |vectors| ==> |vectors[i]| == dimension)
  }

  function BuildRows(chunks: seq<Chunk>, vectors: seq<seq<real>>, g: Generation, model: string): seq<Row>
    requires |chunks| == |vectors|
  {
    seq(|chunks|, i requires 0 <= i < |chunks| => Row(chunks[i], g, model, vectors[i]))
  }

  function PkOf(r: Row): Pk { Pk(r.generation, r.chunk.id) }

  function Keys(rows: seq<Row>): set<Pk> { set r | r in rows :: PkOf(r) }

  function ImportRows(i: Import): set<Row> { set r | r in i.rows }

  // ---------------------------------------------------------------- the server

  /** Applying a row write in part: any of its rows may be left out. */
  function Put(rows: map<Pk, Row>, batch: seq<Row>, kept: Pk -> bool): map<Pk, Row> {
    if batch == [] then rows
    else
      var r := batch[|batch| - 1];
      var before := Put(rows, batch[..|batch| - 1], kept);
      if kept(PkOf(r)) then before[PkOf(r) := r] else before
  }

  /** `_generation_chunk_ids`: the keys stored for one project and generation. */
  function GenerationKeys(rows: map<Pk, Row>, project: string, g: Generation): set<Pk> {
    set k | k in rows && rows[k].chunk.project == project && rows[k].generation == g
  }

  /** The rows a search over one snapshot chooses its candidates from. */
  function SnapshotRows(rows: map<Pk, Row>, project: string, s: Snapshot): set<Row> {
    set k | k in rows && rows[k].chunk.project == project && rows[k].generation == s.generation && rows[k].model == s.model :: rows[k]
  }

  /** What readers of a project see now. */
  function Visible(s: State, project: string): set<Row> {
    if project in s.manifest then SnapshotRows(s.rows, project, s.manifest[project]) else {}
  }

  function Apply(s: State, request: Request, kept: Pk -> bool): State {
    match request
    case PutRows(g, lo, hi) =>
      if g < |s.imports| && lo <= hi <= |s.imports[g].rows| then
        s.(rows := Put(s.rows, s.imports[g].rows[lo..hi], kept))
      else s
    case DropGeneration(g) =>
      if g < |s.imports| then
        s.(rows := map k | k in s.rows && !(kept(k) && k in GenerationKeys(s.rows, s.imports[g].project, g)) :: s.rows[k])
      else s
    case SetManifest(g) =>
      if g < |s.imports| then
        var i := s.imports[g];
        s.(manifest := s.manifest[i.project := Snapshot(g, i.model, i.dimension)])
      else s
  }

  // ---------------------------------------------------------------- steps

  datatype Action =
    | Begin(chunks: seq<Chunk>, vectors: seq<seq<real>>, model: string, dimension: nat)
    | SendRows(g: Generation)
    | Deliver(request: Request)
    | DeliverPart(request: Request, kept: Pk -> bool)
    | AnswerRows(g: Generation, count: Option<nat>)
    | Verify(g: Generation, answered: bool)
    | CleanUp(g: Generation)
    | SendManifest(g: Generation)
    | AnswerManifest(g: Generation, count: Option<nat>)
    | ReadBack(g: Generation, answered: bool)
    | Die(g: Generation)
    | Preflight(project: string, model: string, dimension: nat)

  function At(s: State, g: Generation, p: Phase): State
    requires g < |s.phases|
  {
    s.(phases := s.phases[g := p])
  }

  function Next(s: State, a: Action): State {
    if |s.phases| == |s.imports| then Act(s, a) else s
  }

  function Act(s: State, a: Action): State
    requires |s.phases| == |s.imports|
  {
    match a
    case Begin(chunks, vectors, model, dimension) =>
      if Accepts(chunks, vectors, dimension) then
        var i := Import(chunks[0].project, BuildRows(chunks, vectors, |s.imports|, model), model, dimension);
        s.(imports := s.imports + [i], phases := s.phases + [Writing(0)])
      else s
    case SendRows(g) =>
      if g < |s.phases| && s.phases[g].Writing? && s.phases[g].next < |s.imports[g].rows| then
        var lo := s.phases[g].next;
        var hi := if lo + WRITE_BATCH_SIZE <= |s.imports[g].rows| then lo + WRITE_BATCH_SIZE else |s.imports[g].rows|;
        At(s, g, AwaitingRows(lo, hi, false)).(sent := s.sent + {PutRows(g, lo, hi)})
      else s
    case Deliver(request) =>
      if request !in s.sent then s
      else
        var g := request.generation;
        var t := Apply(s, request, _ => true);
        if g < |s.phases| && request.PutRows? && s.phases[g].AwaitingRows? && s.phases[g].lo == request.lo && s.phases[g].hi == request.hi
        then At(t, g, s.phases[g].(applied := true))
        else if g < |s.phases| && request.SetManifest? && s.phases[g].AwaitingManifest? then At(t, g, AwaitingManifest(true))
        else t
    case DeliverPart(request, kept) => if request in s.sent && !request.SetManifest? then Apply(s, request, kept) else s
    case AnswerRows(g, count) =>
      if g < |s.phases| && s.phases[g].AwaitingRows? && (count.Some? ==> s.phases[g].applied) then
        var p := s.phases[g];
        At(s, g, if count.Some? && p.lo + count.value == p.hi then Writing(p.hi) else CleaningUp)
      else s
    case Verify(g, answered) =>
      if g < |s.phases| && s.phases[g].Writing? && s.phases[g].next >= |s.imports[g].rows| then
        var i := s.imports[g];
        At(s, g, if answered && GenerationKeys(s.rows, i.project, g) == Keys(i.rows) then Verified else CleaningUp)
      else s
    case CleanUp(g) =>
      if g < |s.phases| && s.phases[g].CleaningUp? then
        At(s, g, Raised(BUILD_FAILED)).(sent := s.sent + {DropGeneration(g)})
      else s
    case SendManifest(g) =>
      if g < |s.phases| && s.phases[g].Verified? then
        At(s, g, AwaitingManifest(false)).(sent := s.sent + {SetManifest(g)})
      else s
    case AnswerManifest(g, count) =>
      if g < |s.phases| && s.phases[g].AwaitingManifest? && (count.Some? ==> s.phases[g].applied) then
        At(s, g, ReadingBack(count != Some(1)))
      else s
    case ReadBack(g, answered) =>
      if g < |s.phases| && s.phases[g].ReadingBack? then
        var i := s.imports[g];
        At(s, g,
          if !answered then Raised(UNCERTAIN)
          else if i.project in s.manifest && s.manifest[i.project].generation == g then
            if s.manifest[i.project] != Snapshot(g, i.model, i.dimension) then Raised(METADATA_MISMATCH) else Returned(|i.rows|)
          else if s.phases[g].failed then Raised(PUBLISH_FAILED) else Raised(SUPERSEDED))
      else s
    case Die(g) => if g < |s.phases| && !s.phases[g].Returned? then At(s, g, Raised(DIED)) else s
    case Preflight(project, model, dimension) =>
      if project in s.manifest && s.manifest[project].model == model && s.manifest[project].dimension == dimension then
        s.(captures := s.captures + [Capture(project, s.manifest[project], Visible(s, project))])
      else s
  }

  ghost predicate Steps(s: State, t: State) { exists a: Action :: t == Next(s, a) }

  ghost predicate IsRun(run: seq<State>) {
    && |run| > 0 && run[0] == EMPTY
    && forall i {:trigger Steps(run[i - 1], run[i])} :: 0 < i < |run| ==> Steps(run[i - 1], run[i])
  }

  // ---------------------------------------------------------------- what every state satisfies

  ghost predicate ImportOk(i: Import, g: Generation) {
    && |i.rows| > 0
    && (forall k :: 0 <= k < |i.rows| ==> i.rows[k].generation == g && i.rows[k].chunk.project == i.project && i.rows[k].model == i.model)
    && (forall k, l :: 0 <= k < l < |i.rows| ==> i.rows[k].chunk.id != i.rows[l].chunk.id)
  }

  /** A stored row is the row its own import meant to store under that key. */
  ghost predicate RowOk(s: State, k: Pk)
    requires k in s.rows
  {
    k == PkOf(s.rows[k]) && k.generation < |s.imports| && s.rows[k] in s.imports[k.generation].rows
  }

  ghost predicate Complete(s: State, g: Generation) {
    g < |s.imports| && forall k :: 0 <= k < |s.imports[g].rows| ==> PkOf(s.imports[g].rows[k]) in s.rows
  }

  /** Past verification, and therefore never to be cleaned up. */
  predicate Safe(p: Phase) { p.Verified? || p.AwaitingManifest? || p.ReadingBack? || p.Returned? }

  /** `publication was attempted`: from then on the pointer may name this generation. */
  ghost predicate Attempted(s: State, g: Generation) { SetManifest(g) in s.sent }

  ghost predicate RequestOk(s: State, r: Request) {
    && r.generation < |s.imports| == |s.phases|
    && match r
       case PutRows(g, lo, hi) => lo <= hi <= |s.imports[g].rows|
       case DropGeneration(g) => s.phases[g].Raised? && !Attempted(s, g)
       case SetManifest(g) =>
         Complete(s, g) && !s.phases[g].Writing? && !s.phases[g].AwaitingRows? && !s.phases[g].CleaningUp? && !s.phases[g].Verified?
  }

  ghost predicate PointerOk(s: State, project: string, p: Snapshot) {
    && Attempted(s, p.generation) && p.generation < |s.imports|
    && var i := s.imports[p.generation]; i.project == project && p == Snapshot(p.generation, i.model, i.dimension)
  }

  ghost predicate CaptureOk(s: State, c: Capture) {
    PointerOk(s, c.project, c.snapshot) && c.visible == ImportRows(s.imports[c.snapshot.generation])
  }

  ghost predicate Inv(s: State) {
    && |s.phases| == |s.imports|
    && (forall g :: 0 <= g < |s.imports| ==> ImportOk(s.imports[g], g))
    && (forall k :: k in s.rows ==> RowOk(s, k))
    && (forall r :: r in s.sent ==> RequestOk(s, r))
    && (forall g :: 0 <= g < |s.phases| && Safe(s.phases[g]) ==> Complete(s, g))
    && (forall p :: p in s.manifest ==> PointerOk(s, p, s.manifest[p]))
    && (forall c :: 0 <= c < |s.captures| ==> CaptureOk(s, s.captures[c]))
  }

  /** For an import that is complete, the stored rows of its generation are exactly its rows. */
  lemma ExactRows(s: State, g: Generation)
    requires Inv(s) && Complete(s, g)
    ensures SnapshotRows(s.rows, s.imports[g].project, Snapshot(g, s.imports[g].model, s.imports[g].dimension)) == ImportRows(s.imports[g])
  {
    var i := s.imports[g];
    var found := SnapshotRows(s.rows, i.project, Snapshot(g, i.model, i.dimension));
    assert ImportOk(i, g);
    forall r | r in found ensures r in i.rows {
      var k :| k in s.rows && s.rows[k] == r && r.generation == g;
      assert RowOk(s, k);
    }
    forall r | r in i.rows ensures r in found {
      var n :| 0 <= n < |i.rows| && i.rows[n] == r;
      var k := PkOf(i.rows[n]);
      assert k in s.rows && RowOk(s, k);
      var m :| 0 <= m < |i.rows| && i.rows[m] == s.rows[k];
      assert m == n;
    }
  }

  lemma VisibleIsExact(s: State, project: string)
    requires Inv(s) && project in s.manifest
    ensures s.manifest[project].generation < |s.imports|
    ensures Visible(s, project) == ImportRows(s.imports[s.manifest[project].generation])
  {
    assert PointerOk(s, project, s.manifest[project]);
    assert RequestOk(s, SetManifest(s.manifest[project].generation));
    ExactRows(s, s.manifest[project].generation);
  }

  // ---------------------------------------------------------------- row writes and deletes

  lemma {:induction false} PutResult(rows: map<Pk, Row>, batch: seq<Row>, kept: Pk -> bool)
    ensures var t := Put(rows, batch, kept);
      && (forall k :: k in rows ==> k in t)
      && (forall k :: k in t && !(k in rows && t[k] == rows[k]) ==> exists n :: 0 <= n < |batch| && batch[n] == t[k] && PkOf(batch[n]) == k)
      && (forall n :: 0 <= n < |batch| && kept(PkOf(batch[n])) ==> PkOf(batch[n]) in t)
  {
    if batch != [] {
      PutResult(rows, batch[..|batch| - 1], kept);
    }
  }

  /** A table in which every new row is one of a build's own rows. */
  lemma PutRowsOk(s: State, t: State, g: Generation, lo: nat, hi: nat)
    requires g < |s.imports| && t.imports == s.imports && ImportOk(s.imports[g], g) && lo <= hi <= |s.imports[g].rows|
    requires forall k :: k in s.rows ==> RowOk(s, k)
    requires var batch := s.imports[g].rows[lo..hi];
      forall k :: k in t.rows && !(k in s.rows && t.rows[k] == s.rows[k]) ==>
        exists n :: 0 <= n < |batch| && batch[n] == t.rows[k] && PkOf(batch[n]) == k
    ensures forall k :: k in t.rows ==> RowOk(t, k)
  {
    var all := s.imports[g].rows;
    var batch := all[lo..hi];
    forall k | k in t.rows ensures RowOk(t, k) {
      if k in s.rows && t.rows[k] == s.rows[k] {
        assert RowOk(s, k);
      } else {
        var n :| 0 <= n < |batch| && batch[n] == t.rows[k] && PkOf(batch[n]) == k;
        assert batch[n] == all[lo + n];
      }
    }
  }

  /** Delivering a row write, in whole or in part, keeps the invariant and completes no less than before. */
  lemma PutKeeps(s: State, r: Request, kept: Pk -> bool)
    requires Inv(s) && r in s.sent && r.PutRows?
    ensures var t := Apply(s, r, kept); Inv(t) && forall p :: Visible(t, p) == Visible(s, p)
  {
    var t := Apply(s, r, kept);
    assert RequestOk(s, r);
    PutResult(s.rows, s.imports[r.generation].rows[r.lo..r.hi], kept);
    hide Put, ImportOk, Complete, CaptureOk, PointerOk, Visible, RowOk;
    PutRowsOk(s, t, r.generation, r.lo, r.hi);
    StaysComplete(s, t);
  }

  /** When rows of attempted and verified generations all stay, nothing a reader can reach changes. */
  lemma StaysComplete(s: State, t: State)
    requires Inv(s) && t == s.(rows := t.rows)
    requires forall k :: k in t.rows ==> RowOk(t, k)
    requires forall k :: k in s.rows && k !in t.rows ==> DropGeneration(k.generation) in s.sent
    ensures Inv(t) && forall p :: Visible(t, p) == Visible(s, p)
  {
    forall g: nat | Complete(s, g) && DropGeneration(g) !in s.sent ensures Complete(t, g) {
      assert ImportOk(s.imports[g], g);
    }
    forall r | r in t.sent ensures RequestOk(t, r) {
      assert RequestOk(s, r);
      if r.SetManifest? { NotDropped(s, r.generation); }
    }
    forall g | 0 <= g < |t.phases| && Safe(t.phases[g]) ensures Complete(t, g) {
      NotDropped(s, g);
    }
    forall p | p in t.manifest ensures PointerOk(t, p, t.manifest[p]) { assert PointerOk(s, p, s.manifest[p]); }
    forall c | 0 <= c < |t.captures| ensures CaptureOk(t, t.captures[c]) { assert CaptureOk(s, s.captures[c]); }
    forall p ensures Visible(t, p) == Visible(s, p) {
      if p in s.manifest {
        VisibleIsExact(s, p);
        VisibleIsExact(t, p);
      }
    }
  }

  /** Cleanup is never requested for a generation that was verified or whose publication was attempted. */
  lemma NotDropped(s: State, g: Generation)
    requires Inv(s) && g < |s.phases| && (Safe(s.phases[g]) || Attempted(s, g))
    ensures DropGeneration(g) !in s.sent
  {
  }

  lemma DropKeeps(s: State, r: Request, kept: Pk -> bool)
    requires Inv(s) && r in s.sent && r.DropGeneration?
    ensures var t := Apply(s, r, kept); Inv(t) && forall p :: Visible(t, p) == Visible(s, p)
  {
    var t := Apply(s, r, kept);
    forall k | k in t.rows ensures RowOk(t, k) { assert RowOk(s, k); }
    forall k | k in s.rows && k !in t.rows ensures k.generation == r.generation { assert RowOk(s, k); }
    StaysComplete(s, t);
  }

  lemma ManifestKeeps(s: State, r: Request)
    requires Inv(s) && r in s.sent && r.SetManifest?
    ensures var t := Apply(s, r, _ => true); Inv(t)
  {
    var t := Apply(s, r, _ => true);
    assert RequestOk(s, r);
    forall q | q in t.sent ensures RequestOk(t, q) { assert RequestOk(s, q); }
    forall k | k in t.rows ensures RowOk(t, k) { assert RowOk(s, k); }
    forall g | 0 <= g < |t.phases| && Safe(t.phases[g]) ensures Complete(t, g) { assert Complete(s, g); }
    forall p | p in t.manifest ensures PointerOk(t, p, t.manifest[p]) {
      if p in s.manifest { assert PointerOk(s, p, s.manifest[p]); }
    }
    forall c | 0 <= c < |t.captures| ensures CaptureOk(t, t.captures[c]) { assert CaptureOk(s, s.captures[c]); }
  }

  // ---------------------------------------------------------------- publisher and reader steps

  /** Moving a publisher on, possibly with a new request, keeps everything that does not depend on it. */
  lemma PhaseKeeps(s: State, t: State, g: Generation)
    requires Inv(s) && g < |s.phases| == |t.phases| && t == s.(phases := s.phases[g := t.phases[g]], sent := t.sent)
    requires Safe(t.phases[g]) ==> Complete(s, g)
    requires s.sent <= t.sent && forall r :: r in t.sent && r !in s.sent ==> r.generation == g && RequestOk(t, r)
    requires DropGeneration(g) in s.sent ==> t.phases[g].Raised? && SetManifest(g) !in t.sent
    requires SetManifest(g) in s.sent ==> t.phases[g].AwaitingManifest? || t.phases[g].ReadingBack? || t.phases[g].Returned? || t.phases[g].Raised?
    ensures Inv(t) && forall p :: Visible(t, p) == Visible(s, p)
  {
    forall r | r in t.sent ensures RequestOk(t, r) {
      if r in s.sent { assert RequestOk(s, r); }
    }
    forall k | k in t.rows ensures RowOk(t, k) { assert RowOk(s, k); }
    forall h | 0 <= h < |t.phases| && Safe(t.phases[h]) ensures Complete(t, h) { assert Complete(s, h); }
    forall p | p in t.manifest ensures PointerOk(t, p, t.manifest[p]) { assert PointerOk(s, p, s.manifest[p]); }
    forall c | 0 <= c < |t.captures| ensures CaptureOk(t, t.captures[c]) { assert CaptureOk(s, s.captures[c]); }
  }

  lemma NewImportOk(chunks: seq<Chunk>, vectors: seq<seq<real>>, g: Generation, model: string, dimension: nat)
    requires Accepts(chunks, vectors, dimension)
    ensures ImportOk(Import(chunks[0].project, BuildRows(chunks, vectors, g, model), model, dimension), g)
  {
  }

  lemma SameVisible(s: State, t: State)
    requires t.rows == s.rows && t.manifest == s.manifest
    ensures forall p :: Visible(t, p) == Visible(s, p)
  {
  }

  lemma BeginKeeps(s: State, a: Action)
    requires Inv(s) && a.Begin?
    ensures var t := Next(s, a); Inv(t) && forall p :: Visible(t, p) == Visible(s, p)
  {
    SameVisible(s, Next(s, a));
    hide BuildRows, Visible, ImportOk;
    var t := Next(s, a);
    if t != s {
      NewImportOk(a.chunks, a.vectors, |s.imports|, a.model, a.dimension);
      forall r | r in t.sent ensures RequestOk(t, r) { assert RequestOk(s, r); }
      forall k | k in t.rows ensures RowOk(t, k) { assert RowOk(s, k); }
      forall h | 0 <= h < |t.phases| && Safe(t.phases[h]) ensures Complete(t, h) { assert Complete(s, h); }
      forall p | p in t.manifest ensures PointerOk(t, p, t.manifest[p]) { assert PointerOk(s, p, s.manifest[p]); }
      forall c | 0 <= c < |t.captures| ensures CaptureOk(t, t.captures[c]) { assert CaptureOk(s, s.captures[c]); }
    }
  }

  lemma VerifyKeeps(s: State, g: Generation, answered: bool)
    requires Inv(s)
    ensures var t := Next(s, Verify(g, answered)); Inv(t) && forall p :: Visible(t, p) == Visible(s, p)
  {
    var t := Next(s, Verify(g, answered));
    if t != s {
      PendingIsFresh(s, g);
      var i := s.imports[g];
      if t.phases[g].Verified? {
        forall k | 0 <= k < |i.rows| ensures PkOf(i.rows[k]) in s.rows {
          assert PkOf(i.rows[k]) in Keys(i.rows);
        }
      }
      PhaseKeeps(s, t, g);
    }
  }

  /** Before publication is attempted nothing has been sent about publishing or dropping. */
  lemma PendingIsFresh(s: State, g: Generation)
    requires Inv(s) && g < |s.phases|
    ensures s.phases[g].Writing? || s.phases[g].AwaitingRows? || s.phases[g].CleaningUp? || s.phases[g].Verified?
      ==> DropGeneration(g) !in s.sent && SetManifest(g) !in s.sent
    ensures !s.phases[g].Raised? ==> DropGeneration(g) !in s.sent
  {
    if DropGeneration(g) in s.sent { assert RequestOk(s, DropGeneration(g)); }
    if SetManifest(g) in s.sent { assert RequestOk(s, SetManifest(g)); }
  }

  lemma PublisherKeeps(s: State, a: Action)
    requires Inv(s)
    requires a.SendRows? || a.AnswerRows? || a.CleanUp? || a.SendManifest? || a.AnswerManifest? || a.ReadBack? || a.Die?
    ensures var t := Next(s, a); Inv(t) && forall p :: Visible(t, p) == Visible(s, p)
  {
    var t := Next(s, a);
    if t != s {
      PendingIsFresh(s, a.g);
      PhaseKeeps(s, t, a.g);
    }
  }

  lemma PreflightKeeps(s: State, a: Action)
    requires Inv(s) && a.Preflight?
    ensures var t := Next(s, a); Inv(t) && forall p :: Visible(t, p) == Visible(s, p)
  {
    var t := Next(s, a);
    if t != s {
      VisibleIsExact(s, a.project);
      forall r | r in t.sent ensures RequestOk(t, r) { assert RequestOk(s, r); }
      forall k | k in t.rows ensures RowOk(t, k) { assert RowOk(s, k); }
      forall h | 0 <= h < |t.phases| && Safe(t.phases[h]) ensures Complete(t, h) { assert Complete(s, h); }
      forall p | p in t.manifest ensures PointerOk(t, p, t.manifest[p]) { assert PointerOk(s, p, s.manifest[p]); }
      forall c | 0 <= c < |t.captures| ensures CaptureOk(t, t.captures[c]) {
        if c < |s.captures| { assert CaptureOk(s, s.captures[c]); }
      }
    }
  }

  lemma DeliverKeeps(s: State, r: Request)
    requires Inv(s)
    ensures Inv(Next(s, Deliver(r)))
    ensures !r.SetManifest? ==> forall p :: Visible(Next(s, Deliver(r)), p) == Visible(s, p)
  {
    if r in s.sent {
      var t := Apply(s, r, _ => true);
      match r {
        case PutRows(_, _, _) => PutKeeps(s, r, _ => true);
        case DropGeneration(_) => DropKeeps(s, r, _ => true);
        case SetManifest(_) => ManifestKeeps(s, r);
      }
      var u := Next(s, Deliver(r));
      if u != t {
        PendingIsFresh(t, r.generation);
        PhaseKeeps(t, u, r.generation);
      }
    }
  }

  lemma StepKeeps(s: State, a: Action)
    requires Inv(s)
    ensures Inv(Next(s, a))
  {
    hide Inv, Next;
    match a
    case Begin(_, _, _, _) => BeginKeeps(s, a);
    case Deliver(r) => DeliverKeeps(s, r);
    case DeliverPart(r, kept) => PartKeeps(s, r, kept);
    case Verify(g, answered) => VerifyKeeps(s, g, answered);
    case Preflight(_, _, _) => PreflightKeeps(s, a);
    case _ => PublisherKeeps(s, a);
  }

  lemma PartKeeps(s: State, r: Request, kept: Pk -> bool)
    requires Inv(s)
    ensures var t := Next(s, DeliverPart(r, kept)); Inv(t) && forall p :: Visible(t, p) == Visible(s, p)
  {
    if r in s.sent && r.PutRows? { PutKeeps(s, r, kept); }
    if r in s.sent && r.DropGeneration? { DropKeeps(s, r, kept); }
  }
}
