/** One host's `replace_project` against a client whose every call may fail before, after or half-way. */
module KnowledgeHost {
  import opened Options
  import opened KnowledgeStore

  /** What happens to one client call. */
  datatype Fault =
    | Works
    | Miscounts(count: nat)
    | FailsAfter
    | FailsPartly(kept: Pk -> bool)

  /** The row count a call reports; None when it fails instead. */
  function Confirmed(fault: Fault, size: nat): Option<nat> {
    match fault
    case Works => Some(size)
    case Miscounts(n) => Some(n)
    case _ => None
  }

  /** Every batch write works and the key query answers. */
  ghost predicate AllWork(batchFault: nat -> Fault, queryFault: bool) { !queryFault && forall n: nat :: batchFault(n).Works? }

  datatype Outcome = Ok(count: nat) | Error(why: Failure) | Refused

  /** Every row is stored under its own key. */
  ghost predicate Keyed(rows: map<Pk, Row>) { forall k :: k in rows ==> PkOf(rows[k]) == k }

  ghost predicate Unused(rows: map<Pk, Row>, g: Generation) { forall k :: k in rows ==> k.generation != g }

  /** Two tables agree outside one generation. */
  ghost predicate SameElsewhere(x: map<Pk, Row>, y: map<Pk, Row>, g: Generation) {
    forall k: Pk :: k.generation != g ==> (k in x <==> k in y) && (k in x ==> x[k] == y[k])
  }

  /** The size of the batch that starts at `n`. */
  function BatchSize(total: nat, n: nat): nat
    requires n < total
  {
    if n + WRITE_BATCH_SIZE <= total then WRITE_BATCH_SIZE else total - n
  }

  /** Every batch that starts before `end` was confirmed with its own size. */
  ghost predicate BatchesConfirmed(batchFault: nat -> Fault, total: nat, end: nat)
    requires end <= total
  {
    forall n: nat :: n < end && n % WRITE_BATCH_SIZE == 0 ==> Confirmed(batchFault(n), BatchSize(total, n)) == Some(BatchSize(total, n))
  }

  lemma NothingToConfirm(batchFault: nat -> Fault, total: nat)
    ensures BatchesConfirmed(batchFault, total, 0)
  {
  }

  lemma ConfirmNext(batchFault: nat -> Fault, total: nat, n: nat)
    requires n < total && n % WRITE_BATCH_SIZE == 0 && BatchesConfirmed(batchFault, total, n)
    requires Confirmed(batchFault(n), BatchSize(total, n)) == Some(BatchSize(total, n))
    ensures BatchesConfirmed(batchFault, total, n + BatchSize(total, n))
  {
  }

  class Client {
    var rows: map<Pk, Row>
    var manifest: map<string, Snapshot>

    constructor ()
      ensures rows == map[] && manifest == map[]
    {
      rows, manifest := map[], map[];
    }

    method UpsertRows(batch: seq<Row>, fault: Fault) returns (count: Option<nat>)
      modifies this`rows
      ensures fault.FailsPartly? ==> rows == Put(old(rows), batch, fault.kept) && count.None?
      ensures !fault.FailsPartly? ==> rows == Put(old(rows), batch, _ => true)
      ensures count == Confirmed(fault, |batch|)
    {
      var kept := if fault.FailsPartly? then fault.kept else (_ => true);
      rows := Put(rows, batch, kept);
      count := Confirmed(fault, |batch|);
    }

    method DeleteGeneration(project: string, g: Generation, fault: Fault)
      requires Keyed(rows)
      modifies this`rows
      ensures SameElsewhere(rows, old(rows), g) && rows.Keys <= old(rows).Keys && forall k :: k in rows ==> rows[k] == old(rows)[k]
      ensures !fault.FailsPartly? ==> GenerationKeys(rows, project, g) == {}
    {
      var kept := if fault.FailsPartly? then fault.kept else (_ => true);
      rows := map k | k in rows && !(kept(k) && k in GenerationKeys(rows, project, g)) :: rows[k];
    }

    method UpsertManifest(project: string, s: Snapshot, fault: Fault) returns (count: Option<nat>)
      modifies this`manifest
      ensures manifest == if fault.FailsPartly? then old(manifest) else old(manifest)[project := s]
      ensures count == Confirmed(fault, 1)
    {
      if !fault.FailsPartly? {
        manifest := manifest[project := s];
      }
      count := Confirmed(fault, 1);
    }

    /** `_generation_chunk_ids`: gathers the keys page by page. */
    method GenerationChunkIds(project: string, g: Generation, pageSize: nat) returns (ids: set<Pk>)
      requires pageSize > 0
      ensures ids == GenerationKeys(rows, project, g)
    {
      var left := GenerationKeys(rows, project, g);
      ids := {};
      while left != {}
        invariant ids + left == GenerationKeys(rows, project, g)
        decreases left
      {
        var page := TakePage(left, pageSize);
        ids := ids + page;
        left := left - page;
      }
    }

    method TakePage(left: set<Pk>, pageSize: nat) returns (page: set<Pk>)
      requires pageSize > 0 && left != {}
      ensures page != {} && page <= left && |page| <= pageSize
    {
      var k :| k in left;
      page := {k};
      var rest := left - page;
      while rest != {} && |page| < pageSize
        invariant page != {} && page <= left && rest == left - page && |page| <= pageSize
        decreases rest
      {
        var n :| n in rest;
        page := page + {n};
        rest := rest - {n};
      }
    }

    /** `_publish_snapshot`. `rival` is another publisher's pointer landing between the write and the
        readback; None is the normal return. */
    method PublishSnapshot(project: string, own: Snapshot, fault: Fault, rival: Option<Snapshot>, readFault: bool)
      returns (failure: Option<Failure>)
      modifies this`manifest
      ensures manifest == Pointed(old(manifest), project, own, fault, rival)
      ensures failure.None? <==> !readFault && project in manifest && manifest[project] == own
      ensures failure == Some(UNCERTAIN) <==> readFault
      ensures failure == Some(METADATA_MISMATCH) <==>
        !readFault && project in manifest && manifest[project] != own && manifest[project].generation == own.generation
      ensures failure == Some(SUPERSEDED) ==> Confirmed(fault, 1) == Some(1) && rival.Some?
      ensures failure == Some(PUBLISH_FAILED) ==> Confirmed(fault, 1) != Some(1)
      ensures failure.Some? ==> failure.value in {UNCERTAIN, METADATA_MISMATCH, SUPERSEDED, PUBLISH_FAILED}
    {
      var count := UpsertManifest(project, own, fault);
      if rival.Some? {
        manifest := manifest[project := rival.value];
      }
      if readFault { return Some(UNCERTAIN); }
      if project in manifest && manifest[project].generation == own.generation {
        if manifest[project] != own { return Some(METADATA_MISMATCH); }
        return None;
      }
      if count != Some(1) { return Some(PUBLISH_FAILED); }
      return Some(SUPERSEDED);
    }

    /** The batch loop of `replace_project`; it stops at the first call that fails or miscounts. */
    method WriteBatches(all: seq<Row>, g: Generation, batchFault: nat -> Fault) returns (failed: bool, upserted: nat)
      requires Keyed(rows) && Unused(rows, g) && forall k :: 0 <= k < |all| ==> all[k].generation == g
      modifies this`rows
      ensures OnlyOwn(rows, old(rows), all, g)
      ensures !failed ==> upserted == |all| && BatchesConfirmed(batchFault, |all|, |all|) && forall k :: 0 <= k < |all| ==> PkOf(all[k]) in rows
      ensures (forall n: nat :: batchFault(n).Works?) ==> !failed
    {
      hide BatchesConfirmed, Put;
      NothingToConfirm(batchFault, |all|);
      var next := 0;
      failed, upserted := false, 0;
      while next < |all| && !failed
        invariant 0 <= next <= |all| && (!failed ==> upserted == next)
        invariant OnlyOwn(rows, old(rows), all, g)
        invariant !failed ==> forall k :: 0 <= k < next ==> PkOf(all[k]) in rows
        invariant (forall n: nat :: batchFault(n).Works?) ==> !failed
        invariant next == |all| || next % WRITE_BATCH_SIZE == 0
        invariant !failed ==> BatchesConfirmed(batchFault, |all|, next)
      {
        var hi := if next + WRITE_BATCH_SIZE <= |all| then next + WRITE_BATCH_SIZE else |all|;
        var batch := all[next..hi];
        ghost var before := rows;
        var count := UpsertRows(batch, batchFault(next));
        PutResult(before, batch, if batchFault(next).FailsPartly? then batchFault(next).kept else (_ => true));
        PutOnlyOwn(before, rows, old(rows), all, next, hi, g);
        if count != Some(|batch|) {
          failed := true;
        } else {
          forall k | 0 <= k < hi ensures PkOf(all[k]) in rows {
            if k >= next { assert batch[k - next] == all[k]; }
          }
          upserted := upserted + |batch|;
          ConfirmNext(batchFault, |all|, next);
        }
        next := hi;
      }
    }

    /** The build half of `replace_project`: writes the batches, verifies the stored keys, and cleans up after
        any failure. It succeeds whenever every call works, and only with exactly the given rows stored and every
        batch confirmed. */
    method BuildGeneration(
        chunks: seq<Chunk>, vectors: seq<seq<real>>, model: string, dimension: nat, g: Generation,
        batchFault: nat -> Fault, queryFault: bool, deleteFault: Fault)
      returns (ok: bool, upserted: nat)
      requires Accepts(chunks, vectors, dimension) && Keyed(rows) && Unused(rows, g)
      modifies this`rows
      ensures Keyed(rows) && SameElsewhere(rows, old(rows), g)
      ensures ok ==> upserted == |chunks|
      ensures ok ==> SnapshotRows(rows, chunks[0].project, Snapshot(g, model, dimension)) == (set r | r in BuildRows(chunks, vectors, g, model))
      ensures AllWork(batchFault, queryFault) ==> ok
      ensures ok ==> !queryFault && BatchesConfirmed(batchFault, |chunks|, |chunks|)
      ensures !ok && !deleteFault.FailsPartly? ==> Unused(rows, g)
    {
      hide BatchesConfirmed, Put;
      var project := chunks[0].project;
      var all := BuildRows(chunks, vectors, g, model);
      var failed;
      failed, upserted := WriteBatches(all, g, batchFault);
      var ids: set<Pk> := {};
      if !failed && !queryFault {
        ids := GenerationChunkIds(project, g, 1000);
        KeysComplete(rows, old(rows), all, project, g);
      }
      if failed || queryFault || ids != Keys(all) {
        DeleteGeneration(project, g, deleteFault);
        assert forall k :: k in rows && k.generation == g ==> k in GenerationKeys(rows, project, g);
        return false, upserted;
      }
      OwnRowsExact(rows, old(rows), chunks, vectors, model, dimension, g);
      return true, upserted;
    }

    /** `replace_project`. `batchFault` says how each batch write ends, the other faults how the remaining
        calls do. A normal return means that readers now see exactly the given chunks, and it happens when
        every call works and nobody else publishes meanwhile. However it ends, nothing stored for another
        generation changes, and this host moves no pointer unless exactly the given rows are stored. */
    method ReplaceProject(
        chunks: seq<Chunk>, vectors: seq<seq<real>>, model: string, dimension: nat, g: Generation,
        batchFault: nat -> Fault, queryFault: bool, deleteFault: Fault, manifestFault: Fault,
        rival: Option<Snapshot>, readFault: bool)
      returns (out: Outcome)
      requires Keyed(rows) && Unused(rows, g)
      modifies this
      ensures Keyed(rows) && SameElsewhere(rows, old(rows), g)
      ensures out.Refused? <==> !Accepts(chunks, vectors, dimension)
      ensures out.Refused? ==> rows == old(rows)
      ensures out.Refused? || out == Error(BUILD_FAILED) ==> manifest == old(manifest)
      ensures out == Error(BUILD_FAILED) && !deleteFault.FailsPartly? ==> Unused(rows, g)
      ensures !out.Refused? && out != Error(BUILD_FAILED) ==>
        && SnapshotRows(rows, chunks[0].project, Snapshot(g, model, dimension)) == (set r | r in BuildRows(chunks, vectors, g, model))
        && manifest == Pointed(old(manifest), chunks[0].project, Snapshot(g, model, dimension), manifestFault, rival)
      ensures out.Ok? ==> out.count == |chunks| && chunks[0].project in manifest && manifest[chunks[0].project] == Snapshot(g, model, dimension)
      ensures Accepts(chunks, vectors, dimension) && AllWork(batchFault, queryFault) && manifestFault.Works? && rival.None? && !readFault
        ==> out == Ok(|chunks|)
      ensures out == Error(SUPERSEDED) ==> rival.Some?
    {
      if !Accepts(chunks, vectors, dimension) { return Refused; }
      var ok, upserted := BuildGeneration(chunks, vectors, model, dimension, g, batchFault, queryFault, deleteFault);
      if !ok { return Error(BUILD_FAILED); }
      var failure := PublishSnapshot(chunks[0].project, Snapshot(g, model, dimension), manifestFault, rival, readFault);
      return if failure.Some? then Error(failure.value) else Ok(upserted);
    }
  }

  /** The pointers after this host's manifest write and, if there is one, a rival's. */
  function Pointed(manifest: map<string, Snapshot>, project: string, own: Snapshot, fault: Fault, rival: Option<Snapshot>)
    : map<string, Snapshot>
  {
    var written := if fault.FailsPartly? then manifest else manifest[project := own];
    if rival.Some? then written[project := rival.value] else written
  }

  /** The table is keyed, agrees with the old one outside `g`, and inside `g` holds only rows of `all`. */
  ghost predicate OnlyOwn(rows: map<Pk, Row>, before: map<Pk, Row>, all: seq<Row>, g: Generation) {
    && Keyed(rows) && SameElsewhere(rows, before, g)
    && forall k :: k in rows && k.generation == g ==> rows[k] in all
  }

  lemma PutOnlyOwn(x: map<Pk, Row>, y: map<Pk, Row>, before: map<Pk, Row>, all: seq<Row>, lo: nat, hi: nat, g: Generation)
    requires lo <= hi <= |all| && OnlyOwn(x, before, all, g) && forall k :: 0 <= k < |all| ==> all[k].generation == g
    requires forall k :: k in x ==> k in y
    requires forall k :: k in y && !(k in x && y[k] == x[k]) ==>
      exists n :: 0 <= n < |all[lo..hi]| && all[lo..hi][n] == y[k] && PkOf(all[lo..hi][n]) == k
    ensures OnlyOwn(y, before, all, g)
  {
    forall k | k in y ensures PkOf(y[k]) == k && (k.generation == g ==> y[k] in all) && (k.generation != g ==> k in x && y[k] == x[k]) {
      if !(k in x && y[k] == x[k]) {
        var n :| 0 <= n < |all[lo..hi]| && all[lo..hi][n] == y[k] && PkOf(all[lo..hi][n]) == k;
        assert all[lo..hi][n] == all[lo + n];
      }
    }
  }

  /** When every row was stored, the generation's keys are exactly the rows' keys. */
  lemma KeysComplete(rows: map<Pk, Row>, before: map<Pk, Row>, all: seq<Row>, project: string, g: Generation)
    requires OnlyOwn(rows, before, all, g)
    requires forall k :: 0 <= k < |all| ==> all[k].generation == g && all[k].chunk.project == project
    ensures (forall k :: 0 <= k < |all| ==> PkOf(all[k]) in rows) ==> GenerationKeys(rows, project, g) == Keys(all)
  {
    if forall k :: 0 <= k < |all| ==> PkOf(all[k]) in rows {
      forall pk | pk in Keys(all) ensures pk in GenerationKeys(rows, project, g) {
        var r :| r in all && PkOf(r) == pk;
        var k :| 0 <= k < |all| && all[k] == r;
        assert pk in rows && rows[pk] in all;
      }
      forall pk | pk in GenerationKeys(rows, project, g) ensures pk in Keys(all) {
        assert rows[pk] in all && PkOf(rows[pk]) == pk;
      }
    }
  }

  /** Equal key sets mean equal rows, because a key determines its row. */
  lemma OwnRowsExact(
      rows: map<Pk, Row>, before: map<Pk, Row>, chunks: seq<Chunk>, vectors: seq<seq<real>>, model: string, dimension: nat, g: Generation)
    requires Accepts(chunks, vectors, dimension)
    requires var all := BuildRows(chunks, vectors, g, model);
      OnlyOwn(rows, before, all, g) && GenerationKeys(rows, chunks[0].project, g) == Keys(all)
    ensures SnapshotRows(rows, chunks[0].project, Snapshot(g, model, dimension)) == set r | r in BuildRows(chunks, vectors, g, model)
  {
    var all := BuildRows(chunks, vectors, g, model);
    var found := SnapshotRows(rows, chunks[0].project, Snapshot(g, model, dimension));
    forall r | r in all ensures r in found {
      var n :| 0 <= n < |all| && all[n] == r;
      var k := PkOf(r);
      assert k in Keys(all);
      var m :| 0 <= m < |all| && all[m] == rows[k];
      assert chunks[m].id == chunks[n].id;
    }
    forall r | r in found ensures r in all {
      var k :| k in rows && rows[k] == r && r.generation == g;
    }
  }
}
