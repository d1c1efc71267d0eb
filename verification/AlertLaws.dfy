/** What alert ingestion does with one envelope and one batch, said without its functions: which row it
    writes, which incident it joins or opens, and what it refuses. */
module AlertLaws {
  import opened Options
  import opened Lifecycle
  import opened AlertHub

  // ---------------------------------------------------------------- the alert row

  /** An envelope is refused exactly when its identity already has a row with other core facts. Otherwise it
      either adds one row of its own, seen once, or counts on the identity's row: a delivery that is not older
      than last_seen sets status and last_seen, an older one neither. */
  lemma UpsertsExactly(alerts: seq<Alert>, e: Envelope, receivedAt: int)
    requires forall a, b :: 0 <= a < |alerts| && 0 <= b < |alerts| && alerts[a].identity == alerts[b].identity ==> a == b
    ensures var u := UpsertAlert(alerts, e, receivedAt);
      && (u.Conflict? <==> exists a :: 0 <= a < |alerts| && alerts[a].identity == e.identity && alerts[a].facts != e.facts)
      && ((forall a :: 0 <= a < |alerts| ==> alerts[a].identity != e.identity) ==>
            u == Upserted(alerts + [Alert(e.identity, e.facts, e.correlationKey, Summary(e.status, receivedAt, 1))], |alerts|, None))
      && (forall a :: 0 <= a < |alerts| && alerts[a].identity == e.identity && alerts[a].facts == e.facts ==>
            var was, n := alerts[a].summary, alerts[a].summary.occurrences + 1;
            u == Upserted(alerts[a := alerts[a].(summary := if receivedAt < was.lastSeen then Summary(was.status, was.lastSeen, n)
                                                            else Summary(e.status, receivedAt, n))], a, Some(was.status)))
  {
    hide FindAlert;
    var found := FindAlert(alerts, e.identity);
    if found.Some? {
      assert alerts[found.value].identity == e.identity;
    }
  }

  predicate RowOf(a: Alert, x: Logged) { a.identity == x.identity && a.facts == x.facts }

  /** In every reachable state all committed envelopes of one identity state the facts of its row. */
  lemma FactsNeverConflict(run: seq<Hub>, n: nat, k: nat)
    requires IsRun(run) && n < |run| && k < |run[n].log|
    ensures exists a :: 0 <= a < |run[n].alerts| && RowOf(run[n].alerts[a], run[n].log[k])
  {
    RunKeeps(run, n);
    var found := FindAlert(run[n].alerts, run[n].log[k].identity);
    assert RowOf(run[n].alerts[found.value], run[n].log[k]);
  }

  // ---------------------------------------------------------------- correlation

  /** An incident of the group, neither RESOLVED nor FAILED, opened during the last five minutes. */
  predicate Recent(i: Incident, g: Group, now: int) {
    i.group == g && i.status != RESOLVED && i.status != Lifecycle.FAILED && now - 300_000_000 <= i.openedAt <= now
  }

  /** An incident is linked to the alert and neither RESOLVED nor FAILED. */
  predicate OpenLink(h: Hub, i: nat, alert: nat) {
    i < |h.incidents| && (i, alert) in h.links && h.incidents[i].status != RESOLVED && h.incidents[i].status != Lifecycle.FAILED
  }

  lemma FindsOpenLink(h: Hub, alert: nat)
    ensures var found := FindLinkedOpen(h, alert);
      && (found.Some? ==> OpenLink(h, found.value, alert))
      && (found.None? <==> forall i: nat :: !OpenLink(h, i, alert))
  {
    var eligible := set i | 0 <= i < |h.incidents| && (i, alert) in h.links && Open(h.incidents[i].status);
    assert forall i: nat :: OpenLink(h, i, alert) <==> i in eligible;
    hide Newest;
  }

  /** For an alert without an open linked incident, a new incident of its group is opened at the clock exactly
      when no open incident of that group was opened during the last five minutes; otherwise the answer is such
      an incident and none of them was opened later. An alert with an open linked incident keeps it. */
  lemma CorrelatesExactly(h: Hub, alert: nat)
    requires alert < |h.alerts|
    ensures var a := h.alerts[alert]; var (y, i) := GetOrCreate(h, alert);
      var g := Group(a.identity.project, a.facts.environment, a.facts.service, a.correlationKey);
      if exists k: nat :: OpenLink(h, k, alert) then y == h && OpenLink(h, i, alert)
      else if exists k :: 0 <= k < |h.incidents| && Recent(h.incidents[k], g, h.clock) then
        && y == h && i < |h.incidents| && Recent(h.incidents[i], g, h.clock)
        && forall k :: 0 <= k < |h.incidents| && Recent(h.incidents[k], g, h.clock) ==> h.incidents[k].openedAt <= h.incidents[i].openedAt
      else i == |h.incidents| && y == h.(incidents := h.incidents + [Incident(g, h.clock, RECEIVED)])
  {
    var g := GroupOf(h.alerts[alert]);
    FindsOpenLink(h, alert);
    var eligible := set i | 0 <= i < |h.incidents| && Correlates(h.incidents[i], g, h.clock);
    assert forall k :: 0 <= k < |h.incidents| ==> (Recent(h.incidents[k], g, h.clock) <==> k in eligible);
    hide Newest, FindLinkedOpen, OpenLink, Recent;
    var found := Newest(h.incidents, eligible);
    if found.Some? {
      assert found.value in eligible;
    }
  }

  /** Linking adds exactly the one link, made at the clock; an existing link keeps its time. */
  lemma LinksExactly(h: Hub, i: nat, alert: nat, j: nat, other: nat)
    ensures var t := Linked(h, i, alert);
      && t == h.(links := t.links)
      && ((j, other) in t.links <==> (j, other) in h.links || (j, other) == (i, alert))
      && ((j, other) in t.links ==> t.links[(j, other)] == if (j, other) in h.links then h.links[(j, other)] else h.clock)
  {
  }

  /** In every reachable state each link was made within five minutes after its incident was opened. */
  lemma LinksAreTimely(run: seq<Hub>, n: nat, i: nat, alert: nat)
    requires IsRun(run) && n < |run| && (i, alert) in run[n].links
    ensures i < |run[n].incidents| && alert < |run[n].alerts|
    ensures run[n].incidents[i].openedAt <= run[n].links[(i, alert)] <= run[n].incidents[i].openedAt + 300_000_000
  {
    RunKeeps(run, n);
    assert LinkTimely(run[n], i, alert);
  }

  /** After a firing envelope its alert has an open linked incident, which is the one reported; any other envelope
      links and opens nothing and reports an open linked incident exactly when there is one. */
  lemma FiringIsLinked(h: Hub, e: Envelope, receivedAt: int, m: Meanwhile)
    requires Inv(h) && IngestOne(h, e, receivedAt, m).Done?
    ensures var o := IngestOne(h, e, receivedAt, m); var alert := UpsertAlert(h.alerts, e, receivedAt).alert;
      && alert < |o.hub.alerts|
      && (o.incident.Some? ==> OpenLink(o.hub, o.incident.value, alert))
      && if o.hub.alerts[alert].summary.status == Firing then o.incident.Some?
         else o.hub.links == h.links && |o.hub.incidents| == |h.incidents| && (o.incident.None? ==> forall i: nat :: !OpenLink(o.hub, i, alert))
  {
    var u := UpsertAlert(h.alerts, e, receivedAt);
    var h1 := AfterUpsert(h, e, receivedAt, m);
    MovesOnlyClose(h.incidents, m.early);
    FindsOpenLink(h1, u.alert);
    hide AllMoved, FindLinkedOpen, GetOrCreate, UpsertAlert, OnlyCloses, OpenLink;
    if u.alerts[u.alert].summary.status == Firing && FindLinkedOpen(h1, u.alert).None? {
      UpsertedMoves(h, e, receivedAt, m);
      SecondLookupAgrees(h1, u.alert, m);
      hide Inv, Linked, WhenLocked;
      CorrelatesOpen(WhenLocked(h1, m), u.alert);
    } else {
      hide Inv;
    }
  }

  /** An envelope is counted as a duplicate exactly when its identity already had a row, and its row is one of the
      identity. */
  lemma DuplicateExactly(h: Hub, e: Envelope, receivedAt: int, m: Meanwhile)
    requires IngestOne(h, e, receivedAt, m).Done?
    ensures var o := IngestOne(h, e, receivedAt, m); var alert := UpsertAlert(h.alerts, e, receivedAt).alert;
      && alert < |o.hub.alerts| && o.hub.alerts[alert].identity == e.identity
      && (o.duplicate <==> exists a :: 0 <= a < |h.alerts| && h.alerts[a].identity == e.identity)
  {
    RowOfEnvelope(h.alerts, e, receivedAt);
    hide UpsertAlert, AllMoved, FindLinkedOpen, Newest;
  }

  lemma UpsertedMoves(h: Hub, e: Envelope, receivedAt: int, m: Meanwhile)
    requires Inv(h) && UpsertAlert(h.alerts, e, receivedAt).Upserted?
    ensures Inv(AfterUpsert(h, e, receivedAt, m))
  {
    hide Inv, AllMoved, UpsertAlert;
    UpsertedKeeps(h, e, receivedAt);
    NoMoves(h);
    MovesKeep(AfterUpsert(h, e, receivedAt, Meanwhile([], [], 0)), m.early, 0);
  }

  lemma RowOfEnvelope(alerts: seq<Alert>, e: Envelope, receivedAt: int)
    requires UpsertAlert(alerts, e, receivedAt).Upserted?
    ensures var u := UpsertAlert(alerts, e, receivedAt);
      && u.alert < |u.alerts| && u.alerts[u.alert].identity == e.identity
      && (u.previous.Some? <==> exists a :: 0 <= a < |alerts| && alerts[a].identity == e.identity)
  {
    hide FindAlert, Deliver;
  }

  lemma CorrelatesOpen(h: Hub, alert: nat)
    requires alert < |h.alerts| && FindLinkedOpen(h, alert).None?
    ensures var (y, i) := GetOrCreate(h, alert); OpenLink(Linked(y, i, alert), i, alert) && Linked(y, i, alert).alerts == h.alerts
  {
    CorrelatesExactly(h, alert);
    FindsOpenLink(h, alert);
    hide GetOrCreate, FindLinkedOpen;
  }

  // ---------------------------------------------------------------- a batch

  /** A batch that is empty, or holds an envelope of another project or source, changes nothing. */
  lemma ForeignBatchesChangeNothing(h: Hub, project: string, source: string, batch: seq<Envelope>, receivedAt: int, meanwhile: nat -> Meanwhile)
    requires batch == [] || exists k :: 0 <= k < |batch| && (batch[k].identity.project != project || batch[k].identity.source != source)
    ensures Next(h, Ingest(project, source, batch, receivedAt, meanwhile)) == h
  {
  }

  function Entry(e: Envelope, receivedAt: int): Logged { Logged(e.identity, e.facts, Delivery(receivedAt, e.status)) }

  function Entries(batch: seq<Envelope>, receivedAt: int): (r: seq<Logged>)
    ensures |r| == |batch| && forall k :: 0 <= k < |r| ==> r[k] == Entry(batch[k], receivedAt)
  {
    seq(|batch|, k requires 0 <= k < |batch| => Entry(batch[k], receivedAt))
  }

  /** A committed batch logs exactly its envelopes, in order, with the batch's one reception time. */
  lemma {:induction false} BatchIsLogged(h: Hub, batch: seq<Envelope>, receivedAt: int, meanwhile: nat -> Meanwhile)
    requires IngestAll(h, batch, receivedAt, meanwhile).Committed?
    ensures IngestAll(h, batch, receivedAt, meanwhile).hub.log == h.log + Entries(batch, receivedAt)
  {
    hide IngestOne, Entries, Entry;
    EntriesStep(batch, receivedAt);
    if batch != [] {
      var n := |batch| - 1;
      BatchIsLogged(h, batch[..n], receivedAt, meanwhile);
      EnvelopeIsLogged(IngestAll(h, batch[..n], receivedAt, meanwhile).hub, batch[n], receivedAt, meanwhile(n));
    }
  }

  lemma EntriesStep(batch: seq<Envelope>, receivedAt: int)
    ensures if batch == [] then Entries(batch, receivedAt) == []
            else Entries(batch, receivedAt) == Entries(batch[..|batch| - 1], receivedAt) + [Entry(batch[|batch| - 1], receivedAt)]
  {
  }

  lemma EnvelopeIsLogged(h: Hub, e: Envelope, receivedAt: int, m: Meanwhile)
    requires IngestOne(h, e, receivedAt, m).Done?
    ensures IngestOne(h, e, receivedAt, m).hub.log == h.log + [Entry(e, receivedAt)]
  {
    hide FindAlert, Deliver, Newest, AllMoved;
  }

  /** Envelope `k` of the batch, at its turn, reported incident `i`. */
  ghost predicate ReportedAt(h: Hub, batch: seq<Envelope>, receivedAt: int, meanwhile: nat -> Meanwhile, k: nat, i: nat)
    requires k < |batch|
  {
    var before := IngestAll(h, batch[..k], receivedAt, meanwhile);
    before.Committed? && IngestOne(before.hub, batch[k], receivedAt, meanwhile(k)).Done?
    && IngestOne(before.hub, batch[k], receivedAt, meanwhile(k)).incident == Some(i)
  }

  /** A committed batch reports exactly the incidents its envelopes reported at their turns. */
  lemma {:induction false} BatchReportsExactly(h: Hub, batch: seq<Envelope>, receivedAt: int, meanwhile: nat -> Meanwhile, i: nat)
    requires IngestAll(h, batch, receivedAt, meanwhile).Committed?
    ensures i in IngestAll(h, batch, receivedAt, meanwhile).incidents <==>
      exists k :: 0 <= k < |batch| && ReportedAt(h, batch, receivedAt, meanwhile, k, i)
  {
    hide IngestOne;
    if batch != [] {
      var n := |batch| - 1;
      BatchReportsExactly(h, batch[..n], receivedAt, meanwhile, i);
      LastReport(h, batch, receivedAt, meanwhile, i);
      hide IngestAll;
      forall k: nat | k < n ensures ReportedAt(h, batch[..n], receivedAt, meanwhile, k, i) <==> ReportedAt(h, batch, receivedAt, meanwhile, k, i) {
        assert batch[..n][..k] == batch[..k];
      }
      hide ReportedAt;
    }
  }

  lemma LastReport(h: Hub, batch: seq<Envelope>, receivedAt: int, meanwhile: nat -> Meanwhile, i: nat)
    requires batch != [] && IngestAll(h, batch, receivedAt, meanwhile).Committed?
    ensures var n := |batch| - 1;
      && IngestAll(h, batch[..n], receivedAt, meanwhile).Committed?
      && (i in IngestAll(h, batch, receivedAt, meanwhile).incidents <==>
            i in IngestAll(h, batch[..n], receivedAt, meanwhile).incidents || ReportedAt(h, batch, receivedAt, meanwhile, n, i))
  {
    hide IngestOne;
  }

  /** A rolled-back batch leaves alerts, links and log alone; its incidents only move along the lifecycle. */
  lemma RollbackUndoesTheBatch(h: Hub, project: string, source: string, batch: seq<Envelope>, receivedAt: int, meanwhile: nat -> Meanwhile)
    requires IngestAll(h, batch, receivedAt, meanwhile).RolledBack?
    ensures var t := Next(h, Ingest(project, source, batch, receivedAt, meanwhile));
      t.alerts == h.alerts && t.links == h.links && t.log == h.log && OnlyCloses(h.incidents, t.incidents)
  {
    BatchPasses(h, batch, receivedAt, meanwhile);
    hide IngestAll;
  }
}
