/** Alert ingestion as the service writes it: tables updated in place, a loop with a running counter and a
    running set, and a rollback when an identity conflict is raised. */
module AlertStore {
  import opened Options
  import opened Lifecycle
  import opened AlertHub

  datatype Ingested = Refused | IdentityConflict | Ingested(deduplicated: nat, incidents: set<nat>)

  class Store {
    var alerts: seq<Alert>
    var incidents: seq<Incident>
    var links: map<(nat, nat), int>
    var clock: int
    ghost var log: seq<Logged>

    constructor (now: int)
      ensures State() == Hub([], [], map[], now, [])
    {
      alerts, incidents, links, clock, log := [], [], map[], now, [];
    }

    ghost function State(): Hub
      reads this
    {
      Hub(alerts, incidents, links, clock, log)
    }

    /** `_upsert_alert`; `None` is the raised identity conflict. */
    method UpsertAlert(e: Envelope, receivedAt: int) returns (alert: Option<nat>, previous: Option<AlertStatus>)
      modifies this`alerts, this`log
      ensures var u := AlertHub.UpsertAlert(old(alerts), e, receivedAt);
        && (u.Conflict? <==> alert.None?)
        && (u.Conflict? ==> State() == old(State()))
        && (u.Upserted? ==> u == Upserted(alerts, alert.value, previous)
                            && log == old(log) + [Logged(e.identity, e.facts, Delivery(receivedAt, e.status))])
    {
      var found := FindAlert(alerts, e.identity);
      if found.None? {
        alerts := alerts + [Alert(e.identity, e.facts, e.correlationKey, Summary(e.status, receivedAt, 1))];
        alert, previous := Some(|alerts| - 1), None;
      } else {
        var a := alerts[found.value];
        if a.facts != e.facts { return None, None; }
        alert, previous := found, Some(a.summary.status);
        var summary := a.summary;
        if receivedAt >= summary.lastSeen {
          summary := summary.(status := e.status, lastSeen := receivedAt);
        }
        summary := summary.(occurrences := summary.occurrences + 1);
        alerts := alerts[found.value := a.(summary := summary)];
      }
      log := log + [Logged(e.identity, e.facts, Delivery(receivedAt, e.status))];
    }

    /** `get_or_create_incident`. */
    method GetOrCreateIncident(alert: nat) returns (incident: nat)
      requires alert < |alerts|
      modifies this`incidents
      ensures (State(), incident) == GetOrCreate(old(State()), alert)
    {
      var linked := Newest(incidents, set i | 0 <= i < |incidents| && (i, alert) in links && Open(incidents[i].status));
      if linked.Some? { return linked.value; }
      var g := GroupOf(alerts[alert]);
      var found := Newest(incidents, set i | 0 <= i < |incidents| && Correlates(incidents[i], g, clock));
      if found.Some? { return found.value; }
      incidents := incidents + [Incident(g, clock, RECEIVED)];
      return |incidents| - 1;
    }

    /** `link_alert_to_incident`: the conflict-free insert; `false` when the pair is already there. */
    method LinkAlert(incident: nat, alert: nat) returns (created: bool)
      modifies this`links
      ensures links == Linked(old(State()), incident, alert).links && (created <==> (incident, alert) !in old(links))
      ensures (incident, alert) in links && forall other :: other in old(links) ==> other in links && links[other] == old(links)[other]
    {
      created := (incident, alert) !in links;
      if created {
        links := links[(incident, alert) := clock];
      }
    }

    /** Other writers' status changes. */
    method Interfere(moves: seq<Move>)
      modifies this`incidents
      ensures incidents == AllMoved(old(incidents), moves)
    {
      for k := 0 to |moves|
        invariant AllMoved(incidents, moves[k..]) == AllMoved(old(incidents), moves)
      {
        assert moves[k..][0] == moves[k] && moves[k..][1..] == moves[k + 1..];
        incidents := Moved(incidents, moves[k]);
      }
      assert moves[|moves|..] == [];
    }

    /** One turn of the ingestion loop; `false` is the raised identity conflict, which leaves the tables alone. */
    method IngestEnvelope(e: Envelope, receivedAt: int, m: Meanwhile)
      returns (ok: bool, duplicate: bool, incident: Option<nat>)
      modifies this
      ensures IngestOne(old(State()), e, receivedAt, m) == if ok then Done(State(), duplicate, incident) else Clash
      ensures !ok ==> State() == old(State())
    {
      hide Newest, AllMoved, Deliver, FindAlert, GetOrCreate;
      var alert, previous := UpsertAlert(e, receivedAt);
      if alert.None? { return false, false, None; }
      Interfere(m.early);
      assert State() == AfterUpsert(old(State()), e, receivedAt, m);
      incident := Newest(incidents, set i | 0 <= i < |incidents| && (i, alert.value) in links && Open(incidents[i].status));
      if alerts[alert.value].summary.status == Firing && incident.None? {
        Interfere(m.late);
        clock := clock + m.delay;
        var i := GetOrCreateIncident(alert.value);
        incident := Some(i);
        var created := LinkAlert(i, alert.value);
      }
      return true, previous.Some?, incident;
    }

    /** `ingest_normalized_alerts`: one action of the hub. A rollback undoes this batch's own rows only. */
    method Ingest(project: string, source: string, batch: seq<Envelope>, receivedAt: int, meanwhile: nat -> Meanwhile)
      returns (result: Ingested)
      modifies this
      ensures State() == Next(old(State()), AlertHub.Ingest(project, source, batch, receivedAt, meanwhile))
      ensures result.Refused? <==> !InScope(project, source, batch)
      ensures result.IdentityConflict? <==> InScope(project, source, batch) && IngestAll(old(State()), batch, receivedAt, meanwhile).RolledBack?
      ensures result.Ingested? ==>
        IngestAll(old(State()), batch, receivedAt, meanwhile) == Committed(State(), result.deduplicated, result.incidents)
    {
      hide IngestOne;
      if !InScope(project, source, batch) { return Refused; }
      var alertsBefore, linksBefore, existing := alerts, links, |incidents|;
      ghost var logBefore := log;
      var ids: set<nat> := {};
      var deduplicated := 0;
      for k := 0 to |batch|
        invariant IngestAll(old(State()), batch[..k], receivedAt, meanwhile) == Committed(State(), deduplicated, ids)
      {
        assert batch[..k + 1][..k] == batch[..k];
        var ok, duplicate, incident := IngestEnvelope(batch[k], receivedAt, meanwhile(k));
        if !ok {
          ConflictRollsBack(old(State()), batch, k, receivedAt, meanwhile);
          BatchPasses(old(State()), batch[..k], receivedAt, meanwhile);
          alerts, incidents, links, log := alertsBefore, incidents[..existing], linksBefore, logBefore;
          return IdentityConflict;
        }
        if duplicate {
          deduplicated := deduplicated + 1;
        }
        if incident.Some? {
          ids := ids + {incident.value};
        }
      }
      assert batch[..|batch|] == batch;
      return Ingested(deduplicated, ids);
    }
  }

  /** A conflict at any envelope rolls back the whole batch, but not what others did meanwhile. */
  lemma {:induction false} ConflictRollsBack(h: Hub, batch: seq<Envelope>, k: nat, receivedAt: int, meanwhile: nat -> Meanwhile)
    requires k < |batch| && IngestAll(h, batch[..k], receivedAt, meanwhile).Committed?
    requires IngestOne(IngestAll(h, batch[..k], receivedAt, meanwhile).hub, batch[k], receivedAt, meanwhile(k)).Clash?
    ensures var h' := IngestAll(h, batch[..k], receivedAt, meanwhile).hub;
      |h.incidents| <= |h'.incidents| ==>
        IngestAll(h, batch, receivedAt, meanwhile) == RolledBack(h'.incidents[..|h.incidents|], h'.clock)
    decreases |batch|
  {
    hide IngestOne;
    var n := |batch| - 1;
    if k < n {
      assert batch[..n][..k] == batch[..k];
      ConflictRollsBack(h, batch[..n], k, receivedAt, meanwhile);
    }
  }
}
