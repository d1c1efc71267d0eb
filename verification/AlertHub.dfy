/** Alert de-duplication and five-minute incident correlation. The identity and group locks are held to
    commit, so batches that meet do so in commit order; other writers may move any incident's status
    between the statements of a batch. The database clock never runs backwards. */
module AlertHub {
  import opened Options
  import opened Lifecycle

  datatype AlertStatus = Firing | Cleared

  /** The unique identity of an alert row. */
  datatype Identity = Identity(source: string, project: string, fingerprint: string)

  datatype Facts = Facts(environment: string, service: string, name: string)

  datatype Envelope = Envelope(identity: Identity, facts: Facts, correlationKey: string, status: AlertStatus)

  /** What deliveries change about an alert row. */
  datatype Summary = Summary(status: AlertStatus, lastSeen: int, occurrences: nat)

  datatype Alert = Alert(identity: Identity, facts: Facts, correlationKey: string, summary: Summary)

  datatype Group = Group(project: string, environment: string, service: string, correlationKey: string)

  datatype Incident = Incident(group: Group, openedAt: int, status: Status)

  datatype Delivery = Delivery(time: int, status: AlertStatus)

  datatype Logged = Logged(identity: Identity, facts: Facts, delivery: Delivery)

  /** A status change by another writer. */
  datatype Move = Move(incident: nat, target: Status)

  /** What happens besides one turn of the ingestion loop: moves before the first look-up, moves between it
      and the correlation, and the clock's advance until the correlation lock is held. */
  datatype Meanwhile = Meanwhile(early: seq<Move>, late: seq<Move>, delay: nat)

  /** The tables, the database clock, and the log of every committed envelope. Times are microseconds; a link
      holds the time it was made. */
  datatype Hub = Hub(
    alerts: seq<Alert>, incidents: seq<Incident>, links: map<(nat, nat), int>, clock: int, log: seq<Logged>)

  const WINDOW := 300_000_000

  // ---------------------------------------------------------------- one envelope

  function FindAlert(alerts: seq<Alert>, id: Identity): (r: Option<nat>)
    ensures r.Some? ==> r.value < |alerts| && alerts[r.value].identity == id
    ensures r.None? ==> forall a :: 0 <= a < |alerts| ==> alerts[a].identity != id
  {
    if alerts == [] then None
    else
      var n := |alerts| - 1;
      if alerts[n].identity == id then Some(n) else FindAlert(alerts[..n], id)
  }

  /** A repeated delivery: a stale one counts but moves neither status nor last_seen. */
  function Deliver(s: Summary, d: Delivery): Summary {
    if d.time >= s.lastSeen then Summary(d.status, d.time, s.occurrences + 1)
    else s.(occurrences := s.occurrences + 1)
  }

  function First(d: Delivery): Summary { Summary(d.status, d.time, 1) }

  datatype Upsert = Conflict | Upserted(alerts: seq<Alert>, alert: nat, previous: Option<AlertStatus>)

  /** `_upsert_alert`. */
  function UpsertAlert(alerts: seq<Alert>, e: Envelope, receivedAt: int): (u: Upsert)
    ensures u.Upserted? ==> u.alert < |u.alerts|
  {
    var found := FindAlert(alerts, e.identity);
    var d := Delivery(receivedAt, e.status);
    if found.None? then Upserted(alerts + [Alert(e.identity, e.facts, e.correlationKey, First(d))], |alerts|, None)
    else if alerts[found.value].facts != e.facts then Conflict
    else
      var a := alerts[found.value];
      Upserted(alerts[found.value := a.(summary := Deliver(a.summary, d))], found.value, Some(a.summary.status))
  }

  /** Among the eligible incidents, the one opened last. */
  function Newest(incidents: seq<Incident>, eligible: set<nat>): (r: Option<nat>)
    ensures r.Some? ==> r.value < |incidents| && r.value in eligible
    ensures r.Some? ==> forall i :: 0 <= i < |incidents| && i in eligible ==> incidents[i].openedAt <= incidents[r.value].openedAt
    ensures r.None? ==> forall i :: 0 <= i < |incidents| ==> i !in eligible
  {
    if incidents == [] then None
    else
      var n := |incidents| - 1;
      var r := Newest(incidents[..n], eligible);
      if n in eligible && (r.None? || incidents[r.value].openedAt <= incidents[n].openedAt) then Some(n) else r
  }

  /** `find_linked_open_incident`. */
  function FindLinkedOpen(h: Hub, alert: nat): Option<nat> {
    Newest(h.incidents, set i | 0 <= i < |h.incidents| && (i, alert) in h.links && Open(h.incidents[i].status))
  }

  function GroupOf(a: Alert): Group { Group(a.identity.project, a.facts.environment, a.facts.service, a.correlationKey) }

  predicate Correlates(i: Incident, g: Group, now: int) {
    i.group == g && Open(i.status) && now - WINDOW <= i.openedAt <= now
  }

  /** `get_or_create_incident`: the incident already linked, else one inside the window, else a new one. */
  function GetOrCreate(h: Hub, alert: nat): (Hub, nat)
    requires alert < |h.alerts|
  {
    var g := GroupOf(h.alerts[alert]);
    var linked := FindLinkedOpen(h, alert);
    var found := Newest(h.incidents, set i | 0 <= i < |h.incidents| && Correlates(h.incidents[i], g, h.clock));
    if linked.Some? then (h, linked.value)
    else if found.Some? then (h, found.value)
    else (h.(incidents := h.incidents + [Incident(g, h.clock, RECEIVED)]), |h.incidents|)
  }

  /** One status change; the lifecycle table refuses the rest. */
  function Moved(incidents: seq<Incident>, m: Move): seq<Incident> {
    if m.incident < |incidents| && EnsureTransition(incidents[m.incident].status, m.target).Some?
    then incidents[m.incident := incidents[m.incident].(status := m.target)]
    else incidents
  }

  function AllMoved(incidents: seq<Incident>, moves: seq<Move>): seq<Incident>
    decreases |moves|
  {
    if moves == [] then incidents else AllMoved(Moved(incidents, moves[0]), moves[1..])
  }

  /** The hub after the upsert of one envelope, when its linked incident is looked up. */
  function AfterUpsert(h: Hub, e: Envelope, receivedAt: int, m: Meanwhile): Hub
    requires UpsertAlert(h.alerts, e, receivedAt).Upserted?
  {
    h.(alerts := UpsertAlert(h.alerts, e, receivedAt).alerts,
       incidents := AllMoved(h.incidents, m.early),
       log := h.log + [Logged(e.identity, e.facts, Delivery(receivedAt, e.status))])
  }

  /** The hub once the correlation lock is held. */
  function WhenLocked(h: Hub, m: Meanwhile): Hub {
    h.(incidents := AllMoved(h.incidents, m.late), clock := h.clock + m.delay)
  }

  /** The conflict-free insert of a link. */
  function Linked(h: Hub, incident: nat, alert: nat): Hub {
    if (incident, alert) in h.links then h else h.(links := h.links[(incident, alert) := h.clock])
  }

  datatype One = Clash | Done(hub: Hub, duplicate: bool, incident: Option<nat>)

  /** One turn of the ingestion loop. */
  function IngestOne(h: Hub, e: Envelope, receivedAt: int, m: Meanwhile): One {
    match UpsertAlert(h.alerts, e, receivedAt)
    case Conflict => Clash
    case Upserted(alerts, alert, previous) =>
      var h1 := AfterUpsert(h, e, receivedAt, m);
      var open := FindLinkedOpen(h1, alert);
      if alerts[alert].summary.status == Firing && open.None? then
        var (h2, i) := GetOrCreate(WhenLocked(h1, m), alert);
        Done(Linked(h2, i, alert), previous.Some?, Some(i))
      else Done(h1, previous.Some?, open)
  }

  // ---------------------------------------------------------------- a batch

  /** A rollback undoes the batch, not the status moves and the time that passed meanwhile. */
  datatype Batch = RolledBack(others: seq<Incident>, time: int) | Committed(hub: Hub, deduplicated: nat, incidents: set<nat>)

  /** The ingestion loop over the already ordered envelopes; a conflict rolls the whole batch back. */
  function IngestAll(h: Hub, batch: seq<Envelope>, receivedAt: int, meanwhile: nat -> Meanwhile): Batch {
    if batch == [] then Committed(h, 0, {})
    else
      var n := |batch| - 1;
      match IngestAll(h, batch[..n], receivedAt, meanwhile)
      case RolledBack(others, time) => RolledBack(others, time)
      case Committed(h', deduplicated, incidents) =>
        match IngestOne(h', batch[n], receivedAt, meanwhile(n))
        case Clash => RolledBack(if |h.incidents| <= |h'.incidents| then h'.incidents[..|h.incidents|] else h.incidents, h'.clock)
        case Done(hub, duplicate, incident) =>
          Committed(hub, deduplicated + (if duplicate then 1 else 0), incidents + (if incident.Some? then {incident.value} else {}))
  }

  /** The scope checks of `ingest_normalized_alerts`. */
  predicate InScope(project: string, source: string, batch: seq<Envelope>) {
    batch != [] && forall i :: 0 <= i < |batch| ==> batch[i].identity.project == project && batch[i].identity.source == source
  }

  // ---------------------------------------------------------------- runs

  datatype Action =
    | Ingest(project: string, source: string, batch: seq<Envelope>, receivedAt: int, meanwhile: nat -> Meanwhile)
    | MoveIncident(move: Move)

  function Next(h: Hub, a: Action): Hub {
    match a
    case Ingest(project, source, batch, receivedAt, meanwhile) =>
      if !InScope(project, source, batch) then h
      else
        (match IngestAll(h, batch, receivedAt, meanwhile)
         case RolledBack(others, time) => h.(incidents := others, clock := time)
         case Committed(hub, _, _) => hub)
    case MoveIncident(m) => h.(incidents := Moved(h.incidents, m))
  }

  ghost predicate Steps(s: Hub, t: Hub) { exists a: Action :: t == Next(s, a) }

  ghost predicate IsRun(run: seq<Hub>) {
    && |run| > 0 && run[0] == Hub([], [], map[], run[0].clock, [])
    && forall i {:trigger Steps(run[i - 1], run[i])} :: 0 < i < |run| ==> Steps(run[i - 1], run[i])
  }

  // ---------------------------------------------------------------- what every state satisfies

  /** The deliveries of one identity, in the order they were committed. */
  function DeliveriesOf(log: seq<Logged>, id: Identity): seq<Delivery> {
    if log == [] then []
    else
      var n := |log| - 1;
      DeliveriesOf(log[..n], id) + (if log[n].identity == id then [log[n].delivery] else [])
  }

  function Outcome(ds: seq<Delivery>): Summary
    requires ds != []
  {
    var n := |ds| - 1;
    if n == 0 then First(ds[0]) else Deliver(Outcome(ds[..n]), ds[n])
  }

  function Total(alerts: seq<Alert>): nat {
    if alerts == [] then 0 else Total(alerts[..|alerts| - 1]) + alerts[|alerts| - 1].summary.occurrences
  }

  ghost predicate AlertOk(h: Hub, a: Alert) {
    var ds := DeliveriesOf(h.log, a.identity);
    ds != [] && a.summary == Outcome(ds)
  }

  ghost predicate OutcomesOk(h: Hub) {
    && (forall a :: 0 <= a < |h.alerts| ==> AlertOk(h, h.alerts[a]))
    && (forall a, b :: 0 <= a < |h.alerts| && 0 <= b < |h.alerts| && h.alerts[a].identity == h.alerts[b].identity ==> a == b)
    && (forall k :: 0 <= k < |h.log| ==> FindAlert(h.alerts, h.log[k].identity).Some?)
    && Total(h.alerts) == |h.log|
  }

  /** Every committed envelope states the core facts of its identity's row. */
  ghost predicate FactsOk(h: Hub) {
    forall k, a :: 0 <= k < |h.log| && 0 <= a < |h.alerts| && h.log[k].identity == h.alerts[a].identity ==> h.log[k].facts == h.alerts[a].facts
  }

  ghost predicate AlertsOk(h: Hub) { OutcomesOk(h) && FactsOk(h) }

  /** Two open incidents of one group were opened more than the window apart. */
  ghost predicate Apart(h: Hub) {
    forall i, j :: 0 <= i < |h.incidents| && 0 <= j < |h.incidents| && i != j
      && h.incidents[i].group == h.incidents[j].group && Open(h.incidents[i].status) && Open(h.incidents[j].status)
      ==> h.incidents[i].openedAt - h.incidents[j].openedAt > WINDOW || h.incidents[j].openedAt - h.incidents[i].openedAt > WINDOW
  }

  /** A link was made while its incident was at most the window old. */
  ghost predicate LinkTimely(h: Hub, i: nat, a: nat)
    requires (i, a) in h.links && i < |h.incidents|
  {
    h.links[(i, a)] - WINDOW <= h.incidents[i].openedAt <= h.links[(i, a)] <= h.clock
  }

  ghost predicate LinksOk(h: Hub) {
    && (forall i, a :: (i, a) in h.links ==> i < |h.incidents| && a < |h.alerts| && h.incidents[i].group == GroupOf(h.alerts[a]) && LinkTimely(h, i, a))
    && (forall i, j, a :: (i, a) in h.links && (j, a) in h.links && Open(h.incidents[i].status) && Open(h.incidents[j].status) ==> i == j)
  }

  ghost predicate Inv(h: Hub) {
    && AlertsOk(h) && Apart(h) && LinksOk(h)
    && forall i :: 0 <= i < |h.incidents| ==> h.incidents[i].openedAt <= h.clock
  }

  // ---------------------------------------------------------------- preservation

  lemma {:induction false} DeliveriesAppend(log: seq<Logged>, x: Logged, id: Identity)
    ensures DeliveriesOf(log + [x], id) == DeliveriesOf(log, id) + (if x.identity == id then [x.delivery] else [])
  {
    assert (log + [x])[..|log|] == log;
  }

  lemma {:induction false} NoDeliveries(log: seq<Logged>, id: Identity)
    requires forall k :: 0 <= k < |log| ==> log[k].identity != id
    ensures DeliveriesOf(log, id) == []
  {
    if log != [] { NoDeliveries(log[..|log| - 1], id); }
  }

  lemma {:induction false} TotalUpdate(alerts: seq<Alert>, k: nat, a: Alert)
    requires k < |alerts|
    ensures Total(alerts[k := a]) + alerts[k].summary.occurrences == Total(alerts) + a.summary.occurrences
  {
    var n := |alerts| - 1;
    if k == n {
      assert alerts[k := a][..n] == alerts[..n];
    } else {
      assert alerts[k := a][..n] == alerts[..n][k := a];
      TotalUpdate(alerts[..n], k, a);
    }
  }

  /** A first delivery adds a row whose outcome is that delivery. */
  lemma NewRowKeeps(h: Hub, row: Alert, d: Delivery)
    requires OutcomesOk(h) && FindAlert(h.alerts, row.identity).None? && row.summary == First(d)
    ensures OutcomesOk(h.(alerts := h.alerts + [row], log := h.log + [Logged(row.identity, row.facts, d)]))
  {
    var x := Logged(row.identity, row.facts, d);
    var t := h.(alerts := h.alerts + [row], log := h.log + [x]);
    NoDeliveries(h.log, row.identity);
    forall a | 0 <= a < |t.alerts| ensures AlertOk(t, t.alerts[a]) {
      DeliveriesAppend(h.log, x, t.alerts[a].identity);
      if a < |h.alerts| {
        assert AlertOk(h, h.alerts[a]);
        assert DeliveriesOf(h.log, t.alerts[a].identity) + [] == DeliveriesOf(h.log, t.alerts[a].identity);
      }
    }
    assert t.alerts[..|h.alerts|] == h.alerts;
    forall k | 0 <= k < |t.log| ensures FindAlert(t.alerts, t.log[k].identity).Some? {
      if k < |h.log| { assert t.log[k] == h.log[k]; }
    }
  }

  /** A repeated delivery moves its row's outcome on by that delivery. */
  lemma RepeatKeeps(h: Hub, n: nat, d: Delivery)
    requires OutcomesOk(h) && n < |h.alerts|
    ensures var a := h.alerts[n];
      OutcomesOk(h.(alerts := h.alerts[n := a.(summary := Deliver(a.summary, d))], log := h.log + [Logged(a.identity, a.facts, d)]))
  {
    var x := Logged(h.alerts[n].identity, h.alerts[n].facts, d);
    var t := h.(alerts := h.alerts[n := h.alerts[n].(summary := Deliver(h.alerts[n].summary, d))], log := h.log + [x]);
    forall a | 0 <= a < |t.alerts| ensures AlertOk(t, t.alerts[a]) {
      var id := h.alerts[a].identity;
      var ds := DeliveriesOf(h.log, id);
      assert AlertOk(h, h.alerts[a]);
      DeliveriesAppend(h.log, x, id);
      assert (ds + [d])[..|ds|] == ds && ds + [] == ds;
    }
    TotalUpdate(h.alerts, n, t.alerts[n]);
    forall k | 0 <= k < |t.log| ensures FindAlert(t.alerts, t.log[k].identity).Some? {
      var found := FindAlert(h.alerts, t.log[k].identity);
      assert t.alerts[found.value].identity == t.log[k].identity;
    }
  }

  /** A conflicting envelope is not committed, so the committed ones agree. */
  lemma FactsKeep(h: Hub, e: Envelope, receivedAt: int)
    requires AlertsOk(h) && UpsertAlert(h.alerts, e, receivedAt).Upserted?
    ensures FactsOk(h.(alerts := UpsertAlert(h.alerts, e, receivedAt).alerts,
                       log := h.log + [Logged(e.identity, e.facts, Delivery(receivedAt, e.status))]))
  {
    hide FindAlert, Deliver, Outcome, DeliveriesOf, Total;
    var found := FindAlert(h.alerts, e.identity);
    forall k | found.None? && 0 <= k < |h.log| ensures h.log[k].identity != e.identity {
      var known := FindAlert(h.alerts, h.log[k].identity);
      assert h.alerts[known.value].identity == h.log[k].identity;
    }
  }

  /** Committing one envelope keeps every alert row equal to the outcome of its deliveries. */
  lemma UpsertKeeps(h: Hub, e: Envelope, receivedAt: int)
    requires AlertsOk(h) && UpsertAlert(h.alerts, e, receivedAt).Upserted?
    ensures var u := UpsertAlert(h.alerts, e, receivedAt);
      AlertsOk(h.(alerts := u.alerts, log := h.log + [Logged(e.identity, e.facts, Delivery(receivedAt, e.status))]))
  {
    FactsKeep(h, e, receivedAt);
    hide OutcomesOk, FactsOk;
    var d := Delivery(receivedAt, e.status);
    var found := FindAlert(h.alerts, e.identity);
    if found.None? {
      NewRowKeeps(h, Alert(e.identity, e.facts, e.correlationKey, First(d)), d);
    } else {
      RepeatKeeps(h, found.value, d);
    }
  }

  lemma UpsertedKeeps(h: Hub, e: Envelope, receivedAt: int)
    requires Inv(h) && UpsertAlert(h.alerts, e, receivedAt).Upserted?
    ensures Inv(AfterUpsert(h, e, receivedAt, Meanwhile([], [], 0)))
  {
    hide AlertsOk, FindAlert, Deliver;
    var t := AfterUpsert(h, e, receivedAt, Meanwhile([], [], 0));
    NoMoves(h);
    UpsertKeeps(h, e, receivedAt);
    assert t == h.(alerts := t.alerts, log := t.log);
    SameGroups(h.alerts, e, receivedAt);
    hide UpsertAlert, AfterUpsert, AllMoved, GroupOf;
    assert Apart(t);
    assert LinksOk(t);
  }

  lemma SameGroups(alerts: seq<Alert>, e: Envelope, receivedAt: int)
    requires UpsertAlert(alerts, e, receivedAt).Upserted?
    ensures var after := UpsertAlert(alerts, e, receivedAt).alerts;
      |alerts| <= |after| && forall a :: 0 <= a < |alerts| ==> GroupOf(after[a]) == GroupOf(alerts[a])
  {
    hide FindAlert, Deliver;
  }

  /** One envelope keeps every guarantee, whatever status moves happen meanwhile. */
  lemma OneKeeps(h: Hub, e: Envelope, receivedAt: int, m: Meanwhile)
    requires Inv(h) && IngestOne(h, e, receivedAt, m).Done?
    ensures Inv(IngestOne(h, e, receivedAt, m).hub)
  {
    hide Inv, AllMoved;
    var u := UpsertAlert(h.alerts, e, receivedAt);
    var h1 := AfterUpsert(h, e, receivedAt, m);
    UpsertedKeeps(h, e, receivedAt);
    NoMoves(h);
    MovesKeep(AfterUpsert(h, e, receivedAt, Meanwhile([], [], 0)), m.early, 0);
    if u.alerts[u.alert].summary.status == Firing && FindLinkedOpen(h1, u.alert).None? {
      MovesKeep(h1, m.late, m.delay);
      SecondLookupAgrees(h1, u.alert, m);
      CorrelateKeeps(WhenLocked(h1, m), u.alert);
    }
  }

  lemma NoMoves(h: Hub)
    ensures AllMoved(h.incidents, []) == h.incidents
  {
  }

  /** The second look-up inside `get_or_create_incident` never finds what the first one missed, because a
      terminal incident is never reopened. */
  lemma SecondLookupAgrees(h: Hub, alert: nat, m: Meanwhile)
    requires Inv(h) && FindLinkedOpen(h, alert).None?
    ensures FindLinkedOpen(WhenLocked(h, m), alert).None?
  {
    hide AlertsOk, Apart;
    MovesOnlyClose(h.incidents, m.late);
    var t := WhenLocked(h, m);
    var before := set i | 0 <= i < |h.incidents| && (i, alert) in h.links && Open(h.incidents[i].status);
    var after := set i | 0 <= i < |t.incidents| && (i, alert) in t.links && Open(t.incidents[i].status);
    forall i | i in after ensures i in before { }
  }

  /** Moves change statuses only, and never reopen a terminal incident. */
  ghost predicate OnlyCloses(x: seq<Incident>, y: seq<Incident>) {
    |x| == |y| && forall i :: 0 <= i < |x| ==>
      y[i].group == x[i].group && y[i].openedAt == x[i].openedAt && (Open(y[i].status) ==> Open(x[i].status))
  }

  lemma {:induction false} MovesOnlyClose(incidents: seq<Incident>, moves: seq<Move>)
    ensures OnlyCloses(incidents, AllMoved(incidents, moves))
    decreases |moves|
  {
    if moves != [] {
      assert OnlyCloses(incidents, Moved(incidents, moves[0]));
      MovesOnlyClose(Moved(incidents, moves[0]), moves[1..]);
    }
  }

  /** Status moves and the passing of time keep every guarantee. */
  lemma ClosingKeeps(h: Hub, incidents: seq<Incident>, clock: int)
    requires Inv(h) && OnlyCloses(h.incidents, incidents) && clock >= h.clock
    ensures Inv(h.(incidents := incidents, clock := clock))
  {
    var t := h.(incidents := incidents, clock := clock);
    AlertsIgnoreRest(h, t);
    hide AlertsOk;
  }

  lemma MovesKeep(h: Hub, moves: seq<Move>, delay: nat)
    requires Inv(h)
    ensures Inv(h.(incidents := AllMoved(h.incidents, moves), clock := h.clock + delay))
  {
    hide Inv, OnlyCloses;
    MovesOnlyClose(h.incidents, moves);
    ClosingKeeps(h, AllMoved(h.incidents, moves), h.clock + delay);
  }

  /** The incidents that existed before are at most moved, and time does not run backwards. */
  ghost predicate Passes(x: Hub, y: Hub) {
    |x.incidents| <= |y.incidents| && OnlyCloses(x.incidents, y.incidents[..|x.incidents|]) && x.clock <= y.clock
  }

  lemma EnvelopePasses(h: Hub, e: Envelope, receivedAt: int, m: Meanwhile)
    requires IngestOne(h, e, receivedAt, m).Done?
    ensures Passes(h, IngestOne(h, e, receivedAt, m).hub)
  {
    hide UpsertAlert, Newest, AllMoved;
    var h1 := AfterUpsert(h, e, receivedAt, m);
    MovesOnlyClose(h.incidents, m.early);
    MovesOnlyClose(h1.incidents, m.late);
  }

  lemma {:induction false} BatchPasses(h: Hub, batch: seq<Envelope>, receivedAt: int, meanwhile: nat -> Meanwhile)
    ensures match IngestAll(h, batch, receivedAt, meanwhile)
      case RolledBack(others, time) => OnlyCloses(h.incidents, others) && time >= h.clock
      case Committed(hub, _, _) => Passes(h, hub)
  {
    if batch == [] {
      assert h.incidents[..|h.incidents|] == h.incidents;
    } else {
      var n := |batch| - 1;
      BatchPasses(h, batch[..n], receivedAt, meanwhile);
      var before := IngestAll(h, batch[..n], receivedAt, meanwhile);
      hide IngestOne, Passes, OnlyCloses;
      if before.Committed? {
        PassedRows(h, before.hub);
        if IngestOne(before.hub, batch[n], receivedAt, meanwhile(n)).Done? {
          EnvelopePasses(before.hub, batch[n], receivedAt, meanwhile(n));
          PassesTransitive(h, before.hub, IngestOne(before.hub, batch[n], receivedAt, meanwhile(n)).hub);
        }
      }
    }
  }

  lemma PassedRows(x: Hub, y: Hub)
    requires Passes(x, y)
    ensures |x.incidents| <= |y.incidents| && OnlyCloses(x.incidents, y.incidents[..|x.incidents|]) && x.clock <= y.clock
  {
  }

  lemma PassesTransitive(x: Hub, y: Hub, z: Hub)
    requires Passes(x, y) && Passes(y, z)
    ensures Passes(x, z)
  {
    var n := |x.incidents|;
    assert forall i :: 0 <= i < n ==> y.incidents[..n][i] == y.incidents[i] && z.incidents[..n][i] == z.incidents[..|y.incidents|][i];
  }

  lemma AlertsIgnoreRest(x: Hub, y: Hub)
    requires AlertsOk(x) && x.alerts == y.alerts && x.log == y.log
    ensures AlertsOk(y)
  {
    assert forall a :: 0 <= a < |y.alerts| ==> AlertOk(x, y.alerts[a]);
    assert FactsOk(y);
  }

  /** Joining or opening an incident for an alert that has no open one. */
  lemma CorrelateKeeps(h: Hub, alert: nat)
    requires Inv(h) && alert < |h.alerts| && FindLinkedOpen(h, alert).None?
    ensures var (h2, i) := GetOrCreate(h, alert); Inv(Linked(h2, i, alert))
  {
    var (h2, i) := GetOrCreate(h, alert);
    OpeningKeeps(h, alert);
    NoOpenLink(h, alert);
    hide Inv, Newest, FindLinkedOpen;
    LinkingKeeps(h2, i, alert);
  }

  lemma OpeningKeeps(h: Hub, alert: nat)
    requires Inv(h) && alert < |h.alerts| && FindLinkedOpen(h, alert).None?
    ensures var (h2, i) := GetOrCreate(h, alert);
      Inv(h2) && h2.alerts == h.alerts && h2.links == h.links && h.incidents <= h2.incidents && i < |h2.incidents|
      && h2.incidents[i].group == GroupOf(h.alerts[alert]) && h2.clock == h.clock
      && h2.clock - WINDOW <= h2.incidents[i].openedAt <= h2.clock
  {
    var (h2, i) := GetOrCreate(h, alert);
    OutsideWindow(h, alert);
    AlertsIgnoreRest(h, h2);
    hide AlertsOk, Newest, FindLinkedOpen;
    assert Apart(h2);
    assert LinksOk(h2);
  }

  /** Linking an alert without an open incident to an incident of its group. */
  lemma LinkingKeeps(h: Hub, i: nat, alert: nat)
    requires Inv(h) && i < |h.incidents| && alert < |h.alerts| && h.incidents[i].group == GroupOf(h.alerts[alert])
    requires h.clock - WINDOW <= h.incidents[i].openedAt <= h.clock
    requires forall k :: (k, alert) in h.links ==> k < |h.incidents| && !Open(h.incidents[k].status)
    ensures Inv(Linked(h, i, alert))
  {
    AlertsIgnoreRest(h, Linked(h, i, alert));
    hide AlertsOk;
  }

  lemma NoOpenLink(h: Hub, alert: nat)
    requires LinksOk(h) && FindLinkedOpen(h, alert).None?
    ensures forall k :: (k, alert) in h.links ==> k < |h.incidents| && !Open(h.incidents[k].status)
  {
    var eligible := set n | 0 <= n < |h.incidents| && (n, alert) in h.links && Open(h.incidents[n].status);
    forall k | (k, alert) in h.links ensures !Open(h.incidents[k].status) {
      assert k !in eligible;
    }
  }

  /** A new incident is opened only when every open one of the group is outside the window. */
  lemma OutsideWindow(h: Hub, alert: nat)
    requires alert < |h.alerts| && FindLinkedOpen(h, alert).None?
    requires forall k :: 0 <= k < |h.incidents| ==> h.incidents[k].openedAt <= h.clock
    ensures var i := GetOrCreate(h, alert).1;
      i == |h.incidents| ==> forall k :: 0 <= k < |h.incidents| && h.incidents[k].group == GroupOf(h.alerts[alert]) && Open(h.incidents[k].status) ==>
        h.clock - h.incidents[k].openedAt > WINDOW
  {
    var g := GroupOf(h.alerts[alert]);
    var eligible := set n | 0 <= n < |h.incidents| && Correlates(h.incidents[n], g, h.clock);
    if Newest(h.incidents, eligible).None? {
      forall k | 0 <= k < |h.incidents| && h.incidents[k].group == g && Open(h.incidents[k].status)
        ensures h.clock - h.incidents[k].openedAt > WINDOW
      {
        assert k !in eligible;
      }
    }
  }

  lemma {:induction false} AllKeeps(h: Hub, batch: seq<Envelope>, receivedAt: int, meanwhile: nat -> Meanwhile)
    requires Inv(h) && IngestAll(h, batch, receivedAt, meanwhile).Committed?
    ensures Inv(IngestAll(h, batch, receivedAt, meanwhile).hub)
  {
    if batch != [] {
      var n := |batch| - 1;
      AllKeeps(h, batch[..n], receivedAt, meanwhile);
      OneKeeps(IngestAll(h, batch[..n], receivedAt, meanwhile).hub, batch[n], receivedAt, meanwhile(n));
    }
  }

  lemma NextKeeps(h: Hub, a: Action)
    requires Inv(h)
    ensures Inv(Next(h, a))
  {
    hide Inv;
    match a
    case Ingest(project, source, batch, receivedAt, meanwhile) =>
      if InScope(project, source, batch) {
        hide IngestAll, OnlyCloses;
        BatchPasses(h, batch, receivedAt, meanwhile);
        match IngestAll(h, batch, receivedAt, meanwhile)
        case RolledBack(others, time) => ClosingKeeps(h, others, time);
        case Committed(_, _, _) => AllKeeps(h, batch, receivedAt, meanwhile);
      }
    case MoveIncident(m) =>
      assert AllMoved(Moved(h.incidents, m), []) == Moved(h.incidents, m);
      MovesKeep(h, [m], 0);
  }

  lemma StepKeeps(s: Hub, t: Hub)
    requires Inv(s) && Steps(s, t)
    ensures Inv(t)
  {
    hide Inv, Next;
    var a :| t == Next(s, a);
    NextKeeps(s, a);
  }

  lemma {:induction false} RunKeeps(run: seq<Hub>, i: nat)
    requires IsRun(run) && i < |run|
    ensures Inv(run[i])
  {
    hide Inv, Next;
    if i == 0 {
      EmptyIsOk(run[0].clock);
    } else {
      RunKeeps(run, i - 1);
      assert Steps(run[i - 1], run[i]);
      StepKeeps(run[i - 1], run[i]);
    }
  }

  lemma EmptyIsOk(clock: int)
    ensures Inv(Hub([], [], map[], clock, []))
  {
  }

  // ---------------------------------------------------------------- guarantees

  /** In every state of every run, two open incidents of one correlation group were opened more than five
      minutes apart, and each alert is linked to at most one open incident, always of its own group. */
  lemma CorrelationHolds(run: seq<Hub>, n: nat, i: nat, j: nat, alert: nat)
    requires IsRun(run) && n < |run| && i < |run[n].incidents| && j < |run[n].incidents|
    requires Open(run[n].incidents[i].status) && Open(run[n].incidents[j].status) && i != j
    ensures run[n].incidents[i].group == run[n].incidents[j].group && run[n].incidents[i].openedAt <= run[n].incidents[j].openedAt
      ==> run[n].incidents[j].openedAt - run[n].incidents[i].openedAt > WINDOW
    ensures !((i, alert) in run[n].links && (j, alert) in run[n].links)
    ensures (i, alert) in run[n].links ==> alert < |run[n].alerts| && run[n].incidents[i].group == GroupOf(run[n].alerts[alert])
  {
    RunKeeps(run, n);
  }

  /** In every state of every run, each alert row is the outcome of its identity's committed deliveries,
      there is one row per identity, and the occurrence counts add up to the envelopes committed. */
  lemma RowsAreOutcomes(run: seq<Hub>, n: nat, a: nat, b: nat)
    requires IsRun(run) && n < |run| && a < |run[n].alerts| && b < |run[n].alerts|
    ensures var h := run[n]; var ds := DeliveriesOf(h.log, h.alerts[a].identity);
      && ds != [] && h.alerts[a].summary == Outcome(ds)
      && (h.alerts[a].identity == h.alerts[b].identity ==> a == b)
      && Total(h.alerts) == |h.log|
  {
    RunKeeps(run, n);
    assert AlertOk(run[n], run[n].alerts[a]);
  }

  /** Every envelope of a committed batch is either a duplicate or one new alert row. */
  lemma {:induction false} BatchAddsUp(h: Hub, batch: seq<Envelope>, receivedAt: int, meanwhile: nat -> Meanwhile)
    requires IngestAll(h, batch, receivedAt, meanwhile).Committed?
    ensures var c := IngestAll(h, batch, receivedAt, meanwhile);
      c.deduplicated + (|c.hub.alerts| - |h.alerts|) == |batch| && |c.hub.log| == |h.log| + |batch|
  {
    if batch != [] {
      var n := |batch| - 1;
      BatchAddsUp(h, batch[..n], receivedAt, meanwhile);
      EnvelopeAddsUp(IngestAll(h, batch[..n], receivedAt, meanwhile).hub, batch[n], receivedAt, meanwhile(n));
      hide IngestOne;
    }
  }

  lemma EnvelopeAddsUp(h: Hub, e: Envelope, receivedAt: int, m: Meanwhile)
    requires IngestOne(h, e, receivedAt, m).Done?
    ensures var o := IngestOne(h, e, receivedAt, m);
      |o.hub.log| == |h.log| + 1 && |o.hub.alerts| == |h.alerts| + if o.duplicate then 0 else 1
  {
    hide FindAlert, Deliver, Newest, AllMoved;
  }

  /** What an outcome is: every delivery counted, the latest time, and the status of the last processed
      delivery with that time. */
  lemma {:induction false} OutcomeIs(ds: seq<Delivery>) returns (k: nat)
    requires ds != []
    ensures k < |ds| && Outcome(ds) == Summary(ds[k].status, ds[k].time, |ds|)
    ensures forall i :: 0 <= i < |ds| ==> ds[i].time <= ds[k].time && (ds[i].time == ds[k].time ==> i <= k)
  {
    var n := |ds| - 1;
    k := 0;
    if n > 0 {
      k := OutcomeIs(ds[..n]);
      if ds[n].time >= ds[k].time { k := n; }
    }
  }

  /** Alert rows are never removed or renamed, and committed envelopes are never forgotten. */
  ghost predicate Grows(x: Hub, y: Hub) {
    && |x.alerts| <= |y.alerts| && x.log <= y.log
    && forall a :: 0 <= a < |x.alerts| ==> y.alerts[a].identity == x.alerts[a].identity && GroupOf(y.alerts[a]) == GroupOf(x.alerts[a])
  }

  lemma {:induction false} BatchGrows(h: Hub, batch: seq<Envelope>, receivedAt: int, meanwhile: nat -> Meanwhile)
    requires IngestAll(h, batch, receivedAt, meanwhile).Committed?
    ensures Grows(h, IngestAll(h, batch, receivedAt, meanwhile).hub)
  {
    if batch != [] {
      var n := |batch| - 1;
      BatchGrows(h, batch[..n], receivedAt, meanwhile);
      EnvelopeGrows(IngestAll(h, batch[..n], receivedAt, meanwhile).hub, batch[n], receivedAt, meanwhile(n));
      hide IngestOne;
    }
  }

  lemma EnvelopeGrows(h: Hub, e: Envelope, receivedAt: int, m: Meanwhile)
    requires IngestOne(h, e, receivedAt, m).Done?
    ensures Grows(h, IngestOne(h, e, receivedAt, m).hub)
  {
    hide FindAlert, Deliver, Newest, AllMoved;
    SameGroups(h.alerts, e, receivedAt);
  }

  lemma {:induction false} RunGrows(run: seq<Hub>, m: nat, n: nat)
    requires IsRun(run) && m <= n < |run|
    ensures Grows(run[m], run[n])
    decreases n
  {
    if m < n {
      RunGrows(run, m, n - 1);
      assert Steps(run[n - 1], run[n]);
      StepGrows(run[n - 1], run[n]);
    }
  }

  lemma StepGrows(s: Hub, t: Hub)
    requires Steps(s, t)
    ensures Grows(s, t)
  {
    hide IngestAll;
    var a :| t == Next(s, a);
    if a.Ingest? && InScope(a.project, a.source, a.batch) && IngestAll(s, a.batch, a.receivedAt, a.meanwhile).Committed? {
      BatchGrows(s, a.batch, a.receivedAt, a.meanwhile);
    }
  }

  lemma {:induction false} DeliveriesConcat(log: seq<Logged>, more: seq<Logged>, id: Identity)
    ensures DeliveriesOf(log + more, id) == DeliveriesOf(log, id) + DeliveriesOf(more, id)
  {
    if more == [] {
      assert log + more == log;
    } else {
      var n := |more| - 1;
      assert (log + more)[..|log| + n] == log + more[..n];
      DeliveriesConcat(log, more[..n], id);
    }
  }

  lemma {:induction false} OutcomeGrows(ds: seq<Delivery>, more: seq<Delivery>)
    requires ds != []
    ensures Outcome(ds + more).lastSeen >= Outcome(ds).lastSeen && Outcome(ds + more).occurrences == Outcome(ds).occurrences + |more|
  {
    if more == [] {
      assert ds + more == ds;
    } else {
      var n := |more| - 1;
      OutcomeGrows(ds, more[..n]);
      assert (ds + more)[..|ds| + n] == ds + more[..n];
    }
  }

  /** Along every run an alert row stays, its last_seen never decreases, and its count grows by exactly the
      deliveries of its identity committed in between. */
  lemma LastSeenGrows(run: seq<Hub>, m: nat, n: nat, a: nat)
    requires IsRun(run) && m <= n < |run| && a < |run[m].alerts|
    ensures a < |run[n].alerts| && run[n].alerts[a].identity == run[m].alerts[a].identity
    ensures run[n].alerts[a].summary.lastSeen >= run[m].alerts[a].summary.lastSeen
    ensures run[m].log <= run[n].log
    ensures run[n].alerts[a].summary.occurrences ==
      run[m].alerts[a].summary.occurrences + |DeliveriesOf(run[n].log[|run[m].log|..], run[m].alerts[a].identity)|
  {
    RunGrows(run, m, n);
    var id, more := run[m].alerts[a].identity, run[n].log[|run[m].log|..];
    assert run[n].log == run[m].log + more;
    DeliveriesConcat(run[m].log, more, id);
    RowsAreOutcomes(run, m, a, a);
    RowsAreOutcomes(run, n, a, a);
    OutcomeGrows(DeliveriesOf(run[m].log, id), DeliveriesOf(more, id));
  }

  /** All deliveries with the latest time agree on the status. */
  predicate LatestAgree(ds: seq<Delivery>) {
    forall i, j :: 0 <= i < |ds| && 0 <= j < |ds| && ds[i].time == ds[j].time && (forall k :: 0 <= k < |ds| ==> ds[k].time <= ds[i].time)
      ==> ds[i].status == ds[j].status
  }

  /** The processing order makes no difference exactly when the deliveries with the latest time agree; in
      particular it makes none when all received_at values are distinct. */
  lemma OrderIndependence(ds: seq<Delivery>)
    requires ds != []
    ensures (forall p :: p != [] && multiset(p) == multiset(ds) ==> Outcome(p) == Outcome(ds)) <==> LatestAgree(ds)
    ensures (forall i, j :: 0 <= i < j < |ds| ==> ds[i].time != ds[j].time) ==> LatestAgree(ds)
  {
    if LatestAgree(ds) {
      forall p | p != [] && multiset(p) == multiset(ds) ensures Outcome(p) == Outcome(ds) {
        SameOutcome(ds, p);
      }
    } else {
      var i, j :| 0 <= i < |ds| && 0 <= j < |ds| && ds[i].time == ds[j].time && (forall k :: 0 <= k < |ds| ==> ds[k].time <= ds[i].time)
        && ds[i].status != ds[j].status;
      var p, q := MovedLast(ds, i), MovedLast(ds, j);
      EndsWith(ds, i, p);
      EndsWith(ds, j, q);
      assert Outcome(p) != Outcome(q);
      assert Outcome(p) != Outcome(ds) || Outcome(q) != Outcome(ds);
    }
  }

  function MovedLast(ds: seq<Delivery>, i: nat): seq<Delivery>
    requires i < |ds|
  {
    ds[..i] + ds[i + 1..] + [ds[i]]
  }

  lemma EndsWith(ds: seq<Delivery>, i: nat, p: seq<Delivery>)
    requires i < |ds| && p == MovedLast(ds, i) && forall k :: 0 <= k < |ds| ==> ds[k].time <= ds[i].time
    ensures multiset(p) == multiset(ds) && p != [] && Outcome(p).status == ds[i].status
  {
    assert ds == ds[..i] + [ds[i]] + ds[i + 1..];
    var k := OutcomeIs(p);
    assert p[|p| - 1] == ds[i];
    assert p[k] in p;
    assert forall d :: d in p ==> d in multiset(p);
    assert p[k] in multiset(ds);
  }

  lemma SameOutcome(ds: seq<Delivery>, p: seq<Delivery>)
    requires ds != [] && p != [] && multiset(p) == multiset(ds) && LatestAgree(ds)
    ensures Outcome(p) == Outcome(ds)
  {
    var k := OutcomeIs(ds);
    var l := OutcomeIs(p);
    assert |p| == |multiset(p)| == |multiset(ds)| == |ds|;
    assert p[l] in multiset(p) && ds[k] in multiset(ds);
    assert p[l] in ds && ds[k] in p;
    var i :| 0 <= i < |ds| && ds[i] == p[l];
  }
}
