/** The incident lifecycle table and the status walks that go through it. */
module Lifecycle {
  import opened Options

  datatype Status =
    | RECEIVED | TRIAGING | INVESTIGATING | DIAGNOSED | PLANNING | WAITING_APPROVAL
    | EXECUTING | VERIFYING | RESOLVED | NEED_HUMAN | FAILED

  function AllowedTransitions(s: Status): set<Status> {
    match s
    case RECEIVED => {TRIAGING, NEED_HUMAN, FAILED}
    case TRIAGING => {INVESTIGATING, NEED_HUMAN, FAILED}
    case INVESTIGATING => {DIAGNOSED, NEED_HUMAN, FAILED}
    case DIAGNOSED => {PLANNING, NEED_HUMAN, FAILED}
    case PLANNING => {WAITING_APPROVAL, NEED_HUMAN, FAILED}
    case WAITING_APPROVAL => {EXECUTING, PLANNING, NEED_HUMAN, FAILED}
    case EXECUTING => {VERIFYING, NEED_HUMAN, FAILED}
    case VERIFYING => {RESOLVED, PLANNING, NEED_HUMAN, FAILED}
    case NEED_HUMAN => {TRIAGING, INVESTIGATING, PLANNING, EXECUTING, VERIFYING, FAILED}
    case RESOLVED => {}
    case FAILED => {}
  }

  /** `ensure_transition`: the target when the table allows it, otherwise the raised error. */
  function EnsureTransition(current: Status, target: Status): Option<Status> {
    if target in AllowedTransitions(current) then Some(target) else None
  }

  predicate Open(s: Status) { s != RESOLVED && s != FAILED }

  /** A list of statuses that starts at RECEIVED and moves only along the table. */
  predicate LegalTrail(trail: seq<Status>) {
    && |trail| > 0 && trail[0] == RECEIVED
    && forall i :: 0 < i < |trail| ==> trail[i] in AllowedTransitions(trail[i - 1])
  }

  lemma HopAt(trail: seq<Status>, k: nat)
    requires LegalTrail(trail) && 0 < k < |trail|
    ensures trail[k] in AllowedTransitions(trail[k - 1])
  {
  }

  /** RESOLVED and FAILED are absorbing: nothing follows them on a legal trail. */
  lemma TerminalIsLast(trail: seq<Status>, i: nat)
    requires LegalTrail(trail) && i < |trail| && !Open(trail[i])
    ensures i == |trail| - 1
  {
    if i + 1 < |trail| {
      HopAt(trail, i + 1);
    }
  }

  /** On every legal trail the statuses of the recovery are entered only in order: RESOLVED from VERIFYING,
      VERIFYING and EXECUTING from the status before or from NEED_HUMAN, WAITING_APPROVAL from PLANNING. */
  lemma EnteredOnlyFrom(trail: seq<Status>, i: nat)
    requires LegalTrail(trail) && 0 < i < |trail|
    ensures trail[i] == RESOLVED ==> trail[i - 1] == VERIFYING
    ensures trail[i] == VERIFYING ==> trail[i - 1] in {EXECUTING, NEED_HUMAN}
    ensures trail[i] == EXECUTING ==> trail[i - 1] in {WAITING_APPROVAL, NEED_HUMAN}
    ensures trail[i] == WAITING_APPROVAL ==> trail[i - 1] == PLANNING
    ensures trail[i] == PLANNING ==> trail[i - 1] in {DIAGNOSED, WAITING_APPROVAL, VERIFYING, NEED_HUMAN}
    ensures trail[i] == DIAGNOSED ==> trail[i - 1] == INVESTIGATING
    ensures trail[i] == INVESTIGATING ==> trail[i - 1] in {TRIAGING, NEED_HUMAN}
    ensures trail[i] == TRIAGING ==> trail[i - 1] in {RECEIVED, NEED_HUMAN}
    ensures trail[i] != RECEIVED
  {
    HopAt(trail, i);
  }

  const GRAPH_STATUS_PATH: seq<Status> := [INVESTIGATING, DIAGNOSED, PLANNING, WAITING_APPROVAL]

  /** The statuses assigned while walking `path` from `current`; None when a hop is illegal. */
  function Walk(current: Status, path: seq<Status>): Option<seq<Status>>
    decreases |path|
  {
    if path == [] then Some([])
    else if current == path[0] then Walk(current, path[1..])
    else if EnsureTransition(current, path[0]).None? then None
    else match Walk(path[0], path[1..])
         case None => None
         case Some(hops) => Some([path[0]] + hops)
  }

  function Last(current: Status, hops: seq<Status>): Status {
    if hops == [] then current else hops[|hops| - 1]
  }

  /** A walk that does not raise stops at the end of the path and keeps the trail legal. */
  lemma {:induction false} WalkIsLegal(trail: seq<Status>, path: seq<Status>)
    requires LegalTrail(trail) && path != []
    requires Walk(trail[|trail| - 1], path).Some?
    ensures var hops := Walk(trail[|trail| - 1], path).value;
      LegalTrail(trail + hops) && Last(trail[|trail| - 1], hops) == path[|path| - 1]
    decreases |path|
  {
    var current := trail[|trail| - 1];
    var hops := Walk(current, path).value;
    if current == path[0] {
      if |path| == 1 {
        assert trail + [] == trail;
      } else {
        WalkIsLegal(trail, path[1..]);
      }
    } else {
      var longer := trail + [path[0]];
      if |path| == 1 {
        assert Walk(path[0], path[1..]) == Some([]);
        assert hops == [path[0]];
      } else {
        WalkIsLegal(longer, path[1..]);
        assert longer + hops[1..] == trail + hops;
      }
    }
  }

  /** The graph path can be walked from exactly three statuses; anywhere else it raises. */
  lemma GraphPathStarts(current: Status)
    ensures Walk(current, GRAPH_STATUS_PATH).Some? <==> current in {TRIAGING, INVESTIGATING, NEED_HUMAN}
  {
    var p := GRAPH_STATUS_PATH;
    assert p[1..] == [DIAGNOSED, PLANNING, WAITING_APPROVAL];
    assert p[1..][1..] == [PLANNING, WAITING_APPROVAL];
    assert p[1..][1..][1..] == [WAITING_APPROVAL];
    assert p[1..][1..][1..][1..] == [];
    assert Walk(WAITING_APPROVAL, []) == Some([]);
    assert Walk(PLANNING, [WAITING_APPROVAL]).Some?;
    assert Walk(DIAGNOSED, [PLANNING, WAITING_APPROVAL]).Some? by {
      assert [PLANNING, WAITING_APPROVAL][1..] == [WAITING_APPROVAL];
    }
    assert Walk(INVESTIGATING, [DIAGNOSED, PLANNING, WAITING_APPROVAL]).Some?;
  }
}
