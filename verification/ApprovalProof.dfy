/** The signed approval facts that cross the Recovery boundary: the worker signs them, the server recomputes
    the signature. HMAC-SHA-256 is an injective constructor. */
module ApprovalProof {
  import opened Options
  import opened Text
  import opened Policy

  /** The nine signed facts; `approval` is the printed UUID. */
  datatype Facts = Facts(
    project: string, environment: string, service: string, currentVersion: string, targetVersion: string,
    planHash: string, approval: string, nonce: string, issuedAt: int)

  datatype Signature = Signature(secret: string, payload: string)

  datatype Request = Request(facts: Facts, proof: Signature)

  // ---------------------------------------------------------------- the request schema

  predicate IsSlug(s: string, longest: nat) {
    && 2 <= |s| <= longest + 1 && (IsDigit(s[0]) || IsLower(s[0]))
    && forall i :: 0 < i < |s| ==> IsDigit(s[i]) || IsLower(s[i]) || s[i] == '-'
  }

  predicate IsHash(s: string) { |s| == 64 && forall i :: 0 <= i < |s| ==> IsLowerHex(s[i]) }

  predicate IsUuid(s: string) {
    |s| == 36 && forall i :: 0 <= i < |s| ==> if i in {8, 13, 18, 23} then s[i] == '-' else IsLowerHex(s[i])
  }

  predicate IsNonce(s: string) { 16 <= |s| <= 128 && forall i :: 0 <= i < |s| ==> IsAlnum(s[i]) || s[i] in "_.:-" }

  predicate Valid(f: Facts) {
    && IsSlug(f.project, 63) && IsSlug(f.environment, 63) && IsSlug(f.service, 127)
    && IsVersion(f.currentVersion) && IsVersion(f.targetVersion)
    && IsHash(f.planHash) && IsUuid(f.approval) && IsNonce(f.nonce)
  }

  // ---------------------------------------------------------------- signing and checking

  /** The payload `create_approval_proof` signs. */
  function WorkerPayload(r: Rollback, planHash: string, approval: string, nonce: string, issuedAt: int): string {
    Join(':', [r.scope.project, r.scope.environment, r.scope.service, r.currentVersion, r.targetVersion,
               planHash, approval, nonce, PrintInt(issuedAt)])
  }

  /** The request the worker sends. */
  function WorkerRequest(secret: string, r: Rollback, planHash: string, approval: string, nonce: string, issuedAt: int): Request {
    Request(Facts(r.scope.project, r.scope.environment, r.scope.service, r.currentVersion, r.targetVersion,
                  planHash, approval, nonce, issuedAt),
            Signature(secret, WorkerPayload(r, planHash, approval, nonce, issuedAt)))
  }

  /** The server's `_proof_payload`. */
  function Payload(f: Facts): string {
    Join(':', [f.project, f.environment, f.service, f.currentVersion, f.targetVersion,
               f.planHash, f.approval, f.nonce, PrintInt(f.issuedAt)])
  }

  /** The server's signature comparison. */
  predicate SignatureMatches(secret: string, q: Request) { q.proof == Signature(secret, Payload(q.facts)) }

  // ---------------------------------------------------------------- the payload determines the facts

  lemma {:induction false} JoinSplit(fields: seq<string>, k: nat)
    requires 0 < k < |fields|
    ensures Join(':', fields) == Join(':', fields[..k]) + [':'] + Join(':', fields[k..])
  {
    if k == 1 {
      assert fields[..1] == [fields[0]];
    } else {
      JoinSplit(fields[1..], k - 1);
      assert fields[1..][..k - 1] == fields[..k][1..] && fields[1..][k - 1..] == fields[k..];
    }
  }

  /** The fields before the nonce contain no colon. */
  lemma FrontFree(f: Facts)
    requires Valid(f)
    ensures forall i :: 0 <= i < 7 ==> Free(':', Front(f)[i])
  {
    var front := Front(f);
    assert Free(':', front[0]) && Free(':', front[1]) && Free(':', front[2]) && Free(':', front[3]);
    assert Free(':', front[4]) && Free(':', front[5]) && Free(':', front[6]);
  }

  function Front(f: Facts): seq<string> {
    [f.project, f.environment, f.service, f.currentVersion, f.targetVersion, f.planHash, f.approval]
  }

  lemma PayloadShape(f: Facts)
    ensures Payload(f) == Join(':', Front(f)) + [':'] + (f.nonce + [':'] + PrintInt(f.issuedAt))
  {
    var fields := Front(f) + [f.nonce, PrintInt(f.issuedAt)];
    JoinSplit(fields, 7);
    assert fields[..7] == Front(f) && fields[7..] == [f.nonce, PrintInt(f.issuedAt)];
    assert [f.nonce, PrintInt(f.issuedAt)][1..] == [PrintInt(f.issuedAt)];
    assert Join(':', fields[7..]) == f.nonce + [':'] + PrintInt(f.issuedAt);
    assert fields == [f.project, f.environment, f.service, f.currentVersion, f.targetVersion,
                      f.planHash, f.approval, f.nonce, PrintInt(f.issuedAt)];
  }

  /** Records of separator-free fields followed by arbitrary rests are equal only field by field. */
  lemma {:induction false} FrontFields(x: seq<string>, restX: string, y: seq<string>, restY: string)
    requires |x| == |y| > 0 && forall i :: 0 <= i < |x| ==> Free(':', x[i]) && Free(':', y[i])
    requires Join(':', x) + [':'] + restX == Join(':', y) + [':'] + restY
    ensures x == y && restX == restY
  {
    if |x| == 1 {
      FrontField(':', x[0], restX, y[0], restY);
    } else {
      var tailX, tailY := Join(':', x[1..]) + [':'] + restX, Join(':', y[1..]) + [':'] + restY;
      assert Join(':', x) + [':'] + restX == x[0] + [':'] + tailX;
      assert Join(':', y) + [':'] + restY == y[0] + [':'] + tailY;
      FrontField(':', x[0], tailX, y[0], tailY);
      FrontFields(x[1..], restX, y[1..], restY);
      assert x == [x[0]] + x[1..] && y == [y[0]] + y[1..];
    }
  }

  lemma PrintIntFree(i: int)
    ensures Free(':', PrintInt(i))
  {
  }

  /** On requests that meet the schema the colon-joined payload determines all nine facts, although the nonce
      may itself contain colons. */
  lemma PayloadInjective(f: Facts, g: Facts)
    requires Valid(f) && Valid(g) && Payload(f) == Payload(g)
    ensures f == g
  {
    PayloadShape(f);
    PayloadShape(g);
    FrontFree(f);
    FrontFree(g);
    hide Valid;
    FrontFields(Front(f), f.nonce + [':'] + PrintInt(f.issuedAt), Front(g), g.nonce + [':'] + PrintInt(g.issuedAt));
    PrintIntFree(f.issuedAt);
    PrintIntFree(g.issuedAt);
    BackField(':', f.nonce, PrintInt(f.issuedAt), g.nonce, PrintInt(g.issuedAt));
    PrintIntInjective(f.issuedAt, g.issuedAt);
    var x, y := Front(f), Front(g);
    assert x[0] == y[0] && x[1] == y[1] && x[2] == y[2] && x[3] == y[3] && x[4] == y[4] && x[5] == y[5] && x[6] == y[6];
  }

  /** A signature made by the worker for some facts is accepted with a request exactly when the request states
      those facts and the secrets agree; in particular the worker's own request is. */
  lemma SignatureBindsFacts(
      workerSecret: string, serverSecret: string, r: Rollback, planHash: string, approval: string, nonce: string, issuedAt: int, f: Facts)
    requires Valid(f) && Valid(WorkerRequest(workerSecret, r, planHash, approval, nonce, issuedAt).facts)
    ensures var sent := WorkerRequest(workerSecret, r, planHash, approval, nonce, issuedAt);
      SignatureMatches(serverSecret, Request(f, sent.proof)) <==> f == sent.facts && workerSecret == serverSecret
  {
    var sent := WorkerRequest(workerSecret, r, planHash, approval, nonce, issuedAt);
    hide Valid;
    if Payload(f) == sent.proof.payload {
      PayloadInjective(f, sent.facts);
    }
  }

  // ---------------------------------------------------------------- the idempotency key

  /** `_idempotency_key`. */
  function IdempotencyKey(plan: string, planHash: string, approval: string): string {
    "rollback:" + (plan + [':'] + (planHash + [':'] + approval))
  }

  /** Different plans, hashes or approvals have different keys, whatever the stored hash looks like. */
  lemma KeyInjective(plan: string, planHash: string, approval: string, plan': string, planHash': string, approval': string)
    requires IsUuid(plan) && IsUuid(plan') && IsUuid(approval) && IsUuid(approval')
    requires IdempotencyKey(plan, planHash, approval) == IdempotencyKey(plan', planHash', approval')
    ensures plan == plan' && planHash == planHash' && approval == approval'
  {
    var x, y := plan + [':'] + (planHash + [':'] + approval), plan' + [':'] + (planHash' + [':'] + approval');
    assert ("rollback:" + x)[9..] == x && ("rollback:" + y)[9..] == y;
    FrontField(':', plan, planHash + [':'] + approval, plan', planHash' + [':'] + approval');
    BackField(':', planHash, approval, planHash', approval');
  }
}
