/** Freshness and one-time use of approval proofs. Times are seconds as reals. An attempt reads the clock,
    later Redis handles its claim; Redis handles claims one after another. */
module NonceReplay {
  import opened Options
  import opened Text
  import opened Policy
  import opened ApprovalProof

  const WINDOW := 300
  const LIFETIME := 600.0

  /** The nonce keys Redis holds, with the time each expires. */
  type Claims = map<string, real>

  datatype ClaimFault = Answers | FailsBefore | FailsAfter

  datatype Attempt = Attempt(request: Request, checked: real, claimed: real, fault: ClaimFault)

  datatype Verdict = Expired | Mismatch | Unavailable | Replayed | Accepted

  /** `int(t)`. */
  function Truncated(t: real): int { if t >= 0.0 then t.Floor else -((-t).Floor) }

  predicate Fresh(issuedAt: int, now: real) { -WINDOW <= Truncated(now) - issuedAt <= WINDOW }

  /** A key is gone only after its expiry time. */
  predicate Held(claims: Claims, nonce: string, now: real) { nonce in claims && now <= claims[nonce] }

  /** `SET … NX EX 600`. */
  function Claim(claims: Claims, nonce: string, now: real): (Claims, bool) {
    if Held(claims, nonce, now) then (claims, false) else (claims[nonce := now + LIFETIME], true)
  }

  /** `verify_approval_proof`. */
  function Verify(claims: Claims, secret: string, a: Attempt): (Claims, Verdict) {
    if !Fresh(a.request.facts.issuedAt, a.checked) then (claims, Expired)
    else if !SignatureMatches(secret, a.request) then (claims, Mismatch)
    else
      var (after, first) := Claim(claims, a.request.facts.nonce, a.claimed);
      match a.fault
      case FailsBefore => (claims, Unavailable)
      case FailsAfter => (after, Unavailable)
      case Answers => (after, if first then Accepted else Replayed)
  }

  class NonceStore {
    var claims: Claims

    constructor ()
      ensures claims == map[]
    {
      claims := map[];
    }

    /** `_claim_nonce`; None is the raised "store unavailable". */
    method ClaimNonce(nonce: string, now: real, fault: ClaimFault) returns (first: Option<bool>)
      modifies this
      ensures fault.FailsBefore? ==> claims == old(claims)
      ensures !fault.FailsBefore? ==> claims == Claim(old(claims), nonce, now).0
      ensures first == if fault.Answers? then Some(Claim(old(claims), nonce, now).1) else None
    {
      if fault.FailsBefore? { return None; }
      var isNew := !Held(claims, nonce, now);
      if isNew {
        claims := claims[nonce := now + LIFETIME];
      }
      if fault.FailsAfter? { return None; }
      return Some(isNew);
    }

    /** `verify_approval_proof`: the raised errors in the order the code checks for them. */
    method VerifyApprovalProof(secret: string, a: Attempt) returns (verdict: Verdict)
      modifies this
      ensures (claims, verdict) == Verify(old(claims), secret, a)
    {
      var skew := Truncated(a.checked) - a.request.facts.issuedAt;
      if (if skew < 0 then -skew else skew) > WINDOW { return Expired; }
      if a.request.proof != Signature(secret, Payload(a.request.facts)) { return Mismatch; }
      var first := ClaimNonce(a.request.facts.nonce, a.claimed, a.fault);
      if first.None? { return Unavailable; }
      return if first.value then Accepted else Replayed;
    }
  }

  // ---------------------------------------------------------------- one attempt

  /** Which verdict is given when, and what is claimed: a proof is accepted exactly when the truncated clock is
      within 300 seconds of issued_at, the proof is the HMAC of the nine joined facts under the server's secret,
      no unexpired key holds the nonce and the store answers. An expired or mismatching proof claims nothing. */
  lemma VerdictExactly(claims: Claims, secret: string, a: Attempt)
    ensures var (after, verdict) := Verify(claims, secret, a);
      var f := a.request.facts;
      var clock := if a.checked >= 0.0 then a.checked.Floor else -((-a.checked).Floor);
      var timely := f.issuedAt - 300 <= clock <= f.issuedAt + 300;
      var joined := Join(':', [f.project, f.environment, f.service, f.currentVersion, f.targetVersion,
                               f.planHash, f.approval, f.nonce, PrintInt(f.issuedAt)]);
      var signed := a.request.proof.secret == secret && a.request.proof.payload == joined;
      var held := f.nonce in claims && a.claimed <= claims[f.nonce];
      && (verdict == Accepted <==> timely && signed && !held && a.fault == Answers)
      && (verdict == Expired <==> !timely)
      && (verdict == Mismatch <==> timely && !signed)
      && (verdict == Replayed <==> timely && signed && held && a.fault == Answers)
      && (verdict == Unavailable <==> timely && signed && a.fault != Answers)
      && after == if timely && signed && !held && a.fault != FailsBefore then claims[f.nonce := a.claimed + 600.0] else claims
  {
    assert a.request.proof == Signature(a.request.proof.secret, a.request.proof.payload);
  }

  /** A proof the worker made is accepted only with a request that states exactly the facts the worker signed,
      under the same secret; with any other request that meets the schema nothing is claimed either. */
  lemma AcceptedStatesTheSignedFacts(
      claims: Claims, serverSecret: string, a: Attempt,
      workerSecret: string, r: Rollback, planHash: string, approval: string, nonce: string, issuedAt: int)
    requires var sent := WorkerRequest(workerSecret, r, planHash, approval, nonce, issuedAt);
      Valid(a.request.facts) && Valid(sent.facts) && a.request.proof == sent.proof
    ensures var (after, verdict) := Verify(claims, serverSecret, a);
      var stated := a.request.facts == Facts(r.scope.project, r.scope.environment, r.scope.service, r.currentVersion, r.targetVersion,
                                             planHash, approval, nonce, issuedAt);
      verdict == Accepted || after != claims ==> stated && workerSecret == serverSecret
  {
    SignatureBindsFacts(workerSecret, serverSecret, r, planHash, approval, nonce, issuedAt, a.request.facts);
    assert a.request == Request(a.request.facts, a.request.proof);
    hide Valid, Payload, WorkerPayload;
  }

  // ---------------------------------------------------------------- sequences of attempts

  function After(claims: Claims, secret: string, attempts: seq<Attempt>): Claims {
    if attempts == [] then claims
    else
      var n := |attempts| - 1;
      Verify(After(claims, secret, attempts[..n]), secret, attempts[n]).0
  }

  /** Claims in Redis's order, each at most `delay` after its clock reading, none before `start`. */
  predicate Ordered(attempts: seq<Attempt>, start: real, delay: real) {
    && (forall i :: 0 <= i < |attempts| ==>
          start <= attempts[i].claimed && attempts[i].checked <= attempts[i].claimed <= attempts[i].checked + delay)
    && (forall i, j :: 0 <= i < j < |attempts| ==> attempts[i].claimed <= attempts[j].claimed)
  }

  /** Attempt `k` of the sequence is accepted and carries the given proof. */
  predicate AcceptedAt(claims: Claims, secret: string, attempts: seq<Attempt>, request: Request, k: nat) {
    k < |attempts| && attempts[k].request == request && Verify(After(claims, secret, attempts[..k]), secret, attempts[k]).1 == Accepted
  }

  /** Until a key expires, nothing that anyone attempts removes or shortens it. */
  lemma {:induction false} KeyStays(claims: Claims, secret: string, attempts: seq<Attempt>, nonce: string, expiry: real)
    requires nonce in claims && claims[nonce] >= expiry
    requires forall i :: 0 <= i < |attempts| ==> attempts[i].claimed <= expiry
    ensures var after := After(claims, secret, attempts); nonce in after && after[nonce] >= expiry
  {
    if attempts != [] {
      KeyStays(claims, secret, attempts[..|attempts| - 1], nonce, expiry);
    }
  }

  /** A truncated time within the window is less than the next whole second. */
  lemma FreshBounds(issuedAt: int, now: real)
    requires now >= 0.0
    ensures Fresh(issuedAt, now) <==> (issuedAt - WINDOW) as real <= now < (issuedAt + WINDOW + 1) as real
  {
  }

  /** The replay guarantee with its exact bound. After a proof is first accepted with its claim handled at
      time `c`, no later sequence of attempts whose claims follow their clock readings within `delay` gets it
      accepted again, if and only if c >= issued_at - 299 + delay. */
  lemma NeverAcceptedAgainExactly(secret: string, claims: Claims, first: Attempt, delay: real)
    requires Verify(claims, secret, first).1 == Accepted
    requires 0.0 <= first.checked <= first.claimed && delay >= 0.0
    ensures var after := Verify(claims, secret, first).0; var c := first.claimed; var issuedAt := first.request.facts.issuedAt;
      (forall attempts: seq<Attempt>, k: nat :: Ordered(attempts, c, delay) ==> !AcceptedAt(after, secret, attempts, first.request, k))
      <==> c >= (issuedAt - WINDOW + 1) as real + delay
  {
    var after := Verify(claims, secret, first).0;
    var c, issuedAt := first.claimed, first.request.facts.issuedAt;
    if c >= (issuedAt - WINDOW + 1) as real + delay {
      forall attempts: seq<Attempt>, k: nat | Ordered(attempts, c, delay) ensures !AcceptedAt(after, secret, attempts, first.request, k) {
        if k < |attempts| && attempts[k].request == first.request {
          LaterIsRejected(secret, after, first, delay, attempts, k);
        }
      }
    } else {
      var late := LateAttempt(secret, after, first, delay);
      assert [late][..0] == [];
      assert After(after, secret, []) == after;
      assert Ordered([late], c, delay) && AcceptedAt(after, secret, [late], first.request, 0);
    }
  }

  lemma LaterIsRejected(secret: string, after: Claims, first: Attempt, delay: real, attempts: seq<Attempt>, k: nat)
    requires var nonce := first.request.facts.nonce; nonce in after && after[nonce] >= first.claimed + LIFETIME
    requires first.claimed >= 0.0 && first.claimed >= (first.request.facts.issuedAt - WINDOW + 1) as real + delay
    requires Ordered(attempts, first.claimed, delay) && k < |attempts| && attempts[k].request == first.request
    ensures Verify(After(after, secret, attempts[..k]), secret, attempts[k]).1 != Accepted
  {
    var a, issuedAt := attempts[k], first.request.facts.issuedAt;
    if Fresh(issuedAt, a.checked) {
      assert a.checked < (issuedAt + WINDOW + 1) as real by {
        if a.checked >= 0.0 { FreshBounds(issuedAt, a.checked); } else { NegativeFresh(issuedAt, a.checked); }
      }
      assert a.claimed <= first.claimed + LIFETIME;
      KeyStays(after, secret, attempts[..k], first.request.facts.nonce, first.claimed + LIFETIME);
    }
  }

  lemma NegativeFresh(issuedAt: int, now: real)
    requires now < 0.0 && Fresh(issuedAt, now)
    ensures now < (issuedAt + WINDOW + 1) as real
  {
    assert (-now).Floor >= -(issuedAt + WINDOW);
  }

  /** An accepted second attempt when the bound fails: the clock is read just before the window closes. */
  lemma LateAttempt(secret: string, after: Claims, first: Attempt, delay: real) returns (late: Attempt)
    requires var nonce := first.request.facts.nonce; nonce in after && after[nonce] == first.claimed + LIFETIME
    requires SignatureMatches(secret, first.request) && 0.0 <= first.checked <= first.claimed && delay >= 0.0
    requires Fresh(first.request.facts.issuedAt, first.checked)
    requires first.claimed < (first.request.facts.issuedAt - WINDOW + 1) as real + delay
    ensures Ordered([late], first.claimed, delay) && late.request == first.request
    ensures Verify(after, secret, late).1 == Accepted
  {
    var issuedAt, c := first.request.facts.issuedAt, first.claimed;
    var end := (issuedAt + WINDOW + 1) as real;
    FreshBounds(issuedAt, first.checked);
    // Any reading before `end` whose delayed claim comes after the key's expiry.
    var lowest := if c + LIFETIME - delay < first.checked then first.checked else c + LIFETIME - delay;
    var t := (lowest + end) / 2.0;
    FreshBounds(issuedAt, t);
    late := Attempt(first.request, t, t + delay, Answers);
  }

  /** With claims handled at once, this is the promised bound on the floored clock of the first acceptance. */
  lemma AtOnce(secret: string, claims: Claims, first: Attempt)
    requires Verify(claims, secret, first).1 == Accepted && 0.0 <= first.checked == first.claimed
    ensures var after := Verify(claims, secret, first).0;
      (forall attempts: seq<Attempt>, k: nat :: Ordered(attempts, first.claimed, 0.0) ==> !AcceptedAt(after, secret, attempts, first.request, k))
      <==> Truncated(first.checked) >= first.request.facts.issuedAt - 299
  {
    NeverAcceptedAgainExactly(secret, claims, first, 0.0);
  }
}
