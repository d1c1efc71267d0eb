/** The deterministic policy check that guards approval and execution. */
module Policy {
  import opened Options
  import opened Text

  datatype Scope = Scope(project: string, environment: string, service: string)

  datatype Rollback = Rollback(scope: Scope, currentVersion: string, targetVersion: string)

  /** The parts of a service's recovery configuration that are read; None is an absent key.
      `rollbackRule` is `action_policy.rollback_release`, None also when `action_policy` is no table. */
  datatype RecoveryConfig = RecoveryConfig(
    provider: Option<string>, rollbackRule: Option<string>, tencentTat: Option<string>)

  datatype Reason =
    | RECOVERY_NOT_CONFIGURED | RECOVERY_APPROVAL_REQUIRED
    | INCIDENT_SCOPE_MISMATCH | INVALID_RECOVERY_TARGET

  /** Raised is the validation error of a plan whose versions do not fit the plan schema. */
  datatype Verdict = Raised | Denied(reason: Reason) | Allowed

  /** The schema's version pattern `^[A-Za-z0-9][A-Za-z0-9._-]{0,63}$`. */
  predicate IsVersion(s: string) {
    && 1 <= |s| <= 64 && IsAlnum(s[0])
    && forall i :: 0 < i < |s| ==> IsAlnum(s[i]) || s[i] in "._-"
  }

  function Evaluate(rollback: Rollback, incident: Option<Scope>, config: Option<RecoveryConfig>): Verdict {
    if !IsVersion(rollback.currentVersion) || !IsVersion(rollback.targetVersion) then Raised
    else if config.None? || config.value.provider != Some("tencent_tat") then Denied(RECOVERY_NOT_CONFIGURED)
    else if config.value.rollbackRule != Some("approval") then Denied(RECOVERY_APPROVAL_REQUIRED)
    else if incident.Some? && incident.value != rollback.scope then Denied(INCIDENT_SCOPE_MISMATCH)
    else if rollback.currentVersion == "" || rollback.targetVersion == "" then Denied(INVALID_RECOVERY_TARGET)
    else Allowed
  }

  /** Exactly which plans pass, and what each denial means; a missing configuration never does, whatever the plan and incident. */
  lemma AllowedExactly(rollback: Rollback, incident: Option<Scope>, config: Option<RecoveryConfig>)
    ensures Evaluate(rollback, incident, config) == Allowed <==>
      && IsVersion(rollback.currentVersion) && IsVersion(rollback.targetVersion)
      && config.Some? && config.value.provider == Some("tencent_tat")
      && config.value.rollbackRule == Some("approval")
      && (incident.Some? ==> incident.value == rollback.scope)
    ensures var v := Evaluate(rollback, incident, config);
      && (v == Raised <==> !IsVersion(rollback.currentVersion) || !IsVersion(rollback.targetVersion))
      && (v == Denied(RECOVERY_NOT_CONFIGURED) ==> config.None? || config.value.provider != Some("tencent_tat"))
      && (v == Denied(RECOVERY_APPROVAL_REQUIRED) ==>
            config.Some? && config.value.provider == Some("tencent_tat") && config.value.rollbackRule != Some("approval"))
      && (v == Denied(INCIDENT_SCOPE_MISMATCH) ==>
            config.Some? && config.value.provider == Some("tencent_tat") && config.value.rollbackRule == Some("approval")
            && incident.Some? && incident.value != rollback.scope)
      && v != Denied(INVALID_RECOVERY_TARGET)
    ensures Evaluate(rollback, incident, None) in {Raised, Denied(RECOVERY_NOT_CONFIGURED)}
  {
  }
}
