/** The token operations as the service writes them: user and token rows updated in place. */
module TokenStore {
  import opened Options
  import opened RefreshTokens

  class Store {
    var users: seq<User>
    var tokens: seq<Token>
    var families: nat

    constructor ()
      ensures State() == Auth([], [], 0)
    {
      users, tokens, families := [], [], 0;
    }

    function State(): Auth
      reads this
    {
      Auth(users, tokens, families)
    }

    /** `issue_refresh_token`; `false` is the raised InvalidRefreshToken. */
    method IssueRefreshToken(user: nat, family: Option<nat>, now: int) returns (ok: bool)
      modifies this`tokens, this`families
      ensures Issue(old(State()), user, family, now) == if ok then Some(State()) else None
      ensures !ok ==> State() == old(State())
    {
      if user >= |users| || !users[user].active { return false; }
      var f := families;
      if family.Some? {
        f := family.value;
      } else {
        families := families + 1;
      }
      tokens := tokens + [Token(user, f, now + REFRESH_TOKEN_LIFETIME, None)];
      return true;
    }

    method Login(user: nat, passwordValid: bool, now: int) returns (ok: bool)
      modifies this`tokens, this`families
      ensures State() == RefreshTokens.Login(old(State()), user, passwordValid, now)
      ensures ok <==> State() != old(State())
    {
      if user >= |users| || !users[user].active || !passwordValid { return false; }
      ok := IssueRefreshToken(user, None, now);
    }

    /** The bulk `UPDATE … SET revoked_at = now WHERE … AND revoked_at IS NULL`. */
    method Revoke(which: set<nat>, now: int)
      modifies this`tokens
      ensures tokens == Revoked(old(tokens), which, now)
    {
      for i := 0 to |tokens|
        invariant |tokens| == |old(tokens)|
        invariant forall k :: 0 <= k < i ==> tokens[k] == Revoked(old(tokens), which, now)[k]
        invariant forall k :: i <= k < |tokens| ==> tokens[k] == old(tokens)[k]
      {
        if i in which && tokens[i].revokedAt.None? {
          tokens := tokens[i := tokens[i].(revokedAt := Some(now))];
        }
      }
    }

    /** `rotate_refresh_token` with its route, which commits a detected reuse and rolls an invalid token back. */
    method RotateRefreshToken(token: nat, now: int) returns (reply: Reply)
      modifies this`tokens, this`families
      ensures (State(), reply) == Rotate(old(State()), token, now)
    {
      if token >= |tokens| || tokens[token].user >= |users| { return Invalid; }
      var t := tokens[token];
      if t.revokedAt.Some? {
        Revoke(Family(tokens, t.family), now);
        return ReuseDetected;
      }
      if t.expiresAt <= now || !users[t.user].active { return Invalid; }
      tokens := tokens[token := t.(revokedAt := Some(now))];
      var ok := IssueRefreshToken(t.user, Some(t.family), now);
      assert ok;
      return Rotated(|tokens| - 1);
    }

    /** `revoke_refresh_token` with the logout route. */
    method Logout(token: nat, now: int)
      modifies this`tokens
      ensures State() == RefreshTokens.Logout(old(State()), token, now)
    {
      if token >= |tokens| || tokens[token].user >= |users| { return; }
      Revoke(Family(tokens, tokens[token].family), now);
    }

    /** `update_user`. */
    method UpdateUser(user: nat, role: Option<Role>, active: Option<bool>, now: int) returns (reply: UpdateReply)
      modifies this`users, this`tokens
      ensures (State(), reply) == RefreshTokens.UpdateUser(old(State()), user, role, active, now)
    {
      if user >= |users| { return NotFound; }
      var u := users[user];
      if u.role == Admin && u.active && ((role.Some? && role != Some(Admin)) || active == Some(false)) {
        if |ActiveAdmins(users)| <= 1 { return SoleAdmin; }
      }
      if active == Some(false) {
        Revoke(OfUser(tokens, user), now);
      }
      if role.Some? {
        u := u.(role := role.value);
      }
      if active.Some? {
        u := u.(active := active.value);
      }
      users := users[user := u];
      return Updated;
    }
  }
}
