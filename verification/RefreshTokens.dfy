/** Rotating refresh tokens: login, rotation, replay, logout and the administrator's user updates. Every
    operation holds the user's row lock, so each is one step. A token is known by its secret, here its row;
    secrets and family identifiers are fresh, and the clock may do anything. */
module RefreshTokens {
  import opened Options

  datatype Role = Viewer | Operator | Approver | Admin

  datatype User = User(role: Role, active: bool)

  datatype Token = Token(user: nat, family: nat, expiresAt: int, revokedAt: Option<int>)

  /** `families` is the next unused family identifier. */
  datatype Auth = Auth(users: seq<User>, tokens: seq<Token>, families: nat)

  /** Seven days in microseconds. */
  const REFRESH_TOKEN_LIFETIME := 7 * 24 * 3600 * 1_000_000

  // ---------------------------------------------------------------- operations

  predicate Live(t: Token) { t.revokedAt.None? }

  /** The bulk updates: a revocation time is written once and never overwritten. */
  function Revoked(tokens: seq<Token>, which: set<nat>, now: int): (r: seq<Token>)
    ensures |r| == |tokens|
    ensures forall i :: 0 <= i < |r| ==>
      r[i] == if i in which && Live(tokens[i]) then tokens[i].(revokedAt := Some(now)) else tokens[i]
  {
    seq(|tokens|, i requires 0 <= i < |tokens| =>
      if i in which && Live(tokens[i]) then tokens[i].(revokedAt := Some(now)) else tokens[i])
  }

  function Family(tokens: seq<Token>, family: nat): set<nat> {
    set i | 0 <= i < |tokens| && tokens[i].family == family
  }

  function OfUser(tokens: seq<Token>, user: nat): set<nat> {
    set i | 0 <= i < |tokens| && tokens[i].user == user
  }

  /** `issue_refresh_token`; None is the raised InvalidRefreshToken. */
  function Issue(s: Auth, user: nat, family: Option<nat>, now: int): Option<Auth> {
    if user >= |s.users| || !s.users[user].active then None
    else
      var f := if family.Some? then family.value else s.families;
      Some(s.(tokens := s.tokens + [Token(user, f, now + REFRESH_TOKEN_LIFETIME, None)],
              families := if family.Some? then s.families else s.families + 1))
  }

  /** The login route after the user row is locked. */
  function Login(s: Auth, user: nat, passwordValid: bool, now: int): Auth {
    if user >= |s.users| || !s.users[user].active || !passwordValid then s
    else match Issue(s, user, None, now)
         case None => s
         case Some(t) => t
  }

  datatype Reply = Invalid | ReuseDetected | Rotated(replacement: nat)

  /** `rotate_refresh_token` with its route: Invalid is rolled back, ReuseDetected is committed. */
  function Rotate(s: Auth, token: nat, now: int): (Auth, Reply) {
    if token >= |s.tokens| || s.tokens[token].user >= |s.users| then (s, Invalid)
    else
      var t := s.tokens[token];
      if !Live(t) then (s.(tokens := Revoked(s.tokens, Family(s.tokens, t.family), now)), ReuseDetected)
      else if t.expiresAt <= now || !s.users[t.user].active then (s, Invalid)
      else match Issue(s.(tokens := s.tokens[token := t.(revokedAt := Some(now))]), t.user, Some(t.family), now)
           case None => (s, Invalid)
           case Some(u) => (u, Rotated(|s.tokens|))
  }

  /** `revoke_refresh_token` with the logout route. */
  function Logout(s: Auth, token: nat, now: int): Auth {
    if token >= |s.tokens| || s.tokens[token].user >= |s.users| then s
    else s.(tokens := Revoked(s.tokens, Family(s.tokens, s.tokens[token].family), now))
  }

  function ActiveAdmins(users: seq<User>): set<nat> {
    set i | 0 <= i < |users| && users[i].role == Admin && users[i].active
  }

  datatype UpdateReply = NotFound | SoleAdmin | Updated

  /** `update_user`. */
  function UpdateUser(s: Auth, user: nat, role: Option<Role>, active: Option<bool>, now: int): (Auth, UpdateReply) {
    if user >= |s.users| then (s, NotFound)
    else
      var u := s.users[user];
      var removes := u.role == Admin && u.active && ((role.Some? && role != Some(Admin)) || active == Some(false));
      if removes && |ActiveAdmins(s.users)| <= 1 then (s, SoleAdmin)
      else
        (s.(tokens := if active == Some(false) then Revoked(s.tokens, OfUser(s.tokens, user), now) else s.tokens,
            users := s.users[user := User(if role.Some? then role.value else u.role, if active.Some? then active.value else u.active)]),
         Updated)
  }

  // ---------------------------------------------------------------- runs

  datatype Action =
    | CreateUserAction(initial: Role)
    | LoginAction(user: nat, passwordValid: bool, now: int)
    | RotateAction(token: nat, now: int)
    | LogoutAction(token: nat, now: int)
    | UpdateUserAction(user: nat, role: Option<Role>, active: Option<bool>, now: int)

  function Next(s: Auth, a: Action): Auth {
    match a
    case CreateUserAction(initial) => s.(users := s.users + [User(initial, true)])
    case LoginAction(user, valid, now) => Login(s, user, valid, now)
    case RotateAction(token, now) => Rotate(s, token, now).0
    case LogoutAction(token, now) => Logout(s, token, now)
    case UpdateUserAction(user, role, active, now) => UpdateUser(s, user, role, active, now).0
  }

  ghost predicate Steps(s: Auth, t: Auth) { exists a: Action :: t == Next(s, a) }

  ghost predicate IsRun(run: seq<Auth>) {
    && |run| > 0 && run[0] == Auth([], [], 0)
    && forall i {:trigger Steps(run[i - 1], run[i])} :: 0 < i < |run| ==> Steps(run[i - 1], run[i])
  }

  // ---------------------------------------------------------------- invariants

  /** A live token is its family's newest and its user is active; a family has one user. */
  ghost predicate Inv(s: Auth) {
    && (forall i :: 0 <= i < |s.tokens| ==> s.tokens[i].family < s.families && s.tokens[i].user < |s.users|)
    && (forall i :: 0 <= i < |s.tokens| && Live(s.tokens[i]) ==> s.users[s.tokens[i].user].active)
    && (forall i, j :: 0 <= i < j < |s.tokens| && s.tokens[i].family == s.tokens[j].family
          ==> !Live(s.tokens[i]) && s.tokens[i].user == s.tokens[j].user)
  }

  /** What no step undoes: rows stay and never come back to life, and new rows join only live or new families. */
  ghost predicate Evolves(s: Auth, t: Auth) {
    && |s.tokens| <= |t.tokens| && s.families <= t.families
    && (forall i :: 0 <= i < |s.tokens| ==>
          t.tokens[i] == s.tokens[i] || (Live(s.tokens[i]) && t.tokens[i] == s.tokens[i].(revokedAt := t.tokens[i].revokedAt)))
    && (forall i :: |s.tokens| <= i < |t.tokens| ==> t.tokens[i].family >= s.families || LiveFamily(s, t.tokens[i].family))
    && (ActiveAdmins(s.users) != {} ==> ActiveAdmins(t.users) != {})
  }

  ghost predicate LiveFamily(s: Auth, family: nat) {
    exists i :: 0 <= i < |s.tokens| && s.tokens[i].family == family && Live(s.tokens[i])
  }

  lemma RotateKeeps(s: Auth, token: nat, now: int)
    requires Inv(s)
    ensures var t := Rotate(s, token, now).0; Inv(t) && Evolves(s, t)
  {
    hide ActiveAdmins, Family, Revoked;
  }

  lemma LogoutKeeps(s: Auth, token: nat, now: int)
    requires Inv(s)
    ensures var t := Logout(s, token, now); Inv(t) && Evolves(s, t)
  {
    hide ActiveAdmins, Family, Revoked;
  }

  lemma LoginKeeps(s: Auth, user: nat, valid: bool, now: int)
    requires Inv(s)
    ensures var t := Login(s, user, valid, now); Inv(t) && Evolves(s, t)
  {
  }

  lemma UpdateKeeps(s: Auth, user: nat, role: Option<Role>, active: Option<bool>, now: int)
    requires Inv(s)
    ensures var t := UpdateUser(s, user, role, active, now).0; Inv(t) && Evolves(s, t)
  {
    var (t, reply) := UpdateUser(s, user, role, active, now);
    if reply.Updated? && ActiveAdmins(s.users) != {} {
      AnAdminRemains(s.users, user, t.users[user]);
    }
  }

  /** Taking the active administrator role from one of several leaves another. */
  lemma AnAdminRemains(users: seq<User>, user: nat, u: User)
    requires user < |users| && ActiveAdmins(users) != {}
    requires user in ActiveAdmins(users) && !(u.role == Admin && u.active) ==> |ActiveAdmins(users)| > 1
    ensures ActiveAdmins(users[user := u]) != {}
  {
    var admins := ActiveAdmins(users);
    if user in admins && admins - {user} == {} {
      assert admins == {user};
      assert user in ActiveAdmins(users[user := u]);
    } else {
      var other :| other in admins && (user in admins ==> other != user);
      assert other in ActiveAdmins(users[user := u]);
    }
  }

  lemma NextKeeps(s: Auth, a: Action)
    requires Inv(s)
    ensures Inv(Next(s, a)) && Evolves(s, Next(s, a))
  {
    match a
    case CreateUserAction(initial) =>
      forall i | i in ActiveAdmins(s.users) ensures i in ActiveAdmins(Next(s, a).users) { }
    case LoginAction(user, valid, now) => LoginKeeps(s, user, valid, now);
    case RotateAction(token, now) => RotateKeeps(s, token, now);
    case LogoutAction(token, now) => LogoutKeeps(s, token, now);
    case UpdateUserAction(user, role, active, now) => UpdateKeeps(s, user, role, active, now);
  }

  lemma {:induction false} RunKeeps(run: seq<Auth>, i: nat)
    requires IsRun(run) && i < |run|
    ensures Inv(run[i])
  {
    if i > 0 {
      RunKeeps(run, i - 1);
      StepKeeps(run, i);
    }
  }

  lemma StepKeeps(run: seq<Auth>, i: nat)
    requires IsRun(run) && 0 < i < |run| && Inv(run[i - 1])
    ensures Inv(run[i]) && Evolves(run[i - 1], run[i])
  {
    hide Inv, Evolves, Next;
    assert Steps(run[i - 1], run[i]);
    var a :| run[i] == Next(run[i - 1], a);
    NextKeeps(run[i - 1], a);
  }

  // ---------------------------------------------------------------- guarantees

  /** In every state of every run a family has at most one unrevoked token, all its tokens are one user's,
      and whoever holds an unrevoked token is active. */
  lemma OneLiveToken(run: seq<Auth>, n: nat, i: nat, j: nat)
    requires IsRun(run) && n < |run| && i < |run[n].tokens| && j < |run[n].tokens|
    requires run[n].tokens[i].family == run[n].tokens[j].family
    ensures Live(run[n].tokens[i]) && Live(run[n].tokens[j]) ==> i == j
    ensures run[n].tokens[i].user == run[n].tokens[j].user < |run[n].users|
    ensures Live(run[n].tokens[i]) ==> run[n].users[run[n].tokens[i].user].active
  {
    RunKeeps(run, n);
  }

  /** A family that exists and has no unrevoked token never gains one again. */
  lemma {:induction false} DeadStaysDead(run: seq<Auth>, m: nat, n: nat, family: nat)
    requires IsRun(run) && m <= n < |run|
    requires family < run[m].families && !LiveFamily(run[m], family)
    ensures family < run[n].families && !LiveFamily(run[n], family)
    decreases n
  {
    if m < n {
      DeadStaysDead(run, m, n - 1, family);
      RunKeeps(run, n - 1);
      StepKeeps(run, n);
    }
  }

  /** After a replay of a revoked token, or a logout with any token of the family, the family has no unrevoked
      token at that moment or ever again, and no rotation with any of its tokens ever succeeds. */
  lemma FamilyEnds(run: seq<Auth>, m: nat, n: nat, token: nat, now: int, other: nat, later: int)
    requires IsRun(run) && 0 < m <= n < |run| && token < |run[m - 1].tokens|
    requires
      || run[m] == Logout(run[m - 1], token, now)
      || (run[m] == Rotate(run[m - 1], token, now).0 && !Live(run[m - 1].tokens[token]))
    ensures !LiveFamily(run[n], run[m - 1].tokens[token].family)
    ensures other < |run[n].tokens| && run[n].tokens[other].family == run[m - 1].tokens[token].family
      ==> !Rotate(run[n], other, later).1.Rotated?
  {
    RunKeeps(run, m - 1);
    DeadStaysDead(run, m, n, run[m - 1].tokens[token].family);
  }

  /** In every reachable state a rotation succeeds exactly with an unrevoked, unexpired token; its successor is
      then the family's one unrevoked token, and presenting the old token again is reported as reuse. */
  lemma RotationSucceedsExactly(run: seq<Auth>, n: nat, token: nat, now: int, again: int)
    requires IsRun(run) && n < |run|
    ensures var (t, reply) := Rotate(run[n], token, now);
      && (reply.Rotated? <==> token < |run[n].tokens| && Live(run[n].tokens[token]) && now < run[n].tokens[token].expiresAt)
      && (reply.Invalid? ==> t == run[n])
      && (reply.Rotated? ==>
            && reply.replacement == |run[n].tokens| < |t.tokens| && Live(t.tokens[reply.replacement])
            && t.tokens[reply.replacement].family == run[n].tokens[token].family
            && (forall i :: 0 <= i < |t.tokens| && i != reply.replacement && Live(t.tokens[i]) ==>
                  i < |run[n].tokens| && Live(run[n].tokens[i]) && t.tokens[i].family != run[n].tokens[token].family)
            && Rotate(t, token, again).1 == ReuseDetected && !LiveFamily(Rotate(t, token, again).0, run[n].tokens[token].family))
  {
    RunKeeps(run, n);
    hide Steps;
  }

  /** Once a user is disabled none of their tokens is unrevoked, and stays so: a token issued before the
      disabling can never be rotated again, even after the user is enabled again. */
  lemma DisabledTokensStayRevoked(run: seq<Auth>, m: nat, n: nat, token: nat, now: int)
    requires IsRun(run) && m <= n < |run| && token < |run[m].tokens|
    requires run[m].tokens[token].user < |run[m].users| ==> !run[m].users[run[m].tokens[token].user].active
    ensures token < |run[n].tokens| && !Live(run[n].tokens[token])
    ensures !Rotate(run[n], token, now).1.Rotated?
  {
    RunKeeps(run, m);
    RevokedStays(run, m, n, token);
  }

  /** A revocation, with its time, is permanent. */
  lemma {:induction false} RevokedStays(run: seq<Auth>, m: nat, n: nat, token: nat)
    requires IsRun(run) && m <= n < |run| && token < |run[m].tokens| && !Live(run[m].tokens[token])
    ensures token < |run[n].tokens| && run[n].tokens[token] == run[m].tokens[token]
    decreases n
  {
    if m < n {
      RevokedStays(run, m, n - 1, token);
      RunKeeps(run, n - 1);
      StepKeeps(run, n);
    }
  }

  /** Once there is an active administrator there always is one. */
  lemma {:induction false} AnAdministratorRemains(run: seq<Auth>, m: nat, n: nat)
    requires IsRun(run) && m <= n < |run| && ActiveAdmins(run[m].users) != {}
    ensures ActiveAdmins(run[n].users) != {}
    decreases n
  {
    if m < n {
      AnAdministratorRemains(run, m, n - 1);
      RunKeeps(run, n - 1);
      StepKeeps(run, n);
    }
  }

  // ---------------------------------------------------------------- each request, exactly

  /** A login issues one token, unrevoked for seven days in a family of its own, exactly for an active user with a
      valid password; otherwise nothing changes. */
  lemma LogsInExactly(s: Auth, user: nat, passwordValid: bool, now: int)
    ensures Login(s, user, passwordValid, now) ==
      if user < |s.users| && s.users[user].active && passwordValid then
        Auth(s.users, s.tokens + [Token(user, s.families, now + 604_800_000_000, None)], s.families + 1)
      else s
  {
  }

  /** A token is issued for an active user only, for seven days, in the given family or in one that no token has
      yet; a new user has the given role and is active. */
  lemma IssuesExactly(run: seq<Auth>, n: nat, user: nat, family: Option<nat>, role: Role, now: int)
    requires IsRun(run) && n < |run|
    ensures var s := run[n]; var issued := Issue(s, user, family, now);
      && (issued.Some? <==> user < |s.users| && s.users[user].active)
      && (issued.Some? ==>
            && issued.value.users == s.users && |issued.value.tokens| == |s.tokens| + 1
            && var x := issued.value.tokens[|s.tokens|];
               && issued.value.tokens == s.tokens + [Token(user, x.family, now + 604_800_000_000, None)]
               && if family == None then forall i :: 0 <= i < |s.tokens| ==> s.tokens[i].family != x.family else x.family == family.value)
      && Next(s, CreateUserAction(role)) == Auth(s.users + [User(role, true)], s.tokens, s.families)
  {
    RunKeeps(run, n);
  }

  /** Exactly the unrevoked tokens of one family are revoked, at `now`. */
  ghost predicate FamilyRevoked(x: seq<Token>, y: seq<Token>, family: nat, now: int) {
    |y| == |x| && forall i :: 0 <= i < |x| ==>
      y[i] == if x[i].family == family && x[i].revokedAt == None then x[i].(revokedAt := Some(now)) else x[i]
  }

  /** Exactly the unrevoked tokens of one user are revoked, at `now`. */
  ghost predicate UserRevoked(x: seq<Token>, y: seq<Token>, user: nat, now: int) {
    |y| == |x| && forall i :: 0 <= i < |x| ==>
      y[i] == if x[i].user == user && x[i].revokedAt == None then x[i].(revokedAt := Some(now)) else x[i]
  }

  /** In every reachable state a presented token is rotated when it is unrevoked and unexpired: it is revoked and
      one successor of its user and family is issued for seven days. A revoked one is reported as reuse and revokes
      exactly its family. Any other token is invalid and changes nothing. */
  lemma RotatesExactly(run: seq<Auth>, n: nat, token: nat, now: int)
    requires IsRun(run) && n < |run|
    ensures var s := run[n]; var (t, reply) := Rotate(s, token, now);
      && t.users == s.users && t.families == s.families
      && (reply == ReuseDetected <==> token < |s.tokens| && s.tokens[token].revokedAt != None)
      && (reply.Rotated? <==> token < |s.tokens| && s.tokens[token].revokedAt == None && now < s.tokens[token].expiresAt)
      && (reply == Invalid ==> t == s)
      && (reply == ReuseDetected ==> FamilyRevoked(s.tokens, t.tokens, s.tokens[token].family, now))
      && (reply.Rotated? ==> var x := s.tokens[token];
            t.tokens == s.tokens[token := x.(revokedAt := Some(now))] + [Token(x.user, x.family, now + 604_800_000_000, None)])
  {
    RunKeeps(run, n);
    hide IsRun;
  }

  /** A logout revokes exactly the family of a known token. */
  lemma LogsOutExactly(run: seq<Auth>, n: nat, token: nat, now: int)
    requires IsRun(run) && n < |run|
    ensures var s, t := run[n], Logout(run[n], token, now);
      if token < |s.tokens| then t == s.(tokens := t.tokens) && FamilyRevoked(s.tokens, t.tokens, s.tokens[token].family, now) else t == s
  {
    RunKeeps(run, n);
    hide IsRun;
  }

  ghost predicate HasAdmin(users: seq<User>) { exists a :: 0 <= a < |users| && users[a] == User(Admin, true) }

  /** An update is refused exactly for an unknown user and when it would leave no active administrator; otherwise
      it sets the given role and activity, and disabling revokes exactly the user's tokens. */
  lemma UpdatesExactly(s: Auth, user: nat, role: Option<Role>, active: Option<bool>, now: int)
    ensures var (t, reply) := UpdateUser(s, user, role, active, now);
      && (reply == NotFound <==> user >= |s.users|)
      && (user < |s.users| ==>
            var u := User(if role == None then s.users[user].role else role.value, if active == None then s.users[user].active else active.value);
            && (reply == SoleAdmin <==> HasAdmin(s.users) && !HasAdmin(s.users[user := u]))
            && (reply == Updated ==>
                  && t == Auth(s.users[user := u], t.tokens, s.families)
                  && if active == Some(false) then UserRevoked(s.tokens, t.tokens, user, now) else t.tokens == s.tokens))
      && (reply != Updated ==> t == s)
  {
    if user < |s.users| {
      var u := User(if role == None then s.users[user].role else role.value, if active == None then s.users[user].active else active.value);
      SoleAdministrator(s.users, user, u);
      hide ActiveAdmins;
    }
  }

  /** An update takes the last active administrator away exactly when it takes one away and there is only one. */
  lemma SoleAdministrator(users: seq<User>, user: nat, u: User)
    requires user < |users|
    ensures users[user] == User(Admin, true) && u != User(Admin, true) && |ActiveAdmins(users)| <= 1 <==>
      HasAdmin(users) && !HasAdmin(users[user := u])
  {
    var after := users[user := u];
    if users[user] == User(Admin, true) && u != User(Admin, true) {
      assert HasAdmin(users);
      OthersRemain(users, user);
      if |ActiveAdmins(users)| > 1 {
        var other :| 0 <= other < |users| && other != user && users[other] == User(Admin, true);
        assert after[other] == User(Admin, true);
      }
      hide ActiveAdmins;
    } else if HasAdmin(users) {
      hide ActiveAdmins;
      var a :| 0 <= a < |users| && users[a] == User(Admin, true);
      assert after[a] == User(Admin, true);
    }
  }

  /** There is more than one active administrator exactly when there is one besides a given one. */
  lemma OthersRemain(users: seq<User>, user: nat)
    requires user < |users| && users[user] == User(Admin, true)
    ensures |ActiveAdmins(users)| > 1 <==> exists a :: 0 <= a < |users| && a != user && users[a] == User(Admin, true)
  {
    var admins := ActiveAdmins(users);
    var rest := admins - {user};
    assert admins == rest + {user} && |admins| == |rest| + 1;
    if rest != {} {
      var a :| a in rest;
      assert users[a] == User(Admin, true);
    } else {
      forall a | 0 <= a < |users| && a != user ensures users[a] != User(Admin, true) {
        assert a !in rest;
      }
    }
  }
}
