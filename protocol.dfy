/**
 * How the services meet over the shared tables: what a login, a logout, a
 * deactivation or a password change does to the later refreshes, guarded requests
 * and logins.
 */
module Protocol {
  import opened Wrappers
  import opened Errors
  import opened Users
  import opened Ledger
  import opened Jwt
  import opened Auth
  import opened Strategy
  import Accounts

  /** A fresh login's refresh token yields the very access token login issued, and that token is admitted, until the session expires. */
  lemma LoginThenRefresh(users: seq<User>, sessions: seq<Session>, identifier: string, password: string,
                         compare: (string, string) -> bool, cfg: Config, jti: string, n: nat,
                         deviceId: Option<string>, companyId: Option<int>, ip: Option<string>,
                         userAgent: Option<string>, now: int, later: int)
    requires Users.UniqueKeys(users) && Ledger.UniqueKeys(sessions)
    requires CheckCredentials(users, identifier, password, compare).Success?
    requires forall i :: 0 <= i < |sessions| ==> sessions[i].jtiAccess != jti && sessions[i].id < n
    requires now <= later <= AddFromNow(RefreshTtl(cfg), now)
    ensures
      var u := CheckCredentials(users, identifier, password, compare).value;
      var expiresAt := AddFromNow(RefreshTtl(cfg), now);
      var login := IssueTokens(u, jti, cfg, expiresAt);
      var rows := sessions + [NewSession(u, jti, deviceId, companyId, ip, userAgent, now, expiresAt).(id := n)];
      && Refresh(Some(login.refreshToken.claims), rows, users, cfg, later) == Success(AccessGrant(login.accessToken))
      && Authenticate(rows, users, login.accessToken.claims, later) == Success(RequestUser(u.id, u.username, n, jti, companyId))
  {
    var u := CheckCredentials(users, identifier, password, compare).value;
    var expiresAt := AddFromNow(RefreshTtl(cfg), now);
    var rows := sessions + [NewSession(u, jti, deviceId, companyId, ip, userAgent, now, expiresAt).(id := n)];
    assert FindLive(rows, jti, later) == Some(rows[|sessions|]) by {
      var s := FindLive(rows, jti, later).value;
      assert rows[|sessions|] in rows;
    }
    var k :| 0 <= k < |users| && users[k] == u;
    FindByIdUnique(users, k);
  }

  /** Once the refresh lifetime has passed, neither token of the login is accepted. */
  lemma SessionExpires(users: seq<User>, sessions: seq<Session>, u: User, cfg: Config, jti: string, n: nat,
                       deviceId: Option<string>, companyId: Option<int>, ip: Option<string>,
                       userAgent: Option<string>, now: int, later: int)
    requires forall i :: 0 <= i < |sessions| ==> sessions[i].jtiAccess != jti
    requires later > AddFromNow(RefreshTtl(cfg), now)
    ensures
      var expiresAt := AddFromNow(RefreshTtl(cfg), now);
      var login := IssueTokens(u, jti, cfg, expiresAt);
      var rows := sessions + [NewSession(u, jti, deviceId, companyId, ip, userAgent, now, expiresAt).(id := n)];
      && Refresh(Some(login.refreshToken.claims), rows, users, cfg, later) == Failure(Unauthorized(InvalidSession))
      && Authenticate(rows, users, login.accessToken.claims, later) == Failure(Unauthorized(InvalidSession))
  {
    var expiresAt := AddFromNow(RefreshTtl(cfg), now);
    var rows := sessions + [NewSession(u, jti, deviceId, companyId, ip, userAgent, now, expiresAt).(id := n)];
    assert forall s :: s in rows ==> !(s.jtiAccess == jti && Live(s, later)) by {
      forall s | s in rows ensures !(s.jtiAccess == jti && Live(s, later)) {
        var i :| 0 <= i < |rows| && rows[i] == s;
      }
    }
  }

  /** After logout, neither the refresh token nor the access token of that session is accepted. */
  lemma LogoutEndsSession(sessions: seq<Session>, users: seq<User>, cfg: Config, c: Claims,
                          reason: string, at: int, now: int)
    ensures Refresh(Some(c), Revoke(sessions, c.jti, reason, at), users, cfg, now).Failure?
    ensures Authenticate(Revoke(sessions, c.jti, reason, at), users, c, now) == Failure(Unauthorized(InvalidSession))
  {
    RevokeEndsLiveness(sessions, c.jti, reason, at, now);
  }

  /** A logout touches only its own session: the tokens of every other session fare as before. */
  lemma LogoutSparesOtherSessions(sessions: seq<Session>, users: seq<User>, cfg: Config, c: Claims, jti: string,
                                  reason: string, at: int, now: int)
    requires c.jti != jti
    ensures Refresh(Some(c), Revoke(sessions, jti, reason, at), users, cfg, now) == Refresh(Some(c), sessions, users, cfg, now)
    ensures Authenticate(Revoke(sessions, jti, reason, at), users, c, now) == Authenticate(sessions, users, c, now)
  {
    RevokeKeepsOtherTokens(sessions, jti, reason, at, c.jti, now);
  }

  /**
   * Deactivating a user revokes none of its sessions, but ends their use: a refresh
   * is refused as an invalid session, and the guard, whose join no longer finds the
   * soft-deleted user, fails on reading its id instead of admitting the token.
   */
  lemma DeactivationEndsSessions(sessions: seq<Session>, users: seq<User>, cfg: Config, c: Claims,
                                 i: int, k: int, at: int, now: int)
    requires Ledger.UniqueKeys(sessions) && Users.UniqueKeys(users)
    requires 0 <= i < |sessions| && sessions[i].jtiAccess == c.jti && Live(sessions[i], now)
    requires 0 <= k < |users| && users[k].id == sessions[i].userId
    ensures c.typ == Some(RefreshType) ==>
      Refresh(Some(c), sessions, Replace(users, Accounts.Deactivate(users[k], at)), cfg, now)
      == Failure(Unauthorized(InvalidSession))
    ensures Authenticate(sessions, Replace(users, Accounts.Deactivate(users[k], at)), c, now)
            == Failure(MissingRelation)
  {
    Accounts.DeactivatedIsHidden(users, k, at);
    var s := FindLive(sessions, c.jti, now).value;
    var j :| 0 <= j < |sessions| && sessions[j] == s;
    assert j == i;
  }

  /**
   * After a password change, logging in by username with the new password
   * succeeds, provided the hasher is sound at that password and no other user has
   * that username as an email.
   */
  lemma NewPasswordAdmits(users: seq<User>, k: int, newPassword: string, hashPassword: string -> string,
                          compare: (string, string) -> bool, at: int)
    requires Users.UniqueKeys(users) && 0 <= k < |users| && Visible(users[k]) && users[k].isActive
    requires compare(newPassword, hashPassword(newPassword))
    requires forall v :: v in users && v.email == users[k].username ==> v.id == users[k].id
    ensures
      var changed := Accounts.WithPassword(users[k], hashPassword(newPassword), at);
      CheckCredentials(Replace(users, changed), users[k].username, newPassword, compare) == Success(changed)
  {
    var changed := Accounts.WithPassword(users[k], hashPassword(newPassword), at);
    var after := Replace(users, changed);
    var name := users[k].username;
    NoOtherRowAnswers(users, k, changed);
    forall v | v in after && Answers(v, name) ensures v == changed {
      var j :| 0 <= j < |after| && after[j] == v;
      assert j == k;
    }
    CredentialsOfSoleMatch(after, changed, name, newPassword, compare);
  }

  /** Rewriting row `k` in place, no other row answers to its username. */
  lemma NoOtherRowAnswers(users: seq<User>, k: int, u: User)
    requires Users.UniqueKeys(users) && 0 <= k < |users| && u.id == users[k].id
    requires forall v :: v in users && v.email == users[k].username ==> v.id == users[k].id
    ensures forall j :: 0 <= j < |users| && j != k ==> !Answers(Replace(users, u)[j], users[k].username)
  {
    forall j | 0 <= j < |users| && j != k ensures !Answers(Replace(users, u)[j], users[k].username) {
      assert users[j] in users;
      assert Replace(users, u)[j] == users[j];
    }
  }
}
