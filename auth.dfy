/**
 * The session lifecycle (src/auth/auth.service.ts): login opens a ledger row and
 * issues an access/refresh pair sharing its token id, refresh mints a new access
 * token for a live session of an active user, logout revokes, me looks a user up.
 */
module Auth {
  import opened Wrappers
  import opened Errors
  import opened Users
  import opened Ledger
  import opened Jwt
  import Ttl

  /** The settings `JWT_ACCESS_TTL` and `JWT_REFRESH_TTL`; `None` when unset. */
  datatype Config = Config(accessTtl: Option<string>, refreshTtl: Option<string>)

  const DefaultAccessTtl := "15m"
  const DefaultRefreshTtl := "7d"

  /** `setting || fallback`: an unset or empty setting falls back. */
  function OrDefault(setting: Option<string>, fallback: string): (r: string)
    ensures setting.Some? && setting.value != "" ==> r == setting.value
    ensures setting.None? || setting.value == "" ==> r == fallback
  {
    if setting.Some? && setting.value != "" then setting.value else fallback
  }

  function AccessTtl(cfg: Config): string { OrDefault(cfg.accessTtl, DefaultAccessTtl) }

  function RefreshTtl(cfg: Config): string { OrDefault(cfg.refreshTtl, DefaultRefreshTtl) }

  /** The copy of `addFromNow` kept private to the service file. */
  function AddFromNow(ttl: string, now: int): (expiry: int)
    ensures expiry >= now
    ensures !Ttl.WellFormed(ttl) ==> expiry == now + Ttl.FallbackMs
  {
    var ms :=
      match Ttl.Exec(ttl)
      case Some(m) =>
        var val := Ttl.DecimalValue(m.digits);
        if m.unit == 's' then val * 1_000
        else if m.unit == 'm' then val * 60_000
        else if m.unit == 'h' then val * 3_600_000
        else val * 86_400_000
      case None => 7 * 86_400_000;
    now + ms
  }

  /** The private copy and the shared utility agree on every input. */
  lemma AddFromNowCopiesAgree(ttl: string, now: int)
    ensures AddFromNow(ttl, now) == Ttl.AddFromNow(ttl, now)
  {
  }

  /** The row answers to the identifier as its username or its email. */
  predicate Answers(u: User, identifier: string) {
    u.username == identifier || u.email == identifier
  }

  /**
   * `findOne({ where: [{ username: x }, { email: x }] })`: the first row, not
   * soft-deleted, matching either column.
   */
  function FindByIdentifier(users: seq<User>, identifier: string): (r: Option<User>)
    ensures r.Some? ==> r.value in users && Answers(r.value, identifier) && Visible(r.value)
    ensures r.None? <==> forall u :: u in users ==> !Answers(u, identifier) || !Visible(u)
  {
    if users == [] then None
    else if Answers(users[0], identifier) && Visible(users[0]) then Some(users[0])
    else FindByIdentifier(users[1..], identifier)
  }

  /**
   * The credential check of login: an unknown identifier, an inactive user and a
   * wrong password all end in the same error.
   */
  function CheckCredentials(users: seq<User>, identifier: string, password: string,
                            compare: (string, string) -> bool): (r: Result<User, Error>)
    ensures r.Failure? ==> r.error == Unauthorized(InvalidCredentials)
    ensures r.Success? ==>
      && r.value in users
      && Answers(r.value, identifier)
      && Visible(r.value)
      && r.value.isActive
      && compare(password, r.value.password)
    ensures (forall u :: u in users ==> !Answers(u, identifier) || !Visible(u)) ==> r.Failure?
  {
    match FindByIdentifier(users, identifier)
    case None => Failure(Unauthorized(InvalidCredentials))
    case Some(u) =>
      if !u.isActive then Failure(Unauthorized(InvalidCredentials))
      else if !compare(password, u.password) then Failure(Unauthorized(InvalidCredentials))
      else Success(u)
  }

  /**
   * When exactly one row that is not soft-deleted answers to the identifier, login
   * admits it iff it is active and the password checks.
   */
  lemma CredentialsOfSoleMatch(users: seq<User>, u: User, identifier: string, password: string,
                               compare: (string, string) -> bool)
    requires u in users && Answers(u, identifier) && Visible(u)
    requires forall v :: v in users && Answers(v, identifier) && Visible(v) ==> v == u
    ensures CheckCredentials(users, identifier, password, compare).Success?
            <==> u.isActive && compare(password, u.password)
    ensures CheckCredentials(users, identifier, password, compare).Success? ==>
            CheckCredentials(users, identifier, password, compare).value == u
  {
  }

  /** The user fields a client may see. */
  datatype UserSummary = UserSummary(id: string, username: string, email: string, firstName: string, lastName: string)

  function Summary(u: User): UserSummary {
    UserSummary(u.id, u.username, u.email, u.firstName, u.lastName)
  }

  /** The body a successful login answers with. */
  datatype LoginResult = LoginResult(accessToken: SignedToken, refreshToken: SignedToken, expiresAt: int, user: UserSummary)

  /** The token pair and body of a successful login. */
  function IssueTokens(u: User, jti: string, cfg: Config, expiresAt: int): (r: LoginResult)
    ensures r.accessToken.claims.sub == u.id && r.refreshToken.claims.sub == u.id
    ensures r.accessToken.claims.jti == jti && r.refreshToken.claims.jti == jti
    ensures r.accessToken.claims.username == u.username && r.refreshToken.claims.username == u.username
    ensures r.accessToken.claims.typ == None && r.refreshToken.claims.typ == Some(RefreshType)
    ensures r.accessToken.expiresIn == AccessTtl(cfg) && r.refreshToken.expiresIn == RefreshTtl(cfg)
    ensures r.expiresAt == expiresAt && r.user == Summary(u)
  {
    var access := SignedToken(Claims(u.id, jti, u.username, None), AccessTtl(cfg));
    var refresh := SignedToken(Claims(u.id, jti, u.username, Some(RefreshType)), RefreshTtl(cfg));
    LoginResult(access, refresh, expiresAt, Summary(u))
  }

  /** The row a successful login asks the database to insert; the database assigns `id`. */
  function NewSession(u: User, jti: string, deviceId: Option<string>, companyId: Option<int>,
                      ip: Option<string>, userAgent: Option<string>, now: int, expiresAt: int): Session
  {
    Session(0, u.id, jti, deviceId, now, None, None, expiresAt, None, None, ip, userAgent, companyId)
  }

  /** The body a successful refresh answers with. */
  datatype AccessGrant = AccessGrant(accessToken: SignedToken)

  /**
   * `refresh(refreshToken)`. `verified` is what `jwt.verify` made of the token:
   * its claims, or `None` when verification threw.
   */
  function Refresh(verified: Option<Claims>, sessions: seq<Session>, users: seq<User>, cfg: Config, now: int)
    : (r: Result<AccessGrant, Error>)
    ensures verified.None? ==> r == Failure(Unauthorized(InvalidRefreshToken))
    ensures verified.Some? && verified.value.typ != Some(RefreshType) ==> r == Failure(BadRequest(NotARefreshToken))
    ensures verified.Some? && verified.value.typ == Some(RefreshType) && r.Failure? ==>
      r.error == Unauthorized(InvalidSession)
    ensures r.Success? ==>
      exists s, u ::
        && s in sessions && u in users
        && s.jtiAccess == verified.value.jti && Live(s, now) && s.userId == u.id && Visible(u) && u.isActive
        && r.value.accessToken == SignedToken(Claims(u.id, s.jtiAccess, u.username, None), AccessTtl(cfg))
  {
    match verified
    case None => Failure(Unauthorized(InvalidRefreshToken))
    case Some(payload) =>
      if payload.typ != Some(RefreshType) then Failure(BadRequest(NotARefreshToken))
      else
        match FindLive(sessions, payload.jti, now)
        case None => Failure(Unauthorized(InvalidSession))
        case Some(s) =>
          match FindById(users, s.userId)
          case None => Failure(Unauthorized(InvalidSession))
          case Some(u) =>
            if !u.isActive then Failure(Unauthorized(InvalidSession))
            else Success(AccessGrant(SignedToken(Claims(u.id, s.jtiAccess, u.username, None), AccessTtl(cfg))))
  }

  /** The session's owner exists, is not soft-deleted and is active. */
  predicate OwnerActive(users: seq<User>, s: Session) {
    exists u :: u in users && u.id == s.userId && Visible(u) && u.isActive
  }

  /**
   * With the tables' unique indexes in place, a refresh token is accepted iff some
   * live session carries its token id and belongs to an active user.
   */
  lemma RefreshAcceptedIff(c: Claims, sessions: seq<Session>, users: seq<User>, cfg: Config, now: int)
    requires Ledger.UniqueKeys(sessions) && Users.UniqueKeys(users)
    requires c.typ == Some(RefreshType)
    ensures Refresh(Some(c), sessions, users, cfg, now).Success? <==>
      exists i :: 0 <= i < |sessions| && sessions[i].jtiAccess == c.jti && Live(sessions[i], now)
                  && OwnerActive(users, sessions[i])
  {
    var r := Refresh(Some(c), sessions, users, cfg, now);
    if i :| 0 <= i < |sessions| && sessions[i].jtiAccess == c.jti && Live(sessions[i], now) && OwnerActive(users, sessions[i]) {
      var s := FindLive(sessions, c.jti, now).value;
      assert s == sessions[i];
      var u :| u in users && u.id == s.userId && Visible(u) && u.isActive;
      var k :| 0 <= k < |users| && users[k] == u;
      FindByIdUnique(users, k);
    }
  }

  /** `me(userId)`: the caller's summary. */
  function Me(users: seq<User>, userId: string): (r: Result<UserSummary, Error>)
    ensures r.Failure? <==> forall u :: u in users ==> u.id != userId || !Visible(u)
    ensures r.Failure? ==> r.error == Unauthorized(DefaultUnauthorized)
    ensures r.Success? ==> exists u :: u in users && u.id == userId && Visible(u) && r.value == Summary(u)
  {
    match FindById(users, userId)
    case None => Failure(Unauthorized(DefaultUnauthorized))
    case Some(u) => Success(Summary(u))
  }

  /** The summary never depends on the stored password hash. */
  lemma {:induction false} MeIgnoresPassword(users: seq<User>, userId: string, i: nat, password: string)
    requires i < |users|
    ensures Me(users[i := users[i].(password := password)], userId) == Me(users, userId)
  {
    FindByIdIgnoresPassword(users, userId, i, password);
  }

  lemma {:induction false} FindByIdIgnoresPassword(users: seq<User>, id: string, i: nat, password: string)
    requires i < |users|
    ensures var found := FindById(users[i := users[i].(password := password)], id);
      found.Some? == FindById(users, id).Some?
      && (found.Some? ==> found.value == FindById(users, id).value.(password := found.value.password))
  {
    var changed := users[i := users[i].(password := password)];
    if i > 0 {
      assert changed[1..] == users[1..][i - 1 := users[i].(password := password)];
      FindByIdIgnoresPassword(users[1..], id, i - 1, password);
    }
  }

  /** The answer to logout. */
  datatype LogoutAck = LogoutAck(ok: bool)

  /** The service over the user and session tables; `compare` is the opaque password check. */
  class AuthService {
    const users: UserTable
    const sessions: SessionTable
    const cfg: Config
    const compare: (string, string) -> bool

    constructor (users: UserTable, sessions: SessionTable, cfg: Config, compare: (string, string) -> bool)
      ensures this.users == users && this.sessions == sessions && this.cfg == cfg && this.compare == compare
    {
      this.users := users;
      this.sessions := sessions;
      this.cfg := cfg;
      this.compare := compare;
    }

    /**
     * `login(usernameOrEmail, password, ip, userAgent, deviceId, companyId)` at instant
     * `now`, with `jti` the fresh random token id. Existing sessions of the user are
     * not consulted: a user may hold any number of sessions.
     */
    method Login(usernameOrEmail: string, password: string, ip: Option<string>, userAgent: Option<string>,
                 deviceId: Option<string>, companyId: Option<int>, now: int, jti: string)
      returns (r: Result<LoginResult, Error>)
      requires sessions.Valid()
      requires forall i :: 0 <= i < |sessions.rows| ==> sessions.rows[i].jtiAccess != jti
      modifies sessions
      ensures sessions.Valid()
      ensures CheckCredentials(users.rows, usernameOrEmail, password, compare).Failure? ==>
        && r == Failure(Unauthorized(InvalidCredentials))
        && sessions.rows == old(sessions.rows) && sessions.nextId == old(sessions.nextId)
      ensures CheckCredentials(users.rows, usernameOrEmail, password, compare).Success? ==>
        var u := CheckCredentials(users.rows, usernameOrEmail, password, compare).value;
        var expiresAt := AddFromNow(RefreshTtl(cfg), now);
        && r == Success(IssueTokens(u, jti, cfg, expiresAt))
        && sessions.rows == old(sessions.rows)
             + [NewSession(u, jti, deviceId, companyId, ip, userAgent, now, expiresAt).(id := old(sessions.nextId))]
        && sessions.nextId == old(sessions.nextId) + 1
    {
      var found := FindByIdentifier(users.rows, usernameOrEmail);
      if found.None? || !found.value.isActive {
        return Failure(Unauthorized(InvalidCredentials));
      }
      var user := found.value;
      var ok := compare(password, user.password);
      if !ok {
        return Failure(Unauthorized(InvalidCredentials));
      }
      var refreshTtl := RefreshTtl(cfg);
      var expiresAt := AddFromNow(refreshTtl, now);
      var session := NewSession(user, jti, deviceId, companyId, ip, userAgent, now, expiresAt);
      var saved := sessions.Insert(session);
      var accessToken := SignedToken(Claims(user.id, jti, user.username, None), AccessTtl(cfg));
      var refreshToken := SignedToken(Claims(user.id, jti, user.username, Some(RefreshType)), refreshTtl);
      r := Success(LoginResult(accessToken, refreshToken, expiresAt, Summary(user)));
    }

    /** `logout(jti, reason)` at instant `now`: always acknowledged. */
    method Logout(jti: string, now: int, reason: string := "logout") returns (r: LogoutAck)
      requires sessions.Valid()
      modifies sessions
      ensures sessions.Valid()
      ensures r == LogoutAck(true)
      ensures sessions.rows == Revoke(old(sessions.rows), jti, reason, now)
      ensures sessions.nextId == old(sessions.nextId)
    {
      sessions.RevokeWhere(jti, reason, now);
      r := LogoutAck(true);
    }
  }
}
