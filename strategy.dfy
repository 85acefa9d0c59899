/**
 * The bearer-token guard (src/auth/strategies/jwt.strategy.ts): a request is admitted
 * only while the session named by the token's id is live and its user is not
 * soft-deleted, and finding the session records its last activity.
 */
module Strategy {
  import opened Wrappers
  import opened Errors
  import opened Ledger
  import opened Jwt
  import opened Users

  /** What the guard attaches to the request. */
  datatype RequestUser = RequestUser(userId: string, username: string, sessionId: nat, jti: string, companyId: Option<int>)

  /**
   * The answer of `validate(payload)` at instant `now`. The session is read with its
   * user joined in; the join skips a soft-deleted user, and reading the id of the
   * absent user then throws.
   */
  function Authenticate(sessions: seq<Session>, users: seq<User>, payload: Claims, now: int)
    : (r: Result<RequestUser, Error>)
    ensures r == Failure(Unauthorized(InvalidSession)) <==>
      forall s :: s in sessions ==> !(s.jtiAccess == payload.jti && Live(s, now))
    ensures r == Failure(MissingRelation) ==>
      exists s :: s in sessions && s.jtiAccess == payload.jti && Live(s, now) && FindById(users, s.userId).None?
    ensures r.Failure? ==> r.error == Unauthorized(InvalidSession) || r.error == MissingRelation
    ensures r.Success? ==>
      exists s, u ::
        && s in sessions && s.jtiAccess == payload.jti && Live(s, now)
        && u in users && u.id == s.userId && Visible(u)
        && r.value == RequestUser(u.id, payload.username, s.id, payload.jti, s.companyId)
  {
    match FindLive(sessions, payload.jti, now)
    case None => Failure(Unauthorized(InvalidSession))
    case Some(s) =>
      match FindById(users, s.userId)
      case None => Failure(MissingRelation)
      case Some(u) => Success(RequestUser(u.id, payload.username, s.id, payload.jti, s.companyId))
  }

  /** Recording activity never changes who is admitted, nor as what. */
  lemma TouchKeepsAuthentication(sessions: seq<Session>, users: seq<User>, id: nat, at: int, payload: Claims, now: int)
    ensures Authenticate(Touch(sessions, id, at), users, payload, now) == Authenticate(sessions, users, payload, now)
  {
    TouchKeepsLookup(sessions, id, at, payload.jti, now);
  }

  /**
   * With unique keys, the guard's answer is decided by the session carrying the
   * token's id and by its owner: admitted iff the session is live and its owner is
   * not soft-deleted, and then reported with its id and its owner.
   */
  lemma AuthenticatesTheSession(sessions: seq<Session>, users: seq<User>, i: int, payload: Claims, now: int)
    requires Ledger.UniqueKeys(sessions) && Users.UniqueKeys(users)
    requires 0 <= i < |sessions| && sessions[i].jtiAccess == payload.jti
    ensures Authenticate(sessions, users, payload, now).Success?
            <==> Live(sessions[i], now) && exists u :: u in users && u.id == sessions[i].userId && Visible(u)
    ensures Authenticate(sessions, users, payload, now) == Failure(MissingRelation)
            <==> Live(sessions[i], now) && forall u :: u in users && u.id == sessions[i].userId ==> !Visible(u)
    ensures Authenticate(sessions, users, payload, now).Success? ==>
      Authenticate(sessions, users, payload, now).value.sessionId == sessions[i].id
      && Authenticate(sessions, users, payload, now).value.userId == sessions[i].userId
  {
    if Live(sessions[i], now) {
      var s := FindLive(sessions, payload.jti, now).value;
      var k :| 0 <= k < |sessions| && sessions[k] == s;
      assert k == i;
    }
  }

  /** The guard over the session table, whose rows it reads with their users joined in. */
  class JwtStrategy {
    const sessions: SessionTable
    const users: UserTable

    constructor (sessions: SessionTable, users: UserTable)
      ensures this.sessions == sessions && this.users == users
    {
      this.sessions := sessions;
      this.users := users;
    }

    /**
     * `validate(payload)` at instant `now`. The activity update is not awaited;
     * `touchLands` says whether it reached the table. It is issued before the
     * answer is built, so it is issued also when reading the user's id throws.
     */
    method Validate(payload: Claims, now: int, touchLands: bool) returns (r: Result<RequestUser, Error>)
      requires sessions.Valid()
      modifies sessions
      ensures sessions.Valid()
      ensures r == Authenticate(old(sessions.rows), users.rows, payload, now)
      ensures var found := FindLive(old(sessions.rows), payload.jti, now);
        sessions.rows == if found.Some? && touchLands then Touch(old(sessions.rows), found.value.id, now)
                         else old(sessions.rows)
      ensures sessions.nextId == old(sessions.nextId)
    {
      var found := FindLive(sessions.rows, payload.jti, now);
      if found.None? {
        return Failure(Unauthorized(InvalidSession));
      }
      var session := found.value;
      if touchLands {
        sessions.TouchWhere(session.id, now);
      }
      var user := FindById(users.rows, session.userId);
      if user.None? {
        return Failure(MissingRelation);
      }
      r := Success(RequestUser(user.value.id, payload.username, session.id, payload.jti, session.companyId));
    }
  }
}
