/**
 * The session ledger `sys.sessions` (src/auth/entities/session.entity.ts):
 * one row per admitted login, keyed by the unique token id `jtiAccess`.
 */
module Ledger {
  import opened Wrappers

  /** A row of `sys.sessions`. Instants are epoch milliseconds; `None` is SQL NULL. */
  datatype Session = Session(
    id: nat,
    userId: string,
    jtiAccess: string,
    deviceId: Option<string>,
    loginAt: int,
    logoutAt: Option<int>,
    lastSeenAt: Option<int>,
    expiresAt: int,
    revokedAt: Option<int>,
    revokedReason: Option<string>,
    ip: Option<string>,
    userAgent: Option<string>,
    companyId: Option<int>)

  /** A session is live while it is unrevoked and its expiry is not in the past. */
  predicate Live(s: Session, now: int) {
    s.revokedAt.None? && s.expiresAt >= now
  }

  /** The primary key and the unique index on `jtiAccess`. */
  predicate UniqueKeys(rows: seq<Session>) {
    forall i, j :: 0 <= i < j < |rows| ==> rows[i].id != rows[j].id && rows[i].jtiAccess != rows[j].jtiAccess
  }

  /** `findOne` with `jtiAccess = jti`, `revokedAt IS NULL` and `expiresAt >= now`. */
  function FindLive(rows: seq<Session>, jti: string, now: int): (r: Option<Session>)
    ensures r.Some? ==> r.value in rows && r.value.jtiAccess == jti && Live(r.value, now)
    ensures r.None? <==> forall s :: s in rows ==> !(s.jtiAccess == jti && Live(s, now))
  {
    if rows == [] then None
    else if rows[0].jtiAccess == jti && Live(rows[0], now) then Some(rows[0])
    else FindLive(rows[1..], jti, now)
  }

  /** The revocation fields that logout writes. */
  function Revoked(s: Session, reason: string, now: int): Session {
    s.(revokedAt := Some(now), revokedReason := Some(reason), logoutAt := Some(now))
  }

  /**
   * `update({ jtiAccess: jti, revokedAt: IsNull() }, { revokedAt, revokedReason, logoutAt })`:
   * a conditional update that touches only unrevoked rows carrying `jti`.
   */
  function Revoke(rows: seq<Session>, jti: string, reason: string, now: int): (r: seq<Session>)
    ensures |r| == |rows|
    ensures forall i :: 0 <= i < |rows| && (rows[i].jtiAccess != jti || rows[i].revokedAt.Some?) ==> r[i] == rows[i]
    ensures forall i :: 0 <= i < |rows| && rows[i].jtiAccess == jti && rows[i].revokedAt.None? ==>
      r[i] == Revoked(rows[i], reason, now)
  {
    if rows == [] then []
    else
      var head := if rows[0].jtiAccess == jti && rows[0].revokedAt.None? then Revoked(rows[0], reason, now) else rows[0];
      [head] + Revoke(rows[1..], jti, reason, now)
  }

  /** `update({ id }, { lastSeenAt: now })`: only the last-seen time of the row with that id. */
  function Touch(rows: seq<Session>, id: nat, now: int): (r: seq<Session>)
    ensures |r| == |rows|
    ensures forall i :: 0 <= i < |rows| ==> r[i].(lastSeenAt := rows[i].lastSeenAt) == rows[i]
    ensures forall i :: 0 <= i < |rows| ==> r[i].lastSeenAt == if rows[i].id == id then Some(now) else rows[i].lastSeenAt
  {
    if rows == [] then []
    else [if rows[0].id == id then rows[0].(lastSeenAt := Some(now)) else rows[0]] + Touch(rows[1..], id, now)
  }

  /** After a revocation no session with that token id is live, at any time. */
  lemma RevokeEndsLiveness(rows: seq<Session>, jti: string, reason: string, at: int, now: int)
    ensures FindLive(Revoke(rows, jti, reason, at), jti, now).None?
  {
    var r := Revoke(rows, jti, reason, at);
    forall s | s in r ensures !(s.jtiAccess == jti && Live(s, now)) {
      var i :| 0 <= i < |r| && r[i] == s;
    }
  }

  /** A second revocation of the same token id changes nothing. */
  lemma RevokeIdempotent(rows: seq<Session>, jti: string, reason: string, at: int, reason2: string, at2: int)
    ensures Revoke(Revoke(rows, jti, reason, at), jti, reason2, at2) == Revoke(rows, jti, reason, at)
  {
    var once := Revoke(rows, jti, reason, at);
    var twice := Revoke(once, jti, reason2, at2);
    assert forall i :: 0 <= i < |once| ==> twice[i] == once[i];
  }

  /** Revoking one token id leaves the lookup of every other token id as it was. */
  lemma {:induction false} RevokeKeepsOtherTokens(rows: seq<Session>, jti: string, reason: string, at: int, other: string, now: int)
    requires other != jti
    ensures FindLive(Revoke(rows, jti, reason, at), other, now) == FindLive(rows, other, now)
  {
    if rows != [] {
      var r := Revoke(rows, jti, reason, at);
      assert r[1..] == Revoke(rows[1..], jti, reason, at);
      RevokeKeepsOtherTokens(rows[1..], jti, reason, at, other, now);
    }
  }

  /** The last-seen touch changes neither liveness nor which session a token id finds. */
  lemma {:induction false} TouchKeepsLookup(rows: seq<Session>, id: nat, at: int, jti: string, now: int)
    ensures FindLive(Touch(rows, id, at), jti, now).Some? == FindLive(rows, jti, now).Some?
    ensures FindLive(rows, jti, now).Some? ==>
      FindLive(Touch(rows, id, at), jti, now).value.(lastSeenAt := FindLive(rows, jti, now).value.lastSeenAt)
        == FindLive(rows, jti, now).value
  {
    if rows != [] {
      var r := Touch(rows, id, at);
      assert r[1..] == Touch(rows[1..], id, at);
      TouchKeepsLookup(rows[1..], id, at, jti, now);
    }
  }

  lemma RevokeKeepsUniqueKeys(rows: seq<Session>, jti: string, reason: string, at: int)
    requires UniqueKeys(rows)
    ensures UniqueKeys(Revoke(rows, jti, reason, at))
  {
    var r := Revoke(rows, jti, reason, at);
    assert forall i :: 0 <= i < |r| ==> r[i].id == rows[i].id && r[i].jtiAccess == rows[i].jtiAccess;
  }

  lemma TouchKeepsUniqueKeys(rows: seq<Session>, id: nat, at: int)
    requires UniqueKeys(rows)
    ensures UniqueKeys(Touch(rows, id, at))
  {
    var r := Touch(rows, id, at);
    assert forall i :: 0 <= i < |r| ==> r[i].id == rows[i].id && r[i].jtiAccess == rows[i].jtiAccess;
  }

  /** The repository of `sys.sessions`, with the serial counter behind its primary key. */
  class SessionTable {
    var rows: seq<Session>
    var nextId: nat

    ghost predicate Valid()
      reads this
    {
      UniqueKeys(rows) && forall i :: 0 <= i < |rows| ==> rows[i].id < nextId
    }

    constructor ()
      ensures Valid() && rows == [] && nextId == 1
    {
      rows := [];
      nextId := 1;
    }

    /** `save(session)` of a new row: the database numbers it and appends it. */
    method Insert(s: Session) returns (saved: Session)
      requires Valid()
      requires forall i :: 0 <= i < |rows| ==> rows[i].jtiAccess != s.jtiAccess
      modifies this
      ensures Valid()
      ensures saved == s.(id := old(nextId))
      ensures rows == old(rows) + [saved] && nextId == old(nextId) + 1
    {
      saved := s.(id := nextId);
      rows := rows + [saved];
      nextId := nextId + 1;
    }

    /** The conditional revocation update. */
    method RevokeWhere(jti: string, reason: string, now: int)
      requires Valid()
      modifies this
      ensures Valid()
      ensures rows == Revoke(old(rows), jti, reason, now) && nextId == old(nextId)
    {
      RevokeKeepsUniqueKeys(rows, jti, reason, now);
      rows := Revoke(rows, jti, reason, now);
    }

    /** The last-seen update by primary key. */
    method TouchWhere(id: nat, now: int)
      requires Valid()
      modifies this
      ensures Valid()
      ensures rows == Touch(old(rows), id, now) && nextId == old(nextId)
    {
      TouchKeepsUniqueKeys(rows, id, now);
      rows := Touch(rows, id, now);
    }
  }
}
