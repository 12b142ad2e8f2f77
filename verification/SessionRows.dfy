/** The tables auth_users and auth_sessions, and the guarded statements on them.
    Each statement is one atomic read-check-write of the database. */
module SessionRows {
  import opened Options

  /** A random UUID; freshness is a condition of the step that draws it. */
  type Id = nat

  /** `deleted` is the soft-delete mark; rows are never removed. */
  datatype User = User(uuid: Id, version: int, active: bool, deleted: bool)

  datatype Session = Session(user: nat, version: int, refresh: Id, expires: int, revokedAt: Option<int>)

  datatype Tables = Tables(users: map<nat, User>, sessions: map<Id, Session>)

  /** The owner subquery of activeSessionQuery. */
  predicate OwnerActive(db: Tables, row: Session, sub: Id) {
    && row.user in db.users
    && var u := db.users[row.user];
       u.uuid == sub && u.active && !u.deleted && u.version == row.version
  }

  /** The rows activeSessionQuery selects. */
  predicate Active(db: Tables, sid: Id, sub: Id, now: int) {
    && sid in db.sessions
    && var row := db.sessions[sid];
       row.revokedAt.None? && row.expires > now && OwnerActive(db, row, sub)
  }

  /** The guard of the compare-and-swap on the refresh-token ID. */
  predicate Rotatable(db: Tables, sid: Id, sub: Id, previous: Id, now: int) {
    Active(db, sid, sub, now) && db.sessions[sid].refresh == previous
  }

  function Rotated(db: Tables, sid: Id, next: Id, expires: int): Tables
    requires sid in db.sessions
  {
    db.(sessions := db.sessions[sid := db.sessions[sid].(refresh := next, expires := expires)])
  }

  /** Revocation also reaches sessions of soft-deleted or inactive users. */
  predicate Revocable(db: Tables, sid: Id, sub: Id) {
    && sid in db.sessions
    && db.sessions[sid].revokedAt.None?
    && db.sessions[sid].user in db.users
    && db.users[db.sessions[sid].user].uuid == sub
  }

  function Revoked(db: Tables, sid: Id, sub: Id, now: int): Tables {
    if Revocable(db, sid, sub)
    then db.(sessions := db.sessions[sid := db.sessions[sid].(revokedAt := Some(now))])
    else db
  }

  /** The guard of the compare-and-swap on credential_version. */
  predicate Updatable(db: Tables, uid: nat, version: int) {
    uid in db.users && !db.users[uid].deleted && db.users[uid].version == version
  }

  /** The update writes every non-zero field that was read, so also the status. */
  function CredentialsChanged(db: Tables, uid: nat, version: int, active: bool): Tables
    requires uid in db.users
  {
    db.(users := db.users[uid := db.users[uid].(version := version + 1, active := active)])
  }

  /** The rows the cleanup may delete: both of its statements test the expiry. */
  function ExpiredAmong(db: Tables, ids: set<Id>, cutoff: int): set<Id> {
    set sid | sid in ids && sid in db.sessions && db.sessions[sid].expires <= cutoff
  }

  function WithoutSessions(db: Tables, gone: set<Id>): Tables {
    db.(sessions := db.sessions - gone)
  }

  /** Nobody's view of any other session changed. */
  ghost predicate OthersKept(db: Tables, after: Tables, sid: Id) {
    forall other, sub, id, t | other != sid ::
      Rotatable(after, other, sub, id, t) <==> Rotatable(db, other, sub, id, t)
  }

  datatype RefreshResult = Refreshed | InvalidToken

  class SessionRepository {
    var db: Tables

    constructor (users: map<nat, User>)
      ensures db == Tables(users, map[])
    {
      db := Tables(users, map[]);
    }

    /** The row found names the one refresh ID that could rotate now; without a row
        there is none. */
    method GetActiveSession(sid: Id, sub: Id, now: int) returns (r: Option<Session>)
      ensures r.Some? <==> Active(db, sid, sub, now)
      ensures r.Some? ==> r.value == db.sessions[sid]
      ensures forall id :: Rotatable(db, sid, sub, id, now) <==> r.Some? && r.value.refresh == id
    {
      if Active(db, sid, sub, now) {
        r := Some(db.sessions[sid]);
      } else {
        r := None;
      }
    }

    /** A primary-key clash is reported and changes nothing. */
    method CreateSession(sid: Id, row: Session) returns (ok: bool)
      modifies this
      ensures ok <==> sid !in old(db).sessions
      ensures db == if ok then old(db).(sessions := old(db).sessions[sid := row]) else old(db)
    {
      ok := sid !in db.sessions;
      if ok {
        db := db.(sessions := db.sessions[sid := row]);
      }
    }

    /** validateJWTToken after parsing: the session is neither revoked nor expired, its
        owner is the subject, active, not deleted and still at the session's version, and
        a refresh token is the current one. So a refresh token validates iff it would
        rotate. */
    method ValidateToken(refresh: bool, sid: Id, sub: Id, id: Id, now: int) returns (ok: bool)
      ensures ok <==>
                && sid in db.sessions
                && var row := db.sessions[sid];
                && row.revokedAt.None? && now < row.expires && (refresh ==> row.refresh == id)
                && row.user in db.users
                && var owner := db.users[row.user];
                   owner.uuid == sub && owner.active && !owner.deleted && owner.version == row.version
      ensures refresh ==> (ok <==> Rotatable(db, sid, sub, id, now))
      ensures !refresh ==> (ok <==> exists other :: Rotatable(db, sid, sub, other, now))
    {
      var session := GetActiveSession(sid, sub, now);
      ok := session.Some? && (refresh ==> session.value.refresh == id);
      assert session.Some? ==> Rotatable(db, sid, sub, session.value.refresh, now);
    }

    /** createSession for a user that was read earlier: while the read is current the new
        refresh token rotates until it expires, for that user only; once the version has
        moved on it never does. */
    method LogIn(uid: nat, user: User, sid: Id, rid: Id, expires: int) returns (ok: bool)
      modifies this
      ensures ok <==> sid !in old(db).sessions
      ensures !ok ==> db == old(db)
      ensures ok && uid in db.users && db.users[uid] == user && user.active && !user.deleted ==>
                forall sub, id, t :: Rotatable(db, sid, sub, id, t) <==> sub == user.uuid && id == rid && t < expires
      ensures ok && uid in db.users && db.users[uid].version != user.version ==> forall sub, t :: !Active(db, sid, sub, t)
      ensures OthersKept(old(db), db, sid)
    {
      ok := CreateSession(sid, Session(uid, user.version, rid, expires, None));
    }

    /** The presented ID is spent whenever it is not drawn again, and the next one rotates
        until its expiry; no other session is touched. */
    method RotateSession(sid: Id, sub: Id, previous: Id, next: Id, expires: int, now: int) returns (rotated: bool)
      modifies this
      ensures rotated <==> Rotatable(old(db), sid, sub, previous, now)
      ensures db == if rotated then Rotated(old(db), sid, next, expires) else old(db)
      ensures rotated ==> forall id, t :: Rotatable(db, sid, sub, id, t) <==> id == next && t < expires
      ensures OthersKept(old(db), db, sid)
    {
      rotated := Rotatable(db, sid, sub, previous, now);
      if rotated {
        db := Rotated(db, sid, next, expires);
      }
    }

    /** No row matches when a concurrent credential change made the read stale. After
        an update no session of an older version is active. */
    method UpdateUser(uid: nat, version: int, active: bool) returns (updated: bool)
      modifies this
      ensures updated <==> Updatable(old(db), uid, version)
      ensures updated ==> uid in old(db).users && !old(db).users[uid].deleted && old(db).users[uid].version == version
      ensures db == if updated then CredentialsChanged(old(db), uid, version, active) else old(db)
      ensures updated ==> db.users[uid] == old(db).users[uid].(version := version + 1, active := active)
      ensures updated ==> forall sid, sub, now |
                sid in db.sessions && db.sessions[sid].user == uid && db.sessions[sid].version <= version ::
                !Active(db, sid, sub, now)
    {
      updated := Updatable(db, uid, version);
      if updated {
        db := CredentialsChanged(db, uid, version, active);
      }
    }

    /** Afterwards the subject has no active session of that ID at any time, and no other
        session is touched; a second revocation changes nothing. */
    method RevokeSession(sid: Id, sub: Id, now: int)
      modifies this
      ensures db == Revoked(old(db), sid, sub, now)
      ensures forall t :: !Active(db, sid, sub, t)
      ensures forall t :: Revoked(db, sid, sub, t) == db
      ensures sid in old(db).sessions ==>
                var row := old(db).sessions[sid];
                && sid in db.sessions
                && db.sessions[sid] == (if row.revokedAt.None? && row.user in db.users && db.users[row.user].uuid == sub
                                        then row.(revokedAt := Some(now)) else row)
      ensures OthersKept(old(db), db, sid)
    {
      db := Revoked(db, sid, sub, now);
    }

    /** One refresh call that nothing interleaves with: it either rotates the one
        current token, or leaves the session inactive for its subject at every time. */
    method Refresh(sid: Id, sub: Id, tokenId: Id, next: Id, ttl: int, now: int) returns (r: RefreshResult)
      modifies this
      ensures r == Refreshed <==> Rotatable(old(db), sid, sub, tokenId, now)
      ensures r == Refreshed ==> db == Rotated(old(db), sid, next, now + ttl)
      ensures r == Refreshed && ttl > 0 ==> Rotatable(db, sid, sub, next, now)
      ensures r == InvalidToken ==> db == Revoked(old(db), sid, sub, now)
      ensures r == InvalidToken ==> forall t :: !Active(db, sid, sub, t)
    {
      var rotated := RotateSession(sid, sub, tokenId, next, now + ttl, now);
      if rotated {
        return Refreshed;
      }
      RevokeSession(sid, sub, now);
      return InvalidToken;
    }
  }
}
