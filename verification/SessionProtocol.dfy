/** Any number of login, refresh, logout, update and cleanup calls, interleaved at
    every database statement. A run is a list of actions; an action that is not
    enabled changes nothing, so every list is a run. */
module SessionProtocol {
  import opened Options
  import opened SessionRows

  datatype Purpose = Access | Refresh

  /** A signed token. Signatures are unforgeable: only issued claims can be presented. */
  datatype Claims = Claims(purpose: Purpose, sid: Id, sub: Id, id: Id, exp: int)

  datatype Outcome = Rotation | Rejection | Unavailable

  /** What a statement's caller sees: success, an error without effect, or an error
      after the effect was applied. */
  datatype Fault = Fine | Lost | Applied

  /** The program counter and local variables of one call. */
  datatype Call =
    | LoginReady(uid: nat, sub: Id, version: int, sid: Id, rid: Id, exp: int)
    | RefreshReady(claims: Claims, next: Id, exp: int)
    | RefreshLost(claims: Claims)
    | RefreshEnded(claims: Claims, outcome: Outcome)
    | UpdateRead(uid: nat, version: int, active: bool)
    | UpdateHeld(uid: nat, version: int, active: bool)
    | Validated(claims: Claims, ok: bool)
    | CleanupReady(cutoff: int, ids: set<Id>)
    | Ended

  /** A committed user.update message of the outbox. */
  datatype Update = Update(uid: nat, version: int)

  /** `drawn` records which call drew each UUID, `held` every refresh ID a session
      ever carried, `updates` the committed user.update messages, all since the start. */
  datatype State = State(
    db: Tables,
    calls: map<nat, Call>,
    issued: set<Claims>,
    drawn: map<Id, nat>,
    held: map<Id, seq<Id>>,
    updates: seq<Update>)

  datatype Action =
    | AddUser(uid: nat, uuid: Id)
    | SetActive(uid: nat, active: bool)
    | DeleteUser(uid: nat)
    | LoginRead(c: nat, uid: nat, sid: Id, rid: Id, exp: int)
    | LoginInsert(c: nat, access: Id, accessExp: int, fault: Fault)
    | RefreshBegin(c: nat, claims: Claims, next: Id, exp: int, now: int)
    | RefreshRotate(c: nat, access: Id, accessExp: int, now: int, fault: Fault)
    | RefreshRevoke(c: nat, now: int, fault: Fault)
    | Logout(claims: Claims, now: int)
    | Validate(c: nat, claims: Claims, now: int)
    | UpdateBegin(c: nat, uid: nat)
    | UpdateWrite(c: nat)
    | UpdateCommit(c: nat, fault: Fault)
    | UpdateAbort(c: nat)
    | CleanupSelect(c: nat, cutoff: int, ids: set<Id>)
    | CleanupDelete(c: nat)

  const Init := State(Tables(map[], map[]), map[], {}, map[], map[], [])

  /** A user row is locked between an update's guarded write and its commit. */
  ghost predicate Locked(s: State, uid: nat) {
    exists c | c in s.calls :: s.calls[c].UpdateHeld? && s.calls[c].uid == uid
  }

  predicate Fresh(s: State, c: nat, id: Id) {
    c !in s.calls && id !in s.drawn
  }

  /** validateJWTToken after the signature check. */
  predicate Validates(s: State, claims: Claims, now: int) {
    && claims in s.issued
    && now < claims.exp
    && Active(s.db, claims.sid, claims.sub, now)
    && (claims.purpose == Refresh ==> s.db.sessions[claims.sid].refresh == claims.id)
  }

  function SetCall(s: State, c: nat, call: Call): State {
    s.(calls := s.calls[c := call])
  }

  function AddedUser(s: State, uid: nat, uuid: Id): State {
    if uid in s.db.users then s
    else s.(db := s.db.(users := s.db.users[uid := User(uuid, 1, true, false)]))
  }

  ghost function ChangedUser(s: State, uid: nat, active: bool, deleted: bool): State {
    if uid !in s.db.users || s.db.users[uid].deleted || Locked(s, uid) then s
    else s.(db := s.db.(users := s.db.users[uid := s.db.users[uid].(active := active, deleted := deleted)]))
  }

  /** createSession before the insert: the user row was read and checked. */
  function LoggingIn(s: State, c: nat, uid: nat, sid: Id, rid: Id, exp: int): State {
    if uid in s.db.users && s.db.users[uid].active && !s.db.users[uid].deleted
       && Fresh(s, c, sid) && Fresh(s, c, rid) && sid != rid
    then
      var u := s.db.users[uid];
      SetCall(s, c, LoginReady(uid, u.uuid, u.version, sid, rid, exp)).(drawn := s.drawn[sid := c][rid := c])
    else s
  }

  function Extended(held: map<Id, seq<Id>>, sid: Id, id: Id): map<Id, seq<Id>> {
    held[sid := if sid in held then held[sid] + [id] else [id]]
  }

  function TokenPair(sid: Id, sub: Id, rid: Id, exp: int, access: Id, accessExp: int): set<Claims> {
    {Claims(Access, sid, sub, access, accessExp), Claims(Refresh, sid, sub, rid, exp)}
  }

  function LoggedIn(s: State, c: nat, access: Id, accessExp: int, fault: Fault): State {
    if c !in s.calls || !s.calls[c].LoginReady? then s else
    var LoginReady(uid, sub, version, sid, rid, exp) := s.calls[c];
    var ended := SetCall(s, c, Ended);
    if fault.Lost? || sid in s.db.sessions then ended else
    var inserted := ended.(
      db := s.db.(sessions := s.db.sessions[sid := Session(uid, version, rid, exp, None)]),
      held := Extended(s.held, sid, rid));
    if fault.Applied? then inserted
    else inserted.(issued := s.issued + TokenPair(sid, sub, rid, exp, access, accessExp))
  }

  /** A refresh call after parsing and the limiter; it parses without the session. */
  function Refreshing(s: State, c: nat, claims: Claims, next: Id, exp: int, now: int): State {
    if claims in s.issued && claims.purpose == Refresh && now < claims.exp && Fresh(s, c, next)
    then SetCall(s, c, RefreshReady(claims, next, exp)).(drawn := s.drawn[next := c])
    else s
  }

  function RotatedCall(s: State, c: nat, access: Id, accessExp: int, now: int, fault: Fault): State {
    if c !in s.calls || !s.calls[c].RefreshReady? then s else
    var RefreshReady(claims, next, exp) := s.calls[c];
    if fault.Lost? then SetCall(s, c, RefreshEnded(claims, Unavailable))
    else if Rotatable(s.db, claims.sid, claims.sub, claims.id, now) then
      var moved := s.(
        db := Rotated(s.db, claims.sid, next, exp),
        held := Extended(s.held, claims.sid, next));
      if fault.Applied? then SetCall(moved, c, RefreshEnded(claims, Unavailable))
      else SetCall(moved, c, RefreshEnded(claims, Rotation)).(
             issued := s.issued + TokenPair(claims.sid, claims.sub, next, exp, access, accessExp))
    else SetCall(s, c, if fault.Fine? then RefreshLost(claims) else RefreshEnded(claims, Unavailable))
  }

  /** The loser's separate, committed revocation. */
  function RevokedCall(s: State, c: nat, now: int, fault: Fault): State {
    if c !in s.calls || !s.calls[c].RefreshLost? then s else
    var claims := s.calls[c].claims;
    if fault.Lost? then SetCall(s, c, RefreshEnded(claims, Unavailable))
    else SetCall(s.(db := Revoked(s.db, claims.sid, claims.sub, now)), c,
                 RefreshEnded(claims, if fault.Fine? then Rejection else Unavailable))
  }

  function LoggedOut(s: State, claims: Claims, now: int): State {
    if claims in s.issued && claims.purpose == Refresh && now < claims.exp
    then s.(db := Revoked(s.db, claims.sid, claims.sub, now))
    else s
  }

  /** A validation, with the answer its caller got. */
  function Validating(s: State, c: nat, claims: Claims, now: int): State {
    if c in s.calls then s else SetCall(s, c, Validated(claims, Validates(s, claims, now)))
  }

  function Updating(s: State, c: nat, uid: nat): State {
    if c !in s.calls && uid in s.db.users && !s.db.users[uid].deleted
    then SetCall(s, c, UpdateRead(uid, s.db.users[uid].version, s.db.users[uid].active))
    else s
  }

  /** The compare-and-swap on credential_version waits for the row lock; when it
      matches no row the transaction rolls back. */
  ghost function UpdateWritten(s: State, c: nat): State {
    if c !in s.calls || !s.calls[c].UpdateRead? then s else
    var UpdateRead(uid, version, active) := s.calls[c];
    if Locked(s, uid) || uid !in s.db.users then s
    else if Updatable(s.db, uid, version)
    then SetCall(s, c, UpdateHeld(uid, version, active))
    else SetCall(s, c, Ended)
  }

  /** The row and its outbox message commit together. */
  function UpdateCommitted(s: State, c: nat, fault: Fault): State {
    if c !in s.calls || !s.calls[c].UpdateHeld? || s.calls[c].uid !in s.db.users then s else
    var UpdateHeld(uid, version, active) := s.calls[c];
    var ended := SetCall(s, c, Ended);
    if fault.Lost? then ended else
    ended.(db := CredentialsChanged(s.db, uid, version, active), updates := s.updates + [Update(uid, version + 1)])
  }

  function UpdateAborted(s: State, c: nat): State {
    if c in s.calls && (s.calls[c].UpdateRead? || s.calls[c].UpdateHeld?) then SetCall(s, c, Ended) else s
  }

  /** The batch is whichever of the candidates are expired at the cutoff. */
  function Selecting(s: State, c: nat, cutoff: int, ids: set<Id>): State {
    if c !in s.calls then SetCall(s, c, CleanupReady(cutoff, ExpiredAmong(s.db, ids, cutoff))) else s
  }

  function Deleted(s: State, c: nat): State {
    if c !in s.calls || !s.calls[c].CleanupReady? then s else
    var gone := ExpiredAmong(s.db, s.calls[c].ids, s.calls[c].cutoff);
    SetCall(s.(db := WithoutSessions(s.db, gone)), c, Ended)
  }

  ghost function Step(s: State, a: Action): State {
    match a
    case AddUser(uid, uuid) => AddedUser(s, uid, uuid)
    case SetActive(uid, active) =>
      if uid in s.db.users then ChangedUser(s, uid, active, s.db.users[uid].deleted) else s
    case DeleteUser(uid) =>
      if uid in s.db.users then ChangedUser(s, uid, s.db.users[uid].active, true) else s
    case LoginRead(c, uid, sid, rid, exp) => LoggingIn(s, c, uid, sid, rid, exp)
    case LoginInsert(c, access, accessExp, fault) => LoggedIn(s, c, access, accessExp, fault)
    case RefreshBegin(c, claims, next, exp, now) => Refreshing(s, c, claims, next, exp, now)
    case RefreshRotate(c, access, accessExp, now, fault) => RotatedCall(s, c, access, accessExp, now, fault)
    case RefreshRevoke(c, now, fault) => RevokedCall(s, c, now, fault)
    case Logout(claims, now) => LoggedOut(s, claims, now)
    case Validate(c, claims, now) => Validating(s, c, claims, now)
    case UpdateBegin(c, uid) => Updating(s, c, uid)
    case UpdateWrite(c) => UpdateWritten(s, c)
    case UpdateCommit(c, fault) => UpdateCommitted(s, c, fault)
    case UpdateAbort(c) => UpdateAborted(s, c)
    case CleanupSelect(c, cutoff, ids) => Selecting(s, c, cutoff, ids)
    case CleanupDelete(c) => Deleted(s, c)
  }

  ghost function Run(s: State, actions: seq<Action>): State
    decreases |actions|
  {
    if actions == [] then s else Run(Step(s, actions[0]), actions[1..])
  }

  // ---- The invariant ----

  predicate Pending(s: State, c: nat) {
    c in s.calls && (s.calls[c].LoginReady? || s.calls[c].RefreshReady?)
  }

  /** The drawing call has already written (or given up) its UUID. */
  predicate Spent(s: State, id: Id) {
    id in s.drawn && s.drawn[id] in s.calls && !Pending(s, s.drawn[id])
  }

  ghost predicate NoDuplicates(ids: seq<Id>) {
    forall i, j :: 0 <= i < j < |ids| ==> ids[i] != ids[j]
  }

  /** Pending calls own the UUIDs they drew. */
  ghost predicate DrawsOwned(s: State) {
    && (forall c | c in s.calls && s.calls[c].LoginReady? ::
          var call := s.calls[c];
          call.sid in s.drawn && s.drawn[call.sid] == c && call.rid in s.drawn && s.drawn[call.rid] == c)
    && (forall c | c in s.calls && s.calls[c].RefreshReady? ::
          s.calls[c].next in s.drawn && s.drawn[s.calls[c].next] == c)
  }

  ghost predicate HistoryOf(s: State, sid: Id)
    requires sid in s.held
  {
    && Spent(s, sid)
    && |s.held[sid]| > 0
    && NoDuplicates(s.held[sid])
    && (forall i | 0 <= i < |s.held[sid]| :: Spent(s, s.held[sid][i]))
    && (sid in s.db.sessions ==> s.db.sessions[sid].refresh == s.held[sid][|s.held[sid]| - 1])
  }

  ghost predicate Histories(s: State) {
    && s.db.sessions.Keys <= s.held.Keys
    && (forall sid | sid in s.held :: HistoryOf(s, sid))
    && (forall a, b, id | a in s.held && b in s.held && id in s.held[a] && id in s.held[b] :: a == b)
  }

  /** A refresh token's ID belongs to its session, and its subject to the owner. */
  ghost predicate Genuine(s: State, claims: Claims) {
    && claims.sid in s.held
    && (claims.purpose == Refresh ==> claims.id in s.held[claims.sid])
    && (claims.sid in s.db.sessions ==>
          && s.db.sessions[claims.sid].user in s.db.users
          && s.db.users[s.db.sessions[claims.sid].user].uuid == claims.sub)
  }

  ghost predicate Issues(s: State) {
    && (forall claims | claims in s.issued :: Genuine(s, claims))
    && (forall a, b | a in s.issued && b in s.issued && a.purpose == b.purpose == Refresh && a.id == b.id :: a == b)
  }

  predicate HasClaims(call: Call) {
    call.RefreshReady? || call.RefreshLost? || call.RefreshEnded?
  }

  /** The family is over: the row is gone or revoked. */
  predicate Dead(s: State, sid: Id) {
    sid in s.held && (sid in s.db.sessions ==> s.db.sessions[sid].revokedAt.Some?)
  }

  /** Call c replaced this refresh ID by the next one of the session. */
  ghost predicate ConsumedBy(s: State, claims: Claims, c: nat) {
    && claims.sid in s.held
    && var ids := s.held[claims.sid];
       exists i :: 0 <= i < |ids| - 1 && ids[i] == claims.id && ids[i + 1] in s.drawn && s.drawn[ids[i + 1]] == c
  }

  ghost predicate CallOk(s: State, c: nat)
    requires c in s.calls
  {
    var call := s.calls[c];
    && (HasClaims(call) ==> call.claims in s.issued && call.claims.purpose == Refresh)
    && (call.LoginReady? ==> call.uid in s.db.users && s.db.users[call.uid].uuid == call.sub)
    && (call.RefreshEnded? && call.outcome == Rejection ==> Dead(s, call.claims.sid))
    && (call.RefreshEnded? && call.outcome == Rotation ==> ConsumedBy(s, call.claims, c))
  }

  ghost predicate Inv(s: State) {
    DrawsOwned(s) && Histories(s) && Issues(s) && (forall c | c in s.calls :: CallOk(s, c))
  }

  /** A step that writes no new refresh ID: only call c moves, and rows are at most
      revoked or deleted. */
  ghost predicate Quiet(s: State, t: State, c: nat) {
    && t.issued == s.issued
    && t.held == s.held
    && (forall uid | uid in s.db.users ::
          uid in t.db.users && t.db.users[uid].uuid == s.db.users[uid].uuid)
    && (forall sid | sid in t.db.sessions ::
          && sid in s.db.sessions
          && t.db.sessions[sid].user == s.db.sessions[sid].user
          && t.db.sessions[sid].refresh == s.db.sessions[sid].refresh
          && (s.db.sessions[sid].revokedAt.Some? ==> t.db.sessions[sid].revokedAt.Some?))
    && (forall id | id in s.drawn :: id in t.drawn && t.drawn[id] == s.drawn[id])
    && (forall d | d in s.calls && d != c :: d in t.calls && t.calls[d] == s.calls[d])
    && (forall d | d in t.calls && d != c :: d in s.calls)
    && (c in s.calls ==> c in t.calls && (t.calls[c] == s.calls[c] || !Pending(t, c)))
  }

  predicate Moved(s: State, t: State, c: nat) {
    c in t.calls && (c !in s.calls || t.calls[c] != s.calls[c])
  }

  ghost predicate CallOwnsDraws(s: State, c: nat)
    requires c in s.calls
  {
    var call := s.calls[c];
    && (call.LoginReady? ==>
          call.sid in s.drawn && s.drawn[call.sid] == c && call.rid in s.drawn && s.drawn[call.rid] == c)
    && (call.RefreshReady? ==> call.next in s.drawn && s.drawn[call.next] == c)
  }

  lemma QuietKeepsHistories(s: State, t: State, c: nat)
    requires Inv(s) && Quiet(s, t, c)
    ensures Histories(t)
  {
    forall sid | sid in t.held ensures HistoryOf(t, sid) {
      assert HistoryOf(s, sid);
    }
  }

  lemma QuietKeepsCalls(s: State, t: State, c: nat)
    requires Inv(s) && Quiet(s, t, c)
    requires Moved(s, t, c) ==> CallOk(t, c) && CallOwnsDraws(t, c)
    ensures DrawsOwned(t) && Issues(t) && forall d | d in t.calls :: CallOk(t, d)
  {
    forall d | d in t.calls ensures CallOk(t, d) {
      if !Moved(s, t, d) {
        assert CallOk(s, d);
      }
    }
    forall d | d in t.calls ensures CallOwnsDraws(t, d) {
      if !Moved(s, t, d) {
        assert CallOwnsDraws(s, d);
      }
    }
    forall claims | claims in t.issued ensures Genuine(t, claims) {
      assert Genuine(s, claims);
    }
  }

  lemma QuietKeepsInv(s: State, t: State, c: nat)
    requires Inv(s) && Quiet(s, t, c)
    requires Moved(s, t, c) ==> CallOk(t, c) && CallOwnsDraws(t, c)
    ensures Inv(t)
  {
    QuietKeepsHistories(s, t, c);
    QuietKeepsCalls(s, t, c);
  }

  lemma QuietAddedUser(s: State, uid: nat, uuid: Id)
    requires Inv(s)
    ensures Inv(AddedUser(s, uid, uuid))
  {
    QuietKeepsInv(s, AddedUser(s, uid, uuid), 0);
  }

  lemma QuietChangedUser(s: State, uid: nat, active: bool, deleted: bool)
    requires Inv(s)
    ensures Inv(ChangedUser(s, uid, active, deleted))
  {
    QuietKeepsInv(s, ChangedUser(s, uid, active, deleted), 0);
  }

  /** A step of an update or cleanup call that changes only its own call. */
  lemma QuietMove(s: State, c: nat, call: Call)
    requires Inv(s) && !HasClaims(call) && !call.LoginReady?
    ensures Inv(SetCall(s, c, call))
  {
    QuietKeepsInv(s, SetCall(s, c, call), c);
  }

  lemma QuietUpdates(s: State, c: nat, uid: nat)
    requires Inv(s)
    ensures Inv(Updating(s, c, uid)) && Inv(UpdateAborted(s, c))
  {
    if uid in s.db.users {
      QuietMove(s, c, UpdateRead(uid, s.db.users[uid].version, s.db.users[uid].active));
    }
    QuietMove(s, c, Ended);
  }

  lemma QuietWrite(s: State, c: nat)
    requires Inv(s)
    ensures Inv(UpdateWritten(s, c))
  {
    if c in s.calls && s.calls[c].UpdateRead? {
      var UpdateRead(uid, version, active) := s.calls[c];
      QuietMove(s, c, UpdateHeld(uid, version, active));
    }
    QuietMove(s, c, Ended);
  }

  lemma QuietCommit(s: State, c: nat, fault: Fault)
    requires Inv(s)
    ensures Inv(UpdateCommitted(s, c, fault))
  {
    QuietKeepsInv(s, UpdateCommitted(s, c, fault), c);
  }

  lemma QuietSelect(s: State, c: nat, cutoff: int, ids: set<Id>)
    requires Inv(s)
    ensures Inv(Selecting(s, c, cutoff, ids))
  {
    QuietMove(s, c, CleanupReady(cutoff, ExpiredAmong(s.db, ids, cutoff)));
  }

  lemma QuietDelete(s: State, c: nat)
    requires Inv(s)
    ensures Inv(Deleted(s, c))
  {
    QuietKeepsInv(s, Deleted(s, c), c);
  }

  lemma QuietLogin(s: State, c: nat, uid: nat, sid: Id, rid: Id, exp: int)
    requires Inv(s)
    ensures Inv(LoggingIn(s, c, uid, sid, rid, exp))
  {
    QuietKeepsInv(s, LoggingIn(s, c, uid, sid, rid, exp), c);
  }

  lemma QuietRefresh(s: State, c: nat, claims: Claims, next: Id, exp: int, now: int)
    requires Inv(s)
    ensures Inv(Refreshing(s, c, claims, next, exp, now))
  {
    QuietKeepsInv(s, Refreshing(s, c, claims, next, exp, now), c);
  }

  lemma QuietRevocation(s: State, c: nat, now: int, fault: Fault)
    requires Inv(s)
    ensures Inv(RevokedCall(s, c, now, fault))
  {
    if c in s.calls {
      assert CallOk(s, c);
      if HasClaims(s.calls[c]) {
        assert Genuine(s, s.calls[c].claims);
      }
    }
    QuietKeepsInv(s, RevokedCall(s, c, now, fault), c);
  }

  lemma QuietLogout(s: State, claims: Claims, now: int)
    requires Inv(s)
    ensures Inv(LoggedOut(s, claims, now))
  {
    QuietKeepsInv(s, LoggedOut(s, claims, now), 0);
  }

  /** What a pending call drew is in no history yet. */
  lemma PendingDrawsNew(s: State, c: nat, id: Id)
    requires Inv(s) && Pending(s, c) && id in s.drawn && s.drawn[id] == c
    ensures forall sid | sid in s.held :: id !in s.held[sid]
  {
    forall sid | sid in s.held ensures id !in s.held[sid] {
      assert HistoryOf(s, sid);
    }
  }

  /** Call c wrote the UUID id as the current refresh token of sid. */
  ghost predicate Wrote(s: State, t: State, c: nat, sid: Id, id: Id) {
    && Pending(s, c) && c in t.calls && !Pending(t, c)
    && id in s.drawn && s.drawn[id] == c
    && sid in s.drawn && (sid in s.held || s.drawn[sid] == c)
    && t.drawn == s.drawn
    && (forall d | d in s.calls && d != c :: d in t.calls && t.calls[d] == s.calls[d])
    && t.held == Extended(s.held, sid, id)
    && t.db.sessions.Keys == s.db.sessions.Keys + {sid} && t.db.sessions[sid].refresh == id
    && (forall x | x in s.db.sessions && x != sid :: t.db.sessions[x] == s.db.sessions[x])
  }

  lemma WrittenSpent(s: State, t: State, c: nat, sid: Id, id: Id)
    requires Inv(s) && Wrote(s, t, c, sid, id)
    ensures Spent(t, sid) && Spent(t, id)
    ensures forall x | Spent(s, x) :: Spent(t, x)
  {
    assert sid in s.held ==> HistoryOf(s, sid);
  }

  lemma WrittenHistory(s: State, t: State, c: nat, sid: Id, id: Id, x: Id)
    requires Inv(s) && Wrote(s, t, c, sid, id) && x in t.held
    ensures HistoryOf(t, x)
  {
    WrittenSpent(s, t, c, sid, id);
    if x != sid {
      assert HistoryOf(s, x);
    } else if sid in s.held {
      assert HistoryOf(s, sid);
      PendingDrawsNew(s, c, id);
      var ids := s.held[sid];
      assert t.held[sid] == ids + [id];
      assert forall i | 0 <= i < |ids| :: ids[i] in ids;
    }
  }

  /** Extending one history by an unspent UUID keeps histories duplicate-free and apart. */
  lemma HistoriesGrow(s: State, t: State, c: nat, sid: Id, id: Id)
    requires Inv(s) && Wrote(s, t, c, sid, id)
    ensures Histories(t)
  {
    forall x | x in t.held ensures HistoryOf(t, x) {
      WrittenHistory(s, t, c, sid, id, x);
    }
    PendingDrawsNew(s, c, id);
    forall x, y, i | x in t.held && y in t.held && i in t.held[x] && i in t.held[y] ensures x == y {
      assert i == id || (x in s.held && y in s.held && i in s.held[x] && i in s.held[y]);
    }
  }

  /** The other half of writing a refresh ID: rows keep their owner, and at most the
      pair for the new ID is issued. */
  ghost predicate Handed(s: State, t: State, sid: Id, sub: Id, id: Id, exp: int, access: Id, accessExp: int) {
    && t.db.users == s.db.users
    && sid in t.db.sessions && t.db.sessions[sid].user in s.db.users
    && s.db.users[t.db.sessions[sid].user].uuid == sub
    && (sid in s.db.sessions ==>
          t.db.sessions[sid].user == s.db.sessions[sid].user && t.db.sessions[sid].revokedAt == s.db.sessions[sid].revokedAt)
    && (t.issued == s.issued || t.issued == s.issued + TokenPair(sid, sub, id, exp, access, accessExp))
  }

  lemma WrittenGenuine(s: State, t: State, c: nat, sid: Id, sub: Id, id: Id, exp: int, access: Id, accessExp: int, claims: Claims)
    requires Inv(s) && Wrote(s, t, c, sid, id) && Handed(s, t, sid, sub, id, exp, access, accessExp)
    requires sid in s.db.sessions || sid !in s.held
    requires claims in t.issued
    ensures Genuine(t, claims)
  {
    if claims in s.issued {
      assert Genuine(s, claims);
    }
  }

  lemma WrittenIssues(s: State, t: State, c: nat, sid: Id, sub: Id, id: Id, exp: int, access: Id, accessExp: int)
    requires Inv(s) && Wrote(s, t, c, sid, id) && Handed(s, t, sid, sub, id, exp, access, accessExp)
    requires sid in s.db.sessions || sid !in s.held
    ensures Issues(t)
  {
    forall claims | claims in t.issued ensures Genuine(t, claims) {
      WrittenGenuine(s, t, c, sid, sub, id, exp, access, accessExp, claims);
    }
    IssuedIdsDiffer(s, c, id);
    forall a, b | a in t.issued && b in t.issued && a.purpose == b.purpose == Refresh && a.id == b.id ensures a == b {
      var pair := Claims(Refresh, sid, sub, id, exp);
      assert (a in s.issued || a == pair) && (b in s.issued || b == pair);
    }
  }

  /** No issued refresh token has an ID that a pending call drew. */
  lemma IssuedIdsDiffer(s: State, c: nat, id: Id)
    requires Inv(s) && Pending(s, c) && id in s.drawn && s.drawn[id] == c
    ensures forall claims | claims in s.issued && claims.purpose == Refresh :: claims.id != id
  {
    PendingDrawsNew(s, c, id);
    forall claims | claims in s.issued && claims.purpose == Refresh ensures claims.id != id {
      assert Genuine(s, claims);
    }
  }

  lemma WrittenCalls(s: State, t: State, c: nat, sid: Id, sub: Id, id: Id, exp: int, access: Id, accessExp: int, d: nat)
    requires Inv(s) && Wrote(s, t, c, sid, id) && Handed(s, t, sid, sub, id, exp, access, accessExp)
    requires sid in s.db.sessions || sid !in s.held
    requires d in s.calls && d != c
    ensures CallOk(t, d) && CallOwnsDraws(t, d)
  {
    assert CallOk(s, d) && CallOwnsDraws(s, d);
    var call := s.calls[d];
    if call.RefreshEnded? && call.outcome == Rotation {
      ConsumedStays(s, t, c, sid, id, call.claims, d);
    }
  }

  lemma ConsumedStays(s: State, t: State, c: nat, sid: Id, id: Id, claims: Claims, d: nat)
    requires Wrote(s, t, c, sid, id) && ConsumedBy(s, claims, d)
    ensures ConsumedBy(t, claims, d)
  {
    var ids, more := s.held[claims.sid], t.held[claims.sid];
    var i :| 0 <= i < |ids| - 1 && ids[i] == claims.id && ids[i + 1] in s.drawn && s.drawn[ids[i + 1]] == d;
    assert more[i] == ids[i] && more[i + 1] == ids[i + 1];
  }

  lemma WritingKeepsInv(s: State, t: State, c: nat, sid: Id, sub: Id, id: Id, exp: int, access: Id, accessExp: int)
    requires Inv(s) && Wrote(s, t, c, sid, id) && Handed(s, t, sid, sub, id, exp, access, accessExp)
    requires sid in s.db.sessions || sid !in s.held
    requires t.calls.Keys == s.calls.Keys && CallOk(t, c)
    ensures Inv(t)
  {
    HistoriesGrow(s, t, c, sid, id);
    WrittenIssues(s, t, c, sid, sub, id, exp, access, accessExp);
    forall d | d in t.calls ensures CallOk(t, d) && CallOwnsDraws(t, d) {
      if d != c {
        WrittenCalls(s, t, c, sid, sub, id, exp, access, accessExp, d);
      }
    }
  }

  /** A rotation without effect. */
  lemma LostRotationKeepsInv(s: State, c: nat, fault: Fault)
    requires Inv(s) && c in s.calls && s.calls[c].RefreshReady?
    ensures Inv(SetCall(s, c, RefreshLost(s.calls[c].claims)))
    ensures Inv(SetCall(s, c, RefreshEnded(s.calls[c].claims, Unavailable)))
  {
    assert CallOk(s, c);
    QuietKeepsInv(s, SetCall(s, c, RefreshLost(s.calls[c].claims)), c);
    QuietKeepsInv(s, SetCall(s, c, RefreshEnded(s.calls[c].claims, Unavailable)), c);
  }

  lemma RotationKeepsInv(s: State, c: nat, access: Id, accessExp: int, now: int, fault: Fault)
    requires Inv(s)
    ensures Inv(RotatedCall(s, c, access, accessExp, now, fault))
  {
    var t := RotatedCall(s, c, access, accessExp, now, fault);
    if c !in s.calls || !s.calls[c].RefreshReady? {
      return;
    }
    var RefreshReady(claims, next, exp) := s.calls[c];
    if fault.Lost? || !Rotatable(s.db, claims.sid, claims.sub, claims.id, now) {
      LostRotationKeepsInv(s, c, fault);
    } else {
      RotationWrites(s, c, access, accessExp, now, fault);
      WritingKeepsInv(s, t, c, claims.sid, claims.sub, next, exp, access, accessExp);
    }
  }

  lemma RotationWrites(s: State, c: nat, access: Id, accessExp: int, now: int, fault: Fault)
    requires Inv(s) && c in s.calls && s.calls[c].RefreshReady? && !fault.Lost?
    requires var claims := s.calls[c].claims; Rotatable(s.db, claims.sid, claims.sub, claims.id, now)
    ensures
      var t := RotatedCall(s, c, access, accessExp, now, fault);
      var RefreshReady(claims, next, exp) := s.calls[c];
      && Wrote(s, t, c, claims.sid, next)
      && Handed(s, t, claims.sid, claims.sub, next, exp, access, accessExp)
      && CallOk(t, c)
  {
    var t := RotatedCall(s, c, access, accessExp, now, fault);
    var RefreshReady(claims, next, exp) := s.calls[c];
    assert CallOk(s, c) && CallOwnsDraws(s, c) && HistoryOf(s, claims.sid);
    var k := |s.held[claims.sid]| - 1;
    assert t.held[claims.sid][k] == claims.id && t.held[claims.sid][k + 1] == next;
  }

  lemma LoginWrites(s: State, c: nat, access: Id, accessExp: int, fault: Fault)
    requires Inv(s) && c in s.calls && s.calls[c].LoginReady? && !fault.Lost?
    ensures
      var t := LoggedIn(s, c, access, accessExp, fault);
      var LoginReady(_, sub, _, sid, rid, exp) := s.calls[c];
      && sid !in s.held && t.calls.Keys == s.calls.Keys && CallOk(t, c)
      && Wrote(s, t, c, sid, rid)
      && Handed(s, t, sid, sub, rid, exp, access, accessExp)
  {
    assert CallOk(s, c) && CallOwnsDraws(s, c);
    assert forall sid | sid in s.held :: HistoryOf(s, sid);
  }

  lemma LoginKeepsInv(s: State, c: nat, access: Id, accessExp: int, fault: Fault)
    requires Inv(s)
    ensures Inv(LoggedIn(s, c, access, accessExp, fault))
  {
    var t := LoggedIn(s, c, access, accessExp, fault);
    if c !in s.calls || !s.calls[c].LoginReady? {
      return;
    }
    var LoginReady(uid, sub, version, sid, rid, exp) := s.calls[c];
    if fault.Lost? {
      QuietMove(s, c, Ended);
    } else {
      LoginWrites(s, c, access, accessExp, fault);
      WritingKeepsInv(s, t, c, sid, sub, rid, exp, access, accessExp);
    }
  }

  predicate Background(a: Action) {
    a.UpdateBegin? || a.UpdateWrite? || a.UpdateCommit? || a.UpdateAbort? || a.CleanupSelect? || a.CleanupDelete?
  }

  lemma BackgroundStepKeepsInv(s: State, a: Action)
    requires Inv(s) && Background(a)
    ensures Inv(Step(s, a))
  {
    match a
    case UpdateBegin(c, uid) => QuietUpdates(s, c, uid);
    case UpdateWrite(c) => QuietWrite(s, c);
    case UpdateCommit(c, fault) => QuietCommit(s, c, fault);
    case UpdateAbort(c) => QuietUpdates(s, c, 0);
    case CleanupSelect(c, cutoff, ids) => QuietSelect(s, c, cutoff, ids);
    case CleanupDelete(c) => QuietDelete(s, c);
  }

  lemma StepKeepsInv(s: State, a: Action)
    requires Inv(s)
    ensures Inv(Step(s, a))
  {
    match a
    case AddUser(uid, uuid) => QuietAddedUser(s, uid, uuid);
    case SetActive(uid, active) =>
      if uid in s.db.users {
        QuietChangedUser(s, uid, active, s.db.users[uid].deleted);
      }
    case DeleteUser(uid) =>
      if uid in s.db.users {
        QuietChangedUser(s, uid, s.db.users[uid].active, true);
      }
    case LoginRead(c, uid, sid, rid, exp) => QuietLogin(s, c, uid, sid, rid, exp);
    case LoginInsert(c, access, accessExp, fault) => LoginKeepsInv(s, c, access, accessExp, fault);
    case RefreshBegin(c, claims, next, exp, now) => QuietRefresh(s, c, claims, next, exp, now);
    case RefreshRotate(c, access, accessExp, now, fault) => RotationKeepsInv(s, c, access, accessExp, now, fault);
    case RefreshRevoke(c, now, fault) => QuietRevocation(s, c, now, fault);
    case Logout(claims, now) => QuietLogout(s, claims, now);
    case Validate(c, claims, now) => QuietMove(s, c, Validated(claims, Validates(s, claims, now)));
    case _ => BackgroundStepKeepsInv(s, a);
  }

  lemma {:induction false} RunKeepsInv(s: State, actions: seq<Action>)
    requires Inv(s)
    ensures Inv(Run(s, actions))
    decreases |actions|
  {
    if actions != [] {
      StepKeepsInv(s, actions[0]);
      RunKeepsInv(Step(s, actions[0]), actions[1..]);
    }
  }
}
