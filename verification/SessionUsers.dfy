/** What deleting or deactivating a user does to its sessions, over every run. */
module SessionUsers {
  import opened Options
  import opened SessionRows
  import opened SessionProtocol
  import opened SessionSafety
  import opened SessionCredentials

  /** A token that validates, in full: issued, unexpired, of a session that is neither
      revoked nor expired and whose owner it names, active, not deleted and still at the
      session's version; a refresh token is the last one its session has held. */
  lemma ValidTokenFacts(actions: seq<Action>, claims: Claims, now: int)
    requires Validates(Run(Init, actions), claims, now)
    ensures
      var s := Run(Init, actions);
      && claims in s.issued && now < claims.exp && claims.sid in s.db.sessions && claims.sid in s.held
      && var row, ids := s.db.sessions[claims.sid], s.held[claims.sid];
      && row.revokedAt.None? && now < row.expires && row.user in s.db.users
      && var owner := s.db.users[row.user];
      && owner.uuid == claims.sub && owner.active && !owner.deleted && owner.version == row.version
      && (claims.purpose == Refresh ==> |ids| > 0 && ids[|ids| - 1] == claims.id)
  {
    Reachable(actions);
    assert HistoryOf(Run(Init, actions), claims.sid);
  }

  // ---- What calls start from ----

  /** A login goes on only for a user that was active and not deleted when it was read. */
  lemma LoginReadsActive(s: State, a: Action, c: nat)
    requires c !in s.calls && c in Step(s, a).calls && Step(s, a).calls[c].LoginReady?
    ensures
      var call := Step(s, a).calls[c];
      && call.uid in s.db.users
      && var u := s.db.users[call.uid];
         u.active && !u.deleted && u.uuid == call.sub && u.version == call.version
  {
  }

  /** A refresh goes on only with an issued, unexpired refresh token. */
  lemma RefreshParsesGenuine(s: State, a: Action, c: nat)
    requires c !in s.calls && c in Step(s, a).calls && Step(s, a).calls[c].RefreshReady?
    ensures var claims := Step(s, a).calls[c].claims;
            claims in s.issued && claims.purpose == Refresh && a.RefreshBegin? && a.now < claims.exp
  {
  }

  /** While its read is current, a login's insert makes both of its tokens valid. */
  lemma LoginHandsOver(before: seq<Action>, c: nat, access: Id, accessExp: int, now: int)
    requires
      var s := Run(Init, before);
      && c in s.calls && s.calls[c].LoginReady? && now < s.calls[c].exp && now < accessExp
      && s.calls[c].uid in s.db.users
      && var u := s.db.users[s.calls[c].uid];
         u.active && !u.deleted && u.version == s.calls[c].version
    ensures
      var s := Run(Init, before);
      var t := Step(s, LoginInsert(c, access, accessExp, Fine));
      var LoginReady(_, sub, _, sid, rid, exp) := s.calls[c];
      && Validates(t, Claims(Access, sid, sub, access, accessExp), now)
      && Validates(t, Claims(Refresh, sid, sub, rid, exp), now)
  {
    var s := Run(Init, before);
    Reachable(before);
    assert CallOk(s, c);
    LoginSidNew(s, c);
    LoginValidates(s, c, access, accessExp, now);
  }

  lemma LoginValidates(s: State, c: nat, access: Id, accessExp: int, now: int)
    requires Inv(s) && c in s.calls && s.calls[c].LoginReady? && CallOk(s, c) && s.calls[c].sid !in s.held
    requires var u := s.db.users[s.calls[c].uid]; u.active && !u.deleted && u.version == s.calls[c].version
    requires now < s.calls[c].exp && now < accessExp
    ensures
      var t := LoggedIn(s, c, access, accessExp, Fine);
      var LoginReady(_, sub, _, sid, rid, exp) := s.calls[c];
      && Validates(t, Claims(Access, sid, sub, access, accessExp), now)
      && Validates(t, Claims(Refresh, sid, sub, rid, exp), now)
  {
    assert s.calls[c].sid !in s.db.sessions;
  }

  // ---- Deleted users ----

  /** A row lock is never held on a deleted user. */
  ghost predicate HeldAlive(s: State) {
    forall c | c in s.calls && s.calls[c].UpdateHeld? ::
      s.calls[c].uid in s.db.users && !s.db.users[s.calls[c].uid].deleted
  }

  ghost predicate DeletedKept(s: State, t: State) {
    forall uid | uid in s.db.users && s.db.users[uid].deleted :: uid in t.db.users && t.db.users[uid] == s.db.users[uid]
  }

  predicate WritesUsers(a: Action) {
    a.AddUser? || a.SetActive? || a.DeleteUser? || a.UpdateCommit?
  }

  lemma OthersKeepUsers(s: State, a: Action)
    requires !WritesUsers(a)
    ensures Step(s, a).db.users == s.db.users
  {
  }

  /** A deleted user's row never changes again. */
  lemma StepKeepsDeleted(s: State, a: Action)
    requires HeldAlive(s)
    ensures DeletedKept(s, Step(s, a))
  {
    if !WritesUsers(a) {
      OthersKeepUsers(s, a);
    }
  }

  lemma HeldOrigin(s: State, a: Action, c: nat)
    requires c in Step(s, a).calls && Step(s, a).calls[c].UpdateHeld?
    ensures (c in s.calls && s.calls[c] == Step(s, a).calls[c])
            || (a.UpdateWrite? && Updatable(s.db, Step(s, a).calls[c].uid, Step(s, a).calls[c].version))
  {
  }

  lemma StepKeepsHeldAlive(s: State, a: Action)
    requires HeldAlive(s)
    ensures HeldAlive(Step(s, a))
  {
    var t := Step(s, a);
    forall c | c in t.calls && t.calls[c].UpdateHeld?
      ensures t.calls[c].uid in t.db.users && !t.db.users[t.calls[c].uid].deleted
    {
      HeldOrigin(s, a, c);
      HeldUsersAlive(s, a, t.calls[c].uid);
    }
  }

  /** Only an unlocked user can be deleted. */
  lemma HeldUsersAlive(s: State, a: Action, uid: nat)
    requires uid in s.db.users && !s.db.users[uid].deleted && (Locked(s, uid) || a.UpdateWrite?)
    ensures uid in Step(s, a).db.users && !Step(s, a).db.users[uid].deleted
  {
    if !WritesUsers(a) {
      OthersKeepUsers(s, a);
    }
  }

  lemma {:induction false} RunKeepsDeleted(s: State, actions: seq<Action>)
    requires HeldAlive(s)
    ensures HeldAlive(Run(s, actions)) && DeletedKept(s, Run(s, actions))
    decreases |actions|
  {
    if actions != [] {
      StepKeepsHeldAlive(s, actions[0]);
      StepKeepsDeleted(s, actions[0]);
      RunKeepsDeleted(Step(s, actions[0]), actions[1..]);
    }
  }

  /** The session's row, or its pending login, is of this user. */
  ghost predicate BelongsTo(s: State, sid: Id, uid: nat) {
    && sid in s.drawn
    && (sid in s.db.sessions ==> s.db.sessions[sid].user == uid)
    && (forall c | c in s.calls && s.calls[c].LoginReady? && s.calls[c].sid == sid :: s.calls[c].uid == uid)
  }

  /** Sessions in the table, and those that pending logins will insert. */
  ghost predicate SessionOf(s: State, sid: Id, uid: nat) {
    || (sid in s.db.sessions && s.db.sessions[sid].user == uid)
    || (exists c :: c in s.calls && s.calls[c].LoginReady? && s.calls[c].sid == sid && s.calls[c].uid == uid)
  }

  lemma SessionBelongs(s: State, sid: Id, uid: nat)
    requires Inv(s) && SessionOf(s, sid, uid)
    ensures BelongsTo(s, sid, uid)
  {
    if sid in s.db.sessions {
      assert HistoryOf(s, sid);
    }
    forall c | c in s.calls && s.calls[c].LoginReady? && s.calls[c].sid == sid ensures CallOwnsDraws(s, c) {
    }
  }

  lemma StepKeepsBelonging(s: State, a: Action, sid: Id, uid: nat)
    requires BelongsTo(s, sid, uid)
    ensures BelongsTo(Step(s, a), sid, uid)
  {
    var t := Step(s, a);
    StepKeepsDrawn(s, a);
    if sid in t.db.sessions {
      RowOrigin(s, a, sid);
    }
    forall c | c in t.calls && t.calls[c].LoginReady? && t.calls[c].sid == sid ensures t.calls[c].uid == uid {
      CallOrigin(s, a, c);
    }
  }

  lemma {:induction false} RunKeepsBelonging(s: State, actions: seq<Action>, sid: Id, uid: nat)
    requires BelongsTo(s, sid, uid)
    ensures BelongsTo(Run(s, actions), sid, uid)
    decreases |actions|
  {
    if actions != [] {
      StepKeepsBelonging(s, actions[0], sid, uid);
      RunKeepsBelonging(Step(s, actions[0]), actions[1..], sid, uid);
    }
  }

  /** Deleting a user ends its sessions for good, pending logins and later ones included. */
  lemma DeletionEndsSessions(before: seq<Action>, after: seq<Action>, uid: nat, claims: Claims, now: int)
    requires var s := Run(Init, before); uid in s.db.users && !Locked(s, uid)
    ensures
      var s := Run(Init, before);
      var t := Run(Step(s, DeleteUser(uid)), after);
      && uid in t.db.users && t.db.users[uid].deleted
      && (SessionOf(s, claims.sid, uid) || SessionOf(t, claims.sid, uid) ==> !Validates(t, claims, now))
  {
    var s := Run(Init, before);
    var d := Step(s, DeleteUser(uid));
    RunKeepsDeleted(Init, before);
    StepKeepsHeldAlive(s, DeleteUser(uid));
    RunKeepsDeleted(d, after);
    Reachable(before);
    if SessionOf(s, claims.sid, uid) {
      SessionBelongs(s, claims.sid, uid);
      StepKeepsBelonging(s, DeleteUser(uid), claims.sid, uid);
      RunKeepsBelonging(d, after, claims.sid, uid);
    }
    StepKeepsInv(s, DeleteUser(uid));
    RunKeepsInv(d, after);
    var t := Run(d, after);
    if SessionOf(t, claims.sid, uid) {
      SessionBelongs(t, claims.sid, uid);
    }
  }

  // ---- Deactivated users ----

  /** The session is of an older version, or its user is inactive. */
  ghost predicate Off(s: State, sid: Id, uid: nat) {
    Stale(s, sid) || (uid in s.db.users && !s.db.users[uid].active && BelongsTo(s, sid, uid))
  }

  /** A commit that writes the status back also leaves the session's version behind. */
  lemma CommitLeavesBehind(s: State, c: nat, fault: Fault, sid: Id)
    requires VersionInv(s) && c in s.calls && s.calls[c].UpdateHeld? && fault != Lost
    requires BelongsTo(s, sid, s.calls[c].uid)
    ensures Stale(UpdateCommitted(s, c, fault), sid)
  {
    var uid := s.calls[c].uid;
    assert Carries(s, s.calls[c]);
    if sid in s.db.sessions {
      assert Had(s, s.db.sessions[sid].user, s.db.sessions[sid].version);
    }
    forall d | d in s.calls && s.calls[d].LoginReady? && s.calls[d].sid == sid ensures Carries(s, s.calls[d]) {
    }
  }

  /** No other step makes a user active. */
  lemma StaysInactive(s: State, a: Action, uid: nat)
    requires uid in s.db.users && !s.db.users[uid].active && a != SetActive(uid, true)
    ensures uid in Step(s, a).db.users
    ensures !Step(s, a).db.users[uid].active || WritesBack(s, a, uid)
  {
    if !WritesUsers(a) {
      OthersKeepUsers(s, a);
    }
  }

  /** The commit of an update that read the user as active. */
  predicate WritesBack(s: State, a: Action, uid: nat) {
    && a.UpdateCommit? && a.c in s.calls && s.calls[a.c].UpdateHeld?
    && s.calls[a.c].uid == uid && s.calls[a.c].active && a.fault != Lost
  }

  lemma StepKeepsOff(s: State, a: Action, sid: Id, uid: nat)
    requires VersionInv(s) && Off(s, sid, uid) && a != SetActive(uid, true)
    ensures Off(Step(s, a), sid, uid)
  {
    if Stale(s, sid) {
      StepKeepsStale(s, a, sid);
    } else {
      StaysInactive(s, a, uid);
      if WritesBack(s, a, uid) {
        CommitLeavesBehind(s, a.c, a.fault, sid);
      } else {
        StepKeepsBelonging(s, a, sid, uid);
      }
    }
  }

  lemma {:induction false} RunKeepsOff(s: State, actions: seq<Action>, sid: Id, uid: nat)
    requires VersionInv(s) && Off(s, sid, uid) && forall a | a in actions :: a != SetActive(uid, true)
    ensures Off(Run(s, actions), sid, uid)
    decreases |actions|
  {
    if actions != [] {
      assert actions[0] in actions && forall a | a in actions[1..] :: a in actions;
      StepKeepsOff(s, actions[0], sid, uid);
      StepKeepsVersions(s, actions[0]);
      RunKeepsOff(Step(s, actions[0]), actions[1..], sid, uid);
    }
  }

  /** While a user is not activated again, none of the sessions that it had when it was
      inactive validates, pending logins included - not even when an update that read the
      old status writes it back. */
  lemma DeactivationEndsSessions(before: seq<Action>, after: seq<Action>, uid: nat, claims: Claims, now: int)
    requires var s := Run(Init, before);
             uid in s.db.users && !s.db.users[uid].active && SessionOf(s, claims.sid, uid)
    requires forall a | a in after :: a != SetActive(uid, true)
    ensures !Validates(Run(Run(Init, before), after), claims, now)
  {
    var s := Run(Init, before);
    Reachable(before);
    ReachableVersions(before);
    SessionBelongs(s, claims.sid, uid);
    RunKeepsOff(s, after, claims.sid, uid);
  }

  /** A deactivation takes effect at once unless an update holds the row. */
  lemma DeactivationTakesEffect(s: State, uid: nat)
    requires uid in s.db.users && !s.db.users[uid].deleted && !Locked(s, uid)
    ensures var t := Step(s, SetActive(uid, false)); t.db.users[uid] == s.db.users[uid].(active := false)
  {
  }

  // ---- A status that comes back ----

  /** An operator activates the user, no update holding its row, or an update that read
      the old status commits. */
  ghost predicate Reactivates(s: State, a: Action, uid: nat) {
    || (a == SetActive(uid, true) && uid in s.db.users && !s.db.users[uid].deleted && !Locked(s, uid))
    || (WritesBack(s, a, uid) && uid in s.db.users)
  }

  ghost predicate NeverReactivated(s: State, actions: seq<Action>, uid: nat)
    decreases |actions|
  {
    actions != [] ==> !Reactivates(s, actions[0], uid) && NeverReactivated(Step(s, actions[0]), actions[1..], uid)
  }

  /** Inactive now and after every further step. */
  ghost predicate AlwaysInactive(s: State, actions: seq<Action>, uid: nat)
    decreases |actions|
  {
    && uid in s.db.users && !s.db.users[uid].active
    && (actions != [] ==> AlwaysInactive(Step(s, actions[0]), actions[1..], uid))
  }

  lemma StepReactivatesIff(s: State, a: Action, uid: nat)
    requires uid in s.db.users && !s.db.users[uid].active
    ensures uid in Step(s, a).db.users && (Step(s, a).db.users[uid].active <==> Reactivates(s, a, uid))
  {
    if !WritesUsers(a) {
      OthersKeepUsers(s, a);
    }
  }

  /** A deactivated user stays inactive iff neither happens. */
  lemma {:induction false} StaysInactiveIff(s: State, actions: seq<Action>, uid: nat)
    requires uid in s.db.users && !s.db.users[uid].active
    ensures AlwaysInactive(s, actions, uid) <==> NeverReactivated(s, actions, uid)
    decreases |actions|
  {
    if actions != [] {
      StepReactivatesIff(s, actions[0], uid);
      if !Reactivates(s, actions[0], uid) {
        StaysInactiveIff(Step(s, actions[0]), actions[1..], uid);
      }
    }
  }

  const DEACTIVATED := [AddUser(0, 5), UpdateBegin(0, 0), SetActive(0, false)]

  const UPDATED := [UpdateWrite(0), UpdateCommit(0, Fine)]

  lemma RunThree(s: State, a: Action, b: Action, c: Action)
    ensures Run(s, [a, b, c]) == Step(Step(Step(s, a), b), c)
  {
    assert [a, b, c][1..] == [b, c] && [b, c][1..] == [c] && [c][1..] == [];
    var t := Step(s, a);
    var u := Step(t, b);
    var v := Step(u, c);
    assert Run(s, [a, b, c]) == Run(t, [b, c]) && Run(t, [b, c]) == Run(u, [c]) && Run(u, [c]) == Run(v, []) && Run(v, []) == v;
  }

  lemma AfterDeactivation() returns (s: State)
    ensures s == Run(Init, DEACTIVATED)
    ensures s.db.users == map[0 := User(5, 1, false, false)] && s.calls == map[0 := UpdateRead(0, 1, true)]
  {
    RunThree(Init, AddUser(0, 5), UpdateBegin(0, 0), SetActive(0, false));
    var added := Step(Init, AddUser(0, 5));
    assert added.db.users == map[0 := User(5, 1, true, false)] && added.calls == map[];
    var read := Step(added, UpdateBegin(0, 0));
    assert read.db.users == added.db.users && read.calls == map[0 := UpdateRead(0, 1, true)];
    assert !Locked(read, 0);
    s := Step(read, SetActive(0, false));
  }

  /** A reachable run in which an update that read the user as active commits after its
      deactivation and makes it active again. */
  lemma StaleUpdateReactivates()
    ensures var s := Run(Init, DEACTIVATED); 0 in s.db.users && !s.db.users[0].active
    ensures var t := Run(Run(Init, DEACTIVATED), UPDATED); 0 in t.db.users && t.db.users[0] == User(5, 2, true, false)
  {
    var s := AfterDeactivation();
    assert [UpdateWrite(0), UpdateCommit(0, Fine)][1..] == [UpdateCommit(0, Fine)] && [UpdateCommit(0, Fine)][1..] == [];
    assert !Locked(s, 0);
    var t := Step(s, UpdateWrite(0));
    assert t.calls[0] == UpdateHeld(0, 1, true) && t.db == s.db;
    assert Run(s, UPDATED) == Run(t, [UpdateCommit(0, Fine)]) && Run(t, [UpdateCommit(0, Fine)]) == Step(t, UpdateCommit(0, Fine));
  }
}
