/** Credential versions over every run of the session protocol: they count committed
    updates, and a session made from an older version is never active again. */
module SessionCredentials {
  import opened SessionRows
  import opened SessionProtocol
  import opened SessionSafety

  /** The versions that committed updates gave to one user, in commit order. */
  function Versions(updates: seq<Update>, uid: nat): (r: seq<int>)
    decreases |updates|
  {
    if updates == [] then [] else
    var last := updates[|updates| - 1];
    Versions(updates[..|updates| - 1], uid) + (if last.uid == uid then [last.version] else [])
  }

  lemma VersionsAppend(updates: seq<Update>, u: Update, uid: nat)
    ensures Versions(updates + [u], uid) == Versions(updates, uid) + (if u.uid == uid then [u.version] else [])
  {
    assert (updates + [u])[..|updates|] == updates;
  }

  ghost predicate Counted(s: State, uid: nat) {
    var versions := Versions(s.updates, uid);
    if uid in s.db.users
    then |versions| == s.db.users[uid].version - 1 && forall i | 0 <= i < |versions| :: versions[i] == i + 2
    else versions == []
  }

  /** The version a call or row carries is one its user has had. */
  predicate Had(s: State, uid: nat, version: int) {
    uid in s.db.users && version <= s.db.users[uid].version
  }

  predicate Carries(s: State, call: Call) {
    match call
    case LoginReady(uid, _, version, _, _, _) => Had(s, uid, version)
    case UpdateRead(uid, version, _) => Had(s, uid, version)
    case UpdateHeld(uid, version, _) => uid in s.db.users && version == s.db.users[uid].version
    case _ => true
  }

  ghost predicate VersionInv(s: State) {
    && (forall sid | sid in s.db.sessions :: Had(s, s.db.sessions[sid].user, s.db.sessions[sid].version))
    && (forall c | c in s.calls :: Carries(s, s.calls[c]))
    && (forall c, d | BothHold(s, c, d) :: c == d)
  }

  ghost predicate AllCounted(s: State) {
    forall uid :: Counted(s, uid)
  }

  ghost predicate VersionsGrow(s: State, t: State) {
    forall uid | uid in s.db.users :: uid in t.db.users && s.db.users[uid].version <= t.db.users[uid].version
  }

  lemma StepGrows(s: State, a: Action)
    requires VersionInv(s)
    ensures VersionsGrow(s, Step(s, a))
  {
    if a.UpdateCommit? && a.c in s.calls {
      assert Carries(s, s.calls[a.c]);
    }
  }

  lemma CommitKeepsVersions(s: State, c: nat, fault: Fault)
    requires VersionInv(s)
    ensures VersionInv(UpdateCommitted(s, c, fault))
  {
    var t := UpdateCommitted(s, c, fault);
    forall d | d in t.calls ensures Carries(t, t.calls[d]) {
      if d != c {
        assert Carries(s, s.calls[d]);
        assert BothHold(s, c, d) ==> c == d;
      }
    }
    forall d, e | BothHold(t, d, e) ensures d == e {
      assert BothHold(s, d, e);
    }
    StepGrows(s, UpdateCommit(c, fault));
    assert forall sid | sid in t.db.sessions :: Had(s, s.db.sessions[sid].user, s.db.sessions[sid].version);
  }

  /** Every step but a commit keeps the versions, and new users start at 1. */
  ghost predicate SameVersions(s: State, t: State) {
    && t.updates == s.updates
    && (forall uid | uid in s.db.users :: uid in t.db.users && t.db.users[uid].version == s.db.users[uid].version)
    && (forall uid | uid in t.db.users && uid !in s.db.users :: t.db.users[uid].version == 1)
  }

  lemma OthersSameVersions(s: State, a: Action)
    requires !a.UpdateCommit?
    ensures SameVersions(s, Step(s, a))
  {
  }

  /** Every step but a login's insert keeps or removes rows, with their owner and version. */
  lemma RowsKept(s: State, a: Action)
    requires !a.LoginInsert?
    ensures forall sid | sid in Step(s, a).db.sessions ::
              sid in s.db.sessions && SameOwner(s.db.sessions[sid], Step(s, a).db.sessions[sid])
  {
    if !WritesSessions(a) {
      OthersKeepSessions(s, a);
    }
  }

  predicate SameOwner(a: Session, b: Session) { a.user == b.user && a.version == b.version }

  lemma RowsCarryVersions(s: State, a: Action)
    requires VersionInv(s) && SameVersions(s, Step(s, a))
    ensures var t := Step(s, a);
            forall sid | sid in t.db.sessions :: Had(t, t.db.sessions[sid].user, t.db.sessions[sid].version)
  {
    if a.LoginInsert? {
      if a.c in s.calls {
        assert Carries(s, s.calls[a.c]);
      }
    } else {
      RowsKept(s, a);
    }
  }

  predicate CarriesVersion(call: Call) { call.LoginReady? || call.UpdateRead? || call.UpdateHeld? }

  lemma OtherCallOrigin(s: State, a: Action, d: nat)
    requires d in Step(s, a).calls && !a.LoginRead? && !a.UpdateBegin? && !a.UpdateWrite?
    ensures (d in s.calls && s.calls[d] == Step(s, a).calls[d]) || !CarriesVersion(Step(s, a).calls[d])
  {
  }

  /** A call that carries a version after a step carried it before, or read it now. */
  lemma CallOrigin(s: State, a: Action, d: nat)
    requires d in Step(s, a).calls
    ensures
      var call := Step(s, a).calls[d];
      || (d in s.calls && s.calls[d] == call)
      || (call.LoginReady? && a.LoginRead? && call.sid !in s.drawn
          && call.uid in s.db.users && call.version == s.db.users[call.uid].version)
      || (call.UpdateRead? && call.uid in s.db.users && call.version == s.db.users[call.uid].version)
      || (call.UpdateHeld? && a.UpdateWrite? && d == a.c && !Locked(s, call.uid)
          && call.uid in s.db.users && call.version == s.db.users[call.uid].version)
      || !CarriesVersion(call)
  {
    if !a.LoginRead? && !a.UpdateBegin? && !a.UpdateWrite? {
      OtherCallOrigin(s, a, d);
    }
  }

  lemma CallsCarryVersions(s: State, a: Action, d: nat)
    requires VersionInv(s) && SameVersions(s, Step(s, a)) && d in Step(s, a).calls
    ensures Carries(Step(s, a), Step(s, a).calls[d])
  {
    CallOrigin(s, a, d);
    if d in s.calls {
      assert Carries(s, s.calls[d]);
    }
  }

  ghost predicate BothHold(s: State, c: nat, d: nat) {
    c in s.calls && d in s.calls && s.calls[c].UpdateHeld? && s.calls[d].UpdateHeld? && s.calls[c].uid == s.calls[d].uid
  }

  lemma OneHolder(s: State, a: Action, c: nat, d: nat)
    requires VersionInv(s) && BothHold(Step(s, a), c, d)
    ensures c == d
  {
    CallOrigin(s, a, c);
    CallOrigin(s, a, d);
    assert BothHold(s, c, d) ==> c == d;
  }

  lemma StepKeepsVersions(s: State, a: Action)
    requires VersionInv(s)
    ensures VersionInv(Step(s, a))
  {
    if a.UpdateCommit? {
      CommitKeepsVersions(s, a.c, a.fault);
    } else {
      OthersSameVersions(s, a);
      RowsCarryVersions(s, a);
      forall d | d in Step(s, a).calls ensures Carries(Step(s, a), Step(s, a).calls[d]) {
        CallsCarryVersions(s, a, d);
      }
      forall c, d | BothHold(Step(s, a), c, d) ensures c == d {
        OneHolder(s, a, c, d);
      }
    }
  }

  lemma CommitKeepsCount(s: State, c: nat, fault: Fault, uid: nat)
    requires VersionInv(s) && Counted(s, uid)
    ensures Counted(UpdateCommitted(s, c, fault), uid)
  {
    if c in s.calls && s.calls[c].UpdateHeld? {
      assert Carries(s, s.calls[c]);
      VersionsAppend(s.updates, Update(s.calls[c].uid, s.calls[c].version + 1), uid);
    }
  }

  lemma StepKeepsCounts(s: State, a: Action)
    requires VersionInv(s) && AllCounted(s)
    ensures AllCounted(Step(s, a))
  {
    forall uid ensures Counted(Step(s, a), uid) {
      assert Counted(s, uid);
      if a.UpdateCommit? {
        CommitKeepsCount(s, a.c, a.fault, uid);
      } else {
        OthersSameVersions(s, a);
      }
    }
  }

  lemma {:induction false} RunKeepsVersions(s: State, actions: seq<Action>)
    requires VersionInv(s) && AllCounted(s)
    ensures VersionInv(Run(s, actions)) && AllCounted(Run(s, actions)) && VersionsGrow(s, Run(s, actions))
    decreases |actions|
  {
    if actions != [] {
      StepGrows(s, actions[0]);
      StepKeepsVersions(s, actions[0]);
      StepKeepsCounts(s, actions[0]);
      RunKeepsVersions(Step(s, actions[0]), actions[1..]);
    }
  }

  lemma ReachableVersions(actions: seq<Action>)
    ensures VersionInv(Run(Init, actions)) && AllCounted(Run(Init, actions))
  {
    assert AllCounted(Init) by {
      forall uid ensures Counted(Init, uid) {}
    }
    RunKeepsVersions(Init, actions);
  }

  /** A user's version is 1 plus its committed user.update messages, and those carry
      2, 3, ... in order: every version is committed by exactly one update. */
  lemma VersionCountsUpdates(actions: seq<Action>, uid: nat, i: nat)
    requires uid in Run(Init, actions).db.users
    ensures var s := Run(Init, actions);
            var versions := Versions(s.updates, uid);
            && s.db.users[uid].version == 1 + |versions|
            && (i < |versions| ==> versions[i] == i + 2)
  {
    ReachableVersions(actions);
    assert Counted(Run(Init, actions), uid);
  }

  /** The session was, or its pending login will be, made from an older version. */
  ghost predicate Stale(s: State, sid: Id) {
    && sid in s.drawn
    && (sid in s.db.sessions ==>
          var row := s.db.sessions[sid]; row.user in s.db.users && row.version < s.db.users[row.user].version)
    && (forall c | c in s.calls && s.calls[c].LoginReady? && s.calls[c].sid == sid ::
          s.calls[c].uid in s.db.users && s.calls[c].version < s.db.users[s.calls[c].uid].version)
  }

  lemma RowOrigin(s: State, a: Action, sid: Id)
    requires sid in Step(s, a).db.sessions
    ensures
      var row := Step(s, a).db.sessions[sid];
      || (sid in s.db.sessions && s.db.sessions[sid].user == row.user && s.db.sessions[sid].version == row.version)
      || (exists c :: c in s.calls && s.calls[c].LoginReady? && s.calls[c].sid == sid
            && s.calls[c].uid == row.user && s.calls[c].version == row.version)
  {
  }

  lemma StepKeepsDrawn(s: State, a: Action)
    ensures s.drawn.Keys <= Step(s, a).drawn.Keys
  {
  }

  lemma StepKeepsStale(s: State, a: Action, sid: Id)
    requires VersionInv(s) && Stale(s, sid)
    ensures Stale(Step(s, a), sid)
  {
    var t := Step(s, a);
    StepGrows(s, a);
    StepKeepsDrawn(s, a);
    if sid in t.db.sessions {
      RowOrigin(s, a, sid);
    }
    forall c | c in t.calls && t.calls[c].LoginReady? && t.calls[c].sid == sid
      ensures t.calls[c].uid in t.db.users && t.calls[c].version < t.db.users[t.calls[c].uid].version
    {
      CallOrigin(s, a, c);
    }
  }

  lemma {:induction false} RunKeepsStale(s: State, actions: seq<Action>, sid: Id)
    requires VersionInv(s) && Stale(s, sid)
    ensures Stale(Run(s, actions), sid)
    decreases |actions|
  {
    if actions != [] {
      StepKeepsStale(s, actions[0], sid);
      StepKeepsVersions(s, actions[0]);
      RunKeepsStale(Step(s, actions[0]), actions[1..], sid);
    }
  }

  /** A committed credential change ends every session of the user for good: those
      in the table, and those of logins that read the user before the commit and
      insert after it. */
  lemma CredentialChangeKillsSessions(
      before: seq<Action>, after: seq<Action>, update: nat, fault: Fault, claims: Claims, now: int)
    requires var s := Run(Init, before); update in s.calls && s.calls[update].UpdateHeld? && fault != Lost
    requires
      var s := Run(Init, before);
      var uid := s.calls[update].uid;
      || (claims.sid in s.db.sessions && s.db.sessions[claims.sid].user == uid)
      || (exists c :: c in s.calls && s.calls[c].LoginReady? && s.calls[c].sid == claims.sid && s.calls[c].uid == uid)
    ensures !Validates(Run(Step(Run(Init, before), UpdateCommit(update, fault)), after), claims, now)
  {
    var s := Run(Init, before);
    ReachableVersions(before);
    Reachable(before);
    assert Carries(s, s.calls[update]);
    var t := Step(s, UpdateCommit(update, fault));
    BecomesStale(s, update, fault, claims.sid);
    StepKeepsVersions(s, UpdateCommit(update, fault));
    RunKeepsStale(t, after, claims.sid);
  }

  lemma BecomesStale(s: State, update: nat, fault: Fault, sid: Id)
    requires Inv(s) && VersionInv(s)
    requires update in s.calls && s.calls[update].UpdateHeld? && fault != Lost
    requires
      var uid := s.calls[update].uid;
      || (sid in s.db.sessions && s.db.sessions[sid].user == uid)
      || (exists c :: c in s.calls && s.calls[c].LoginReady? && s.calls[c].sid == sid && s.calls[c].uid == uid)
    ensures Stale(UpdateCommitted(s, update, fault), sid)
  {
    var uid := s.calls[update].uid;
    assert Carries(s, s.calls[update]);
    if sid in s.db.sessions {
      assert HistoryOf(s, sid);
      assert Had(s, s.db.sessions[sid].user, s.db.sessions[sid].version);
    }
    forall c | c in s.calls && s.calls[c].LoginReady? && s.calls[c].sid == sid
      ensures Carries(s, s.calls[c]) && CallOwnsDraws(s, c)
    {
    }
  }
}
