/** What every run of the session protocol guarantees about refresh-token families. */
module SessionSafety {
  import opened SessionRows
  import opened SessionProtocol

  lemma InitInv()
    ensures Inv(Init)
  {
  }

  lemma Reachable(actions: seq<Action>)
    ensures Inv(Run(Init, actions))
  {
    InitInv();
    RunKeepsInv(Init, actions);
  }

  // ---- Histories only grow, and ended families stay ended ----

  ghost predicate HistoryKept(s: State, t: State) {
    forall sid | sid in s.held :: sid in t.held && s.held[sid] <= t.held[sid]
  }

  /** A pending login's session has no history yet. */
  lemma LoginSidNew(s: State, c: nat)
    requires Inv(s) && c in s.calls && s.calls[c].LoginReady?
    ensures s.calls[c].sid !in s.held
  {
  }

  lemma LoginKeepsFamilies(s: State, c: nat, access: Id, accessExp: int, fault: Fault)
    requires Inv(s)
    ensures var t := LoggedIn(s, c, access, accessExp, fault);
            HistoryKept(s, t) && forall sid | Dead(s, sid) :: Dead(t, sid)
  {
    if c in s.calls && s.calls[c].LoginReady? {
      LoginSidNew(s, c);
    }
  }

  lemma RotationKeepsFamilies(s: State, c: nat, access: Id, accessExp: int, now: int, fault: Fault)
    ensures var t := RotatedCall(s, c, access, accessExp, now, fault);
            HistoryKept(s, t) && forall sid | Dead(s, sid) :: Dead(t, sid)
  {
  }

  lemma RevocationKeepsFamilies(s: State, c: nat, now: int, fault: Fault, claims: Claims)
    ensures HistoryKept(s, RevokedCall(s, c, now, fault)) && HistoryKept(s, LoggedOut(s, claims, now))
    ensures forall sid | Dead(s, sid) :: Dead(RevokedCall(s, c, now, fault), sid) && Dead(LoggedOut(s, claims, now), sid)
  {
  }

  lemma DeleteKeepsFamilies(s: State, c: nat)
    ensures HistoryKept(s, Deleted(s, c)) && forall sid | Dead(s, sid) :: Dead(Deleted(s, c), sid)
  {
  }

  predicate WritesSessions(a: Action) {
    a.LoginInsert? || a.RefreshRotate? || a.RefreshRevoke? || a.Logout? || a.CleanupDelete?
  }

  lemma OthersKeepSessions(s: State, a: Action)
    requires !WritesSessions(a)
    ensures Step(s, a).held == s.held && Step(s, a).db.sessions == s.db.sessions
  {
  }

  lemma StepKeepsFamilies(s: State, a: Action)
    requires Inv(s)
    ensures HistoryKept(s, Step(s, a)) && forall sid | Dead(s, sid) :: Dead(Step(s, a), sid)
  {
    if a.LoginInsert? {
      LoginKeepsFamilies(s, a.c, a.access, a.accessExp, a.fault);
    } else if a.RefreshRotate? {
      RotationKeepsFamilies(s, a.c, a.access, a.accessExp, a.now, a.fault);
    } else if a.RefreshRevoke? {
      RevocationKeepsFamilies(s, a.c, a.now, a.fault, Claims(Access, 0, 0, 0, 0));
    } else if a.Logout? {
      RevocationKeepsFamilies(s, 0, a.now, Fine, a.claims);
    } else if a.CleanupDelete? {
      DeleteKeepsFamilies(s, a.c);
    } else {
      OthersKeepSessions(s, a);
    }
  }

  lemma {:induction false} RunKeepsDead(s: State, actions: seq<Action>, sid: Id)
    requires Inv(s) && Dead(s, sid)
    ensures Dead(Run(s, actions), sid)
    decreases |actions|
  {
    if actions != [] {
      StepKeepsInv(s, actions[0]);
      StepKeepsFamilies(s, actions[0]);
      RunKeepsDead(Step(s, actions[0]), actions[1..], sid);
    }
  }

  /** Once a refresh call that reached the rotation has been answered "invalid token",
      no access or refresh token of that session validates again, at any time in any
      continuation. */
  lemma ReplayEndsFamily(before: seq<Action>, after: seq<Action>, c: nat, claims: Claims, now: int)
    requires var s := Run(Init, before);
             c in s.calls && s.calls[c].RefreshEnded? && s.calls[c].outcome == Rejection &&
             s.calls[c].claims.sid == claims.sid
    ensures !Validates(Run(Run(Init, before), after), claims, now)
  {
    var s := Run(Init, before);
    Reachable(before);
    assert CallOk(s, c);
    RunKeepsDead(s, after, claims.sid);
  }

  /** A logout ends the family as well. */
  lemma LogoutEndsFamily(before: seq<Action>, after: seq<Action>, refresh: Claims, at: int, claims: Claims, now: int)
    requires refresh in Run(Init, before).issued && refresh.purpose == Refresh && at < refresh.exp
    requires claims.sid == refresh.sid
    ensures !Validates(Run(Step(Run(Init, before), Logout(refresh, at)), after), claims, now)
  {
    var s := Run(Init, before);
    Reachable(before);
    assert Genuine(s, refresh);
    StepKeepsInv(s, Logout(refresh, at));
    RunKeepsDead(Step(s, Logout(refresh, at)), after, claims.sid);
  }

  // ---- Single use ----

  /** The token was replaced by a later one of its session. */
  ghost predicate Consumed(s: State, claims: Claims) {
    && claims.sid in s.held
    && exists i :: 0 <= i < |s.held[claims.sid]| - 1 && s.held[claims.sid][i] == claims.id
  }

  ghost predicate HasRotated(s: State, c: nat, claims: Claims) {
    c in s.calls && s.calls[c] == RefreshEnded(claims, Rotation)
  }

  lemma ConsumedIsNotCurrent(s: State, claims: Claims)
    requires Inv(s) && Consumed(s, claims) && claims.sid in s.db.sessions
    ensures s.db.sessions[claims.sid].refresh != claims.id
  {
    assert HistoryOf(s, claims.sid);
  }

  lemma StepKeepsConsumed(s: State, a: Action, claims: Claims)
    requires Inv(s) && Consumed(s, claims)
    ensures Consumed(Step(s, a), claims)
  {
    StepKeepsFamilies(s, a);
    var ids := s.held[claims.sid];
    var i :| 0 <= i < |ids| - 1 && ids[i] == claims.id;
    assert Step(s, a).held[claims.sid][i] == claims.id;
  }

  lemma OthersRotateNothing(s: State, a: Action, claims: Claims, c: nat)
    requires !a.RefreshRotate? && !HasRotated(s, c, claims)
    ensures !HasRotated(Step(s, a), c, claims)
  {
  }

  lemma StepRotatesNoConsumed(s: State, a: Action, claims: Claims, c: nat)
    requires Inv(s) && Consumed(s, claims) && !HasRotated(s, c, claims)
    ensures !HasRotated(Step(s, a), c, claims)
  {
    if !a.RefreshRotate? {
      OthersRotateNothing(s, a, claims, c);
    } else if claims.sid in s.db.sessions {
      ConsumedIsNotCurrent(s, claims);
    }
  }

  /** A refresh call that presents a consumed token never rotates: it is refused (and
      by ReplayEndsFamily ends the family), fails, or has not ended. */
  lemma {:induction false} ConsumedNeverRotates(s: State, after: seq<Action>, claims: Claims, c: nat)
    requires Inv(s) && Consumed(s, claims) && !HasRotated(s, c, claims)
    ensures !HasRotated(Run(s, after), c, claims)
    decreases |after|
  {
    if after != [] {
      StepKeepsInv(s, after[0]);
      StepKeepsConsumed(s, after[0], claims);
      StepRotatesNoConsumed(s, after[0], claims, c);
      ConsumedNeverRotates(Step(s, after[0]), after[1..], claims, c);
    }
  }

  /** Of two calls racing on one token, the one still running when the other has won
      cannot win too, and once it is refused the winner's new pair is dead as well. */
  lemma RaceLoserEndsFamily(
      before: seq<Action>, after: seq<Action>, later: seq<Action>,
      winner: nat, loser: nat, token: Claims, claims: Claims, now: int)
    requires HasRotated(Run(Init, before), winner, token) && !HasRotated(Run(Init, before), loser, token)
    ensures !HasRotated(Run(Run(Init, before), after), loser, token)
    ensures var s := Run(Run(Init, before), after);
            loser in s.calls && s.calls[loser] == RefreshEnded(token, Rejection) && claims.sid == token.sid
            ==> !Validates(Run(s, later), claims, now)
  {
    var s := Run(Init, before);
    Reachable(before);
    assert CallOk(s, winner);
    ConsumedNeverRotates(s, after, token, loser);
    RunKeepsInv(s, after);
    var t := Run(s, after);
    if loser in t.calls && t.calls[loser] == RefreshEnded(token, Rejection) && claims.sid == token.sid {
      assert CallOk(t, loser);
      RunKeepsDead(t, later, claims.sid);
    }
  }

  /** No refresh-token ID is consumed by two successful rotations. */
  lemma SingleUse(actions: seq<Action>, c: nat, d: nat, first: Claims, second: Claims)
    requires HasRotated(Run(Init, actions), c, first) && HasRotated(Run(Init, actions), d, second)
    requires c != d
    ensures first.id != second.id
  {
    var s := Run(Init, actions);
    Reachable(actions);
    assert CallOk(s, c) && CallOk(s, d);
    assert HistoryOf(s, first.sid) && HistoryOf(s, second.sid);
    var i :| 0 <= i < |s.held[first.sid]| - 1 && s.held[first.sid][i] == first.id
             && s.drawn[s.held[first.sid][i + 1]] == c;
    var j :| 0 <= j < |s.held[second.sid]| - 1 && s.held[second.sid][j] == second.id
             && s.drawn[s.held[second.sid][j + 1]] == d;
    assert s.held[first.sid][i] in s.held[first.sid] && s.held[second.sid][j] in s.held[second.sid];
  }

  /** No refresh ID ever returns (no ABA), and no session shares one with another. */
  lemma NoIdReturns(actions: seq<Action>, a: Id, b: Id, i: nat, j: nat)
    requires var s := Run(Init, actions);
             a in s.held && b in s.held && i < |s.held[a]| && j < |s.held[b]| && (a != b || i != j)
    ensures var s := Run(Init, actions); s.held[a][i] != s.held[b][j]
  {
    var s := Run(Init, actions);
    Reachable(actions);
    assert HistoryOf(s, a);
    assert s.held[a][i] in s.held[a] && s.held[b][j] in s.held[b];
  }

  /** In any reachable state one session has at most one valid refresh token. */
  lemma OneCurrentToken(actions: seq<Action>, x: Claims, y: Claims, now: int, at: int)
    requires var s := Run(Init, actions); Validates(s, x, now) && Validates(s, y, at)
    requires x.purpose == y.purpose == Refresh && x.sid == y.sid
    ensures x == y
  {
    Reachable(actions);
  }

  /** A successful rotation moves validity from the presented token to the new pair. */
  lemma RotationHandsOver(before: seq<Action>, c: nat, access: Id, accessExp: int, now: int)
    requires var s := Run(Init, before);
             c in s.calls && s.calls[c].RefreshReady? && s.calls[c].exp > now && accessExp > now &&
             Validates(s, s.calls[c].claims, now)
    ensures
      var s := Run(Init, before);
      var t := Step(s, RefreshRotate(c, access, accessExp, now, Fine));
      var RefreshReady(old_, next, exp) := s.calls[c];
      && (forall claims | claims in TokenPair(old_.sid, old_.sub, next, exp, access, accessExp) ::
            Validates(t, claims, now))
      && (forall later :: !Validates(t, old_, later))
  {
    var s := Run(Init, before);
    Reachable(before);
    assert CallOk(s, c) && CallOwnsDraws(s, c);
    PendingDrawsNew(s, c, s.calls[c].next);
    assert Genuine(s, s.calls[c].claims);
  }

  /** A session leaves the table only by a cleanup delete at whose time its current
      expiry, after all rotations so far, is not past the cutoff. */
  lemma {:induction false} DeletedWasExpired(s: State, actions: seq<Action>, sid: Id) returns (k: nat)
    requires sid in s.db.sessions && sid !in Run(s, actions).db.sessions
    ensures k < |actions| && actions[k].CleanupDelete?
    ensures Expires(Run(s, actions[..k]), actions[k].c, sid)
    decreases |actions|
  {
    var t := Step(s, actions[0]);
    if sid in t.db.sessions {
      var j := DeletedWasExpired(t, actions[1..], sid);
      k := j + 1;
      assert actions[..k][1..] == actions[1..][..j] && actions[..k][0] == actions[0];
      assert Run(s, actions[..k]) == Run(t, actions[1..][..j]);
    } else {
      k := 0;
      assert actions[..0] == [];
      StepDeletesExpired(s, actions[0], sid);
    }
  }

  lemma StepDeletesExpired(s: State, a: Action, sid: Id)
    requires sid in s.db.sessions && sid !in Step(s, a).db.sessions
    ensures a.CleanupDelete? && Expires(s, a.c, sid)
  {
  }

  /** The cleanup c has selected, and its cutoff has reached the row's expiry. */
  predicate Expires(s: State, c: nat, sid: Id) {
    && c in s.calls && s.calls[c].CleanupReady? && sid in s.db.sessions
    && s.db.sessions[sid].expires <= s.calls[c].cutoff
  }
}
