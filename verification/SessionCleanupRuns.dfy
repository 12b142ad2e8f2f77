/** When two runs of the same actions, one with and one without the cleanup's deletes,
    look the same to every caller. */
module SessionCleanupRuns {
  import opened SessionRows
  import opened SessionProtocol
  import opened SessionSafety

  /** The step of a system whose cleanup deletes nothing. */
  ghost function KeepingStep(s: State, a: Action): State {
    if a.CleanupDelete? then
      if a.c in s.calls && s.calls[a.c].CleanupReady? then SetCall(s, a.c, Ended) else s
    else Step(s, a)
  }

  ghost function KeepingRun(s: State, actions: seq<Action>): State
    decreases |actions|
  {
    if actions == [] then s else KeepingRun(KeepingStep(s, actions[0]), actions[1..])
  }

  /** The latest cutoff of a delete so far. */
  function Horizon(s: State, a: Action, horizon: int): int {
    if a.CleanupDelete? && a.c in s.calls && s.calls[a.c].CleanupReady? && s.calls[a.c].cutoff > horizon
    then s.calls[a.c].cutoff else horizon
  }

  /** No rotation finds its session deleted that it would otherwise still rotate, and no
      validation one that would otherwise still be active: t is the state of the run that
      keeps every row. */
  predicate Unnoticed(s: State, t: State, a: Action) {
    && (a.RefreshRotate? && !a.fault.Lost? && a.c in s.calls && s.calls[a.c].RefreshReady? ==>
          var claims := s.calls[a.c].claims;
          claims.sid in s.db.sessions || !Rotatable(t.db, claims.sid, claims.sub, claims.id, a.now))
    && (a.Validate? && a.c !in s.calls ==> a.claims.sid in s.db.sessions || !Validates(t, a.claims, a.now))
  }

  ghost predicate AllUnnoticed(s: State, t: State, actions: seq<Action>)
    decreases |actions|
  {
    actions != [] ==>
    && Unnoticed(s, t, actions[0])
    && AllUnnoticed(Step(s, actions[0]), KeepingStep(t, actions[0]), actions[1..])
  }

  ghost function LastCutoff(s: State, actions: seq<Action>, horizon: int): int
    decreases |actions|
  {
    if actions == [] then horizon
    else LastCutoff(Step(s, actions[0]), actions[1..], Horizon(s, actions[0], horizon))
  }

  /** A caller of this call cannot tell the two states apart. */
  predicate SameCall(a: Call, b: Call) {
    a == b || (a.CleanupReady? && b.CleanupReady? && a.cutoff == b.cutoff)
  }

  ghost predicate SameCalls(s: State, t: State) {
    s.calls.Keys == t.calls.Keys && forall c | c in s.calls :: SameCall(s.calls[c], t.calls[c])
  }

  /** t is s plus session rows that expired by the horizon. */
  ghost predicate Lean(s: State, t: State, horizon: int) {
    && t.db.users == s.db.users && t.issued == s.issued && t.drawn == s.drawn
    && t.held == s.held && t.updates == s.updates
    && (forall sid | sid in s.db.sessions :: sid in t.db.sessions && t.db.sessions[sid] == s.db.sessions[sid])
    && (forall sid | sid in t.db.sessions && sid !in s.db.sessions ::
          sid in s.held && t.db.sessions[sid].expires <= horizon)
  }

  lemma SameLocks(s: State, t: State, uid: nat)
    requires SameCalls(s, t)
    ensures Locked(s, uid) <==> Locked(t, uid)
  {
    if Locked(s, uid) {
      var c :| c in s.calls && s.calls[c].UpdateHeld? && s.calls[c].uid == uid;
      assert SameCall(s.calls[c], t.calls[c]) && t.calls[c].UpdateHeld?;
    }
    if Locked(t, uid) {
      var c :| c in t.calls && t.calls[c].UpdateHeld? && t.calls[c].uid == uid;
      assert SameCall(s.calls[c], t.calls[c]) && s.calls[c].UpdateHeld?;
    }
  }

  ghost predicate Alike(s: State, t: State, horizon: int) {
    Lean(s, t, horizon) && SameCalls(s, t)
  }

  lemma MovesAlike(s: State, t: State, horizon: int, c: nat, call: Call)
    requires Alike(s, t, horizon)
    ensures Alike(SetCall(s, c, call), SetCall(t, c, call), horizon)
  {
  }

  lemma UsersStayAlike(s: State, t: State, horizon: int, uid: nat, uuid: Id, active: bool, deleted: bool)
    requires Inv(s) && Alike(s, t, horizon)
    ensures Alike(AddedUser(s, uid, uuid), AddedUser(t, uid, uuid), horizon)
    ensures Alike(ChangedUser(s, uid, active, deleted), ChangedUser(t, uid, active, deleted), horizon)
  {
    SameLocks(s, t, uid);
  }

  lemma BeginsAlike(s: State, t: State, horizon: int, c: nat, uid: nat, sid: Id, rid: Id, exp: int)
    requires Inv(s) && Alike(s, t, horizon)
    ensures Alike(LoggingIn(s, c, uid, sid, rid, exp), LoggingIn(t, c, uid, sid, rid, exp), horizon)
  {
  }

  lemma UpdateBeginsAlike(s: State, t: State, horizon: int, c: nat, uid: nat)
    requires Inv(s) && Alike(s, t, horizon)
    ensures Alike(Updating(s, c, uid), Updating(t, c, uid), horizon)
  {
  }

  lemma RefreshBeginsAlike(s: State, t: State, horizon: int, c: nat, claims: Claims, next: Id, exp: int, now: int)
    requires Inv(s) && Alike(s, t, horizon)
    ensures Alike(Refreshing(s, c, claims, next, exp, now), Refreshing(t, c, claims, next, exp, now), horizon)
  {
  }

  lemma LoginsAlike(s: State, t: State, horizon: int, c: nat, access: Id, accessExp: int, fault: Fault)
    requires Inv(s) && Alike(s, t, horizon)
    ensures Alike(LoggedIn(s, c, access, accessExp, fault), LoggedIn(t, c, access, accessExp, fault), horizon)
  {
    if c in s.calls && s.calls[c].LoginReady? {
      assert SameCall(s.calls[c], t.calls[c]) && CallOwnsDraws(s, c);
      LoginSidNew(s, c);
    }
  }

  lemma RotationsAlike(s: State, t: State, horizon: int, c: nat, access: Id, accessExp: int, now: int, fault: Fault)
    requires Inv(s) && Alike(s, t, horizon)
    requires Unnoticed(s, t, RefreshRotate(c, access, accessExp, now, fault))
    ensures Alike(RotatedCall(s, c, access, accessExp, now, fault), RotatedCall(t, c, access, accessExp, now, fault), horizon)
  {
    if c in s.calls && s.calls[c].RefreshReady? {
      assert SameCall(s.calls[c], t.calls[c]);
      var claims := s.calls[c].claims;
      if fault.Lost? || !Rotatable(s.db, claims.sid, claims.sub, claims.id, now) {
        assert fault.Lost? || !Rotatable(t.db, claims.sid, claims.sub, claims.id, now);
        MovesAlike(s, t, horizon, c, RefreshLost(claims));
        MovesAlike(s, t, horizon, c, RefreshEnded(claims, Unavailable));
      }
    }
  }

  lemma ValidationsAlike(s: State, t: State, horizon: int, c: nat, claims: Claims, now: int)
    requires Alike(s, t, horizon) && Unnoticed(s, t, Validate(c, claims, now))
    ensures Alike(Validating(s, c, claims, now), Validating(t, c, claims, now), horizon)
  {
    if c !in s.calls {
      ValidatesIff(s, t, horizon, claims, now);
      MovesAlike(s, t, horizon, c, Validated(claims, Validates(s, claims, now)));
    }
  }

  /** Two alike states answer a validation alike iff the lean one has the session, or
      neither accepts the token. */
  lemma ValidatesIff(s: State, t: State, horizon: int, claims: Claims, now: int)
    requires Lean(s, t, horizon)
    ensures (Validates(s, claims, now) <==> Validates(t, claims, now))
            <==> claims.sid in s.db.sessions || !Validates(t, claims, now)
    ensures now >= horizon ==> (Validates(s, claims, now) <==> Validates(t, claims, now))
  {
  }

  /** A validation that does notice gets another answer. */
  lemma NoticedValidationsDiffer(s: State, t: State, horizon: int, a: Action)
    requires Alike(s, t, horizon) && a.Validate? && !Unnoticed(s, t, a)
    ensures !SameCalls(Step(s, a), KeepingStep(t, a))
  {
    assert Step(s, a).calls[a.c] == Validated(a.claims, false);
    assert KeepingStep(t, a).calls[a.c] == Validated(a.claims, true);
  }

  /** A rotation that does notice gives the session another refresh ID in one run only,
      and its caller another answer unless that answer is an error anyway. */
  lemma NoticedRotationsDiffer(s: State, t: State, horizon: int, a: Action)
    requires Inv(s) && Alike(s, t, horizon) && a.RefreshRotate? && !Unnoticed(s, t, a)
    ensures Step(s, a).held != KeepingStep(t, a).held
    ensures a.fault.Fine? ==> !SameCalls(Step(s, a), KeepingStep(t, a))
  {
    assert SameCall(s.calls[a.c], t.calls[a.c]) && CallOk(s, a.c);
    var claims := s.calls[a.c].claims;
    assert Genuine(s, claims);
    assert Step(s, a).held[claims.sid] == s.held[claims.sid];
    assert KeepingStep(t, a).held[claims.sid] == s.held[claims.sid] + [s.calls[a.c].next];
    if a.fault.Fine? {
      assert Step(s, a).calls[a.c] == RefreshLost(claims);
      assert KeepingStep(t, a).calls[a.c] == RefreshEnded(claims, Rotation);
    }
  }

  lemma RevokedAlike(s: State, t: State, horizon: int, sid: Id, sub: Id, now: int)
    requires Lean(s, t, horizon)
    ensures Lean(s.(db := Revoked(s.db, sid, sub, now)), t.(db := Revoked(t.db, sid, sub, now)), horizon)
  {
  }

  lemma RevocationsAlike(s: State, t: State, horizon: int, c: nat, now: int, fault: Fault)
    requires Inv(s) && Alike(s, t, horizon)
    ensures Alike(RevokedCall(s, c, now, fault), RevokedCall(t, c, now, fault), horizon)
  {
    if c in s.calls && s.calls[c].RefreshLost? {
      assert SameCall(s.calls[c], t.calls[c]);
      RevokedAlike(s, t, horizon, s.calls[c].claims.sid, s.calls[c].claims.sub, now);
    }
  }

  lemma LogoutsAlike(s: State, t: State, horizon: int, claims: Claims, now: int)
    requires Inv(s) && Alike(s, t, horizon)
    ensures Alike(LoggedOut(s, claims, now), LoggedOut(t, claims, now), horizon)
  {
    RevokedAlike(s, t, horizon, claims.sid, claims.sub, now);
  }

  lemma WritesAlike(s: State, t: State, horizon: int, c: nat)
    requires Inv(s) && Alike(s, t, horizon)
    ensures Alike(UpdateWritten(s, c), UpdateWritten(t, c), horizon)
  {
    if c in s.calls && s.calls[c].UpdateRead? {
      assert SameCall(s.calls[c], t.calls[c]);
      var UpdateRead(uid, version, active) := s.calls[c];
      SameLocks(s, t, uid);
      MovesAlike(s, t, horizon, c, UpdateHeld(uid, version, active));
      MovesAlike(s, t, horizon, c, Ended);
    }
  }

  lemma AbortsAlike(s: State, t: State, horizon: int, c: nat)
    requires Inv(s) && Alike(s, t, horizon)
    ensures Alike(UpdateAborted(s, c), UpdateAborted(t, c), horizon)
  {
    if c in s.calls {
      assert SameCall(s.calls[c], t.calls[c]);
      MovesAlike(s, t, horizon, c, Ended);
    }
  }

  lemma CommitsAlike(s: State, t: State, horizon: int, c: nat, fault: Fault)
    requires Inv(s) && Alike(s, t, horizon)
    ensures Alike(UpdateCommitted(s, c, fault), UpdateCommitted(t, c, fault), horizon)
  {
    if c in s.calls {
      assert SameCall(s.calls[c], t.calls[c]);
    }
  }

  lemma CleanupsAlike(s: State, t: State, horizon: int, a: Action)
    requires Inv(s) && Alike(s, t, horizon) && (a.CleanupSelect? || a.CleanupDelete?)
    ensures Alike(Step(s, a), KeepingStep(t, a), Horizon(s, a, horizon))
  {
  }

  lemma BackgroundStepsAlike(s: State, t: State, horizon: int, a: Action)
    requires Inv(s) && Alike(s, t, horizon) && Background(a)
    ensures Alike(Step(s, a), KeepingStep(t, a), Horizon(s, a, horizon))
  {
    match a
    case UpdateBegin(c, uid) => UpdateBeginsAlike(s, t, horizon, c, uid);
    case UpdateWrite(c) => WritesAlike(s, t, horizon, c);
    case UpdateCommit(c, fault) => CommitsAlike(s, t, horizon, c, fault);
    case UpdateAbort(c) => AbortsAlike(s, t, horizon, c);
    case CleanupSelect(_, _, _) => CleanupsAlike(s, t, horizon, a);
    case CleanupDelete(_) => CleanupsAlike(s, t, horizon, a);
  }

  /** The states stay alike, whatever else happens next. */
  lemma StepsAlike(s: State, t: State, horizon: int, a: Action)
    requires Inv(s) && Alike(s, t, horizon)
    requires Unnoticed(s, t, a)
    ensures Alike(Step(s, a), KeepingStep(t, a), Horizon(s, a, horizon))
  {
    match a
    case AddUser(uid, uuid) => UsersStayAlike(s, t, horizon, uid, uuid, false, false);
    case SetActive(uid, active) =>
      if uid in s.db.users {
        UsersStayAlike(s, t, horizon, uid, 0, active, s.db.users[uid].deleted);
      }
    case DeleteUser(uid) =>
      if uid in s.db.users {
        UsersStayAlike(s, t, horizon, uid, 0, s.db.users[uid].active, true);
      }
    case LoginRead(c, uid, sid, rid, exp) => BeginsAlike(s, t, horizon, c, uid, sid, rid, exp);
    case LoginInsert(c, access, accessExp, fault) => LoginsAlike(s, t, horizon, c, access, accessExp, fault);
    case RefreshBegin(c, claims, next, exp, now) => RefreshBeginsAlike(s, t, horizon, c, claims, next, exp, now);
    case RefreshRotate(c, access, accessExp, now, fault) => RotationsAlike(s, t, horizon, c, access, accessExp, now, fault);
    case RefreshRevoke(c, now, fault) => RevocationsAlike(s, t, horizon, c, now, fault);
    case Logout(claims, now) => LogoutsAlike(s, t, horizon, claims, now);
    case Validate(c, claims, now) => ValidationsAlike(s, t, horizon, c, claims, now);
    case _ => BackgroundStepsAlike(s, t, horizon, a);
  }

  /** Alike now and after every further step. */
  ghost predicate AlwaysAlike(s: State, t: State, horizon: int, actions: seq<Action>)
    decreases |actions|
  {
    && Alike(s, t, horizon)
    && (actions != [] ==>
          AlwaysAlike(Step(s, actions[0]), KeepingStep(t, actions[0]), Horizon(s, actions[0], horizon), actions[1..]))
  }

  /** No caller's call ever differs. */
  ghost predicate AlwaysSame(s: State, t: State, actions: seq<Action>)
    decreases |actions|
  {
    && SameCalls(s, t)
    && (actions != [] ==> AlwaysSame(Step(s, actions[0]), KeepingStep(t, actions[0]), actions[1..]))
  }

  /** The two runs stay alike iff no rotation or validation finds its session deleted that
      it would otherwise still accept. */
  lemma {:induction false} RunsAlikeIff(s: State, t: State, horizon: int, actions: seq<Action>)
    requires Inv(s) && Alike(s, t, horizon)
    ensures AlwaysAlike(s, t, horizon, actions) <==> AllUnnoticed(s, t, actions)
    decreases |actions|
  {
    if actions != [] {
      if Unnoticed(s, t, actions[0]) {
        StepKeepsInv(s, actions[0]);
        StepsAlike(s, t, horizon, actions[0]);
        RunsAlikeIff(Step(s, actions[0]), KeepingStep(t, actions[0]), Horizon(s, actions[0], horizon), actions[1..]);
      } else if actions[0].Validate? {
        NoticedValidationsDiffer(s, t, horizon, actions[0]);
      } else {
        NoticedRotationsDiffer(s, t, horizon, actions[0]);
      }
    }
  }

  /** The same for what callers see, unless a rotation's answer is lost on the way. */
  lemma {:induction false} CallersNoticeIff(s: State, t: State, horizon: int, actions: seq<Action>)
    requires Inv(s) && Alike(s, t, horizon)
    requires forall a | a in actions && a.RefreshRotate? :: !a.fault.Applied?
    ensures AlwaysSame(s, t, actions) <==> AllUnnoticed(s, t, actions)
    decreases |actions|
  {
    if actions != [] {
      assert actions[0] in actions;
      if Unnoticed(s, t, actions[0]) {
        StepKeepsInv(s, actions[0]);
        StepsAlike(s, t, horizon, actions[0]);
        CallersNoticeIff(Step(s, actions[0]), KeepingStep(t, actions[0]), Horizon(s, actions[0], horizon), actions[1..]);
      } else if actions[0].Validate? {
        NoticedValidationsDiffer(s, t, horizon, actions[0]);
      } else {
        NoticedRotationsDiffer(s, t, horizon, actions[0]);
      }
    }
  }

  lemma {:induction false} AlikeAtTheEnd(s: State, t: State, horizon: int, actions: seq<Action>)
    requires AlwaysAlike(s, t, horizon, actions)
    ensures Alike(Run(s, actions), KeepingRun(t, actions), LastCutoff(s, actions, horizon))
    decreases |actions|
  {
    if actions != [] {
      AlikeAtTheEnd(Step(s, actions[0]), KeepingStep(t, actions[0]), Horizon(s, actions[0], horizon), actions[1..]);
    }
  }

  /** Then cleanup is unobservable: every call has the same state and outcome, and a
      further validation is answered alike iff it too finds no such session deleted - from
      the last cutoff on, always. */
  lemma CleanupUnobservable(actions: seq<Action>, horizon: int)
    requires AllUnnoticed(Init, Init, actions)
    ensures SameCalls(Run(Init, actions), KeepingRun(Init, actions))
    ensures Run(Init, actions).issued == KeepingRun(Init, actions).issued
    ensures var s, t := Run(Init, actions), KeepingRun(Init, actions);
            forall claims, now ::
              && ((Validates(s, claims, now) <==> Validates(t, claims, now))
                  <==> claims.sid in s.db.sessions || !Validates(t, claims, now))
              && (now >= LastCutoff(Init, actions, horizon) ==> (Validates(s, claims, now) <==> Validates(t, claims, now)))
  {
    RunsAlikeIff(Init, Init, horizon, actions);
    AlikeAtTheEnd(Init, Init, horizon, actions);
    var s, t := Run(Init, actions), KeepingRun(Init, actions);
    forall claims, now
      ensures (Validates(s, claims, now) <==> Validates(t, claims, now))
              <==> claims.sid in s.db.sessions || !Validates(t, claims, now)
      ensures now >= LastCutoff(Init, actions, horizon) ==> (Validates(s, claims, now) <==> Validates(t, claims, now))
    {
      ValidatesIff(s, t, LastCutoff(Init, actions, horizon), claims, now);
    }
  }

  /** No rotation or validation reads a clock behind the cutoff of a delete that already ran. */
  ghost predicate InOrder(s: State, actions: seq<Action>, horizon: int)
    decreases |actions|
  {
    actions != [] ==>
    && (actions[0].RefreshRotate? || actions[0].Validate? ==> actions[0].now >= horizon)
    && InOrder(Step(s, actions[0]), actions[1..], Horizon(s, actions[0], horizon))
  }

  /** That is enough: at such a clock every deleted session has expired. */
  lemma {:induction false} InOrderIsUnnoticed(s: State, t: State, horizon: int, actions: seq<Action>)
    requires Inv(s) && Alike(s, t, horizon) && InOrder(s, actions, horizon)
    ensures AllUnnoticed(s, t, actions)
    decreases |actions|
  {
    if actions != [] {
      StepKeepsInv(s, actions[0]);
      StepsAlike(s, t, horizon, actions[0]);
      InOrderIsUnnoticed(Step(s, actions[0]), KeepingStep(t, actions[0]), Horizon(s, actions[0], horizon), actions[1..]);
    }
  }

  // ---- A run that does notice ----

  const TOKEN := Claims(Refresh, 1, 5, 2, 10)

  /** User 0 logs in, and a refresh of the session has parsed its token. */
  const BEFORE_CLEANUP :=
    [AddUser(0, 5), LoginRead(0, 0, 1, 2, 10)] + [LoginInsert(0, 3, 10, Fine), RefreshBegin(1, TOKEN, 4, 20, 0)]

  /** Then the cleanup's clock has reached the session's expiry, and one more step. */
  function SlowRun(last: Action): seq<Action> {
    BEFORE_CLEANUP + [CleanupSelect(2, 10, {1}), CleanupDelete(2)] + [last]
  }

  lemma {:induction false} RunConcat(s: State, a: seq<Action>, b: seq<Action>)
    ensures Run(s, a + b) == Run(Run(s, a), b)
    ensures KeepingRun(s, a + b) == KeepingRun(KeepingRun(s, a), b)
    decreases |a|
  {
    if a == [] {
      assert a + b == b;
    } else {
      assert (a + b)[1..] == a[1..] + b;
      RunConcat(Step(s, a[0]), a[1..], b);
      RunConcat(KeepingStep(s, a[0]), a[1..], b);
    }
  }

  /** What the second half of the run needs of the first. */
  predicate Refreshable(s: State) {
    && s.calls.Keys == {0, 1} && TOKEN in s.issued && s.calls[1] == RefreshReady(TOKEN, 4, 20)
    && Rotatable(s.db, 1, 5, 2, 9) && s.db.sessions.Keys == {1} && s.db.sessions[1].expires == 10
  }

  lemma RunTwo(s: State, a: Action, b: Action)
    ensures Run(s, [a, b]) == Step(Step(s, a), b)
    ensures KeepingRun(s, [a, b]) == KeepingStep(KeepingStep(s, a), b)
  {
    assert [a, b][1..] == [b] && [b][1..] == [];
    assert Run(s, [a, b]) == Run(Step(s, a), [b]) && Run(Step(s, a), [b]) == Step(Step(s, a), b);
    assert KeepingRun(s, [a, b]) == KeepingRun(KeepingStep(s, a), [b])
           && KeepingRun(KeepingStep(s, a), [b]) == KeepingStep(KeepingStep(s, a), b);
  }

  lemma BeforeCleanup()
    ensures Run(Init, BEFORE_CLEANUP) == KeepingRun(Init, BEFORE_CLEANUP)
    ensures Refreshable(Run(Init, BEFORE_CLEANUP))
  {
    var a, b := [AddUser(0, 5), LoginRead(0, 0, 1, 2, 10)], [LoginInsert(0, 3, 10, Fine), RefreshBegin(1, TOKEN, 4, 20, 0)];
    RunConcat(Init, a, b);
    RunTwo(Init, a[0], a[1]);
    RunTwo(Run(Init, a), b[0], b[1]);
    LoggedInRefreshable(Run(Init, a));
  }

  lemma LoggedInRefreshable(s: State)
    requires s == Step(Step(Init, AddUser(0, 5)), LoginRead(0, 0, 1, 2, 10))
    ensures Refreshable(Step(Step(s, LoginInsert(0, 3, 10, Fine)), RefreshBegin(1, TOKEN, 4, 20, 0)))
  {
  }

  /** The same state after the cleanup, without the session in one run only. */
  predicate Cleaned(s: State, t: State) {
    && Refreshable(t.(calls := t.calls - {2})) && s.calls == t.calls && 2 in s.calls
    && s.db.sessions == map[]
  }

  lemma CleanupCleans(s: State)
    requires Refreshable(s)
    ensures Cleaned(Step(Step(s, CleanupSelect(2, 10, {1})), CleanupDelete(2)),
                    KeepingStep(KeepingStep(s, CleanupSelect(2, 10, {1})), CleanupDelete(2)))
  {
  }

  lemma SlowRunEnds(last: Action) returns (s: State, t: State)
    requires !last.CleanupDelete?
    ensures Cleaned(s, t)
    ensures Run(Init, SlowRun(last)) == Step(s, last) && KeepingRun(Init, SlowRun(last)) == Step(t, last)
  {
    var cleanup := [CleanupSelect(2, 10, {1}), CleanupDelete(2)];
    var before := Run(Init, BEFORE_CLEANUP);
    BeforeCleanup();
    CleanupCleans(before);
    RunTwo(before, cleanup[0], cleanup[1]);
    s, t := Run(before, cleanup), KeepingRun(before, cleanup);
    RunConcat(Init, BEFORE_CLEANUP, cleanup);
    RunConcat(Init, BEFORE_CLEANUP + cleanup, [last]);
    assert [last][1..] == [];
  }

  predicate SameAnswer(s: State, c: nat, call: Call) {
    c in s.calls && s.calls[c] == call
  }

  lemma DifferentAnswersAreNoticed(actions: seq<Action>, c: nat, a: Call, b: Call)
    requires SameAnswer(Run(Init, actions), c, a) && SameAnswer(KeepingRun(Init, actions), c, b) && !SameCall(a, b)
    ensures !AllUnnoticed(Init, Init, actions)
  {
    if AllUnnoticed(Init, Init, actions) {
      CleanupUnobservable(actions, 0);
    }
  }

  lemma RotationAnswers(s: State, t: State)
    requires Cleaned(s, t)
    ensures SameAnswer(RotatedCall(s, 1, 6, 10, 9, Fine), 1, RefreshLost(TOKEN))
    ensures SameAnswer(RotatedCall(t, 1, 6, 10, 9, Fine), 1, RefreshEnded(TOKEN, Rotation))
  {
  }

  lemma ValidationAnswers(s: State, t: State)
    requires Cleaned(s, t)
    ensures SameAnswer(Validating(s, 3, TOKEN, 9), 3, Validated(TOKEN, false))
    ensures SameAnswer(Validating(t, 3, TOKEN, 9), 3, Validated(TOKEN, true))
  {
    assert 3 !in (t.calls - {2}).Keys;
  }

  /** A reachable run whose rotation, at a clock behind the cutoff, is refused although,
      without the cleanup, it would have succeeded. */
  lemma SlowRotationNotices()
    ensures var actions := SlowRun(RefreshRotate(1, 6, 10, 9, Fine));
            && SameAnswer(Run(Init, actions), 1, RefreshLost(TOKEN))
            && SameAnswer(KeepingRun(Init, actions), 1, RefreshEnded(TOKEN, Rotation))
            && !AllUnnoticed(Init, Init, actions)
  {
    var s, t := SlowRunEnds(RefreshRotate(1, 6, 10, 9, Fine));
    RotationAnswers(s, t);
    DifferentAnswersAreNoticed(SlowRun(RefreshRotate(1, 6, 10, 9, Fine)), 1, RefreshLost(TOKEN), RefreshEnded(TOKEN, Rotation));
  }

  /** And one with a validation in its place. */
  lemma SlowValidationNotices()
    ensures var actions := SlowRun(Validate(3, TOKEN, 9));
            && SameAnswer(Run(Init, actions), 3, Validated(TOKEN, false))
            && SameAnswer(KeepingRun(Init, actions), 3, Validated(TOKEN, true))
            && !AllUnnoticed(Init, Init, actions)
  {
    var s, t := SlowRunEnds(Validate(3, TOKEN, 9));
    ValidationAnswers(s, t);
    DifferentAnswersAreNoticed(SlowRun(Validate(3, TOKEN, 9)), 3, Validated(TOKEN, false), Validated(TOKEN, true));
  }
}
