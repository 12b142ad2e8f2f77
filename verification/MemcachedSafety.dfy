/** What every run of the compare-and-swap loops guarantees. */
module MemcachedSafety {
  import opened Options
  import opened RateLimit
  import opened Gcra
  import opened MemcachedExpiry
  import opened Memcached

  /** Only a store changes the item, and it logs an allowed request; so denials,
      conflicts, exhausted attempts and cancellations leave it as it was. */
  lemma OnlyGrantsChangeItem(s: State, a: Action, cfg: Config)
    requires Step(s, a, cfg).item != s.item
    ensures var t := Step(s, a, cfg);
            && |t.log| == |s.log| + 1 && t.log[..|s.log|] == s.log
            && t.log[|s.log|].allowed
            && t.item.Some? && t.item.value.written == t.log[|s.log|].now
  {
  }

  // ---- Progress of one call ----

  /** A conflict is retried while attempts are left; the sixteenth ends the call. */
  lemma ConflictRetries(s: State, a: Action, cfg: Config)
    requires CallsOk(s, cfg) && (a.Add? || a.CompareAndSwap?) && a.c in s.calls && Visible(s)
    requires (a.Add? && s.calls[a.c].Missed? && a.fault.Fine?)
             || (a.CompareAndSwap? && s.calls[a.c].Read? && a.fault.Fine? && s.item.value.token != s.calls[a.c].token)
    ensures var t := Step(s, a, cfg);
            && t.item == s.item && t.log == s.log
            && t.calls[a.c] == (if s.calls[a.c].attempt < 15 then Looping(s.calls[a.c].attempt + 1) else Failed)
  {
    assert CallOk(s, s.calls[a.c], cfg);
  }

  /** A swap whose item has vanished ends the call with an error, and so does a context
      that is canceled between two attempts; neither decides anything. */
  lemma FailuresDecideNothing(s: State, c: nat, fault: Fault, cfg: Config)
    requires c in s.calls
    ensures s.calls[c].Read? && !Visible(s) ==> Step(s, CompareAndSwap(c, fault), cfg) == s.(calls := s.calls[c := Failed])
    ensures s.calls[c].Looping? ==> Step(s, Cancel(c), cfg) == s.(calls := s.calls[c := Failed])
  {
  }

  /** An attempt that nothing comes between decides, at the one time that it samples, by
      the value that is visible then. */
  lemma UndisturbedDecides(s: State, c: nat, cfg: Config)
    requires c in s.calls && s.calls[c].Looping? && Expiration(s.clock, cfg.ttl, 1).Some?
    ensures
      var tat := if Visible(s) then Some(s.item.value.tat) else None;
      var got := Step(Step(s, Sample(c), cfg), Get(c, Fine), cfg);
      var t := Step(Step(got, Add(c, Fine), cfg), CompareAndSwap(c, Fine), cfg);
      && t.calls[c] == Answered(Allows(tat, s.clock, Unit(cfg), cfg.burst))
      && t.log == s.log + [Entry(c, s.clock, Allows(tat, s.clock, Unit(cfg), cfg.burst))]
  {
    MulMono(0, cfg.burst - 1, Unit(cfg));
  }

  // ---- When an add is timely ----

  /** The item was stored no earlier than its writer's sample, at most one full refill ahead. */
  ghost predicate ItemOk(s: State, cfg: Config) {
    s.item.Some? ==>
      var item := s.item.value;
      && item.tat <= item.written + cfg.burst * Unit(cfg)
      && 0 <= item.written
      && Expiration(item.written, cfg.ttl, 1).Some?
      && exists setAt {:trigger Deadline(Expiration(item.written, cfg.ttl, 1).value, setAt)} ::
           item.written <= setAt <= s.clock && item.deadline == Deadline(Expiration(item.written, cfg.ttl, 1).value, setAt)
  }

  lemma StepKeepsItem(s: State, a: Action, cfg: Config)
    requires CallsOk(s, cfg) && ItemOk(s, cfg)
    ensures ItemOk(Step(s, a, cfg), cfg)
  {
    var t := Step(s, a, cfg);
    if t.item != s.item {
      var unit, full, refill := Unit(cfg), cfg.burst * Unit(cfg), (cfg.burst - 1) * Unit(cfg);
      assert refill == full - unit;
      MulMono(1, cfg.burst, unit);
      assert CallOk(s, s.calls[a.c], cfg);
      var now := s.calls[a.c].now;
      assert t.item.value.deadline == Deadline(Expiration(now, cfg.ttl, 1).value, s.clock);
    }
  }

  /** An add that replaces a vanished item samples its clock at least `gap` after the
      sample of that item's writer. */
  predicate Apart(s: State, a: Action, gap: int) {
    Replaces(s, a) ==> s.calls[a.c].now - s.item.value.written >= gap
  }

  predicate AllApart(s: State, actions: seq<Action>, cfg: Config, gap: int)
    decreases |actions|
  {
    actions != [] ==> Apart(s, actions[0], gap) && AllApart(Step(s, actions[0], cfg), actions[1..], cfg, gap)
  }

  /** From a complete refill on, such an add is timely. */
  lemma {:induction false} ApartIsTimely(s: State, actions: seq<Action>, cfg: Config, gap: int)
    requires CallsOk(s, cfg) && ItemOk(s, cfg) && gap >= cfg.burst * Unit(cfg) && AllApart(s, actions, cfg, gap)
    ensures AllTimely(s, actions, cfg)
    decreases |actions|
  {
    if actions != [] {
      StepKeepsItem(s, actions[0], cfg);
      StepKeepsCalls(s, actions[0], cfg);
      ApartIsTimely(Step(s, actions[0], cfg), actions[1..], cfg, gap);
    }
  }

  /** For intervals of at least a microsecond, the TTL covers a complete refill. */
  lemma TtlCoversRefill(cfg: Config)
    ensures cfg.ttl > 0
    ensures cfg.interval >= 1000 ==> cfg.burst * Unit(cfg) * 1000 <= cfg.ttl
  {
    MulMono(1, cfg.burst, cfg.interval);
    if cfg.interval >= 1000 {
      MulMono(Unit(cfg) * 1000, cfg.interval, cfg.burst);
      assert cfg.burst * (Unit(cfg) * 1000) == cfg.burst * Unit(cfg) * 1000;
    }
  }

  /** The padding second makes an add timely whose delay since its sample is within
      what the TTL adds to a complete refill. */
  lemma PromptIsTimely(s: State, a: Action, cfg: Config)
    requires ItemOk(s, cfg)
    requires Replaces(s, a) ==> (s.clock - s.calls[a.c].now) * 1000 <= cfg.ttl - cfg.burst * Unit(cfg) * 1000
    ensures Timely(s, a)
  {
    if Replaces(s, a) {
      var item := s.item.value;
      var setAt :| item.written <= setAt <= s.clock
                   && item.deadline == Deadline(Expiration(item.written, cfg.ttl, 1).value, setAt);
      TtlCoversRefill(cfg);
      PaddingCoversTtl(item.written, setAt, cfg.ttl, 1, s.clock);
    }
  }

  // ---- Linearization ----

  lemma InitOk(cfg: Config)
    ensures CallsOk(Init, cfg) && ItemOk(Init, cfg) && Faithful(Init, cfg)
  {
    assert Times(Init.log) == [] && Decisions(Init.log) == [];
  }

  /** An interleaving of the clients' steps is at every step a sequential run of the pure
      algorithm, without expiry, in commit order, iff every add that replaces a vanished
      item comes after that item's time. */
  lemma LinearizesIff(actions: seq<Action>, cfg: Config)
    ensures AlwaysFaithful(Init, actions, cfg) <==> AllTimely(Init, actions, cfg)
  {
    InitOk(cfg);
    RunFaithfulIff(Init, actions, cfg);
  }

  /** So it is when a miss on an item is sampled no sooner than one TTL after that item's
      sample, whatever the delays before its add. */
  lemma Linearizes(actions: seq<Action>, cfg: Config, gap: int)
    requires AllApart(Init, actions, cfg, gap)
    requires gap >= cfg.burst * Unit(cfg) || (cfg.interval >= 1000 && gap * 1000 >= cfg.ttl)
    ensures AllTimely(Init, actions, cfg)
    ensures var log := Run(Init, actions, cfg).log;
            Decisions(log) == Decide(Times(log), Unit(cfg), cfg.burst)
  {
    InitOk(cfg);
    TtlCoversRefill(cfg);
    ApartIsTimely(Init, actions, cfg, gap);
    LinearizesIff(actions, cfg);
    FaithfulAtTheEnd(Init, actions, cfg);
  }

  // ---- An ordinary run that does not linearize ----

  /** One request per second. */
  const ONE_A_SECOND: Config := Settings(1_000_000_000, 1, 1_000_000_000)

  const FIRST_REQUEST := [Tick(999_999), Begin(0), Sample(0), Get(0, Fine), Add(0, Fine)]

  const SECOND_REQUEST := [Tick(999_999), Begin(1), Sample(1), Tick(2), Get(1, Fine), Add(1, Fine)]

  lemma {:induction false} RunConcat(s: State, a: seq<Action>, b: seq<Action>, cfg: Config)
    ensures Run(s, a + b, cfg) == Run(Run(s, a, cfg), b, cfg)
    decreases |a|
  {
    if a == [] {
      assert a + b == b;
    } else {
      assert (a + b)[1..] == a[1..] + b;
      RunConcat(Step(s, a[0], cfg), a[1..], b, cfg);
    }
  }

  lemma AfterFirst() returns (s: State)
    ensures s == Run(Init, FIRST_REQUEST, ONE_A_SECOND)
    ensures s.clock == 999_999 && s.item == Some(Item(1_999_999, 0, 2, 999_999)) && 1 !in s.calls
    ensures s.log == [Entry(0, 999_999, true)]
  {
    var a := FIRST_REQUEST;
    var s2 := Step(Step(Init, a[0], ONE_A_SECOND), a[1], ONE_A_SECOND);
    var s4 := Step(Step(s2, a[2], ONE_A_SECOND), a[3], ONE_A_SECOND);
    s := Step(s4, a[4], ONE_A_SECOND);
    assert a[1..][1..] == a[2..] && a[2..][1..][1..] == a[4..] && a[4..][1..] == [];
    assert Run(Init, a, ONE_A_SECOND) == Run(s2, a[2..], ONE_A_SECOND) == Run(s4, a[4..], ONE_A_SECOND) == s;
  }

  lemma AfterSecond(s: State) returns (t: State)
    requires s.clock == 999_999 && s.item == Some(Item(1_999_999, 0, 2, 999_999)) && 1 !in s.calls
    ensures t == Run(s, SECOND_REQUEST, ONE_A_SECOND)
    ensures t.log == s.log + [Entry(1, 1_999_998, true)]
  {
    var a := SECOND_REQUEST;
    var s2 := Step(Step(s, a[0], ONE_A_SECOND), a[1], ONE_A_SECOND);
    var s4 := Step(Step(s2, a[2], ONE_A_SECOND), a[3], ONE_A_SECOND);
    t := Step(Step(s4, a[4], ONE_A_SECOND), a[5], ONE_A_SECOND);
    assert a[1..][1..] == a[2..] && a[2..][1..][1..] == a[4..] && a[4..][1..][1..] == [];
    assert Run(s, a, ONE_A_SECOND) == Run(s2, a[2..], ONE_A_SECOND) == Run(s4, a[4..], ONE_A_SECOND) == t;
  }

  const LATE_LOG := [Entry(0, 999_999, true), Entry(1, 1_999_998, true)]

  lemma LateLogIsNoBucket()
    ensures Decide(Times(LATE_LOG), 1_000_000, 1) == [true, false]
    ensures |Allowed(LATE_LOG)| == 2
  {
    assert Times(LATE_LOG) == [999_999, 1_999_998];
    assert Times(LATE_LOG)[..1] == [999_999] && Times(LATE_LOG)[..1][..0] == [];
    assert LATE_LOG[..1] == [LATE_LOG[0]] && LATE_LOG[..1][..0] == [];
  }

  /** The second client samples just before the first token is back, and its get comes
      just after the item has vanished: two requests pass within less than a second. */
  lemma LateAddOverAdmits()
    ensures Run(Init, FIRST_REQUEST + SECOND_REQUEST, ONE_A_SECOND).log == LATE_LOG
    ensures Decisions(LATE_LOG) != Decide(Times(LATE_LOG), Unit(ONE_A_SECOND), ONE_A_SECOND.burst)
    ensures |Allowed(LATE_LOG)| > ONE_A_SECOND.burst + (LATE_LOG[1].now - LATE_LOG[0].now) / Unit(ONE_A_SECOND)
    ensures !AllTimely(Init, FIRST_REQUEST + SECOND_REQUEST, ONE_A_SECOND)
  {
    var s := AfterFirst();
    var t := AfterSecond(s);
    RunConcat(Init, FIRST_REQUEST, SECOND_REQUEST, ONE_A_SECOND);
    LateLogIsNoBucket();
    assert Decisions(LATE_LOG)[1];
    if AllTimely(Init, FIRST_REQUEST + SECOND_REQUEST, ONE_A_SECOND) {
      LinearizesIff(FIRST_REQUEST + SECOND_REQUEST, ONE_A_SECOND);
      FaithfulAtTheEnd(Init, FIRST_REQUEST + SECOND_REQUEST, ONE_A_SECOND);
    }
  }

  // ---- Windows of the log ----

  function Allowed(log: seq<Entry>): seq<int>
    decreases |log|
  {
    if log == [] then []
    else
      var e := log[|log| - 1];
      Allowed(log[..|log| - 1]) + if e.allowed then [e.now] else []
  }

  lemma {:induction false} AllowedIsGranted(log: seq<Entry>, interval: int, burst: int)
    requires Decisions(log) == Decide(Times(log), interval, burst)
    ensures Allowed(log) == Granted(Times(log), interval, burst)
    decreases |log|
  {
    if log != [] {
      var last := |log| - 1;
      assert log[..last] + [log[last]] == log;
      Logged(log[..last], log[last], interval, burst);
      assert Times(log)[..last] == Times(log[..last]);
      AllowedIsGranted(log[..last], interval, burst);
    }
  }

  lemma {:induction false} AllowedPrefix(log: seq<Entry>, p: nat)
    requires p < |log| && log[p].allowed
    ensures |Allowed(log[..p])| < |Allowed(log)| && Allowed(log)[|Allowed(log[..p])|] == log[p].now
    decreases |log|
  {
    var last := |log| - 1;
    if p < last {
      assert log[..last][..p] == log[..p];
      AllowedPrefix(log[..last], p);
    }
  }

  /** For any two allowed requests of such a run, in commit order and whatever their
      clocks, the number allowed from the first to the second is at most
      burst + elapsed / interval. */
  lemma CommitWindowBound(actions: seq<Action>, cfg: Config, p: nat, q: nat)
    requires AllTimely(Init, actions, cfg)
    requires var log := Run(Init, actions, cfg).log; p <= q < |log| && log[p].allowed && log[q].allowed
    ensures var log := Run(Init, actions, cfg).log;
            |Allowed(log[..q + 1])| - |Allowed(log[..p])| <= cfg.burst + (log[q].now - log[p].now) / Unit(cfg)
  {
    LinearizesIff(actions, cfg);
    FaithfulAtTheEnd(Init, actions, cfg);
    LogWindow(Run(Init, actions, cfg).log, Unit(cfg), cfg.burst, p, q);
  }

  lemma LogWindow(log: seq<Entry>, interval: int, burst: int, p: nat, q: nat)
    requires interval > 0 && burst > 0 && Decisions(log) == Decide(Times(log), interval, burst)
    requires p <= q < |log| && log[p].allowed && log[q].allowed
    ensures |Allowed(log[..q + 1])| - |Allowed(log[..p])| <= burst + (log[q].now - log[p].now) / interval
  {
    AllowedIsGranted(log, interval, burst);
    MemoryOfGranted(Times(log), interval, burst);
    AllowedPrefix(log, p);
    AllowedPrefix(log, q);
    AllowedUpTo(log, q);
    AllowedMonotone(log, p, q);
    WindowBound(Allowed(log), |Allowed(log[..p])|, |Allowed(log[..q])|, interval, burst);
  }

  lemma AllowedUpTo(log: seq<Entry>, q: nat)
    requires q < |log| && log[q].allowed
    ensures |Allowed(log[..q + 1])| == |Allowed(log[..q])| + 1
  {
    assert log[..q + 1][..q] == log[..q];
  }

  lemma {:induction false} AllowedMonotone(log: seq<Entry>, p: nat, q: nat)
    requires p <= q <= |log|
    ensures |Allowed(log[..p])| <= |Allowed(log[..q])|
    decreases q
  {
    if p < q {
      AllowedMonotone(log, p, q - 1);
      assert log[..q][..q - 1] == log[..q - 1];
    }
  }

  // ---- Answers ----

  function EntriesOf(log: seq<Entry>, c: nat): seq<bool>
    decreases |log|
  {
    if log == [] then []
    else
      var e := log[|log| - 1];
      EntriesOf(log[..|log| - 1], c) + if e.call == c then [e.allowed] else []
  }

  /** A call decides at most once: nothing while it runs, its answer when it answered,
      and at most one allowed request when a store took effect but reported an error. */
  ghost predicate DecidedOnce(s: State, c: nat) {
    var entries := EntriesOf(s.log, c);
    if c !in s.calls || Running(s.calls[c]) then entries == []
    else if s.calls[c].Answered? then entries == [s.calls[c].allowed]
    else entries == [] || entries == [true]
  }

  lemma EntriesAppend(log: seq<Entry>, e: Entry, c: nat)
    ensures EntriesOf(log + [e], c) == EntriesOf(log, c) + if e.call == c then [e.allowed] else []
  {
    assert (log + [e])[..|log|] == log;
  }

  /** The step logged nothing; if it moved call c, the call runs on or has failed. */
  predicate Silent(s: State, t: State, c: nat) {
    && t.log == s.log
    && (c in s.calls ==> c in t.calls)
    && (c in t.calls && !(c in s.calls && t.calls[c] == s.calls[c]) ==>
          (Running(t.calls[c]) || t.calls[c].Failed?) && (c !in s.calls || Running(s.calls[c])))
  }

  /** The step logged one decision, of a running call that now ends with it. */
  predicate Decided(s: State, t: State, e: Entry) {
    && t.log == s.log + [e]
    && e.call in s.calls && Running(s.calls[e.call])
    && (t.calls == s.calls[e.call := Answered(e.allowed)] || (e.allowed && t.calls == s.calls[e.call := Failed]))
  }

  predicate LogsOne(s: State, t: State) {
    |t.log| == |s.log| + 1 && Decided(s, t, t.log[|s.log|])
  }

  lemma StepLogsAtMostOne(s: State, a: Action, cfg: Config, c: nat)
    ensures Silent(s, Step(s, a, cfg), c) || LogsOne(s, Step(s, a, cfg))
  {
  }

  lemma StepDecidesOnce(s: State, a: Action, cfg: Config, c: nat)
    requires DecidedOnce(s, c)
    ensures DecidedOnce(Step(s, a, cfg), c)
  {
    StepLogsAtMostOne(s, a, cfg, c);
    LoggedDecidesOnce(s, Step(s, a, cfg), c);
  }

  lemma LoggedDecidesOnce(s: State, t: State, c: nat)
    requires DecidedOnce(s, c) && (Silent(s, t, c) || LogsOne(s, t))
    ensures DecidedOnce(t, c)
  {
    if !Silent(s, t, c) {
      EntriesAppend(s.log, t.log[|s.log|], c);
    }
  }

  lemma {:induction false} RunDecidesOnce(s: State, actions: seq<Action>, cfg: Config, c: nat)
    requires DecidedOnce(s, c)
    ensures DecidedOnce(Run(s, actions, cfg), c)
    decreases |actions|
  {
    if actions != [] {
      StepDecidesOnce(s, actions[0], cfg, c);
      RunDecidesOnce(Step(s, actions[0], cfg), actions[1..], cfg, c);
    }
  }

  /** In every run, each answer the caller saw is that call's one entry in the log. */
  lemma AnswersAreLogged(actions: seq<Action>, cfg: Config, c: nat)
    ensures DecidedOnce(Run(Init, actions, cfg), c)
  {
    RunDecidesOnce(Init, actions, cfg, c);
  }
}
