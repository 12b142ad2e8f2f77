/** The memcached store: any number of clients interleaving the steps of the
    compare-and-swap loop on one key. */
module Memcached {
  import opened Options
  import opened RateLimit
  import opened Gcra
  import opened MemcachedExpiry

  const MAX_ATTEMPTS := 16

  /** interval and ttl in nanoseconds, as the retention guard lets them through. */
  datatype Settings = Settings(interval: int, burst: int, ttl: int)

  type Config = c: Settings | c.interval > 0 && c.burst > 0 && c.interval * c.burst <= c.ttl
    witness Settings(1, 1, 1)

  function Unit(cfg: Config): (micros: int)
    ensures micros > 0
  {
    Micros(cfg.interval)
  }

  /** The stored item; `written` is the sample its writer used. */
  datatype Item = Item(tat: int, token: nat, deadline: int, written: int)

  datatype Call =
    | Looping(attempt: nat)
    | Sampled(attempt: nat, now: int)
    | Missed(attempt: nat, now: int)
    | Read(attempt: nat, now: int, tat: int, token: nat)
    | Answered(allowed: bool)
    | Failed

  /** One decision of the limiter, in commit order. */
  datatype Entry = Entry(call: nat, now: int, allowed: bool)

  /** The server keeps its last item and hides it after the deadline. */
  datatype State = State(clock: int, item: Option<Item>, tokens: nat, calls: map<nat, Call>, log: seq<Entry>)

  datatype Fault = Fine | Lost | Applied

  datatype Action =
    | Tick(elapsed: nat)
    | Begin(c: nat)
    | Cancel(c: nat)
    | Sample(c: nat)
    | Get(c: nat, fault: Fault)
    | Add(c: nat, fault: Fault)
    | CompareAndSwap(c: nat, fault: Fault)

  predicate Visible(s: State) {
    s.item.Some? && !Hidden(s.item.value.deadline, s.clock)
  }

  function Next(s: State, c: nat, call: Call): State {
    s.(calls := s.calls[c := call])
  }

  function Retry(attempt: nat): Call {
    if attempt + 1 < MAX_ATTEMPTS then Looping(attempt + 1) else Failed
  }

  /** A store by call c that took effect. */
  function Stored(s: State, c: nat, tat: int, now: int, expiration: int, fault: Fault): State {
    State(s.clock, Some(Item(tat, s.tokens, Deadline(expiration, s.clock), now)), s.tokens + 1,
          s.calls[c := if fault.Fine? then Answered(true) else Failed],
          s.log + [Entry(c, now, true)])
  }

  function Sampling(s: State, c: nat, cfg: Config): State {
    if c !in s.calls || !s.calls[c].Looping? then s
    else if Expiration(s.clock, cfg.ttl, 1).None? then Next(s, c, Failed)
    else Next(s, c, Sampled(s.calls[c].attempt, s.clock))
  }

  function Getting(s: State, c: nat, cfg: Config, fault: Fault): State {
    if c !in s.calls || !s.calls[c].Sampled? then s else
    var Sampled(attempt, now) := s.calls[c];
    if !fault.Fine? then Next(s, c, Failed)
    else if !Visible(s) then Next(s, c, Missed(attempt, now))
    else if Allows(Some(s.item.value.tat), now, Unit(cfg), cfg.burst)
    then Next(s, c, Read(attempt, now, s.item.value.tat, s.item.value.token))
    else Next(s, c, Answered(false)).(log := s.log + [Entry(c, now, false)])
  }

  function Adding(s: State, c: nat, cfg: Config, fault: Fault): State
  {
    if c !in s.calls || !s.calls[c].Missed? then s else
    var Missed(attempt, now) := s.calls[c];
    var expiration := Expiration(now, cfg.ttl, 1);
    if fault.Lost? || expiration.None? then Next(s, c, Failed)
    else if Visible(s) then Next(s, c, if fault.Fine? then Retry(attempt) else Failed)
    else Stored(s, c, now + Unit(cfg), now, expiration.value, fault)
  }

  /** A swap on a vanished item is an error the loop does not retry. */
  function Swapping(s: State, c: nat, cfg: Config, fault: Fault): State
  {
    if c !in s.calls || !s.calls[c].Read? then s else
    var Read(attempt, now, tat, token) := s.calls[c];
    var expiration := Expiration(now, cfg.ttl, 1);
    if fault.Lost? || expiration.None? || !Visible(s) then Next(s, c, Failed)
    else if s.item.value.token != token then Next(s, c, if fault.Fine? then Retry(attempt) else Failed)
    else Stored(s, c, Effective(Some(tat), now) + Unit(cfg), now, expiration.value, fault)
  }

  function Step(s: State, a: Action, cfg: Config): State
  {
    match a
    case Tick(elapsed) => s.(clock := s.clock + elapsed)
    case Begin(c) => if c in s.calls then s else Next(s, c, Looping(0))
    case Cancel(c) => if c in s.calls && s.calls[c].Looping? then Next(s, c, Failed) else s
    case Sample(c) => Sampling(s, c, cfg)
    case Get(c, fault) => Getting(s, c, cfg, fault)
    case Add(c, fault) => Adding(s, c, cfg, fault)
    case CompareAndSwap(c, fault) => Swapping(s, c, cfg, fault)
  }

  function Run(s: State, actions: seq<Action>, cfg: Config): State
    decreases |actions|
  {
    if actions == [] then s else Run(Step(s, actions[0], cfg), actions[1..], cfg)
  }

  const Init := State(0, None, 0, map[], [])

  function Times(log: seq<Entry>): seq<int> { seq(|log|, i requires 0 <= i < |log| => log[i].now) }

  function Decisions(log: seq<Entry>): seq<bool> { seq(|log|, i requires 0 <= i < |log| => log[i].allowed) }

  function Remembered(s: State, cfg: Config): Option<int>
  {
    Memory(Times(s.log), Unit(cfg), cfg.burst)
  }

  /** The step stores over an item that has vanished. */
  predicate Replaces(s: State, a: Action) {
    a.Add? && a.c in s.calls && s.calls[a.c].Missed? && !a.fault.Lost? && s.item.Some? && !Visible(s)
  }

  /** The vanished item's time had passed at the sample of the add that replaces it. */
  predicate Timely(s: State, a: Action) {
    Replaces(s, a) ==> s.item.value.tat <= s.calls[a.c].now
  }

  predicate AllTimely(s: State, actions: seq<Action>, cfg: Config)
    decreases |actions|
  {
    actions != [] ==> Timely(s, actions[0]) && AllTimely(Step(s, actions[0], cfg), actions[1..], cfg)
  }

  predicate Running(call: Call) {
    call.Looping? || call.Sampled? || call.Missed? || call.Read?
  }

  /** What a call read is still the item's value while the token matches. */
  predicate CallOk(s: State, call: Call, cfg: Config) {
    && (Running(call) ==> call.attempt < MAX_ATTEMPTS)
    && (Running(call) && !call.Looping? ==>
          0 <= call.now <= s.clock && Expiration(call.now, cfg.ttl, 1).Some?)
    && (call.Read? ==>
          && call.token < s.tokens
          && Allows(Some(call.tat), call.now, Unit(cfg), cfg.burst)
          && (s.item.Some? && s.item.value.token == call.token ==> s.item.value.tat == call.tat))
  }

  ghost predicate Faithful(s: State, cfg: Config) {
    && Remembered(s, cfg) == (if s.item.None? then None else Some(s.item.value.tat))
    && Decisions(s.log) == Decide(Times(s.log), Unit(cfg), cfg.burst)
  }

  ghost predicate CallsOk(s: State, cfg: Config) {
    && s.clock >= 0
    && (s.item.Some? ==> s.item.value.token < s.tokens)
    && (forall c | c in s.calls :: CallOk(s, s.calls[c], cfg))
  }

  lemma Logged(log: seq<Entry>, e: Entry, interval: int, burst: int)
    ensures Times(log + [e]) == Times(log) + [e.now]
    ensures Memory(Times(log + [e]), interval, burst) == After(Memory(Times(log), interval, burst), e.now, interval, burst)
    ensures Decisions(log + [e]) == Decide(Times(log + [e]), interval, burst)
            <==> Decisions(log) == Decide(Times(log), interval, burst)
                 && e.allowed == Allows(Memory(Times(log), interval, burst), e.now, interval, burst)
  {
    var times := Times(log + [e]);
    assert times[..|log|] == Times(log);
    assert Decisions(log + [e]) == Decisions(log) + [e.allowed];
    var decided := Decide(times, interval, burst);
    assert decided[..|log|] == Decide(Times(log), interval, burst);
    assert Decisions(log + [e])[..|log|] == Decisions(log);
  }

  lemma StepKeepsCalls(s: State, a: Action, cfg: Config)
    requires CallsOk(s, cfg)
    ensures CallsOk(Step(s, a, cfg), cfg)
  {
  }

  /** A store that writes what a store that never forgets would write. */
  lemma StoreKeepsFaithful(s: State, c: nat, tat: int, now: int, expiration: int, fault: Fault, cfg: Config)
    requires Faithful(s, cfg) && Allows(Remembered(s, cfg), now, Unit(cfg), cfg.burst)
    requires tat == Effective(Remembered(s, cfg), now) + Unit(cfg)
    ensures Faithful(Stored(s, c, tat, now, expiration, fault), cfg)
  {
    Logged(s.log, Entry(c, now, true), Unit(cfg), cfg.burst);
  }

  lemma GetKeepsFaithful(s: State, c: nat, fault: Fault, cfg: Config)
    requires Faithful(s, cfg)
    ensures Faithful(Getting(s, c, cfg, fault), cfg)
  {
    if |Getting(s, c, cfg, fault).log| > |s.log| {
      Logged(s.log, Entry(c, s.calls[c].now, false), Unit(cfg), cfg.burst);
    }
  }

  /** The linearization point of a decision is its get (denied) or its store (allowed). */
  lemma StepKeepsFaithful(s: State, a: Action, cfg: Config)
    requires CallsOk(s, cfg) && Faithful(s, cfg) && Timely(s, a)
    ensures Faithful(Step(s, a, cfg), cfg)
  {
    MulMono(0, cfg.burst - 1, Unit(cfg));
    if a.Get? {
      GetKeepsFaithful(s, a.c, a.fault, cfg);
    } else if |Step(s, a, cfg).log| > |s.log| {
      var now := s.calls[a.c].now;
      assert CallOk(s, s.calls[a.c], cfg);
      StoreKeepsFaithful(s, a.c, Effective(Remembered(s, cfg), now) + Unit(cfg), now,
                         Expiration(now, cfg.ttl, 1).value, a.fault, cfg);
    }
  }

  /** An add over a vanished item that is not timely breaks the correspondence. */
  lemma LateAddIsUnfaithful(s: State, a: Action, cfg: Config)
    requires CallsOk(s, cfg) && Faithful(s, cfg) && !Timely(s, a)
    ensures !Faithful(Step(s, a, cfg), cfg)
  {
    assert CallOk(s, s.calls[a.c], cfg);
    var t := Step(s, a, cfg);
    Logged(s.log, t.log[|s.log|], Unit(cfg), cfg.burst);
  }

  /** Faithful now and after every further step. */
  ghost predicate AlwaysFaithful(s: State, actions: seq<Action>, cfg: Config)
    decreases |actions|
  {
    Faithful(s, cfg) && (actions != [] ==> AlwaysFaithful(Step(s, actions[0], cfg), actions[1..], cfg))
  }

  /** A run follows the sequential one at every step iff each add that replaces a
      vanished item is timely. */
  lemma {:induction false} RunFaithfulIff(s: State, actions: seq<Action>, cfg: Config)
    requires CallsOk(s, cfg) && Faithful(s, cfg)
    ensures AlwaysFaithful(s, actions, cfg) <==> AllTimely(s, actions, cfg)
    decreases |actions|
  {
    if actions != [] {
      StepKeepsCalls(s, actions[0], cfg);
      if Timely(s, actions[0]) {
        StepKeepsFaithful(s, actions[0], cfg);
        RunFaithfulIff(Step(s, actions[0], cfg), actions[1..], cfg);
      } else {
        LateAddIsUnfaithful(s, actions[0], cfg);
      }
    }
  }

  lemma {:induction false} FaithfulAtTheEnd(s: State, actions: seq<Action>, cfg: Config)
    requires AlwaysFaithful(s, actions, cfg)
    ensures Faithful(Run(s, actions, cfg), cfg)
    decreases |actions|
  {
    if actions != [] {
      FaithfulAtTheEnd(Step(s, actions[0], cfg), actions[1..], cfg);
    }
  }
}
