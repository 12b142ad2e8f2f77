/** The slot protocol of the bounded publisher: callers, their background tasks and the
    broker, interleaved. An action that is not enabled changes nothing. */
module BoundedPublisher {

  datatype Result = Delivered | BrokerError | ContextError | CapacityError

  datatype Caller = Acquiring | Waiting | Returned(result: Result)

  /** The goroutine of one call; it sends its result before it releases its slot. */
  datatype Task = NotStarted | Started | InBroker | Sent(result: Result) | Released(result: Result)

  datatype Call = Call(caller: Caller, task: Task, canceled: bool)

  /** `invoked` lists broker invocations and `releases` slot releases, by call;
      `accepted` holds the calls whose message the broker took. */
  datatype State = State(free: int, calls: map<nat, Call>, invoked: seq<nat>, releases: seq<nat>, accepted: set<nat>)

  datatype Action =
    | Begin(c: nat)
    | Cancel(c: nat)
    | Acquire(c: nat)
    | GiveUp(c: nat)
    | Invoke(c: nat)
    | BrokerReturn(c: nat, ok: bool, taken: bool)
    | Release(c: nat)
    | Receive(c: nat)
    | StopWaiting(c: nat)

  function Init(limit: nat): State { State(limit, map[], [], [], {}) }

  function Next(s: State, c: nat, call: Call): State { s.(calls := s.calls[c := call]) }

  /** Invoke is the task's context check and, unless canceled, the broker call. */
  function Step(s: State, a: Action): State {
    if a.Begin? then (if a.c in s.calls then s else Next(s, a.c, Call(Acquiring, NotStarted, false)))
    else if a.c !in s.calls then s
    else
      var call := s.calls[a.c];
      match a
      case Begin(_) => s
      case Cancel(c) => Next(s, c, call.(canceled := true))
      case Acquire(c) =>
        if call.caller.Acquiring? && s.free > 0
        then Next(s, c, call.(caller := Waiting, task := Started)).(free := s.free - 1) else s
      case GiveUp(c) =>
        if call.caller.Acquiring? && call.canceled then Next(s, c, call.(caller := Returned(CapacityError))) else s
      case Invoke(c) =>
        if !call.task.Started? then s
        else if call.canceled then Next(s, c, call.(task := Sent(ContextError)))
        else Next(s, c, call.(task := InBroker)).(invoked := s.invoked + [c])
      case BrokerReturn(c, ok, taken) =>
        if !call.task.InBroker? then s
        else Next(s, c, call.(task := Sent(if ok then Delivered else BrokerError)))
             .(accepted := if ok || taken then s.accepted + {c} else s.accepted)
      case Release(c) =>
        if !call.task.Sent? then s
        else Next(s, c, call.(task := Released(call.task.result))).(free := s.free + 1, releases := s.releases + [c])
      case Receive(c) =>
        if call.caller.Waiting? && (call.task.Sent? || call.task.Released?)
        then Next(s, c, call.(caller := Returned(call.task.result))) else s
      case StopWaiting(c) =>
        if call.caller.Waiting? && call.canceled then Next(s, c, call.(caller := Returned(ContextError))) else s
  }

  function Run(s: State, actions: seq<Action>): State
    decreases |actions|
  {
    if actions == [] then s else Run(Step(s, actions[0]), actions[1..])
  }

  /** A background publish that has not released its slot yet. */
  predicate Unfinished(call: Call) { call.task.Started? || call.task.InBroker? || call.task.Sent? }

  function Occupied(s: State): set<nat> { set c | c in s.calls && Unfinished(s.calls[c]) }

  function ActiveBrokerCalls(s: State): set<nat> { set c | c in s.calls && s.calls[c].task.InBroker? }

  ghost predicate NoDuplicates(ids: seq<nat>) {
    forall i, j :: 0 <= i < j < |ids| ==> ids[i] != ids[j]
  }

  ghost predicate CallOk(s: State, c: nat)
    requires c in s.calls
  {
    var call := s.calls[c];
    && (call.caller.Acquiring? || call.caller == Returned(CapacityError) <==> call.task.NotStarted?)
    && ((call.task.Sent? || call.task.Released?) ==> call.task.result != CapacityError)
    && ((call.task.Sent? || call.task.Released?) && call.task.result == Delivered ==> c in s.accepted)
    && (call.caller == Returned(Delivered) ==> c in s.accepted)
    && (call.task.NotStarted? || call.task.Started? ==> c !in s.invoked)
    && (c in s.releases <==> call.task.Released?)
  }

  ghost predicate Inv(s: State, limit: nat) {
    && s.free >= 0 && s.free + |Occupied(s)| == limit
    && (forall c | c in s.calls :: CallOk(s, c))
    && (forall c | c in s.invoked || c in s.releases || c in s.accepted :: c in s.calls)
    && (forall c | c in s.accepted :: c in s.invoked)
    && (forall c | c in s.calls && s.calls[c].task.InBroker? :: c in s.invoked)
    && NoDuplicates(s.invoked) && NoDuplicates(s.releases)
  }

  lemma StepMovesSlots(s: State, a: Action)
    ensures var t := Step(s, a);
            Occupied(t) == if t.free < s.free then Occupied(s) + {a.c}
                           else if t.free > s.free then Occupied(s) - {a.c} else Occupied(s)
    ensures var t := Step(s, a);
            && (t.free < s.free ==> t.free == s.free - 1 && a.c in s.calls && s.calls[a.c].caller.Acquiring?)
            && (t.free > s.free ==> t.free == s.free + 1 && a.c in Occupied(s))
            && (s.free >= 0 ==> t.free >= 0)
  {
  }

  lemma StepKeepsCalls(s: State, a: Action, limit: nat, c: nat)
    requires Inv(s, limit) && c in Step(s, a).calls
    ensures CallOk(Step(s, a), c)
  {
    if c in s.calls {
      assert CallOk(s, c);
    }
  }

  lemma StepKeepsSlots(s: State, a: Action, limit: nat)
    requires s.free >= 0 && s.free + |Occupied(s)| == limit
    requires a.c in s.calls ==> CallOk(s, a.c)
    ensures Step(s, a).free >= 0 && Step(s, a).free + |Occupied(Step(s, a))| == limit
  {
    StepMovesSlots(s, a);
    assert a.c in s.calls && s.calls[a.c].caller.Acquiring? ==> a.c !in Occupied(s);
  }

  lemma StepKeepsLogs(s: State, a: Action, limit: nat)
    requires Inv(s, limit)
    ensures NoDuplicates(Step(s, a).invoked) && NoDuplicates(Step(s, a).releases)
  {
    if a.c in s.calls {
      assert CallOk(s, a.c);
    }
  }

  lemma StepKeepsInv(s: State, a: Action, limit: nat)
    requires Inv(s, limit)
    ensures Inv(Step(s, a), limit)
  {
    var t := Step(s, a);
    StepKeepsSlots(s, a, limit);
    StepKeepsLogs(s, a, limit);
    forall c | c in t.calls ensures CallOk(t, c) {
      StepKeepsCalls(s, a, limit, c);
    }
  }

  lemma {:induction false} RunKeepsInv(s: State, actions: seq<Action>, limit: nat)
    requires Inv(s, limit)
    ensures Inv(Run(s, actions), limit)
    decreases |actions|
  {
    if actions != [] {
      StepKeepsInv(s, actions[0], limit);
      RunKeepsInv(Step(s, actions[0]), actions[1..], limit);
    }
  }

  /** In every reachable state the free slots and the unfinished background publishes
      add up to the limit, and no more broker calls than that are active, also after
      callers stopped waiting. */
  lemma SlotsConserved(limit: nat, actions: seq<Action>)
    ensures var s := Run(Init(limit), actions);
            s.free + |Occupied(s)| == limit && |ActiveBrokerCalls(s)| <= limit
  {
    RunKeepsInv(Init(limit), actions, limit);
    var s := Run(Init(limit), actions);
    SubsetSize(ActiveBrokerCalls(s), Occupied(s));
  }

  lemma {:induction false} SubsetSize(a: set<nat>, b: set<nat>)
    requires a <= b
    ensures |a| <= |b|
  {
    assert b == a + (b - a);
  }

  /** Each acquired slot is released at most once, and exactly once when its task is done. */
  lemma ReleasedOnce(limit: nat, actions: seq<Action>, i: nat, j: nat, c: nat)
    ensures var s := Run(Init(limit), actions);
            && (i < j < |s.releases| ==> s.releases[i] != s.releases[j])
            && (c in s.releases <==> c in s.calls && s.calls[c].task.Released?)
  {
    RunKeepsInv(Init(limit), actions, limit);
    var s := Run(Init(limit), actions);
    assert c in s.calls ==> CallOk(s, c);
  }

  /** A nil result means the broker took the message. */
  lemma NilMeansAccepted(limit: nat, actions: seq<Action>, c: nat)
    requires var s := Run(Init(limit), actions); c in s.calls && s.calls[c].caller == Returned(Delivered)
    ensures c in Run(Init(limit), actions).accepted
  {
    RunKeepsInv(Init(limit), actions, limit);
    assert CallOk(Run(Init(limit), actions), c);
  }

  lemma StepKeepsGivenUp(s: State, a: Action, c: nat)
    requires c in s.calls && s.calls[c].caller == Returned(CapacityError) && s.calls[c].task.NotStarted?
    ensures var t := Step(s, a);
            c in t.calls && t.calls[c].caller == Returned(CapacityError) && t.calls[c].task.NotStarted?
  {
  }

  /** A capacity error means the broker is never called for that message, then or later. */
  lemma CapacityMeansNotCalled(limit: nat, before: seq<Action>, after: seq<Action>, c: nat)
    requires var s := Run(Init(limit), before); c in s.calls && s.calls[c].caller == Returned(CapacityError)
    ensures c !in Run(Run(Init(limit), before), after).invoked
    ensures c !in Run(Run(Init(limit), before), after).accepted
  {
    RunKeepsInv(Init(limit), before, limit);
    var s := Run(Init(limit), before);
    assert CallOk(s, c);
    RunKeepsGivenUp(s, after, c);
    RunKeepsInv(s, after, limit);
    assert CallOk(Run(s, after), c);
  }

  lemma {:induction false} RunKeepsGivenUp(s: State, actions: seq<Action>, c: nat)
    requires c in s.calls && s.calls[c].caller == Returned(CapacityError) && s.calls[c].task.NotStarted?
    ensures var t := Run(s, actions);
            c in t.calls && t.calls[c].caller == Returned(CapacityError) && t.calls[c].task.NotStarted?
    decreases |actions|
  {
    if actions != [] {
      StepKeepsGivenUp(s, actions[0], c);
      RunKeepsGivenUp(Step(s, actions[0]), actions[1..], c);
    }
  }

  /** No message reaches the broker twice through one call. */
  lemma InvokedOnce(limit: nat, actions: seq<Action>, i: nat, j: nat)
    requires i < j < |Run(Init(limit), actions).invoked|
    ensures var s := Run(Init(limit), actions); s.invoked[i] != s.invoked[j]
  {
    RunKeepsInv(Init(limit), actions, limit);
  }

  // ---- The caller's answer is the broker's ----

  /** Other calls' steps leave a call alone. */
  lemma {:induction false} OthersLeave(s: State, actions: seq<Action>, c: nat)
    requires c in s.calls && forall a | a in actions :: a.c != c
    ensures c in Run(s, actions).calls && Run(s, actions).calls[c] == s.calls[c]
    decreases |actions|
  {
    if actions != [] {
      assert actions[0] in actions && forall a | a in actions[1..] :: a in actions;
      OthersLeave(Step(s, actions[0]), actions[1..], c);
    }
  }

  /** While its caller waits, the broker's answer is the one the caller receives, with
      whatever other calls do in between. */
  lemma AnswerIsBrokers(s: State, c: nat, ok: bool, taken: bool, others: seq<Action>)
    requires c in s.calls && s.calls[c].caller.Waiting? && s.calls[c].task.InBroker?
    requires forall a | a in others :: a.c != c
    ensures var t := Step(Run(Step(s, BrokerReturn(c, ok, taken)), others), Receive(c));
            c in t.calls && t.calls[c].caller == Returned(if ok then Delivered else BrokerError)
  {
    OthersLeave(Step(s, BrokerReturn(c, ok, taken)), others, c);
  }

  /** The same when the slot is released before the caller receives. */
  lemma AnswerSurvivesRelease(s: State, c: nat, ok: bool, taken: bool, others: seq<Action>)
    requires c in s.calls && s.calls[c].caller.Waiting? && s.calls[c].task.InBroker?
    requires forall a | a in others :: a.c != c
    ensures var t := Step(Run(Step(Step(s, BrokerReturn(c, ok, taken)), Release(c)), others), Receive(c));
            c in t.calls && t.calls[c].caller == Returned(if ok then Delivered else BrokerError)
  {
    OthersLeave(Step(Step(s, BrokerReturn(c, ok, taken)), Release(c)), others, c);
  }

  predicate Answers(a: Action, c: nat, ok: bool) { a.BrokerReturn? && a.c == c && a.ok == ok }

  /** The call's task or caller has the broker's result. */
  predicate HasResult(s: State, c: nat, ok: bool) {
    && c in s.calls
    && var r := if ok then Delivered else BrokerError;
       || s.calls[c].caller == Returned(r)
       || ((s.calls[c].task.Sent? || s.calls[c].task.Released?) && s.calls[c].task.result == r)
  }

  lemma StepResult(s: State, a: Action, c: nat, ok: bool)
    requires HasResult(Step(s, a), c, ok)
    ensures HasResult(s, c, ok) || Answers(a, c, ok)
  {
  }

  lemma {:induction false} RunResult(s: State, actions: seq<Action>, c: nat, ok: bool)
    requires HasResult(Run(s, actions), c, ok) && !HasResult(s, c, ok)
    ensures exists a :: a in actions && Answers(a, c, ok)
    decreases |actions|
  {
    if actions != [] {
      if HasResult(Step(s, actions[0]), c, ok) {
        StepResult(s, actions[0], c, ok);
        assert actions[0] in actions;
      } else {
        RunResult(Step(s, actions[0]), actions[1..], c, ok);
        var a :| a in actions[1..] && Answers(a, c, ok);
        assert a in actions;
      }
    }
  }

  /** A broker error or a nil result was the broker's answer to this very call. */
  lemma ResultIsBrokers(limit: nat, actions: seq<Action>, c: nat, ok: bool)
    requires var s := Run(Init(limit), actions);
             c in s.calls && s.calls[c].caller == Returned(if ok then Delivered else BrokerError)
    ensures exists a :: a in actions && Answers(a, c, ok)
  {
    RunResult(Init(limit), actions, c, ok);
  }

  /** A context error or a capacity error needs a canceled context. */
  lemma ContextErrorsNeedCancel(limit: nat, actions: seq<Action>, c: nat)
    requires var s := Run(Init(limit), actions);
             c in s.calls && (s.calls[c].caller == Returned(ContextError) || s.calls[c].caller == Returned(CapacityError))
    ensures Cancel(c) in actions
  {
    RunCanceled(Init(limit), actions, limit, c);
  }

  predicate GaveUp(s: State, c: nat) {
    && c in s.calls
    && (s.calls[c].canceled
        || s.calls[c].caller == Returned(ContextError) || s.calls[c].caller == Returned(CapacityError)
        || ((s.calls[c].task.Sent? || s.calls[c].task.Released?) && s.calls[c].task.result.ContextError?))
  }

  lemma StepGivesUp(s: State, a: Action, c: nat)
    requires GaveUp(Step(s, a), c) && !GaveUp(s, c)
    requires c in s.calls ==> CallOk(s, c)
    ensures a == Cancel(c)
  {
  }

  lemma {:induction false} RunCanceled(s: State, actions: seq<Action>, limit: nat, c: nat)
    requires Inv(s, limit) && GaveUp(Run(s, actions), c) && !GaveUp(s, c)
    ensures Cancel(c) in actions
    decreases |actions|
  {
    if actions != [] {
      if GaveUp(Step(s, actions[0]), c) {
        StepGivesUp(s, actions[0], c);
      } else {
        StepKeepsInv(s, actions[0], limit);
        RunCanceled(Step(s, actions[0]), actions[1..], limit, c);
      }
    }
  }

  // ---- What a call does when nothing comes between ----

  function RunTo(s: State, c: nat, ok: bool, taken: bool): State {
    Run(s, [Begin(c), Acquire(c), Invoke(c), BrokerReturn(c, ok, taken), Receive(c), Release(c)])
  }

  lemma {:induction false} RunConcat(s: State, a: seq<Action>, b: seq<Action>)
    ensures Run(s, a + b) == Run(Run(s, a), b)
    decreases |a|
  {
    if a == [] {
      assert a + b == b;
    } else {
      assert (a + b)[1..] == a[1..] + b;
      RunConcat(Step(s, a[0]), a[1..], b);
    }
  }

  lemma RunThree(s: State, a: Action, b: Action, c: Action)
    ensures Run(s, [a, b, c]) == Step(Step(Step(s, a), b), c)
  {
    assert [a, b, c][1..] == [b, c] && [b, c][1..] == [c] && [c][1..] == [];
    var t := Step(s, a);
    var u := Step(t, b);
    var v := Step(u, c);
    assert Run(s, [a, b, c]) == Run(t, [b, c]) && Run(t, [b, c]) == Run(u, [c]) && Run(u, [c]) == Run(v, []) && Run(v, []) == v;
  }

  /** With a free slot, a call calls the broker once, returns its answer and gives its
      slot back. */
  lemma UndisturbedCall(s: State, c: nat, ok: bool, taken: bool)
    requires c !in s.calls && s.free > 0
    ensures var t := RunTo(s, c, ok, taken); var r := if ok then Delivered else BrokerError;
            && t.calls == s.calls[c := Call(Returned(r), Released(r), false)]
            && t.free == s.free && t.invoked == s.invoked + [c] && t.releases == s.releases + [c]
            && t.accepted == if ok || taken then s.accepted + {c} else s.accepted
  {
    var first, second := [Begin(c), Acquire(c), Invoke(c)], [BrokerReturn(c, ok, taken), Receive(c), Release(c)];
    assert first + second == [Begin(c), Acquire(c), Invoke(c), BrokerReturn(c, ok, taken), Receive(c), Release(c)];
    RunConcat(s, first, second);
    RunThree(s, first[0], first[1], first[2]);
    var mid := Run(s, first);
    assert mid.calls == s.calls[c := Call(Waiting, InBroker, false)] && mid.free == s.free - 1;
    RunThree(mid, second[0], second[1], second[2]);
  }

  /** Without a free slot a call waits; once canceled it returns the capacity error and
      nothing else changes. */
  lemma FullPublisherWaits(s: State, c: nat)
    requires c !in s.calls && s.free == 0
    ensures var waiting := Step(Step(s, Begin(c)), Acquire(c));
            && waiting == s.(calls := s.calls[c := Call(Acquiring, NotStarted, false)])
            && Step(Step(waiting, Cancel(c)), GiveUp(c))
               == s.(calls := s.calls[c := Call(Returned(CapacityError), NotStarted, true)])
  {
  }

  /** A call canceled while it waits returns the context error at once, but its slot stays
      occupied until the broker has answered; a task that has not called the broker yet
      does not call it any more. */
  lemma CanceledCallKeepsSlot(s: State, c: nat, ok: bool, taken: bool)
    requires c in s.calls && s.calls[c].caller.Waiting?
    ensures var t := Step(Step(s, Cancel(c)), StopWaiting(c));
            && t.calls[c] == Call(Returned(ContextError), s.calls[c].task, true) && t.free == s.free
            && (s.calls[c].task.InBroker? ==> Step(Step(t, BrokerReturn(c, ok, taken)), Release(c)).free == s.free + 1)
            && (s.calls[c].task.Started? ==>
                  var u := Step(t, Invoke(c));
                  u.invoked == s.invoked && u.calls[c].task == Sent(ContextError) && Step(u, Release(c)).free == s.free + 1)
  {
  }
}
