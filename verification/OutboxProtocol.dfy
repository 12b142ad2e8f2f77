/** The outbox end to end: producers, concurrent publisher workers, the broker, the
    history consumer and the cleaner, interleaved. An action that is not enabled
    changes nothing, so every list of actions is a run. */
module OutboxProtocol {
  import opened Options
  import opened Outbox
  import opened AuthEvents

  /** One worker's open transaction: its locked batch and the attempts made so far. */
  datatype Work = Work(batch: seq<Message>, attempts: seq<Attempt>)

  datatype Cleanup = Cleanup(before: int, ids: set<nat>)

  /** `late` holds broker calls that outlived their caller or its transaction; `enqueued` and `removed`
      remember every message ever enqueued and every row the cleaner deleted. */
  datatype State = State(
    rows: Rows,
    works: map<nat, Work>,
    cleanups: map<nat, Cleanup>,
    broker: seq<Event>,
    late: set<Event>,
    history: seq<Record>,
    enqueued: map<nat, Event>,
    removed: set<nat>)

  datatype Action =
    | Enqueue(event: Event, topic: string)
    | Select(w: nat, batch: seq<Message>, limit: nat, now: int)
    | Publish(w: nat, attempt: Attempt, accepted: bool)
    | LateAccept(event: Event)
    | Finish(w: nat, savedAt: int, fault: Fault)
    | Abandon(w: nat)
    | Deliver(k: nat, fault: Fault)
    | CleanSelect(c: nat, before: int, ids: set<nat>)
    | CleanDelete(c: nat)

  const Init := State(map[], map[], map[], [], {}, [], map[], {})

  /** What the outbox service validates before it stores a message; the ID and the
      creation time are generated. */
  predicate Valid(e: Event) {
    e.id != 0 && e.createdAt != 0 && e.aggregate >= 1 && 3 <= |e.kind| <= 100
  }

  predicate Holds(w: Work, id: nat) { Lists(w.batch, id) }

  /** Row locks of all open publisher transactions. */
  ghost predicate IsLocked(s: State, id: nat) {
    exists w | w in s.works :: Holds(s.works[w], id)
  }

  ghost function LockedIds(s: State): set<nat> {
    set id | id in s.rows && IsLocked(s, id)
  }

  /** The committed transaction of a producer. */
  function Enqueued(s: State, e: Event, topic: string): State {
    if !Valid(e) || e.id in s.enqueued then s
    else s.(rows := s.rows[e.id := Message(e, topic, None, None, Pending, 0, "")],
            enqueued := s.enqueued[e.id := e])
  }

  /** The locking query skips the rows other workers hold. */
  ghost function Selected(s: State, w: nat, batch: seq<Message>, limit: nat, now: int): State {
    if w in s.works || !IsBatch(batch, s.rows, LockedIds(s), now, limit) then s
    else s.(works := s.works[w := Work(batch, [])])
  }

  /** The loop still has a message to publish and was not told to stop. */
  predicate Going(w: Work) {
    |w.attempts| < |w.batch| && PlanFrom(w.attempts, 0, |w.attempts|) == Commit(|w.attempts|)
    && (w.attempts != [] ==> !Stops(w.attempts[|w.attempts| - 1]))
  }

  predicate Stops(a: Attempt) {
    a.outcome.Refused? && (a.outcome.capacity || a.outcome.deadline)
  }

  /** One publish. An accepted outcome means the broker took the event; without a slot
      it was never called; any other error leaves it open whether the broker took it,
      and a call that timed out may still be taken later. */
  function Published(s: State, w: nat, a: Attempt, accepted: bool): State {
    if w !in s.works || !Going(s.works[w]) then s else
    var work := s.works[w];
    var e := work.batch[|work.attempts|].event;
    var called := a.marshals && !(a.outcome.Refused? && a.outcome.capacity);
    var taken := called && (a.outcome.Accepted? || accepted);
    s.(works := s.works[w := work.(attempts := work.attempts + [a])],
       broker := if taken then s.broker + [e] else s.broker,
       late := if called && !taken then s.late + {e} else s.late)
  }

  function LateAccepted(s: State, e: Event): State {
    if e !in s.late then s else s.(broker := s.broker + [e], late := s.late - {e})
  }

  /** The rows after the first n messages of a batch are saved. */
  function SettledRows(cfg: Settings, rows: Rows, batch: seq<Message>, attempts: seq<Attempt>, n: nat, savedAt: int): Rows
    requires n <= |batch| && n <= |attempts|
  {
    if n == 0 then rows
    else SettledRows(cfg, rows, batch, attempts, n - 1, savedAt)
           [batch[n - 1].event.id := NewRow(cfg, batch[n - 1], attempts[n - 1], savedAt)]
  }

  function Unlocked(s: State, w: nat): State { s.(works := s.works - {w}) }

  /** The transaction is lost and its locks with it, but its worker goes on publishing the
      copies it holds until its next check: each of them may still reach the broker. */
  function Abandoned(s: State, w: nat): State {
    if w !in s.works then s else
    var work := s.works[w];
    Unlocked(s, w).(late := s.late + set i | |work.attempts| <= i < |work.batch| :: work.batch[i].event)
  }

  /** Save and commit the handled prefix, releasing the locks. */
  function Finished(s: State, w: nat, savedAt: int, fault: Fault, cfg: Settings): State {
    if w !in s.works then s else
    var work := s.works[w];
    if |work.attempts| > |work.batch| then s else
    var plan := PlanFrom(work.attempts, 0, |work.attempts|);
    if plan.Abort? || fault == Lost then Unlocked(s, w)
    else if Going(work) then s
    else Unlocked(s, w).(rows := SettledRows(cfg, s.rows, work.batch, work.attempts, plan.handled, savedAt))
  }

  /** The consumer handles any broker entry any number of times; the insert ignores an
      ID that is already there. */
  function Delivered(s: State, k: nat, fault: Fault): State {
    if k >= |s.broker| || fault == Lost || !Complete(s.broker[k]) then s else
    s.(history := Inserted(s.history, RecordOf(s.broker[k])))
  }

  /** The batch is whichever of the candidates the select matches. */
  function CleanSelected(s: State, c: nat, before: int, ids: set<nat>): State {
    if c in s.cleanups then s
    else s.(cleanups := s.cleanups[c := Cleanup(before, Removable(s.rows, ids, before))])
  }

  function Cleaned(s: State, c: nat): State {
    if c !in s.cleanups then s else
    var gone := Removable(s.rows, s.cleanups[c].ids, s.cleanups[c].before);
    s.(rows := s.rows - gone, removed := s.removed + gone, cleanups := s.cleanups - {c})
  }

  ghost function Step(s: State, a: Action, cfg: Settings): State {
    match a
    case Enqueue(e, topic) => Enqueued(s, e, topic)
    case Select(w, batch, limit, now) => Selected(s, w, batch, limit, now)
    case Publish(w, attempt, accepted) => Published(s, w, attempt, accepted)
    case LateAccept(e) => LateAccepted(s, e)
    case Finish(w, savedAt, fault) => Finished(s, w, savedAt, fault, cfg)
    case Abandon(w) => Abandoned(s, w)
    case Deliver(k, fault) => Delivered(s, k, fault)
    case CleanSelect(c, before, ids) => CleanSelected(s, c, before, ids)
    case CleanDelete(c) => Cleaned(s, c)
  }

  ghost function Run(s: State, actions: seq<Action>, cfg: Settings): State
    decreases |actions|
  {
    if actions == [] then s else Run(Step(s, actions[0], cfg), actions[1..], cfg)
  }

  // ---- The invariant ----

  /** Every row is the message its producer enqueued, and a processed one is at the broker. */
  ghost predicate RowOk(s: State, id: nat)
    requires id in s.rows
  {
    && id in s.enqueued && s.rows[id].event == s.enqueued[id] && s.enqueued[id].id == id
    && (s.rows[id].status == Processed ==> s.rows[id].event in s.broker)
  }

  ghost predicate Tables(s: State) {
    && (forall id | id in s.rows :: RowOk(s, id))
    && (forall id | id in s.enqueued :: s.enqueued[id].id == id && Valid(s.enqueued[id]) && (id in s.rows || id in s.removed))
    && (forall id | id in s.removed :: id in s.enqueued && s.enqueued[id] in s.broker)
    && (forall e | e in s.broker || e in s.late :: e.id in s.enqueued && s.enqueued[e.id] == e)
  }

  /** A worker's copies are the locked, still pending rows; what it counted as accepted
      is at the broker. */
  ghost predicate WorkOk(s: State, w: Work) {
    && |w.attempts| <= |w.batch|
    && (forall i | 0 <= i < |w.batch| ::
          var id := w.batch[i].event.id; id in s.rows && s.rows[id] == w.batch[i] && w.batch[i].status == Pending)
    && Distinct(w.batch)
    && (forall i | 0 <= i < |w.attempts| && w.attempts[i].marshals && w.attempts[i].outcome.Accepted? ::
          w.batch[i].event in s.broker)
  }

  ghost predicate Works(s: State) {
    && (forall w | w in s.works :: WorkOk(s, s.works[w]))
    && (forall v, w, id | v in s.works && w in s.works && Holds(s.works[v], id) && Holds(s.works[w], id) :: v == w)
  }

  ghost predicate HistoryOk(s: State) {
    && (forall r | r in s.history :: r.id in s.enqueued && r == RecordOf(s.enqueued[r.id]))
    && OncePerEvent(s.history)
  }

  ghost predicate Inv(s: State) { Tables(s) && Works(s) && HistoryOk(s) }
}
