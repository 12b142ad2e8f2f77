/** Progress of committed publisher runs. */
module OutboxDrain {
  import opened Options
  import opened Backoff
  import opened Outbox

  ghost function DueIds(rows: Rows, now: int): set<nat> {
    set id | id in rows && Due(rows[id], now)
  }

  ghost function Handled(batch: seq<Message>, n: nat): set<nat>
    requires n <= |batch|
  {
    set i | 0 <= i < n :: batch[i].event.id
  }

  lemma {:induction false} HandledSize(batch: seq<Message>, n: nat)
    requires n <= |batch| && Distinct(batch)
    ensures |Handled(batch, n)| == n
  {
    if n > 0 {
      HandledSize(batch, n - 1);
      assert batch[n - 1].event.id !in Handled(batch, n - 1);
      assert Handled(batch, n) == Handled(batch, n - 1) + {batch[n - 1].event.id};
    }
  }

  /** The attempt number that a failure of this message gets. */
  function Count(m: Message): int {
    if m.retryCount < MAX_INT32 then m.retryCount + 1 else m.retryCount
  }

  predicate Transient(a: Attempt) { a.outcome.Refused? && !a.outcome.permanent }

  predicate Jitters(a: Attempt) { 0.0 <= a.jitter < 1.0 }

  /** The delay before jitter is at least 2 ns. */
  predicate BacksOff(cfg: Settings, m: Message) {
    Capped(cfg.initial, cfg.maximum, Count(m)) >= 2
  }

  lemma CappedPositive(cfg: Settings, attempt: int)
    requires Positive(cfg)
    ensures Capped(cfg.initial, cfg.maximum, attempt) >= Min(cfg.initial, cfg.maximum) >= 1
  {
    CappedMonotone(cfg.initial, cfg.maximum, 1, if attempt < 1 then 1 else attempt);
  }

  /** A transient failure is next due after the attempt iff its delay is at least 2 ns,
      whatever the jitter. */
  lemma RetryIsLaterIff(cfg: Settings, m: Message, a: Attempt)
    requires Positive(cfg) && Transient(a) && Jitters(a)
    ensures FailedRow(cfg, m, a).nextAttempt.Some? && FailedRow(cfg, m, a).nextAttempt.value >= a.at
    ensures FailedRow(cfg, m, a).nextAttempt.value > a.at <==> BacksOff(cfg, m)
  {
    CappedPositive(cfg, Count(m));
    JitterRange(Capped(cfg.initial, cfg.maximum, Count(m)), a.jitter);
  }

  /** So every retry is later iff both settings are at least 2 ns. */
  lemma EveryRetryIsLaterIff(cfg: Settings)
    requires Positive(cfg)
    ensures (forall n: Message, f: Attempt | Transient(f) && Jitters(f) :: FailedRow(cfg, n, f).nextAttempt.value > f.at)
            <==> Usable(cfg)
  {
    if Usable(cfg) {
      forall n: Message, f: Attempt | Transient(f) && Jitters(f)
        ensures FailedRow(cfg, n, f).nextAttempt.value > f.at
      {
        UsableBacksOff(cfg, n);
        RetryIsLaterIff(cfg, n, f);
      }
    } else {
      var first := Message(Event(1, 1, 1, "kind", []), "topic", None, None, Pending, 0, "");
      var timeout := Attempt(true, Refused(false, false, true, "timeout"), false, 0, 0.0);
      RetryIsLaterIff(cfg, first, timeout);
    }
  }

  /** The handled message is no longer due: it is settled, or its retry backs off or was
      scheduled after that time. */
  predicate Leaves(cfg: Settings, m: Message, a: Attempt, now: int) {
    Transient(a) ==> a.at > now || BacksOff(cfg, m)
  }

  lemma NewRowIsDueIff(cfg: Settings, m: Message, a: Attempt, now: int, savedAt: int)
    requires Positive(cfg) && m.status == Pending && a.at >= now && Jitters(a)
    ensures Due(NewRow(cfg, m, a, savedAt), now) <==> !Leaves(cfg, m, a, now)
  {
    if Transient(a) {
      RetryIsLaterIff(cfg, m, a);
    }
  }

  lemma HandledWereDue(rows: Rows, batch: seq<Message>, n: nat, locked: set<nat>, now: int, limit: nat)
    requires WellKeyed(rows) && IsBatch(batch, rows, locked, now, limit) && n <= |batch|
    ensures Distinct(batch) && Handled(batch, n) <= DueIds(rows, now)
  {
    BatchRows(batch, rows, locked, now, limit);
    forall i | 0 <= i < n ensures batch[i].event.id in DueIds(rows, now) {
      assert rows[batch[i].event.id] == batch[i];
    }
  }

  /** The handled messages that are no longer due. */
  ghost function Drained(cfg: Settings, batch: seq<Message>, attempts: seq<Attempt>, n: nat, now: int): set<nat>
    requires n <= |batch| && n <= |attempts|
  {
    set i | 0 <= i < n && Leaves(cfg, batch[i], attempts[i], now) :: batch[i].event.id
  }

  /** A committed run over a batch, none of whose attempts read a clock behind `now`. */
  ghost predicate Committed(
      cfg: Settings, rows: Rows, after: Rows, batch: seq<Message>, attempts: seq<Attempt>, n: nat, now: int, savedAt: int)
  {
    && n <= |batch| && n <= |attempts|
    && Settled(cfg, rows, after, batch, attempts, n, savedAt)
    && forall i | 0 <= i < n :: attempts[i].at >= now && Jitters(attempts[i])
  }

  /** A row is due after a commit iff it was before and the run did not drain it. */
  lemma DueAfterCommit(
      cfg: Settings, rows: Rows, after: Rows, batch: seq<Message>, attempts: seq<Attempt>,
      n: nat, now: int, savedAt: int, id: nat)
    requires Positive(cfg) && Committed(cfg, rows, after, batch, attempts, n, now, savedAt)
    requires Distinct(batch) && forall i | 0 <= i < n :: batch[i].event.id in rows && rows[batch[i].event.id] == batch[i]
    requires Handled(batch, n) <= DueIds(rows, now) && id in rows
    ensures Due(after[id], now) <==> Due(rows[id], now) && id !in Drained(cfg, batch, attempts, n, now)
  {
    if id in Handled(batch, n) {
      var i :| 0 <= i < n && batch[i].event.id == id;
      assert id in DueIds(rows, now);
      NewRowIsDueIff(cfg, batch[i], attempts[i], now, savedAt);
      assert forall j | 0 <= j < n && batch[j].event.id == id :: j == i;
    } else {
      assert forall i | 0 <= i < n :: batch[i].event.id in Handled(batch, n);
    }
  }

  /** At a fixed time, a run that commits n handled messages takes out of the due rows
      exactly those that leave; every other row is as due as before. */
  lemma CommittedRunDrains(
      cfg: Settings, rows: Rows, after: Rows, batch: seq<Message>, attempts: seq<Attempt>,
      n: nat, locked: set<nat>, now: int, limit: nat, savedAt: int)
    requires Positive(cfg) && WellKeyed(rows) && IsBatch(batch, rows, locked, now, limit)
    requires Committed(cfg, rows, after, batch, attempts, n, now, savedAt)
    ensures Drained(cfg, batch, attempts, n, now) <= DueIds(rows, now)
    ensures DueIds(after, now) == DueIds(rows, now) - Drained(cfg, batch, attempts, n, now)
  {
    HandledWereDue(rows, batch, n, locked, now, limit);
    assert Drained(cfg, batch, attempts, n, now) <= Handled(batch, n);
    forall id | id in rows
      ensures Due(after[id], now) <==> Due(rows[id], now) && id !in Drained(cfg, batch, attempts, n, now)
    {
      DueAfterCommit(cfg, rows, after, batch, attempts, n, now, savedAt, id);
    }
    DueMinus(rows, after, Drained(cfg, batch, attempts, n, now), now);
  }

  lemma DueMinus(rows: Rows, after: Rows, gone: set<nat>, now: int)
    requires after.Keys == rows.Keys && gone <= DueIds(rows, now)
    requires forall id | id in rows :: Due(after[id], now) <==> Due(rows[id], now) && id !in gone
    ensures DueIds(after, now) == DueIds(rows, now) - gone
  {
  }

  lemma DrainedSize(cfg: Settings, batch: seq<Message>, attempts: seq<Attempt>, n: nat, now: int)
    requires n <= |batch| && n <= |attempts| && Distinct(batch)
    ensures |Drained(cfg, batch, attempts, n, now)| <= n
    ensures |Drained(cfg, batch, attempts, n, now)| == n <==> forall i | 0 <= i < n :: Leaves(cfg, batch[i], attempts[i], now)
  {
    var drained, handled := Drained(cfg, batch, attempts, n, now), Handled(batch, n);
    HandledSize(batch, n);
    SubsetSizes(drained, handled);
    forall i | 0 <= i < n ensures batch[i].event.id in drained <==> Leaves(cfg, batch[i], attempts[i], now) {
      assert forall j | 0 <= j < n && batch[j].event.id == batch[i].event.id :: j == i;
    }
    if drained == handled {
      assert forall i | 0 <= i < n :: batch[i].event.id in handled;
    }
  }

  lemma SubsetSizes(a: set<nat>, b: set<nat>)
    requires a <= b
    ensures |a| <= |b| && (|a| == |b| <==> a == b)
  {
    assert b == a + (b - a);
  }

  /** The number of due rows drops by exactly processed plus failed iff every handled
      message leaves - so always, when both settings are at least 2 ns. */
  lemma DrainsAllIff(
      cfg: Settings, rows: Rows, after: Rows, batch: seq<Message>, attempts: seq<Attempt>,
      n: nat, locked: set<nat>, now: int, limit: nat, savedAt: int)
    requires Positive(cfg) && WellKeyed(rows) && IsBatch(batch, rows, locked, now, limit)
    requires Committed(cfg, rows, after, batch, attempts, n, now, savedAt)
    ensures |DueIds(after, now)| == |DueIds(rows, now)| - n
            <==> forall i | 0 <= i < n :: Leaves(cfg, batch[i], attempts[i], now)
    ensures Usable(cfg) ==> |DueIds(after, now)| == |DueIds(rows, now)| - n
  {
    CommittedRunDrains(cfg, rows, after, batch, attempts, n, locked, now, limit, savedAt);
    HandledWereDue(rows, batch, n, locked, now, limit);
    DrainedSize(cfg, batch, attempts, n, now);
    if Usable(cfg) {
      forall i | 0 <= i < n ensures Leaves(cfg, batch[i], attempts[i], now) {
        UsableBacksOff(cfg, batch[i]);
      }
    }
  }

  lemma UsableBacksOff(cfg: Settings, m: Message)
    requires Usable(cfg)
    ensures BacksOff(cfg, m)
  {
    CappedPositive(cfg, Count(m));
  }
}
