/** The transactional outbox table, and one publisher run over it. */
module Outbox {
  import opened Options
  import opened RateLimit
  import opened Backoff
  import opened OldestFirst

  const MAX_INT32 := 0x7FFF_FFFF

  datatype Status = Pending | Processed | Failed

  /** What the broker and the consumers see of a message. */
  datatype Event = Event(id: nat, createdAt: int, aggregate: int, kind: string, payload: seq<int>)

  datatype Message = Message(
    event: Event,
    topic: string,
    processedAt: Option<int>,
    nextAttempt: Option<int>,
    status: Status,
    retryCount: int,
    lastError: string)

  type Rows = map<nat, Message>

  /** How the bounded publisher ended; one error can carry several marks. */
  datatype Outcome = Accepted | Refused(capacity: bool, permanent: bool, deadline: bool, text: string)

  /** One pass of the publish loop: whether the event marshals, how publishing ended,
      whether the transaction's context was canceled by then, the clock and the jitter. */
  datatype Attempt = Attempt(marshals: bool, outcome: Outcome, canceled: bool, at: int, jitter: real)

  datatype Settings = Settings(initial: int, maximum: int)

  /** What the configuration enforces. */
  predicate Positive(cfg: Settings) {
    0 < cfg.initial <= MAX_INT64 && 0 < cfg.maximum <= MAX_INT64
  }

  predicate Usable(cfg: Settings) {
    2 <= cfg.initial <= MAX_INT64 && 2 <= cfg.maximum <= MAX_INT64
  }

  predicate Due(m: Message, now: int) {
    m.status == Pending && (m.nextAttempt.None? || m.nextAttempt.value <= now)
  }

  /** Past retention. */
  predicate Eligible(m: Message, before: int) {
    m.status == Processed && m.processedAt.Some? && m.processedAt.value < before
  }

  /** The rows of a selection that a cleanup delete still matches. */
  function Removable(rows: Rows, ids: set<nat>, before: int): set<nat> {
    set id | id in ids && id in rows && Eligible(rows[id], before)
  }

  function ProcessedRow(m: Message, savedAt: int): Message {
    m.(status := Processed, processedAt := Some(savedAt), nextAttempt := None)
  }

  /** A failed attempt: the counter saturates, a permanent error takes the row out of
      the queue, any other reschedules it. */
  function FailedRow(cfg: Settings, m: Message, a: Attempt): Message
    requires a.outcome.Refused?
  {
    var count := if m.retryCount < MAX_INT32 then m.retryCount + 1 else m.retryCount;
    var retried := m.(retryCount := count, lastError := a.outcome.text);
    if a.outcome.permanent then retried.(status := Failed, nextAttempt := None)
    else retried.(nextAttempt := Some(a.at + Jittered(Capped(cfg.initial, cfg.maximum, count), a.jitter)))
  }

  function NewRow(cfg: Settings, m: Message, a: Attempt, savedAt: int): Message {
    if a.outcome.Accepted? then ProcessedRow(m, savedAt) else FailedRow(cfg, m, a)
  }

  /** What an attempt does to its row: the event and its topic stay; success settles it
      and keeps the record of earlier failures; a failure counts, is noted, and either
      takes the row out of the queue for good or schedules it half to once the capped
      delay after the attempt. */
  lemma NewRowFields(cfg: Settings, m: Message, a: Attempt, savedAt: int)
    requires Positive(cfg) && 0.0 <= a.jitter < 1.0
    ensures
      var r := NewRow(cfg, m, a, savedAt);
      && r.event == m.event && r.topic == m.topic
      && (a.outcome.Accepted? ==>
            r.status == Processed && r.processedAt == Some(savedAt) && r.nextAttempt == None
            && r.retryCount == m.retryCount && r.lastError == m.lastError)
      && (a.outcome.Refused? ==>
            && r.lastError == a.outcome.text && r.processedAt == m.processedAt
            && r.retryCount == (if m.retryCount < 2147483647 then m.retryCount + 1 else m.retryCount)
            && (a.outcome.permanent ==> r.status == Failed && r.nextAttempt == None)
            && (!a.outcome.permanent ==>
                  var delay := Capped(cfg.initial, cfg.maximum, r.retryCount);
                  && r.status == m.status && r.nextAttempt.Some?
                  && a.at + delay / 2 <= r.nextAttempt.value <= a.at + delay))
  {
    if a.outcome.Refused? {
      var count := FailedRow(cfg, m, a).retryCount;
      CappedMonotone(cfg.initial, cfg.maximum, 1, if count < 1 then 1 else count);
      JitterRange(Capped(cfg.initial, cfg.maximum, count), a.jitter);
    }
  }

  /** How the loop over n messages ends: with an error that rolls everything back, or
      having handled a prefix of the batch. */
  datatype Plan = Abort | Commit(handled: nat)

  function PlanFrom(attempts: seq<Attempt>, i: nat, n: nat): (p: Plan)
    requires i <= n <= |attempts|
    ensures p.Commit? ==> i <= p.handled <= n
    decreases n - i
  {
    if i == n then Commit(i) else
    var a := attempts[i];
    if !a.marshals || a.canceled then Abort
    else if a.outcome.Accepted? then PlanFrom(attempts, i + 1, n)
    else if a.outcome.capacity then Commit(i)
    else if a.outcome.deadline then Commit(i + 1)
    else PlanFrom(attempts, i + 1, n)
  }

  /** Nothing is published, or the transaction must not go on. */
  predicate Breaks(a: Attempt) { !a.marshals || a.canceled }

  /** No slot was free: the message was not sent and stays due. */
  predicate NoSlot(a: Attempt) { a.outcome.Refused? && a.outcome.capacity }

  predicate TimedOut(a: Attempt) { a.outcome.Refused? && a.outcome.deadline }

  /** The loop commits a prefix of h messages iff none of them broke off or lacked a slot,
      none but the last timed out, and the next one did not exist or lacked a slot, or the
      last one timed out. */
  lemma {:induction false} CommitsIff(attempts: seq<Attempt>, i: nat, n: nat, h: nat)
    requires i <= n <= |attempts|
    ensures PlanFrom(attempts, i, n) == Commit(h) <==>
              && i <= h <= n
              && (forall j | i <= j < h :: !Breaks(attempts[j]) && !NoSlot(attempts[j]))
              && (forall j | i <= j < h - 1 :: !TimedOut(attempts[j]))
              && (h == n || (i < h && TimedOut(attempts[h - 1])) || (!Breaks(attempts[h]) && NoSlot(attempts[h])))
    decreases n - i
  {
    if i < n {
      CommitsIff(attempts, i + 1, n, h);
    }
  }

  /** It rolls everything back iff an attempt broke off before anything stopped the loop. */
  lemma {:induction false} AbortsIff(attempts: seq<Attempt>, i: nat, n: nat)
    requires i <= n <= |attempts|
    ensures PlanFrom(attempts, i, n) == Abort <==>
              exists k :: i <= k < n && Breaks(attempts[k])
                && forall j | i <= j < k :: !Breaks(attempts[j]) && !NoSlot(attempts[j]) && !TimedOut(attempts[j])
    decreases n - i
  {
    if i < n {
      AbortsIff(attempts, i + 1, n);
    }
  }

  // ---- The batch ----

  ghost predicate WellKeyed(rows: Rows) {
    forall id | id in rows :: rows[id].event.id == id
  }

  function KeyOf(m: Message): Key { Key(m.event.createdAt, m.event.id) }

  /** The rows the locking query considers: due, and not locked by another worker. */
  function DueKeys(rows: Rows, locked: set<nat>, now: int): set<Key> {
    set id | id in rows && id !in locked && Due(rows[id], now) :: KeyOf(rows[id])
  }

  function Keys(batch: seq<Message>): seq<Key> {
    seq(|batch|, i requires 0 <= i < |batch| => KeyOf(batch[i]))
  }

  ghost predicate IsBatch(batch: seq<Message>, rows: Rows, locked: set<nat>, now: int, limit: nat) {
    && IsPage(Keys(batch), DueKeys(rows, locked, now), limit)
    && forall i | 0 <= i < |batch| :: batch[i].event.id in rows && rows[batch[i].event.id] == batch[i]
  }

  ghost predicate Distinct(batch: seq<Message>) {
    forall i, j | 0 <= i < j < |batch| :: batch[i].event.id != batch[j].event.id
  }

  /** A batch lists distinct, due, unlocked rows. */
  lemma BatchRows(batch: seq<Message>, rows: Rows, locked: set<nat>, now: int, limit: nat)
    requires WellKeyed(rows) && IsBatch(batch, rows, locked, now, limit)
    ensures forall i | 0 <= i < |batch| :: batch[i].event.id !in locked && Due(batch[i], now)
    ensures Distinct(batch)
  {
    forall i | 0 <= i < |batch| ensures batch[i].event.id !in locked && Due(batch[i], now) {
      assert Keys(batch)[i] in DueKeys(rows, locked, now);
    }
    forall i, j | 0 <= i < j < |batch| ensures batch[i].event.id != batch[j].event.id {
      assert Before(Keys(batch)[i], Keys(batch)[j]);
    }
  }

  /** A message that may be published now. */
  predicate Waiting(m: Message, locked: set<nat>, now: int) {
    && m.status == Pending && m.event.id !in locked
    && (m.nextAttempt.None? || m.nextAttempt.value <= now)
  }

  predicate Older(a: Event, b: Event) {
    a.createdAt < b.createdAt || (a.createdAt == b.createdAt && a.id < b.id)
  }

  /** In full: a batch lists waiting messages by creation time, then ID; whichever waiting
      message it leaves out is younger than all of it, and then it is full. */
  lemma BatchIsOldest(batch: seq<Message>, rows: Rows, locked: set<nat>, now: int, limit: nat)
    requires WellKeyed(rows) && IsBatch(batch, rows, locked, now, limit)
    ensures |batch| <= limit
    ensures forall i | 0 <= i < |batch| :: Waiting(batch[i], locked, now)
    ensures forall i, j | 0 <= i < j < |batch| :: Older(batch[i].event, batch[j].event)
    ensures forall id, i | id in rows && Waiting(rows[id], locked, now) && !Lists(batch, id) && 0 <= i < |batch| ::
              Older(batch[i].event, rows[id].event)
    ensures (exists id :: id in rows && Waiting(rows[id], locked, now) && !Lists(batch, id)) ==> |batch| == limit
  {
    var keys, page := DueKeys(rows, locked, now), Keys(batch);
    BatchRows(batch, rows, locked, now, limit);
    forall i, j | 0 <= i < j < |batch| ensures Older(batch[i].event, batch[j].event) {
      assert Before(page[i], page[j]);
    }
    forall id | id in rows && Waiting(rows[id], locked, now) && !Lists(batch, id)
      ensures KeyOf(rows[id]) in keys && KeyOf(rows[id]) !in page
    {
      assert forall i | 0 <= i < |batch| :: batch[i] in batch;
    }
    forall id, i | id in rows && Waiting(rows[id], locked, now) && !Lists(batch, id) && 0 <= i < |batch|
      ensures Older(batch[i].event, rows[id].event)
    {
      assert page[i] in page && Before(page[i], KeyOf(rows[id]));
    }
    PageSize(page);
    if exists id :: id in rows && Waiting(rows[id], locked, now) && !Lists(batch, id) {
      FullPage(page, keys, limit);
    }
  }

  // ---- What a committed run leaves ----

  /** The first n messages of the batch have their new rows; all others are untouched. */
  ghost predicate Settled(cfg: Settings, rows: Rows, after: Rows, batch: seq<Message>, attempts: seq<Attempt>, n: nat, savedAt: int)
    requires n <= |batch| && n <= |attempts|
  {
    && after.Keys == rows.Keys
    && (forall i | 0 <= i < n ::
          batch[i].event.id in after && after[batch[i].event.id] == NewRow(cfg, batch[i], attempts[i], savedAt))
    && (forall id | id in rows && (forall i | 0 <= i < n :: batch[i].event.id != id) :: after[id] == rows[id])
  }

  predicate Lists(messages: seq<Message>, id: nat) {
    exists m | m in messages :: m.event.id == id
  }

  datatype Fault = Fine | Lost | Applied

  class OutboxTable {
    var rows: Rows
    /** The view of the one open transaction. */
    var tx: Option<Rows>

    constructor ()
      ensures rows == map[] && tx == None
    {
      rows, tx := map[], None;
    }

    method Begin() returns (ok: bool)
      modifies this
      ensures ok == old(tx).None? && rows == old(rows)
      ensures tx == if ok then Some(rows) else old(tx)
    {
      ok := tx.None?;
      if ok {
        tx := Some(rows);
      }
    }

    method Rollback()
      modifies this
      ensures tx == None && rows == old(rows)
    {
      tx := None;
    }

    /** A commit can fail without effect, or take effect and report an error. */
    method Commit(fault: Fault) returns (ok: bool)
      requires tx.Some?
      modifies this
      ensures ok == (fault == Fine) && tx == None
      ensures rows == if fault == Lost then old(rows) else old(tx).value
    {
      if fault != Lost {
        rows := tx.value;
      }
      tx, ok := None, fault == Fine;
    }

    /** The transaction helper around a callback, which yields the rows it leaves or
        nothing when it fails or panics: all of its changes are committed or none, and
        a nested call is refused and leaves the open transaction alone. */
    method WithTransaction(callback: Rows -> Option<Rows>, fault: Fault) returns (ok: bool)
      modifies this
      ensures rows == old(rows) || callback(old(rows)) == Some(rows)
      ensures ok ==> callback(old(rows)) == Some(rows) && tx == None
      ensures !ok && fault != Applied ==> rows == old(rows)
      ensures old(tx).Some? ==> !ok && rows == old(rows) && tx == old(tx)
      ensures old(tx).None? ==> tx == None && (ok <==> callback(old(rows)).Some? && fault == Fine)
    {
      ok := Begin();
      if !ok {
        return;
      }
      var left := callback(tx.value);
      if left.None? {
        Rollback();
        return false;
      }
      tx := left;
      ok := Commit(fault);
      if !ok {
        Rollback();
      }
    }

    method GetUnprocessedMessages(limit: nat, now: int, locked: set<nat>) returns (batch: seq<Message>)
      requires tx.Some? && WellKeyed(tx.value)
      ensures IsBatch(batch, tx.value, locked, now, limit)
    {
      var keys := DueKeys(tx.value, locked, now);
      var page := Page(keys, limit);
      batch := [];
      for i := 0 to |page|
        invariant |batch| == i
        invariant forall j | 0 <= j < i ::
                    batch[j].event.id in tx.value && tx.value[batch[j].event.id] == batch[j] && KeyOf(batch[j]) == page[j]
      {
        assert page[i] in keys;
        batch := batch + [tx.value[page[i].id]];
      }
      assert Keys(batch) == page;
    }

    method SaveProcessedMessages(messages: seq<Message>, savedAt: int)
      requires tx.Some?
      modifies this
      ensures rows == old(rows) && tx.Some? && tx.value.Keys == old(tx).value.Keys
      ensures forall id | id in tx.value ::
                tx.value[id] == if Lists(messages, id)
                                then ProcessedRow(old(tx).value[id], savedAt) else old(tx).value[id]
    {
      var ids := set m | m in messages :: m.event.id;
      tx := Some(map id | id in tx.value ::
                   if id in ids then ProcessedRow(tx.value[id], savedAt) else tx.value[id]);
    }

    /** Each message overwrites its whole row. */
    method SaveFailedMessages(messages: seq<Message>)
      requires tx.Some? && forall m | m in messages :: m.event.id in tx.value
      requires forall i, j | 0 <= i < j < |messages| :: messages[i].event.id != messages[j].event.id
      modifies this
      ensures rows == old(rows) && tx.Some? && tx.value.Keys == old(tx).value.Keys
      ensures forall m | m in messages :: tx.value[m.event.id] == m
      ensures forall id | id in tx.value && !Lists(messages, id) :: tx.value[id] == old(tx).value[id]
    {
      for i := 0 to |messages|
        invariant rows == old(rows) && tx.Some? && tx.value.Keys == old(tx).value.Keys
        invariant forall j | 0 <= j < i :: tx.value[messages[j].event.id] == messages[j]
        invariant forall id | id in tx.value && (forall j | 0 <= j < i :: messages[j].event.id != id) ::
                    tx.value[id] == old(tx).value[id]
      {
        tx := Some(tx.value[messages[i].event.id := messages[i]]);
      }
    }
  }
}
