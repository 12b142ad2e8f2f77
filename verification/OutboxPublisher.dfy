/** One run of the outbox publisher: select, publish one by one, save, commit. */
module OutboxPublisher {
  import opened Options
  import opened Backoff
  import opened Outbox

  /** The messages of a handled prefix that the broker accepted, in batch order. */
  function AcceptedOf(batch: seq<Message>, attempts: seq<Attempt>, n: nat): seq<Message>
    requires n <= |batch| && n <= |attempts|
  {
    if n == 0 then []
    else AcceptedOf(batch, attempts, n - 1) + if attempts[n - 1].outcome.Accepted? then [batch[n - 1]] else []
  }

  /** Those that failed, with their new fields. */
  function FailedOf(cfg: Settings, batch: seq<Message>, attempts: seq<Attempt>, n: nat): seq<Message>
    requires n <= |batch| && n <= |attempts|
  {
    if n == 0 then []
    else FailedOf(cfg, batch, attempts, n - 1)
         + if attempts[n - 1].outcome.Refused? then [FailedRow(cfg, batch[n - 1], attempts[n - 1])] else []
  }

  lemma {:induction false} AcceptedMembers(batch: seq<Message>, attempts: seq<Attempt>, n: nat, id: nat)
    requires n <= |batch| && n <= |attempts|
    ensures Lists(AcceptedOf(batch, attempts, n), id)
            <==> exists i :: 0 <= i < n && batch[i].event.id == id && attempts[i].outcome.Accepted?
  {
    if n > 0 {
      AcceptedMembers(batch, attempts, n - 1, id);
      var before, after := AcceptedOf(batch, attempts, n - 1), AcceptedOf(batch, attempts, n);
      assert forall m :: m in after <==> m in before || (attempts[n - 1].outcome.Accepted? && m == batch[n - 1]);
    }
  }

  lemma {:induction false} FailedMembers(cfg: Settings, batch: seq<Message>, attempts: seq<Attempt>, n: nat, id: nat)
    requires n <= |batch| && n <= |attempts|
    ensures Lists(FailedOf(cfg, batch, attempts, n), id)
            <==> exists i :: 0 <= i < n && batch[i].event.id == id && attempts[i].outcome.Refused?
  {
    if n > 0 {
      FailedMembers(cfg, batch, attempts, n - 1, id);
      var before, after := FailedOf(cfg, batch, attempts, n - 1), FailedOf(cfg, batch, attempts, n);
      if attempts[n - 1].outcome.Refused? {
        var row := FailedRow(cfg, batch[n - 1], attempts[n - 1]);
        assert forall m :: m in after <==> m in before || m == row;
      } else {
        assert after == before;
      }
    }
  }

  lemma {:induction false} FailedRowListed(cfg: Settings, batch: seq<Message>, attempts: seq<Attempt>, n: nat, i: nat)
    requires i < n <= |batch| && n <= |attempts| && attempts[i].outcome.Refused?
    ensures FailedRow(cfg, batch[i], attempts[i]) in FailedOf(cfg, batch, attempts, n)
  {
    if i < n - 1 {
      FailedRowListed(cfg, batch, attempts, n - 1, i);
    }
  }

  lemma {:induction false} FailedDistinct(cfg: Settings, batch: seq<Message>, attempts: seq<Attempt>, n: nat)
    requires n <= |batch| && n <= |attempts| && Distinct(batch)
    ensures Distinct(FailedOf(cfg, batch, attempts, n))
  {
    if n > 0 {
      FailedDistinct(cfg, batch, attempts, n - 1);
      FailedMembers(cfg, batch, attempts, n - 1, batch[n - 1].event.id);
      var before := FailedOf(cfg, batch, attempts, n - 1);
      assert forall i | 0 <= i < |before| :: before[i] in before;
    }
  }

  /** mid is before with the accepted rows processed, after is mid with the failed rows
      overwritten. */
  ghost predicate Saved(
      cfg: Settings, before: Rows, mid: Rows, after: Rows,
      batch: seq<Message>, attempts: seq<Attempt>, n: nat, savedAt: int)
    requires n <= |batch| && n <= |attempts|
  {
    && (forall i | 0 <= i < n :: batch[i].event.id in before && before[batch[i].event.id] == batch[i])
    && mid.Keys == before.Keys && after.Keys == before.Keys
    && (forall id | id in mid ::
          mid[id] == if Lists(AcceptedOf(batch, attempts, n), id) then ProcessedRow(before[id], savedAt) else before[id])
    && (forall m | m in FailedOf(cfg, batch, attempts, n) :: m.event.id in after && after[m.event.id] == m)
    && (forall id | id in after && !Lists(FailedOf(cfg, batch, attempts, n), id) :: after[id] == mid[id])
  }

  lemma SavedHandled(
      cfg: Settings, before: Rows, mid: Rows, after: Rows,
      batch: seq<Message>, attempts: seq<Attempt>, n: nat, savedAt: int, i: nat)
    requires i < n <= |batch| && n <= |attempts| && Distinct(batch)
    requires Saved(cfg, before, mid, after, batch, attempts, n, savedAt)
    ensures batch[i].event.id in after && after[batch[i].event.id] == NewRow(cfg, batch[i], attempts[i], savedAt)
  {
    if attempts[i].outcome.Refused? {
      FailedRowListed(cfg, batch, attempts, n, i);
    } else {
      AcceptedOnly(cfg, batch, attempts, n, i);
    }
  }

  lemma AcceptedOnly(cfg: Settings, batch: seq<Message>, attempts: seq<Attempt>, n: nat, i: nat)
    requires i < n <= |batch| && n <= |attempts| && Distinct(batch) && attempts[i].outcome.Accepted?
    ensures Lists(AcceptedOf(batch, attempts, n), batch[i].event.id)
    ensures !Lists(FailedOf(cfg, batch, attempts, n), batch[i].event.id)
  {
    AcceptedMembers(batch, attempts, n, batch[i].event.id);
    FailedMembers(cfg, batch, attempts, n, batch[i].event.id);
  }

  lemma SavedOther(
      cfg: Settings, before: Rows, mid: Rows, after: Rows,
      batch: seq<Message>, attempts: seq<Attempt>, n: nat, savedAt: int, id: nat)
    requires n <= |batch| && n <= |attempts| && id in before && forall i | 0 <= i < n :: batch[i].event.id != id
    requires Saved(cfg, before, mid, after, batch, attempts, n, savedAt)
    ensures after[id] == before[id]
  {
    AcceptedMembers(batch, attempts, n, id);
    FailedMembers(cfg, batch, attempts, n, id);
  }

  /** The two save statements, one after the other, leave exactly the new rows. */
  lemma SavedRows(
      cfg: Settings, before: Rows, mid: Rows, after: Rows,
      batch: seq<Message>, attempts: seq<Attempt>, n: nat, savedAt: int)
    requires n <= |batch| && n <= |attempts| && Distinct(batch)
    requires Saved(cfg, before, mid, after, batch, attempts, n, savedAt)
    ensures Settled(cfg, before, after, batch, attempts, n, savedAt)
  {
    forall i | 0 <= i < n
      ensures batch[i].event.id in after && after[batch[i].event.id] == NewRow(cfg, batch[i], attempts[i], savedAt)
    {
      SavedHandled(cfg, before, mid, after, batch, attempts, n, savedAt, i);
    }
    forall id | id in before && (forall i | 0 <= i < n :: batch[i].event.id != id) ensures after[id] == before[id] {
      SavedOther(cfg, before, mid, after, batch, attempts, n, savedAt, id);
    }
  }

  /** Processed and failed messages together are exactly the handled prefix. */
  lemma {:induction false} PartitionSizes(cfg: Settings, batch: seq<Message>, attempts: seq<Attempt>, n: nat)
    requires n <= |batch| && n <= |attempts|
    ensures |AcceptedOf(batch, attempts, n)| + |FailedOf(cfg, batch, attempts, n)| == n
  {
    if n > 0 {
      PartitionSizes(cfg, batch, attempts, n - 1);
    }
  }

  /** The publish loop. */
  method PublishBatch(cfg: Settings, messages: seq<Message>, attempts: seq<Attempt>)
    returns (aborted: bool, handled: nat, processed: seq<Message>, failed: seq<Message>)
    requires Positive(cfg) && |attempts| >= |messages|
    ensures handled <= |messages|
    ensures PlanFrom(attempts, 0, |messages|) == if aborted then Abort else Commit(handled)
    ensures processed == AcceptedOf(messages, attempts, handled)
    ensures failed == FailedOf(cfg, messages, attempts, handled)
  {
    aborted, handled, processed, failed := false, 0, [], [];
    while handled < |messages|
      invariant handled <= |messages| && !aborted
      invariant processed == AcceptedOf(messages, attempts, handled)
      invariant failed == FailedOf(cfg, messages, attempts, handled)
      invariant PlanFrom(attempts, 0, |messages|) == PlanFrom(attempts, handled, |messages|)
    {
      var attempt, message := attempts[handled], messages[handled];
      if !attempt.marshals || attempt.canceled {
        aborted := true;
        return;
      }
      if attempt.outcome.Refused? {
        if attempt.outcome.capacity {
          return;
        }
        if message.retryCount < MAX_INT32 {
          message := message.(retryCount := message.retryCount + 1);
        }
        message := message.(lastError := attempt.outcome.text);
        var delay, _ := RetryDelay(cfg.initial as Duration, cfg.maximum as Duration, message.retryCount);
        message := message.(nextAttempt := Some(attempt.at + Jittered(delay as int, attempt.jitter)));
        if attempt.outcome.permanent {
          message := message.(status := Failed, nextAttempt := None);
        }
        failed, handled := failed + [message], handled + 1;
        if attempt.outcome.deadline {
          return;
        }
      } else {
        processed, handled := processed + [message], handled + 1;
      }
    }
  }

  class OutboxMessagePublisher {
    const cfg: Settings
    const table: OutboxTable

    constructor (cfg: Settings, table: OutboxTable)
      ensures this.cfg == cfg && this.table == table
    {
      this.cfg, this.table := cfg, table;
    }

    /** The save phase: two statements in the open transaction. */
    method Save(batch: seq<Message>, attempts: seq<Attempt>, n: nat, processed: seq<Message>, failed: seq<Message>, savedAt: int)
      requires table.tx.Some? && n <= |batch| && n <= |attempts| && Distinct(batch)
      requires forall i | 0 <= i < n :: batch[i].event.id in table.tx.value && table.tx.value[batch[i].event.id] == batch[i]
      requires processed == AcceptedOf(batch, attempts, n) && failed == FailedOf(cfg, batch, attempts, n)
      modifies table
      ensures table.rows == old(table.rows) && table.tx.Some?
      ensures Settled(cfg, old(table.tx).value, table.tx.value, batch, attempts, n, savedAt)
    {
      ghost var before := table.tx.value;
      FailedDistinct(cfg, batch, attempts, n);
      forall m | m in failed ensures m.event.id in before {
        FailedMembers(cfg, batch, attempts, n, m.event.id);
      }
      if |processed| > 0 {
        table.SaveProcessedMessages(processed, savedAt);
      }
      ghost var mid := table.tx.value;
      if |failed| > 0 {
        table.SaveFailedMessages(failed);
      }
      SavedRows(cfg, before, mid, table.tx.value, batch, attempts, n, savedAt);
    }

    /** The attempts are what the broker and the clock do during this run. The result
        lists what the run saved; with an error before the commit it saved nothing. */
    method Run(limit: nat, now: int, locked: set<nat>, attempts: seq<Attempt>, savedAt: int, fault: Fault)
      returns (err: bool, batch: seq<Message>, processed: seq<Message>, failed: seq<Message>)
      requires Positive(cfg) && table.tx == None && WellKeyed(table.rows) && |attempts| >= limit
      modifies table
      ensures table.tx == None
      ensures IsBatch(batch, old(table.rows), locked, now, limit) && |batch| <= limit
      ensures PlanFrom(attempts, 0, |batch|) == Abort ==> err && table.rows == old(table.rows)
      ensures PlanFrom(attempts, 0, |batch|).Commit? ==>
                var n := PlanFrom(attempts, 0, |batch|).handled;
                && err == (fault != Fine)
                && processed == AcceptedOf(batch, attempts, n) && failed == FailedOf(cfg, batch, attempts, n)
                && (fault == Lost ==> table.rows == old(table.rows))
                && (fault != Lost ==> Settled(cfg, old(table.rows), table.rows, batch, attempts, n, savedAt))
    {
      var began := table.Begin();
      batch := table.GetUnprocessedMessages(limit, now, locked);
      BatchRows(batch, table.rows, locked, now, limit);
      var aborted, handled;
      aborted, handled, processed, failed := PublishBatch(cfg, batch, attempts);
      if aborted {
        table.Rollback();
        return true, batch, processed, failed;
      }
      Save(batch, attempts, handled, processed, failed, savedAt);
      var ok := table.Commit(fault);
      err := !ok;
    }
  }
}
