/** What every run of the outbox guarantees. */
module OutboxSafety {
  import opened Outbox
  import opened AuthEvents
  import opened OutboxProtocol

  lemma {:induction false} PlanPrefix(attempts: seq<Attempt>, i: nat, n: nat, j: nat)
    requires i <= j && i <= n <= |attempts| && PlanFrom(attempts, i, n).Commit? && j < PlanFrom(attempts, i, n).handled
    ensures attempts[j].marshals && !attempts[j].canceled && !(attempts[j].outcome.Refused? && attempts[j].outcome.capacity)
    decreases n - i
  {
    if i < j {
      PlanPrefix(attempts, i + 1, n, j);
    }
  }

  lemma {:induction false} SettledRowsKeys(
      cfg: Settings, rows: Rows, batch: seq<Message>, attempts: seq<Attempt>, n: nat, savedAt: int)
    requires n <= |batch| && n <= |attempts| && forall i | 0 <= i < n :: batch[i].event.id in rows
    ensures SettledRows(cfg, rows, batch, attempts, n, savedAt).Keys == rows.Keys
  {
    if n > 0 {
      SettledRowsKeys(cfg, rows, batch, attempts, n - 1, savedAt);
    }
  }

  lemma {:induction false} SettledRowsMiss(
      cfg: Settings, rows: Rows, batch: seq<Message>, attempts: seq<Attempt>, n: nat, savedAt: int, id: nat)
    requires n <= |batch| && n <= |attempts| && forall i | 0 <= i < n :: batch[i].event.id != id
    ensures id in SettledRows(cfg, rows, batch, attempts, n, savedAt) <==> id in rows
    ensures id in rows ==> SettledRows(cfg, rows, batch, attempts, n, savedAt)[id] == rows[id]
  {
    if n > 0 {
      SettledRowsMiss(cfg, rows, batch, attempts, n - 1, savedAt, id);
    }
  }

  lemma {:induction false} SettledRowsHit(
      cfg: Settings, rows: Rows, batch: seq<Message>, attempts: seq<Attempt>, n: nat, savedAt: int, i: nat)
    requires i < n <= |batch| && n <= |attempts| && Distinct(batch)
    ensures batch[i].event.id in SettledRows(cfg, rows, batch, attempts, n, savedAt)
    ensures SettledRows(cfg, rows, batch, attempts, n, savedAt)[batch[i].event.id] == NewRow(cfg, batch[i], attempts[i], savedAt)
  {
    if i < n - 1 {
      SettledRowsHit(cfg, rows, batch, attempts, n - 1, savedAt, i);
    }
  }

  lemma SettledRowsAreSettled(
      cfg: Settings, rows: Rows, batch: seq<Message>, attempts: seq<Attempt>, n: nat, savedAt: int)
    requires n <= |batch| && n <= |attempts| && Distinct(batch)
    requires forall i | 0 <= i < |batch| :: batch[i].event.id in rows
    ensures Settled(cfg, rows, SettledRows(cfg, rows, batch, attempts, n, savedAt), batch, attempts, n, savedAt)
  {
    var after := SettledRows(cfg, rows, batch, attempts, n, savedAt);
    SettledRowsKeys(cfg, rows, batch, attempts, n, savedAt);
    forall i | 0 <= i < n
      ensures batch[i].event.id in after && after[batch[i].event.id] == NewRow(cfg, batch[i], attempts[i], savedAt)
    {
      SettledRowsHit(cfg, rows, batch, attempts, n, savedAt, i);
    }
    forall id | id in rows && (forall i | 0 <= i < n :: batch[i].event.id != id) ensures after[id] == rows[id] {
      SettledRowsMiss(cfg, rows, batch, attempts, n, savedAt, id);
    }
  }

  /** What one worker's commit does to the table. */
  lemma CommitRows(s: State, w: nat, savedAt: int, cfg: Settings)
    requires Inv(s) && w in s.works
    requires var work := s.works[w]; PlanFrom(work.attempts, 0, |work.attempts|).Commit?
    ensures
      var work := s.works[w];
      var n := PlanFrom(work.attempts, 0, |work.attempts|).handled;
      var rows := SettledRows(cfg, s.rows, work.batch, work.attempts, n, savedAt);
      && rows.Keys == s.rows.Keys
      && (forall id | id in rows && !Holds(work, id) :: rows[id] == s.rows[id])
      && (forall id | id in rows :: rows[id].event == s.rows[id].event)
      && (forall id | id in rows && rows[id].status == Processed :: s.rows[id].event in s.broker)
  {
    var work := s.works[w];
    var n := PlanFrom(work.attempts, 0, |work.attempts|).handled;
    var rows := SettledRows(cfg, s.rows, work.batch, work.attempts, n, savedAt);
    assert WorkOk(s, work);
    SettledRowsAreSettled(cfg, s.rows, work.batch, work.attempts, n, savedAt);
    forall id | id in rows
      ensures (!Holds(work, id) ==> rows[id] == s.rows[id]) && rows[id].event == s.rows[id].event
      ensures rows[id].status == Processed ==> s.rows[id].event in s.broker
    {
      CommitRow(s, w, savedAt, cfg, rows, id);
    }
  }

  lemma CommitRow(s: State, w: nat, savedAt: int, cfg: Settings, rows: Rows, id: nat)
    requires Inv(s) && w in s.works
    requires var work := s.works[w];
             && PlanFrom(work.attempts, 0, |work.attempts|).Commit?
             && |work.attempts| <= |work.batch|
             && Settled(cfg, s.rows, rows, work.batch, work.attempts, PlanFrom(work.attempts, 0, |work.attempts|).handled, savedAt)
    requires id in rows
    ensures !Holds(s.works[w], id) ==> rows[id] == s.rows[id]
    ensures rows[id].event == s.rows[id].event
    ensures rows[id].status == Processed ==> s.rows[id].event in s.broker
  {
    var work := s.works[w];
    var n := PlanFrom(work.attempts, 0, |work.attempts|).handled;
    assert WorkOk(s, work) && RowOk(s, id);
    if i :| 0 <= i < n && work.batch[i].event.id == id {
      PlanPrefix(work.attempts, 0, |work.attempts|, i);
      assert work.batch[i] in work.batch;
    }
  }

  /** A finished run leaves the rows alone or settles its handled prefix. */
  lemma FinishRows(s: State, w: nat, savedAt: int, fault: Fault, cfg: Settings)
    ensures var t := Finished(s, w, savedAt, fault, cfg);
            || t.rows == s.rows
            || (&& w in s.works && t.works == s.works - {w} && t.broker == s.broker
                && |s.works[w].attempts| <= |s.works[w].batch|
                && PlanFrom(s.works[w].attempts, 0, |s.works[w].attempts|).Commit?
                && t.rows == SettledRows(cfg, s.rows, s.works[w].batch, s.works[w].attempts,
                                         PlanFrom(s.works[w].attempts, 0, |s.works[w].attempts|).handled, savedAt))
  {
  }

  /** Rows that a worker holds are not changed by others. */
  lemma WorkStaysOk(s: State, t: State, w: nat, v: nat)
    requires Inv(s) && w in s.works && v in s.works && v != w
    requires t.rows.Keys == s.rows.Keys && t.broker == s.broker
    requires forall id | id in t.rows && !Holds(s.works[w], id) :: t.rows[id] == s.rows[id]
    ensures WorkOk(t, s.works[v])
  {
    var work := s.works[v];
    assert WorkOk(s, work);
    forall i | 0 <= i < |work.batch|
      ensures work.batch[i].event.id in t.rows && t.rows[work.batch[i].event.id] == work.batch[i]
    {
      assert work.batch[i] in work.batch;
      assert Holds(work, work.batch[i].event.id);
    }
  }

  lemma FinishKeepsWorks(s: State, w: nat, savedAt: int, fault: Fault, cfg: Settings)
    requires Inv(s) && w in s.works && Finished(s, w, savedAt, fault, cfg).rows != s.rows
    ensures Works(Finished(s, w, savedAt, fault, cfg))
  {
    var t := Finished(s, w, savedAt, fault, cfg);
    FinishRows(s, w, savedAt, fault, cfg);
    CommitRows(s, w, savedAt, cfg);
    WorksStay(s, t, w);
  }

  lemma WorksStay(s: State, t: State, w: nat)
    requires Inv(s) && w in s.works && t.works == s.works - {w}
    requires t.rows.Keys == s.rows.Keys && t.broker == s.broker
    requires forall id | id in t.rows && !Holds(s.works[w], id) :: t.rows[id] == s.rows[id]
    ensures Works(t)
  {
    forall v | v in t.works ensures WorkOk(t, t.works[v]) {
      WorkStaysOk(s, t, w, v);
    }
  }

  lemma FinishKeepsInv(s: State, w: nat, savedAt: int, fault: Fault, cfg: Settings)
    requires Inv(s)
    ensures Inv(Finished(s, w, savedAt, fault, cfg))
  {
    var t := Finished(s, w, savedAt, fault, cfg);
    if w in s.works && t.rows != s.rows {
      FinishKeepsWorks(s, w, savedAt, fault, cfg);
      CommitRows(s, w, savedAt, cfg);
      forall id | id in t.rows ensures RowOk(t, id) {
        assert RowOk(s, id);
      }
    } else {
      UnlockKeepsInv(s, w);
    }
  }

  lemma UnlockKeepsInv(s: State, w: nat)
    requires Inv(s)
    ensures Inv(Unlocked(s, w))
  {
    var t := Unlocked(s, w);
    forall id | id in t.rows ensures RowOk(t, id) {
      assert RowOk(s, id);
    }
    forall v | v in t.works ensures WorkOk(t, t.works[v]) {
      assert WorkOk(s, s.works[v]);
    }
  }

  lemma AbandonKeepsInv(s: State, w: nat)
    requires Inv(s)
    ensures Inv(Abandoned(s, w))
  {
    var t := Abandoned(s, w);
    UnlockKeepsInv(s, w);
    assert w in s.works ==> WorkOk(s, s.works[w]);
    forall e | e in t.late ensures e.id in s.enqueued && s.enqueued[e.id] == e {
      if e !in s.late {
        var work := s.works[w];
        var i :| |work.attempts| <= i < |work.batch| && work.batch[i].event == e;
        assert RowOk(s, work.batch[i].event.id);
      }
    }
    forall id | id in t.rows ensures RowOk(t, id) {
      assert RowOk(s, id);
    }
    forall v | v in t.works ensures WorkOk(t, t.works[v]) {
      assert WorkOk(s, s.works[v]);
    }
  }

  lemma SelectKeepsInv(s: State, w: nat, batch: seq<Message>, limit: nat, now: int)
    requires Inv(s)
    ensures Inv(Selected(s, w, batch, limit, now))
  {
    var t := Selected(s, w, batch, limit, now);
    if t != s {
      SelectedRows(s, batch, limit, now);
      forall v | v in t.works ensures WorkOk(t, t.works[v]) {
        if v != w {
          assert WorkOk(s, s.works[v]);
        }
      }
      forall id | id in t.rows ensures RowOk(t, id) {
        assert RowOk(s, id);
      }
    }
  }

  /** A fresh batch copies pending rows that nobody else holds. */
  lemma SelectedRows(s: State, batch: seq<Message>, limit: nat, now: int)
    requires Inv(s) && IsBatch(batch, s.rows, LockedIds(s), now, limit)
    ensures WorkOk(s, Work(batch, []))
    ensures forall v, id | v in s.works && Lists(batch, id) :: !Holds(s.works[v], id)
  {
    assert forall id | id in s.rows :: RowOk(s, id);
    BatchRows(batch, s.rows, LockedIds(s), now, limit);
    forall id | Lists(batch, id) ensures id in s.rows && !IsLocked(s, id) {
      var m :| m in batch && m.event.id == id;
    }
  }

  lemma PublishKeepsTables(s: State, w: nat, a: Attempt, accepted: bool)
    requires Inv(s)
    ensures Tables(Published(s, w, a, accepted))
  {
    var t := Published(s, w, a, accepted);
    if t != s {
      var work := s.works[w];
      assert WorkOk(s, work) && RowOk(s, work.batch[|work.attempts|].event.id);
    }
    forall id | id in t.rows ensures RowOk(t, id) {
      assert RowOk(s, id);
    }
  }

  lemma PublishKeepsWorks(s: State, w: nat, a: Attempt, accepted: bool)
    requires Inv(s)
    ensures Works(Published(s, w, a, accepted))
  {
    var t := Published(s, w, a, accepted);
    forall v | v in t.works ensures WorkOk(t, t.works[v]) {
      PublishKeepsWork(s, w, a, accepted, v);
    }
    assert forall v | v in t.works :: v in s.works && t.works[v].batch == s.works[v].batch;
  }

  lemma PublishKeepsWork(s: State, w: nat, a: Attempt, accepted: bool, v: nat)
    requires Inv(s) && v in s.works
    ensures v in Published(s, w, a, accepted).works
    ensures WorkOk(Published(s, w, a, accepted), Published(s, w, a, accepted).works[v])
  {
    assert WorkOk(s, s.works[v]);
  }

  lemma PublishKeepsInv(s: State, w: nat, a: Attempt, accepted: bool)
    requires Inv(s)
    ensures Inv(Published(s, w, a, accepted))
  {
    PublishKeepsTables(s, w, a, accepted);
    PublishKeepsWorks(s, w, a, accepted);
  }

  lemma BrokerKeepsInv(s: State, e: Event)
    requires Inv(s)
    ensures Inv(LateAccepted(s, e))
  {
    var t := LateAccepted(s, e);
    forall id | id in t.rows ensures RowOk(t, id) {
      assert RowOk(s, id);
    }
    forall v | v in t.works ensures WorkOk(t, t.works[v]) {
      assert WorkOk(s, s.works[v]);
    }
  }

  lemma EnqueueKeepsTables(s: State, e: Event, topic: string)
    requires Inv(s)
    ensures Tables(Enqueued(s, e, topic))
  {
    var t := Enqueued(s, e, topic);
    forall id | id in t.rows ensures RowOk(t, id) {
      if id in s.rows {
        assert RowOk(s, id);
      }
    }
  }

  lemma EnqueueKeepsInv(s: State, e: Event, topic: string)
    requires Inv(s)
    ensures Inv(Enqueued(s, e, topic))
  {
    var t := Enqueued(s, e, topic);
    EnqueueKeepsTables(s, e, topic);
    forall v | v in t.works ensures WorkOk(t, t.works[v]) {
      assert WorkOk(s, s.works[v]);
      assert e.id in s.rows ==> RowOk(s, e.id);
    }
  }

  lemma CleanKeepsInv(s: State, c: nat)
    requires Inv(s)
    ensures Inv(Cleaned(s, c))
  {
    var t := Cleaned(s, c);
    forall id | id in s.rows ensures RowOk(s, id) && (id in t.rows ==> RowOk(t, id)) {
      assert RowOk(s, id);
    }
    forall v | v in t.works ensures WorkOk(t, t.works[v]) {
      assert WorkOk(s, s.works[v]);
    }
  }

  lemma DeliverKeepsInv(s: State, k: nat, fault: Fault)
    requires Inv(s)
    ensures Inv(Delivered(s, k, fault))
  {
    var t := Delivered(s, k, fault);
    forall id | id in t.rows ensures RowOk(t, id) {
      assert RowOk(s, id);
    }
    forall v | v in t.works ensures WorkOk(t, t.works[v]) {
      assert WorkOk(s, s.works[v]);
    }
    if k < |s.broker| {
      assert s.broker[k] in s.broker;
      assert forall i | 0 <= i < |s.history| :: s.history[i] in s.history;
    }
  }

  lemma CleanSelectKeepsInv(s: State, c: nat, before: int, ids: set<nat>)
    requires Inv(s)
    ensures Inv(CleanSelected(s, c, before, ids))
  {
    var t := CleanSelected(s, c, before, ids);
    forall id | id in t.rows ensures RowOk(t, id) {
      assert RowOk(s, id);
    }
    forall v | v in t.works ensures WorkOk(t, t.works[v]) {
      assert WorkOk(s, s.works[v]);
    }
  }

  lemma StepKeepsInv(s: State, a: Action, cfg: Settings)
    requires Inv(s)
    ensures Inv(Step(s, a, cfg))
  {
    match a
    case Enqueue(e, topic) => EnqueueKeepsInv(s, e, topic);
    case Select(w, batch, limit, now) => SelectKeepsInv(s, w, batch, limit, now);
    case Publish(w, attempt, accepted) => PublishKeepsInv(s, w, attempt, accepted);
    case LateAccept(e) => BrokerKeepsInv(s, e);
    case Finish(w, savedAt, fault) => FinishKeepsInv(s, w, savedAt, fault, cfg);
    case Abandon(w) => AbandonKeepsInv(s, w);
    case Deliver(k, fault) => DeliverKeepsInv(s, k, fault);
    case CleanSelect(c, before, ids) => CleanSelectKeepsInv(s, c, before, ids);
    case CleanDelete(c) => CleanKeepsInv(s, c);
  }

  lemma {:induction false} RunKeepsInv(s: State, actions: seq<Action>, cfg: Settings)
    requires Inv(s)
    ensures Inv(Run(s, actions, cfg))
    decreases |actions|
  {
    if actions != [] {
      StepKeepsInv(s, actions[0], cfg);
      RunKeepsInv(Step(s, actions[0], cfg), actions[1..], cfg);
    }
  }

  lemma Reachable(actions: seq<Action>, cfg: Settings)
    ensures Inv(Run(Init, actions, cfg))
  {
    RunKeepsInv(Init, actions, cfg);
  }

  // ---- Main results ----

  lemma StepKeepsEnqueued(s: State, a: Action, cfg: Settings)
    ensures var t := Step(s, a, cfg);
            && s.enqueued.Keys <= t.enqueued.Keys
            && (forall id | id in s.enqueued :: t.enqueued[id] == s.enqueued[id])
            && s.removed <= t.removed
  {
  }

  lemma {:induction false} RunKeepsEnqueued(s: State, actions: seq<Action>, cfg: Settings)
    ensures var t := Run(s, actions, cfg);
            && s.enqueued.Keys <= t.enqueued.Keys
            && (forall id | id in s.enqueued :: t.enqueued[id] == s.enqueued[id])
            && s.removed <= t.removed
    decreases |actions|
  {
    if actions != [] {
      StepKeepsEnqueued(s, actions[0], cfg);
      RunKeepsEnqueued(Step(s, actions[0], cfg), actions[1..], cfg);
    }
  }

  /** Exactly-once effect: whatever was retried, rolled back, accepted but reported as
      failed, or redelivered, history has at most one record per event ID, and it is
      the record of the message as it was enqueued. */
  lemma HistoryOncePerEvent(before: seq<Action>, after: seq<Action>, cfg: Settings, i: nat, j: nat)
    requires i < |Run(Run(Init, before, cfg), after, cfg).history|
    requires j < |Run(Run(Init, before, cfg), after, cfg).history|
    ensures
      var s := Run(Init, before, cfg);
      var history := Run(s, after, cfg).history;
      && (i != j ==> history[i].id != history[j].id)
      && (history[i].id in s.enqueued ==> history[i] == RecordOf(s.enqueued[history[i].id]))
      && (history[i].id in Run(s, after, cfg).enqueued)
  {
    var s := Run(Init, before, cfg);
    Reachable(before, cfg);
    RunKeepsInv(s, after, cfg);
    RunKeepsEnqueued(s, after, cfg);
    var history := Run(s, after, cfg).history;
    assert history[i] in history && history[j] in history;
  }

  /** No loss: every enqueued message is still a row with its content, or was deleted;
      and a processed or deleted one is at the broker. */
  lemma NothingLost(before: seq<Action>, after: seq<Action>, cfg: Settings, id: nat)
    requires id in Run(Init, before, cfg).enqueued
    ensures
      var event := Run(Init, before, cfg).enqueued[id];
      var s := Run(Run(Init, before, cfg), after, cfg);
      && (id in s.rows || id in s.removed)
      && (id in s.rows ==> s.rows[id].event == event)
      && (id in s.removed || s.rows[id].status == Processed ==> event in s.broker)
  {
    var s := Run(Init, before, cfg);
    Reachable(before, cfg);
    RunKeepsInv(s, after, cfg);
    RunKeepsEnqueued(s, after, cfg);
    var t := Run(s, after, cfg);
    assert id in t.rows ==> RowOk(t, id);
  }

  /** A broker entry that reaches the consumer without a fault leaves its record in
      history: what producers may enqueue, the consumer never rejects. */
  lemma DeliveryRecords(actions: seq<Action>, cfg: Settings, k: nat)
    requires k < |Run(Init, actions, cfg).broker|
    ensures var s := Run(Init, actions, cfg);
            RecordOf(s.broker[k]) in Step(s, Deliver(k, Fine), cfg).history
  {
    var s := Run(Init, actions, cfg);
    Reachable(actions, cfg);
    assert s.broker[k] in s.broker;
    var t := Delivered(s, k, Fine);
    if t == s {
      var r :| r in s.history && r.id == s.broker[k].id;
    } else {
      assert t.history[|s.history|] in t.history;
    }
  }

  /** Two open transactions never hold the same row. */
  lemma BatchesDisjoint(actions: seq<Action>, cfg: Settings, v: nat, w: nat, i: nat, j: nat)
    requires var s := Run(Init, actions, cfg);
             v in s.works && w in s.works && i < |s.works[v].batch| && j < |s.works[w].batch| && (v != w || i != j)
    ensures var s := Run(Init, actions, cfg);
            s.works[v].batch[i].event.id != s.works[w].batch[j].event.id
  {
    var s := Run(Init, actions, cfg);
    Reachable(actions, cfg);
    assert WorkOk(s, s.works[v]);
    assert s.works[v].batch[i] in s.works[v].batch && s.works[w].batch[j] in s.works[w].batch;
    assert Holds(s.works[v], s.works[v].batch[i].event.id) && Holds(s.works[w], s.works[w].batch[j].event.id);
  }

  ghost predicate ProcessedAs(s: State, id: nat, row: Message) {
    id in s.removed || (id in s.rows && s.rows[id] == row)
  }

  /** No worker holds a processed row, so no commit writes it. */
  lemma ProcessedNotHeld(s: State, w: nat, id: nat)
    requires Inv(s) && w in s.works && id in s.rows && s.rows[id].status == Processed
    ensures !Holds(s.works[w], id)
  {
    assert WorkOk(s, s.works[w]);
  }

  lemma FinishKeepsProcessed(s: State, w: nat, savedAt: int, fault: Fault, cfg: Settings, id: nat)
    requires Inv(s) && id in s.rows && s.rows[id].status == Processed
    ensures var t := Finished(s, w, savedAt, fault, cfg); id in t.rows && t.rows[id] == s.rows[id]
  {
    FinishRows(s, w, savedAt, fault, cfg);
    if Finished(s, w, savedAt, fault, cfg).rows != s.rows {
      ProcessedNotHeld(s, w, id);
      CommitRows(s, w, savedAt, cfg);
    }
  }

  lemma StepKeepsProcessed(s: State, a: Action, cfg: Settings, id: nat, row: Message)
    requires Inv(s) && ProcessedAs(s, id, row) && row.status == Processed
    ensures ProcessedAs(Step(s, a, cfg), id, row)
  {
    if id in s.removed {
      StepKeepsEnqueued(s, a, cfg);
    } else {
      assert RowOk(s, id);
      if a.Finish? {
        FinishKeepsProcessed(s, a.w, a.savedAt, a.fault, cfg, id);
      }
    }
  }

  lemma {:induction false} RunKeepsProcessed(s: State, actions: seq<Action>, cfg: Settings, id: nat, row: Message)
    requires Inv(s) && ProcessedAs(s, id, row) && row.status == Processed
    ensures ProcessedAs(Run(s, actions, cfg), id, row)
    decreases |actions|
  {
    if actions != [] {
      StepKeepsProcessed(s, actions[0], cfg, id, row);
      StepKeepsInv(s, actions[0], cfg);
      RunKeepsProcessed(Step(s, actions[0], cfg), actions[1..], cfg, id, row);
    }
  }

  /** A processed row never reverts and never changes again: it stays or is deleted. */
  lemma ProcessedIsFinal(before: seq<Action>, after: seq<Action>, cfg: Settings, id: nat)
    requires var s := Run(Init, before, cfg); id in s.rows && s.rows[id].status == Processed
    ensures ProcessedAs(Run(Run(Init, before, cfg), after, cfg), id, Run(Init, before, cfg).rows[id])
  {
    Reachable(before, cfg);
    RunKeepsProcessed(Run(Init, before, cfg), after, cfg, id, Run(Init, before, cfg).rows[id]);
  }

  /** The committed table of a publisher run is determined by its contract. */
  lemma SettledUnique(
      cfg: Settings, rows: Rows, a: Rows, b: Rows, batch: seq<Message>, attempts: seq<Attempt>, n: nat, savedAt: int)
    requires n <= |batch| && n <= |attempts|
    requires Settled(cfg, rows, a, batch, attempts, n, savedAt) && Settled(cfg, rows, b, batch, attempts, n, savedAt)
    ensures a == b
  {
    forall id | id in rows ensures a[id] == b[id] {
      if i :| 0 <= i < n && batch[i].event.id == id {
        assert a[batch[i].event.id] == b[batch[i].event.id];
      }
    }
  }
}
