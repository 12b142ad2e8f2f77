/** What a publish attempt may do, and that the outbox delivers: an undisturbed message
    goes from its producer to history. */
module OutboxDelivery {
  import opened Options
  import opened Outbox
  import opened AuthEvents
  import opened OutboxProtocol
  import opened OutboxSafety

  /** A producer's message is stored iff its data is valid and its ID fresh, as a pending
      row that was never attempted. */
  lemma EnqueueStoresIff(s: State, e: Event, topic: string, cfg: Settings)
    requires e.id !in s.enqueued
    ensures
      var t := Step(s, Enqueue(e, topic), cfg);
      if e.id != 0 && e.createdAt != 0 && e.aggregate >= 1 && 3 <= |e.kind| <= 100
      then e.id in t.rows && t.rows == s.rows[e.id := t.rows[e.id]] && t.enqueued == s.enqueued[e.id := e]
           && t.rows[e.id].event == e && t.rows[e.id].topic == topic && t.rows[e.id].status == Pending
           && t.rows[e.id].processedAt == None && t.rows[e.id].nextAttempt == None && t.rows[e.id].retryCount == 0
      else t == s
  {
  }

  /** The event of the next message of a worker that goes on. */
  function NextEvent(s: State, w: nat): Event
    requires w in s.works && Going(s.works[w])
  {
    s.works[w].batch[|s.works[w].attempts|].event
  }

  /** One publish: a nil result means the broker took the event; an event that does not
      marshal, or found no slot, is neither taken nor may it be taken later; after any
      other error it was taken or may still be. */
  lemma PublishReaches(s: State, w: nat, a: Attempt, accepted: bool, cfg: Settings)
    requires w in s.works && Going(s.works[w])
    ensures
      var e := NextEvent(s, w);
      var t := Step(s, Publish(w, a, accepted), cfg);
      && (a.marshals && a.outcome.Accepted? ==> t.broker == s.broker + [e] && t.late == s.late)
      && (!a.marshals || (a.outcome.Refused? && a.outcome.capacity) ==> t.broker == s.broker && t.late == s.late)
      && (a.marshals && a.outcome.Refused? && !a.outcome.capacity ==>
            (t.broker == s.broker + [e] && t.late == s.late) || (t.broker == s.broker && t.late == s.late + {e}))
      && t.rows == s.rows
  {
  }

  /** A worker publishes on iff messages are left and nothing stopped its loop. */
  lemma GoingIff(w: Work)
    requires |w.attempts| <= |w.batch|
    ensures Going(w) <==>
              && |w.attempts| < |w.batch|
              && forall a | a in w.attempts :: !Breaks(a) && !NoSlot(a) && !TimedOut(a)
  {
    var n := |w.attempts|;
    CommitsIff(w.attempts, 0, n, n);
    assert forall j | 0 <= j < n :: w.attempts[j] in w.attempts;
    assert forall a | a in w.attempts :: exists j | 0 <= j < n :: w.attempts[j] == a;
  }

  /** A worker selects nothing while its transaction is open. */
  lemma BusySelectsNothing(s: State, w: nat, batch: seq<Message>, limit: nat, now: int, cfg: Settings)
    requires w in s.works
    ensures Step(s, Select(w, batch, limit, now), cfg) == s
  {
  }

  // ---- An undisturbed delivery ----

  const NICE := Attempt(true, Accepted, false, 0, 0.0)

  lemma PublishedOnce(s: State, w: nat, batch: seq<Message>)
    requires w in s.works && s.works[w] == Work(batch, []) && |batch| == 1
    ensures var t := Published(s, w, NICE, true);
            && t.works == s.works[w := Work(batch, [NICE])] && t.broker == s.broker + [batch[0].event]
            && t.rows == s.rows && t.history == s.history
  {
    GoingIff(Work(batch, []));
    assert s.works[w].attempts + [NICE] == [NICE];
  }

  lemma FinishedOnce(s: State, w: nat, batch: seq<Message>, savedAt: int, cfg: Settings)
    requires w in s.works && s.works[w] == Work(batch, [NICE]) && |batch| == 1
    ensures var t := Finished(s, w, savedAt, Fine, cfg);
            && t.rows == s.rows[batch[0].event.id := ProcessedRow(batch[0], savedAt)]
            && t.broker == s.broker && t.history == s.history
  {
    var attempts := [NICE];
    CommitsIff(attempts, 0, 1, 1);
    assert PlanFrom(attempts, 0, 1) == Commit(1);
    assert SettledRows(cfg, s.rows, batch, attempts, 0, savedAt) == s.rows;
    assert SettledRows(cfg, s.rows, batch, attempts, 1, savedAt)
           == s.rows[batch[0].event.id := NewRow(cfg, batch[0], attempts[0], savedAt)];
    assert !Going(Work(batch, attempts));
  }

  lemma DeliveredOnce(s: State, k: nat, e: Event)
    requires k < |s.broker| && s.broker[k] == e && Complete(e) && !Recorded(s.history, e.id)
    ensures Delivered(s, k, Fine) == s.(history := s.history + [RecordOf(e)])
  {
  }

  /** The state after one message was stored, selected, accepted, committed and handled. */
  ghost function Undisturbed(
      s: State, e: Event, topic: string, w: nat, batch: seq<Message>, limit: nat, now: int, savedAt: int, cfg: Settings): State
  {
    var selected := Step(Step(s, Enqueue(e, topic), cfg), Select(w, batch, limit, now), cfg);
    var published := Step(selected, Publish(w, NICE, true), cfg);
    Step(Step(published, Finish(w, savedAt, Fine), cfg), Deliver(|selected.broker|, Fine), cfg)
  }

  /** From any reachable state such a message ends up processed and in history. */
  lemma UndisturbedDelivery(
      actions: seq<Action>, e: Event, topic: string, w: nat, batch: seq<Message>, limit: nat, now: int, savedAt: int, cfg: Settings)
    requires var s := Run(Init, actions, cfg); Valid(e) && e.id !in s.enqueued && w !in s.works
    requires var stored := Step(Run(Init, actions, cfg), Enqueue(e, topic), cfg);
             IsBatch(batch, stored.rows, LockedIds(stored), now, limit) && |batch| == 1 && batch[0].event == e
    ensures var t := Undisturbed(Run(Init, actions, cfg), e, topic, w, batch, limit, now, savedAt, cfg);
            && e.id in t.rows && t.rows[e.id].status == Processed && t.rows[e.id].processedAt == Some(savedAt)
            && RecordOf(e) in t.history && e in t.broker
  {
    var s := Run(Init, actions, cfg);
    Reachable(actions, cfg);
    var stored := Enqueued(s, e, topic);
    var selected := Selected(stored, w, batch, limit, now);
    assert selected == stored.(works := stored.works[w := Work(batch, [])]);
    PublishedOnce(selected, w, batch);
    var published := Published(selected, w, NICE, true);
    FinishedOnce(published, w, batch, savedAt, cfg);
    var finished := Finished(published, w, savedAt, Fine, cfg);
    assert finished.history == s.history && finished.broker == s.broker + [e];
    DeliveredOnce(finished, |s.broker|, e);
  }

  /** That batch can be selected: the message, alone and due at once. */
  lemma FirstMessageSelectable(e: Event, topic: string, now: int, cfg: Settings)
    requires Valid(e)
    ensures var stored := Step(Init, Enqueue(e, topic), cfg);
            e.id in stored.rows && IsBatch([stored.rows[e.id]], stored.rows, LockedIds(stored), now, 1)
  {
    var stored := Enqueued(Init, e, topic);
    var m := stored.rows[e.id];
    assert stored.rows == map[e.id := m];
    assert LockedIds(stored) == {};
    assert DueKeys(stored.rows, {}, now) == {KeyOf(m)};
    assert Keys([m]) == [KeyOf(m)];
  }
}
