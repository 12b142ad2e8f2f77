/** The consumer of authentication events: one history record per event. */
module AuthEvents {
  import opened Options
  import opened Outbox

  /** A row of auth_users_history. */
  datatype Record = Record(id: nat, occurredAt: int, user: int, kind: string, data: seq<int>)

  function RecordOf(e: Event): Record { Record(e.id, e.createdAt, e.aggregate, e.kind, e.payload) }

  /** validateEvent: no required field is missing. */
  predicate Complete(e: Event) {
    e.id != 0 && e.createdAt != 0 && e.aggregate > 0 && e.kind != ""
  }

  predicate Recorded(history: seq<Record>, id: nat) {
    exists r | r in history :: r.id == id
  }

  /** The insert does nothing when the event ID is already there. */
  function Inserted(history: seq<Record>, record: Record): seq<Record> {
    if Recorded(history, record.id) then history else history + [record]
  }

  ghost predicate OncePerEvent(history: seq<Record>) {
    forall i, j | 0 <= i < j < |history| :: history[i].id != history[j].id
  }

  lemma InsertKeepsOnce(history: seq<Record>, record: Record)
    requires OncePerEvent(history)
    ensures OncePerEvent(Inserted(history, record))
    ensures Recorded(Inserted(history, record), record.id)
    ensures Inserted(Inserted(history, record), record) == Inserted(history, record)
  {
    assert forall i | 0 <= i < |history| :: history[i] in history;
    assert !Recorded(history, record.id) ==> record in history + [record];
  }

  /** A permanent error goes to the dead letters, any other is delivered again. */
  datatype Handling = Done | Permanent | Again

  class AuthEventSubscriber {
    var history: seq<Record>

    constructor ()
      ensures history == []
    {
      history := [];
    }

    method SaveUserHistoryRecord(record: Record)
      modifies this
      ensures history == Inserted(old(history), record)
    {
      if !Recorded(history, record.id) {
        history := history + [record];
      }
    }

    /** Exactly the events that do not decode or miss a field are dropped for good. Any
        other leaves at most one record of its ID, with the event's own data if it is the
        first, and none but that; handling it again changes nothing. */
    method HandleEvent(decoded: Option<Event>, fault: Fault) returns (r: Handling)
      requires OncePerEvent(history)
      modifies this
      ensures r.Permanent? <==>
                || decoded.None?
                || decoded.value.id == 0 || decoded.value.createdAt == 0
                || decoded.value.aggregate <= 0 || decoded.value.kind == ""
      ensures r.Done? ==> fault == Fine && Recorded(history, decoded.value.id)
      ensures r.Again? ==> fault != Fine
      ensures OncePerEvent(history)
      ensures history == old(history) || (decoded.Some? && |history| == |old(history)| + 1 && old(history) < history)
      ensures history != old(history) ==>
                var e, record := decoded.value, history[|old(history)|];
                && !Recorded(old(history), e.id)
                && record.id == e.id && record.occurredAt == e.createdAt && record.user == e.aggregate
                && record.kind == e.kind && record.data == e.payload
      ensures r.Permanent? || fault == Lost ==> history == old(history)
    {
      if decoded.None? || !Complete(decoded.value) {
        return Permanent;
      }
      InsertKeepsOnce(history, RecordOf(decoded.value));
      if fault == Lost {
        return Again;
      }
      SaveUserHistoryRecord(RecordOf(decoded.value));
      return if fault == Fine then Done else Again;
    }
  }
}
