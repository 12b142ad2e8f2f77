/** The session cleaner: bounded batches of expired sessions until none is left. */
module SessionCleanup {
  import opened OldestFirst
  import opened SessionRows

  const BATCH := 1000

  function ExpiredKeys(sessions: map<Id, Session>, cutoff: int): set<Key> {
    set sid | sid in sessions && sessions[sid].expires <= cutoff :: Key(sessions[sid].expires, sid)
  }

  /** The guard of the delete, which tests the expiry again. */
  function Matched(sessions: map<Id, Session>, ids: set<Id>, cutoff: int): set<Id> {
    set sid | sid in ids && sid in sessions && sessions[sid].expires <= cutoff
  }

  ghost predicate Reading(clock: nat -> int) {
    forall i, j | 0 <= i <= j :: clock(i) <= clock(j)
  }

  class SessionCleaner {
    var sessions: map<Id, Session>

    constructor (sessions: map<Id, Session>)
      ensures this.sessions == sessions
    {
      this.sessions := sessions;
    }

    /** One batch at its own cutoff: at most 1000 rows, all of them expired, and none
        when nothing is expired. */
    method DeleteExpiredSessions(cutoff: int) returns (deleted: nat)
      modifies this
      ensures sessions.Keys <= old(sessions).Keys && |sessions| == |old(sessions)| - deleted
      ensures forall sid | sid in sessions :: sessions[sid] == old(sessions)[sid]
      ensures forall sid | sid in old(sessions) && sid !in sessions :: old(sessions)[sid].expires <= cutoff
      ensures deleted == (if |ExpiredKeys(old(sessions), cutoff)| <= 1000
                          then |ExpiredKeys(old(sessions), cutoff)| else 1000)
      ensures forall x, y | x in old(sessions) && x !in sessions && y in sessions ::
                old(sessions)[x].expires <= sessions[y].expires
    {
      var page := Page(ExpiredKeys(sessions, cutoff), BATCH);
      var matched := Matched(sessions, Ids(Elements(page)), cutoff);
      MatchedSize(sessions, page, cutoff);
      OldestMatched(sessions, page, cutoff);
      assert (sessions - matched).Keys == sessions.Keys - matched;
      sessions := sessions - matched;
      return |page|;
    }

    /** The drain loop of one tick: it ends, nothing expired at its last cutoff is left,
        and every session that outlives that cutoff is untouched. */
    method Drain(clock: nat -> int) returns (batches: nat)
      requires Reading(clock)
      modifies this
      ensures batches > 0
      ensures sessions.Keys <= old(sessions).Keys
      ensures forall sid | sid in sessions :: sessions[sid] == old(sessions)[sid]
      ensures forall sid :: sid in sessions <==> sid in old(sessions) && old(sessions)[sid].expires > clock(batches - 1)
    {
      batches := 0;
      var deleted := 1;
      while deleted != 0
        invariant batches > 0 || deleted != 0
        invariant sessions.Keys <= old(sessions).Keys
        invariant forall sid | sid in sessions :: sessions[sid] == old(sessions)[sid]
        invariant forall sid | sid in old(sessions) && sid !in sessions ::
                    batches > 0 && old(sessions)[sid].expires <= clock(batches - 1)
        invariant deleted == 0 ==> ExpiredKeys(sessions, clock(batches - 1)) == {}
        decreases |sessions| + (if deleted != 0 then 1 else 0)
      {
        deleted := DeleteExpiredSessions(clock(batches));
        batches := batches + 1;
      }
      forall sid | sid in sessions ensures sessions[sid].expires > clock(batches - 1) {
        assert Key(sessions[sid].expires, sid) !in ExpiredKeys(sessions, clock(batches - 1));
      }
    }
  }

  /** Every row outside the page expires no earlier than those on it. */
  lemma OldestMatched(sessions: map<Id, Session>, page: seq<Key>, cutoff: int)
    requires IsPage(page, ExpiredKeys(sessions, cutoff), BATCH)
    ensures forall x, y | x in Ids(Elements(page)) && y in sessions && y !in Ids(Elements(page)) ::
              x in sessions && sessions[x].expires <= sessions[y].expires
  {
    var keys := ExpiredKeys(sessions, cutoff);
    forall x, y | x in Ids(Elements(page)) && y in sessions && y !in Ids(Elements(page))
      ensures x in sessions && sessions[x].expires <= sessions[y].expires
    {
      var k :| k in Elements(page) && k.id == x;
      assert k in keys && k == Key(sessions[x].expires, x);
      var l := Key(sessions[y].expires, y);
      assert l !in page;
      if l in keys {
        assert Before(k, l);
      }
    }
  }

  /** The selected rows are all still there and expired: the delete hits each of them. */
  lemma MatchedSize(sessions: map<Id, Session>, page: seq<Key>, cutoff: int)
    requires IsPage(page, ExpiredKeys(sessions, cutoff), BATCH)
    ensures Matched(sessions, Ids(Elements(page)), cutoff) == Ids(Elements(page))
    ensures |Ids(Elements(page))| == |page|
  {
    forall i, j | 0 <= i < j < |page| ensures page[i].id != page[j].id {
      assert page[i] in ExpiredKeys(sessions, cutoff) && page[j] in ExpiredKeys(sessions, cutoff);
      assert Before(page[i], page[j]);
    }
    PageIds(page);
    forall sid | sid in Ids(Elements(page)) ensures sid in Matched(sessions, Ids(Elements(page)), cutoff) {
      var k :| k in Elements(page) && k.id == sid;
      assert k in ExpiredKeys(sessions, cutoff);
    }
  }
}
