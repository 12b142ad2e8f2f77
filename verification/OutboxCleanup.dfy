/** The outbox cleaner: bounded batches of processed rows past retention, oldest first. */
module OutboxCleanup {
  import opened Options
  import opened OldestFirst
  import opened Outbox

  function EligibleKeys(rows: Rows, before: int): set<Key> {
    set id | id in rows && Eligible(rows[id], before) :: Key(rows[id].processedAt.value, id)
  }

  /** gone is the oldest part of what was eligible, and exactly it was removed. */
  ghost predicate RemovedOldest(rows: Rows, after: Rows, gone: set<Key>, before: int) {
    && gone <= EligibleKeys(rows, before)
    && EligibleKeys(after, before) == EligibleKeys(rows, before) - gone
    && after == rows - Ids(gone)
    && forall g, k | g in gone && k in EligibleKeys(after, before) :: Before(g, k)
  }

  lemma PageIsOldest(rows: Rows, page: seq<Key>, before: int, limit: nat)
    requires IsPage(page, EligibleKeys(rows, before), limit)
    ensures RemovedOldest(rows, rows - Ids(Elements(page)), Elements(page), before)
    ensures |Elements(page)| == |page|
  {
    PageSize(page);
    var keys, gone := EligibleKeys(rows, before), Elements(page);
    forall k | k in keys - gone ensures k in EligibleKeys(rows - Ids(gone), before) {
      assert k.id in rows - Ids(gone) && k == Key(rows[k.id].processedAt.value, k.id);
    }
    forall k | k in EligibleKeys(rows - Ids(gone), before) ensures k in keys - gone {
      assert k in gone ==> k.id in Ids(gone);
    }
  }

  /** Two oldest parts, one after the other, make one oldest part. */
  lemma OldestCompose(rows: Rows, mid: Rows, after: Rows, first: set<Key>, second: set<Key>, before: int)
    requires RemovedOldest(rows, mid, first, before) && RemovedOldest(mid, after, second, before)
    ensures RemovedOldest(rows, after, first + second, before)
    ensures |first + second| == |first| + |second|
  {
    assert first !! second;
    assert Ids(first + second) == Ids(first) + Ids(second);
    assert rows - Ids(first) - Ids(second) == rows - Ids(first + second);
  }

  /** In full: what went was processed before the cutoff, nothing else went or changed, and
      whatever is still past retention was processed no earlier. */
  lemma RemovedOldestMeans(rows: Rows, after: Rows, gone: set<Key>, before: int)
    requires RemovedOldest(rows, after, gone, before)
    ensures after.Keys <= rows.Keys && forall id | id in after :: after[id] == rows[id]
    ensures forall id | id in rows && id !in after :: PastRetention(rows[id], before)
    ensures forall x, y | x in rows && x !in after && y in after && PastRetention(after[y], before) ::
              rows[x].processedAt.value <= after[y].processedAt.value
  {
    forall id | id in rows && id !in after
      ensures PastRetention(rows[id], before) && Key(rows[id].processedAt.value, id) in gone
    {
      var k :| k in gone && k.id == id;
      assert k in EligibleKeys(rows, before);
    }
    forall x, y | x in rows && x !in after && y in after && PastRetention(after[y], before)
      ensures rows[x].processedAt.value <= after[y].processedAt.value
    {
      assert Key(after[y].processedAt.value, y) in EligibleKeys(after, before);
      assert Before(Key(rows[x].processedAt.value, x), Key(after[y].processedAt.value, y));
    }
  }

  predicate PastRetention(m: Message, before: int) {
    m.status == Processed && m.processedAt.Some? && m.processedAt.value < before
  }

  /** Nothing is past retention iff no key is eligible, and the least key is the oldest. */
  lemma EligibleMeans(rows: Rows, before: int)
    ensures EligibleKeys(rows, before) == {} <==> forall id | id in rows :: !PastRetention(rows[id], before)
    ensures forall k | k in EligibleKeys(rows, before) ::
              k.id in rows && PastRetention(rows[k.id], before) && rows[k.id].processedAt.value == k.time
  {
    forall id | id in rows && PastRetention(rows[id], before)
      ensures Key(rows[id].processedAt.value, id) in EligibleKeys(rows, before)
    {
    }
  }

  datatype Cycle = Done(lag: int) | Canceled | Failed

  /** How many batches a cycle may start when the context is canceled by its nth check,
      if at all. */
  function Batches(canceledAt: Option<nat>, maxBatches: int): nat {
    if maxBatches <= 0 then 0
    else if canceledAt.Some? && canceledAt.value < maxBatches then canceledAt.value else maxBatches
  }

  function Budget(canceledAt: Option<nat>, maxBatches: int, batchSize: int): nat {
    if batchSize <= 0 then 0 else Product(Batches(canceledAt, maxBatches), batchSize)
  }

  class OutboxMessageCleaner {
    const batchSize: int
    const maxBatches: int
    var rows: Rows

    constructor (rows: Rows, batchSize: int, maxBatches: int)
      ensures this.rows == rows && this.batchSize == batchSize && this.maxBatches == maxBatches
    {
      this.rows, this.batchSize, this.maxBatches := rows, batchSize, maxBatches;
    }

    /** One bounded batch: select the oldest, then delete those that still match. */
    method DeleteProcessedMessages(before: int, limit: int) returns (r: Result<nat, ()>, ghost gone: set<Key>)
      modifies this
      ensures r.Err? <==> limit <= 0
      ensures r.Err? ==> rows == old(rows)
      ensures r.Ok? ==>
                && RemovedOldest(old(rows), rows, gone, before)
                && r.value == |gone| == if |EligibleKeys(old(rows), before)| <= limit
                                        then |EligibleKeys(old(rows), before)| else limit
    {
      gone := {};
      if limit <= 0 {
        return Err(()), gone;
      }
      var page := Page(EligibleKeys(rows, before), limit);
      var ids := Ids(Elements(page));
      var matched := Removable(rows, ids, before);
      PageIsOldest(rows, page, before, limit);
      gone := Elements(page);
      forall id | id in ids ensures id in matched {
        var k :| k in gone && k.id == id;
        assert k in EligibleKeys(rows, before);
      }
      assert matched == ids;
      rows := rows - matched;
      return Ok(|page|), gone;
    }

    /** The oldest eligible time, if any row is past retention. */
    method GetOldestProcessedMessageTime(before: int) returns (oldest: Option<int>)
      ensures oldest.None? <==> EligibleKeys(rows, before) == {}
      ensures oldest.Some? ==>
                && oldest.value < before
                && (exists k :: k in EligibleKeys(rows, before) && k.time == oldest.value)
                && forall k | k in EligibleKeys(rows, before) :: oldest.value <= k.time
    {
      var keys := EligibleKeys(rows, before);
      if keys == {} {
        return None;
      }
      var k := Least(keys);
      return Some(k.time);
    }

    /** One more batch of a cycle that has removed `prior` from `all`. */
    method DeleteNext(before: int, ghost all: Rows, ghost prior: set<Key>) returns (r: Result<nat, ()>, ghost gone: set<Key>)
      requires RemovedOldest(all, rows, prior, before)
      modifies this
      ensures RemovedOldest(all, rows, gone, before)
      ensures r.Err? <==> batchSize <= 0
      ensures r.Err? ==> gone == prior
      ensures r.Ok? ==> |gone| == |prior| + r.value && r.value <= batchSize
      ensures r.Ok? ==> |gone| <= |EligibleKeys(all, before)|
      ensures r.Ok? && r.value < batchSize ==> |gone| == |EligibleKeys(all, before)|
    {
      ghost var mid := rows;
      ghost var more;
      r, more := DeleteProcessedMessages(before, batchSize);
      if r.Err? {
        return r, prior;
      }
      OldestCompose(all, mid, rows, prior, more, before);
      gone := prior + more;
      Covered(mid, rows, more, before);
      Covered(all, rows, gone, before);
    }

    /** The batch loop; `checks` counts the times it looked at the context. */
    method DeleteBatches(before: int, canceledAt: Option<nat>) returns (checks: nat, failed: bool, ghost gone: set<Key>)
      modifies this
      ensures RemovedOldest(old(rows), rows, gone, before)
      ensures |gone| == Smaller(|EligibleKeys(old(rows), before)|, Budget(canceledAt, maxBatches, batchSize))
      ensures failed <==> batchSize <= 0 && maxBatches > 0 && canceledAt != Some(0)
      ensures canceledAt.Some? ==> checks <= canceledAt.value
    {
      gone, checks, failed := {}, 0, false;
      assert rows - Ids(gone) == rows;
      while checks < maxBatches && canceledAt != Some(checks)
        invariant canceledAt.Some? ==> checks <= canceledAt.value
        invariant checks <= maxBatches || checks == 0
        invariant checks > 0 ==> batchSize > 0
        invariant RemovedOldest(old(rows), rows, gone, before)
        invariant |gone| == if batchSize > 0 then Product(checks, batchSize) else 0
        invariant |gone| <= |EligibleKeys(old(rows), before)|
        decreases maxBatches - checks
      {
        var deleted;
        deleted, gone := DeleteNext(before, old(rows), gone);
        if deleted.Err? {
          return checks, true, gone;
        }
        ProductGrows(checks, checks + 1, batchSize);
        checks := checks + 1;
        if deleted.value < batchSize {
          ProductGrows(checks, Batches(canceledAt, maxBatches), batchSize);
          break;
        }
      }
    }

    /** One cycle deletes exactly the oldest min(eligible, budget) rows, and unless it
        was canceled reports a zero lag iff no eligible row remains. */
    method Run(before: int, canceledAt: Option<nat>) returns (r: Cycle, ghost gone: set<Key>)
      modifies this
      ensures RemovedOldest(old(rows), rows, gone, before)
      ensures |gone| == Smaller(|EligibleKeys(old(rows), before)|, Budget(canceledAt, maxBatches, batchSize))
      ensures r.Failed? <==> batchSize <= 0 && maxBatches > 0 && canceledAt != Some(0)
      ensures r.Canceled? ==> canceledAt.Some?
      ensures r.Done? ==> r.lag >= 0 && (r.lag == 0 <==> EligibleKeys(rows, before) == {})
      ensures r.Done? && r.lag > 0 ==> exists k :: k in EligibleKeys(rows, before) && r.lag == before - k.time
      ensures rows.Keys <= old(rows).Keys && forall id | id in rows :: rows[id] == old(rows)[id]
      ensures forall id | id in old(rows) && id !in rows :: PastRetention(old(rows)[id], before)
      ensures r.Done? ==> (r.lag == 0 <==> forall id | id in rows :: !PastRetention(rows[id], before))
    {
      var checks, failed;
      checks, failed, gone := DeleteBatches(before, canceledAt);
      RemovedOldestMeans(old(rows), rows, gone, before);
      EligibleMeans(rows, before);
      if failed {
        return Cycle.Failed, gone;
      }
      if canceledAt == Some(checks) {
        return Canceled, gone;
      }
      var oldest := GetOldestProcessedMessageTime(before);
      r := Done(if oldest.Some? then before - oldest.value else 0);
    }
  }

  function Smaller(a: int, b: int): int { if a <= b then a else b }

  function Product(n: nat, size: nat): nat { n * size }

  lemma ProductGrows(n: nat, m: nat, size: nat)
    requires n <= m
    ensures Product(n, size) <= Product(m, size)
    ensures Product(n + 1, size) == Product(n, size) + size
  {
  }

  lemma Covered(all: Rows, after: Rows, gone: set<Key>, before: int)
    requires RemovedOldest(all, after, gone, before)
    ensures |EligibleKeys(all, before)| == |gone| + |EligibleKeys(after, before)|
  {
    assert EligibleKeys(all, before) == gone + EligibleKeys(after, before);
  }
}
