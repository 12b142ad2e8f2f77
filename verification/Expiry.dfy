/** A store that forgets a bucket some time after its last write, compared with one
    that remembers forever. */
module Expiry {
  import opened Options
  import opened RateLimit
  import opened Gcra

  /** A stored time that is visible before its deadline. */
  datatype Cell = Cell(tat: int, deadline: int)

  function Live(cell: Option<Cell>, now: int): Option<int> {
    if cell.Some? && now < cell.value.deadline then Some(cell.value.tat) else None
  }

  /** One request against the expiring store; a denial may renew the deadline. */
  function AfterExpiring(cell: Option<Cell>, now: int, interval: int, burst: int, retention: int, renew: bool)
    : Option<Cell>
  {
    var seen := Live(cell, now);
    if Allows(seen, now, interval, burst) then Some(Cell(Effective(seen, now) + interval, now + retention))
    else if renew && seen.Some? then Some(Cell(seen.value, now + retention))
    else cell
  }

  function CellAfter(times: seq<int>, interval: int, burst: int, retention: int, renew: bool): Option<Cell>
    decreases |times|
  {
    if times == [] then None
    else
      var last := |times| - 1;
      AfterExpiring(CellAfter(times[..last], interval, burst, retention, renew), times[last],
                    interval, burst, retention, renew)
  }

  function DecideExpiring(times: seq<int>, interval: int, burst: int, retention: int, renew: bool): (r: seq<bool>)
    ensures |r| == |times|
    decreases |times|
  {
    if times == [] then []
    else
      var last := |times| - 1;
      DecideExpiring(times[..last], interval, burst, retention, renew)
      + [Allows(Live(CellAfter(times[..last], interval, burst, retention, renew), times[last]), times[last], interval, burst)]
  }

  /** From this time on, forgetting makes no difference. */
  ghost predicate Agree(cell: Option<Cell>, tat: Option<int>, from: int, interval: int, burst: int) {
    && (forall t | t >= from :: Effective(Live(cell, t), t) == Effective(tat, t))
    && (tat.Some? ==> tat.value <= from + burst * interval)
  }

  lemma StepAgrees(cell: Option<Cell>, tat: Option<int>, now: int, interval: int, burst: int, retention: int, renew: bool)
    requires interval > 0 && burst > 0 && retention >= burst * interval
    requires Agree(cell, tat, now, interval, burst)
    ensures Allows(Live(cell, now), now, interval, burst) == Allows(tat, now, interval, burst)
    ensures Agree(AfterExpiring(cell, now, interval, burst, retention, renew), After(tat, now, interval, burst),
                  now, interval, burst)
  {
    var full, refill := burst * interval, (burst - 1) * interval;
    assert refill == full - interval;
    MulMono(1, burst, interval);
    assert Effective(Live(cell, now), now) == Effective(tat, now);
  }

  lemma {:induction false} RunsAgree(times: seq<int>, interval: int, burst: int, retention: int, renew: bool)
    requires interval > 0 && burst > 0 && retention >= burst * interval && Ordered(times)
    ensures DecideExpiring(times, interval, burst, retention, renew) == Decide(times, interval, burst)
    ensures forall from :: (times != [] ==> times[|times| - 1] <= from) ==>
              Agree(CellAfter(times, interval, burst, retention, renew), Memory(times, interval, burst),
                    from, interval, burst)
    decreases |times|
  {
    if times != [] {
      var last := |times| - 1;
      RunsAgree(times[..last], interval, burst, retention, renew);
      StepAgrees(CellAfter(times[..last], interval, burst, retention, renew),
                 Memory(times[..last], interval, burst), times[last], interval, burst, retention, renew);
    }
  }

  function Repeat(t: int, n: nat): seq<int> { seq(n, _ => t) }

  /** Two full bursts, the second when the store has just forgotten the first. */
  function TwoBursts(burst: nat, retention: int): seq<int> {
    Repeat(0, burst) + Repeat(retention, burst)
  }

  /** The k-th request of a burst passes, and moves the cell by at most one interval. */
  lemma BurstStep(cell: Option<Cell>, now: int, k: nat, interval: int, burst: nat, retention: int, renew: bool)
    requires interval > 0 && k < burst
    requires Live(cell, now).Some? ==> Live(cell, now).value <= now + k * interval
    ensures Allows(Live(cell, now), now, interval, burst)
    ensures var next := AfterExpiring(cell, now, interval, burst, retention, renew);
            next.Some? && next.value.tat <= now + (k + 1) * interval && next.value.deadline == now + retention
  {
    MulMono(k, burst - 1, interval);
    MulMono(0, k, interval);
    assert (k + 1) * interval == k * interval + interval;
  }

  /** What the cell shows to request n of the two bursts. */
  ghost predicate ShowsRoom(times: seq<int>, n: nat, interval: int, burst: nat, retention: int, renew: bool)
    requires n < |times|
  {
    var seen := Live(CellAfter(times[..n], interval, burst, retention, renew), times[n]);
    seen.Some? ==> seen.value <= times[n] + (if n < burst then n else n - burst) * interval
  }

  lemma {:induction false} BurstsFindRoom(interval: int, burst: nat, retention: int, renew: bool, n: nat)
    requires interval > 0 && retention >= 0 && n < 2 * burst
    ensures ShowsRoom(TwoBursts(burst, retention), n, interval, burst, retention, renew)
    ensures 0 < n <= burst ==>
              var cell := CellAfter(TwoBursts(burst, retention)[..n], interval, burst, retention, renew);
              cell.Some? && cell.value.deadline == retention
    decreases n
  {
    var times := TwoBursts(burst, retention);
    if n > 0 {
      BurstsFindRoom(interval, burst, retention, renew, n - 1);
      assert times[..n][..n - 1] == times[..n - 1];
      var k := if n - 1 < burst then n - 1 else n - 1 - burst;
      var cell := CellAfter(times[..n - 1], interval, burst, retention, renew);
      BurstStep(cell, times[n - 1], k, interval, burst, retention, renew);
    }
  }

  lemma {:induction false} ForgottenBurstsPass(interval: int, burst: nat, retention: int, renew: bool, n: nat)
    requires interval > 0 && retention >= 0 && n <= 2 * burst
    ensures forall i | 0 <= i < n ::
              DecideExpiring(TwoBursts(burst, retention)[..n], interval, burst, retention, renew)[i]
    decreases n
  {
    var times := TwoBursts(burst, retention);
    if n > 0 {
      ForgottenBurstsPass(interval, burst, retention, renew, n - 1);
      assert times[..n][..n - 1] == times[..n - 1];
      BurstsFindRoom(interval, burst, retention, renew, n - 1);
      var k := if n - 1 < burst then n - 1 else n - 1 - burst;
      BurstStep(CellAfter(times[..n - 1], interval, burst, retention, renew), times[n - 1], k,
                interval, burst, retention, renew);
    }
  }

  lemma AllDecidedTrue(times: seq<int>, interval: int, burst: int)
    requires forall i | 0 <= i < |times| :: Decide(times, interval, burst)[i]
    ensures Granted(times, interval, burst) == times
    decreases |times|
  {
    if times != [] {
      var last := |times| - 1;
      forall i | 0 <= i < last ensures Decide(times[..last], interval, burst)[i] {
        assert Decide(times, interval, burst)[i];
      }
      AllDecidedTrue(times[..last], interval, burst);
      assert Decide(times, interval, burst)[last];
      assert times[..last] + [times[last]] == times;
    }
  }

  /** With a shorter retention the two bursts all pass, which no bucket allows. */
  lemma EarlyExpiryOverAdmits(interval: int, burst: nat, retention: int, renew: bool)
    requires interval > 0 && burst > 0 && 0 <= retention < burst * interval
    ensures var times := TwoBursts(burst, retention);
            Ordered(times) && DecideExpiring(times, interval, burst, retention, renew) != Decide(times, interval, burst)
  {
    var times := TwoBursts(burst, retention);
    ForgottenBurstsPass(interval, burst, retention, renew, 2 * burst);
    assert times[..2 * burst] == times;
    if DecideExpiring(times, interval, burst, retention, renew) == Decide(times, interval, burst) {
      AllDecidedTrue(times, interval, burst);
      MemoryOfGranted(times, interval, burst);
      WindowBound(times, 0, 2 * burst - 1, interval, burst);
      DivBound(retention, burst, interval);
      assert false;
    }
  }

  /** Forgetting is unobservable, on every request list with non-decreasing times,
      iff the retention covers a complete refill of the bucket. */
  lemma ExpiryUnobservableIff(interval: int, burst: nat, retention: int, renew: bool)
    requires interval > 0 && burst > 0 && retention >= 0
    ensures retention >= burst * interval
            <==> forall times :: Ordered(times) ==>
                   DecideExpiring(times, interval, burst, retention, renew) == Decide(times, interval, burst)
  {
    if retention >= burst * interval {
      forall times | Ordered(times)
        ensures DecideExpiring(times, interval, burst, retention, renew) == Decide(times, interval, burst)
      {
        RunsAgree(times, interval, burst, retention, renew);
      }
    } else {
      EarlyExpiryOverAdmits(interval, burst, retention, renew);
    }
  }
}
