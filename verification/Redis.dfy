/** The Redis store: one atomic script per request. */
module Redis {
  import opened Options
  import opened RateLimit
  import opened Gcra
  import opened Expiry

  /** The key's lifetime in microseconds: PX takes whole milliseconds, at least one. */
  function Lifetime(ttl: int): int {
    (if ttl / 1_000_000 < 1 then 1 else ttl / 1_000_000) * 1000
  }

  class RedisLimiter {
    var cells: map<string, Cell>

    constructor ()
      ensures cells == map[]
    {
      cells := map[];
    }

    function CellOf(key: string): Option<Cell>
      reads this
    {
      if key in cells then Some(cells[key]) else None
    }

    /** The script, at the server's own time. Other keys are untouched. */
    method AllowRateLimit(key: string, interval: int, burst: int, ttl: int, now: int)
      returns (r: Result<bool, LimitError>)
      modifies this
      ensures r.Err? <==> Retention(interval, burst, ttl).Err?
      ensures r.Err? ==> cells == old(cells)
      ensures r.Ok? ==> r.value == Allows(Live(old(CellOf(key)), now), now, Micros(interval), burst)
      ensures r.Ok? ==> CellOf(key) == AfterExpiring(old(CellOf(key)), now, Micros(interval), burst,
                                                     Lifetime(Retention(interval, burst, ttl).value), true)
      ensures r.Ok? ==>
                var stored, retention := old(CellOf(key)), Retention(interval, burst, ttl).value;
                var seen := stored.Some? && now < stored.value.deadline;
                var tat := if seen && stored.value.tat >= now then stored.value.tat else now;
                var deadline := now + (if retention < 1_000_000 then 1 else retention / 1_000_000) * 1000;
                && (r.value <==> now >= tat - (burst - 1) * Micros(interval))
                && (r.value ==> CellOf(key) == Some(Cell(tat + Micros(interval), deadline)))
                && (!r.value && seen ==> CellOf(key) == Some(Cell(stored.value.tat, deadline)))
      ensures forall k | k != key :: (k in cells <==> k in old(cells)) && (k in cells ==> cells[k] == old(cells)[k])
    {
      var retention := Retention(interval, burst, ttl);
      if retention.Err? {
        return Err(retention.error);
      }
      var micros, lifetime := Micros(interval), Lifetime(retention.value);
      var stored := Live(CellOf(key), now);
      var tat := now;
      if stored.Some? && stored.value >= now {
        tat := stored.value;
      }
      var allowAt := tat - (burst - 1) * micros;
      if now < allowAt {
        if stored.Some? {
          cells := cells[key := Cell(stored.value, now + lifetime)];
        }
        return Ok(false);
      }
      cells := cells[key := Cell(tat + micros, now + lifetime)];
      return Ok(true);
    }
  }

  /** The script decides like a store that never forgets, on every request list with
      non-decreasing server times, iff the truncated lifetime covers a full refill. */
  lemma LifetimeSufficesIff(interval: int, burst: nat, ttl: int)
    requires Retention(interval, burst, ttl).Ok?
    ensures var micros, lifetime := Micros(interval), Lifetime(Retention(interval, burst, ttl).value);
            lifetime >= burst * micros
            <==> forall times :: Ordered(times) ==>
                   DecideExpiring(times, micros, burst, lifetime, true) == Decide(times, micros, burst)
  {
    ExpiryUnobservableIff(Micros(interval), burst, Lifetime(Retention(interval, burst, ttl).value), true);
  }

  /** A retention of whole milliseconds is enough iff the interval was not rounded up to
      a microsecond, or the retention covers a refill at the rounded interval. */
  lemma WholeMillisSufficeIff(interval: int, burst: nat, ttl: int)
    requires ttl <= MAX_INT64
    requires Retention(interval, burst, ttl).Ok? && Retention(interval, burst, ttl).value % 1_000_000 == 0
    ensures var micros, retention := Micros(interval), Retention(interval, burst, ttl).value;
            (interval >= 1000 || retention >= burst * 1000)
            <==> forall times :: Ordered(times) ==>
                   DecideExpiring(times, micros, burst, Lifetime(retention), true) == Decide(times, micros, burst)
  {
    RetentionCoversRefill(interval, burst, ttl);
    var micros, retention := Micros(interval), Retention(interval, burst, ttl).value;
    if interval >= 1000 {
      MulMono(micros * 1000, interval, burst);
      assert burst * (micros * 1000) == (burst * micros) * 1000;
    }
    assert Lifetime(retention) * 1000 == retention;
    LifetimeSufficesIff(interval, burst, ttl);
  }

  /** A 1.5 ms interval with a burst of one keeps its key for 1 ms only: the script
      admits a second request the bucket would refuse. */
  lemma TruncatedLifetimeOverAdmits()
    ensures Retention(1_500_000, 1, 1_000_000) == Ok(1_500_000)
    ensures var times := TwoBursts(1, 1000);
            && DecideExpiring(times, Micros(1_500_000), 1, Lifetime(1_500_000), true) == [true, true]
            && Decide(times, Micros(1_500_000), 1) == [true, false]
  {
    var times := TwoBursts(1, 1000);
    assert times == [0, 1000];
    assert times[..1] == [0] && times[..1][..0] == [];
  }
}
