/** The limiter configuration: the interval between tokens and the bucket's retention,
    in nanoseconds, with Go's 64-bit bounds written out. */
module RateLimit {
  import opened Options

  const MAX_INT64 := 0x7FFF_FFFF_FFFF_FFFF

  datatype LimitError = NonPositive | RefillOverflow

  /** The time one token takes to refill, rounded up. */
  function Interval(window: int, rate: int): int
    requires window > 0 && rate > 0
  {
    window / rate + if window % rate != 0 then 1 else 0
  }

  function Retention(interval: int, burst: int, ttl: int): Result<int, LimitError> {
    if interval <= 0 || burst <= 0 || ttl <= 0 then Err(NonPositive)
    else if burst > MAX_INT64 / interval then Err(RefillOverflow)
    else Ok(if ttl >= interval * burst then ttl else interval * burst)
  }

  /** Both stores count whole microseconds, at least one. */
  function Micros(interval: int): int
    requires interval > 0
  {
    if interval / 1000 < 1 then 1 else interval / 1000
  }

  lemma MulMono(a: int, b: int, k: int)
    requires a <= b && k >= 0
    ensures a * k <= b * k && k * a <= k * b
  {
  }

  /** Floor division against a bound, for either sign of the dividend. */
  lemma DivBound(n: int, q: int, d: int)
    requires d > 0
    ensures q <= n / d <==> q * d <= n
  {
    assert n == n / d * d + n % d;
    if q <= n / d {
      MulMono(q, n / d, d);
    } else {
      MulMono(n / d + 1, q, d);
    }
  }

  /** The interval is the least one that spreads `rate` tokens over the whole window. */
  lemma IntervalIsLeast(window: int, rate: int, shorter: int)
    requires window > 0 && rate > 0
    ensures Interval(window, rate) * rate >= window
    ensures shorter < Interval(window, rate) ==> shorter * rate < window
  {
    assert window == window / rate * rate + window % rate;
    if shorter < Interval(window, rate) {
      if window % rate == 0 {
        MulMono(shorter, window / rate - 1, rate);
      } else {
        MulMono(shorter, window / rate, rate);
      }
    }
  }

  /** The guard rejects exactly the refill times beyond 64 bits, and what it returns
      covers a complete refill. */
  lemma RetentionCoversRefill(interval: int, burst: int, ttl: int)
    requires ttl <= MAX_INT64
    ensures var r := Retention(interval, burst, ttl);
            r.Ok? <==> interval > 0 && burst > 0 && ttl > 0 && interval * burst <= MAX_INT64
    ensures var r := Retention(interval, burst, ttl);
            r.Ok? ==> ttl <= r.value <= MAX_INT64 && interval * burst <= r.value &&
                      (r.value == ttl || r.value == interval * burst)
  {
    if interval > 0 {
      DivBound(MAX_INT64, burst, interval);
    }
  }

  /** A second pass over an accepted retention changes nothing: the limiter and the
      store both apply it. */
  lemma RetentionIdempotent(interval: int, burst: int, ttl: int)
    requires ttl <= MAX_INT64 && Retention(interval, burst, ttl).Ok?
    ensures Retention(interval, burst, Retention(interval, burst, ttl).value) == Retention(interval, burst, ttl)
  {
    RetentionCoversRefill(interval, burst, ttl);
    MulMono(1, burst, interval);
  }
}
