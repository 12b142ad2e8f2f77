/** From the configured rate and window to the admitted requests. */
module RatePromise {
  import opened RateLimit
  import opened Gcra

  /** No period of one window, in nanoseconds, admits more than burst + rate requests. */
  ghost predicate KeepsRate(window: int, rate: int, interval: int, burst: int) {
    forall allowed: seq<int>, i: nat, j: nat ::
      i <= j < |allowed| && Admitted(allowed, interval, burst) && (allowed[j] - allowed[i]) * 1000 <= window
      ==> j - i + 1 <= burst + rate
  }

  /** Truncating the interval to microseconds keeps the promise iff the truncated
      interval still fits the window at most `rate` times. */
  lemma KeepsRateIff(window: int, rate: int, interval: int, burst: int)
    requires window > 0 && interval > 0 && burst > 0
    ensures KeepsRate(window, rate, interval, burst) <==> window / 1000 / interval <= rate
  {
    var span := window / 1000;
    if span / interval <= rate {
      forall allowed: seq<int>, i: nat, j: nat
        | i <= j < |allowed| && Admitted(allowed, interval, burst) && (allowed[j] - allowed[i]) * 1000 <= window
        ensures j - i + 1 <= burst + rate
      {
        var elapsed := allowed[j] - allowed[i];
        WindowBound(allowed, i, j, interval, burst);
        DivBound(elapsed, elapsed / interval, interval);
        DivBound(span, elapsed / interval, interval);
      }
    } else {
      var allowed := WindowBoundTight(span, interval, burst);
      DivBound(span, 0, interval);
      assert (allowed[|allowed| - 1] - allowed[0]) * 1000 <= window;
    }
  }

  /** An interval of whole microseconds loses nothing, so the promise holds. */
  lemma WholeMicrosKeepRate(window: int, rate: int, burst: int)
    requires window > 0 && rate > 0 && burst > 0
    requires Interval(window, rate) % 1000 == 0
    ensures KeepsRate(window, rate, Micros(Interval(window, rate)), burst)
  {
    var nanos := Interval(window, rate);
    IntervalIsLeast(window, rate, nanos);
    if nanos <= 0 {
      MulMono(nanos, 0, rate);
    }
    var micros := Micros(nanos);
    assert nanos == 1000 * micros;
    assert rate * nanos == 1000 * (rate * micros);
    assert (rate + 1) * micros == rate * micros + micros;
    DivBound(window / 1000, rate + 1, micros);
    KeepsRateIff(window, rate, micros, burst);
  }

  /** 999999 requests a second give 1001 ns, truncated to 1 us: one request too many. */
  lemma TruncatedIntervalBreaksRate(burst: int)
    requires burst > 0
    ensures Interval(1_000_000_000, 999_999) == 1001
    ensures !KeepsRate(1_000_000_000, 999_999, Micros(Interval(1_000_000_000, 999_999)), burst)
  {
    KeepsRateIff(1_000_000_000, 999_999, 1, burst);
  }
}
