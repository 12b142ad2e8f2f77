/** The publisher's capped exponential backoff, in nanoseconds. */
module Backoff {
  import opened RateLimit

  function Pow2(n: nat): (p: int)
    ensures p >= 1
  {
    if n == 0 then 1 else 2 * Pow2(n - 1)
  }

  function Min(a: int, b: int): int { if a <= b then a else b }

  /** The delay before jitter for the n-th attempt, as a closed form. */
  function Capped(initial: int, maximum: int, attempt: int): int {
    Min(initial * (if attempt <= 1 then 1 else Pow2(attempt - 1)), maximum)
  }

  lemma {:induction false} Pow2Grows(m: nat, n: nat)
    requires m <= n
    ensures Pow2(m) <= Pow2(n)
    decreases n
  {
    if m < n {
      Pow2Grows(m, n - 1);
    }
  }

  /** A 64-bit duration: every value of this type that a body forms is proved in range. */
  newtype Duration = d: int | -MAX_INT64 - 1 <= d <= MAX_INT64

  /** The loop computes the closed form, in 64 bits, and its doublings are logarithmic in
      the ratio of the settings. */
  method RetryDelay(initial: Duration, maximum: Duration, attempt: int) returns (delay: Duration, doublings: nat)
    requires 0 < initial && 0 < maximum
    ensures delay as int == Capped(initial as int, maximum as int, attempt)
    ensures 0 < delay <= maximum
    ensures doublings > 0 ==> initial as int * Pow2(doublings) <= maximum as int
  {
    delay, doublings := initial, 0;
    var n := 1;
    while n < attempt && delay < maximum
      invariant 1 <= n && (n <= attempt || n == 1) && doublings == n - 1
      invariant delay as int == initial as int * Pow2(n - 1)
      invariant 0 < delay
      invariant doublings > 0 ==> delay <= maximum
      decreases attempt - n
    {
      if delay > maximum / 2 {
        Pow2Grows(n, attempt - 1);
        MulMono(Pow2(n), Pow2(attempt - 1), initial as int);
        assert initial as int * Pow2(n) == 2 * delay as int;
        delay := maximum;
        return;
      }
      delay, doublings, n := delay * 2, doublings + 1, n + 1;
    }
    if n < attempt {
      Pow2Grows(n - 1, attempt - 1);
      MulMono(Pow2(n - 1), Pow2(attempt - 1), initial as int);
    }
    delay := if delay <= maximum then delay else maximum;
  }

  /** The delay starts at the initial backoff and doubles until the maximum cuts it off. */
  lemma CappedDoubles(initial: int, maximum: int, attempt: int)
    requires initial > 0 && maximum > 0
    ensures attempt <= 1 ==> Capped(initial, maximum, attempt) == if initial <= maximum then initial else maximum
    ensures attempt >= 1 ==>
              var delay := Capped(initial, maximum, attempt);
              Capped(initial, maximum, attempt + 1) == if 2 * delay <= maximum then 2 * delay else maximum
  {
    if attempt > 1 {
      assert initial * Pow2(attempt) == 2 * (initial * Pow2(attempt - 1));
    }
  }

  /** The delay never decreases with the attempt number. */
  lemma CappedMonotone(initial: int, maximum: int, a: int, b: int)
    requires initial > 0 && a <= b
    ensures Capped(initial, maximum, a) <= Capped(initial, maximum, b)
  {
    if a > 1 {
      Pow2Grows(a - 1, b - 1);
      MulMono(Pow2(a - 1), Pow2(b - 1), initial);
    } else if b > 1 {
      MulMono(1, Pow2(b - 1), initial);
    }
  }

  /** The jitter scales by a random factor in [1/2, 1); the result is truncated. */
  function Jittered(delay: int, u: real): int {
    (delay as real * (0.5 + u / 2.0)).Floor
  }

  lemma ProductSign(a: real, b: real)
    requires a >= 0.0 && b >= 0.0
    ensures a * b >= 0.0 && (a > 0.0 && b > 0.0 ==> a * b > 0.0)
  {
  }

  /** The real product behind the jitter. */
  lemma Scaled(d: real, factor: real) returns (r: real)
    requires d >= 0.0 && 0.5 <= factor < 1.0
    ensures r == d * factor && 0.5 * d <= r <= d
    ensures d > 0.0 ==> r < d
  {
    r := d * factor;
    ProductSign(d, factor - 0.5);
    ProductSign(d, 1.0 - factor);
    assert r - 0.5 * d == d * (factor - 0.5);
    assert d - r == d * (1.0 - factor);
  }

  lemma FloorRange(r: real, delay: int)
    requires delay >= 0 && 0.5 * delay as real <= r <= delay as real && (delay > 0 ==> r < delay as real)
    ensures delay / 2 <= r.Floor <= delay
    ensures r.Floor > 0 <==> delay >= 2
  {
    assert (delay / 2) as real <= 0.5 * delay as real;
  }

  lemma ScaledFloor(delay: int, factor: real)
    requires delay >= 0 && 0.5 <= factor < 1.0
    ensures delay / 2 <= (delay as real * factor).Floor <= delay
    ensures (delay as real * factor).Floor > 0 <==> delay >= 2
  {
    var r := Scaled(delay as real, factor);
    FloorRange(r, delay);
  }

  /** Between half the delay and the delay; zero exactly for a delay below 2 ns. */
  lemma JitterRange(delay: int, u: real)
    requires delay >= 0 && 0.0 <= u < 1.0
    ensures delay / 2 <= Jittered(delay, u) <= delay
    ensures Jittered(delay, u) > 0 <==> delay >= 2
  {
    ScaledFloor(delay, 0.5 + u / 2.0);
  }
}
