/** Memcached expirations: whole seconds, relative up to 30 days and absolute beyond. */
module MemcachedExpiry {
  import opened Options
  import opened RateLimit
  import opened Gcra

  const SECOND := 1_000_000_000
  const MICROS_PER_SECOND := 1_000_000
  const RELATIVE_LIMIT := 30 * 24 * 60 * 60
  const MAX_INT32 := 0x7FFF_FFFF

  /** The seconds that cover a TTL in nanoseconds. */
  function CeilSeconds(ttl: int): int {
    ttl / SECOND + if ttl % SECOND != 0 then 1 else 0
  }

  /** They are the fewest that do, and whole seconds cover themselves. */
  lemma CeilIsLeast(ttl: int, seconds: int)
    ensures CeilSeconds(ttl) <= seconds <==> ttl <= seconds * 1_000_000_000
  {
  }

  function Expiration(now: int, ttl: int, padding: int): Option<int> {
    var seconds := CeilSeconds(ttl) + padding;
    var expiration := if seconds > RELATIVE_LIMIT then seconds + now / MICROS_PER_SECOND else seconds;
    if expiration > MAX_INT32 then None else Some(expiration)
  }

  /** Up to 30 days a duration, beyond them a Unix time. */
  function AsExpiration(now: int, seconds: int): int {
    if seconds > 2_592_000 then now / 1_000_000 + seconds else seconds
  }

  method ExpirationSeconds(now: int, ttl: int, padding: int) returns (r: Option<int>)
    requires now >= 0 && ttl >= 0 && padding >= 0
    ensures r == Expiration(now, ttl, padding)
    ensures r.Some? <==> AsExpiration(now, CeilSeconds(ttl) + padding) <= 0x7FFF_FFFF
    ensures r.Some? ==> r.value == AsExpiration(now, CeilSeconds(ttl) + padding)
    ensures r.Some? && ttl > 0 ==> forall setAt, clock |
              now <= setAt && Hidden(Deadline(r.value, setAt), clock) ::
              (clock - now) * 1000 > ttl + (padding - 1) * SECOND
  {
    var seconds := ttl / SECOND;
    if ttl % SECOND != 0 {
      seconds := seconds + 1;
    }
    seconds := seconds + padding;
    if seconds > RELATIVE_LIMIT {
      seconds := seconds + now / MICROS_PER_SECOND;
    }
    if seconds > MAX_INT32 {
      return None;
    }
    if ttl > 0 {
      forall setAt, clock | now <= setAt && Hidden(Deadline(seconds, setAt), clock)
        ensures (clock - now) * 1000 > ttl + (padding - 1) * SECOND
      {
        PaddingCoversTtl(now, setAt, ttl, padding, clock);
      }
    }
    return Some(seconds);
  }

  /** The server reads small values as relative to its own clock, which counts whole
      seconds, and large ones as Unix time. */
  function Deadline(expiration: int, setAt: int): int {
    if expiration > RELATIVE_LIMIT then expiration else setAt / MICROS_PER_SECOND + expiration
  }

  predicate Hidden(deadline: int, clock: int) {
    deadline <= clock / MICROS_PER_SECOND
  }

  /** The client's choice of mode is the one the server reads back. */
  lemma ModesAgree(now: int, ttl: int, padding: int, setAt: int)
    requires 0 <= now && ttl > 0 && padding >= 0 && Expiration(now, ttl, padding).Some?
    ensures var e := Expiration(now, ttl, padding).value;
            && 0 < e <= MAX_INT32
            && Deadline(e, setAt) == CeilSeconds(ttl) + padding
                 + (if CeilSeconds(ttl) + padding > RELATIVE_LIMIT then now else setAt) / MICROS_PER_SECOND
  {
  }

  /** Clock rounding costs less than one second, and each padding second adds one: with
      a padding of one an entry stored no earlier than its client's sample is visible for
      more than the whole TTL after that sample, in both modes. */
  lemma PaddingCoversTtl(now: int, setAt: int, ttl: int, padding: int, clock: int)
    requires 0 <= now <= setAt && ttl > 0 && padding >= 0 && Expiration(now, ttl, padding).Some?
    requires Hidden(Deadline(Expiration(now, ttl, padding).value, setAt), clock)
    ensures (clock - now) * 1000 > ttl + (padding - 1) * SECOND
  {
    ModesAgree(now, ttl, padding, setAt);
    assert CeilSeconds(ttl) * SECOND >= ttl;
  }

  /** Without it, a one-second entry can vanish after a microsecond. */
  lemma UnpaddedVanishesEarly()
    ensures Expiration(999_999, SECOND, 0) == Some(1)
    ensures Hidden(Deadline(1, 999_999), 1_000_000)
  {
  }

  /** The guarded 64-bit products: the tolerance is in range, and a stored time is at most
      one refill ahead, so it is in range while the clock leaves room for a refill - for
      intervals of at least a microsecond, during 99.9% of the range. */
  lemma StoredTimesFit(interval: int, burst: int, ttl: int, tat: Option<int>, now: int)
    requires ttl <= MAX_INT64 && Retention(interval, burst, ttl).Ok?
    ensures 0 <= (burst - 1) * Micros(interval) < burst * Micros(interval) <= MAX_INT64
    ensures interval >= 1000 ==> burst * Micros(interval) <= MAX_INT64 / 1000
    ensures Allows(tat, now, Micros(interval), burst) ==>
              Effective(tat, now) + Micros(interval) <= now + burst * Micros(interval)
  {
    RetentionCoversRefill(interval, burst, ttl);
    var micros := Micros(interval);
    assert (burst - 1) * micros == burst * micros - micros;
    MulMono(0, burst - 1, micros);
    MulMono(micros, interval, burst);
    if interval >= 1000 {
      MulMono(micros * 1000, interval, burst);
      assert burst * (micros * 1000) == (burst * micros) * 1000;
    }
  }
}
