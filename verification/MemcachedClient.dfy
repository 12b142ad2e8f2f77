/** One client's compare-and-swap loop, as written, against a server that other
    clients change between any two of its operations. */
module MemcachedClient {
  import opened Options
  import opened RateLimit
  import opened Gcra
  import opened MemcachedExpiry
  import opened Memcached

  datatype Stored = Stored(tat: int, token: nat)

  datatype Swap = Swapped | Conflict | Missing

  /** What the other clients and the expiry did to the key meanwhile. */
  datatype Change = Unchanged | Gone | Replaced(tat: int)

  /** The outside world of one attempt. */
  datatype Attempt = Attempt(canceled: bool, now: int, beforeGet: Change, beforeStore: Change)

  /** The padded TTL does not fit memcached's 32-bit expiration. */
  predicate OutOfRange(now: int, retention: Result<int, LimitError>) {
    retention.Ok? && Expiration(now, retention.value, 1).None?
  }

  datatype ClientError = Rejected(reason: LimitError) | Canceled | TtlOutOfRange | KeyVanished | Contended

  class MemcachedKey {
    var item: Option<Stored>
    var tokens: nat

    /** Every value the key has had, the current one last, and how many this client stored. */
    ghost var history: seq<Option<int>>
    ghost var stores: nat

    ghost predicate Valid()
      reads this
    {
      && (item.Some? ==> item.value.token < tokens)
      && |history| > 0
      && history[|history| - 1] == Tat()
    }

    function Tat(): Option<int>
      reads this
    {
      if item.Some? then Some(item.value.tat) else None
    }

    constructor ()
      ensures Valid() && item == None && stores == 0
    {
      item, tokens, history, stores := None, 0, [None], 0;
    }

    /** The other clients: every store of theirs takes a new token. */
    method Others(change: Change)
      requires Valid()
      modifies this
      ensures Valid() && stores == old(stores) && tokens >= old(tokens)
      ensures old(history) <= history
      ensures item.Some? && item.value.token < old(tokens) ==> item == old(item)
      ensures change.Unchanged? ==> item == old(item)
      ensures change.Replaced? ==> item.Some?
      ensures change.Gone? ==> item.None?
    {
      match change
      case Unchanged =>
      case Gone =>
        item, history := None, history + [None];
      case Replaced(tat) =>
        item, tokens, history := Some(Stored(tat, tokens)), tokens + 1, history + [Some(tat)];
    }

    method Add(tat: int) returns (ok: bool)
      requires Valid()
      modifies this
      ensures Valid() && ok == old(item).None?
      ensures !ok ==> item == old(item) && history == old(history) && stores == old(stores) && tokens == old(tokens)
      ensures ok ==> Tat() == Some(tat) && history == old(history) + [Some(tat)] && stores == old(stores) + 1
    {
      ok := item.None?;
      if ok {
        item, tokens := Some(Stored(tat, tokens)), tokens + 1;
        history, stores := history + [Some(tat)], stores + 1;
      }
    }

    method CompareAndSwap(token: nat, tat: int) returns (r: Swap)
      requires Valid()
      modifies this
      ensures Valid()
      ensures r == (if old(item).None? then Missing else if old(item).value.token == token then Swapped else Conflict)
      ensures r != Swapped ==>
                item == old(item) && history == old(history) && stores == old(stores) && tokens == old(tokens)
      ensures r == Swapped ==> Tat() == Some(tat) && history == old(history) + [Some(tat)] && stores == old(stores) + 1
    {
      if item.None? {
        return Missing;
      }
      if item.value.token != token {
        return Conflict;
      }
      item, tokens := Some(Stored(tat, tokens)), tokens + 1;
      history, stores := history + [Some(tat)], stores + 1;
      return Swapped;
    }

    /** The last two values are one step of the algorithm at this sample. */
    ghost predicate LastStepGranted(now: int, unit: int, burst: int)
      reads this
    {
      && |history| >= 2
      && var before := history[|history| - 2];
         Allows(before, now, unit, burst) && history[|history| - 1] == After(before, now, unit, burst)
    }

    /** An allowed answer is exactly one store by this client, made of the very value it
        replaced; every other answer stored nothing; a denial was due on a value the key
        had during the call. Each error has its cause: contention, that others stored before
        every one of 16 stores, so one undisturbed attempt is enough for an answer. */
    method AllowRateLimit(interval: int, burst: int, ttl: int, attempts: seq<Attempt>)
      returns (r: Result<bool, ClientError>, now: int)
      requires Valid() && |attempts| == MAX_ATTEMPTS && forall i | 0 <= i < |attempts| :: attempts[i].now >= 0
      modifies this
      ensures Valid() && old(history) <= history
      ensures Retention(interval, burst, ttl).Err? <==> r.Err? && r.error.Rejected?
      ensures r.Ok? ==> interval > 0 && exists i :: 0 <= i < |attempts| && attempts[i].now == now
      ensures r == Ok(true) ==> stores == old(stores) + 1 && LastStepGranted(now, Micros(interval), burst)
      ensures r != Ok(true) ==> stores == old(stores)
      ensures r == Ok(false) ==>
                exists k :: |old(history)| - 1 <= k < |history| && history[k].Some? && !Allows(history[k], now, Micros(interval), burst)
      ensures r == Err(Contended) ==> forall i | 0 <= i < 16 :: attempts[i].beforeStore.Replaced?
      ensures r == Err(Canceled) ==> exists i :: 0 <= i < 16 && attempts[i].canceled
      ensures r == Err(KeyVanished) ==> exists i :: 0 <= i < 16 && attempts[i].beforeStore.Gone?
      ensures r == Err(TtlOutOfRange) ==>
                exists i :: 0 <= i < 16 && OutOfRange(attempts[i].now, Retention(interval, burst, ttl))
    {
      now := 0;
      var retention := Retention(interval, burst, ttl);
      if retention.Err? {
        return Err(Rejected(retention.error)), now;
      }
      var unit := Micros(interval);
      var burstTolerance := (burst - 1) * unit;
      MulMono(0, burst - 1, unit);
      for attempt := 0 to MAX_ATTEMPTS
        invariant Valid() && old(history) <= history && stores == old(stores)
        invariant forall i | 0 <= i < attempt :: attempts[i].beforeStore.Replaced?
      {
        if attempts[attempt].canceled {
          return Err(Canceled), now;
        }
        now := attempts[attempt].now;
        var expiration := ExpirationSeconds(now, retention.value, 1);
        if expiration.None? {
          return Err(TtlOutOfRange), now;
        }
        Others(attempts[attempt].beforeGet);
        var read := item;
        ghost var seenAt := |history| - 1;
        if read.None? {
          Others(attempts[attempt].beforeStore);
          var added := Add(now + unit);
          if added {
            assert history[|history| - 2] == None;
            return Ok(true), now;
          }
          continue;
        }
        var tat := read.value.tat;
        if tat < now {
          tat := now;
        }
        if now < tat - burstTolerance {
          assert !Allows(history[seenAt], now, unit, burst);
          return Ok(false), now;
        }
        Others(attempts[attempt].beforeStore);
        var swap := CompareAndSwap(read.value.token, tat + unit);
        match swap {
          case Swapped =>
            assert history[|history| - 2] == Some(read.value.tat);
            return Ok(true), now;
          case Missing =>
            return Err(KeyVanished), now;
          case Conflict =>
        }
      }
      return Err(Contended), now;
    }
  }
}
