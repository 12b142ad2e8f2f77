/** The generic cell rate algorithm that both stores run, and what it decides: exactly
    a token bucket, exactly a bound on every window. Times are microseconds. */
module Gcra {
  import opened Options
  import opened RateLimit

  /** The stored theoretical arrival time, not earlier than now. */
  function Effective(tat: Option<int>, now: int): int {
    if tat.None? || tat.value < now then now else tat.value
  }

  predicate Allows(tat: Option<int>, now: int, interval: int, burst: int) {
    now >= Effective(tat, now) - (burst - 1) * interval
  }

  function After(tat: Option<int>, now: int, interval: int, burst: int): Option<int> {
    if Allows(tat, now, interval, burst) then Some(Effective(tat, now) + interval) else tat
  }

  /** The stored time after a list of requests, starting from an empty store. */
  function Memory(times: seq<int>, interval: int, burst: int): Option<int>
    decreases |times|
  {
    if times == [] then None
    else
      var last := |times| - 1;
      After(Memory(times[..last], interval, burst), times[last], interval, burst)
  }

  /** The decisions on a list of request times, in order. */
  function Decide(times: seq<int>, interval: int, burst: int): (r: seq<bool>)
    ensures |r| == |times|
    decreases |times|
  {
    if times == [] then []
    else
      var last := |times| - 1;
      Decide(times[..last], interval, burst)
      + [Allows(Memory(times[..last], interval, burst), times[last], interval, burst)]
  }

  ghost predicate Ordered(times: seq<int>) {
    forall i, j :: 0 <= i < j < |times| ==> times[i] <= times[j]
  }

  // ---- Refinement of the token bucket ----

  /** A bucket of `burst` tokens that refills one token per interval, lazily. */
  datatype Bucket = Bucket(tokens: real, at: int)

  function Refilled(b: Bucket, now: int, interval: int, burst: int): Bucket
    requires interval > 0
  {
    var tokens := b.tokens + (now - b.at) as real / interval as real;
    Bucket(if tokens < burst as real then tokens else burst as real, now)
  }

  function Spend(b: Bucket): (bool, Bucket) {
    if b.tokens >= 1.0 then (true, b.(tokens := b.tokens - 1.0)) else (false, b)
  }

  /** The bucket after a list of requests; it starts full. */
  function BucketAfter(times: seq<int>, start: int, interval: int, burst: int): Bucket
    requires interval > 0
    decreases |times|
  {
    if times == [] then Bucket(burst as real, start)
    else
      var last := |times| - 1;
      Spend(Refilled(BucketAfter(times[..last], start, interval, burst), times[last], interval, burst)).1
  }

  function BucketDecide(times: seq<int>, start: int, interval: int, burst: int): (r: seq<bool>)
    requires interval > 0
    ensures |r| == |times|
    decreases |times|
  {
    if times == [] then []
    else
      var last := |times| - 1;
      BucketDecide(times[..last], start, interval, burst)
      + [Spend(Refilled(BucketAfter(times[..last], start, interval, burst), times[last], interval, burst)).0]
  }

  /** The bucket misses exactly the time by which the arrival time is ahead. */
  ghost predicate Linked(tat: Option<int>, b: Bucket, interval: int, burst: int) {
    b.tokens * interval as real == (burst * interval - (Effective(tat, b.at) - b.at)) as real
  }

  lemma RefillLinked(tat: Option<int>, b: Bucket, now: int, interval: int, burst: int)
    requires interval > 0 && b.at <= now && Linked(tat, b, interval, burst)
    ensures Linked(tat, Refilled(b, now, interval, burst), interval, burst)
  {
    var i := interval as real;
    var dt := (now - b.at) as real;
    assert (b.tokens + dt / i) * i == b.tokens * i + dt;
    assert (burst * interval) as real == burst as real * i;
    var sum := b.tokens + dt / i;
    assert sum < burst as real <==> sum * i < burst as real * i;
  }

  lemma TokenScale(tokens: real, credit: int, interval: int)
    requires interval > 0 && tokens * interval as real == credit as real
    ensures tokens >= 1.0 <==> credit >= interval
    ensures (tokens - 1.0) * interval as real == (credit - interval) as real
  {
    var i := interval as real;
    assert tokens >= 1.0 <==> tokens * i >= i;
  }

  lemma SpendLinked(tat: Option<int>, b: Bucket, interval: int, burst: int)
    requires interval > 0 && Linked(tat, b, interval, burst)
    ensures Spend(b).0 == Allows(tat, b.at, interval, burst)
    ensures Spend(b).1.at == b.at && Linked(After(tat, b.at, interval, burst), Spend(b).1, interval, burst)
  {
    var full, refill := burst * interval, (burst - 1) * interval;
    assert refill == full - interval;
    var credit := full - (Effective(tat, b.at) - b.at);
    TokenScale(b.tokens, credit, interval);
    assert Allows(tat, b.at, interval, burst) <==> credit >= interval;
  }

  lemma {:induction false} StaysLinked(times: seq<int>, start: int, interval: int, burst: int)
    requires interval > 0 && Ordered(times) && (times != [] ==> start <= times[0])
    ensures
      var b := BucketAfter(times, start, interval, burst);
      && b.at == (if times == [] then start else times[|times| - 1])
      && Linked(Memory(times, interval, burst), b, interval, burst)
      && Decide(times, interval, burst) == BucketDecide(times, start, interval, burst)
    decreases |times|
  {
    if times == [] {
      assert (burst * interval) as real == burst as real * interval as real;
    } else {
      var last := |times| - 1;
      var init := times[..last];
      StaysLinked(init, start, interval, burst);
      var before := BucketAfter(init, start, interval, burst);
      RefillLinked(Memory(init, interval, burst), before, times[last], interval, burst);
      SpendLinked(Memory(init, interval, burst), Refilled(before, times[last], interval, burst), interval, burst);
    }
  }

  /** On every request list with non-decreasing times, the arrival-time form decides
      like a bucket that starts full. */
  lemma RefinesTokenBucket(times: seq<int>, start: int, interval: int, burst: int)
    requires interval > 0 && Ordered(times) && (times != [] ==> start <= times[0])
    ensures Decide(times, interval, burst) == BucketDecide(times, start, interval, burst)
  {
    StaysLinked(times, start, interval, burst);
  }

  // ---- Windows ----

  /** The arrival time left by a list of allowed requests, in any order of times. */
  function TatOf(allowed: seq<int>, interval: int): Option<int>
    decreases |allowed|
  {
    if allowed == [] then None
    else
      var last := |allowed| - 1;
      Some(Effective(TatOf(allowed[..last], interval), allowed[last]) + interval)
  }

  lemma TatOfAppend(allowed: seq<int>, now: int, interval: int)
    ensures TatOf(allowed + [now], interval) == Some(Effective(TatOf(allowed, interval), now) + interval)
  {
    assert (allowed + [now])[..|allowed|] == allowed;
  }

  /** The window that opens at request i and takes one interval per request from there. */
  ghost predicate EndsBy(allowed: seq<int>, i: nat, interval: int, x: int)
    requires i < |allowed|
  {
    allowed[i] + (|allowed| - i) * interval <= x
  }

  /** The stored time is the latest of those ends. */
  lemma {:induction false} TatIsWindowEnd(allowed: seq<int>, interval: int, x: int)
    requires interval > 0 && allowed != []
    ensures TatOf(allowed, interval).value <= x
            <==> forall i :: 0 <= i < |allowed| ==> EndsBy(allowed, i, interval, x)
    decreases |allowed|
  {
    var last := |allowed| - 1;
    var init := allowed[..last];
    assert EndsBy(allowed, last, interval, x) <==> allowed[last] + interval <= x;
    assert last == 0 ==> init == [];
    if last > 0 {
      var rest := x - interval;
      TatIsWindowEnd(init, interval, rest);
      forall i | 0 <= i < last
        ensures EndsBy(allowed, i, interval, x) <==> EndsBy(init, i, interval, rest)
      {
        assert (|allowed| - i) * interval == (|init| - i) * interval + interval;
      }
    }
  }

  /** Requests from index i on, including one at time now, fit the window they span. */
  ghost predicate FitsWindow(allowed: seq<int>, i: nat, now: int, interval: int, burst: int)
    requires interval > 0 && i < |allowed|
  {
    |allowed| - i + 1 <= burst + (now - allowed[i]) / interval
  }

  lemma FitsIffEnds(allowed: seq<int>, i: nat, now: int, interval: int, burst: int)
    requires interval > 0 && i < |allowed|
    ensures FitsWindow(allowed, i, now, interval, burst)
            <==> EndsBy(allowed, i, interval, now + (burst - 1) * interval)
  {
    var ahead := |allowed| - i;
    DivBound(now - allowed[i], ahead - (burst - 1), interval);
    assert (ahead - (burst - 1)) * interval == ahead * interval - (burst - 1) * interval;
  }

  /** The decision, without reference to any stored state: a request is allowed iff
      every window from an earlier allowed request to it, itself included, holds at
      most burst + elapsed / interval requests. Clocks may run backwards. */
  lemma AllowsIffWindowsFit(allowed: seq<int>, now: int, interval: int, burst: int)
    requires interval > 0 && burst > 0
    ensures Allows(TatOf(allowed, interval), now, interval, burst)
            <==> forall i :: 0 <= i < |allowed| ==> FitsWindow(allowed, i, now, interval, burst)
  {
    var limit := now + (burst - 1) * interval;
    MulMono(0, burst - 1, interval);
    forall i | 0 <= i < |allowed|
      ensures FitsWindow(allowed, i, now, interval, burst) <==> EndsBy(allowed, i, interval, limit)
    {
      FitsIffEnds(allowed, i, now, interval, burst);
    }
    if allowed != [] {
      TatIsWindowEnd(allowed, interval, limit);
      assert Allows(TatOf(allowed, interval), now, interval, burst) <==> TatOf(allowed, interval).value <= limit;
    }
  }

  /** Every request of the list was allowed when it came. */
  ghost predicate Admitted(allowed: seq<int>, interval: int, burst: int) {
    forall k :: 0 <= k < |allowed| ==> Allows(TatOf(allowed[..k], interval), allowed[k], interval, burst)
  }

  /** The requests that were allowed, in commit order. */
  function Granted(times: seq<int>, interval: int, burst: int): seq<int>
    decreases |times|
  {
    if times == [] then []
    else
      var last := |times| - 1;
      Granted(times[..last], interval, burst)
      + if Allows(Memory(times[..last], interval, burst), times[last], interval, burst) then [times[last]] else []
  }

  lemma AdmitMore(allowed: seq<int>, now: int, interval: int, burst: int)
    requires Admitted(allowed, interval, burst) && Allows(TatOf(allowed, interval), now, interval, burst)
    ensures Admitted(allowed + [now], interval, burst)
  {
    var more := allowed + [now];
    forall k | 0 <= k < |more| ensures Allows(TatOf(more[..k], interval), more[k], interval, burst) {
      assert more[..k] == allowed[..k];
      assert allowed[..|allowed|] == allowed;
    }
  }

  /** Denied requests leave no trace: the stored time is that of the granted ones alone. */
  lemma {:induction false} MemoryOfGranted(times: seq<int>, interval: int, burst: int)
    ensures Memory(times, interval, burst) == TatOf(Granted(times, interval, burst), interval)
    ensures Admitted(Granted(times, interval, burst), interval, burst)
    decreases |times|
  {
    if times != [] {
      var last := |times| - 1;
      MemoryOfGranted(times[..last], interval, burst);
      var granted := Granted(times[..last], interval, burst);
      if Allows(TatOf(granted, interval), times[last], interval, burst) {
        AdmitMore(granted, times[last], interval, burst);
        TatOfAppend(granted, times[last], interval);
      } else {
        assert granted + [] == granted;
      }
    }
  }

  /** Between any two admitted requests, in commit order and whatever their clocks. */
  lemma WindowBound(allowed: seq<int>, i: nat, j: nat, interval: int, burst: int)
    requires interval > 0 && burst > 0 && i <= j < |allowed| && Admitted(allowed, interval, burst)
    ensures j - i + 1 <= burst + (allowed[j] - allowed[i]) / interval
  {
    if i < j {
      AllowsIffWindowsFit(allowed[..j], allowed[j], interval, burst);
      assert FitsWindow(allowed[..j], i, allowed[j], interval, burst);
    }
  }

  /** A burst at time 0, then one request per interval. */
  function Greedy(n: nat, interval: int, burst: int): seq<int> {
    seq(n, k requires 0 <= k < n => if k < burst then 0 else (k - burst + 1) * interval)
  }

  lemma GreedyFits(n: nat, interval: int, burst: int, k: nat, i: nat)
    requires interval > 0 && burst > 0 && i < k < n
    ensures FitsWindow(Greedy(n, interval, burst)[..k], i, Greedy(n, interval, burst)[k], interval, burst)
  {
    var g := Greedy(n, interval, burst);
    if k < burst {
      DivBound(0, 0, interval);
    } else if i < burst {
      DivBound(g[k], k - burst + 1, interval);
    } else {
      assert g[k] - g[i] == (k - i) * interval;
      DivBound(g[k] - g[i], k - i, interval);
    }
  }

  /** The window bound is attained: some admitted list puts burst + span / interval
      requests into the span. */
  lemma WindowBoundTight(span: int, interval: int, burst: int) returns (allowed: seq<int>)
    requires interval > 0 && burst > 0 && span >= 0
    ensures Admitted(allowed, interval, burst)
    ensures |allowed| == burst + span / interval
    ensures forall i, j :: 0 <= i <= j < |allowed| ==> 0 <= allowed[j] - allowed[i] <= span
  {
    DivBound(span, 0, interval);
    DivBound(span, span / interval, interval);
    var n := burst + span / interval;
    allowed := Greedy(n, interval, burst);
    forall k | 0 <= k < n ensures Allows(TatOf(allowed[..k], interval), allowed[k], interval, burst) {
      forall i | 0 <= i < k ensures FitsWindow(allowed[..k], i, allowed[k], interval, burst) {
        GreedyFits(n, interval, burst, k, i);
      }
      AllowsIffWindowsFit(allowed[..k], allowed[k], interval, burst);
    }
    forall i, j | 0 <= i <= j < n ensures 0 <= allowed[j] - allowed[i] <= span {
      if j >= burst {
        MulMono(j - burst + 1, span / interval, interval);
        MulMono(0, j - burst + 1, interval);
        if i >= burst {
          MulMono(i - burst + 1, j - burst + 1, interval);
          MulMono(0, i - burst + 1, interval);
        }
      }
    }
  }
}
