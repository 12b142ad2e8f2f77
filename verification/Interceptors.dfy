/** The gRPC interceptor chain, assembled from the built-in interceptors and a map of
    extra ones that Go ranges over in an arbitrary order. */
module Interceptors {
  import opened StableSort
  import PQ = PriorityQueue

  const PREPROCESS := 1
  const BUSINESS_LOGIC := 4

  /** The chain a server must run: ascending by priority, and within one priority the
      built-in interceptors before the extra ones, each in their given order. */
  ghost predicate IsChain<T(!new)>(chain: seq<T>, builtin: seq<Item<T>>, extra: map<int, seq<T>>) {
    exists sorted: seq<Item<T>> :: Orders(sorted, builtin, extra) && chain == Values(sorted)
  }

  ghost predicate Orders<T>(sorted: seq<Item<T>>, builtin: seq<Item<T>>, extra: map<int, seq<T>>) {
    && Ascending(sorted)
    && forall p :: OfPriority(sorted, p) == OfPriority(builtin, p) + if p in extra then extra[p] else []
  }

  /** There is only one such chain, so map iteration order cannot matter. */
  lemma ChainUnique<T(!new)>(a: seq<T>, b: seq<T>, builtin: seq<Item<T>>, extra: map<int, seq<T>>)
    requires IsChain(a, builtin, extra) && IsChain(b, builtin, extra)
    ensures a == b
  {
    var x: seq<Item<T>> :| Orders(x, builtin, extra) && a == Values(x);
    var y: seq<Item<T>> :| Orders(y, builtin, extra) && b == Values(y);
    StableSortUnique(x, y);
  }

  /** The built-in interceptors: five that preprocess, then validation. */
  function Builtin<T>(requestId: T, logging: T, metrics: T, recovery: T, rateLimiter: T, validation: T): seq<Item<T>> {
    [Item(PREPROCESS, requestId), Item(PREPROCESS, logging), Item(PREPROCESS, metrics), Item(PREPROCESS, recovery),
     Item(PREPROCESS, rateLimiter), Item(BUSINESS_LOGIC, validation)]
  }

  /** What the queue holds after some priorities of the map were enqueued. */
  ghost predicate Enqueued<T>(items: seq<Item<T>>, builtin: seq<Item<T>>, extra: map<int, seq<T>>, left: set<int>) {
    forall p :: OfPriority(items, p) == OfPriority(builtin, p) + if p in extra && p !in left then extra[p] else []
  }

  lemma EnqueuedMore<T>(items: seq<Item<T>>, builtin: seq<Item<T>>, extra: map<int, seq<T>>, left: set<int>, priority: int)
    requires Enqueued(items, builtin, extra, left) && priority in left && priority in extra
    ensures Enqueued(items + PQ.Tagged(priority, extra[priority]), builtin, extra, left - {priority})
  {
    var tail := PQ.Tagged(priority, extra[priority]);
    forall p
      ensures OfPriority(items + tail, p)
              == OfPriority(builtin, p) + if p in extra && p !in left - {priority} then extra[p] else []
    {
      TaggedMore(items, priority, extra[priority], p);
      NothingMore(OfPriority(builtin, p), OfPriority(items, p), extra[priority]);
    }
  }

  lemma TaggedMore<T>(items: seq<Item<T>>, priority: int, values: seq<T>, p: int)
    ensures OfPriority(items + PQ.Tagged(priority, values), p) == OfPriority(items, p) + if p == priority then values else []
  {
    OfPriorityConcat(items, PQ.Tagged(priority, values), p);
    PQ.TaggedOfPriority(priority, values, p);
  }

  lemma NothingMore<T>(before: seq<T>, now: seq<T>, values: seq<T>)
    ensures before + [] == before && now + [] == now
    ensures now == before + [] ==> now + values == before + values
  {
  }

  method EnqueueAll<T>(queue: PQ.PriorityQueue<T>, priority: int, values: seq<T>)
    requires queue.Valid()
    modifies queue
    ensures queue.Valid() && queue.items == old(queue.items) + PQ.Tagged(priority, values)
  {
    for i := 0 to |values|
      invariant queue.Valid() && queue.items == old(queue.items) + PQ.Tagged(priority, values[..i])
    {
      queue.Enqueue(priority, values[i]);
      assert PQ.Tagged(priority, values[..i + 1]) == PQ.Tagged(priority, values[..i]) + [Item(priority, values[i])];
    }
    assert values[..|values|] == values;
  }

  method NewQueue<T>(requestId: T, logging: T, metrics: T, recovery: T, rateLimiter: T, validation: T)
    returns (queue: PQ.PriorityQueue<T>)
    ensures fresh(queue) && queue.Valid()
    ensures queue.items == Builtin(requestId, logging, metrics, recovery, rateLimiter, validation)
  {
    queue := new PQ.PriorityQueue<T>();
    queue.Enqueue(PREPROCESS, requestId);
    queue.Enqueue(PREPROCESS, logging);
    queue.Enqueue(PREPROCESS, metrics);
    queue.Enqueue(PREPROCESS, recovery);
    queue.Enqueue(PREPROCESS, rateLimiter);
    queue.Enqueue(BUSINESS_LOGIC, validation);
  }

  /** The next key of a map iteration: any of those left. */
  method AnyOf(left: set<int>) returns (priority: int)
    requires left != {}
    ensures priority in left
  {
    assert (forall p :: p !in left) ==> left == {};
    priority :| priority in left;
  }

  /** Ranges over the map in whatever order it comes. */
  method EnqueueExtras<T>(queue: PQ.PriorityQueue<T>, extra: map<int, seq<T>>)
    requires queue.Valid()
    modifies queue
    ensures queue.Valid() && Enqueued(queue.items, old(queue.items), extra, {})
  {
    var left := extra.Keys;
    NothingEnqueued(queue.items, extra);
    while left != {}
      invariant queue.Valid() && left <= extra.Keys
      invariant Enqueued(queue.items, old(queue.items), extra, left)
      decreases left
    {
      var priority := AnyOf(left);
      EnqueuedMore(queue.items, old(queue.items), extra, left, priority);
      EnqueueAll(queue, priority, extra[priority]);
      left := left - {priority};
    }
  }

  lemma NothingEnqueued<T>(builtin: seq<Item<T>>, extra: map<int, seq<T>>)
    ensures Enqueued(builtin, builtin, extra, extra.Keys)
  {
  }

  lemma SortedIsChain<T(!new)>(sorted: seq<Item<T>>, items: seq<Item<T>>, builtin: seq<Item<T>>, extra: map<int, seq<T>>)
    requires IsStableSort(sorted, items) && Enqueued(items, builtin, extra, {})
    ensures IsChain(Values(sorted), builtin, extra)
  {
    assert Orders(sorted, builtin, extra);
  }

  // ---- The usual chain ----

  /** The items of four priorities, in their order. */
  function Layers<T>(first: seq<T>, second: seq<T>, third: seq<T>, fourth: seq<T>): seq<Item<T>> {
    PQ.Tagged(1, first) + PQ.Tagged(2, second) + PQ.Tagged(3, third) + PQ.Tagged(4, fourth)
  }

  function Only<T>(p: int, q: int, values: seq<T>): seq<T> { if p == q then values else [] }

  lemma LayersOf<T>(first: seq<T>, second: seq<T>, third: seq<T>, fourth: seq<T>, p: int)
    ensures OfPriority(Layers(first, second, third, fourth), p)
            == Only(p, 1, first) + Only(p, 2, second) + Only(p, 3, third) + Only(p, 4, fourth)
  {
    var one := PQ.Tagged(1, first);
    var two := one + PQ.Tagged(2, second);
    var three := two + PQ.Tagged(3, third);
    PQ.TaggedOfPriority(1, first, p);
    TaggedMore(one, 2, second, p);
    TaggedMore(two, 3, third, p);
    TaggedMore(three, 4, fourth, p);
  }

  lemma LayersAscend<T>(first: seq<T>, second: seq<T>, third: seq<T>, fourth: seq<T>)
    ensures Ascending(Layers(first, second, third, fourth))
    ensures Values(Layers(first, second, third, fourth)) == first + second + third + fourth
  {
  }

  /** What the extra interceptors add to each priority. */
  lemma ExtraLayers<T>(five: seq<T>, second: seq<T>, third: seq<T>, last: seq<T>, p: int)
    ensures Only(p, 1, five) + Only(p, 2, second) + Only(p, 3, third) + Only(p, 4, last)
            == (Only(p, 1, five) + Only(p, 2, []) + Only(p, 3, []) + Only(p, 4, last))
               + if p == 2 then second else if p == 3 then third else []
  {
  }

  /** Extra interceptors of priorities 2 and 3 run between the five that preprocess and
      validation, those of priority 2 first. */
  lemma ChainShape<T(!new)>(chain: seq<T>, requestId: T, logging: T, metrics: T, recovery: T, rateLimiter: T, validation: T,
                            second: seq<T>, third: seq<T>)
    requires IsChain(chain, Builtin(requestId, logging, metrics, recovery, rateLimiter, validation), map[2 := second, 3 := third])
    ensures chain == [requestId, logging, metrics, recovery, rateLimiter] + second + third + [validation]
  {
    var five := [requestId, logging, metrics, recovery, rateLimiter];
    var builtin := Builtin(requestId, logging, metrics, recovery, rateLimiter, validation);
    BuiltinLayers(requestId, logging, metrics, recovery, rateLimiter, validation);
    LayersAscend(five, second, third, [validation]);
    LayersOrder(five, second, third, [validation], builtin);
    ChainUnique(chain, Values(Layers(five, second, third, [validation])), builtin, map[2 := second, 3 := third]);
  }

  lemma BuiltinLayers<T>(requestId: T, logging: T, metrics: T, recovery: T, rateLimiter: T, validation: T)
    ensures Builtin(requestId, logging, metrics, recovery, rateLimiter, validation)
            == Layers([requestId, logging, metrics, recovery, rateLimiter], [], [], [validation])
  {
  }

  lemma LayersOrder<T(!new)>(first: seq<T>, second: seq<T>, third: seq<T>, fourth: seq<T>, builtin: seq<Item<T>>)
    requires builtin == Layers(first, [], [], fourth)
    ensures Orders(Layers(first, second, third, fourth), builtin, map[2 := second, 3 := third])
  {
    LayersAscend(first, second, third, fourth);
    var extra: map<int, seq<T>> := map[2 := second, 3 := third];
    forall p
      ensures OfPriority(Layers(first, second, third, fourth), p)
              == OfPriority(builtin, p) + if p in extra then extra[p] else []
    {
      LayersOf(first, second, third, fourth, p);
      LayersOf(first, [], [], fourth, p);
      ExtraLayers(first, second, third, fourth, p);
    }
  }

  method BuildChain<T(!new)>(requestId: T, logging: T, metrics: T, recovery: T, rateLimiter: T, validation: T,
                             extra: map<int, seq<T>>) returns (chain: seq<T>)
    ensures IsChain(chain, Builtin(requestId, logging, metrics, recovery, rateLimiter, validation), extra)
  {
    var queue := NewQueue(requestId, logging, metrics, recovery, rateLimiter, validation);
    ghost var builtin := queue.items;
    EnqueueExtras(queue, extra);
    chain := queue.Extract();
    SortedIsChain(queue.Order(), queue.items, builtin, extra);
  }
}
