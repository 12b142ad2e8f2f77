/** The priority queue: a FIFO per priority and the sorted list of priorities in use. */
module PriorityQueue {
  import opened Options
  import opened StableSort

  ghost predicate Increasing(s: seq<int>) {
    forall i, j | 0 <= i < j < |s| :: s[i] < s[j]
  }

  function Tagged<T>(p: int, values: seq<T>): (items: seq<Item<T>>)
    ensures |items| == |values| && forall i | 0 <= i < |values| :: items[i] == Item(p, values[i])
  {
    seq(|values|, i requires 0 <= i < |values| => Item(p, values[i]))
  }

  ghost predicate Listed<T>(priorities: seq<int>, queues: map<int, seq<T>>) {
    Increasing(priorities) && forall p | p in priorities :: p in queues
  }

  /** The queues of the listed priorities, one after the other. */
  ghost function Chain<T>(priorities: seq<int>, queues: map<int, seq<T>>): seq<Item<T>>
    requires Listed(priorities, queues)
  {
    if priorities == [] then []
    else
      var last := priorities[|priorities| - 1];
      Chain(priorities[..|priorities| - 1], queues) + Tagged(last, queues[last])
  }

  lemma {:induction false} TaggedOfPriority<T>(p: int, values: seq<T>, q: int)
    ensures OfPriority(Tagged(p, values), q) == if p == q then values else []
    decreases |values|
  {
    if values != [] {
      var init := values[..|values| - 1];
      TaggedOfPriority(p, init, q);
      assert Tagged(p, values)[..|init|] == Tagged(p, init);
    }
  }

  lemma {:induction false} ChainAscends<T>(priorities: seq<int>, queues: map<int, seq<T>>)
    requires Listed(priorities, queues)
    ensures Ascending(Chain(priorities, queues))
    ensures forall i | 0 <= i < |Chain(priorities, queues)| :: Chain(priorities, queues)[i].priority in priorities
    decreases |priorities|
  {
    if priorities != [] {
      var last, init := priorities[|priorities| - 1], priorities[..|priorities| - 1];
      ChainAscends(init, queues);
      var chain, tail := Chain(init, queues), Tagged(last, queues[last]);
      forall i | 0 <= i < |chain| ensures chain[i].priority < last && chain[i].priority in priorities {
        assert chain[i].priority in init;
      }
      assert forall i | 0 <= i < |chain + tail| ::
          (chain + tail)[i] == if i < |chain| then chain[i] else tail[i - |chain|];
    }
  }

  lemma {:induction false} ChainOfPriority<T>(priorities: seq<int>, queues: map<int, seq<T>>, q: int)
    requires Listed(priorities, queues)
    ensures OfPriority(Chain(priorities, queues), q) == if q in priorities then queues[q] else []
    decreases |priorities|
  {
    if priorities != [] {
      var last, init := priorities[|priorities| - 1], priorities[..|priorities| - 1];
      ChainOfPriority(init, queues, q);
      OfPriorityConcat(Chain(init, queues), Tagged(last, queues[last]), q);
      TaggedOfPriority(last, queues[last], q);
      assert q in priorities <==> q in init || q == last;
    }
  }

  /** Chaining the queues by increasing priority sorts their items stably. */
  lemma ChainSorts<T>(priorities: seq<int>, queues: map<int, seq<T>>)
    requires Listed(priorities, queues)
    ensures Ascending(Chain(priorities, queues))
    ensures forall q :: OfPriority(Chain(priorities, queues), q) == if q in priorities then queues[q] else []
  {
    ChainAscends(priorities, queues);
    forall q ensures OfPriority(Chain(priorities, queues), q) == if q in priorities then queues[q] else [] {
      ChainOfPriority(priorities, queues, q);
    }
  }

  /** The queues hold exactly the waiting items, priority by priority. */
  ghost predicate Holds<T>(queues: map<int, seq<T>>, items: seq<Item<T>>) {
    forall p :: OfPriority(items, p) == if p in queues then queues[p] else []
  }

  lemma HoldsMore<T>(queues: map<int, seq<T>>, items: seq<Item<T>>, x: Item<T>)
    requires Holds(queues, items)
    ensures Holds(queues[x.priority := (if x.priority in queues then queues[x.priority] else []) + [x.value]], items + [x])
  {
    var more := queues[x.priority := (if x.priority in queues then queues[x.priority] else []) + [x.value]];
    forall p ensures OfPriority(items + [x], p) == if p in more then more[p] else [] {
      OfPriorityConcat(items, [x], p);
      OneOfPriority(x, p);
    }
  }

  lemma ExtractStep<T>(priorities: seq<int>, queues: map<int, seq<T>>, i: nat)
    requires Listed(priorities, queues) && i < |priorities|
    ensures Values(Chain(priorities[..i + 1], queues)) == Values(Chain(priorities[..i], queues)) + queues[priorities[i]]
  {
    assert priorities[..i + 1][..i] == priorities[..i];
  }

  method Concatenated<T>(priorities: seq<int>, queues: map<int, seq<T>>) returns (result: seq<T>)
    requires Listed(priorities, queues)
    ensures result == Values(Chain(priorities, queues))
  {
    result := [];
    for i := 0 to |priorities|
      invariant result == Values(Chain(priorities[..i], queues))
    {
      ExtractStep(priorities, queues, i);
      result := result + queues[priorities[i]];
    }
    assert priorities[..|priorities|] == priorities;
  }

  ghost function FirstOf<T>(items: seq<Item<T>>, p: int): (k: nat)
    requires OfPriority(items, p) != []
    ensures k < |items| && items[k].priority == p && forall i | 0 <= i < k :: items[i].priority != p
    decreases |items|
  {
    var init := items[..|items| - 1];
    if OfPriority(init, p) != [] then FirstOf(init, p)
    else OfPriorityEmpty(init, p); |init|
  }

  function Less<T>(queues: map<int, seq<T>>, p: int): map<int, seq<T>>
    requires p in queues && queues[p] != []
  {
    if |queues[p]| == 1 then queues - {p} else queues[p := queues[p][1..]]
  }

  lemma HeadOff<T>(v: T, rest: seq<T>)
    ensures ([v] + rest)[0] == v && ([v] + rest)[1..] == rest && (|[v] + rest| == 1 <==> rest == [])
  {
  }

  /** The first item of a priority is the head of its queue. */
  lemma HeadOfQueue<T>(queues: map<int, seq<T>>, items: seq<Item<T>>, k: nat)
    requires Holds(queues, items) && k < |items|
    requires forall i | 0 <= i < k :: items[i].priority != items[k].priority
    ensures var p := items[k].priority;
            p in queues && queues[p] == [items[k].value] + OfPriority(items[..k] + items[k + 1..], p)
  {
    WithoutNext(items, k, items[k].priority);
  }

  /** Taking the first item of a priority out of its queue. */
  lemma HoldsLess<T>(queues: map<int, seq<T>>, items: seq<Item<T>>, k: nat)
    requires Holds(queues, items) && k < |items|
    requires forall i | 0 <= i < k :: items[i].priority != items[k].priority
    ensures var p := items[k].priority;
            && p in queues && queues[p] != [] && queues[p][0] == items[k].value
            && Holds(Less(queues, p), items[..k] + items[k + 1..])
  {
    var p, rest := items[k].priority, items[..k] + items[k + 1..];
    HeadOfQueue(queues, items, k);
    HeadOff(items[k].value, OfPriority(rest, p));
    forall q ensures OfPriority(rest, q) == if q in Less(queues, p) then Less(queues, p)[q] else [] {
      if q != p {
        OthersHeld(queues, items, k, q);
      }
    }
  }

  lemma OthersHeld<T>(queues: map<int, seq<T>>, items: seq<Item<T>>, k: nat, q: int)
    requires Holds(queues, items) && k < |items| && q != items[k].priority
    requires forall i | 0 <= i < k :: items[i].priority != items[k].priority
    ensures OfPriority(items[..k] + items[k + 1..], q) == if q in queues then queues[q] else []
  {
    WithoutFirstOf(items, k, q);
  }

  /** The listed priorities are those in use, and none in use is empty. */
  ghost predicate InUse<T>(priorities: seq<int>, queues: map<int, seq<T>>) {
    && Increasing(priorities)
    && (forall p :: p in priorities <==> p in queues)
    && (forall p | p in queues :: queues[p] != [])
  }

  ghost predicate Consistent<T>(priorities: seq<int>, queues: map<int, seq<T>>, items: seq<Item<T>>) {
    InUse(priorities, queues) && Holds(queues, items)
  }

  /** The priorities that stay listed when the first queue gives up its head. */
  function Left<T>(priorities: seq<int>, queues: map<int, seq<T>>): seq<int>
    requires priorities != [] && priorities[0] in queues
  {
    if |queues[priorities[0]]| == 1 then priorities[1..] else priorities
  }

  lemma InUseLess<T>(priorities: seq<int>, queues: map<int, seq<T>>)
    requires InUse(priorities, queues) && priorities != []
    ensures priorities[0] in queues && queues[priorities[0]] != []
    ensures InUse(Left(priorities, queues), Less(queues, priorities[0]))
  {
    assert priorities[0] in priorities;
    TailListed(priorities);
  }

  lemma TailListed(priorities: seq<int>)
    requires Increasing(priorities) && priorities != []
    ensures Increasing(priorities[1..])
    ensures forall q :: q in priorities[1..] <==> q in priorities && q != priorities[0]
  {
    assert forall q :: q in priorities <==> q == priorities[0] || q in priorities[1..];
  }

  lemma FrontIsNext<T>(priorities: seq<int>, queues: map<int, seq<T>>, items: seq<Item<T>>) returns (k: nat)
    requires Consistent(priorities, queues, items) && priorities != []
    ensures k < |items| && IsNext(items, k) && items[k].priority == priorities[0]
  {
    var p := priorities[0];
    assert p in priorities;
    k := FirstOf(items, p);
    forall q | q < p ensures OfPriority(items, q) == [] {
      assert q !in priorities;
    }
  }

  /** Taking the head of the first queue takes the next item and keeps the rest consistent. */
  lemma TakeNext<T>(priorities: seq<int>, queues: map<int, seq<T>>, items: seq<Item<T>>) returns (k: nat)
    requires Consistent(priorities, queues, items) && priorities != []
    ensures k < |items| && IsNext(items, k) && items[k].priority == priorities[0] && priorities[0] in queues
    ensures queues[priorities[0]] != [] && queues[priorities[0]][0] == items[k].value
    ensures Consistent(Left(priorities, queues), Less(queues, priorities[0]), items[..k] + items[k + 1..])
  {
    k := FrontIsNext(priorities, queues, items);
    HoldsLess(queues, items, k);
    InUseLess(priorities, queues);
  }

  lemma InsertKeepsIncreasing(s: seq<int>, k: nat, x: int)
    requires Increasing(s) && k <= |s| && x !in s
    requires (forall i | 0 <= i < k :: s[i] < x) && (k < |s| ==> x <= s[k])
    ensures Increasing(s[..k] + [x] + s[k..])
    ensures forall p :: p in s[..k] + [x] + s[k..] <==> p in s || p == x
  {
    assert s == s[..k] + s[k..];
  }

  lemma ValuesTail<T>(front: seq<T>, s: seq<Item<T>>)
    requires s != []
    ensures front + [s[0].value] + Values(s[1..]) == front + Values(s)
  {
    assert Values(s) == [s[0].value] + Values(s[1..]);
  }

  lemma NothingToOrder<T>(sorted: seq<Item<T>>, items: seq<Item<T>>)
    requires IsStableSort(sorted, items) && items == []
    ensures sorted == []
  {
    if sorted != [] {
      OfPriorityEmpty(sorted, sorted[0].priority);
    }
  }

  class PriorityQueue<T> {
    var queues: map<int, seq<T>>
    var priorities: seq<int>
    /** The items enqueued and not yet dequeued, in order of arrival. */
    ghost var items: seq<Item<T>>

    ghost predicate Valid()
      reads this
    {
      Consistent(priorities, queues, items)
    }

    /** The stable sort by priority of the waiting items. */
    ghost function Order(): (sorted: seq<Item<T>>)
      requires Valid()
      reads this
      ensures IsStableSort(sorted, items)
    {
      ChainSorts(priorities, queues);
      Chain(priorities, queues)
    }

    constructor ()
      ensures Valid() && items == []
    {
      queues, priorities, items := map[], [], [];
    }

    /** sort.Ints after an append, for a priority that is not listed yet. */
    method InsertPriority(priority: int)
      requires Increasing(priorities) && priority !in priorities
      modifies this`priorities
      ensures Increasing(priorities)
      ensures forall p :: p in priorities <==> p in old(priorities) || p == priority
    {
      var k := 0;
      while k < |priorities| && priorities[k] < priority
        invariant k <= |priorities| && forall i | 0 <= i < k :: priorities[i] < priority
      {
        k := k + 1;
      }
      InsertKeepsIncreasing(priorities, k, priority);
      priorities := priorities[..k] + [priority] + priorities[k..];
    }

    method Enqueue(priority: int, value: T)
      requires Valid()
      modifies this
      ensures Valid() && items == old(items) + [Item(priority, value)]
    {
      if priority !in queues {
        InsertPriority(priority);
      }
      HoldsMore(queues, items, Item(priority, value));
      queues := queues[priority := (if priority in queues then queues[priority] else []) + [value]];
      items := items + [Item(priority, value)];
    }

    method IsEmpty() returns (empty: bool)
      requires Valid()
      ensures empty <==> items == []
      ensures empty <==> priorities == []
    {
      empty := |priorities| == 0;
      if empty {
        assert forall p :: OfPriority(items, p) == [];
        if items != [] {
          OfPriorityEmpty(items, items[0].priority);
        }
      } else {
        assert priorities[0] in priorities;
      }
    }

    method Extract() returns (result: seq<T>)
      requires Valid()
      ensures result == Values(Order())
    {
      result := Concatenated(priorities, queues);
    }

    /** The head of the first queue leaves; an empty queue leaves with its priority. */
    method DropHead() returns (value: T)
      requires priorities != [] && priorities[0] in queues && queues[priorities[0]] != []
      modifies this`queues, this`priorities
      ensures value == old(queues[priorities[0]][0])
      ensures queues == old(Less(queues, priorities[0])) && priorities == old(Left(priorities, queues))
    {
      var priority := priorities[0];
      var queue := queues[priority];
      value := queue[0];
      if |queue| == 1 {
        queues := queues - {priority};
        priorities := priorities[1..];
      } else {
        queues := queues[priority := queue[1..]];
      }
    }

    /** The first item of the order leaves. */
    method TakeFirst() returns (value: T, ghost k: nat)
      requires Valid() && priorities != []
      modifies this
      ensures Valid()
      ensures k < |old(items)| && IsNext(old(items), k) && value == old(items)[k].value
      ensures items == old(items)[..k] + old(items)[k + 1..]
    {
      k := TakeNext(priorities, queues, items);
      value := DropHead();
      items := items[..k] + items[k + 1..];
    }

    /** Moves the first item of the order to the end of the result. */
    method MoveNext(result: seq<T>) returns (r: seq<T>)
      requires Valid() && items != []
      modifies this
      ensures Valid() && |items| < |old(items)|
      ensures r + Values(Order()) == result + old(Values(Order()))
    {
      ghost var before := Order();
      var next := Dequeue();
      r := result + [next.value];
      ValuesTail(result, before);
    }

    /** Repeated removal yields exactly what Extract would have, and leaves nothing. */
    method DequeueAll() returns (result: seq<T>)
      requires Valid()
      modifies this
      ensures Valid() && items == []
      ensures result == old(Values(Order()))
    {
      result := [];
      var empty := IsEmpty();
      while !empty
        invariant Valid() && (empty <==> items == [])
        invariant result + Values(Order()) == old(Values(Order()))
        decreases |items|
      {
        result := MoveNext(result);
        empty := IsEmpty();
      }
      NothingToOrder(Order(), items);
    }

    /** Removes and returns the first item of the order. */
    method Dequeue() returns (r: Option<T>)
      requires Valid()
      modifies this
      ensures Valid()
      ensures r.None? <==> old(items) == []
      ensures r.None? ==> items == old(items)
      ensures r.Some? ==>
                && old(Order()) != [] && r.value == old(Order())[0].value
                && Order() == old(Order())[1..]
                && exists k :: 0 <= k < |old(items)| && items == old(items)[..k] + old(items)[k + 1..]
    {
      var empty := IsEmpty();
      if empty {
        return None;
      }
      ghost var before, waiting := Order(), items;
      var value;
      ghost var k;
      value, k := TakeFirst();
      SortPeels(before, Order(), waiting, k);
      r := Some(value);
    }
  }
}
