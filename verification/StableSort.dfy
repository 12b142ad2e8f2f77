/** The order a priority queue promises: by priority, first come first served within one. */
module StableSort {

  datatype Item<T> = Item(priority: int, value: T)

  /** The values of one priority, in order of arrival. */
  function OfPriority<T>(items: seq<Item<T>>, p: int): seq<T>
    decreases |items|
  {
    if items == [] then []
    else
      var last := items[|items| - 1];
      OfPriority(items[..|items| - 1], p) + if last.priority == p then [last.value] else []
  }

  ghost predicate Ascending<T>(items: seq<Item<T>>) {
    forall i, j | 0 <= i < j < |items| :: items[i].priority <= items[j].priority
  }

  /** Ascending, with each priority's values in their order of arrival. */
  ghost predicate IsStableSort<T>(sorted: seq<Item<T>>, items: seq<Item<T>>) {
    Ascending(sorted) && forall p :: OfPriority(sorted, p) == OfPriority(items, p)
  }

  function Values<T>(items: seq<Item<T>>): seq<T> { seq(|items|, i requires 0 <= i < |items| => items[i].value) }

  lemma {:induction false} OfPriorityConcat<T>(a: seq<Item<T>>, b: seq<Item<T>>, p: int)
    ensures OfPriority(a + b, p) == OfPriority(a, p) + OfPriority(b, p)
    decreases |b|
  {
    if b == [] {
      assert a + b == a;
    } else {
      var init := b[..|b| - 1];
      assert (a + b)[..|a + b| - 1] == a + init;
      OfPriorityConcat(a, init, p);
    }
  }

  lemma {:induction false} OfPriorityEmpty<T>(items: seq<Item<T>>, p: int)
    ensures OfPriority(items, p) == [] <==> forall i | 0 <= i < |items| :: items[i].priority != p
    decreases |items|
  {
    if items != [] {
      var last := |items| - 1;
      OfPriorityEmpty(items[..last], p);
      assert forall i | 0 <= i < last :: items[..last][i] == items[i];
    }
  }

  lemma GreatestNotLess<T>(a: seq<Item<T>>, b: seq<Item<T>>)
    requires Ascending(b) && (forall p :: OfPriority(a, p) == OfPriority(b, p)) && a != []
    ensures b != [] && a[|a| - 1].priority <= b[|b| - 1].priority
  {
    var p := a[|a| - 1].priority;
    OfPriorityEmpty(b, p);
    assert OfPriority(a, p) != [];
  }

  /** The last item of an ascending list is the last arrival of its greatest priority. */
  lemma SameLast<T>(a: seq<Item<T>>, b: seq<Item<T>>)
    requires Ascending(a) && Ascending(b) && (forall p :: OfPriority(a, p) == OfPriority(b, p)) && a != []
    ensures b != [] && a[|a| - 1] == b[|b| - 1]
  {
    GreatestNotLess(a, b);
    GreatestNotLess(b, a);
    var x, y := a[|a| - 1], b[|b| - 1];
    var values := OfPriority(a, x.priority);
    assert values == OfPriority(b, y.priority);
    assert values[|values| - 1] == x.value;
    assert values[|values| - 1] == y.value;
    assert x == Item(x.priority, x.value) && y == Item(y.priority, y.value);
  }

  /** There is only one stable sort. */
  lemma {:induction false} StableSortUnique<T>(a: seq<Item<T>>, b: seq<Item<T>>)
    requires Ascending(a) && Ascending(b) && forall p :: OfPriority(a, p) == OfPriority(b, p)
    ensures a == b
    decreases |a|
  {
    if a == [] {
      if b != [] {
        SameLast(b, a);
      }
    } else {
      SameLast(a, b);
      var c, d := a[..|a| - 1], b[..|b| - 1];
      forall p ensures OfPriority(c, p) == OfPriority(d, p) {
        var last := if a[|a| - 1].priority == p then [a[|a| - 1].value] else [];
        assert OfPriority(a, p) == OfPriority(c, p) + last;
        assert OfPriority(b, p) == OfPriority(d, p) + last;
        assert (OfPriority(c, p) + last)[..|OfPriority(c, p)|] == OfPriority(c, p);
        assert (OfPriority(d, p) + last)[..|OfPriority(d, p)|] == OfPriority(d, p);
      }
      StableSortUnique(c, d);
      assert a == c + [a[|a| - 1]] && b == d + [b[|b| - 1]];
    }
  }

  lemma Spliced<T>(front: seq<Item<T>>, x: Item<T>, back: seq<Item<T>>, p: int)
    ensures OfPriority(front + ([x] + back), p) == OfPriority(front, p) + (OfPriority([x], p) + OfPriority(back, p))
  {
    OfPriorityConcat(front, [x] + back, p);
    OfPriorityConcat([x], back, p);
  }

  lemma SpliceOut<T>(front: seq<T>, x: seq<T>, back: seq<T>)
    ensures front == [] ==> front + (x + back) == x + (front + back)
    ensures x == [] ==> front + (x + back) == front + back
  {
  }

  /** Taking out an item that is the first of its priority. */
  lemma WithoutFirstOf<T>(items: seq<Item<T>>, k: nat, p: int)
    requires k < |items| && forall i | 0 <= i < k :: items[i].priority != items[k].priority
    ensures var rest := OfPriority(items[..k] + items[k + 1..], p);
            OfPriority(items, p) == if p == items[k].priority then [items[k].value] + rest else rest
  {
    SplitAt(items, k);
    WithoutMiddle(items[..k], items[k], items[k + 1..], p);
  }

  lemma SplitAt<T>(s: seq<T>, k: nat)
    requires k < |s|
    ensures s[..k] + ([s[k]] + s[k + 1..]) == s
  {
  }

  lemma WithoutMiddle<T>(front: seq<Item<T>>, x: Item<T>, back: seq<Item<T>>, p: int)
    requires forall i | 0 <= i < |front| :: front[i].priority != x.priority
    ensures var rest := OfPriority(front + back, p);
            OfPriority(front + ([x] + back), p) == if p == x.priority then [x.value] + rest else rest
  {
    OneOfPriority(x, p);
    OfPriorityConcat(front, back, p);
    Spliced(front, x, back, p);
    SpliceOut(OfPriority(front, p), OfPriority([x], p), OfPriority(back, p));
    if p == x.priority {
      OfPriorityEmpty(front, p);
    }
  }

  lemma OneOfPriority<T>(x: Item<T>, p: int)
    ensures OfPriority([x], p) == if x.priority == p then [x.value] else []
  {
    assert [x][..0] == [];
  }

  /** items[k] is the first arrival of the least priority. */
  ghost predicate IsNext<T>(items: seq<Item<T>>, k: nat)
    requires k < |items|
  {
    && (forall q | q < items[k].priority :: OfPriority(items, q) == [])
    && (forall i | 0 <= i < k :: items[i].priority != items[k].priority)
  }

  lemma HeadOfSort<T>(sorted: seq<Item<T>>, items: seq<Item<T>>, k: nat)
    requires IsStableSort(sorted, items) && k < |items| && IsNext(items, k)
    ensures sorted != [] && sorted[0] == items[k]
  {
    var p := items[k].priority;
    WithoutFirstOf(items, k, p);
    OfPriorityEmpty(sorted, p);
    OfPriorityEmpty(sorted, sorted[0].priority);
    assert sorted[0].priority == p;
    WithoutFirstOf(sorted, 0, p);
    assert OfPriority(sorted, p)[0] == sorted[0].value && OfPriority(items, p)[0] == items[k].value;
    assert sorted[0] == Item(p, sorted[0].value) && items[k] == Item(p, items[k].value);
  }

  lemma CancelFront<T>(front: seq<T>, a: seq<T>, b: seq<T>)
    requires front + a == front + b
    ensures a == b
  {
    assert (front + a)[|front|..] == a && (front + b)[|front|..] == b;
  }

  function OwnValue<T>(x: Item<T>, p: int): seq<T> { if x.priority == p then [x.value] else [] }

  lemma WithoutNext<T>(items: seq<Item<T>>, k: nat, p: int)
    requires k < |items| && forall i | 0 <= i < k :: items[i].priority != items[k].priority
    ensures OfPriority(items, p) == OwnValue(items[k], p) + OfPriority(items[..k] + items[k + 1..], p)
  {
    WithoutFirstOf(items, k, p);
  }

  lemma PeeledAt<T>(sorted: seq<Item<T>>, after: seq<Item<T>>, items: seq<Item<T>>, k: nat, q: int)
    requires IsStableSort(sorted, items) && k < |items| && IsNext(items, k)
    requires IsStableSort(after, items[..k] + items[k + 1..])
    requires sorted != [] && sorted[0] == items[k]
    ensures OfPriority(sorted[1..], q) == OfPriority(after, q)
  {
    assert sorted[..0] + sorted[1..] == sorted[1..];
    WithoutNext(sorted, 0, q);
    WithoutNext(items, k, q);
    CancelFront(OwnValue(items[k], q), OfPriority(sorted[1..], q), OfPriority(after, q));
  }

  /** Without the next item, a list sorts to the tail of its sort. */
  lemma SortPeels<T>(sorted: seq<Item<T>>, after: seq<Item<T>>, items: seq<Item<T>>, k: nat)
    requires IsStableSort(sorted, items) && k < |items| && IsNext(items, k)
    requires IsStableSort(after, items[..k] + items[k + 1..])
    ensures sorted != [] && sorted[0] == items[k] && after == sorted[1..]
  {
    HeadOfSort(sorted, items, k);
    var tail := sorted[1..];
    assert sorted[..0] + tail == tail;
    forall q ensures OfPriority(tail, q) == OfPriority(after, q) {
      PeeledAt(sorted, after, items, k, q);
    }
    StableSortUnique(tail, after);
  }
}
