/** ORDER BY time, id LIMIT n over a table snapshot. */
module OldestFirst {
  /** A row's sort key: a time, then the unique row ID. */
  datatype Key = Key(time: int, id: nat)

  predicate Before(a: Key, b: Key) {
    a.time < b.time || (a.time == b.time && a.id < b.id)
  }

  predicate NotAfter(a: Key, b: Key) {
    a == b || Before(a, b)
  }

  ghost predicate IsLeast(k: Key, keys: set<Key>) {
    k in keys && forall o | o in keys :: NotAfter(k, o)
  }

  /** The rows the query returns: the least keys in ascending order, as many as the limit
      allows. */
  ghost predicate IsPage(page: seq<Key>, keys: set<Key>, limit: nat) {
    && |page| == (if |keys| <= limit then |keys| else limit)
    && (forall k | k in page :: k in keys)
    && (forall i, j | 0 <= i < j < |page| :: Before(page[i], page[j]))
    && (forall k, o | k in page && o in keys && o !in page :: Before(k, o))
  }

  lemma Trichotomy(a: Key, b: Key)
    ensures a == b || Before(a, b) || Before(b, a)
  {
    assert a == Key(a.time, a.id) && b == Key(b.time, b.id);
  }

  method Least(keys: set<Key>) returns (least: Key)
    requires keys != {}
    ensures IsLeast(least, keys)
  {
    least :| least in keys;
    var rest := keys - {least};
    while rest != {}
      invariant rest <= keys && least in keys && least !in rest
      invariant forall o | o in keys :: o in rest || NotAfter(least, o)
      decreases rest
    {
      var k :| k in rest;
      Trichotomy(k, least);
      if Before(k, least) {
        least := k;
      }
      rest := rest - {k};
    }
  }

  method Page(keys: set<Key>, limit: nat) returns (page: seq<Key>)
    ensures IsPage(page, keys, limit)
  {
    page := [];
    var rest := keys;
    while rest != {} && |page| < limit
      invariant rest <= keys && |page| + |rest| == |keys| && |page| <= limit
      invariant forall k | k in keys :: k in rest <==> k !in page
      invariant forall k | k in page :: k in keys
      invariant forall i, j | 0 <= i < j < |page| :: Before(page[i], page[j])
      invariant forall k, o | k in page && o in rest :: Before(k, o)
      decreases rest
    {
      var k := Least(rest);
      page, rest := page + [k], rest - {k};
    }
  }

  function Elements(page: seq<Key>): set<Key> {
    set k | k in page
  }

  /** A page has as many distinct rows as entries. */
  lemma {:induction false} PageSize(page: seq<Key>)
    requires forall i, j | 0 <= i < j < |page| :: Before(page[i], page[j])
    ensures |Elements(page)| == |page|
    decreases |page|
  {
    if page != [] {
      var last := |page| - 1;
      PageSize(page[..last]);
      assert Elements(page) == Elements(page[..last]) + {page[last]};
    }
  }

  /** A page that leaves a key out is full. */
  lemma FullPage(page: seq<Key>, keys: set<Key>, limit: nat)
    requires IsPage(page, keys, limit) && exists k :: k in keys && k !in page
    ensures |page| == limit
  {
    PageSize(page);
    var k :| k in keys && k !in page;
    assert Elements(page) <= keys - {k};
    SmallerSet(Elements(page), keys - {k});
  }

  lemma SmallerSet(a: set<Key>, b: set<Key>)
    requires a <= b
    ensures |a| <= |b|
  {
    assert b == a + (b - a);
  }

  function Ids(keys: set<Key>): set<nat> {
    set k | k in keys :: k.id
  }

  /** With one key per row, a page names as many distinct rows as it has entries. */
  lemma {:induction false} PageIds(page: seq<Key>)
    requires forall i, j | 0 <= i < j < |page| :: page[i].id != page[j].id
    ensures |Ids(Elements(page))| == |page|
    decreases |page|
  {
    if page != [] {
      var last := |page| - 1;
      PageIds(page[..last]);
      assert Elements(page) == Elements(page[..last]) + {page[last]};
      assert Ids(Elements(page)) == Ids(Elements(page[..last])) + {page[last].id};
    }
  }

  /** The query's answer is determined by the table. */
  lemma PageUnique(a: seq<Key>, b: seq<Key>, keys: set<Key>, limit: nat)
    requires IsPage(a, keys, limit) && IsPage(b, keys, limit)
    ensures a == b
  {
    forall i | 0 <= i < |a| ensures a[i] == b[i] {
      SamePrefix(a, b, keys, limit, i);
    }
  }

  lemma SamePrefix(a: seq<Key>, b: seq<Key>, keys: set<Key>, limit: nat, i: nat)
    requires IsPage(a, keys, limit) && IsPage(b, keys, limit) && i < |a|
    ensures a[..i + 1] == b[..i + 1]
    decreases i
  {
    if i > 0 {
      SamePrefix(a, b, keys, limit, i - 1);
    }
    assert forall j | 0 <= j < i :: a[j] == a[..i][j] && b[j] == b[..i][j];
    if Before(a[i], b[i]) {
      LesserIsListed(a, b, keys, limit, i);
    } else if Before(b[i], a[i]) {
      LesserIsListed(b, a, keys, limit, i);
    }
  }

  lemma LesserIsListed(a: seq<Key>, b: seq<Key>, keys: set<Key>, limit: nat, i: nat)
    requires IsPage(a, keys, limit) && IsPage(b, keys, limit) && i < |a|
    requires a[..i] == b[..i]
    ensures !Before(a[i], b[i])
  {
    assert a[i] in a && b[i] in b;
    assert forall j | 0 <= j < i :: a[j] == a[..i][j] && b[j] == b[..i][j];
  }
}
