/** Metric names with labels. A label value is the text that formatting gives it. */
module Metrics {
  import opened Options

  type Labels = map<string, string>

  // ---- Escaping ----

  function EscapeChar(c: char): string {
    if c == '\\' then "\\\\" else if c == '"' then "\\\"" else if c == '\n' then "\\n" else [c]
  }

  function Escape(v: string): string {
    if v == "" then "" else EscapeChar(v[0]) + Escape(v[1..])
  }

  /** Reads an escaped value up to its closing quote, and the text after it. */
  function ReadValue(s: string): (r: Option<(string, string)>)
    ensures r.Some? ==> |r.value.1| < |s|
  {
    if s == "" then None
    else if s[0] == '"' then Some(("", s[1..]))
    else if s[0] == '\\' then
      if |s| < 2 then None
      else
        var rest := ReadValue(s[2..]);
        if rest.None? then None else Some(([if s[1] == 'n' then '\n' else s[1]] + rest.value.0, rest.value.1))
    else
      var rest := ReadValue(s[1..]);
      if rest.None? then None else Some(([s[0]] + rest.value.0, rest.value.1))
  }

  lemma ReadsChar(c: char, tail: string)
    requires ReadValue(tail).Some?
    ensures ReadValue(EscapeChar(c) + tail) == Some(([c] + ReadValue(tail).value.0, ReadValue(tail).value.1))
  {
    var head := EscapeChar(c);
    assert (head + tail)[|head|..] == tail;
  }

  /** Escaping round-trips, and leaves no quote that would close the value early. */
  lemma {:induction false} EscapeRoundTrip(v: string, rest: string)
    ensures ReadValue(Escape(v) + "\"" + rest) == Some((v, rest))
    decreases |v|
  {
    if v == "" {
      assert (Escape(v) + "\"" + rest)[1..] == rest;
    } else {
      EscapeRoundTrip(v[1..], rest);
      var tail := Escape(v[1..]) + "\"" + rest;
      assert Escape(v) + "\"" + rest == EscapeChar(v[0]) + tail;
      ReadsChar(v[0], tail);
      assert v == [v[0]] + v[1..];
    }
  }

  lemma {:induction false} EscapedHasNoNewline(v: string)
    ensures '\n' !in Escape(v)
    decreases |v|
  {
    if v != "" {
      EscapedHasNoNewline(v[1..]);
    }
  }

  // ---- Printing ----

  function Entry(k: string, v: string): string { k + "=\"" + Escape(v) + "\"" }

  /** The printed labels from index i on. */
  function PrintFrom(keys: seq<string>, m: Labels, i: nat): string
    requires i <= |keys| && forall k | k in keys :: k in m
    decreases |keys| - i
  {
    if i == |keys| then "}"
    else (if i > 0 then "," else "") + Entry(keys[i], m[keys[i]]) + PrintFrom(keys, m, i + 1)
  }

  function Print(name: string, keys: seq<string>, m: Labels): string
    requires forall k | k in keys :: k in m
  {
    if keys == [] then name else name + "{" + PrintFrom(keys, m, 0)
  }

  // ---- Reading back ----

  /** The text before the first c, and the text after it. */
  function ReadUntil(s: string, c: char): (r: Option<(string, string)>)
    ensures r.Some? ==> |r.value.1| < |s|
  {
    if s == "" then None
    else if s[0] == c then Some(("", s[1..]))
    else
      var rest := ReadUntil(s[1..], c);
      if rest.None? then None else Some(([s[0]] + rest.value.0, rest.value.1))
  }

  lemma {:induction false} ReadUntilFirst(p: string, c: char, rest: string)
    requires c !in p
    ensures ReadUntil(p + [c] + rest, c) == Some((p, rest))
    decreases |p|
  {
    if p == "" {
      assert (p + [c] + rest)[1..] == rest;
    } else {
      ReadUntilFirst(p[1..], c, rest);
      assert (p + [c] + rest)[1..] == p[1..] + [c] + rest;
      assert p == [p[0]] + p[1..];
    }
  }

  lemma {:induction false} ReadUntilNone(p: string, c: char)
    requires c !in p
    ensures ReadUntil(p, c) == None
    decreases |p|
  {
    if p != "" {
      ReadUntilNone(p[1..], c);
    }
  }

  function ReadEntries(s: string): Option<seq<(string, string)>>
    decreases |s|
  {
    var key := ReadUntil(s, '=');
    if key.None? || key.value.1 == "" || key.value.1[0] != '"' then None else
    var value := ReadValue(key.value.1[1..]);
    if value.None? || value.value.1 == "" then None else
    var entry, rest := (key.value.0, value.value.0), value.value.1;
    if rest == "}" then Some([entry])
    else if rest[0] != ',' then None
    else
      var more := ReadEntries(rest[1..]);
      if more.None? then None else Some([entry] + more.value)
  }

  function Parse(s: string): Option<(string, seq<(string, string)>)> {
    var name := ReadUntil(s, '{');
    if name.None? then Some((s, [])) else
    var entries := ReadEntries(name.value.1);
    if entries.None? then None else Some((name.value.0, entries.value))
  }

  function Pairs(keys: seq<string>, m: Labels): seq<(string, string)>
    requires forall k | k in keys :: k in m
  {
    seq(|keys|, i requires 0 <= i < |keys| => assert keys[i] in keys; (keys[i], m[keys[i]]))
  }

  ghost predicate Readable(name: string, keys: seq<string>) {
    '{' !in name && forall k | k in keys :: '=' !in k
  }

  lemma EntryReads(k: string, v: string, rest: string)
    requires '=' !in k
    ensures ReadUntil(Entry(k, v) + rest, '=') == Some((k, "\"" + Escape(v) + "\"" + rest))
    ensures ReadValue(("\"" + Escape(v) + "\"" + rest)[1..]) == Some((v, rest))
  {
    var tail := "\"" + Escape(v) + "\"" + rest;
    assert Entry(k, v) + rest == k + ['='] + tail;
    ReadUntilFirst(k, '=', tail);
    assert tail[1..] == Escape(v) + "\"" + rest;
    EscapeRoundTrip(v, rest);
  }

  lemma ReadsOne(k: string, v: string, rest: string)
    requires '=' !in k && rest != ""
    ensures rest == "}" ==> ReadEntries(Entry(k, v) + rest) == Some([(k, v)])
    ensures rest[0] == ',' && ReadEntries(rest[1..]).Some? ==>
              ReadEntries(Entry(k, v) + rest) == Some([(k, v)] + ReadEntries(rest[1..]).value)
  {
    EntryReads(k, v, rest);
  }

  lemma PrintStep(keys: seq<string>, m: Labels, i: nat)
    requires i < |keys| && forall k | k in keys :: k in m
    ensures keys[i] in m
    ensures var s, rest := PrintFrom(keys, m, i), PrintFrom(keys, m, i + 1);
            && (if i > 0 then s[1..] else s) == Entry(keys[i], m[keys[i]]) + rest
            && rest != "" && (if i + 1 < |keys| then rest[0] == ',' else rest == "}")
  {
    assert keys[i] in keys;
  }

  /** Reading inverts printing, from any label on. */
  lemma {:induction false} ReadsBack(keys: seq<string>, m: Labels, i: nat)
    requires i < |keys| && (forall k | k in keys :: k in m) && Readable("", keys)
    ensures var s := PrintFrom(keys, m, i);
            ReadEntries(if i > 0 then s[1..] else s) == Some(Pairs(keys, m)[i..])
    decreases |keys| - i
  {
    assert keys[i] in keys;
    var rest := PrintFrom(keys, m, i + 1);
    PrintStep(keys, m, i);
    ReadsOne(keys[i], m[keys[i]], rest);
    SplitFirst(Pairs(keys, m), i);
    if i + 1 < |keys| {
      ReadsBack(keys, m, i + 1);
    }
  }

  lemma SplitFirst<T>(s: seq<T>, i: nat)
    requires i < |s|
    ensures s[i..] == [s[i]] + s[i + 1..]
    ensures i + 1 == |s| ==> s[i..] == [s[i]]
  {
  }

  lemma ParsePrinted(name: string, keys: seq<string>, m: Labels)
    requires (forall k | k in keys :: k in m) && Readable(name, keys)
    ensures Parse(Print(name, keys, m)) == Some((name, Pairs(keys, m)))
  {
    if keys == [] {
      ReadUntilNone(name, '{');
    } else {
      ReadUntilFirst(name, '{', PrintFrom(keys, m, 0));
      ReadsBack(keys, m, 0);
      assert name + "{" + PrintFrom(keys, m, 0) == name + ['{'] + PrintFrom(keys, m, 0);
      assert Pairs(keys, m)[0..] == Pairs(keys, m);
    }
  }

  // ---- Sorted keys ----

  /** Lexicographic order, as sort.Strings uses it. */
  predicate Less(a: string, b: string) {
    b != "" && (a == "" || a[0] < b[0] || (a[0] == b[0] && Less(a[1..], b[1..])))
  }

  lemma {:induction false} LessTotal(a: string, b: string)
    ensures a == b || Less(a, b) || Less(b, a)
    ensures !(Less(a, b) && Less(b, a)) && !Less(a, a)
    decreases |a|
  {
    if a != "" && b != "" {
      LessTotal(a[1..], b[1..]);
      LessTotal(a[1..], a[1..]);
      assert a == [a[0]] + a[1..] && b == [b[0]] + b[1..];
    } else if a != "" {
      LessTotal(a[1..], a[1..]);
    }
  }

  lemma {:induction false} LessTransitive(a: string, b: string, c: string)
    requires Less(a, b) && Less(b, c)
    ensures Less(a, c)
    decreases |a|
  {
    if a != "" && a[0] == b[0] == c[0] {
      LessTransitive(a[1..], b[1..], c[1..]);
    }
  }

  ghost predicate Sorted(keys: seq<string>) {
    forall i, j | 0 <= i < j < |keys| :: Less(keys[i], keys[j])
  }

  /** The keys of the map, in their one sorted order. */
  ghost predicate SortedKeys(keys: seq<string>, m: Labels) {
    Sorted(keys) && forall k :: k in keys <==> k in m
  }

  lemma TailKeys(a: seq<string>)
    requires Sorted(a) && a != []
    ensures forall k :: k in a[1..] <==> k in a && k != a[0]
  {
    LessTotal(a[0], a[0]);
    assert a == [a[0]] + a[1..];
    assert forall i | 0 <= i < |a| - 1 :: a[1..][i] == a[i + 1];
  }

  lemma {:induction false} SortedUnique(a: seq<string>, b: seq<string>)
    requires Sorted(a) && Sorted(b) && forall k :: k in a <==> k in b
    ensures a == b
    decreases |a|
  {
    assert b != [] ==> b[0] in b;
    if a != [] {
      assert a[0] in b && b[0] in a;
      LessTotal(a[0], b[0]);
      assert a[0] == b[0];
      TailKeys(a);
      TailKeys(b);
      SortedUnique(a[1..], b[1..]);
    }
  }

  /** s is the printed form of a name and its effective labels. */
  ghost predicate Prints(s: string, name: string, m: Labels) {
    exists keys :: SortedKeys(keys, m) && s == Print(name, keys, m)
  }

  /** The printed form depends on the name and the effective labels only, not on map
      order nor on how labels are split between the call and the globals. */
  lemma PrintsUnique(s: string, t: string, name: string, m: Labels)
    requires Prints(s, name, m) && Prints(t, name, m)
    ensures s == t
  {
    var a :| SortedKeys(a, m) && s == Print(name, a, m);
    var b :| SortedKeys(b, m) && t == Print(name, b, m);
    SortedUnique(a, b);
  }

  /** Distinct metrics print differently: for names without "{" and keys without "=",
      equal text means equal name and equal labels. */
  lemma PrintsInjective(s: string, name: string, m: Labels, name': string, m': Labels)
    requires Prints(s, name, m) && Prints(s, name', m')
    requires '{' !in name && '{' !in name' && forall k | k in m || k in m' :: '=' !in k
    ensures name == name' && m == m'
  {
    var a :| SortedKeys(a, m) && s == Print(name, a, m);
    var b :| SortedKeys(b, m') && s == Print(name', b, m');
    assert Readable(name, a) && Readable(name', b);
    ParsePrinted(name, a, m);
    ParsePrinted(name', b, m');
    PairsDetermine(a, m, b, m');
  }

  lemma PairsDetermine(a: seq<string>, m: Labels, b: seq<string>, m': Labels)
    requires SortedKeys(a, m) && SortedKeys(b, m') && Pairs(a, m) == Pairs(b, m')
    ensures m == m'
  {
    var pairs := Pairs(a, m);
    assert |a| == |pairs| == |b|;
    forall i | 0 <= i < |a| ensures a[i] == b[i] && a[i] in m && b[i] in m' && m[a[i]] == m'[b[i]] {
      assert a[i] in a && b[i] in b && pairs[i] == (a[i], m[a[i]]) && pairs[i] == (b[i], m'[b[i]]);
    }
    assert forall k | k in m :: k in a;
    assert forall k | k in m' :: k in b;
  }

  lemma PrintsOne(name: string, k: string, v: string)
    ensures Prints(name + "{" + Entry(k, v) + "}", name, map[k := v])
  {
    var m := map[k := v];
    assert SortedKeys([k], m);
    assert PrintFrom([k], m, 0) == Entry(k, v) + "}";
    assert name + "{" + (Entry(k, v) + "}") == name + "{" + Entry(k, v) + "}";
  }

  lemma PrintsTwo(name: string, k: string, v: string, l: string, w: string)
    requires Less(k, l)
    ensures Prints(name + "{" + (Entry(k, v) + ("," + Entry(l, w) + "}")), name, map[k := v, l := w])
  {
    LessTotal(k, l);
    var m, keys := map[k := v, l := w], [k, l];
    assert SortedKeys(keys, m);
    assert PrintFrom(keys, m, 1) == "," + Entry(l, w) + "}";
    assert PrintFrom(keys, m, 0) == Entry(k, v) + ("," + Entry(l, w) + "}");
  }

  /** A key with "=" can forge a label: any two labels print like one such key. */
  lemma EqualsInKeyCollides(name: string, k: string, v: string, l: string, w: string)
    requires Less(k, l)
    ensures var s := name + "{" + (Entry(k, v) + ("," + Entry(l, w) + "}"));
            Prints(s, name, map[k := v, l := w]) && Prints(s, name, map[Entry(k, v) + "," + l := w])
  {
    PrintsTwo(name, k, v, l, w);
    var forged := Entry(k, v) + "," + l;
    PrintsOne(name, forged, w);
    Regroup(Entry(k, v), ",", l, "=\"" + Escape(w) + "\"", "}");
    Regroup(name, "{", Entry(forged, w), "}", "");
    ForgedEntry(Entry(k, v), l, w);
  }

  lemma Regroup(a: string, b: string, c: string, d: string, e: string)
    ensures ((a + b + c) + d) + e == a + (b + (c + d) + e)
    ensures e == "" ==> a + b + c + d == a + b + (c + d)
  {
  }

  lemma ForgedEntry(entry: string, l: string, w: string)
    ensures Entry(entry + "," + l, w) == entry + "," + l + ("=\"" + Escape(w) + "\"")
    ensures Entry(l, w) == l + ("=\"" + Escape(w) + "\"")
  {
  }

  /** A name with "{" can forge a label: any labeled metric prints like a bare name. */
  lemma BraceInNameCollides(name: string, k: string, v: string)
    ensures var s := name + "{" + Entry(k, v) + "}"; Prints(s, name, map[k := v]) && Prints(s, s, map[])
  {
    PrintsOne(name, k, v);
    assert SortedKeys([], map[]);
  }

  // ---- The construction ----

  /** Labels of the call override global ones. */
  function Effective(labels: Labels, global: Labels): (m: Labels)
    ensures forall k | k in labels :: k in m && m[k] == labels[k]
    ensures forall k | k in global && k !in labels :: k in m && m[k] == global[k]
    ensures forall k | k in m :: k in labels || k in global
  {
    global + labels
  }

  /** One step of the sort: the place of a new key among sorted ones. */
  method InsertKey(keys: seq<string>, key: string) returns (r: seq<string>)
    requires Sorted(keys) && key !in keys
    ensures Sorted(r) && forall k :: k in r <==> k in keys || k == key
  {
    var i := 0;
    while i < |keys| && Less(keys[i], key)
      invariant i <= |keys| && forall j | 0 <= j < i :: Less(keys[j], key)
    {
      i := i + 1;
    }
    r := keys[..i] + [key] + keys[i..];
    forall j | i <= j < |keys| ensures Less(key, keys[j]) {
      LessTotal(keys[i], key);
      assert keys[i] in keys;
      if i < j {
        LessTransitive(key, keys[i], keys[j]);
      }
    }
    assert forall k :: k in keys <==> k in keys[..i] || k in keys[i..];
  }

  /** Any of the keys left in a map iteration. */
  method AnyOf(left: set<string>) returns (k: string)
    requires left != {}
    ensures k in left
  {
    assert (forall k :: k !in left) ==> left == {};
    k :| k in left;
  }

  /** Ranges over a map in an arbitrary order and keeps its keys sorted. */
  method AddSorted(keys: seq<string>, more: set<string>) returns (r: seq<string>)
    requires Sorted(keys) && forall k | k in more :: k !in keys
    ensures Sorted(r) && forall k :: k in r <==> k in keys || k in more
  {
    r := keys;
    var left := more;
    while left != {}
      invariant left <= more && Sorted(r)
      invariant forall k :: k in r <==> k in keys || (k in more && k !in left)
      decreases left
    {
      var k := AnyOf(left);
      r := InsertKey(r, k);
      left := left - {k};
    }
  }

  /** The builder loop between the braces. */
  method WriteLabels(keys: seq<string>, labels: Labels, global: Labels) returns (s: string)
    requires forall k | k in keys :: k in Effective(labels, global)
    ensures s == PrintFrom(keys, Effective(labels, global), 0)
  {
    ghost var m := Effective(labels, global);
    s := "";
    for i := 0 to |keys|
      invariant s + PrintFrom(keys, m, i) == PrintFrom(keys, m, 0)
    {
      assert keys[i] in keys;
      var comma := if i > 0 then "," else "";
      var v := if keys[i] in labels then labels[keys[i]] else global[keys[i]];
      Associates(s, comma, Entry(keys[i], v), PrintFrom(keys, m, i + 1));
      s := s + comma + (keys[i] + "=\"" + Escape(v) + "\"");
    }
    s := s + "}";
  }

  lemma Associates(a: string, b: string, c: string, d: string)
    ensures a + (b + c + d) == (a + b + c) + d
  {
  }

  method ConstructMetric(name: string, labels: Labels, global: Labels) returns (s: string)
    ensures Prints(s, name, Effective(labels, global))
  {
    var keys := AddSorted([], labels.Keys);
    keys := AddSorted(keys, set k | k in global && k !in labels);
    assert SortedKeys(keys, Effective(labels, global));
    if |keys| == 0 {
      return name;
    }
    var written := WriteLabels(keys, labels, global);
    s := name + "{" + written;
  }
}
