/** Exactly when distinct metrics print differently, for names and keys drawn from all
    strings over given characters. */
module MetricsInjective {
  import opened Metrics

  predicate Over(s: string, chars: set<char>) { forall c | c in s :: c in chars }

  predicate MetricOver(name: string, m: Labels, names: set<char>, keys: set<char>) {
    Over(name, names) && forall k | k in m :: Over(k, keys)
  }

  /** Printing is injective on these metrics; label values are unrestricted. */
  ghost predicate Injective(names: set<char>, keys: set<char>) {
    forall s: string, name: string, m: Labels, name': string, m': Labels ::
      Prints(s, name, m) && Prints(s, name', m') && MetricOver(name, m, names, keys) && MetricOver(name', m', names, keys)
      ==> name == name' && m == m'
  }

  /** The four ways to forge: a key holds a whole label and the start of the next, a bare
      name holds labels, name and key both hold a brace, or the name takes the start of a
      label and the key its end. */
  predicate Ambiguous(names: set<char>, keys: set<char>) {
    || {'=', '"', ','} <= keys
    || {'{', '=', '"', '}'} <= names
    || ('{' in names && '{' in keys)
    || ({'{', '=', '"'} <= names && {'"', ','} <= keys)
  }

  // ---- The labels, read from the right ----

  type Pair = (string, string)

  function Ending(e: string): string { "=\"" + e + "\"" }

  function Joined(pairs: seq<Pair>): string
    requires pairs != []
    decreases |pairs|, 1
  {
    Stem(pairs) + Ending(Escape(pairs[|pairs| - 1].1))
  }

  /** All up to the last key. */
  function Stem(pairs: seq<Pair>): string
    requires pairs != []
    decreases |pairs|, 0
  {
    var k := |pairs| - 1;
    if k == 0 then pairs[0].0 else Joined(pairs[..k]) + "," + pairs[k].0
  }

  lemma JoinedStep(keys: seq<string>, m: Labels, i: nat)
    requires 0 < i < |keys| && forall k | k in keys :: k in m
    ensures keys[i] in m
    ensures Joined(Pairs(keys, m)[..i + 1]) == Joined(Pairs(keys, m)[..i]) + "," + Entry(keys[i], m[keys[i]])
  {
    assert keys[i] in keys;
    var pairs := Pairs(keys, m);
    assert pairs[..i + 1][..i] == pairs[..i];
    EntryEnds(keys[i], m[keys[i]]);
    Associates(Joined(pairs[..i]), keys[i], Ending(Escape(m[keys[i]])));
    Regroup(Joined(pairs[..i]), ",", keys[i], Ending(Escape(m[keys[i]])), "");
  }

  lemma EntryEnds(k: string, v: string)
    ensures Entry(k, v) == k + Ending(Escape(v))
  {
  }

  lemma Associates(a: string, b: string, c: string)
    ensures a + "," + b + c == a + ("," + b + c)
    ensures a + "{" + b + c == a + "{" + (b + c)
  {
  }

  lemma PrintFromStep(keys: seq<string>, m: Labels, i: nat, front: string)
    requires 0 < i < |keys| && forall k | k in keys :: k in m
    ensures keys[i] in m
    ensures front + PrintFrom(keys, m, i) == front + "," + Entry(keys[i], m[keys[i]]) + PrintFrom(keys, m, i + 1)
  {
    assert keys[i] in keys;
    Associates(front, Entry(keys[i], m[keys[i]]), PrintFrom(keys, m, i + 1));
  }

  lemma FirstJoined(keys: seq<string>, m: Labels)
    requires keys != [] && forall k | k in keys :: k in m
    ensures Joined(Pairs(keys, m)[..1]) + PrintFrom(keys, m, 1) == PrintFrom(keys, m, 0)
  {
    assert keys[0] in keys;
    assert Pairs(keys, m)[..1] == [(keys[0], m[keys[0]])];
    EntryEnds(keys[0], m[keys[0]]);
  }

  lemma {:induction false} JoinedPrefix(keys: seq<string>, m: Labels, i: nat)
    requires 0 < i <= |keys| && forall k | k in keys :: k in m
    ensures Joined(Pairs(keys, m)[..i]) + PrintFrom(keys, m, i) == PrintFrom(keys, m, 0)
    decreases i
  {
    if i == 1 {
      FirstJoined(keys, m);
    } else {
      JoinedPrefix(keys, m, i - 1);
      JoinedStep(keys, m, i - 1);
      PrintFromStep(keys, m, i - 1, Joined(Pairs(keys, m)[..i - 1]));
    }
  }

  lemma PrintsJoined(name: string, keys: seq<string>, m: Labels)
    requires keys != [] && forall k | k in keys :: k in m
    ensures Print(name, keys, m) == name + "{" + Joined(Pairs(keys, m)) + "}"
    ensures PrintFrom(keys, m, 0) == Joined(Pairs(keys, m)) + "}"
  {
    JoinedPrefix(keys, m, |keys|);
    assert Pairs(keys, m)[..|keys|] == Pairs(keys, m);
    Associates(name, Joined(Pairs(keys, m)), "}");
  }

  /** Every quote follows a backslash. */
  ghost predicate Guarded(e: string) {
    forall i | 0 <= i < |e| && e[i] == '"' :: i > 0 && e[i - 1] == '\\'
  }

  lemma {:induction false} EscapeGuards(v: string)
    ensures Guarded(Escape(v))
    decreases |v|
  {
    if v != "" {
      EscapeGuards(v[1..]);
    }
  }

  lemma EscapeInjective(v: string, w: string)
    requires Escape(v) == Escape(w)
    ensures v == w
  {
    EscapeRoundTrip(v, "");
    EscapeRoundTrip(w, "");
  }

  /** A value does not open inside another one, whose quotes all follow a backslash. */
  lemma OpensOutside(a: string, e: string, b: string, f: string)
    requires Guarded(e) && |a| < |b|
    ensures a + Ending(e) != b + Ending(f)
  {
    var s, t, i := a + Ending(e), b + Ending(f), |b| - |a| - 1;
    assert t[|b|] == '=' && t[|b| + 1] == '"';
    if |s| == |t| {
      assert s[|b| + 1] == e[i];
      assert i > 0 ==> s[|b|] == e[i - 1];
    }
  }

  /** So the last value of a text is determined, and what comes before it. */
  lemma LastValueIff(a: string, v: string, b: string, w: string)
    ensures a + Ending(Escape(v)) == b + Ending(Escape(w)) <==> a == b && v == w
  {
    EscapeGuards(v);
    EscapeGuards(w);
    if |a| < |b| {
      OpensOutside(a, Escape(v), b, Escape(w));
    } else if |b| < |a| {
      OpensOutside(b, Escape(w), a, Escape(v));
    } else {
      SameLength(a, Ending(Escape(v)), b, Ending(Escape(w)));
      EndingInjective(v, w);
    }
  }

  lemma SameLength(a: string, x: string, b: string, y: string)
    requires |a| == |b|
    ensures a + x == b + y <==> a == b && x == y
  {
    assert (a + x)[..|a|] == a && (a + x)[|a|..] == x;
    assert (b + y)[..|b|] == b && (b + y)[|b|..] == y;
  }

  lemma EndingInjective(v: string, w: string)
    ensures Ending(Escape(v)) == Ending(Escape(w)) <==> v == w
  {
    var e, f := Ending(Escape(v)), Ending(Escape(w));
    assert e[2..|e| - 1] == Escape(v) && f[2..|f| - 1] == Escape(w);
    EscapeRoundTrip(v, "");
    EscapeRoundTrip(w, "");
  }

  /** The key cannot take in the end of a label and the comma after it. */
  predicate Plain(k: string) { !(',' in k && '"' in k) }

  predicate Closed(s: string) { s != "" && s[|s| - 1] == '"' }

  lemma CommaNotInside(u: string, k: string, v: string, l: string)
    requires Plain(k) && Closed(v) && |u| < |v|
    ensures u + "," + k != v + "," + l
  {
    var s, t, i := u + "," + k, v + "," + l, |v| - |u| - 1;
    assert t[|v|] == ',' && t[|v| - 1] == '"' && s[|u|] == ',';
    if |s| == |t| {
      assert s[|v|] == k[i];
      assert i > 0 ==> s[|v| - 1] == k[i - 1];
    }
  }

  lemma CommaSplitIff(u: string, k: string, v: string, l: string)
    requires Plain(k) && Plain(l) && Closed(u) && Closed(v)
    ensures u + "," + k == v + "," + l <==> u == v && k == l
  {
    if |u| < |v| {
      CommaNotInside(u, k, v, l);
    } else if |v| < |u| {
      CommaNotInside(v, l, u, k);
    } else {
      SameLength(u + ",", k, v + ",", l);
      SameLength(u, ",", v, ",");
    }
  }

  ghost predicate AllPlain(pairs: seq<Pair>) {
    forall i | 0 <= i < |pairs| :: Plain(pairs[i].0)
  }

  lemma JoinedCloses(pairs: seq<Pair>)
    requires pairs != []
    ensures Closed(Joined(pairs))
  {
    var e := Ending(Escape(pairs[|pairs| - 1].1));
    assert e[|e| - 1] == '"';
  }

  lemma {:induction false} StemUnique(a: seq<Pair>, b: seq<Pair>)
    requires |a| > 1 && |b| > 1 && AllPlain(a) && AllPlain(b)
    ensures Stem(a) == Stem(b) <==> a[..|a| - 1] == b[..|b| - 1] && a[|a| - 1].0 == b[|b| - 1].0
    decreases |a|, 0
  {
    var c, d := a[..|a| - 1], b[..|b| - 1];
    JoinedCloses(c);
    JoinedCloses(d);
    CommaSplitIff(Joined(c), a[|a| - 1].0, Joined(d), b[|b| - 1].0);
    JoinedUnique(c, d);
  }

  lemma SplitLast(a: seq<Pair>, b: seq<Pair>)
    requires a != [] && b != []
    ensures a == b <==> a[..|a| - 1] == b[..|b| - 1] && a[|a| - 1].0 == b[|b| - 1].0 && a[|a| - 1].1 == b[|b| - 1].1
  {
    var x, y := a[|a| - 1], b[|b| - 1];
    assert a == a[..|a| - 1] + [x] && b == b[..|b| - 1] + [y];
    assert x == (x.0, x.1) && y == (y.0, y.1);
  }

  /** Labels with plain keys are determined by their text. */
  lemma {:induction false} JoinedUnique(a: seq<Pair>, b: seq<Pair>)
    requires a != [] && b != [] && AllPlain(a) && AllPlain(b)
    ensures Joined(a) == Joined(b) <==> a == b
    decreases |a|, 1
  {
    LastValueIff(Stem(a), a[|a| - 1].1, Stem(b), b[|b| - 1].1);
    SplitLast(a, b);
    if |a| > 1 && |b| > 1 {
      StemUnique(a, b);
    } else if |a| > 1 {
      StemNotPlain(a);
    } else if |b| > 1 {
      StemNotPlain(b);
    }
  }

  lemma StemNotPlain(pairs: seq<Pair>)
    requires |pairs| > 1
    ensures !Plain(Stem(pairs))
  {
    var front := Joined(pairs[..|pairs| - 1]);
    assert front[|front| - 1] == '"';
    assert Stem(pairs)[|front| - 1] == '"' && Stem(pairs)[|front|] == ',';
  }

  // ---- Names of different length ----

  ghost predicate NoBraces(pairs: seq<Pair>) {
    forall i | 0 <= i < |pairs| :: '{' !in pairs[i].0
  }

  lemma OneKeyNoShift(u: string, k: string, z: string, l: string)
    requires Closed(u) && '{' !in k && Plain(l)
    ensures u + "," + k != z + "{" + l
  {
    var s, t := u + "," + k, z + "{" + l;
    assert t[|z|] == '{' && s[|u|] == ',' && s[|u| - 1] == '"';
    if |s| == |t| && |z| > |u| {
      assert s[|z|] == k[|z| - |u| - 1];
    } else if |s| == |t| && |z| < |u| {
      var i := |u| - |z| - 1;
      assert t[|u|] == l[i];
      assert i > 0 ==> t[|u| - 1] == l[i - 1];
    }
  }

  /** Plain keys without braces: no brace inside the labels starts a second reading. */
  lemma {:induction false} NoShift(z: string, a: seq<Pair>, b: seq<Pair>)
    requires a != [] && b != [] && AllPlain(a) && AllPlain(b) && NoBraces(a)
    ensures Joined(a) != z + "{" + Joined(b)
    decreases |a|, 1
  {
    var x, y := a[|a| - 1], b[|b| - 1];
    JoinedCloses(a);
    JoinedCloses(b);
    Associates(z, Stem(b), Ending(Escape(y.1)));
    LastValueIff(Stem(a), x.1, z + "{" + Stem(b), y.1);
    if |a| == 1 {
      assert (z + "{" + Stem(b))[|z|] == '{';
    } else if |b| == 1 {
      JoinedCloses(a[..|a| - 1]);
      OneKeyNoShift(Joined(a[..|a| - 1]), x.0, z, y.0);
    } else {
      NoShiftBefore(z, a, b);
    }
  }

  lemma {:induction false} NoShiftBefore(z: string, a: seq<Pair>, b: seq<Pair>)
    requires |a| > 1 && |b| > 1 && AllPlain(a) && AllPlain(b) && NoBraces(a)
    ensures Stem(a) != z + "{" + Stem(b)
    decreases |a|, 0
  {
    var x, y, c, d := a[|a| - 1], b[|b| - 1], a[..|a| - 1], b[..|b| - 1];
    JoinedCloses(c);
    JoinedCloses(d);
    Associates(z, Joined(d), "," + y.0);
    Regroup(z, "{", Joined(d), "," + y.0, "");
    assert z + "{" + Stem(b) == (z + "{" + Joined(d)) + "," + y.0;
    CommaSplitIff(Joined(c), x.0, z + "{" + Joined(d), y.0);
    NoShift(z, c, d);
  }

  lemma {:induction false} JoinedStarts(pairs: seq<Pair>) returns (rest: string)
    requires pairs != []
    ensures Joined(pairs) == pairs[0].0 + "=\"" + rest
    decreases |pairs|
  {
    var k := |pairs| - 1;
    if k == 0 {
      rest := Escape(pairs[0].1) + "\"";
    } else {
      var more := JoinedStarts(pairs[..k]);
      rest := more + "," + pairs[k].0 + Ending(Escape(pairs[k].1));
    }
  }

  /** With keys without braces, a second reading needs a name that takes in a key. */
  lemma KeyNotTaken(z: string, a: seq<Pair>, t: string)
    requires a != [] && NoBraces(a) && !('=' in z && '"' in z)
    ensures Joined(a) != z + "{" + t
  {
    var rest := JoinedStarts(a);
    var k, s, r := a[0].0, Joined(a), z + "{" + t;
    assert s[|k|] == '=' && s[|k| + 1] == '"' && r[|z|] == '{';
    assert forall i | 0 <= i < |k| :: s[i] == k[i];
    if |z| > |k| + 1 {
      assert r[|k|] == z[|k|] && r[|k| + 1] == z[|k| + 1];
    }
  }

  // ---- Unambiguous characters ----

  lemma PairsOver(a: seq<string>, m: Labels, keys: set<char>)
    requires SortedKeys(a, m) && forall k | k in m :: Over(k, keys)
    ensures !({'"', ','} <= keys) ==> AllPlain(Pairs(a, m))
    ensures '{' !in keys ==> NoBraces(Pairs(a, m))
    ensures '=' !in keys ==> Readable("", a)
  {
    assert forall i | 0 <= i < |a| :: a[i] in a;
  }

  lemma SameNameUnique(a: seq<string>, m: Labels, b: seq<string>, m': Labels, keys: set<char>)
    requires a != [] && b != [] && SortedKeys(a, m) && SortedKeys(b, m')
    requires (forall k | k in m || k in m' :: Over(k, keys)) && !({'=', '"', ','} <= keys)
    requires PrintFrom(a, m, 0) == PrintFrom(b, m', 0)
    ensures Pairs(a, m) == Pairs(b, m')
  {
    PairsOver(a, m, keys);
    PairsOver(b, m', keys);
    if '=' !in keys {
      ReadsBack(a, m, 0);
      ReadsBack(b, m', 0);
      assert Pairs(a, m)[0..] == Pairs(a, m) && Pairs(b, m')[0..] == Pairs(b, m');
    } else {
      PrintsJoined("", a, m);
      PrintsJoined("", b, m');
      var x, y := Joined(Pairs(a, m)), Joined(Pairs(b, m'));
      assert (x + "}")[..|x + "}"| - 1] == x && (y + "}")[..|y + "}"| - 1] == y;
      JoinedUnique(Pairs(a, m), Pairs(b, m'));
    }
  }

  /** No second reading starts at a brace that the longer name has taken in. */
  lemma NoSecondReading(z: string, a: seq<string>, m: Labels, b: seq<string>, m': Labels, names: set<char>, keys: set<char>)
    requires a != [] && b != [] && SortedKeys(a, m) && SortedKeys(b, m')
    requires (forall k | k in m || k in m' :: Over(k, keys)) && Over(z, names)
    requires '{' in names && !Ambiguous(names, keys)
    ensures Joined(Pairs(a, m)) != z + "{" + Joined(Pairs(b, m'))
  {
    PairsOver(a, m, keys);
    PairsOver(b, m', keys);
    if {'"', ','} <= keys {
      KeyNotTaken(z, Pairs(a, m), Joined(Pairs(b, m')));
    } else {
      NoShift(z, Pairs(a, m), Pairs(b, m'));
    }
  }

  lemma LongerNameDiffers(
      name: string, a: seq<string>, m: Labels, name': string, b: seq<string>, m': Labels, names: set<char>, keys: set<char>)
    requires a != [] && b != [] && SortedKeys(a, m) && SortedKeys(b, m') && |name| < |name'|
    requires MetricOver(name, m, names, keys) && MetricOver(name', m', names, keys) && !Ambiguous(names, keys)
    ensures Print(name, a, m) != Print(name', b, m')
  {
    PrintsJoined(name, a, m);
    PrintsJoined(name', b, m');
    var x, y, z := Joined(Pairs(a, m)), Joined(Pairs(b, m')), name'[|name| + 1..];
    if name' == name + "{" + z {
      assert name'[|name|] in name' && forall c | c in z :: c in name';
      NoSecondReading(z, a, m, b, m', names, keys);
      SameFront(name, x, z, y);
    } else {
      OtherFront(name, x, name', y);
    }
  }

  lemma SameFront(name: string, x: string, z: string, y: string)
    requires x != z + "{" + y
    ensures name + "{" + x + "}" != (name + "{" + z) + "{" + y + "}"
  {
    var s, t := name + "{" + x + "}", (name + "{" + z) + "{" + y + "}";
    assert s[|name| + 1..|s| - 1] == x;
    assert t[|name| + 1..|t| - 1] == z + "{" + y;
  }

  lemma OtherFront(name: string, x: string, name': string, y: string)
    requires |name| < |name'| && name' != name + "{" + name'[|name| + 1..]
    ensures name + "{" + x + "}" != name' + "{" + y + "}"
  {
    var s, t := name + "{" + x + "}", name' + "{" + y + "}";
    assert s[..|name|] == name && s[|name|] == '{';
    assert t[..|name|] == name'[..|name|] && t[|name|] == name'[|name|];
    assert name' == name'[..|name|] + [name'[|name|]] + name'[|name| + 1..];
  }

  lemma LabeledHasAll(name: string, a: seq<string>, m: Labels)
    requires a != [] && forall k | k in a :: k in m
    ensures var s := Print(name, a, m); '{' in s && '=' in s && '"' in s && '}' in s
  {
    PrintsJoined(name, a, m);
    var pairs := Pairs(a, m);
    var stem, e := Stem(pairs), Ending(Escape(pairs[|pairs| - 1].1));
    assert e[0] == '=' && e[1] == '"';
    assert '=' in stem + e && '"' in stem + e;
  }

  lemma UnambiguousInjective(
      names: set<char>, keys: set<char>, s: string, name: string, m: Labels, name': string, m': Labels)
    requires !Ambiguous(names, keys) && Prints(s, name, m) && Prints(s, name', m')
    requires MetricOver(name, m, names, keys) && MetricOver(name', m', names, keys)
    ensures name == name' && m == m'
  {
    var a :| SortedKeys(a, m) && s == Print(name, a, m);
    var b :| SortedKeys(b, m') && s == Print(name', b, m');
    if a != [] {
      LabeledHasAll(name, a, m);
    }
    if b != [] {
      LabeledHasAll(name', b, m');
    }
    assert a == [] <==> b == [];
    if a != [] {
      LabeledUnique(names, keys, name, a, m, name', b, m');
    }
    PairsDetermine(a, m, b, m');
  }

  lemma LabeledUnique(
      names: set<char>, keys: set<char>, name: string, a: seq<string>, m: Labels, name': string, b: seq<string>, m': Labels)
    requires a != [] && b != [] && SortedKeys(a, m) && SortedKeys(b, m') && !Ambiguous(names, keys)
    requires MetricOver(name, m, names, keys) && MetricOver(name', m', names, keys)
    requires Print(name, a, m) == Print(name', b, m')
    ensures name == name' && Pairs(a, m) == Pairs(b, m')
  {
    if |name| < |name'| {
      LongerNameDiffers(name, a, m, name', b, m', names, keys);
    } else if |name'| < |name| {
      LongerNameDiffers(name', b, m', name, a, m, names, keys);
    } else {
      SameLength(name + "{", PrintFrom(a, m, 0), name' + "{", PrintFrom(b, m', 0));
      SameLength(name, "{", name', "{");
      SameNameUnique(a, m, b, m', keys);
    }
  }

  // ---- Ambiguous characters ----

  /** Two metrics over these characters that print alike. */
  ghost predicate Collide(names: set<char>, keys: set<char>, s: string, name: string, m: Labels, name': string, m': Labels) {
    && Prints(s, name, m) && Prints(s, name', m')
    && MetricOver(name, m, names, keys) && MetricOver(name', m', names, keys)
    && (name != name' || m != m')
  }

  /** {="",=""} reads as two labels, or as one with a key of everything up to the last. */
  lemma KeyHoldsLabel(names: set<char>, keys: set<char>)
    requires {'=', '"', ','} <= keys
    ensures Collide(names, keys, "{" + (Entry("", "") + ("," + Entry("=", "") + "}")),
                    "", map["" := "", "=" := ""], "", map[Entry("", "") + "," + "=" := ""])
  {
    EqualsInKeyCollides("", "", "", "=", "");
    assert "" + "{" == "{";
    assert Entry("", "") + "," + "=" == "=\"\",=";
    assert "" in map["" := "", "=" := ""] && "" !in map["=\"\",=" := ""];
  }

  /** {=""} reads as a label, or as a bare name. */
  lemma NameHoldsLabels(names: set<char>, keys: set<char>)
    requires {'{', '=', '"', '}'} <= names
    ensures Collide(names, keys, "{=\"\"}", "", map["" := ""], "{=\"\"}", map[])
  {
    BraceInNameCollides("", "", "");
    assert "" + "{" + Entry("", "") + "}" == "{=\"\"}";
  }

  /** {{=""} reads as a key with a brace, or as a name with one. */
  lemma BothHoldBraces(names: set<char>, keys: set<char>)
    requires '{' in names && '{' in keys
    ensures Collide(names, keys, "{{=\"\"}", "", map["{" := ""], "{", map["" := ""])
  {
    PrintsOne("", "{", "");
    PrintsOne("{", "", "");
    assert "" + "{" + Entry("{", "") + "}" == "{{=\"\"}" == "{" + "{" + Entry("", "") + "}";
  }

  /** {="{",,=""} reads as two labels, or as a name up to the first quote and one label. */
  lemma NameAndKeyShare(names: set<char>, keys: set<char>)
    requires {'{', '=', '"'} <= names && {'"', ','} <= keys
    ensures Collide(names, keys, "{=\"{\",,=\"\"}", "", map["" := "{", "," := ""], "{=\"", map["\",," := ""])
  {
    PrintsTwo("", "", "{", ",", "");
    PrintsOne("{=\"", "\",,", "");
    SharedText();
  }

  lemma SharedText()
    ensures "" + "{" + (Entry("", "{") + ("," + Entry(",", "") + "}")) == "{=\"{\",,=\"\"}"
    ensures "{=\"" + "{" + Entry("\",,", "") + "}" == "{=\"{\",,=\"\"}"
  {
    assert Escape("{") == "{" by { assert "{"[1..] == ""; }
  }

  lemma AmbiguousCollides(names: set<char>, keys: set<char>)
    returns (s: string, name: string, m: Labels, name': string, m': Labels)
    requires Ambiguous(names, keys)
    ensures Collide(names, keys, s, name, m, name', m')
  {
    if {'=', '"', ','} <= keys {
      KeyHoldsLabel(names, keys);
      s, name, m := "{" + (Entry("", "") + ("," + Entry("=", "") + "}")), "", map["" := "", "=" := ""];
      name', m' := "", map[Entry("", "") + "," + "=" := ""];
    } else if {'{', '=', '"', '}'} <= names {
      NameHoldsLabels(names, keys);
      s, name, m, name', m' := "{=\"\"}", "", map["" := ""], "{=\"\"}", map[];
    } else if '{' in names && '{' in keys {
      BothHoldBraces(names, keys);
      s, name, m, name', m' := "{{=\"\"}", "", map["{" := ""], "{", map["" := ""];
    } else {
      NameAndKeyShare(names, keys);
      s, name, m, name', m' := "{=\"{\",,=\"\"}", "", map["" := "{", "," := ""], "{=\"", map["\",," := ""];
    }
  }

  /** Distinct metrics over these characters print differently iff the characters do not
      allow one of the four ways to forge. */
  lemma InjectiveIff(names: set<char>, keys: set<char>)
    ensures Injective(names, keys) <==> !Ambiguous(names, keys)
  {
    if Ambiguous(names, keys) {
      var s, name, m, name', m' := AmbiguousCollides(names, keys);
    } else {
      forall s: string, name: string, m: Labels, name': string, m': Labels |
        Prints(s, name, m) && Prints(s, name', m') && MetricOver(name, m, names, keys) && MetricOver(name', m', names, keys)
        ensures name == name' && m == m'
      {
        UnambiguousInjective(names, keys, s, name, m, name', m');
      }
    }
  }
}
