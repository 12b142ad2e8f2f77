/** The accepted spellings of JWTs and API tokens. */
module Tokens {
  import opened Options
  import opened Base64Url

  // ---- Splitting at dots ----

  function Split(s: string): (parts: seq<string>)
    ensures |parts| >= 1
  {
    if s == "" then [""]
    else
      var rest := Split(s[1..]);
      if s[0] == '.' then [""] + rest else [[s[0]] + rest[0]] + rest[1..]
  }

  function Join(parts: seq<string>): string
    requires |parts| >= 1
  {
    if |parts| == 1 then parts[0] else parts[0] + ("." + Join(parts[1..]))
  }

  ghost predicate NoDots(parts: seq<string>) {
    forall p | p in parts :: '.' !in p
  }

  lemma {:induction false} JoinSplit(s: string)
    ensures Join(Split(s)) == s
    decreases |s|
  {
    if s != "" {
      JoinSplit(s[1..]);
      var rest := Split(s[1..]);
      assert s == [s[0]] + s[1..];
      if s[0] == '.' {
        assert ([""] + rest)[1..] == rest;
      } else {
        PrependFirst([s[0]], rest);
      }
    }
  }

  lemma Associates(p: string, q: string, r: string)
    ensures (p + q) + r == p + (q + r)
  {
  }

  lemma PrependFirst(p: string, parts: seq<string>)
    requires |parts| >= 1
    ensures Join([p + parts[0]] + parts[1..]) == p + Join(parts)
  {
    var longer := [p + parts[0]] + parts[1..];
    assert longer[1..] == parts[1..] && longer[0] == p + parts[0];
    if |parts| > 1 {
      var tail := "." + Join(parts[1..]);
      assert Join(longer) == (p + parts[0]) + tail;
      assert Join(parts) == parts[0] + tail;
      Associates(p, parts[0], tail);
    }
  }

  lemma {:induction false} SplitPrefix(p: string, s: string)
    requires '.' !in p
    ensures Split(p + s) == [p + Split(s)[0]] + Split(s)[1..]
    decreases |p|
  {
    if p == "" {
      assert p + s == s && p + Split(s)[0] == Split(s)[0];
    } else {
      assert (p + s)[1..] == p[1..] + s;
      SplitPrefix(p[1..], s);
      assert [p[0]] + (p[1..] + Split(s)[0]) == p + Split(s)[0];
    }
  }

  lemma {:induction false} SplitJoin(parts: seq<string>)
    requires |parts| >= 1 && NoDots(parts)
    ensures Split(Join(parts)) == parts
    decreases |parts|
  {
    assert parts[0] in parts;
    if |parts| == 1 {
      SplitPrefix(parts[0], "");
      assert parts[0] + "" == parts[0];
    } else {
      SplitJoin(parts[1..]);
      var tail := "." + Join(parts[1..]);
      assert tail[1..] == Join(parts[1..]);
      SplitPrefix(parts[0], tail);
      assert parts[0] + "" == parts[0];
    }
  }

  // ---- JWTs ----

  /** The compact form of section 7.1 of RFC 7515 with three nonempty parts. */
  function Compact(a: seq<Byte>, b: seq<Byte>, c: seq<Byte>): string {
    Join([Encode(a), Encode(b), Encode(c)])
  }

  predicate CanonicalPart(part: string) {
    part != "" && Decode(part).Some? && Encode(Decode(part).value) == part
  }

  predicate CanonicalParts(token: string) {
    var parts := Split(token);
    |parts| == 3 && CanonicalPart(parts[0]) && CanonicalPart(parts[1]) && CanonicalPart(parts[2])
  }

  lemma PartIsEncoding(part: string)
    ensures CanonicalPart(part) <==> exists b: seq<Byte> :: b != [] && part == Encode(b)
  {
    if CanonicalPart(part) {
      assert Decode(part).value != [] && part == Encode(Decode(part).value);
    }
    forall b: seq<Byte> | b != [] && part == Encode(b) ensures CanonicalPart(part) {
      RoundTrip(b);
      EncodedLength(b);
    }
  }

  lemma EncodingHasNoDot(b: seq<Byte>)
    ensures '.' !in Encode(b)
  {
    ValuesOfChars(Sextets(b));
    NoBreaks(Encode(b));
  }

  /** The accepted strings are exactly the compact forms of three nonempty byte strings. */
  lemma CanonicalIffCompact(token: string)
    ensures CanonicalParts(token)
            <==> exists a: seq<Byte>, b: seq<Byte>, c: seq<Byte> ::
                   a != [] && b != [] && c != [] && token == Compact(a, b, c)
  {
    if CanonicalParts(token) {
      var parts := Split(token);
      JoinSplit(token);
      PartIsEncoding(parts[0]);
      PartIsEncoding(parts[1]);
      PartIsEncoding(parts[2]);
      var a: seq<Byte> :| a != [] && parts[0] == Encode(a);
      var b: seq<Byte> :| b != [] && parts[1] == Encode(b);
      var c: seq<Byte> :| c != [] && parts[2] == Encode(c);
      assert parts == [Encode(a), Encode(b), Encode(c)];
      assert token == Compact(a, b, c);
    }
    forall a: seq<Byte>, b: seq<Byte>, c: seq<Byte> | a != [] && b != [] && c != [] && token == Compact(a, b, c)
      ensures CanonicalParts(token)
    {
      CompactSplits(a, b, c);
      PartIsEncoding(Encode(a));
      PartIsEncoding(Encode(b));
      PartIsEncoding(Encode(c));
    }
  }

  lemma CompactSplits(a: seq<Byte>, b: seq<Byte>, c: seq<Byte>)
    ensures Split(Compact(a, b, c)) == [Encode(a), Encode(b), Encode(c)]
  {
    EncodingHasNoDot(a);
    EncodingHasNoDot(b);
    EncodingHasNoDot(c);
    SplitJoin([Encode(a), Encode(b), Encode(c)]);
  }

  /** Distinct accepted tokens carry distinct bytes. */
  lemma CompactInjective(a: seq<Byte>, b: seq<Byte>, c: seq<Byte>, x: seq<Byte>, y: seq<Byte>, z: seq<Byte>)
    ensures Compact(a, b, c) == Compact(x, y, z) <==> a == x && b == y && c == z
  {
    CompactSplits(a, b, c);
    CompactSplits(x, y, z);
    RoundTrip(a);
    RoundTrip(b);
    RoundTrip(c);
    RoundTrip(x);
    RoundTrip(y);
    RoundTrip(z);
  }

  method CanonicalJWT(token: string) returns (ok: bool)
    ensures ok <==> exists a: seq<Byte>, b: seq<Byte>, c: seq<Byte> ::
                      a != [] && b != [] && c != [] && token == Compact(a, b, c)
  {
    CanonicalIffCompact(token);
    var parts := Split(token);
    if |parts| != 3 {
      return false;
    }
    for i := 0 to 3
      invariant forall j | 0 <= j < i :: CanonicalPart(parts[j])
    {
      var decoded := Decode(parts[i]);
      if parts[i] == "" || decoded.None? || Encode(decoded.value) != parts[i] {
        return false;
      }
    }
    return true;
  }

  // ---- API tokens ----

  const API_TOKEN_PREFIX := "api_"
  const API_TOKEN_SECRET_BYTES := 32

  datatype FormatError = MissingPrefix | SecretLength | NotBase64Url | DecodedLength

  function ValidateAPITokenFormat(token: string): Option<FormatError> {
    if !(API_TOKEN_PREFIX <= token) then Some(MissingPrefix) else
    var secret := token[|API_TOKEN_PREFIX|..];
    if |secret| != EncodedLen(API_TOKEN_SECRET_BYTES) then Some(SecretLength) else
    var decoded := Decode(secret);
    if decoded.None? then Some(NotBase64Url)
    else if |decoded.value| != API_TOKEN_SECRET_BYTES then Some(DecodedLength)
    else None
  }

  /** Although the decoder skips line breaks and nothing is re-encoded, the accepted API
      tokens are exactly the prefix followed by the encoding of 32 bytes. */
  lemma APITokenIffEncoded(token: string)
    ensures ValidateAPITokenFormat(token) == None
            <==> exists b: seq<Byte> :: |b| == 32 && token == "api_" + Encode(b)
  {
    if ValidateAPITokenFormat(token) == None {
      var secret := token[|API_TOKEN_PREFIX|..];
      var b := Decode(secret).value;
      DecodedIsEncoded(secret);
      EncodedLength(b);
      StripIdempotent(secret);
      assert token == API_TOKEN_PREFIX + Encode(b);
    }
    forall b: seq<Byte> | |b| == 32 && token == "api_" + Encode(b)
      ensures ValidateAPITokenFormat(token) == None
    {
      assert token[|API_TOKEN_PREFIX|..] == Encode(b);
      EncodedLength(b);
      RoundTrip(b);
    }
  }

  /** Two accepted API tokens with the same 32 bytes are the same string. */
  lemma APITokenInjective(x: string, y: string)
    requires ValidateAPITokenFormat(x) == None && ValidateAPITokenFormat(y) == None
    requires Decode(x[|API_TOKEN_PREFIX|..]) == Decode(y[|API_TOKEN_PREFIX|..])
    ensures x == y
  {
    APITokenIffEncoded(x);
    APITokenIffEncoded(y);
    var a: seq<Byte> :| |a| == API_TOKEN_SECRET_BYTES && x == API_TOKEN_PREFIX + Encode(a);
    var b: seq<Byte> :| |b| == API_TOKEN_SECRET_BYTES && y == API_TOKEN_PREFIX + Encode(b);
    assert x[|API_TOKEN_PREFIX|..] == Encode(a) && y[|API_TOKEN_PREFIX|..] == Encode(b);
    RoundTrip(a);
    RoundTrip(b);
  }
}
