/** Unpadded base64url (section 5 of RFC 4648) with strict trailing bits (section 3.5),
    decoded the way Go's standard library does: carriage returns and line feeds are
    skipped wherever they stand. */
module Base64Url {
  import opened Options

  type Byte = x: int | 0 <= x < 256 witness 0

  type Sextet = x: int | 0 <= x < 64 witness 0

  function CharOf(v: Sextet): char {
    if v < 26 then 'A' + v as char
    else if v < 52 then 'a' + (v - 26) as char
    else if v < 62 then '0' + (v - 52) as char
    else if v == 62 then '-' else '_'
  }

  function ValueOf(c: char): Option<Sextet> {
    if 'A' <= c <= 'Z' then Some((c - 'A') as int)
    else if 'a' <= c <= 'z' then Some((c - 'a') as int + 26)
    else if '0' <= c <= '9' then Some((c - '0') as int + 52)
    else if c == '-' then Some(62) else if c == '_' then Some(63) else None
  }

  /** Three bytes make four sextets; one or two last bytes make two or three. */
  function Sextets(b: seq<Byte>): seq<Sextet> {
    if |b| == 0 then []
    else if |b| == 1 then var v: seq<Sextet> := [b[0] / 4, b[0] % 4 * 16]; v
    else if |b| == 2 then
      var v: seq<Sextet> := [b[0] / 4, b[0] % 4 * 16 + b[1] / 16, b[1] % 16 * 4]; v
    else
      var v: seq<Sextet> := [b[0] / 4, b[0] % 4 * 16 + b[1] / 16, b[1] % 16 * 4 + b[2] / 64, b[2] % 64];
      v + Sextets(b[3..])
  }

  function Chars(v: seq<Sextet>): string { seq(|v|, i requires 0 <= i < |v| => CharOf(v[i])) }

  function Encode(b: seq<Byte>): string { Chars(Sextets(b)) }

  function EncodedLen(n: nat): nat { n / 3 * 4 + (n % 3 * 8 + 5) / 6 }

  predicate IsBreak(c: char) { c == '\r' || c == '\n' }

  function Strip(s: string): string {
    if s == "" then "" else (if IsBreak(s[0]) then "" else [s[0]]) + Strip(s[1..])
  }

  function Values(s: string): Option<seq<Sextet>> {
    if s == "" then Some([]) else
    var first, rest := ValueOf(s[0]), Values(s[1..]);
    if first.None? || rest.None? then None else Some([first.value] + rest.value)
  }

  function FirstByte(a: Sextet, b: Sextet): Byte { (a as int) * 4 + b / 16 }

  function SecondByte(b: Sextet, c: Sextet): Byte { (b as int) % 16 * 16 + c / 4 }

  function ThirdByte(c: Sextet, d: Sextet): Byte { (c as int) % 4 * 64 + d }

  /** The inverse grouping; the unused bits of the last group must be zero. */
  function Group(v: seq<Sextet>): Option<seq<Byte>> {
    if |v| == 0 then Some([])
    else if |v| == 1 then None
    else if |v| == 2 then if v[1] % 16 == 0 then Some([FirstByte(v[0], v[1])]) else None
    else if |v| == 3 then
      if v[2] % 4 == 0 then Some([FirstByte(v[0], v[1]), SecondByte(v[1], v[2])]) else None
    else
      var rest := Group(v[4..]);
      if rest.None? then None
      else Some([FirstByte(v[0], v[1]), SecondByte(v[1], v[2]), ThirdByte(v[2], v[3])] + rest.value)
  }

  function Decode(s: string): Option<seq<Byte>> {
    var v := Values(Strip(s));
    if v.None? then None else Group(v.value)
  }

  lemma CharRoundTrip(v: Sextet, c: char)
    ensures ValueOf(CharOf(v)) == Some(v)
    ensures ValueOf(c).Some? ==> CharOf(ValueOf(c).value) == c && !IsBreak(c) && c != '.'
  {
  }

  /** The alphabet of section 5: A to Z, a to z, 0 to 9, hyphen, underscore. */
  lemma Alphabet(v: Sextet)
    ensures CharOf(0) == 'A' && CharOf(25) == 'Z' && CharOf(26) == 'a' && CharOf(51) == 'z'
    ensures CharOf(52) == '0' && CharOf(61) == '9' && CharOf(62) == '-' && CharOf(63) == '_'
    ensures v < 61 && v != 25 && v != 51 ==> CharOf(v + 1) as int == CharOf(v) as int + 1
  {
  }

  /** The bytes, with zeros after the end. */
  function ByteAt(b: seq<Byte>, k: nat): Byte {
    if k < |b| then b[k] else 0
  }

  function Halved(x: nat, times: nat): nat {
    if times == 0 then x else Halved(x, times - 1) / 2
  }

  /** The i-th bit of the byte string, most significant first. */
  function Bit(b: seq<Byte>, i: nat): nat {
    Halved(ByteAt(b, i / 8), 7 - i % 8) % 2
  }

  /** The number that n bits from i on spell. */
  function Number(b: seq<Byte>, i: nat, n: nat): nat {
    if n == 0 then 0 else 2 * Number(b, i, n - 1) + Bit(b, i + n - 1)
  }

  lemma FirstSextets(b: seq<Byte>, j: nat)
    requires j < 4 && j < |Sextets(b)|
    ensures Sextets(b)[j] as int
            == if j == 0 then ByteAt(b, 0) as int / 4
               else if j == 1 then ByteAt(b, 0) as int % 4 * 16 + ByteAt(b, 1) as int / 16
               else if j == 2 then ByteAt(b, 1) as int % 16 * 4 + ByteAt(b, 2) as int / 64
               else ByteAt(b, 2) as int % 64
  {
  }

  lemma TwoHalves(x: nat)
    ensures x / 4 == x / 2 / 2 && x % 4 == 2 * (x / 2 % 2) + x % 2
  {
  }

  lemma FourHalves(x: nat)
    ensures x / 16 == x / 4 / 4 && x % 16 == 4 * (x / 4 % 4) + x % 4
  {
  }

  lemma SixHalves(x: nat)
    ensures x / 64 == x / 16 / 4 && x % 64 == 16 * (x / 16 % 4) + x % 16
  {
  }

  lemma HalvedTwice(x: nat, k: nat)
    ensures Halved(x, k + 2) == Halved(x, k) / 4
    ensures Halved(x, k) % 4 == 2 * (Halved(x, k + 1) % 2) + Halved(x, k) % 2
  {
    TwoHalves(Halved(x, k));
  }

  lemma ByteHalves(x: Byte)
    ensures Halved(x, 0) == x && Halved(x, 2) == x / 4 && Halved(x, 4) == x / 16 && Halved(x, 6) == x / 64
    ensures x / 64 < 4
  {
    HalvedTwice(x, 0);
    HalvedTwice(x, 2);
    HalvedTwice(x, 4);
    FourHalves(x);
    SixHalves(x);
  }

  /** Two bits at a time. */
  lemma Twos(x: Byte)
    ensures x / 64 == 2 * (Halved(x, 7) % 2) + Halved(x, 6) % 2
    ensures x / 16 % 4 == 2 * (Halved(x, 5) % 2) + Halved(x, 4) % 2
    ensures x / 4 % 4 == 2 * (Halved(x, 3) % 2) + Halved(x, 2) % 2
    ensures x % 4 == 2 * (Halved(x, 1) % 2) + Halved(x, 0) % 2
  {
    ByteHalves(x);
    HalvedTwice(x, 0);
    HalvedTwice(x, 2);
    HalvedTwice(x, 4);
    HalvedTwice(x, 6);
  }

  lemma Quarters(x: Byte)
    ensures x / 4 == 16 * (x / 64) + 4 * (x / 16 % 4) + x / 4 % 4
    ensures x / 16 == 4 * (x / 64) + x / 16 % 4
    ensures x % 16 == 4 * (x / 4 % 4) + x % 4
    ensures x % 64 == 16 * (x / 16 % 4) + 4 * (x / 4 % 4) + x % 4
  {
    FourHalves(x);
    SixHalves(x);
  }

  /** The k-th two bits of a byte. */
  function Quad(x: nat, k: nat): nat {
    if k == 0 then x / 64 else if k == 1 then x / 16 % 4 else if k == 2 then x / 4 % 4 else x % 4
  }

  lemma TwoBits(b: seq<Byte>, byte: nat, k: nat)
    requires k < 4
    ensures 2 * Bit(b, 8 * byte + 2 * k) + Bit(b, 8 * byte + 2 * k + 1) == Quad(ByteAt(b, byte), k)
  {
    BitAt(b, byte, 2 * k);
    BitAt(b, byte, 2 * k + 1);
    QuadIs(ByteAt(b, byte), k);
  }

  lemma QuadIs(x: Byte, k: nat)
    requires k < 4
    ensures Quad(x, k) == 2 * (Halved(x, 7 - 2 * k) % 2) + Halved(x, 6 - 2 * k) % 2
  {
    Twos(x);
  }

  lemma BitAt(b: seq<Byte>, byte: nat, t: nat)
    requires t < 8
    ensures Bit(b, 8 * byte + t) == Halved(ByteAt(b, byte), 7 - t) % 2
  {
    assert (8 * byte + t) / 8 == byte && (8 * byte + t) % 8 == t;
  }

  lemma TwoMore(b: seq<Byte>, i: nat, n: nat)
    ensures Number(b, i, n + 2) == 4 * Number(b, i, n) + (2 * Bit(b, i + n) + Bit(b, i + n + 1))
  {
    assert Number(b, i, n + 1) == 2 * Number(b, i, n) + Bit(b, i + n);
  }

  function PairAt(b: seq<Byte>, i: nat): nat { 2 * Bit(b, i) + Bit(b, i + 1) }

  lemma SixBits(b: seq<Byte>, i: nat)
    ensures Number(b, i, 6) == 16 * PairAt(b, i) + 4 * PairAt(b, i + 2) + PairAt(b, i + 4)
  {
    TwoMore(b, i, 0);
    TwoMore(b, i, 2);
    TwoMore(b, i, 4);
  }

  lemma PairIs(b: seq<Byte>, i: nat, byte: nat, k: nat)
    requires k < 4 && i == 8 * byte + 2 * k
    ensures PairAt(b, i) == Quad(ByteAt(b, byte), k)
  {
    TwoBits(b, byte, k);
  }

  /** Six bits are three pairs of them, in up to two bytes. */
  lemma ThreePairs(b: seq<Byte>, i: nat, byte: nat, k: nat, next: nat, l: nat, last: nat, m: nat)
    requires k < 4 && l < 4 && m < 4
    requires i == 8 * byte + 2 * k && i + 2 == 8 * next + 2 * l && i + 4 == 8 * last + 2 * m
    ensures Number(b, i, 6) == 16 * Quad(ByteAt(b, byte), k) + 4 * Quad(ByteAt(b, next), l) + Quad(ByteAt(b, last), m)
  {
    SixBits(b, i);
    PairIs(b, i, byte, k);
    PairIs(b, i + 2, next, l);
    PairIs(b, i + 4, last, m);
  }

  /** The first group, by bits. */
  lemma FirstBits(b: seq<Byte>)
    ensures Number(b, 0, 6) == ByteAt(b, 0) as int / 4
    ensures Number(b, 6, 6) == ByteAt(b, 0) as int % 4 * 16 + ByteAt(b, 1) as int / 16
    ensures Number(b, 12, 6) == ByteAt(b, 1) as int % 16 * 4 + ByteAt(b, 2) as int / 64
    ensures Number(b, 18, 6) == ByteAt(b, 2) as int % 64
  {
    ThreePairs(b, 0, 0, 0, 0, 1, 0, 2);
    ThreePairs(b, 6, 0, 3, 1, 0, 1, 1);
    ThreePairs(b, 12, 1, 2, 1, 3, 2, 0);
    ThreePairs(b, 18, 2, 1, 2, 2, 2, 3);
    Quarters(ByteAt(b, 0));
    Quarters(ByteAt(b, 1));
    Quarters(ByteAt(b, 2));
  }

  lemma BitShifts(b: seq<Byte>, i: nat)
    requires |b| >= 3
    ensures Bit(b[3..], i) == Bit(b, i + 24)
  {
  }

  lemma {:induction false} NumberShifts(b: seq<Byte>, i: nat, n: nat)
    requires |b| >= 3
    ensures Number(b[3..], i, n) == Number(b, i + 24, n)
  {
    if n > 0 {
      NumberShifts(b, i, n - 1);
      BitShifts(b, i + n - 1);
    }
  }

  lemma LaterSextets(b: seq<Byte>, j: nat)
    requires 4 <= j < |Sextets(b)|
    ensures |b| >= 3 && j - 4 < |Sextets(b[3..])| && Sextets(b)[j] == Sextets(b[3..])[j - 4]
  {
  }

  lemma FirstSextetsBits(b: seq<Byte>, j: nat)
    requires j < 4 && j < |Sextets(b)|
    ensures Sextets(b)[j] as int == Number(b, 6 * j, 6)
  {
    FirstSextets(b, j);
    FirstBits(b);
    assert 6 * j == 0 || 6 * j == 6 || 6 * j == 12 || 6 * j == 18;
  }

  /** The j-th character stands for the j-th six bits of the byte string, the last ones
      filled up with zeros: section 4 of RFC 4648, without reference to groups. */
  lemma {:induction false} EncodesBits(b: seq<Byte>, j: nat)
    requires j < |Sextets(b)|
    ensures Sextets(b)[j] as int == Number(b, 6 * j, 6)
    decreases |b|
  {
    if j < 4 {
      FirstSextetsBits(b, j);
    } else {
      LaterSextets(b, j);
      var i := 6 * (j - 4);
      EncodesBits(b[3..], j - 4);
      NumberShifts(b, i, 6);
      assert i + 24 == 6 * j;
    }
  }

  lemma {:induction false} EncodedLength(b: seq<Byte>)
    ensures |Encode(b)| == EncodedLen(|b|)
    decreases |b|
  {
    if |b| >= 3 {
      EncodedLength(b[3..]);
    }
  }

  lemma {:induction false} ValuesOfChars(v: seq<Sextet>)
    ensures Values(Chars(v)) == Some(v)
    decreases |v|
  {
    if v != [] {
      ValuesOfChars(v[1..]);
      CharRoundTrip(v[0], 'A');
      assert Chars(v)[1..] == Chars(v[1..]);
      assert v == [v[0]] + v[1..];
    }
  }

  lemma {:induction false} CharsOfValues(s: string)
    requires Values(s).Some?
    ensures Chars(Values(s).value) == s
    decreases |s|
  {
    if s != "" {
      CharsOfValues(s[1..]);
      CharRoundTrip(0, s[0]);
    }
  }

  lemma GroupBytes(x: Byte, y: Byte, z: Byte)
    ensures FirstByte(x / 4, x % 4 * 16 + y / 16) == x
    ensures SecondByte(x % 4 * 16 + y / 16, y % 16 * 4 + z / 64) == y
    ensures ThirdByte(y % 16 * 4 + z / 64, z % 64) == z
  {
  }

  lemma GroupFour(a: Sextet, b: Sextet, c: Sextet, d: Sextet, rest: seq<Sextet>)
    ensures Group([a, b, c, d] + rest)
            == if Group(rest).None? then None
               else Some([FirstByte(a, b), SecondByte(b, c), ThirdByte(c, d)] + Group(rest).value)
  {
    assert ([a, b, c, d] + rest)[4..] == rest;
  }

  lemma GroupTail(a: Sextet, b: Sextet, c: Sextet)
    ensures b % 16 == 0 ==> Group([a, b]) == Some([FirstByte(a, b)])
    ensures c % 4 == 0 ==> Group([a, b, c]) == Some([FirstByte(a, b), SecondByte(b, c)])
  {
  }

  lemma TailBits(x: Byte)
    ensures x % 4 * 16 % 16 == 0 && x % 16 * 4 % 4 == 0
    ensures x % 4 * 16 == x % 4 * 16 + 0 / 16 && x % 16 * 4 == x % 16 * 4 + 0 / 64
  {
  }

  lemma GroupOne(x: Byte, a: Sextet, b: Sextet)
    requires a == x / 4 && b == x % 4 * 16
    ensures Group([a, b]) == Some([x])
  {
    GroupBytes(x, 0, 0);
    TailBits(x);
    GroupTail(a, b, 0);
  }

  lemma TwoBytes(x: Byte, y: Byte, a: Sextet, b: Sextet, c: Sextet)
    requires a == x / 4 && b == x % 4 * 16 + y / 16 && c == y % 16 * 4
    ensures FirstByte(a, b) == x && SecondByte(b, c) == y && c % 4 == 0
  {
    GroupBytes(x, y, 0);
    TailBits(y);
  }

  lemma GroupTwo(x: Byte, y: Byte, a: Sextet, b: Sextet, c: Sextet)
    requires a == x / 4 && b == x % 4 * 16 + y / 16 && c == y % 16 * 4
    ensures Group([a, b, c]) == Some([x, y])
  {
    TwoBytes(x, y, a, b, c);
    GroupTail(a, b, c);
  }

  lemma GroupThree(x: Byte, y: Byte, z: Byte, a: Sextet, b: Sextet, c: Sextet, d: Sextet, rest: seq<Byte>)
    requires a == x / 4 && b == x % 4 * 16 + y / 16 && c == y % 16 * 4 + z / 64 && d == z % 64
    requires Group(Sextets(rest)) == Some(rest)
    ensures Group([a, b, c, d] + Sextets(rest)) == Some([x, y, z] + rest)
  {
    GroupBytes(x, y, z);
    GroupFour(a, b, c, d, Sextets(rest));
  }

  lemma {:induction false} GroupSextets(b: seq<Byte>)
    ensures Group(Sextets(b)) == Some(b)
    decreases |b|
  {
    if |b| == 1 {
      assert b == [b[0]];
      GroupOne(b[0], b[0] / 4, b[0] % 4 * 16);
    } else if |b| == 2 {
      assert b == [b[0], b[1]];
      GroupTwo(b[0], b[1], b[0] / 4, b[0] % 4 * 16 + b[1] / 16, b[1] % 16 * 4);
    } else if |b| >= 3 {
      GroupSextets(b[3..]);
      GroupThree(b[0], b[1], b[2], b[0] / 4, b[0] % 4 * 16 + b[1] / 16, b[1] % 16 * 4 + b[2] / 64, b[2] % 64, b[3..]);
      assert b == [b[0], b[1], b[2]] + b[3..];
    }
  }

  lemma SplitBytes(a: Sextet, b: Sextet, c: Sextet, d: Sextet)
    ensures var x, y, z := FirstByte(a, b), SecondByte(b, c), ThirdByte(c, d);
            && x / 4 == a && x % 4 * 16 == b - b % 16 && y / 16 == b % 16
            && y % 16 * 4 == c - c % 4 && z / 64 == c % 4 && z % 64 == d
  {
  }

  lemma {:induction false} SextetsGroup(v: seq<Sextet>)
    requires Group(v).Some?
    ensures Sextets(Group(v).value) == v
    decreases |v|
  {
    if |v| == 2 {
      SplitBytes(v[0], v[1], 0, 0);
      assert v == [v[0], v[1]];
    } else if |v| == 3 {
      SplitBytes(v[0], v[1], v[2], 0);
      assert v == [v[0], v[1], v[2]];
    } else if |v| >= 4 {
      SplitBytes(v[0], v[1], v[2], v[3]);
      SextetsGroup(v[4..]);
      assert Group(v).value[3..] == Group(v[4..]).value;
      assert v == [v[0], v[1], v[2], v[3]] + v[4..];
    }
  }

  lemma {:induction false} StripIdempotent(s: string)
    ensures |Strip(s)| <= |s|
    ensures |Strip(s)| == |s| ==> Strip(s) == s
    ensures (forall c | c in s :: !IsBreak(c)) ==> Strip(s) == s
    decreases |s|
  {
    if s != "" {
      StripIdempotent(s[1..]);
    }
  }

  lemma {:induction false} NoBreaks(s: string)
    requires Values(s).Some?
    ensures forall c | c in s :: !IsBreak(c) && c != '.'
    decreases |s|
  {
    if s != "" {
      NoBreaks(s[1..]);
      CharRoundTrip(0, s[0]);
    }
  }

  /** Decoding inverts encoding, on every byte string. */
  lemma RoundTrip(b: seq<Byte>)
    ensures Decode(Encode(b)) == Some(b)
  {
    ValuesOfChars(Sextets(b));
    GroupSextets(b);
    NoBreaks(Encode(b));
    StripIdempotent(Encode(b));
  }

  /** Every string that decodes is, up to line breaks, the encoding of its bytes. */
  lemma DecodedIsEncoded(s: string)
    requires Decode(s).Some?
    ensures Encode(Decode(s).value) == Strip(s)
  {
    CharsOfValues(Strip(s));
    SextetsGroup(Values(Strip(s)).value);
  }

  lemma {:induction false} StripAppend(s: string, t: string)
    ensures Strip(s + t) == Strip(s) + Strip(t)
    decreases |s|
  {
    if s == "" {
      assert s + t == t;
    } else {
      assert (s + t)[1..] == s[1..] + t;
      StripAppend(s[1..], t);
    }
  }

  /** Strict decoding alone does not see line breaks, so it accepts several spellings. */
  lemma BreaksAreInvisible(s: string, t: string, c: char)
    requires c == '\r' || c == '\n'
    ensures Decode(s + [c] + t) == Decode(s + t)
  {
    StripAppend(s + [c], t);
    StripAppend(s, [c]);
    StripAppend(s, t);
    assert [c][1..] == "";
    assert Strip(s) + "" == Strip(s);
  }
}
