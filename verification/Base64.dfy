/** The Base64 codec, and that its two directions are inverse (RFC 4648, section 4). The code's shifts,
    masks and ORs of disjoint bit fields are written as division, remainder and addition. */
module Base64 {
  import opened Bytes
  import Seqs

  /** The character of the alphabet for the low six bits of `v`. */
  function Digit(v: nat): char {
    var d := v % 64;
    if d < 26 then 'A' + d as char
    else if d < 52 then 'a' + (d - 26) as char
    else if d < 62 then '0' + (d - 52) as char
    else if d == 62 then '+'
    else '/'
  }

  /** The value of a character of the alphabet, and -1 for any other. */
  function DecodeChar(c: char): (v: int)
    ensures -1 <= v < 64
  {
    if 'A' <= c <= 'Z' then c as int - 'A' as int
    else if 'a' <= c <= 'z' then c as int - 'a' as int + 26
    else if '0' <= c <= '9' then c as int - '0' as int + 52
    else if c == '+' then 62
    else if c == '/' then 63
    else -1
  }

  const UPPER: string := "ABCDEFGHIJKLMNOPQRSTUVWXYZ"
  const LOWER: string := "abcdefghijklmnopqrstuvwxyz"
  const DIGITS: string := "0123456789"

  /** Table 1 of RFC 4648, which the code indexes. */
  const ALPHABET: string := UPPER + LOWER + DIGITS + "+/"

  lemma UpperIs(d: nat)
    requires d < 26
    ensures |UPPER| == 26 && UPPER[d] == 'A' + d as char
  {
  }

  lemma LowerIs(d: nat)
    requires d < 26
    ensures |LOWER| == 26 && LOWER[d] == 'a' + d as char
  {
  }

  lemma DigitsAre(d: nat)
    requires d < 10
    ensures |DIGITS| == 10 && DIGITS[d] == '0' + d as char
  {
  }

  /** The table at each of its indices. */
  lemma TableAt(d: nat)
    requires d < 64
    ensures |ALPHABET| == 64
    ensures ALPHABET[d] == if d < 26 then UPPER[d] else if d < 52 then LOWER[d - 26]
                           else if d < 62 then DIGITS[d - 52] else if d == 62 then '+' else '/'
  {
    UpperIs(0);
    LowerIs(0);
    DigitsAre(0);
    hide UPPER, LOWER, DIGITS;
  }

  lemma DigitIsTable(v: nat)
    ensures |ALPHABET| == 64 && Digit(v) == ALPHABET[v % 64]
    ensures ALPHABET == "ABCDEFGHIJKLMNOPQRSTUVWXYZ" + "abcdefghijklmnopqrstuvwxyz" + "0123456789" + "+/"
  {
    var d := v % 64;
    TableAt(d);
    if d < 26 {
      UpperIs(d);
    } else if d < 52 {
      LowerIs(d - 26);
    } else if d < 62 {
      DigitsAre(d - 52);
    }
  }

  lemma DigitDecodes(v: nat)
    ensures DecodeChar(Digit(v)) == v % 64
  {
  }

  lemma DecodedDigit(c: char)
    requires DecodeChar(c) >= 0
    ensures Digit(DecodeChar(c)) == c
  {
  }

  predicate IsSpace(c: char) {
    c == ' ' || c == '\r' || c == '\n' || c == '\t'
  }

  // ---- encoding ----

  function Triple(a: Byte, b: Byte, c: Byte): nat {
    a as nat * 0x1_0000 + b as nat * 0x100 + c as nat
  }

  /** Four characters for three bytes; a short last group is padded. */
  function EncodeGroup(g: seq<Byte>): (s: string)
    requires 1 <= |g| <= 3
    ensures |s| == 4
  {
    var t := Triple(g[0], if |g| > 1 then g[1] else 0, if |g| > 2 then g[2] else 0);
    [Digit(t / 0x4_0000), Digit(t / 0x1000),
     if |g| > 1 then Digit(t / 0x40) else '=',
     if |g| > 2 then Digit(t) else '=']
  }

  function Encode(x: seq<Byte>): string {
    if x == [] then []
    else if |x| <= 3 then EncodeGroup(x)
    else EncodeGroup(x[..3]) + Encode(x[3..])
  }

  lemma {:induction false} EncodeAppend(x: seq<Byte>, y: seq<Byte>)
    requires |x| % 3 == 0
    ensures Encode(x + y) == Encode(x) + Encode(y)
  {
    hide EncodeGroup;
    if x == [] {
      assert x + y == y;
    } else {
      EncodeAppend(x[3..], y);
      EncodeStep(x + y);
      EncodeStep(x);
      assert (x + y)[..3] == x[..3] && (x + y)[3..] == x[3..] + y;
    }
  }

  lemma EncodeStep(x: seq<Byte>)
    requires |x| >= 3
    ensures Encode(x) == EncodeGroup(x[..3]) + Encode(x[3..])
  {
    hide EncodeGroup;
    if |x| == 3 { assert x[..3] == x; }
  }

  lemma EncodeShort(x: seq<Byte>)
    requires |x| <= 3
    ensures Encode(x) == if x == [] then [] else EncodeGroup(x)
  {
  }

  method EncodeBytes(bytes: seq<Byte>) returns (out: string)
    ensures out == Encode(bytes)
  {
    hide Encode, Digit, Triple;
    out := [];
    var i := 0;
    EncodeShort(bytes[..0]);
    while i + 2 < |bytes|
      invariant i <= |bytes| && i % 3 == 0
      invariant out == Encode(bytes[..i])
    {
      var triple := Triple(bytes[i], bytes[i + 1], bytes[i + 2]);
      ghost var group := bytes[i..i + 3];
      out := out + [Digit(triple / 0x4_0000)];
      out := out + [Digit(triple / 0x1000)];
      out := out + [Digit(triple / 0x40)];
      out := out + [Digit(triple)];
      assert out == Encode(bytes[..i]) + EncodeGroup(group);
      EncodeShort(group);
      EncodeAppend(bytes[..i], group);
      assert bytes[..i + 3] == bytes[..i] + group;
      i := i + 3;
    }
    var rem := |bytes| - i;
    ghost var last := bytes[i..];
    EncodeShort(last);
    EncodeAppend(bytes[..i], last);
    assert bytes == bytes[..i] + last;
    if rem == 1 {
      var triple := Triple(bytes[i], 0, 0);
      out := out + [Digit(triple / 0x4_0000)] + [Digit(triple / 0x1000)] + ['='] + ['='];
      assert out == Encode(bytes[..i]) + EncodeGroup(last);
    } else if rem == 2 {
      var triple := Triple(bytes[i], bytes[i + 1], 0);
      out := out + [Digit(triple / 0x4_0000)] + [Digit(triple / 0x1000)] + [Digit(triple / 0x40)] + ['='];
      assert out == Encode(bytes[..i]) + EncodeGroup(last);
    }
  }

  // ---- decoding ----

  datatype Head = Bad | Head(chars: string)

  /** The digits before the first '=', blanks left out; `Bad` if something else comes before it. */
  function HeadOf(s: string): Head {
    if s == [] then Head([])
    else if IsSpace(s[0]) then HeadOf(s[1..])
    else if s[0] == '=' then Head([])
    else if DecodeChar(s[0]) < 0 then Bad
    else
      var rest := HeadOf(s[1..]);
      if rest.Bad? then Bad else Head([s[0]] + rest.chars)
  }

  predicate AllDigits(s: string) {
    forall c :: c in s ==> DecodeChar(c) >= 0
  }

  lemma {:induction false} HeadDigits(s: string)
    ensures HeadOf(s).Head? ==> AllDigits(HeadOf(s).chars)
  {
    if s != [] { HeadDigits(s[1..]); }
  }

  function Sextet(g: string, off: nat): nat
    requires AllDigits(g)
  {
    if off < |g| then DecodeChar(g[off]) else 0
  }

  /** Up to three bytes for a group of up to four digits; a lone digit still gives one byte. */
  function DecodeGroup(g: string): (b: seq<Byte>)
    requires 1 <= |g| <= 4 && AllDigits(g)
    ensures |b| == if |g| == 4 then 3 else if |g| == 3 then 2 else 1
  {
    var t := Sextet(g, 0) * 0x4_0000 + Sextet(g, 1) * 0x1000 + Sextet(g, 2) * 0x40 + Sextet(g, 3);
    [(t / 0x1_0000 % 256) as Byte]
    + (if |g| >= 3 then [(t / 0x100 % 256) as Byte] else [])
    + (if |g| == 4 then [(t % 256) as Byte] else [])
  }

  function DecodeDigits(h: string): seq<Byte>
    requires AllDigits(h)
  {
    if h == [] then []
    else if |h| <= 4 then DecodeGroup(h)
    else DecodeGroup(h[..4]) + DecodeDigits(h[4..])
  }

  function Decode(s: string): seq<Byte> {
    var h := HeadOf(s);
    HeadDigits(s);
    if h.Bad? then [] else DecodeDigits(h.chars)
  }

  lemma {:induction false} DecodeAppend(x: string, y: string)
    requires |x| % 4 == 0 && AllDigits(x) && AllDigits(y)
    ensures AllDigits(x + y) && DecodeDigits(x + y) == DecodeDigits(x) + DecodeDigits(y)
  {
    hide DecodeGroup, DecodeChar;
    if x == [] {
      assert x + y == y;
    } else {
      DecodeAppend(x[4..], y);
      DecodeStep(x + y);
      DecodeStep(x);
      assert (x + y)[..4] == x[..4] && (x + y)[4..] == x[4..] + y;
    }
  }

  lemma DecodeStep(x: string)
    requires |x| >= 4 && AllDigits(x)
    ensures DecodeDigits(x) == DecodeGroup(x[..4]) + DecodeDigits(x[4..])
  {
    hide DecodeGroup, DecodeChar;
    if |x| == 4 { assert x[..4] == x; }
  }

  lemma DecodeShort(x: string)
    requires |x| <= 4 && AllDigits(x)
    ensures DecodeDigits(x) == if x == [] then [] else DecodeGroup(x)
  {
  }

  lemma {:induction false} HeadAppend(x: string, c: char)
    requires HeadOf(x).Head? && '=' !in x
    ensures HeadOf(x + [c]) == if IsSpace(c) || c == '=' then HeadOf(x)
                               else if DecodeChar(c) < 0 then Bad
                               else Head(HeadOf(x).chars + [c])
  {
    if x == [] {
    } else {
      assert (x + [c])[1..] == x[1..] + [c];
      HeadAppend(x[1..], c);
    }
  }

  lemma {:induction false} HeadStops(x: string, y: string)
    requires HeadOf(x).Bad? || '=' in x
    ensures HeadOf(x + y) == HeadOf(x)
  {
    if x != [] {
      assert (x + y)[1..] == x[1..] + y;
      if IsSpace(x[0]) || DecodeChar(x[0]) >= 0 {
        HeadStops(x[1..], y);
      }
    }
  }

  method DecodeString(s: string) returns (out: seq<Byte>)
    ensures out == Decode(s)
  {
    hide DecodeGroup, DecodeDigits, DecodeChar;
    var head: string := [];
    var i := 0;
    while i < |s|
      invariant i <= |s| && '=' !in s[..i]
      invariant HeadOf(s[..i]) == Head(head)
    {
      var c := s[i];
      assert s[..i + 1] == s[..i] + [c] && s == s[..i + 1] + s[i + 1..];
      HeadAppend(s[..i], c);
      if IsSpace(c) {
        i := i + 1;
        continue;
      }
      if c == '=' {
        HeadStops(s[..i + 1], s[i + 1..]);
        break;
      }
      if DecodeChar(c) < 0 {
        HeadStops(s[..i + 1], s[i + 1..]);
        return [];
      }
      head := head + [c];
      i := i + 1;
    }
    assert i == |s| ==> s[..i] == s;
    HeadDigits(s);
    out := DecodeGroups(head);
  }

  lemma GroupBytes(out: seq<Byte>, g: string, t: nat)
    requires 1 <= |g| <= 4 && AllDigits(g)
    requires t == Sextet(g, 0) * 0x4_0000 + Sextet(g, 1) * 0x1000 + Sextet(g, 2) * 0x40 + Sextet(g, 3)
    ensures var o0, o1, o2 := (t / 0x1_0000 % 256) as Byte, (t / 0x100 % 256) as Byte, (t % 256) as Byte;
            && (|g| < 3 ==> out + DecodeGroup(g) == out + [o0])
            && (|g| == 3 ==> out + DecodeGroup(g) == out + [o0] + [o1])
            && (|g| == 4 ==> out + DecodeGroup(g) == out + [o0] + [o1] + [o2])
  {
    hide Sextet, DecodeChar;
  }

  /** The second loop of the decoder: four digits at a time. */
  method DecodeGroups(head: string) returns (out: seq<Byte>)
    requires AllDigits(head)
    ensures out == DecodeDigits(head)
  {
    hide DecodeDigits, DecodeGroup, Sextet, DecodeChar;
    out := [];
    var k := 0;
    DecodeShort(head[..0]);
    while k < |head|
      invariant k <= |head| && (k % 4 == 0 || k == |head|)
      invariant AllDigits(head[..k]) && out == DecodeDigits(head[..k])
    {
      var group := if |head| - k < 4 then |head| - k else 4;
      var g := head[k..k + group];
      var triple := Sextet(g, 0) * 0x4_0000 + Sextet(g, 1) * 0x1000 + Sextet(g, 2) * 0x40 + Sextet(g, 3);
      GroupBytes(out, g, triple);
      out := out + [(triple / 0x1_0000 % 256) as Byte];
      if group >= 3 {
        out := out + [(triple / 0x100 % 256) as Byte];
      }
      if group == 4 {
        out := out + [(triple % 256) as Byte];
      }
      DecodeShort(g);
      DecodeAppend(head[..k], g);
      assert head[..k + group] == head[..k] + g;
      k := k + group;
    }
    assert head[..k] == head;
  }

  // ---- the laws ----

  /** The digits a group of bytes is encoded with, padding left out. */
  function GroupDigits(g: seq<Byte>): string
    requires 1 <= |g| <= 3
    ensures |GroupDigits(g)| == |g| + 1
  {
    EncodeGroup(g)[..|g| + 1]
  }

  /** Four sextets make up a triple. */
  lemma Sextets(t: nat)
    requires t < 0x100_0000
    ensures t / 0x4_0000 % 64 * 0x4_0000 + t / 0x1000 % 64 * 0x1000 + t / 0x40 % 64 * 0x40 + t % 64 == t
  {
    assert t / 0x1000 == t / 0x40 / 64 && t / 0x4_0000 == t / 0x40 / 64 / 64;
  }

  /** The remainder and quotient of a number written with a last byte. */
  lemma LastByte(q: nat, r: nat)
    requires r < 256
    ensures (q * 256 + r) / 256 == q && (q * 256 + r) % 256 == r
  {
  }

  /** Three bytes make up a triple. */
  lemma Octets(a: Byte, b: Byte, c: Byte)
    ensures var t := Triple(a, b, c);
            t < 0x100_0000 && t / 0x1_0000 % 256 == a as int && t / 0x100 % 256 == b as int && t % 256 == c as int
  {
    var t, x, y, z := Triple(a, b, c), a as nat, b as nat, c as nat;
    LastByte(x * 256 + y, z);
    LastByte(x, y);
    QuotientTwice(t);
    assert t == (x * 256 + y) * 256 + z;
  }

  lemma QuotientTwice(t: nat)
    ensures t / 0x1_0000 == t / 256 / 256
  {
  }

  lemma LastSextet(k: nat, r: nat)
    requires r < 64
    ensures (64 * k + r) % 64 == r
  {
  }

  lemma SixteenZeroBits(t: nat, q: nat)
    requires t == q * 0x1_0000
    ensures t / 0x1000 % 64 % 16 == 0 && t / 0x40 % 64 == 0 && t % 64 == 0
  {
    assert t / 0x1000 == q * 16 == 64 * (q / 4) + 16 * (q % 4);
    assert t / 0x40 == 64 * (q * 16) + 0 && t == 64 * (q * 1024) + 0;
    LastSextet(q / 4, 16 * (q % 4));
    LastSextet(q * 16, 0);
    LastSextet(q * 1024, 0);
  }

  lemma EightZeroBits(t: nat, q: nat)
    requires t == q * 0x100
    ensures t / 0x40 % 64 % 4 == 0 && t % 64 == 0
  {
    assert t / 0x40 == q * 4 == 64 * (q / 16) + 4 * (q % 16) && t == 64 * (q * 4) + 0;
    LastSextet(q / 16, 4 * (q % 16));
    LastSextet(q * 4, 0);
  }

  lemma TripleParts(a: Byte, b: Byte)
    ensures Triple(a, 0, 0) == a as nat * 0x1_0000
    ensures Triple(a, b, 0) == (a as nat * 256 + b as nat) * 0x100
  {
  }

  /** What a short group leaves zero. */
  lemma ShortTriples(a: Byte, b: Byte)
    ensures var t := Triple(a, 0, 0); t / 0x1000 % 64 % 16 == 0 && t / 0x40 % 64 == 0 && t % 64 == 0
    ensures var t := Triple(a, b, 0); t / 0x40 % 64 % 4 == 0 && t % 64 == 0
  {
    hide Triple;
    TripleParts(a, b);
    SixteenZeroBits(Triple(a, 0, 0), a as nat);
    EightZeroBits(Triple(a, b, 0), a as nat * 256 + b as nat);
  }

  /** The digits of a group of bytes decode to the group's sextets. */
  lemma GroupSextets(g: seq<Byte>)
    requires 1 <= |g| <= 3
    ensures AllDigits(GroupDigits(g))
    ensures var t, d := Triple(g[0], if |g| > 1 then g[1] else 0, if |g| > 2 then g[2] else 0), GroupDigits(g);
            && Sextet(d, 0) == t / 0x4_0000 % 64 && Sextet(d, 1) == t / 0x1000 % 64
            && Sextet(d, 2) == t / 0x40 % 64 && Sextet(d, 3) == t % 64
  {
    hide Digit, DecodeChar, Triple;
    var t := Triple(g[0], if |g| > 1 then g[1] else 0, if |g| > 2 then g[2] else 0);
    ShortTriples(g[0], if |g| > 1 then g[1] else 0);
    DigitDecodes(t / 0x4_0000);
    DigitDecodes(t / 0x1000);
    DigitDecodes(t / 0x40);
    DigitDecodes(t);
  }

  lemma GroupRoundTrip(g: seq<Byte>)
    requires 1 <= |g| <= 3
    ensures AllDigits(GroupDigits(g)) && DecodeGroup(GroupDigits(g)) == g
  {
    hide GroupDigits, Triple, Sextet;
    GroupSextets(g);
    Octets(g[0], if |g| > 1 then g[1] else 0, if |g| > 2 then g[2] else 0);
    Sextets(Triple(g[0], if |g| > 1 then g[1] else 0, if |g| > 2 then g[2] else 0));
  }

  /** The digits of an encoding, padding left out. */
  function Digits(x: seq<Byte>): string {
    if x == [] then []
    else if |x| <= 3 then GroupDigits(x)
    else GroupDigits(x[..3]) + Digits(x[3..])
  }

  lemma {:induction false} DigitsDecode(x: seq<Byte>)
    ensures AllDigits(Digits(x)) && DecodeDigits(Digits(x)) == x
  {
    hide GroupDigits, DecodeGroup, DecodeChar;
    if x == [] {
    } else if |x| <= 3 {
      GroupRoundTrip(x);
      DecodeShort(GroupDigits(x));
    } else {
      GroupRoundTrip(x[..3]);
      DecodeShort(GroupDigits(x[..3]));
      DigitsDecode(x[3..]);
      DecodeAppend(GroupDigits(x[..3]), Digits(x[3..]));
    }
  }

  lemma HeadFirst(d: string, rest: string)
    requires d != [] && DecodeChar(d[0]) >= 0 && HeadOf(d[1..] + rest).Head?
    ensures HeadOf(d + rest) == Head([d[0]] + HeadOf(d[1..] + rest).chars)
  {
    hide DecodeChar;
    assert (d + rest)[1..] == d[1..] + rest && (d + rest)[0] == d[0];
    DigitIsPlain(d[0]);
  }

  lemma DigitIsPlain(c: char)
    requires DecodeChar(c) >= 0
    ensures !IsSpace(c) && c != '='
  {
  }

  lemma {:induction false} HeadPrefix(d: string, rest: string)
    requires AllDigits(d) && HeadOf(rest).Head?
    ensures HeadOf(d + rest) == Head(d + HeadOf(rest).chars)
  {
    hide HeadOf, DecodeChar;
    if d != [] {
      HeadPrefix(d[1..], rest);
      HeadFirst(d, rest);
      Seqs.Assoc([d[0]], d[1..], HeadOf(rest).chars);
      assert [d[0]] + d[1..] == d;
    } else {
      assert d + rest == rest && d + HeadOf(rest).chars == HeadOf(rest).chars;
    }
  }

  lemma HeadOfDigits(d: string, rest: string)
    requires AllDigits(d) && (rest == [] || rest[0] == '=')
    ensures HeadOf(d + rest) == Head(d)
  {
    assert HeadOf(rest) == Head([]);
    hide HeadOf, DecodeChar;
    HeadPrefix(d, rest);
    assert d + [] == d;
  }

  lemma WholeGroupDigits(g: seq<Byte>)
    requires |g| == 3
    ensures GroupDigits(g) == EncodeGroup(g)
  {
    hide Digit, Triple;
  }

  /** The padding of an encoding. */
  function Padding(n: nat): string {
    if n % 3 == 1 then "==" else if n % 3 == 2 then "=" else ""
  }

  lemma GroupSplits(g: seq<Byte>)
    requires 1 <= |g| <= 3
    ensures EncodeGroup(g) == GroupDigits(g) + Padding(|g|)
  {
    hide Digit, Triple;
  }

  lemma DigitsStep(x: seq<Byte>)
    ensures x == [] ==> Digits(x) == []
    ensures 1 <= |x| <= 3 ==> Digits(x) == GroupDigits(x)
    ensures |x| > 3 ==> Digits(x) == GroupDigits(x[..3]) + Digits(x[3..])
  {
    hide GroupDigits;
  }

  lemma {:induction false} EncodeSplits(x: seq<Byte>)
    ensures Encode(x) == Digits(x) + Padding(|x|)
  {
    hide Encode, Digits, EncodeGroup, GroupDigits, Padding;
    DigitsStep(x);
    if x == [] {
      EncodeShort(x);
      NoPadding();
    } else if |x| <= 3 {
      EncodeShort(x);
      GroupSplits(x);
    } else {
      EncodeStep(x);
      EncodeSplits(x[3..]);
      WholeGroupDigits(x[..3]);
      PaddingRepeats(|x| - 3);
      Seqs.Assoc(GroupDigits(x[..3]), Digits(x[3..]), Padding(|x|));
    }
  }

  lemma NoPadding()
    ensures Padding(0) == ""
  {
  }

  lemma PaddingRepeats(n: nat)
    ensures Padding(n + 3) == Padding(n)
  {
  }

  /** Decoding an encoding gives the bytes back, for every byte string. */
  lemma DecodeEncode(x: seq<Byte>)
    ensures Decode(Encode(x)) == x
  {
    EncodeSplits(x);
    DigitsDecode(x);
    HeadOfDigits(Digits(x), Padding(|x|));
  }

  /** What RFC 4648 calls a canonical encoding: whole groups of digits, padding only at the end, and
      no bits set that do not reach the decoded bytes. */
  predicate Canonical(s: string) {
    |s| == 0
    || (|s| >= 4 && if |s| == 4 then CanonicalLast(s) else AllDigits(s[..4]) && Canonical(s[4..]))
  }

  predicate CanonicalLast(g: string)
    requires |g| == 4
  {
    && DecodeChar(g[0]) >= 0 && DecodeChar(g[1]) >= 0
    && if g[2] == '=' then g[3] == '=' && DecodeChar(g[1]) % 16 == 0
       else if g[3] == '=' then DecodeChar(g[2]) >= 0 && DecodeChar(g[2]) % 4 == 0
       else DecodeChar(g[2]) >= 0 && DecodeChar(g[3]) >= 0
  }

  lemma EncodeGroupCanonical(g: seq<Byte>)
    requires 1 <= |g| <= 3
    ensures CanonicalLast(EncodeGroup(g))
    ensures |g| == 3 ==> AllDigits(EncodeGroup(g))
  {
    hide Digit, DecodeChar, Triple;
    var t := Triple(g[0], if |g| > 1 then g[1] else 0, if |g| > 2 then g[2] else 0);
    ShortTriples(g[0], if |g| > 1 then g[1] else 0);
    DigitDecodes(t / 0x4_0000);
    DigitDecodes(t / 0x1000);
    DigitDecodes(t / 0x40);
    DigitDecodes(t);
    PadIsNoDigit();
  }

  lemma PadIsNoDigit()
    ensures DecodeChar('=') < 0
  {
  }

  lemma {:induction false} EncodeCanonical(x: seq<Byte>)
    ensures Canonical(Encode(x)) && |Encode(x)| % 4 == 0
    ensures x != [] ==> |Encode(x)| >= 4
  {
    hide EncodeGroup, CanonicalLast, DecodeChar;
    if x == [] {
    } else if |x| <= 3 {
      EncodeGroupCanonical(x);
    } else {
      EncodeGroupCanonical(x[..3]);
      EncodeCanonical(x[3..]);
      assert Encode(x)[4..] == Encode(x[3..]) && Encode(x)[..4] == EncodeGroup(x[..3]);
    }
  }

  /** The digits of a last group. */
  function LastDigits(g: string): string
    requires |g| == 4
  {
    if g[2] == '=' then g[..2] else if g[3] == '=' then g[..3] else g
  }

  lemma LastGroupRoundTrip(g: string)
    requires |g| == 4 && CanonicalLast(g)
    ensures AllDigits(LastDigits(g)) && EncodeGroup(DecodeGroup(LastDigits(g))) == g
  {
    hide Digit, DecodeChar;
    var d := LastDigits(g);
    var d0, d1, d2, d3 := Sextet(d, 0), Sextet(d, 1), Sextet(d, 2), Sextet(d, 3);
    DecodedDigit(g[0]);
    DecodedDigit(g[1]);
    if g[2] != '=' { DecodedDigit(g[2]); }
    if g[3] != '=' { DecodedDigit(g[3]); }
    EncodeDecodedGroup(d);
  }

  /** The group of a few digits encodes to them, if the bits beyond its bytes are zero. */
  lemma EncodeDecodedGroup(d: string)
    requires 2 <= |d| <= 4 && AllDigits(d)
    requires |d| == 2 ==> Sextet(d, 1) % 16 == 0
    requires |d| == 3 ==> Sextet(d, 2) % 4 == 0
    ensures EncodeGroup(DecodeGroup(d))
         == [Digit(Sextet(d, 0)), Digit(Sextet(d, 1)),
             if |d| > 2 then Digit(Sextet(d, 2)) else '=', if |d| > 3 then Digit(Sextet(d, 3)) else '=']
  {
    hide Digit, DecodeChar, Sextet;
    var d0, d1, d2, d3 := Sextet(d, 0), Sextet(d, 1), Sextet(d, 2), Sextet(d, 3);
    SextetsBelow(d);
    TripleDigits(d0, d1, d2, d3);
    OctetFields(d0, d1, d2, d3);
  }

  lemma SextetsBelow(d: string)
    requires AllDigits(d)
    ensures forall k: nat :: Sextet(d, k) < 64 && (k >= |d| ==> Sextet(d, k) == 0)
  {
  }

  /** The digits of a triple are those of its sextets. */
  lemma TripleDigits(d0: nat, d1: nat, d2: nat, d3: nat)
    requires d0 < 64 && d1 < 64 && d2 < 64 && d3 < 64
    ensures var t := d0 * 0x4_0000 + d1 * 0x1000 + d2 * 0x40 + d3;
            && Digit(t / 0x4_0000) == Digit(d0) && Digit(t / 0x1000) == Digit(d1)
            && Digit(t / 0x40) == Digit(d2) && Digit(t) == Digit(d3)
  {
    hide Digit;
    SextetFields(d0, d1, d2, d3);
    DigitMod(d0, d1);
    DigitMod(d0 * 64 + d1, d2);
    DigitMod((d0 * 64 + d1) * 64 + d2, d3);
  }

  /** The fields of a triple, as sextets. */
  lemma SextetFields(d0: nat, d1: nat, d2: nat, d3: nat)
    requires d0 < 64 && d1 < 64 && d2 < 64 && d3 < 64
    ensures var t := d0 * 0x4_0000 + d1 * 0x1000 + d2 * 0x40 + d3;
            && t / 0x4_0000 == d0 && t / 0x1000 == d0 * 64 + d1
            && t / 0x40 == (d0 * 64 + d1) * 64 + d2 && t == ((d0 * 64 + d1) * 64 + d2) * 64 + d3
  {
  }

  lemma ThreeOctets(t: nat)
    requires t < 0x100_0000
    ensures t / 0x1_0000 % 256 * 0x1_0000 + t / 0x100 % 256 * 0x100 + t % 256 == t
  {
    var q := t / 0x100;
    assert t / 0x1_0000 == q / 256 && q / 256 < 256;
  }

  lemma ZeroOctets(t: nat, q: nat, unit: nat)
    requires t == q * unit && (unit == 0x100 || unit == 0x1_0000)
    ensures t % 256 == 0 && (unit == 0x1_0000 ==> t / 0x100 % 256 == 0)
  {
    if unit == 0x1_0000 { assert t / 0x100 == q * 0x100; }
  }

  /** The fields of a triple, as bytes, and which of them a short last group leaves zero. */
  lemma OctetFields(d0: nat, d1: nat, d2: nat, d3: nat)
    requires d0 < 64 && d1 < 64 && d2 < 64 && d3 < 64
    ensures var t := d0 * 0x4_0000 + d1 * 0x1000 + d2 * 0x40 + d3;
            && t / 0x1_0000 % 256 * 0x1_0000 + t / 0x100 % 256 * 0x100 + t % 256 == t
            && (d1 % 16 == 0 && d2 == 0 && d3 == 0 ==> t / 0x100 % 256 == 0 && t % 256 == 0)
            && (d2 % 4 == 0 && d3 == 0 ==> t % 256 == 0)
  {
    var t := d0 * 0x4_0000 + d1 * 0x1000 + d2 * 0x40 + d3;
    ThreeOctets(t);
    if d1 % 16 == 0 && d2 == 0 && d3 == 0 {
      ZeroOctets(t, 4 * d0 + d1 / 16, 0x1_0000);
    } else if d2 % 4 == 0 && d3 == 0 {
      ZeroOctets(t, d0 * 0x400 + d1 * 0x10 + d2 / 4, 0x100);
    }
  }

  lemma DigitMod(q: nat, d: nat)
    requires d < 64
    ensures Digit(q * 64 + d) == Digit(d)
  {
  }

  function CanonicalDigits(s: string): string
    requires Canonical(s)
  {
    if s == [] then [] else if |s| == 4 then LastDigits(s) else s[..4] + CanonicalDigits(s[4..])
  }

  lemma {:induction false} CanonicalHead(s: string)
    requires Canonical(s)
    ensures HeadOf(s) == Head(CanonicalDigits(s)) && AllDigits(CanonicalDigits(s))
  {
    if s == [] {
    } else if |s| == 4 {
      var d := LastDigits(s);
      HeadOfDigits(d, s[|d|..]);
      assert s == d + s[|d|..];
    } else {
      CanonicalHead(s[4..]);
      HeadPrefix(s[..4], s[4..]);
      assert s == s[..4] + s[4..];
    }
  }

  lemma FullGroup(g: string)
    requires |g| == 4 && AllDigits(g)
    ensures EncodeGroup(DecodeGroup(g)) == g
  {
    assert DecodeChar(g[2]) >= 0 && DecodeChar(g[3]) >= 0;
    LastGroupRoundTrip(g);
  }

  lemma {:induction false} CanonicalRoundTrip(s: string)
    requires Canonical(s)
    ensures AllDigits(CanonicalDigits(s)) && Encode(DecodeDigits(CanonicalDigits(s))) == s
  {
    hide EncodeGroup, DecodeGroup, DecodeChar, HeadOf, Encode, DecodeDigits;
    CanonicalHead(s);
    if s == [] {
      DecodeShort(s);
      EncodeShort([]);
    } else if |s| == 4 {
      LastGroupRoundTrip(s);
      DecodeShort(LastDigits(s));
      EncodeShort(DecodeGroup(LastDigits(s)));
    } else {
      CanonicalHead(s[4..]);
      CanonicalRoundTrip(s[4..]);
      var d := CanonicalDigits(s[4..]);
      DecodeAppend(s[..4], d);
      DecodeShort(s[..4]);
      var b := DecodeGroup(s[..4]);
      EncodeAppend(b, DecodeDigits(d));
      EncodeShort(b);
      FullGroup(s[..4]);
      assert s == s[..4] + s[4..];
    }
  }

  /** Encoding a decoding gives the string back exactly when the string is canonical. */
  lemma EncodeDecode(s: string)
    ensures Encode(Decode(s)) == s <==> Canonical(s)
  {
    EncodeCanonical(Decode(s));
    if Canonical(s) {
      CanonicalHead(s);
      CanonicalRoundTrip(s);
    }
  }

  /** Blanks anywhere do not matter. */
  lemma {:induction false} BlankInsensitive(a: string, blank: char, b: string)
    requires IsSpace(blank)
    ensures Decode(a + [blank] + b) == Decode(a + b)
    ensures HeadOf(a + [blank] + b) == HeadOf(a + b)
  {
    hide DecodeDigits, DecodeChar;
    if a == [] {
      assert a + [blank] + b == [blank] + b && a + b == b;
      assert ([blank] + b)[1..] == b;
    } else {
      BlankInsensitive(a[1..], blank, b);
      assert (a + [blank] + b)[1..] == a[1..] + [blank] + b && (a + b)[1..] == a[1..] + b;
    }
  }

  // ---- the bits ----

  /** The number whose binary form is the bits of the bytes, the first byte first. */
  function BytesNumber(x: seq<Byte>): nat {
    if x == [] then 0 else BytesNumber(x[..|x| - 1]) * 256 + x[|x| - 1] as nat
  }

  /** The number whose binary form is six bits for each digit, the first digit first. */
  function DigitsNumber(d: string): nat
    requires AllDigits(d)
  {
    if d == [] then 0 else DigitsNumber(d[..|d| - 1]) * 64 + DecodeChar(d[|d| - 1])
  }

  lemma BytesSnoc(x: seq<Byte>, b: Byte)
    ensures BytesNumber(x + [b]) == BytesNumber(x) * 256 + b as nat
  {
    assert (x + [b])[..|x|] == x;
  }

  lemma DigitsSnoc(d: string, c: char)
    requires AllDigits(d + [c]) && AllDigits(d)
    ensures DigitsNumber(d + [c]) == DigitsNumber(d) * 64 + DecodeChar(c)
  {
    assert (d + [c])[..|d|] == d;
  }

  lemma DigitsNext(d: string, g: string, k: nat)
    requires AllDigits(d) && AllDigits(g) && k < |g|
    ensures AllDigits(d + g[..k]) && AllDigits(d + g[..k + 1])
    ensures DigitsNumber(d + g[..k + 1]) == DigitsNumber(d + g[..k]) * 64 + Sextet(g, k)
  {
    hide DecodeChar, DigitsNumber;
    assert g[..k + 1] == g[..k] + [g[k]];
    Seqs.Assoc(d, g[..k], [g[k]]);
    DigitsSnoc(d + g[..k], g[k]);
  }

  /** A group of up to four digits after some others. */
  lemma DigitsThen(d: string, g: string)
    requires AllDigits(d) && AllDigits(g) && |g| <= 4
    ensures AllDigits(d + g)
    ensures |g| == 0 ==> DigitsNumber(d + g) == DigitsNumber(d)
    ensures |g| == 1 ==> DigitsNumber(d + g) == DigitsNumber(d) * 64 + Sextet(g, 0)
    ensures |g| == 2 ==> DigitsNumber(d + g) == DigitsNumber(d) * 0x1000 + Sextet(g, 0) * 64 + Sextet(g, 1)
    ensures |g| == 3 ==> DigitsNumber(d + g) == DigitsNumber(d) * 0x4_0000 + Sextet(g, 0) * 0x1000
                                                + Sextet(g, 1) * 64 + Sextet(g, 2)
    ensures |g| == 4 ==> DigitsNumber(d + g) == DigitsNumber(d) * 0x100_0000 + Sextet(g, 0) * 0x4_0000
                                                + Sextet(g, 1) * 0x1000 + Sextet(g, 2) * 64 + Sextet(g, 3)
  {
    hide DecodeChar, DigitsNumber, Sextet;
    assert d + g[..0] == d && g[..|g|] == g;
    if |g| >= 1 { DigitsNext(d, g, 0); }
    if |g| >= 2 { DigitsNext(d, g, 1); }
    if |g| >= 3 { DigitsNext(d, g, 2); }
    if |g| >= 4 { DigitsNext(d, g, 3); }
  }

  lemma BytesThen(x: seq<Byte>, g: seq<Byte>)
    requires |g| <= 3
    ensures |g| == 0 ==> BytesNumber(x + g) == BytesNumber(x)
    ensures |g| == 1 ==> BytesNumber(x + g) == BytesNumber(x) * 0x100 + g[0] as nat
    ensures |g| == 2 ==> BytesNumber(x + g) == BytesNumber(x) * 0x1_0000 + g[0] as nat * 0x100 + g[1] as nat
    ensures |g| == 3 ==> BytesNumber(x + g) == BytesNumber(x) * 0x100_0000 + g[0] as nat * 0x1_0000
                                               + g[1] as nat * 0x100 + g[2] as nat
  {
    hide BytesNumber;
    assert x + g[..0] == x;
    if |g| >= 1 {
      assert x + g[..1] == x + g[..0] + [g[0]];
      BytesSnoc(x, g[0]);
    }
    if |g| >= 2 {
      assert x + g[..2] == x + g[..1] + [g[1]];
      BytesSnoc(x + g[..1], g[1]);
    }
    if |g| >= 3 {
      assert x + g[..3] == x + g[..2] + [g[2]];
      BytesSnoc(x + g[..2], g[2]);
    }
    assert g[..|g|] == g;
  }

  /** What decoding makes of a group, as numbers: its bits without those that do not fill a byte. */
  lemma GroupNumber(g: string)
    requires 1 <= |g| <= 4 && AllDigits(g)
    ensures var b := DecodeGroup(g);
            && (|g| == 4 ==>
                  b[0] as nat * 0x1_0000 + b[1] as nat * 0x100 + b[2] as nat
                  == Sextet(g, 0) * 0x4_0000 + Sextet(g, 1) * 0x1000 + Sextet(g, 2) * 64 + Sextet(g, 3))
            && (|g| == 3 ==>
                  b[0] as nat * 0x100 + b[1] as nat
                  == (Sextet(g, 0) * 0x1000 + Sextet(g, 1) * 64 + Sextet(g, 2)) / 4)
            && (|g| == 2 ==> b[0] as nat == (Sextet(g, 0) * 64 + Sextet(g, 1)) / 16)
            && (|g| == 1 ==> b[0] as nat == Sextet(g, 0) * 4)
  {
    SextetsBelow(g);
    hide DecodeChar, Sextet;
    GroupFields(Sextet(g, 0), Sextet(g, 1), Sextet(g, 2), Sextet(g, 3));
  }

  lemma GroupFields(d0: nat, d1: nat, d2: nat, d3: nat)
    requires d0 < 64 && d1 < 64 && d2 < 64 && d3 < 64
    ensures var t := d0 * 0x4_0000 + d1 * 0x1000 + d2 * 0x40 + d3;
            && t / 0x1_0000 % 256 * 0x1_0000 + t / 0x100 % 256 * 0x100 + t % 256 == t
            && t / 0x1_0000 % 256 * 0x100 + t / 0x100 % 256 == (d0 * 0x1000 + d1 * 64 + d2) / 4
            && t / 0x1_0000 % 256 == (d0 * 64 + d1) / 16
            && (d1 == 0 ==> t / 0x1_0000 % 256 == d0 * 4)
  {
    var t := d0 * 0x4_0000 + d1 * 0x1000 + d2 * 0x40 + d3;
    ThreeOctets(t);
    assert t / 0x1_0000 == (d0 * 64 + d1) / 16 && t / 0x1_0000 < 256;
    assert t / 0x100 == (d0 * 0x1000 + d1 * 64 + d2) / 4;
    var q := t / 0x100;
    assert q / 256 == t / 0x1_0000 && q == q / 256 * 256 + q % 256;
  }

  /** Decoding keeps the bits, of any digits: all of them in whole groups; two or four fewer at the end when
      the last group has three or two digits; and a lone last digit counts as eight bits, its own first. */
  lemma {:induction false} DecodeKeepsBits(h: string)
    requires AllDigits(h)
    ensures |h| % 4 == 0 ==> BytesNumber(DecodeDigits(h)) == DigitsNumber(h) && |DecodeDigits(h)| == |h| / 4 * 3
    ensures |h| % 4 == 3 ==>
              BytesNumber(DecodeDigits(h)) == DigitsNumber(h) / 4 && |DecodeDigits(h)| == |h| / 4 * 3 + 2
    ensures |h| % 4 == 2 ==>
              BytesNumber(DecodeDigits(h)) == DigitsNumber(h) / 16 && |DecodeDigits(h)| == |h| / 4 * 3 + 1
    ensures |h| % 4 == 1 ==>
              BytesNumber(DecodeDigits(h)) == DigitsNumber(h) * 4 && |DecodeDigits(h)| == |h| / 4 * 3 + 1
  {
    hide DecodeChar, DecodeDigits, DecodeGroup, Sextet, DigitsNumber, BytesNumber;
    if h == [] {
      NoNumbers();
      DecodeShort(h);
    } else {
      var n := if |h| % 4 == 0 then |h| - 4 else |h| - |h| % 4;
      var front, g := h[..n], h[n..];
      Seqs.TakeDrop(h, n);
      DecodeKeepsBits(front);
      DecodeAppend(front, g);
      DecodeShort(g);
      DigitsThen(front, g);
      BytesThen(DecodeDigits(front), DecodeGroup(g));
      GroupNumber(g);
    }
  }

  lemma NoNumbers()
    ensures BytesNumber([]) == 0 && DigitsNumber([]) == 0
  {
  }

  /** Encoding keeps the bits: the digits of an encoding read as six bits each are the bytes' bits, with as
      many zero bits behind them as fill up the last digit. */
  lemma EncodeKeepsBits(x: seq<Byte>)
    ensures AllDigits(Digits(x))
    ensures Encode(x) == Digits(x) + if |x| % 3 == 1 then "==" else if |x| % 3 == 2 then "=" else ""
    ensures |x| % 3 == 0 ==> DigitsNumber(Digits(x)) == BytesNumber(x) && |Digits(x)| == |x| / 3 * 4
    ensures |x| % 3 == 1 ==> DigitsNumber(Digits(x)) == BytesNumber(x) * 16 && |Digits(x)| == |x| / 3 * 4 + 2
    ensures |x| % 3 == 2 ==> DigitsNumber(Digits(x)) == BytesNumber(x) * 4 && |Digits(x)| == |x| / 3 * 4 + 3
  {
    EncodeSplits(x);
    DigitsDecode(x);
    DigitsEnd(x);
    DecodeKeepsBits(Digits(x));
  }

  /** The last digit of an encoding ends in zero bits where the last group is short. */
  lemma {:induction false} DigitsEnd(x: seq<Byte>)
    ensures AllDigits(Digits(x))
    ensures |Digits(x)| == |x| / 3 * 4 + (if |x| % 3 == 0 then 0 else |x| % 3 + 1)
    ensures |x| % 3 == 1 ==> DigitsNumber(Digits(x)) % 16 == 0
    ensures |x| % 3 == 2 ==> DigitsNumber(Digits(x)) % 4 == 0
  {
    DigitsDecode(x);
    hide AllDigits, DecodeChar, Digits, GroupDigits, DigitsNumber;
    DigitsStep(x);
    if x == [] {
    } else if |x| <= 3 {
      ShortEnd(x);
    } else {
      DigitsDecode(x[3..]);
      DigitsEnd(x[3..]);
      GroupSextets(x[..3]);
      LastBits(GroupDigits(x[..3]), Digits(x[3..]));
    }
  }

  lemma ShortEnd(g: seq<Byte>)
    requires 1 <= |g| <= 3
    ensures AllDigits(GroupDigits(g))
    ensures |g| == 1 ==> DigitsNumber(GroupDigits(g)) % 16 == 0
    ensures |g| == 2 ==> DigitsNumber(GroupDigits(g)) % 4 == 0
  {
    hide DecodeChar, GroupDigits, DigitsNumber, Triple, Sextet;
    GroupSextets(g);
    DigitsThen("", GroupDigits(g));
    assert "" + GroupDigits(g) == GroupDigits(g);
    ShortTriples(g[0], if |g| > 1 then g[1] else 0);
    NoNumbers();
    LowBits(Sextet(GroupDigits(g), 0), Sextet(GroupDigits(g), 1), Sextet(GroupDigits(g), 2));
  }

  lemma Low4(k: nat, d: nat)
    ensures (16 * k + d) % 16 == d % 16
  {
    Remainder16(k + d / 16, d % 16);
  }

  lemma Remainder16(k: nat, r: nat)
    requires r < 16
    ensures (16 * k + r) % 16 == r
  {
  }

  lemma Low2(k: nat, d: nat)
    ensures (4 * k + d) % 4 == d % 4
  {
    Remainder4(k + d / 4, d % 4);
  }

  lemma Remainder4(k: nat, r: nat)
    requires r < 4
    ensures (4 * k + r) % 4 == r
  {
  }

  lemma LowBits(d0: nat, d1: nat, d2: nat)
    ensures (d0 * 64 + d1) % 16 == d1 % 16 && (d0 * 0x1000 + d1 * 64 + d2) % 4 == d2 % 4
  {
    Low4(4 * d0, d1);
    Low2(0x400 * d0 + 16 * d1, d2);
  }

  /** The low bits of a number are those of its last digits. */
  lemma LastBits(a: string, b: string)
    requires AllDigits(a) && AllDigits(b) && b != []
    ensures AllDigits(a + b)
    ensures DigitsNumber(a + b) % 16 == DigitsNumber(b) % 16 && DigitsNumber(a + b) % 4 == DigitsNumber(b) % 4
  {
    hide DigitsNumber, DecodeChar;
    var n := |b| - 1;
    assert b == b[..n] + [b[n]];
    Seqs.Assoc(a, b[..n], [b[n]]);
    DigitsSnoc(a + b[..n], b[n]);
    DigitsSnoc(b[..n], b[n]);
    var d := DecodeChar(b[n]);
    Low4(4 * DigitsNumber(a + b[..n]), d);
    Low4(4 * DigitsNumber(b[..n]), d);
    Low2(16 * DigitsNumber(a + b[..n]), d);
    Low2(16 * DigitsNumber(b[..n]), d);
  }

  /** Whatever follows a '=' is not read. */
  lemma PaddingEnds(a: string, b: string)
    ensures Decode(a + "=" + b) == Decode(a + "=")
  {
    HeadStops(a + "=", b);
  }

  /** Anything but digits and blanks before the first '=' makes the whole string decode to nothing. */
  lemma {:induction false} ForeignRejected(a: string, c: char, b: string)
    requires '=' !in a && c != '=' && !IsSpace(c) && DecodeChar(c) < 0
    ensures HeadOf(a + [c] + b) == Bad && Decode(a + [c] + b) == []
  {
    hide DecodeChar, DecodeDigits;
    if a == [] {
      assert a + [c] + b == [c] + b && ([c] + b)[0] == c;
    } else {
      assert (a + [c] + b)[1..] == a[1..] + [c] + b;
      ForeignRejected(a[1..], c, b);
    }
  }
}
