/** Percent-encoding of userinfo, against RFC 3986. */
module UserinfoEncoding {
  import Seqs
  import opened UrlRewrite

  /** A byte of a string. */
  type Octet = c: char | c as int < 256 witness 'a'

  /** Section 2.3 of RFC 3986. */
  predicate Unreserved(c: char) {
    'a' <= c <= 'z' || 'A' <= c <= 'Z' || '0' <= c <= '9' || c == '-' || c == '.' || c == '_' || c == '~'
  }

  /** Section 2.2 of RFC 3986. */
  predicate SubDelim(c: char) {
    c == '!' || c == '$' || c == '&' || c == '\'' || c == '(' || c == ')' || c == '*' || c == '+'
    || c == ',' || c == ';' || c == '='
  }

  predicate Allowed(c: char) {
    Unreserved(c) || c == ':' || SubDelim(c)
  }

  function HexDigit(n: nat): Octet
    requires n < 16
  {
    if n < 10 then '0' + n as char else 'A' + (n - 10) as char
  }

  /** The value of a hexadecimal digit of either case, and -1 for anything else. */
  function HexValue(c: char): (v: int)
    ensures -1 <= v < 16
  {
    if '0' <= c <= '9' then c as int - '0' as int
    else if 'A' <= c <= 'F' then c as int - 'A' as int + 10
    else if 'a' <= c <= 'f' then c as int - 'a' as int + 10
    else -1
  }

  function EncodeChar(c: Octet): seq<Octet> {
    if Allowed(c) then [c] else ['%', HexDigit(c as int / 16), HexDigit(c as int % 16)]
  }

  function Encode(s: seq<Octet>): seq<Octet> {
    if s == [] then [] else Encode(s[..|s| - 1]) + EncodeChar(s[|s| - 1])
  }

  /** What becomes of one byte: a letter, a digit or one of the marks stays; anything else is '%' and its two
      hexadecimal digits, in upper case. */
  lemma EncodeCharIs(c: Octet)
    ensures var stays := 'a' <= c <= 'z' || 'A' <= c <= 'Z' || '0' <= c <= '9' || c in "-._~:!$&'()*+,;=";
            EncodeChar(c) == if stays then [c]
                             else ['%', "0123456789ABCDEF"[c as int / 16], "0123456789ABCDEF"[c as int % 16]]
  {
    HexIs(c as int / 16);
    HexIs(c as int % 16);
  }

  lemma HexIs(n: nat)
    requires n < 16
    ensures HexDigit(n) == "0123456789ABCDEF"[n]
  {
  }

  ghost predicate AllStay(s: seq<Octet>) {
    forall c :: c in s ==> EncodeChar(c) == [c]
  }

  lemma AllStaySnoc(front: seq<Octet>, c: Octet)
    ensures AllStay(front + [c]) <==> AllStay(front) && EncodeChar(c) == [c]
  {
    hide EncodeChar;
    if AllStay(front + [c]) {
      assert c in front + [c];
      assert forall x :: x in front ==> x in front + [c];
    }
  }

  lemma {:induction false} KeepsAllowed(s: seq<Octet>)
    ensures |Encode(s)| >= |s|
    ensures Encode(s) == s <==> AllStay(s)
  {
    if s == [] {
      EncodeNil();
    } else {
      hide Encode, EncodeChar, AllStay;
      var front, c := s[..|s| - 1], s[|s| - 1];
      KeepsAllowed(front);
      EncodeSnoc(s);
      assert |EncodeChar(c)| >= 1 by { EncodeCharIs(c); }
      SnocKept(front, c, Encode(front), EncodeChar(c));
      Seqs.TakeDrop(s, |s| - 1);
      assert s[|s| - 1..] == [c];
      AllStaySnoc(front, c);
    }
  }

  /** The encoding is the text itself exactly when every character may stay. */
  lemma EncodeKeeps(s: seq<Octet>)
    ensures Encode(s) == s <==> forall c :: c in s ==>
              'a' <= c <= 'z' || 'A' <= c <= 'Z' || '0' <= c <= '9' || c in "-._~:!$&'()*+,;="
  {
    KeepsAllowed(s);
    hide Encode, EncodeChar;
    forall c | c in s
      ensures EncodeChar(c) == [c] <==>
                'a' <= c <= 'z' || 'A' <= c <= 'Z' || '0' <= c <= '9' || c in "-._~:!$&'()*+,;="
    {
      EncodeCharIs(c);
    }
  }

  lemma SnocKept(a: string, c: char, b: string, e: string)
    requires |b| >= |a| && |e| >= 1
    ensures a + [c] == b + e <==> a == b && e == [c]
  {
    if a + [c] == b + e {
      assert |b| == |a| && |e| == 1;
      assert (a + [c])[..|a|] == a && (b + e)[..|b|] == b && (b + e)[|b|..] == e && (a + [c])[|a|..] == [c];
    }
  }

  lemma EncodeSnoc(s: seq<Octet>)
    requires s != []
    ensures Encode(s) == Encode(s[..|s| - 1]) + EncodeChar(s[|s| - 1])
  {
  }

  method UrlEncodeUserinfo(s: seq<Octet>) returns (out: seq<Octet>)
    ensures out == Encode(s)
  {
    out := [];
    for i := 0 to |s|
      invariant out == Encode(s[..i])
    {
      var c := s[i];
      if Allowed(c) {
        out := out + [c];
      } else {
        out := out + ['%'];
        out := out + [HexDigit(c as int / 16 % 16)];
        out := out + [HexDigit(c as int % 16)];
      }
      assert s[..i + 1][..i] == s[..i];
    }
    assert s[..|s|] == s;
  }

  predicate IsTriplet(s: string) {
    |s| >= 3 && s[0] == '%' && HexValue(s[1]) >= 0 && HexValue(s[2]) >= 0
  }

  /** Section 2.1 of RFC 3986: each percent-encoded triplet stands for one byte. */
  function PctDecode(s: seq<Octet>): seq<Octet> {
    if s == [] then []
    else if IsTriplet(s) then [(HexValue(s[1]) * 16 + HexValue(s[2])) as char] + PctDecode(s[3..])
    else [s[0]] + PctDecode(s[1..])
  }

  /** Section 3.2.1 of RFC 3986: userinfo = *( unreserved / pct-encoded / sub-delims / ":" ). */
  predicate IsUserinfo(s: string) {
    s == []
    || (IsTriplet(s) && IsUserinfo(s[3..]))
    || (Allowed(s[0]) && IsUserinfo(s[1..]))
  }

  lemma HexRoundTrip(n: nat)
    requires n < 16
    ensures HexValue(HexDigit(n)) == n && !IsDelim(HexDigit(n)) && HexDigit(n) != '@' && HexDigit(n) != ':'
  {
  }

  lemma DecodeEncodeChar(c: Octet, rest: seq<Octet>)
    ensures PctDecode(EncodeChar(c) + rest) == [c] + PctDecode(rest)
  {
    var e := EncodeChar(c) + rest;
    if Allowed(c) {
      assert e[1..] == rest;
    } else {
      HexRoundTrip(c as int / 16);
      HexRoundTrip(c as int % 16);
      assert e[3..] == rest;
    }
  }

  lemma {:induction false} DecodeEncodeThen(s: seq<Octet>, rest: seq<Octet>)
    ensures PctDecode(Encode(s) + rest) == s + PctDecode(rest)
  {
    hide PctDecode, EncodeChar;
    if s == [] {
      assert Encode(s) + rest == rest;
    } else {
      var front, c := s[..|s| - 1], s[|s| - 1];
      assert Encode(s) + rest == Encode(front) + (EncodeChar(c) + rest);
      DecodeEncodeThen(front, EncodeChar(c) + rest);
      DecodeEncodeChar(c, rest);
      assert s == front + [c];
    }
  }

  /** Encoding is lossless on every byte string. */
  lemma DecodeEncode(s: seq<Octet>)
    ensures PctDecode(Encode(s)) == s
  {
    DecodeEncodeThen(s, []);
    assert Encode(s) + [] == Encode(s);
  }

  lemma EncodeCharLegal(c: Octet, rest: seq<Octet>)
    requires IsUserinfo(rest)
    ensures IsUserinfo(EncodeChar(c) + rest)
  {
    var e := EncodeChar(c) + rest;
    if Allowed(c) {
      assert e[1..] == rest;
    } else {
      HexRoundTrip(c as int / 16);
      HexRoundTrip(c as int % 16);
      assert e[3..] == rest;
    }
  }

  lemma {:induction false} EncodeLegalThen(s: seq<Octet>, rest: seq<Octet>)
    requires IsUserinfo(rest)
    ensures IsUserinfo(Encode(s) + rest)
  {
    hide IsUserinfo, EncodeChar;
    if s == [] {
      assert Encode(s) + rest == rest;
    } else {
      var front, c := s[..|s| - 1], s[|s| - 1];
      EncodeCharLegal(c, rest);
      EncodeLegalThen(front, EncodeChar(c) + rest);
      Seqs.Assoc(Encode(front), EncodeChar(c), rest);
    }
  }

  /** Every output is legal userinfo. */
  lemma EncodeLegal(s: seq<Octet>)
    ensures IsUserinfo(Encode(s))
  {
    EncodeLegalThen(s, []);
    assert Encode(s) + [] == Encode(s);
  }

  /** Legal userinfo holds no delimiter and no '@'. */
  lemma {:induction false} LegalIsSafe(s: string)
    requires IsUserinfo(s)
    ensures '/' !in s && '?' !in s && '#' !in s && '@' !in s
  {
    if s == [] {
    } else if IsTriplet(s) && IsUserinfo(s[3..]) {
      LegalIsSafe(s[3..]);
      assert s == [s[0], s[1], s[2]] + s[3..];
    } else {
      LegalIsSafe(s[1..]);
      assert s == [s[0]] + s[1..];
    }
  }

  /** So any credentials, encoded and spliced into any URL with a scheme, are read back whole. */
  lemma SpliceRoundTrip(oldUrl: string, url: string, raw: seq<Octet>)
    requires Scheme(url) >= 0
    ensures ExtractUserinfo(InjectUserinfo(url, Encode(raw))) == Encode(raw)
    ensures PctDecode(Encode(raw)) == raw
    ensures raw != [] && ExtractUserinfo(url) == [] ==>
              ExtractUserinfo(RewriteSourceUrl(oldUrl, url, Encode(raw))) == Encode(raw)
  {
    EncodeLegal(raw);
    LegalIsSafe(Encode(raw));
    InjectExtract(url, Encode(raw));
    DecodeEncode(raw);
  }

  /** The position of the first ':', or the length. */
  function Colon(s: string): (i: nat)
    ensures i <= |s|
    ensures forall j :: 0 <= j < i ==> s[j] != ':'
    ensures i < |s| ==> s[i] == ':'
  {
    if s == [] || s[0] == ':' then 0 else 1 + Colon(s[1..])
  }

  lemma {:induction false} ColonKept(s: seq<Octet>)
    ensures ':' in Encode(s) <==> ':' in s
  {
    if s != [] {
      var front, c := s[..|s| - 1], s[|s| - 1];
      ColonKept(front);
      if !Allowed(c) {
        HexRoundTrip(c as int / 16);
        HexRoundTrip(c as int % 16);
      }
      assert s == front + [c];
    }
  }

  lemma {:induction false} EncodeAppend(a: seq<Octet>, b: seq<Octet>)
    ensures Encode(a + b) == Encode(a) + Encode(b)
  {
    if b == [] {
      assert a + b == a;
    } else {
      assert (a + b)[..|a + b| - 1] == a + b[..|b| - 1];
      EncodeAppend(a, b[..|b| - 1]);
    }
  }

  lemma {:induction false} ColonIs(s: string, n: nat)
    requires n < |s| && s[n] == ':' && ':' !in s[..n]
    ensures Colon(s) == n
  {
    if n > 0 {
      assert s[..n][0] == s[0] && s[..n][1..] == s[1..][..n - 1];
      ColonIs(s[1..], n - 1);
    }
  }

  lemma ColonAfter(pre: string, after: string)
    requires ':' !in pre && after != [] && after[0] == ':'
    ensures Colon(pre + after) == |pre| && (pre + after)[..|pre|] == pre
  {
    hide Colon;
    assert (pre + after)[..|pre|] == pre;
    ColonIs(pre + after, |pre|);
  }

  /** From its first ':' on, a text encodes to something that starts with ':', or to nothing. */
  lemma EncodeFromColon(user: seq<Octet>, tail: string)
    requires tail != [] && tail[0] == ':'
    ensures var after := Encode(user[Colon(user)..]) + tail; after != [] && after[0] == ':'
  {
    var post := user[Colon(user)..];
    hide Encode, Colon;
    if post == [] {
      EncodeNil();
    } else {
      EncodeColon(post[1..]);
      assert post == [':'] + post[1..];
    }
  }

  lemma EncodeSplit(user: seq<Octet>, k: nat, tail: string)
    requires k <= |user|
    ensures Encode(user) + tail == Encode(user[..k]) + (Encode(user[k..]) + tail)
  {
    hide Encode;
    Seqs.TakeDrop(user, k);
    EncodeAppend(user[..k], user[k..]);
    Seqs.Assoc(Encode(user[..k]), Encode(user[k..]), tail);
  }

  /** The first ':' of an encoding is where the first ':' of the text was. */
  lemma FirstColon(user: seq<Octet>, tail: string)
    requires tail != [] && tail[0] == ':'
    ensures var s := Encode(user) + tail;
            Colon(s) < |s| && s[..Colon(s)] == Encode(user[..Colon(user)])
  {
    hide Encode, Colon;
    var k := Colon(user);
    EncodeSplit(user, k, tail);
    ColonKept(user[..k]);
    EncodeFromColon(user, tail);
    ColonAfter(Encode(user[..k]), Encode(user[k..]) + tail);
  }

  lemma EncodeNil()
    ensures Encode([]) == []
  {
  }

  lemma EncodeColon(rest: seq<Octet>)
    ensures Encode([':'] + rest) == [':'] + Encode(rest)
  {
    EncodeAppend([':'], rest);
    assert Encode([':']) == Encode([]) + EncodeChar(':');
  }

  /** The code leaves ':' as it is, so a user name and password joined by ':' can be told apart again,
      at the first ':', exactly when the user name holds none. */
  lemma PairRoundTrip(user: seq<Octet>, password: seq<Octet>)
    ensures var s := Encode(user) + ":" + Encode(password);
            && Colon(s) < |s|
            && (PctDecode(s[..Colon(s)]) == user && PctDecode(s[Colon(s) + 1..]) == password <==> ':' !in user)
  {
    hide Encode, PctDecode, Colon;
    var s := Encode(user) + ":" + Encode(password);
    assert s == Encode(user) + (":" + Encode(password));
    FirstColon(user, ":" + Encode(password));
    DecodeEncode(user[..Colon(user)]);
    if ':' !in user {
      assert user[..Colon(user)] == user;
      assert s[Colon(s) + 1..] == Encode(password);
      DecodeEncode(password);
    }
  }
}
