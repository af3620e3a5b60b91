/** Splicing credentials into the URL of a moved camera. */
module UrlRewrite {
  import Seqs

  /** `url.find("://")`, -1 when there is none. */
  function Scheme(url: string): (i: int)
    ensures i == -1 || (0 <= i && i + 3 <= |url|)
  {
    if |url| < 3 then -1
    else if url[..3] == "://" then 0
    else
      var r := Scheme(url[1..]);
      if r < 0 then -1 else r + 1
  }

  /** It is the first occurrence. */
  lemma {:induction false} SchemeIsFirst(url: string, j: nat)
    requires j + 3 <= |url| && url[j..j + 3] == "://"
    ensures 0 <= Scheme(url) <= j && url[Scheme(url)..Scheme(url) + 3] == "://"
  {
    if url[..3] != "://" {
      assert url[1..][j - 1..j + 2] == url[j..j + 3];
      SchemeIsFirst(url[1..], j - 1);
    }
  }

  predicate IsDelim(c: char) {
    c == '/' || c == '?' || c == '#'
  }

  /** `s.find_first_of("/?#")`, the length when there is none. */
  function HostEnd(s: string): (i: nat)
    ensures i <= |s|
    ensures forall j :: 0 <= j < i ==> !IsDelim(s[j])
    ensures i < |s| ==> IsDelim(s[i])
  {
    if s == [] || IsDelim(s[0]) then 0 else 1 + HostEnd(s[1..])
  }

  /** `s.rfind('@')`, -1 when there is none. */
  function LastAt(s: string): (i: int)
    ensures -1 <= i < |s|
    ensures i >= 0 ==> s[i] == '@'
    ensures forall j :: i < j < |s| ==> s[j] != '@'
  {
    if s == [] then -1
    else if s[|s| - 1] == '@' then |s| - 1
    else LastAt(s[..|s| - 1])
  }

  /** Everything up to and including "://". */
  function Front(url: string): string
    requires Scheme(url) >= 0
  {
    url[..Scheme(url) + 3]
  }

  function Tail(url: string): string
    requires Scheme(url) >= 0
  {
    url[Scheme(url) + 3..]
  }

  function Authority(url: string): string
    requires Scheme(url) >= 0
  {
    Tail(url)[..HostEnd(Tail(url))]
  }

  function Rest(url: string): string
    requires Scheme(url) >= 0
  {
    Tail(url)[HostEnd(Tail(url))..]
  }

  /** The authority without its userinfo. */
  function Host(url: string): string
    requires Scheme(url) >= 0
  {
    Authority(url)[LastAt(Authority(url)) + 1..]
  }

  function ExtractUserinfo(url: string): string {
    if Scheme(url) < 0 then []
    else
      var at := LastAt(Authority(url));
      if at < 0 then [] else Authority(url)[..at]
  }

  function InjectUserinfo(url: string, userinfo: string): string {
    if Scheme(url) < 0 then url
    else Front(url) + userinfo + "@" + Host(url) + Rest(url)
  }

  function RewriteSourceUrl(oldUrl: string, newUrl: string, credentials: string): string {
    if newUrl == [] then newUrl
    else if ExtractUserinfo(newUrl) != [] then newUrl
    else if credentials != [] then InjectUserinfo(newUrl, credentials)
    else if oldUrl != [] && ExtractUserinfo(oldUrl) != [] then InjectUserinfo(newUrl, ExtractUserinfo(oldUrl))
    else newUrl
  }

  /** The URL with its userinfo, and the '@' after it, taken out. */
  function Strip(url: string): string {
    if Scheme(url) < 0 then url else Front(url) + Host(url) + Rest(url)
  }

  predicate NoDelims(s: string) {
    forall c :: c in s ==> !IsDelim(c)
  }

  lemma DelimsAre(s: string)
    ensures NoDelims(s) <==> '/' !in s && '?' !in s && '#' !in s
  {
    if NoDelims(s) {
      assert forall c :: c in s ==> !IsDelim(c);
    }
  }

  // ---- the parts of a spliced URL ----

  lemma {:induction false} SchemeOfPrefix(url: string, tail: string)
    requires Scheme(url) >= 0
    ensures Scheme(Front(url) + tail) == Scheme(url)
  {
    var u := Front(url) + tail;
    assert u[..3] == url[..3];
    if url[..3] != "://" {
      assert Front(url)[1..] == Front(url[1..]);
      assert u[1..] == Front(url[1..]) + tail;
      SchemeOfPrefix(url[1..], tail);
    }
  }

  lemma HostEndIs(s: string, i: nat)
    requires i <= |s| && (forall j :: 0 <= j < i ==> !IsDelim(s[j])) && (i < |s| ==> IsDelim(s[i]))
    ensures HostEnd(s) == i
  {
  }

  lemma LastAtIs(s: string, i: int)
    requires -1 <= i < |s| && (i >= 0 ==> s[i] == '@') && (forall j :: i < j < |s| ==> s[j] != '@')
    ensures LastAt(s) == i
  {
  }

  lemma UrlIs(url: string)
    requires Scheme(url) >= 0
    ensures url == Front(url) + Authority(url) + Rest(url)
  {
    hide Scheme, HostEnd;
    Seqs.TakeDrop(url, Scheme(url) + 3);
    Seqs.TakeDrop(Tail(url), HostEnd(Tail(url)));
    Seqs.Assoc(Front(url), Authority(url), Rest(url));
  }

  lemma AuthorityIs(url: string)
    requires Scheme(url) >= 0
    ensures NoDelims(Authority(url))
    ensures Rest(url) != [] ==> IsDelim(Rest(url)[0])
  {
    hide Scheme, HostEnd, IsDelim;
  }

  lemma HostHasNoAt(url: string)
    requires Scheme(url) >= 0
    ensures '@' !in Host(url)
  {
    hide Scheme, Authority, LastAt;
  }

  lemma PartsAddUp(url: string)
    requires Scheme(url) >= 0
    ensures url == Front(url) + Authority(url) + Rest(url)
    ensures NoDelims(Authority(url)) && '@' !in Host(url)
    ensures Rest(url) != [] ==> IsDelim(Rest(url)[0])
  {
    hide Scheme, Front, Authority, Rest, Host, NoDelims, IsDelim;
    UrlIs(url);
    AuthorityIs(url);
    HostHasNoAt(url);
  }

  /** A URL put together from a front, an authority and a rest has these as its parts. */
  lemma PartsOf(url: string, authority: string, u: string)
    requires Scheme(url) >= 0 && NoDelims(authority) && u == Front(url) + authority + Rest(url)
    ensures Scheme(u) == Scheme(url) && Front(u) == Front(url)
    ensures Authority(u) == authority && Rest(u) == Rest(url)
  {
    hide Scheme, HostEnd, Authority, Host, IsDelim;
    var t := authority + Rest(url);
    Seqs.Assoc(Front(url), authority, Rest(url));
    AuthorityIs(url);
    AuthorityEnds(authority, Rest(url));
    SchemeOfPrefix(url, t);
    FrontAndTail(u, Front(url), t);
    hide Front, Rest, Tail;
    TailParts(u, authority, Rest(url));
  }

  lemma AuthorityEnds(authority: string, rest: string)
    requires NoDelims(authority) && (rest != [] ==> IsDelim(rest[0]))
    ensures HostEnd(authority + rest) == |authority|
  {
    hide HostEnd, IsDelim;
    HostEndIs(authority + rest, |authority|);
  }

  lemma FrontAndTail(u: string, front: string, t: string)
    requires u == front + t && 0 <= Scheme(u) == |front| - 3
    ensures Front(u) == front && Tail(u) == t
  {
    hide Scheme;
  }

  lemma TailParts(u: string, a: string, rest: string)
    requires Scheme(u) >= 0 && Tail(u) == a + rest && HostEnd(a + rest) == |a|
    ensures Authority(u) == a && Rest(u) == rest
  {
    hide Scheme, HostEnd, Tail;
  }

  lemma InjectParts(url: string, userinfo: string)
    requires Scheme(url) >= 0 && NoDelims(userinfo)
    ensures var u := InjectUserinfo(url, userinfo);
            && Scheme(u) == Scheme(url) && Front(u) == Front(url)
            && Authority(u) == userinfo + "@" + Host(url) && Rest(u) == Rest(url)
            && LastAt(Authority(u)) == |userinfo|
  {
    PartsAddUp(url);
    var a := userinfo + "@" + Host(url);
    var u := InjectUserinfo(url, userinfo);
    assert u == Front(url) + a + Rest(url);
    forall c | c in a ensures !IsDelim(c) {
      assert c in userinfo || c == '@' || c in Authority(url);
    }
    PartsOf(url, a, u);
    LastAtIs(a, |userinfo|);
  }

  // ---- the laws ----

  /** What is spliced into a URL is what is read back, exactly when it holds no '/', '?' or '#'. */
  lemma InjectExtract(url: string, userinfo: string)
    requires Scheme(url) >= 0
    ensures ExtractUserinfo(InjectUserinfo(url, userinfo)) == userinfo
        <==> '/' !in userinfo && '?' !in userinfo && '#' !in userinfo
  {
    hide Scheme, HostEnd, LastAt, InjectUserinfo, Authority, Host, Front, Rest;
    DelimsAre(userinfo);
    if NoDelims(userinfo) {
      InjectParts(url, userinfo);
      assert (userinfo + "@" + Host(url))[..|userinfo|] == userinfo;
    }
    ExtractedHasNoDelims(InjectUserinfo(url, userinfo));
  }

  lemma ExtractedHasNoDelims(url: string)
    ensures NoDelims(ExtractUserinfo(url))
  {
    if Scheme(url) >= 0 { PartsAddUp(url); }
  }

  /** Splicing only adds the userinfo: taking it out gives the stripped URL. */
  lemma InjectStrip(url: string, userinfo: string)
    requires Scheme(url) >= 0 && NoDelims(userinfo)
    ensures Strip(InjectUserinfo(url, userinfo)) == Strip(url)
  {
    InjectParts(url, userinfo);
    assert (userinfo + "@" + Host(url))[|userinfo| + 1..] == Host(url);
  }

  lemma StripNothing(url: string)
    requires Scheme(url) >= 0 && '@' !in Authority(url)
    ensures Strip(url) == url && ExtractUserinfo(url) == []
  {
    PartsAddUp(url);
    LastAtIs(Authority(url), -1);
  }

  /** The credentials a rewrite is to use: those given, or else those of the old URL. */
  function Wanted(oldUrl: string, credentials: string): string {
    if credentials != [] then credentials else ExtractUserinfo(oldUrl)
  }

  /** A new URL without userinfo gets the wanted credentials, and nothing else of it changes. */
  lemma RewriteSplices(oldUrl: string, newUrl: string, credentials: string)
    requires Scheme(newUrl) >= 0 && '@' !in Authority(newUrl)
    requires '/' !in credentials && '?' !in credentials && '#' !in credentials
    ensures var r := RewriteSourceUrl(oldUrl, newUrl, credentials);
            && ExtractUserinfo(r) == (if credentials != [] then credentials else ExtractUserinfo(oldUrl))
            && Strip(r) == newUrl
  {
    DelimsAre(credentials);
    StripNothing(newUrl);
    var w := Wanted(oldUrl, credentials);
    ExtractedHasNoDelims(oldUrl);
    DelimsAre(w);
    if w != [] {
      InjectExtract(newUrl, w);
      InjectStrip(newUrl, w);
    }
  }

  /** And it gets them, given a URL with a scheme and no userinfo yet, only if they hold no delimiter. */
  lemma RewriteNeedsNoDelims(oldUrl: string, newUrl: string, credentials: string)
    requires Scheme(newUrl) >= 0 && ExtractUserinfo(newUrl) == []
    ensures ExtractUserinfo(RewriteSourceUrl(oldUrl, newUrl, credentials))
            == (if credentials != [] then credentials else ExtractUserinfo(oldUrl))
        <==> '/' !in credentials && '?' !in credentials && '#' !in credentials
  {
    ExtractedHasNoDelims(oldUrl);
    DelimsAre(ExtractUserinfo(oldUrl));
    var w := Wanted(oldUrl, credentials);
    if w != [] { InjectExtract(newUrl, w); }
  }

  /** No later rewrite, whatever it is given, changes a URL exactly when that carries userinfo or has no
      scheme. */
  lemma RewriteOnce(url: string)
    ensures (forall oldUrl, credentials :: RewriteSourceUrl(oldUrl, url, credentials) == url)
        <==> ExtractUserinfo(url) != [] || Scheme(url) < 0
  {
    if Scheme(url) >= 0 && ExtractUserinfo(url) == [] {
      InjectExtract(url, "u");
      assert RewriteSourceUrl("", url, "u") != url;
    }
  }

  /** The second pass made on the source's current URL leaves the first one's result alone exactly
      when that carries userinfo, has no scheme, or the current URL has no userinfo to add. */
  lemma SecondPass(current: string, url: string)
    ensures RewriteSourceUrl(current, url, "") == url
        <==> ExtractUserinfo(url) != [] || Scheme(url) < 0 || ExtractUserinfo(current) == []
  {
    var ui := ExtractUserinfo(current);
    if Scheme(url) >= 0 && ExtractUserinfo(url) == [] && ui != [] {
      ExtractedHasNoDelims(current);
      DelimsAre(ui);
      InjectExtract(url, ui);
    }
  }
}
