/** The domain gate: `urllib.parse.urlparse(url).netloc.lower()` and the exact
    membership test against the configured domain list. */
module Domains {
  import opened Wrappers
  import opened PyStr
  import UrlScan

  /** A character allowed in a URL scheme (`urllib.parse.scheme_chars`). */
  predicate IsSchemeChar(c: char) {
    ('a' <= c <= 'z') || ('A' <= c <= 'Z') || ('0' <= c <= '9') || c == '+' || c == '-' || c == '.'
  }

  /** An ASCII letter. */
  predicate IsAsciiAlpha(c: char) {
    ('a' <= c <= 'z') || ('A' <= c <= 'Z')
  }

  /** A character that ends the network location: `/`, `?` or `#`. */
  predicate IsNetlocDelim(c: char) {
    c == '/' || c == '?' || c == '#'
  }

  /** Index of the first `:` in `s` at or after `j`, or `|s|` when there is
      none (`str.find` returning -1). */
  function ColonFrom(s: string, j: nat): (i: nat)
    requires j <= |s|
    ensures j <= i <= |s|
    ensures forall k :: j <= k < i ==> s[k] != ':'
    ensures i == |s| || s[i] == ':'
    decreases |s| - j
  {
    if j == |s| || s[j] == ':' then j else ColonFrom(s, j + 1)
  }

  /** Index of the first network-location delimiter at or after `j`, or
      `|s|` (the `min` over `str.find` of `/`, `?` and `#`). */
  function DelimFrom(s: string, j: nat): (d: nat)
    requires j <= |s|
    ensures j <= d <= |s|
    ensures forall k :: j <= k < d ==> !IsNetlocDelim(s[k])
    ensures d == |s| || IsNetlocDelim(s[d])
    decreases |s| - j
  {
    if j == |s| || IsNetlocDelim(s[j]) then j else DelimFrom(s, j + 1)
  }

  /** What `urlsplit` keeps after removing a valid scheme and its colon: the
      scheme is the text before the first `:` when it is non-empty, starts
      with an ASCII letter and consists of scheme characters; otherwise the
      whole text is kept. */
  function AfterScheme(url: string): (rest: string)
    ensures |rest| <= |url| && rest == url[|url| - |rest|..]
    ensures |rest| < |url| ==>
      var i := |url| - |rest| - 1;
      && 0 < i && url[i] == ':' && IsAsciiAlpha(url[0])
      && forall k :: 0 <= k < i ==> IsSchemeChar(url[k])
    ensures var i := ColonFrom(url, 0);
      0 < i < |url| && IsAsciiAlpha(url[0]) && (forall k :: 0 <= k < i ==> IsSchemeChar(url[k])) ==>
        rest == url[i + 1..]
  {
    var i := ColonFrom(url, 0);
    if 0 < i < |url| && IsAsciiAlpha(url[0]) && (forall k :: 0 <= k < i ==> IsSchemeChar(url[k]))
    then url[i + 1..]
    else url
  }

  /** A valid scheme before the first `:` is always removed, with its `:`. */
  lemma SchemeRemoved(url: string, i: nat)
    requires 0 < i < |url| && url[i] == ':' && IsAsciiAlpha(url[0])
    requires forall k :: 0 <= k < i ==> IsSchemeChar(url[k])
    ensures AfterScheme(url) == url[i + 1..]
  {
    ColonFromUnique(url, 0, i);
  }

  /** `urlsplit(url).netloc`: the text between a leading `//` and the first
      `/`, `?` or `#` after it; empty when there is no `//`. */
  function NetLoc(url: string): (n: string)
    ensures forall k :: 0 <= k < |n| ==> !IsNetlocDelim(n[k])
    ensures var rest := AfterScheme(url);
      !(|rest| >= 2 && rest[..2] == "//") ==> n == ""
    ensures var rest := AfterScheme(url);
      |rest| >= 2 && rest[..2] == "//" ==>
        && 2 + |n| <= |rest| && rest[2..2 + |n|] == n
        && (2 + |n| == |rest| || IsNetlocDelim(rest[2 + |n|]))
  {
    var rest := AfterScheme(url);
    if |rest| >= 2 && rest[..2] == "//" then
      var d := DelimFrom(rest, 2);
      var n := rest[2..d];
      assert |n| == d - 2 && 2 + |n| == d;
      assert forall k :: 0 <= k < |n| ==> n[k] == rest[2 + k];
      n
    else ""
  }

  /** `urlsplit` refuses a network location holding one square bracket
      without the other. */
  predicate UnbalancedBrackets(n: string) {
    ('[' in n) != (']' in n)
  }

  /** `_get_domain`: the lower-cased network location, or the `ValueError`
      `urlparse` raises for an unbalanced bracket. */
  function GetDomain(url: string): (r: Result<string>)
    ensures r.Err? <==> UnbalancedBrackets(NetLoc(url))
    ensures r.Ok? ==> NoAsciiUpper(r.value) && |r.value| == |NetLoc(url)|
    ensures r.Ok? ==> r.value == Lower(NetLoc(url))
    ensures r.Ok? ==> forall k :: 0 <= k < |r.value| ==> !IsNetlocDelim(r.value[k])
  {
    var n := NetLoc(url);
    if UnbalancedBrackets(n) then Err("Invalid IPv6 URL") else Ok(Lower(n))
  }

  /** `_is_monitored_domain`: the domain is equal to one of the configured
      entries; there is no suffix, case or port matching. */
  function IsMonitored(domain: string, domains: seq<string>): (b: bool)
    ensures b <==> exists k :: 0 <= k < |domains| && domains[k] == domain
  {
    domain in domains
  }

  /** `e` is where the host part of a scanned URL ends: the first `/` or
      `?` after the scheme, or the end of the URL. */
  predicate HostEnd(u: string, k: nat, e: nat) {
    && k <= e <= |u|
    && (forall j :: k <= j < e ==> u[j] != '/' && u[j] != '?')
    && (e == |u| || u[e] == '/' || u[e] == '?')
  }

  lemma ColonFromUnique(s: string, j: nat, i: nat)
    requires j <= i < |s| && s[i] == ':'
    requires forall k :: j <= k < i ==> s[k] != ':'
    ensures ColonFrom(s, j) == i
  {
  }

  lemma DelimFromUnique(s: string, j: nat, d: nat)
    requires j <= d <= |s|
    requires forall k :: j <= k < d ==> !IsNetlocDelim(s[k])
    requires d == |s| || IsNetlocDelim(s[d])
    ensures DelimFrom(s, j) == d
  {
  }

  /** For a URL the scanner returns, the domain is the lower-cased text
      after `//` up to the first `/` or `?` (a `#` cannot occur), user
      information and port included; only an unbalanced bracket there makes
      it an error. */
  lemma ScannedUrlDomain(u: string, e: nat)
    requires UrlScan.UrlShape(u)
    requires HostEnd(u, UrlScan.SchemePartLen(u), e)
    ensures var host := u[UrlScan.SchemePartLen(u)..e];
      GetDomain(u) == if UnbalancedBrackets(host) then Err("Invalid IPv6 URL") else Ok(Lower(host))
  {
    ScannedNetLoc(u, e);
  }

  /** The network location of a scanned URL is its host part. */
  lemma ScannedNetLoc(u: string, e: nat)
    requires UrlScan.UrlShape(u)
    requires HostEnd(u, UrlScan.SchemePartLen(u), e)
    ensures NetLoc(u) == u[UrlScan.SchemePartLen(u)..e]
  {
    var k := UrlScan.SchemePartLen(u);
    ScannedSlashes(u);
    HostDelim(u, k, e);
    NetLocAfterSlashes(u);
    SliceOfSuffix(u, k - 2, 2, e - k + 2);
  }

  /** What follows the scheme of a scanned URL starts with `//`. */
  lemma ScannedSlashes(u: string)
    requires UrlScan.UrlShape(u)
    ensures var k := UrlScan.SchemePartLen(u);
      AfterScheme(u) == u[k - 2..] && u[k - 2..][..2] == "//"
  {
    var k := UrlScan.SchemePartLen(u);
    ScannedAfterScheme(u);
    var rest := u[k - 2..];
    assert rest[0] == u[k - 2] && rest[1] == u[k - 1];
  }

  /** A slice of a suffix is a slice of the whole text. */
  lemma SliceOfSuffix(u: string, a: nat, i: nat, j: nat)
    requires a + j <= |u| && i <= j
    ensures u[a..][i..j] == u[a + i..a + j]
  {
    var x, y := u[a..][i..j], u[a + i..a + j];
    assert |x| == |y|;
    assert forall m :: 0 <= m < |x| ==> x[m] == u[a + i + m] == y[m];
  }

  /** After a `//`, the network location runs up to the first delimiter. */
  lemma NetLocAfterSlashes(url: string)
    requires var rest := AfterScheme(url); |rest| >= 2 && rest[..2] == "//"
    ensures var rest := AfterScheme(url); NetLoc(url) == rest[2..DelimFrom(rest, 2)]
  {
  }

  /** In the text from the `//` of a scanned URL, the first delimiter after
      the `//` is where the host part ends. */
  lemma HostDelim(u: string, k: nat, e: nat)
    requires UrlScan.UrlShape(u) && k == UrlScan.SchemePartLen(u) && HostEnd(u, k, e)
    ensures DelimFrom(u[k - 2..], 2) == e - k + 2
  {
    var rest := u[k - 2..];
    forall j | 2 <= j < e - k + 2
      ensures !IsNetlocDelim(rest[j])
    {
      assert rest[j] == u[j + k - 2];
      assert UrlScan.IsUrlChar(u[j + k - 2]);
    }
    if e < |u| {
      assert rest[e - k + 2] == u[e];
    }
    DelimFromUnique(rest, 2, e - k + 2);
  }

  /** Removing the scheme of a scanned URL leaves the text from its `//`. */
  lemma ScannedAfterScheme(u: string)
    requires UrlScan.UrlShape(u)
    ensures AfterScheme(u) == u[UrlScan.SchemePartLen(u) - 2..]
  {
    var k := UrlScan.SchemePartLen(u);
    var c := k - 3;
    var scheme := if k == 8 then "https://" else "http://";
    assert forall j :: 0 <= j < k ==> u[j] == scheme[j];
    assert u[c] == ':';
    assert IsAsciiAlpha(u[0]);
    assert forall j :: 0 <= j < c ==> IsSchemeChar(u[j]);
    SchemeRemoved(u, c);
  }

  /** A configured entry holding an ASCII upper-case letter is never equal
      to any URL's domain, so it never matches. */
  lemma UpperCaseEntryNeverMatches(url: string, entry: string, i: nat)
    requires i < |entry| && 'A' <= entry[i] <= 'Z'
    ensures GetDomain(url) != Ok(entry)
  {
  }

  /** The domain of a URL put together from a scheme, a host part without
      `/` or `?`, and a path that is empty or starts with `/`, all made of
      URL characters. */
  lemma DomainOfParts(scheme: string, host: string, path: string)
    requires scheme == "https://" || scheme == "http://"
    requires host != []
    requires forall j :: 0 <= j < |host| ==> UrlScan.IsUrlChar(host[j]) && host[j] != '/' && host[j] != '?'
    requires forall j :: 0 <= j < |path| ==> UrlScan.IsUrlChar(path[j])
    requires path == [] || path[0] == '/'
    ensures GetDomain(scheme + host + path) == if UnbalancedBrackets(host) then Err("Invalid IPv6 URL") else Ok(Lower(host))
  {
    var u := scheme + host + path;
    var k := |scheme|;
    PartsShape(scheme, host, path);
    forall j | k <= j < k + |host|
      ensures u[j] != '/' && u[j] != '?'
    {
      assert u[j] == host[j - k];
    }
    if path != [] {
      assert u[k + |host|] == path[0];
    }
    assert HostEnd(u, k, k + |host|);
    assert u[k..k + |host|] == host;
    ScannedUrlDomain(u, k + |host|);
  }

  /** Such a URL has the URL shape, and its scheme part is the scheme. */
  lemma PartsShape(scheme: string, host: string, path: string)
    requires scheme == "https://" || scheme == "http://"
    requires host != []
    requires forall j :: 0 <= j < |host| ==> UrlScan.IsUrlChar(host[j])
    requires forall j :: 0 <= j < |path| ==> UrlScan.IsUrlChar(path[j])
    ensures UrlScan.UrlShape(scheme + host + path)
    ensures UrlScan.SchemePartLen(scheme + host + path) == |scheme|
  {
    var u := scheme + host + path;
    var k := |scheme|;
    assert u[..k] == scheme;
    forall j | k <= j < |u|
      ensures UrlScan.IsUrlChar(u[j])
    {
      if j < k + |host| {
        assert u[j] == host[j - k];
      } else {
        assert u[j] == path[j - k - |host|];
      }
    }
    if k == 7 {
      assert u[4] == ':';
    }
  }

  /** A lower-case letter, a digit, `.`, `-` or `:`. */
  predicate IsPlainHostChar(c: char) {
    ('a' <= c <= 'z') || ('0' <= c <= '9') || c == '.' || c == '-' || c == ':'
  }

  /** A host part made of lower-case letters, digits, `.`, `-` and `:` is its
      own lower-cased form, has no bracket, and is all URL characters without
      `/` or `?`. */
  lemma PlainHost(host: string)
    requires forall j :: 0 <= j < |host| ==> IsPlainHostChar(host[j])
    ensures Lower(host) == host && !UnbalancedBrackets(host)
    ensures forall j :: 0 <= j < |host| ==> UrlScan.IsUrlChar(host[j]) && host[j] != '/' && host[j] != '?'
  {
    LowerUnchanged(host);
  }

  /** A sub-domain does not match the bare configured name. */
  lemma SubdomainDoesNotMatch(u: string)
    requires u == "https://sub.bsky.app/x"
    ensures GetDomain(u) == Ok("sub.bsky.app")
    ensures !IsMonitored(GetDomain(u).value, ["bsky.app"])
  {
    PlainHost("sub.bsky.app");
    assert u == "https://" + "sub.bsky.app" + "/x";
    DomainOfParts("https://", "sub.bsky.app", "/x");
  }

  /** An explicit port is part of the domain, so it does not match the bare
      configured name. */
  lemma PortDoesNotMatch(u: string)
    requires u == "https://bsky.app:443/x"
    ensures GetDomain(u) == Ok("bsky.app:443")
    ensures !IsMonitored(GetDomain(u).value, ["bsky.app"])
  {
    PlainHost("bsky.app:443");
    assert u == "https://" + "bsky.app:443" + "/x";
    DomainOfParts("https://", "bsky.app:443", "/x");
  }

  /** Upper case in the URL's host is folded, so it matches the configured
      lower-case name. */
  lemma UpperCaseHostMatches(u: string)
    requires u == "https://BSKY.app/x"
    ensures GetDomain(u) == Ok("bsky.app")
    ensures IsMonitored(GetDomain(u).value, ["bsky.app"])
  {
    var host := "BSKY.app";
    var low := Lower(host);
    assert low == "bsky.app" by {
      assert |low| == 8;
      assert low[0] == 'b' && low[1] == 's' && low[2] == 'k' && low[3] == 'y';
      assert low[4..] == host[4..];
    }
    assert !UnbalancedBrackets(host);
    assert u == "https://" + host + "/x";
    DomainOfParts("https://", host, "/x");
  }

  /** An unbalanced `[` in the host makes `urlparse` raise. */
  lemma UnbalancedBracketRaises(u: string)
    requires u == "http://[abc/x"
    ensures GetDomain(u).Err?
  {
    var host := "[abc";
    assert host[0] == '[';
    assert UnbalancedBrackets(host);
    assert u == "http://" + host + "/x";
    DomainOfParts("http://", host, "/x");
  }
}
