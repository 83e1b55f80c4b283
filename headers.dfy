/**
 * The response headers the content proxy adds: the cache policy (a function
 * of the upstream status, the URL and the wildcard flag), the security
 * headers, and a few per-file headers. Nothing is written once the headers
 * have been sent.
 */
module Headers {
  import opened Wrappers
  import opened Strings
  import opened Http
  import opened Utils

  const HASHED_MAX_AGE: nat := 60 * 60 * 24 * 365
  const DEFAULT_MAX_AGE: nat := 60 * 60
  const NO_CACHE_VALUE := "no-store"

  predicate IsHexLower(c: char)
  {
    '0' <= c <= '9' || 'a' <= c <= 'f'
  }

  /** At position i: a `.`, then n lower-case hex characters, then a `.`. */
  predicate HashedAt(url: string, i: nat, n: nat)
  {
    i + n + 1 < |url| && url[i] == '.' && url[i + n + 1] == '.' &&
    forall k :: i < k <= i + n ==> IsHexLower(url[k])
  }

  /** `HASHED_REGEX.test(url)`: somewhere a `.`, 8 to 32 lower-case hex characters, and a `.`. */
  predicate IsHashed(url: string)
  {
    exists i: nat, n: nat :: i < |url| && 8 <= n <= 32 && HashedAt(url, i, n)
  }

  /** `getCacheMaxAgeForUrl` */
  function CacheMaxAgeForUrl(url: string): nat
  {
    if IsHashed(url) then HASHED_MAX_AGE else DEFAULT_MAX_AGE
  }

  /** The URLs that are never cached, whatever the status. */
  predicate NeverCached(status: int, url: string)
  {
    status == 404 || EndsWith(url, "/service-worker.js") || Contains(url, "/_whatsdeployed/")
  }

  /** `getCacheControl`; `None` is its `null`. */
  function GetCacheControl(wildcard: bool, status: int, url: string): Option<string>
  {
    if NeverCached(status, url) then Some(NO_CACHE_VALUE)
    else if 200 <= status < 300 then
      if wildcard && !IsHashed(url) then Some(NO_CACHE_VALUE)
      else Some("public, max-age=" + NatToString(CacheMaxAgeForUrl(url)))
    else None
  }

  /** `no-store` for 404s, the service worker and _whatsdeployed takes precedence over any status. */
  lemma NoStorePrecedence(wildcard: bool, status: int, url: string)
    requires NeverCached(status, url)
    ensures GetCacheControl(wildcard, status, url) == Some("no-store")
  {
  }

  /**
   * A response is publicly cached only when it is a 2xx outside the
   * never-cached URLs, and, in wildcard mode, only when its URL is hashed;
   * hashed URLs are cached for a year and the rest for an hour.
   */
  lemma PublicCachingPolicy(wildcard: bool, status: int, url: string)
    ensures GetCacheControl(wildcard, status, url).Some? && GetCacheControl(wildcard, status, url) != Some("no-store") <==>
      200 <= status < 300 && !NeverCached(status, url) && (!wildcard || IsHashed(url))
    ensures 200 <= status < 300 && !NeverCached(status, url) && IsHashed(url) ==>
      GetCacheControl(wildcard, status, url) == Some("public, max-age=31536000")
    ensures 200 <= status < 300 && !NeverCached(status, url) && !wildcard && !IsHashed(url) ==>
      GetCacheControl(wildcard, status, url) == Some("public, max-age=3600")
  {
    MaxAgeTexts();
    var v := "public, max-age=" + NatToString(CacheMaxAgeForUrl(url));
    assert v != "no-store" by { assert v[0] == 'p'; }
    assert "public, max-age=" + "31536000" == "public, max-age=31536000";
    assert "public, max-age=" + "3600" == "public, max-age=3600";
  }

  /** Other statuses get no Cache-Control at all. */
  lemma OtherStatusesUncached(wildcard: bool, status: int, url: string)
    requires !NeverCached(status, url) && !(200 <= status < 300)
    ensures GetCacheControl(wildcard, status, url) == None
  {
  }

  /** The two max-age values as the template literal prints them. */
  lemma MaxAgeTexts()
    ensures NatToString(HASHED_MAX_AGE) == "31536000"
    ensures NatToString(DEFAULT_MAX_AGE) == "3600"
  {
    HashedMaxAgeText();
    assert NatToString(36) == "36";
    assert NatToString(360) == "360";
  }

  lemma HashedMaxAgeText()
    ensures NatToString(31536000) == "31536000"
  {
    assert NatToString(3) == "3";
    assert NatToString(31) == "31";
    assert NatToString(315) == "315";
    assert NatToString(3153) == "3153";
    assert NatToString(31536) == "31536";
    assert NatToString(315360) == "315360";
    assert NatToString(3153600) == "3153600";
  }

  /**
   * A file name carrying a fingerprint, `p.h.q` with 8 to 32 lower-case hex
   * characters in `h`, matches the hash pattern, whatever `p` and `q` are.
   */
  lemma HashedFingerprint(p: string, h: string, q: string)
    requires 8 <= |h| <= 32
    requires forall k :: 0 <= k < |h| ==> IsHexLower(h[k])
    ensures IsHashed(p + "." + h + "." + q)
  {
    var u := p + "." + h + "." + q;
    assert forall k :: |p| < k <= |p| + |h| ==> u[k] == h[k - |p| - 1];
    assert HashedAt(u, |p|, |h|);
  }

  /** A URL without a `.` never matches the hash pattern, so a document path is not hashed. */
  lemma UndottedNotHashed(u: string)
    requires '.' !in u
    ensures !IsHashed(u)
    ensures CacheMaxAgeForUrl(u) == DEFAULT_MAX_AGE
  {
    forall i: nat, n: nat | i < |u| && 8 <= n <= 32
      ensures !HashedAt(u, i, n)
    {
      assert u[i] in u;
    }
  }

  /**
   * The hash is taken between two dots: hex runs outside 8 to 32 characters,
   * or with any other character in them, do not match on their own.
   */
  lemma HashNeedsHexRun(p: string, h: string, q: string)
    requires '.' !in p && '.' !in q && '.' !in h
    requires |h| < 8 || |h| > 32 || exists k :: 0 <= k < |h| && !IsHexLower(h[k])
    ensures !IsHashed(p + "." + h + "." + q)
  {
    var u := p + "." + h + "." + q;
    forall i: nat, n: nat | i < |u| && 8 <= n <= 32
      ensures !HashedAt(u, i, n)
    {
      NotHashedAt(p, h, q, i, n);
    }
  }

  lemma NotHashedAt(p: string, h: string, q: string, i: nat, n: nat)
    requires '.' !in p && '.' !in q && '.' !in h && 8 <= n <= 32
    requires |h| < 8 || |h| > 32 || exists k :: 0 <= k < |h| && !IsHexLower(h[k])
    ensures !HashedAt(p + "." + h + "." + q, i, n)
  {
    var u := p + "." + h + "." + q;
    if i + n + 1 < |u| && u[i] == '.' && u[i + n + 1] == '.' {
      DotsOf(p, h, q, i);
      DotsOf(p, h, q, i + n + 1);
      if 8 <= |h| <= 32 {
        var k :| 0 <= k < |h| && !IsHexLower(h[k]);
        assert u[|p| + 1 + k] == h[k];
      }
    }
  }

  /** The only dots of `p.h.q`, when none of the parts holds one, are the two separators. */
  lemma DotsOf(p: string, h: string, q: string, i: nat)
    requires '.' !in p && '.' !in q && '.' !in h
    requires i < |p + "." + h + "." + q| && (p + "." + h + "." + q)[i] == '.'
    ensures i == |p| || i == |p| + |h| + 1
  {
  }

  /** `parseContentType`: the first value of a list, the string itself, or "". */
  function ParseContentType(value: Option<HeaderValue>): (r: string)
    ensures value.Some? && value.value.Text? ==> r == value.value.value
    ensures value.None? ==> r == ""
  {
    match value
    case None => ""
    case Some(Text(v)) => v
    case Some(Entries(vs)) => if vs == [] then "" else vs[0]
  }

  /**
   * A content type stored as a list is read as its first entry, the same as
   * when it is stored as that one string, and an empty list reads like a
   * missing header.
   */
  lemma ContentTypeOfList(v: string, rest: seq<string>)
    ensures ParseContentType(Some(Entries([v] + rest))) == ParseContentType(Some(Text(v))) == v
    ensures ParseContentType(Some(Entries([]))) == ParseContentType(None) == ""
  {
  }

  /** The headers `setContentResponseHeaders` considers, in order. */
  function ContentHeaderList(csp: bool, xFrame: bool, cspValue: string): seq<(string, string)>
  {
    [("Referrer-Policy", "strict-origin-when-cross-origin"),
     ("X-Content-Type-Options", "nosniff"),
     ("Strict-Transport-Security", "max-age=63072000")] +
    (if csp then [("Content-Security-Policy", cspValue)] else []) +
    (if xFrame then [("X-Frame-Options", "DENY")] else [])
  }

  /** The pairs whose name and value are both non-empty (`k && v`), in order. */
  function Truthy(list: seq<(string, string)>): seq<(string, string)>
  {
    if list == [] then []
    else
      var last := list[|list| - 1];
      Truthy(list[..|list| - 1]) + (if last.0 != "" && last.1 != "" then [last] else [])
  }

  /** `Truthy` keeps exactly the pairs with a non-empty name and value. */
  lemma {:induction false} TruthyMembers(list: seq<(string, string)>, p: (string, string))
    ensures p in Truthy(list) <==> p in list && p.0 != "" && p.1 != ""
  {
    if list != [] {
      var init := list[..|list| - 1];
      TruthyMembers(init, p);
      assert list == init + [list[|list| - 1]];
    }
  }

  /** Setting one more header on top of a list. */
  lemma AppliedSnoc(h: map<string, string>, list: seq<(string, string)>, p: (string, string))
    ensures Response.Applied(h, list + [p]) == Response.Applied(h, list)[Lower(p.0) := p.1]
  {
    assert (list + [p])[..|list|] == list;
  }

  /** `list.forEach(([k, v]) => k && v && setHeader(k, v))` */
  method SetTruthyHeaders(res: Response, list: seq<(string, string)>)
    modifies res
    ensures res.headers == Response.Applied(old(res.headers), Truthy(list))
    ensures res.statusCode == old(res.statusCode) && res.headersSent == old(res.headersSent)
  {
    var i := 0;
    while i < |list|
      invariant 0 <= i <= |list|
      invariant res.headers == Response.Applied(old(res.headers), Truthy(list[..i]))
      invariant res.statusCode == old(res.statusCode) && res.headersSent == old(res.headersSent)
    {
      var (k, v) := list[i];
      assert list[..i + 1][..i] == list[..i];
      assert Truthy(list[..i + 1]) == Truthy(list[..i]) + (if k != "" && v != "" then [(k, v)] else []);
      if k != "" && v != "" {
        AppliedSnoc(old(res.headers), Truthy(list[..i]), (k, v));
        res.SetHeader(k, v);
      } else {
        assert Truthy(list[..i + 1]) == Truthy(list[..i]);
      }
      i := i + 1;
    }
    assert list[..|list|] == list;
  }

  /** `setContentResponseHeaders((name, value) => res.setHeader(name, value), {csp, xFrame})` */
  method SetContentResponseHeaders(res: Response, csp: bool, xFrame: bool, cspValue: string)
    modifies res
    ensures res.headers == Response.Applied(old(res.headers), Truthy(ContentHeaderList(csp, xFrame, cspValue)))
    ensures res.statusCode == old(res.statusCode) && res.headersSent == old(res.headersSent)
  {
    SetTruthyHeaders(res, ContentHeaderList(csp, xFrame, cspValue));
  }

  /** `req.url ?? ""` */
  function UrlText(url: Option<string>): string
  {
    if url.Some? then url.value else ""
  }

  /** The `csp` option: an HTML response outside the live samples. */
  predicate CspWanted(contentType: Option<HeaderValue>, url: Option<string>)
  {
    !IsLiveSampleURL(UrlText(url)) && StartsWith(ParseContentType(contentType), "text/html")
  }

  /** The security headers of a response. */
  function SecurityHeaders(contentType: Option<HeaderValue>, url: Option<string>, cspValue: string): seq<(string, string)>
  {
    Truthy(ContentHeaderList(CspWanted(contentType, url), !IsLiveSampleURL(UrlText(url)), cspValue))
  }

  /** The per-file headers: robots for contributor lists, type and encoding for a sitemap. */
  function FileHeaders(statusCode: nat, url: Option<string>): seq<(string, string)>
  {
    (if url.Some? && EndsWith(url.value, "/contributors.txt") then [("X-Robots-Tag", "noindex, nofollow")] else []) +
    (if statusCode == 200 && url.Some? && EndsWith(url.value, "/sitemap.xml.gz")
     then [("Content-Type", "application/xml"), ("Content-Encoding", "gzip")] else [])
  }

  /** The Cache-Control header, when the policy gives a (truthy) value. */
  function CacheHeaders(wildcard: bool, proxyStatus: Option<int>, url: Option<string>): seq<(string, string)>
  {
    var cacheControl := GetCacheControl(wildcard, if proxyStatus.Some? then proxyStatus.value else 0, UrlText(url));
    if cacheControl.Some? && cacheControl.value != "" then [("Cache-Control", cacheControl.value)] else []
  }

  /** Every header `withContentResponseHeaders` sets, in order. */
  function ResponseHeaderList(
    statusCode: nat, proxyStatus: Option<int>, contentType: Option<HeaderValue>, url: Option<string>,
    wildcard: bool, cspValue: string): seq<(string, string)>
  {
    SecurityHeaders(contentType, url, cspValue) + FileHeaders(statusCode, url) + CacheHeaders(wildcard, proxyStatus, url)
  }

  /** The per-file part of `withContentResponseHeaders`. */
  method SetFileHeaders(res: Response, url: Option<string>)
    modifies res
    ensures res.headers == Response.Applied(old(res.headers), FileHeaders(old(res.statusCode), url))
    ensures res.statusCode == old(res.statusCode) && res.headersSent == old(res.headersSent)
  {
    ghost var list: seq<(string, string)> := [];
    if url.Some? && EndsWith(url.value, "/contributors.txt") {
      AppliedSnoc(old(res.headers), list, ("X-Robots-Tag", "noindex, nofollow"));
      res.SetHeader("X-Robots-Tag", "noindex, nofollow");
      list := list + [("X-Robots-Tag", "noindex, nofollow")];
    }
    if res.statusCode == 200 && url.Some? && EndsWith(url.value, "/sitemap.xml.gz") {
      AppliedSnoc(old(res.headers), list, ("Content-Type", "application/xml"));
      res.SetHeader("Content-Type", "application/xml");
      list := list + [("Content-Type", "application/xml")];
      AppliedSnoc(old(res.headers), list, ("Content-Encoding", "gzip"));
      res.SetHeader("Content-Encoding", "gzip");
      list := list + [("Content-Encoding", "gzip")];
    }
    assert list == FileHeaders(old(res.statusCode), url);
  }

  /** The Cache-Control part of `withContentResponseHeaders`. */
  method SetCacheHeader(res: Response, wildcard: bool, proxyStatus: Option<int>, url: Option<string>)
    modifies res
    ensures res.headers == Response.Applied(old(res.headers), CacheHeaders(wildcard, proxyStatus, url))
    ensures res.statusCode == old(res.statusCode) && res.headersSent == old(res.headersSent)
  {
    var cacheControl := GetCacheControl(wildcard, if proxyStatus.Some? then proxyStatus.value else 0, UrlText(url));
    if cacheControl.Some? && cacheControl.value != "" {
      AppliedSnoc(old(res.headers), [], ("Cache-Control", cacheControl.value));
      res.SetHeader("Cache-Control", cacheControl.value);
    }
  }

  /** `withContentResponseHeaders(proxyRes, req, res)` */
  method WithContentResponseHeaders(
    res: Response, proxyStatus: Option<int>, contentType: Option<HeaderValue>, url: Option<string>,
    wildcard: bool, cspValue: string)
    modifies res
    ensures old(res.headersSent) ==> res.headers == old(res.headers)
    ensures !old(res.headersSent) ==> res.headers == Response.Applied(old(res.headers),
      ResponseHeaderList(old(res.statusCode), proxyStatus, contentType, url, wildcard, cspValue))
    ensures res.statusCode == old(res.statusCode) && res.headersSent == old(res.headersSent)
  {
    if res.headersSent {
      return;
    }
    var u := UrlText(url);
    var isLiveSample := IsLiveSampleURL(u);
    SetContentResponseHeaders(res, !isLiveSample && StartsWith(ParseContentType(contentType), "text/html"), !isLiveSample, cspValue);
    SetFileHeaders(res, url);
    SetCacheHeader(res, wildcard, proxyStatus, url);
    ghost var a := SecurityHeaders(contentType, url, cspValue);
    ghost var b := FileHeaders(old(res.statusCode), url);
    ghost var c := CacheHeaders(wildcard, proxyStatus, url);
    Response.AppliedConcat(old(res.headers), a, b);
    Response.AppliedConcat(old(res.headers), a + b, c);
  }

  /** The three transport-security headers are always set. */
  lemma SecurityHeadersAlwaysSet(contentType: Option<HeaderValue>, url: Option<string>, cspValue: string)
    ensures var list := SecurityHeaders(contentType, url, cspValue);
      ("Referrer-Policy", "strict-origin-when-cross-origin") in list &&
      ("X-Content-Type-Options", "nosniff") in list &&
      ("Strict-Transport-Security", "max-age=63072000") in list
  {
    var base := ContentHeaderList(CspWanted(contentType, url), !IsLiveSampleURL(UrlText(url)), cspValue);
    TruthyMembers(base, base[0]);
    TruthyMembers(base, base[1]);
    TruthyMembers(base, base[2]);
  }

  /**
   * A live sample may be framed and carries no CSP; a CSP is set only on an
   * HTML response outside the live samples, and only when the policy text is
   * non-empty.
   */
  lemma FramingHeaders(contentType: Option<HeaderValue>, url: Option<string>, cspValue: string)
    ensures var list := SecurityHeaders(contentType, url, cspValue);
      (IsLiveSampleURL(UrlText(url)) ==>
        forall p :: p in list ==> p.0 != "Content-Security-Policy" && p.0 != "X-Frame-Options") &&
      (!IsLiveSampleURL(UrlText(url)) ==> ("X-Frame-Options", "DENY") in list) &&
      (("Content-Security-Policy", cspValue) in list <==> CspWanted(contentType, url) && cspValue != "")
  {
    var live := IsLiveSampleURL(UrlText(url));
    var base := ContentHeaderList(CspWanted(contentType, url), !live, cspValue);
    var list := SecurityHeaders(contentType, url, cspValue);
    forall p | p in list ensures live ==> p.0 != "Content-Security-Policy" && p.0 != "X-Frame-Options" {
      TruthyMembers(base, p);
    }
    TruthyMembers(base, ("X-Frame-Options", "DENY"));
    TruthyMembers(base, ("Content-Security-Policy", cspValue));
    if !live {
      assert base[|base| - 1] == ("X-Frame-Options", "DENY");
    }
  }

  /** The Cache-Control header set is exactly the policy's value, when it has one. */
  lemma CacheHeaderFollowsPolicy(wildcard: bool, proxyStatus: Option<int>, url: Option<string>, v: string)
    ensures ("Cache-Control", v) in CacheHeaders(wildcard, proxyStatus, url) <==>
      GetCacheControl(wildcard, if proxyStatus.Some? then proxyStatus.value else 0, UrlText(url)) == Some(v) && v != ""
  {
  }
}
