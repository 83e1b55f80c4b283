/**
 * Shared helpers of the gateway: the redirect answer with its Cache-Control
 * and Location values, path normalisation, and the asset and live-sample
 * tests on URLs.
 */
module Utils {
  import opened Wrappers
  import opened Strings
  import opened Constants
  import opened Http

  /** The country of the viewer, from the CDN's header when it names one. */
  function RequestCountry(t: Tables, req: Request): (r: string)
    ensures r == t.defaultCountry ||
            ("cloudfront-viewer-country" in req.headers && req.headers["cloudfront-viewer-country"] == Text(r))
    ensures r == "ZZ" ==> t.defaultCountry == "ZZ"
  {
    var h := "cloudfront-viewer-country";
    if h in req.headers && req.headers[h].Text? && req.headers[h].value != "ZZ" then req.headers[h].value
    else t.defaultCountry
  }

  /** The country header, when it holds any string other than "ZZ", is taken verbatim. */
  lemma RequestCountryFromHeader(t: Tables, req: Request, v: string)
    requires "cloudfront-viewer-country" in req.headers
    requires req.headers["cloudfront-viewer-country"] == Text(v) && v != "ZZ"
    ensures RequestCountry(t, req) == v
  {
  }

  /** The Cache-Control value of a redirect cached for `seconds` (0: not cached). */
  function CacheControlValue(seconds: nat): (r: string)
    ensures r == "no-store" <==> seconds == 0
    ensures seconds != 0 ==> r == "max-age=" + NatToString(seconds) + ",public"
  {
    if seconds != 0 then "max-age=" + NatToString(seconds) + ",public" else "no-store"
  }

  /** The Cache-Control value of a redirect determines the duration it was given. */
  lemma CacheControlDeterminesDuration(a: nat, b: nat)
    ensures CacheControlValue(a) == CacheControlValue(b) <==> a == b
  {
    var va, vb := CacheControlValue(a), CacheControlValue(b);
    if a != 0 && b != 0 {
      assert va[8..|va| - 7] == NatToString(a);
      assert vb[8..|vb| - 7] == NatToString(b);
      if va == vb {
        NatToStringInjective(a, b);
      }
    } else if a != 0 || b != 0 {
      assert va[0] != vb[0];
    }
  }

  /** The redirect helper's decision: where to, with which status and cache policy. */
  function RedirectTo(location: string, status: nat, seconds: nat): (r: Outcome)
    ensures r.Redirect? && r.location == location && r.status == status
    ensures r.cacheControl == CacheControlValue(seconds)
  {
    Redirect(location, status, CacheControlValue(seconds))
  }

  /** A redirect with the helper's defaults: status 302, not cached. */
  function RedirectDefault(location: string): (r: Outcome)
    ensures r == Redirect(location, 302, "no-store")
  {
    RedirectTo(location, DEFAULT_REDIRECT_STATUS, 0)
  }

  /**
   * A redirect is the helper's default one exactly when it uses status 302
   * and no cache duration; any duration makes it publicly cacheable.
   */
  lemma RedirectDecision(location: string, status: nat, seconds: nat)
    ensures RedirectTo(location, status, seconds) == RedirectDefault(location) <==> status == 302 && seconds == 0
    ensures seconds != 0 ==> EndsWith(RedirectTo(location, status, seconds).cacheControl, ",public")
  {
    CacheControlDeterminesDuration(seconds, 0);
    if seconds != 0 {
      var v := RedirectTo(location, status, seconds).cacheControl;
      assert v[|v| - 7..] == ",public";
    }
  }

  /**
   * The Location header value: the part before the first `?` is passed
   * through `encodeURI`, and the query text after it is appended unencoded,
   * with its `?`, when it is non-empty.
   */
  function LocationHeader(encodeURI: string -> string, location: string): (r: string)
  {
    var i := IndexOf(location, '?');
    if i < 0 then encodeURI(location)
    else
      var query := location[i + 1..];
      encodeURI(location[..i]) + (if query != "" then "?" + query else "")
  }

  /** The query text of the location is kept verbatim, whatever it contains. */
  lemma LocationKeepsQuery(encodeURI: string -> string, path: string, query: string)
    requires '?' !in path
    ensures LocationHeader(encodeURI, path) == encodeURI(path)
    ensures LocationHeader(encodeURI, path + "?" + query) ==
            encodeURI(path) + (if query != "" then "?" + query else "")
  {
    var s := path + "?" + query;
    assert s[..|path|] == path;
    IndexOfAt(s, '?', |path|);
    assert s[|path| + 1..] == query;
  }

  /**
   * The Location header as the helper computes it: `split("?", 2)` keeps
   * only the text between the first and the second `?` as the query.
   */
  function LocationHeaderAsWritten(encodeURI: string -> string, location: string): (r: string)
    ensures '?' !in location ==> r == encodeURI(location)
  {
    var i := IndexOf(location, '?');
    if i < 0 then encodeURI(location)
    else
      var rest := location[i + 1..];
      var j := IndexOf(rest, '?');
      var query := if j < 0 then rest else rest[..j];
      encodeURI(location[..i]) + (if query != "" then "?" + query else "")
  }

  /**
   * A query that itself holds a `?` loses its tail in the as-written header,
   * e.g. `/en-US/search?q=why?` is sent as `/en-US/search?q=why`.
   */
  lemma LocationAsWrittenDropsQueryTail(encodeURI: string -> string, path: string, q1: string, q2: string)
    requires '?' !in path && '?' !in q1 && q1 != ""
    ensures LocationHeaderAsWritten(encodeURI, path + "?" + q1 + "?" + q2) == encodeURI(path) + "?" + q1
    ensures LocationHeader(encodeURI, path + "?" + q1 + "?" + q2) == encodeURI(path) + "?" + q1 + "?" + q2
  {
    AsWrittenTail(encodeURI, path, q1, q2);
    CorrectedTail(encodeURI, path, q1, q2);
  }

  lemma AsWrittenTail(encodeURI: string -> string, path: string, q1: string, q2: string)
    requires '?' !in path && '?' !in q1 && q1 != ""
    ensures LocationHeaderAsWritten(encodeURI, path + "?" + q1 + "?" + q2) == encodeURI(path) + "?" + q1
  {
    assert path + "?" + q1 + "?" + q2 == path + "?" + (q1 + "?" + q2);
    AsWrittenSplit(encodeURI, path, q1 + "?" + q2);
    FirstQueryPart(q1, q2);
  }

  lemma CorrectedTail(encodeURI: string -> string, path: string, q1: string, q2: string)
    requires '?' !in path
    ensures LocationHeader(encodeURI, path + "?" + q1 + "?" + q2) == encodeURI(path) + "?" + q1 + "?" + q2
  {
    var rest := q1 + "?" + q2;
    assert path + "?" + q1 + "?" + q2 == path + "?" + rest;
    LocationKeepsQuery(encodeURI, path, rest);
    assert encodeURI(path) + "?" + rest == encodeURI(path) + "?" + q1 + "?" + q2;
  }

  lemma FirstQueryPart(q1: string, q2: string)
    requires '?' !in q1
    ensures IndexOf(q1 + "?" + q2, '?') == |q1|
    ensures (q1 + "?" + q2)[..|q1|] == q1
  {
    var rest := q1 + "?" + q2;
    assert rest[..|q1|] == q1;
    IndexOfAt(rest, '?', |q1|);
  }

  lemma AsWrittenSplit(encodeURI: string -> string, path: string, rest: string)
    requires '?' !in path
    ensures LocationHeaderAsWritten(encodeURI, path + "?" + rest) ==
            var j := IndexOf(rest, '?');
            var query := if j < 0 then rest else rest[..j];
            encodeURI(path) + (if query != "" then "?" + query else "")
  {
    var s := path + "?" + rest;
    assert s[..|path|] == path;
    IndexOfAt(s, '?', |path|);
    assert s[|path| + 1..] == rest;
  }

  /**
   * Writes a redirect decision to the response, as `res.set(...).redirect(...)`
   * does: Cache-Control, the status and Location are set and the response is
   * ended.
   */
  method SendRedirect(res: Response, o: Outcome, encodeURI: string -> string)
    requires o.Redirect?
    modifies res
    ensures res.statusCode == o.status
    ensures res.headers == old(res.headers)["cache-control" := o.cacheControl]["location" := LocationHeader(encodeURI, o.location)]
    ensures res.headersSent
  {
    LowerNoUpper("cache-control");
    LowerNoUpper("location");
    res.SetHeader("cache-control", o.cacheControl);
    res.SetHeader("location", LocationHeader(encodeURI, o.location));
    res.SetStatus(o.status);
    res.End();
  }

  /** The URL names a live sample. */
  predicate IsLiveSampleURL(url: string)
  {
    Contains(url, "/_sample_.")
  }

  /** Whether the URL ends, case-insensitively, in `.` and one of the extensions. */
  predicate HasExtension(exts: seq<string>, url: string)
  {
    exists i :: 0 <= i < |exts| && EndsWith(Lower(url), "." + Lower(exts[i]))
  }

  /** The URL names an asset: an attachment or a text file. */
  predicate IsAsset(t: Tables, url: string)
  {
    HasExtension(t.attachmentExt + TEXT_EXT, url)
  }

  /** The extension test on the cases the extension-pattern suite checks. */
  lemma ExtensionAccepted()
    ensures HasExtension(["foo"], "test.foo")
  {
    ExtensionMatch("test.foo");
  }

  lemma ExtensionAcceptedUpperCase()
    ensures HasExtension(["foo"], "test.FOO")
  {
    var l := Lower("test.FOO");
    assert l[4..] == ".foo";
    ExtensionMatch("test.FOO");
  }

  lemma ExtensionRejected()
    ensures !HasExtension(["foo"], "test.foo.bar")
    ensures !HasExtension(["foo"], "test.bar")
    ensures !HasExtension(["foo"], "test.foob")
    ensures !HasExtension(["foo"], "test.afoo")
  {
    ExtensionMismatch("test.foo.bar");
    ExtensionMismatch("test.bar");
    ExtensionMismatch("test.foob");
    ExtensionMismatch("test.afoo");
  }

  /** A URL ending in `.` and a listed extension, in any letter case, has that extension. */
  lemma ExtensionAcceptedAnyCase(exts: seq<string>, i: nat, v: string, x: string)
    requires i < |exts| && Lower(x) == Lower(exts[i])
    ensures HasExtension(exts, v + "." + x)
  {
    LowerConcat(v, "." + x);
    LowerConcat(".", x);
    assert Lower(v + "." + x) == Lower(v) + ("." + Lower(exts[i]));
  }

  /**
   * A URL whose last `.`-separated part is no listed extension in any letter
   * case does not have an extension, when no extension holds a `.` itself.
   */
  lemma ExtensionRejectedUnlessListed(exts: seq<string>, v: string, s: string)
    requires '.' !in s
    requires forall i :: 0 <= i < |exts| ==> '.' !in exts[i] && Lower(exts[i]) != Lower(s)
    ensures !HasExtension(exts, v + "." + s)
  {
    forall i | 0 <= i < |exts|
      ensures !EndsWith(Lower(v + "." + s), "." + Lower(exts[i]))
    {
      NotFinalPart(v, s, exts[i]);
    }
  }

  lemma NotFinalPart(v: string, s: string, e: string)
    requires '.' !in s && '.' !in e && Lower(e) != Lower(s)
    ensures !EndsWith(Lower(v + "." + s), "." + Lower(e))
  {
    var ls, le := Lower(s), Lower(e);
    LowerKeepsAbsent(s, '.');
    LowerKeepsAbsent(e, '.');
    LowerConcat(v, "." + s);
    LowerConcat(".", s);
    var l := Lower(v + "." + s);
    assert l == Lower(v) + "." + ls;
    var d := "." + le;
    if |le| < |ls| {
      assert l[|l| - |d|] == ls[|ls| - |le| - 1];
      assert ls[|ls| - |le| - 1] in ls;
      assert d[0] == '.';
    } else if |le| == |ls| {
      assert l[|l| - |d|..] == "." + ls;
      assert ("." + ls)[1..] == ls && d[1..] == le;
    } else if |d| <= |l| {
      var j := |le| - |ls|;
      assert l[|l| - |d| + j] == '.';
      assert d[j] == le[j - 1];
      assert le[j - 1] in le;
    }
  }

  lemma ExtensionMatch(url: string)
    requires |url| >= 4 && Lower(url)[|url| - 4..] == ".foo"
    ensures HasExtension(["foo"], url)
  {
    LowerNoUpper("foo");
    assert EndsWith(Lower(url), "." + Lower(["foo"][0]));
  }

  lemma ExtensionMismatch(url: string)
    requires forall i :: 0 <= i < |url| ==> !('A' <= url[i] <= 'Z')
    requires |url| >= 4 && url[|url| - 4..] != ".foo"
    ensures !HasExtension(["foo"], url)
  {
    LowerNoUpper("foo");
    LowerNoUpper(url);
  }

  /** path.toLowerCase() with one trailing `/` removed. */
  function NormalizePath(path: string): (r: string)
    ensures Lower(r) == r
    ensures EndsWith(Lower(path), "/") ==> r + "/" == Lower(path)
    ensures !EndsWith(Lower(path), "/") ==> r == Lower(path)
  {
    var l := Lower(path);
    LowerIdempotent(path);
    if EndsWith(l, "/") then
      assert l == l[..|l| - 1] + "/";
      l[..|l| - 1]
    else l
  }

  /** Normalising twice is normalising once, unless the path ends in "//". */
  lemma NormalizePathStable(path: string)
    requires !EndsWith(path, "//")
    ensures NormalizePath(NormalizePath(path)) == NormalizePath(path)
  {
    var l := Lower(path);
    var r := NormalizePath(path);
    LowerIdempotent(path);
    if EndsWith(l, "/") && |l| >= 2 {
      assert l[|l| - 2..] != "//" by {
        assert path[|path| - 2..] != "//";
        assert l[|l| - 2] == LowerChar(path[|path| - 2]);
        assert path[|path| - 2..][0] == path[|path| - 2];
      }
      assert r[|r| - 1] == l[|l| - 2];
    }
  }
}
