/**
 * The proxy for content assets (attachments, media, fonts). It routes like
 * the content proxy; on an upstream 404 for an asset under an active locale
 * other than `en-US` it retries the same asset under `en-us`, and in
 * wildcard mode a failed retry sends the reader to the production site.
 */
module ProxyContentAssets {
  import opened Wrappers
  import opened Strings
  import opened Constants
  import opened Http
  import opened Headers
  import opened ProxyContent

  const PRODUCTION_ORIGIN := "https://developer.mozilla.org"

  /** `const [, locale] = req.url?.split("/") || []`; `None` stands for `undefined`. */
  function LocaleOfUrl(url: Option<string>): (r: Option<string>)
    ensures r.Some? ==> '/' !in r.value
  {
    if url.None? then None
    else
      var parts := Split(url.value, '/');
      if |parts| > 1 then Some(parts[1]) else None
  }

  /** The condition for a retry: a 404 under an active locale spelled other than `en-US`. */
  predicate RetriesUnderEnUs(t: Tables, statusCode: Option<int>, locale: Option<string>)
  {
    statusCode == Some(404) && locale.Some? && locale.value != "" && locale.value != "en-US" &&
    Lower(locale.value) in t.activeLocales
  }

  /** `${target}${req.url?.slice(1).replace(locale, "en-us")}` */
  function EnUsAssetUrl(reqTarget: string, url: string, locale: string): string
  {
    reqTarget + ReplaceFirst(if url == "" then "" else url[1..], locale, "en-us")
  }

  /**
   * A character WHATWG URL parsing keeps as it is in a path: letters,
   * digits and the sub-delimiters. It removes or rewrites the rest: `\` is
   * read as `/`, `?` and `#` end the path, and spaces, quotes, `<`, `>`,
   * `^`, backquotes, braces, controls and non-ASCII text are percent-encoded.
   */
  predicate PathChar(c: char)
  {
    'a' <= c <= 'z' || 'A' <= c <= 'Z' || '0' <= c <= '9' || c in "-._~!$&'()*+,;=:@/%"
  }

  /**
   * A path that URL resolution against the production origin leaves as it
   * is: it starts with one `/`, has only path characters, and no segment
   * starts with `.` or `%`, so none is a `.` or `..` segment, plain or
   * written with `%2e`.
   */
  predicate PlainPath(u: string)
  {
    StartsWith(u, "/") && !StartsWith(u, "//") &&
    (forall i :: 0 <= i < |u| ==> PathChar(u[i])) &&
    (forall i :: 0 <= i < |u| - 1 && u[i] == '/' ==> u[i + 1] != '.' && u[i + 1] != '%')
  }

  /**
   * `new URL(req.url ?? "", "https://developer.mozilla.org/").toString()`:
   * a plain path is appended to the origin; any other input (dot segments,
   * backslashes, characters to encode, a scheme or a host) goes through
   * the URL resolution `resolve`.
   */
  function ProductionUrl(url: Option<string>, resolve: string -> string): (r: string)
    ensures url.Some? && PlainPath(url.value) ==> r == PRODUCTION_ORIGIN + url.value
    ensures url.None? ==> r == resolve("")
  {
    var u := if url.Some? then url.value else "";
    if PlainPath(u) then PRODUCTION_ORIGIN + u else resolve(u)
  }

  /**
   * A segment that starts with `.` or `%`, and a character the parser
   * rewrites, send the URL through resolution instead of prefixing it.
   */
  lemma ResolvedUnlessPlain(p: string, c: char, q: string, resolve: string -> string)
    ensures c == '.' || c == '%' ==>
      ProductionUrl(Some(p + ['/', c] + q), resolve) == resolve(p + ['/', c] + q)
    ensures !PathChar(c) ==> ProductionUrl(Some(p + [c] + q), resolve) == resolve(p + [c] + q)
  {
    var u := p + ['/', c] + q;
    assert u[|p|] == '/' && u[|p| + 1] == c;
    var v := p + [c] + q;
    assert v[|p|] == c;
  }

  /** An ordinary asset path is sent to the origin as it is. */
  lemma AssetPathPrefixed(resolve: string -> string)
    ensures ProductionUrl(Some("/fr/docs/Web/x.png"), resolve) == PRODUCTION_ORIGIN + "/fr/docs/Web/x.png"
  {
    var u := "/fr/docs/Web/x.png";
    assert u[..1] == "/";
    assert u[1] != "//"[1];
    forall i | 0 <= i < |u|
      ensures PathChar(u[i]) && (u[i] == '/' ==> i == 0 || i == 3 || i == 8 || i == 12)
    {
    }
    assert PlainPath(u);
  }

  /** `/fr/docs/Web/../../../x.png` is resolved, not sent to the origin as written. */
  lemma DotDotAssetResolved(resolve: string -> string)
    ensures ProductionUrl(Some("/fr/docs/Web/../../../x.png"), resolve) == resolve("/fr/docs/Web/../../../x.png")
  {
    ResolvedUnlessPlain("/fr/docs/Web", '.', "./../../x.png", resolve);
    assert "/fr/docs/Web" + ['/', '.'] + "./../../x.png" == "/fr/docs/Web/../../../x.png";
  }

  /**
   * The response interceptor. It sets the content headers; on a retry that
   * succeeds it copies the retry's status and headers and answers its body;
   * on a failed retry in wildcard mode it answers 303 to production with an
   * empty body; otherwise the upstream body passes through.
   */
  method InterceptAsset(
    res: Response, t: Tables, wildcard: bool, cspValue: string, reqTarget: string, url: Option<string>,
    upstream: Upstream, responseBuffer: string, fetch: string -> Fetched, resolve: string -> string)
    returns (body: string, fetched: seq<string>)
    requires !res.headersSent
    modifies res
    ensures var h := Response.Applied(old(res.headers), ResponseHeaderList(
        old(res.statusCode), upstream.statusCode, upstream.contentType, url, wildcard, cspValue));
      var locale := LocaleOfUrl(url);
      if !RetriesUnderEnUs(t, upstream.statusCode, locale) then
        body == responseBuffer && fetched == [] && res.headers == h && res.statusCode == old(res.statusCode)
      else
        var retry := EnUsAssetUrl(reqTarget, url.value, locale.value);
        var r := fetch(retry);
        fetched == [retry] &&
        if r.Ok() then
          body == r.body && res.statusCode == r.status && res.headers == Response.Applied(h, r.headers)
        else if wildcard then
          body == "" && res.statusCode == 303 && res.headers == h["location" := ProductionUrl(url, resolve)]
        else
          body == responseBuffer && res.headers == h && res.statusCode == old(res.statusCode)
  {
    WithContentResponseHeaders(res, upstream.statusCode, upstream.contentType, url, wildcard, cspValue);
    fetched := [];
    var locale := LocaleOfUrl(url);
    if upstream.statusCode == Some(404) && locale.Some? && locale.value != "" && locale.value != "en-US" &&
      Lower(locale.value) in t.activeLocales
    {
      var retry := EnUsAssetUrl(reqTarget, url.value, locale.value);
      var enUsAsset := fetch(retry);
      fetched := [retry];
      if enUsAsset.Ok() {
        res.SetStatus(enUsAsset.status);
        res.SetHeaders(enUsAsset.headers);
        return enUsAsset.body, fetched;
      } else if wildcard {
        res.SetStatus(303);
        LocationName();
        res.SetHeader("location", ProductionUrl(url, resolve));
        return "", fetched;
      }
    }
    body := responseBuffer;
  }

  lemma LocationName()
    ensures Lower("location") == "location"
  {
  }

  /** The locale of `/{l}/{rest}` is `l`. */
  lemma LocaleOfLocalePath(l: string, rest: string)
    requires '/' !in l
    ensures LocaleOfUrl(Some("/" + l + "/" + rest)) == Some(l)
  {
    SplitFirst("", '/', l + "/" + rest);
    assert "/" + l + "/" + rest == "" + ['/'] + (l + "/" + rest);
    assert l + "/" + rest == l + ['/'] + rest;
    SplitFirst(l, '/', rest);
  }

  /** The retry for `/{l}/{rest}` fetches `en-us/{rest}` from the same bucket. */
  lemma RetryReplacesLocaleSegment(reqTarget: string, l: string, rest: string)
    ensures EnUsAssetUrl(reqTarget, "/" + l + "/" + rest, l) == reqTarget + "en-us/" + rest
  {
    var u := "/" + l + "/" + rest;
    assert u[1..] == l + "/" + rest;
    assert StartsWith(l + "/" + rest, l);
    assert (l + "/" + rest)[|l|..] == "/" + rest;
  }

  /**
   * The check against `en-US` is case-sensitive: an asset under `/en-us/`
   * that is missing is fetched again at the very same URL.
   */
  lemma LowerCaseEnUsRetriesSameUrl(t: Tables, reqTarget: string, rest: string)
    requires "en-us" in t.activeLocales
    ensures RetriesUnderEnUs(t, Some(404), LocaleOfUrl(Some("/en-us/" + rest)))
    ensures EnUsAssetUrl(reqTarget, "/en-us/" + rest, "en-us") == reqTarget + "en-us/" + rest
  {
    LocaleOfLocalePath("en-us", rest);
    assert "/" + "en-us" + "/" + rest == "/en-us/" + rest;
    RetryReplacesLocaleSegment(reqTarget, "en-us", rest);
    assert Lower("en-us") == "en-us";
  }

  /** No retry for `en-US` itself, for locales that are not built, or for responses other than 404. */
  lemma NoRetryCases(t: Tables, statusCode: Option<int>, l: string)
    ensures !RetriesUnderEnUs(t, statusCode, Some("en-US"))
    ensures Lower(l) !in t.activeLocales ==> !RetriesUnderEnUs(t, statusCode, Some(l))
    ensures statusCode != Some(404) ==> !RetriesUnderEnUs(t, statusCode, Some(l))
    ensures !RetriesUnderEnUs(t, statusCode, None)
  {
  }
}
