/**
 * The content proxy: it picks the upstream bucket for a request (a
 * per-subdomain folder in wildcard mode), and on an upstream 404 it first
 * tries the path as a folder with `index.html`, then answers with the 404
 * page of the request's locale, kept in a per-locale cache.
 *
 * The proxying itself (http-proxy-middleware) is left out; `fetch` is the
 * parameter `fetch`, a function from URL to the upstream's answer, and the
 * ghost field `fetched` records the URLs fetched, in order.
 */
module ProxyContent {
  import opened Wrappers
  import opened Strings
  import opened Http
  import opened Utils
  import opened Env
  import opened Headers

  /** An upstream answer: its status, headers and body. */
  datatype Fetched = Fetched(status: int, headers: seq<(string, string)>, body: string)
  {
    /** `response.ok` */
    predicate Ok()
    {
      200 <= status < 300
    }
  }

  /** What the interceptor reads of the proxied response. */
  datatype Upstream = Upstream(statusCode: Option<int>, contentType: Option<HeaderValue>)

  /** `router`: the bucket for a request, given the default bucket and its Host header. */
  function ProxyTarget(defaultTarget: string, wildcard: bool, host: Option<HeaderValue>): (r: string)
  {
    if wildcard && host.Some? && host.value.Text? then
      defaultTarget + Split(host.value.value, '.')[0] + "/"
    else defaultTarget
  }

  /** The Host header of a request, if any. */
  function HostHeader(headers: map<string, HeaderValue>): Option<HeaderValue>
  {
    if "host" in headers then Some(headers["host"]) else None
  }

  /** `router(req)`: the target is also written to the `target` request header. */
  method RouteRequest(ctx: RequestContext, defaultTarget: string, wildcard: bool) returns (target: string)
    modifies ctx
    ensures target == ProxyTarget(defaultTarget, wildcard, HostHeader(old(ctx.headers)))
    ensures ctx.Value() == old(ctx.Value()).(headers := old(ctx.headers)["target" := Text(target)])
  {
    target := defaultTarget;
    if wildcard && "host" in ctx.headers && ctx.headers["host"].Text? {
      var subdomain := Split(ctx.headers["host"].value, '.')[0];
      target := defaultTarget + subdomain + "/";
    }
    ctx.headers := ctx.headers["target" := Text(target)];
  }

  /** In wildcard mode a string Host header selects the folder named by its first label. */
  lemma SubdomainSelectsFolder(defaultTarget: string, sub: string, domain: string)
    requires '.' !in sub
    ensures ProxyTarget(defaultTarget, true, Some(Text(sub + "." + domain))) == defaultTarget + sub + "/"
    ensures ProxyTarget(defaultTarget, false, Some(Text(sub + "." + domain))) == defaultTarget
  {
    assert sub + "." + domain == sub + ['.'] + domain;
    SplitFirst(sub, '.', domain);
  }

  /** The text after the leading `/`s of a string. */
  function DropSlashes(s: string): (r: string)
    ensures r == "" || r[0] != '/'
    ensures |r| <= |s| && r == s[|s| - |r|..]
    ensures forall i :: 0 <= i < |s| - |r| ==> s[i] == '/'
  {
    if s != [] && s[0] == '/' then DropSlashes(s[1..]) else s
  }

  /** The longest prefix without `/`. */
  function TakeRun(s: string): (r: string)
    ensures '/' !in r
    ensures |r| <= |s| && r == s[..|r|]
    ensures |r| == |s| || s[|r|] == '/'
  {
    if s == [] || s[0] == '/' then [] else [s[0]] + TakeRun(s[1..])
  }

  /** `url.match(/[^/]+/)?.[0]`: the first run of characters other than `/`. */
  function FirstRun(s: string): (r: Option<string>)
    ensures r.Some? ==> r.value != "" && '/' !in r.value
    ensures r.None? <==> forall i :: 0 <= i < |s| ==> s[i] == '/'
  {
    var t := DropSlashes(s);
    if t == "" then None else Some(TakeRun(t))
  }

  /** The run found in `/{locale}/...` is the locale. */
  lemma FirstRunOfPath(l: string, rest: string)
    requires l != "" && '/' !in l
    ensures FirstRun("/" + l + "/" + rest) == Some(l)
  {
    var s := "/" + l + "/" + rest;
    assert s[1..] == l + "/" + rest;
    assert DropSlashes(s) == l + "/" + rest;
    var u := l + "/" + rest;
    var t := TakeRun(u);
    assert forall k :: 0 <= k < |l| ==> u[k] == l[k] && u[k] != '/';
    assert u[|l|] == '/';
    assert |t| == |l|;
    assert u[..|l|] == l;
  }

  /** The locale whose 404 page is served: the first run of the URL, or `en-us`. */
  function NotFoundLocale(url: Option<string>): (r: string)
    ensures r != ""
  {
    if url.Some? && FirstRun(url.value).Some? then FirstRun(url.value).value else "en-us"
  }

  /** The URL of a locale's 404 page under a bucket. */
  function NotFoundUrl(target: string, locale: string): string
  {
    target + locale + "/404/index.html"
  }

  /** What a `get404ForLocale` call answers, the cache it leaves and the URLs it fetches. */
  datatype NotFoundResult = NotFoundResult(body: string, cache: map<string, string>, fetched: seq<string>)

  /**
   * `get404ForLocale(locale)`: a cached page is answered from the cache;
   * otherwise the page is fetched; outside wildcard mode a successful page
   * is cached and a failure falls back once to `en-us`, then to "not found".
   */
  function NotFound(
    cache: map<string, string>, locale: string, target: string, wildcard: bool, fetch: string -> Fetched): NotFoundResult
    decreases if locale == "en-us" then 0 else 1
  {
    if locale in cache then NotFoundResult(cache[locale], cache, [])
    else
      var url := NotFoundUrl(target, locale);
      var response := fetch(url);
      if wildcard then NotFoundResult(response.body, cache, [url])
      else if response.Ok() then NotFoundResult(response.body, cache[locale := response.body], [url])
      else if locale == "en-us" then NotFoundResult("not found", cache, [url])
      else
        var r := NotFound(cache, "en-us", target, wildcard, fetch);
        NotFoundResult(r.body, r.cache, [url] + r.fetched)
  }

  /** At most two fetches, none for a cached locale, and the answer of a cached locale is its entry. */
  lemma NotFoundFetchesAtMostTwice(
    cache: map<string, string>, locale: string, target: string, wildcard: bool, fetch: string -> Fetched)
    ensures |NotFound(cache, locale, target, wildcard, fetch).fetched| <= 2
    ensures locale in cache ==> NotFound(cache, locale, target, wildcard, fetch) == NotFoundResult(cache[locale], cache, [])
    ensures forall u :: u in NotFound(cache, locale, target, wildcard, fetch).fetched ==>
      u == NotFoundUrl(target, locale) || u == NotFoundUrl(target, "en-us")
  {
  }

  /** A locale that is not in the cache is always fetched first. */
  lemma UncachedLocaleIsFetched(
    cache: map<string, string>, locale: string, target: string, wildcard: bool, fetch: string -> Fetched)
    requires locale !in cache
    ensures var f := NotFound(cache, locale, target, wildcard, fetch).fetched;
      |f| >= 1 && f[0] == NotFoundUrl(target, locale)
  {
  }

  /**
   * The names every plain JavaScript object inherits from
   * `Object.prototype`; reading one of them from the cache object gives a
   * truthy value although the cache never stored it.
   */
  const INHERITED_NAMES: set<string> := {
    "constructor", "__proto__", "hasOwnProperty", "isPrototypeOf", "propertyIsEnumerable",
    "toString", "toLocaleString", "valueOf",
    "__defineGetter__", "__defineSetter__", "__lookupGetter__", "__lookupSetter__"}

  /** `if (notFoundBufferCache[locale])` on a plain object, as written. */
  predicate CachedAsWritten(cache: map<string, string>, locale: string)
  {
    locale in cache || locale in INHERITED_NAMES
  }

  /**
   * `get404ForLocale(locale)` as written, with the cache a plain object:
   * `None` is the call that throws. For an inherited name the lookup is
   * truthy although nothing is stored, so nothing is fetched, and
   * `Buffer.from` is handed the inherited value (a function, or
   * `Object.prototype` for `__proto__`), which it rejects.
   */
  function NotFoundAsWritten(
    cache: map<string, string>, locale: string, target: string, wildcard: bool, fetch: string -> Fetched): (r: Option<NotFoundResult>)
    ensures r.None? <==> locale in INHERITED_NAMES && locale !in cache
    ensures r.Some? ==> |r.value.fetched| <= 2
    decreases if locale == "en-us" then 0 else 1
  {
    if CachedAsWritten(cache, locale) then
      if locale in cache then Some(NotFoundResult(cache[locale], cache, [])) else None
    else
      var url := NotFoundUrl(target, locale);
      var response := fetch(url);
      if wildcard then Some(NotFoundResult(response.body, cache, [url]))
      else if response.Ok() then Some(NotFoundResult(response.body, cache[locale := response.body], [url]))
      else if locale == "en-us" then Some(NotFoundResult("not found", cache, [url]))
      else
        var r := NotFoundAsWritten(cache, "en-us", target, wildcard, fetch);
        if r.None? then None else Some(NotFoundResult(r.value.body, r.value.cache, [url] + r.value.fetched))
  }

  /**
   * For every locale that is not an inherited name, the code as written and
   * the own-key lookup give the same answer, cache and fetches.
   */
  lemma AsWrittenAgreesOffInheritedNames(
    cache: map<string, string>, locale: string, target: string, wildcard: bool, fetch: string -> Fetched)
    requires locale !in INHERITED_NAMES
    ensures NotFoundAsWritten(cache, locale, target, wildcard, fetch) == Some(NotFound(cache, locale, target, wildcard, fetch))
    decreases if locale == "en-us" then 0 else 1
  {
    if locale != "en-us" {
      AsWrittenAgreesOffInheritedNames(cache, "en-us", target, wildcard, fetch);
    }
  }

  /**
   * A request for `/constructor/...` that the bucket does not have: as
   * written, the empty cache already answers for `constructor`, so no 404
   * page is fetched and the call throws; the own-key lookup fetches the
   * locale's page.
   */
  lemma InheritedNameLooksCached(target: string, wildcard: bool, fetch: string -> Fetched, path: string)
    ensures NotFoundLocale(Some("/" + "constructor" + "/" + path)) == "constructor"
    ensures CachedAsWritten(map[], "constructor")
    ensures NotFoundAsWritten(map[], "constructor", target, wildcard, fetch) == None
    ensures NotFound(map[], "constructor", target, wildcard, fetch).fetched[0] == NotFoundUrl(target, "constructor")
  {
    UncachedLocaleIsFetched(map[], "constructor", target, wildcard, fetch);
    FirstRunOfPath("constructor", path);
  }

  /** Cache entries are only ever added, and wildcard mode never writes the cache. */
  lemma NotFoundCacheGrows(
    cache: map<string, string>, locale: string, target: string, wildcard: bool, fetch: string -> Fetched)
    ensures var c := NotFound(cache, locale, target, wildcard, fetch).cache;
      (forall k :: k in cache ==> k in c && c[k] == cache[k]) &&
      (forall k :: k in c ==> k in cache || k == locale || k == "en-us") &&
      (wildcard ==> c == cache)
  {
  }

  /** Every cached page is the body of a successful fetch of that locale's 404 page. */
  ghost predicate CacheHoldsFetchedPages(cache: map<string, string>, target: string, fetch: string -> Fetched)
  {
    forall l :: l in cache ==> fetch(NotFoundUrl(target, l)).Ok() && cache[l] == fetch(NotFoundUrl(target, l)).body
  }

  lemma NotFoundKeepsCacheFaithful(
    cache: map<string, string>, locale: string, target: string, wildcard: bool, fetch: string -> Fetched)
    requires CacheHoldsFetchedPages(cache, target, fetch)
    ensures CacheHoldsFetchedPages(NotFound(cache, locale, target, wildcard, fetch).cache, target, fetch)
  {
  }

  /**
   * Outside wildcard mode the answer is a successfully fetched 404 page of
   * the locale or of `en-us`, or the text "not found" when both fail.
   */
  lemma NotFoundAnswer(
    cache: map<string, string>, locale: string, target: string, fetch: string -> Fetched)
    requires CacheHoldsFetchedPages(cache, target, fetch)
    ensures var b := NotFound(cache, locale, target, false, fetch).body;
      (fetch(NotFoundUrl(target, locale)).Ok() && b == fetch(NotFoundUrl(target, locale)).body) ||
      (fetch(NotFoundUrl(target, "en-us")).Ok() && b == fetch(NotFoundUrl(target, "en-us")).body) ||
      (b == "not found" && !fetch(NotFoundUrl(target, "en-us")).Ok())
  {
  }

  /**
   * The module's state: the default bucket, the wildcard flag, and the
   * not-found cache (locale to 404 page).
   */
  class ContentProxy {
    const target: string
    const wildcard: bool
    var notFoundCache: map<string, string>
    ghost var fetched: seq<string>

    constructor (c: Config)
      ensures target == SourceUri(c, ContentSource) && wildcard == c.wildcard
      ensures notFoundCache == map[] && fetched == []
    {
      target := SourceUri(c, ContentSource);
      wildcard := c.wildcard;
      notFoundCache := map[];
      fetched := [];
    }

    /** `get404ForLocale(locale)`; it always fetches from the default bucket. */
    method Get404ForLocale(locale: string, fetch: string -> Fetched) returns (body: string)
      modifies this
      decreases if locale == "en-us" then 0 else 1
      ensures var r := NotFound(old(notFoundCache), locale, target, wildcard, fetch);
        body == r.body && notFoundCache == r.cache && fetched == old(fetched) + r.fetched
    {
      if locale in notFoundCache {
        body := notFoundCache[locale];
        return;
      }
      var url := target + locale + "/404/index.html";
      var response := fetch(url);
      fetched := fetched + [url];
      if !wildcard {
        if response.Ok() {
          notFoundCache := notFoundCache[locale := response.body];
        } else {
          if locale == "en-us" {
            return "not found";
          }
          body := Get404ForLocale("en-us", fetch);
          return;
        }
      }
      body := response.body;
    }

    /**
     * The response interceptor: the content headers are set first; then an
     * upstream 404 outside the live samples is answered by the folder's
     * `index.html` if the bucket has one, and by the locale's 404 page
     * otherwise. Any other response body passes through.
     */
    method Intercept(
      res: Response, reqTarget: string, url: Option<string>, upstream: Upstream, responseBuffer: string,
      cspValue: string, fetch: string -> Fetched)
      returns (body: string)
      requires !res.headersSent
      modifies this, res
      ensures var h := Response.Applied(old(res.headers), ResponseHeaderList(
          old(res.statusCode), upstream.statusCode, upstream.contentType, url, wildcard, cspValue));
        var retry := TryHtmlUrl(reqTarget, url);
        if upstream.statusCode != Some(404) || IsLiveSampleURL(UrlText(url)) then
          body == responseBuffer && res.headers == h && res.statusCode == old(res.statusCode) &&
          unchanged(this)
        else if fetch(retry).Ok() then
          body == fetch(retry).body && res.statusCode == 200 &&
          res.headers == h["content-type" := "text/html"] &&
          notFoundCache == old(notFoundCache) && fetched == old(fetched) + [retry]
        else
          var r := NotFound(old(notFoundCache), NotFoundLocale(url), target, wildcard, fetch);
          body == r.body && res.statusCode == old(res.statusCode) &&
          res.headers == h["content-type" := "text/html"] &&
          notFoundCache == r.cache && fetched == old(fetched) + [retry] + r.fetched
    {
      WithContentResponseHeaders(res, upstream.statusCode, upstream.contentType, url, wildcard, cspValue);
      if upstream.statusCode == Some(404) && !IsLiveSampleURL(UrlText(url)) {
        var retry := TryHtmlUrl(reqTarget, url);
        var tryHtml := fetch(retry);
        fetched := fetched + [retry];
        ContentTypeName();
        if tryHtml.Ok() {
          res.SetStatus(200);
          res.SetHeader("Content-Type", "text/html");
          return tryHtml.body;
        }
        res.SetHeader("Content-Type", "text/html");
        var locale := NotFoundLocale(url);
        body := Get404ForLocale(locale, fetch);
        return;
      }
      return responseBuffer;
    }
  }

  /** The header name Node stores for Content-Type. */
  lemma ContentTypeName()
    ensures Lower("Content-Type") == "content-type"
  {
  }

  /** `${target}${req.url?.slice(1)}/index.html` */
  function TryHtmlUrl(reqTarget: string, url: Option<string>): string
  {
    reqTarget + (if url.None? then "undefined" else if url.value == "" then "" else url.value[1..]) + "/index.html"
  }

  /** The retry for `/{path}` asks the bucket for `{path}/index.html`. */
  lemma TryHtmlUrlOfPath(reqTarget: string, path: string)
    ensures TryHtmlUrl(reqTarget, Some("/" + path)) == reqTarget + path + "/index.html"
  {
    assert ("/" + path)[1..] == path;
  }
}
