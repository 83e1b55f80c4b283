/**
 * Fundamental redirects: a rule table outside this model
 * (`resolveFundamental`, a parameter here) may map the request path to a new
 * URL and status. The original query string is merged into that URL.
 */
module RedirectFundamental {
  import opened Wrappers
  import opened Strings
  import opened Constants
  import opened Http
  import opened Utils

  /** What `resolveFundamental` returns; absent fields are `undefined`. */
  datatype FundamentalRedirect = FundamentalRedirect(url: Option<string>, status: Option<nat>)

  /** `fundamentalRedirect.url` is truthy. */
  predicate HasTarget(f: FundamentalRedirect)
  {
    f.url.Some? && f.url.value != ""
  }

  /** The target once the request's query (`?` included, or "") is merged into it. */
  function MergeQuery(target: string, search: string): string
  {
    if search == "" then target
    else target + (if '?' in target then "&" else "?") + search[1..]
  }

  /** The status of the redirect: the resolver's, or the helper's default 302. */
  function StatusOf(f: FundamentalRedirect): nat
  {
    if f.status.Some? then f.status.value else DEFAULT_REDIRECT_STATUS
  }

  /** What the middleware does with a request. */
  function Fundamental(req: Request, resolve: string -> FundamentalRedirect, thirtyDays: nat): Outcome
  {
    var f := resolve(req.pathname);
    if HasTarget(f) then RedirectTo(MergeQuery(f.url.value, req.search), StatusOf(f), thirtyDays)
    else Next
  }

  /** The middleware: it appends the query to the resolved URL in place, then redirects. */
  method RedirectFundamentalStage(req: Request, resolve: string -> FundamentalRedirect, thirtyDays: nat)
    returns (o: Outcome)
    ensures o == Fundamental(req, resolve, thirtyDays)
    ensures o == Next <==> !HasTarget(resolve(req.pathname))
  {
    var fundamentalRedirect := resolve(req.pathname);
    if fundamentalRedirect.url.Some? && fundamentalRedirect.url.value != "" {
      var url := fundamentalRedirect.url.value;
      if req.search != "" {
        url := url + (if '?' in url then "&" else "?") + req.search[1..];
      }
      var status := if fundamentalRedirect.status.Some? then fundamentalRedirect.status.value else DEFAULT_REDIRECT_STATUS;
      return RedirectTo(url, status, thirtyDays);
    }
    return Next;
  }

  /** An empty query leaves the resolved URL as it is. */
  lemma EmptyQueryKeepsTarget(req: Request, resolve: string -> FundamentalRedirect, thirtyDays: nat)
    requires req.search == "" && HasTarget(resolve(req.pathname))
    ensures Fundamental(req, resolve, thirtyDays).location == resolve(req.pathname).url.value
  {
  }

  /**
   * A target without a query receives the request's query unchanged: parsing
   * the merged URL gives back the target as path and the query as search.
   */
  lemma QueryCarriedOver(target: string, q: string)
    requires '?' !in target && q != ""
    ensures SplitUrl(MergeQuery(target, "?" + q)) == (target, "?" + q)
  {
    var m := MergeQuery(target, "?" + q);
    assert m == target + "?" + q;
    assert m[..|target|] == target;
    IndexOfAt(m, '?', |target|);
    assert m[|target|..] == "?" + q;
  }

  /**
   * A target that has a query of its own keeps it, and the request's query
   * follows it after `&`.
   */
  lemma QueryAppendedWithAmpersand(path: string, own: string, q: string)
    requires '?' !in path && q != ""
    ensures SplitUrl(MergeQuery(path + "?" + own, "?" + q)) == (path, "?" + own + "&" + q)
  {
    var target := path + "?" + own;
    assert target[|path|] == '?';
    var m := MergeQuery(target, "?" + q);
    assert m == path + "?" + own + "&" + q;
    assert m[..|path|] == path;
    IndexOfAt(m, '?', |path|);
    assert m[|path|..] == "?" + own + "&" + q;
  }

  /** A resolved redirect is cached for thirty days with the resolver's status (302 when it gives none). */
  lemma RedirectUsesResolverStatus(req: Request, resolve: string -> FundamentalRedirect, thirtyDays: nat)
    requires HasTarget(resolve(req.pathname))
    ensures Fundamental(req, resolve, thirtyDays).Redirect?
    ensures Fundamental(req, resolve, thirtyDays).cacheControl == CacheControlValue(thirtyDays)
    ensures resolve(req.pathname).status.Some? ==>
      Fundamental(req, resolve, thirtyDays).status == resolve(req.pathname).status.value
    ensures resolve(req.pathname).status.None? ==> Fundamental(req, resolve, thirtyDays).status == 302
  {
  }
}
