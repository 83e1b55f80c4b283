/**
 * Sends a page URL without a trailing `/` to the same URL with one, keeping
 * the query; asset URLs are left alone.
 */
module RedirectEnforceTrailingSlash {
  import opened Strings
  import opened Constants
  import opened Http
  import opened Utils

  /** What the middleware does with a request. */
  function EnforceTrailingSlash(t: Tables, req: Request): Outcome
  {
    if !EndsWith(req.pathname, "/") && !IsAsset(t, req.pathname)
    then RedirectTo(req.pathname + "/" + req.search, DEFAULT_REDIRECT_STATUS, t.thirtyDays)
    else Next
  }

  /**
   * The stage redirects exactly when the path neither ends in `/` nor is an
   * asset, to the path with `/` appended and the query kept, with the default
   * status and a thirty-day cache; otherwise it passes the request on.
   */
  lemma RedirectIffMissingSlash(t: Tables, req: Request)
    ensures EnforceTrailingSlash(t, req).Redirect? <==> !EndsWith(req.pathname, "/") && !IsAsset(t, req.pathname)
    ensures EnforceTrailingSlash(t, req).Redirect? ==>
      EnforceTrailingSlash(t, req) ==
        Redirect(req.pathname + "/" + req.search, 302, CacheControlValue(t.thirtyDays))
    ensures !EnforceTrailingSlash(t, req).Redirect? ==> EnforceTrailingSlash(t, req) == Next
  {
  }

  /**
   * Idempotence: the request for the redirect's location, taken before the
   * Location header encodes it, ends in `/` and passes. A client follows
   * the encoded header, which is a different path when the location holds
   * `%` or other characters `encodeURI` escapes.
   */
  lemma SecondPassContinues(t: Tables, req: Request, again: Request)
    requires Parsed(req)
    requires EnforceTrailingSlash(t, req).Redirect?
    requires again.url == EnforceTrailingSlash(t, req).location && Parsed(again)
    ensures again.pathname == req.pathname + "/" && again.search == req.search
    ensures EnforceTrailingSlash(t, again) == Next
  {
    SplitUrlOfParts(req.pathname + "/", req.search);
  }
}
