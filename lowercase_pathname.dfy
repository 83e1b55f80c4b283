/**
 * Lower-cases the path of the request URL in place, leaving the query as it
 * is. The URL is rebuilt as an absolute URL from the protocol, the Host
 * header text as it arrived, the lower-cased path and the query, and
 * `originalUrl` follows `url`. The host normalisation of
 * `URL.prototype.toString` (a lower-case host, no default port) is not
 * modelled.
 */
module LowercasePathname {
  import opened Strings
  import opened Http

  /** The request after the stage. */
  function Lowercased(r: Request): Request
  {
    if r.pathname == "" then r
    else
      var u := r.protocol + "://" + HostText(r) + Lower(r.pathname) + r.search;
      r.(url := u, originalUrl := u, pathname := Lower(r.pathname))
  }

  /** The middleware; it always continues. */
  method LowercasePathnameStage(ctx: RequestContext) returns (o: Outcome)
    modifies ctx
    ensures ctx.Value() == Lowercased(old(ctx.Value()))
    ensures o == Next
  {
    if ctx.pathname != "" {
      var host := HostText(ctx.Value());
      ctx.pathname := Lower(ctx.pathname);
      ctx.url := ctx.protocol + "://" + host + ctx.pathname + ctx.search;
      ctx.originalUrl := ctx.url;
    }
    return Next;
  }

  /**
   * The path ends up in lower case, the query, headers and cookies are kept,
   * and `url` and `originalUrl` are equal.
   */
  lemma OnlyThePathChanges(r: Request)
    ensures var r' := Lowercased(r);
      r'.search == r.search && r'.headers == r.headers && r'.cookies == r.cookies &&
      r'.verb == r.verb && r'.protocol == r.protocol && r'.hostname == r.hostname &&
      (r.pathname != "" ==> r'.url == r'.originalUrl) && (r.pathname == "" ==> r' == r)
    ensures forall i :: 0 <= i < |Lowercased(r).pathname| ==> !('A' <= Lowercased(r).pathname[i] <= 'Z')
    ensures Lower(Lowercased(r).pathname) == Lower(r.pathname)
  {

    LowerIdempotent(r.pathname);
  }

  /** Applying the stage twice is applying it once. */
  lemma LowercasedIdempotent(r: Request)
    ensures Lowercased(Lowercased(r)) == Lowercased(r)
  {
    LowerIdempotent(r.pathname);
  }
}
