/**
 * Deletes the `X-Forwarded-Host` and `Forwarded` request headers, whatever
 * their letter case, so that upstream code cannot be misled about the host.
 * Every other header, including the other `X-Forwarded-*` ones, is kept.
 */
module StripForwardedHostHeaders {
  import opened Strings
  import opened Http

  /** `HEADER_REGEXP.test(name)`: the whole name, case-insensitively. */
  predicate IsForwardedHostName(name: string)
  {
    Lower(name) == "x-forwarded-host" || Lower(name) == "forwarded"
  }

  /** The headers without the forwarded-host ones. */
  function Stripped(h: map<string, HeaderValue>): (r: map<string, HeaderValue>)
    ensures forall k :: k in r ==> !IsForwardedHostName(k)
    ensures forall k :: k in h && !IsForwardedHostName(k) ==> k in r && r[k] == h[k]
    ensures forall k :: k in r ==> k in h
  {
    h - set k | k in h && IsForwardedHostName(k)
  }

  /** The middleware: it deletes the matching names one by one and always continues. */
  method StripForwardedHostHeadersStage(ctx: RequestContext) returns (o: Outcome)
    modifies ctx
    ensures ctx.Value() == old(ctx.Value()).(headers := Stripped(old(ctx.headers)))
    ensures o == Next
  {
    var names := set k | k in ctx.headers && IsForwardedHostName(k);
    ghost var all := names;
    while names != {}
      invariant names <= all
      invariant all == set k | k in old(ctx.headers) && IsForwardedHostName(k)
      invariant ctx.headers == old(ctx.headers) - (all - names)
      invariant ctx.Value() == old(ctx.Value()).(headers := ctx.headers)
      decreases names
    {
      var name :| name in names;
      ctx.headers := ctx.headers - {name};
      names := names - {name};
    }
    return Next;
  }

  /** Stripping twice is stripping once. */
  lemma StrippedIdempotent(h: map<string, HeaderValue>)
    ensures Stripped(Stripped(h)) == Stripped(h)
  {
  }

  /** `X-Forwarded-For` is not stripped, `X-Forwarded-Host` and `FORWARDED` are. */
  lemma StrippedNames()
    ensures !IsForwardedHostName("x-forwarded-for")
    ensures IsForwardedHostName("X-Forwarded-Host")
    ensures IsForwardedHostName("FORWARDED")
  {
    assert Lower("X-Forwarded-Host") == "x-forwarded-host";
    assert Lower("FORWARDED") == "forwarded";
  }
}
