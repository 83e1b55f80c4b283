/**
 * The leading-slash guard: a URL that starts with several slashes (or their
 * percent-encoded form `%2f`, in either case) would be read by a browser as
 * a protocol-relative URL, so it is redirected to the same URL with that
 * leading run collapsed to one `/`.
 */
module RedirectLeadingSlash {
  import opened Strings
  import opened Http
  import opened Utils

  /** The text begins with `/` or with `%2f` in any letter case. */
  predicate StartsWithSeparator(s: string)
  {
    (|s| >= 1 && s[0] == '/') || (|s| >= 3 && s[0] == '%' && s[1] == '2' && (s[2] == 'f' || s[2] == 'F'))
  }

  /** The length of the separator at the start of the text. */
  function SeparatorLength(s: string): (n: nat)
    requires StartsWithSeparator(s)
    ensures 1 <= n <= |s|
  {
    if s[0] == '/' then 1 else 3
  }

  /** What is left once the whole leading run of separators is removed. */
  function StripSeparators(s: string): (r: string)
    ensures !StartsWithSeparator(r)
    ensures |r| <= |s| && r == s[|s| - |r|..]
    ensures !StartsWithSeparator(s) ==> r == s
    decreases |s|
  {
    if StartsWithSeparator(s) then StripSeparators(s[SeparatorLength(s)..]) else s
  }

  /** `pathname.replace(/^(\/|%2f)+/i, "/")` */
  function NormalizeLeadingSlash(p: string): (r: string)
    ensures !StartsWithSeparator(p) ==> r == p
    ensures StartsWithSeparator(p) ==> r == "/" + StripSeparators(p)
  {
    if StartsWithSeparator(p) then "/" + StripSeparators(p) else p
  }

  /** After normalisation the text after the first `/` never starts another separator. */
  lemma NormalizedHasOneLeadingSlash(p: string)
    requires StartsWithSeparator(p)
    ensures NormalizeLeadingSlash(p)[0] == '/'
    ensures !StartsWithSeparator(NormalizeLeadingSlash(p)[1..])
    ensures !StartsWith(NormalizeLeadingSlash(p), "//")
  {
    var r := NormalizeLeadingSlash(p);
    var t := StripSeparators(p);
    assert r == "/" + t;
    assert r[1..] == t;
    assert |r| >= 2 ==> r[..2][1] == r[1] && r[1] == t[0];
  }

  /** No normalised path starts with `//`, whatever the input. */
  lemma NeverDoubleSlash(p: string)
    ensures !StartsWith(NormalizeLeadingSlash(p), "//")
  {
    assert |p| >= 2 ==> p[..2][0] == p[0];
    if StartsWithSeparator(p) {
      NormalizedHasOneLeadingSlash(p);
    }
  }

  lemma NormalizeLeadingSlashIdempotent(p: string)
    ensures NormalizeLeadingSlash(NormalizeLeadingSlash(p)) == NormalizeLeadingSlash(p)
  {
    if StartsWithSeparator(p) {
      var r := NormalizeLeadingSlash(p);
      var rest := StripSeparators(p);
      assert r[1..] == rest;
      assert StripSeparators(r) == StripSeparators(r[1..]);
    }
  }

  /** The middleware: redirect (302, not cached) when normalisation changes the URL. */
  function RedirectLeadingSlash(req: Request): (o: Outcome)
    ensures o == Next || o == RedirectDefault(NormalizeLeadingSlash(req.url))
  {
    var normalized := NormalizeLeadingSlash(req.url);
    if req.url != normalized then RedirectDefault(normalized) else Next
  }

  /** A redirect is issued exactly when the URL has a leading run other than one plain `/`. */
  lemma RedirectIffChanged(req: Request)
    ensures RedirectLeadingSlash(req) == Next <==> NormalizeLeadingSlash(req.url) == req.url
    ensures RedirectLeadingSlash(req) == Next <==>
      !StartsWithSeparator(req.url) || (req.url[0] == '/' && !StartsWithSeparator(req.url[1..]))
  {
    var u := req.url;
    if StartsWithSeparator(u) {
      NormalizedHasOneLeadingSlash(u);
      if u[0] == '/' && !StartsWithSeparator(u[1..]) {
        assert StripSeparators(u) == u[1..];
        assert u == "/" + u[1..];
      }
    }
  }

  /** The redirect target is already normalised, so following it ends the redirects. */
  lemma RedirectTargetPasses(req: Request, next: Request)
    requires RedirectLeadingSlash(req).Redirect?
    requires next.url == RedirectLeadingSlash(req).location
    ensures RedirectLeadingSlash(next) == Next
  {
    NormalizeLeadingSlashIdempotent(req.url);
  }

  /** Removing one leading `/` does not change what the run leaves. */
  lemma StripSlash(s: string)
    requires |s| >= 1 && s[0] == '/'
    ensures StripSeparators(s) == StripSeparators(s[1..])
  {
  }

  /** Five leading slashes become one, as in `GET /////anything` sent to `/anything`. */
  lemma ManySlashesExample(rest: string)
    requires !StartsWithSeparator(rest)
    ensures NormalizeLeadingSlash("/////" + rest) == "/" + rest
  {
    var s1 := "/" + rest;
    var s2 := "/" + s1;
    var s3 := "/" + s2;
    var s4 := "/" + s3;
    var s5 := "/" + s4;
    assert s5 == "/////" + rest;
    StripSlash(s1);
    assert s1[1..] == rest;
    StripSlash(s2);
    assert s2[1..] == s1;
    StripSlash(s3);
    assert s3[1..] == s2;
    StripSlash(s4);
    assert s4[1..] == s3;
    StripSlash(s5);
    assert s5[1..] == s4;
  }
}
