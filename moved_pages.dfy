/**
 * Redirects the URL of a page that has moved, as listed in the moved-pages
 * table, to its new location. The path is percent-decoded segment by segment
 * and lower-cased before the lookup, and the page itself as well as its
 * `/index.json` and `/bcd.json` variants are looked up.
 */
module RedirectMovedPages {
  import opened Wrappers
  import opened Strings
  import opened Constants
  import opened Http
  import opened Utils
  import opened SlugUtils

  const REDIRECT_SUFFIXES: seq<string> := ["/index.json", "/bcd.json", ""]

  /** The text looked up: the decoded path, lower-cased. */
  function LookupKey(path: string, decode: string -> string): string
  {
    Lower(DecodePath(path, decode))
  }

  /** The new location one suffix yields, if the key ends in it and its stem is a moved page. */
  function Hit(t: Tables, key: string, suffix: string): (r: Option<string>)
    ensures r.Some? <==> EndsWith(key, suffix) && key[..|key| - |suffix|] in t.redirects
    ensures r.Some? ==> r.value == t.redirects[key[..|key| - |suffix|]] + suffix
  {
    if EndsWith(key, suffix) && key[..|key| - |suffix|] in t.redirects
    then Some(t.redirects[key[..|key| - |suffix|]] + suffix)
    else None
  }

  /**
   * A moved page's key with a suffix appended hits under that suffix, and
   * the target is the page's new location with the same suffix.
   */
  lemma HitOfMovedPage(t: Tables, stem: string, suffix: string)
    requires stem in t.redirects
    ensures Hit(t, stem + suffix, suffix) == Some(t.redirects[stem] + suffix)
  {
    var key := stem + suffix;
    assert key[|key| - |suffix|..] == suffix;
    assert key[..|key| - |suffix|] == stem;
  }

  /** The new location given by the first suffix, in order, that hits. */
  function FirstHit(t: Tables, key: string, suffixes: seq<string>): Option<string>
  {
    if suffixes == [] then None
    else
      var h := Hit(t, key, suffixes[0]);
      if h.Some? then h else FirstHit(t, key, suffixes[1..])
  }

  /** What the middleware does with a request. */
  function MovedPages(t: Tables, req: Request, decode: string -> string): Outcome
  {
    match FirstHit(t, LookupKey(req.pathname, decode), REDIRECT_SUFFIXES)
    case None => Next
    case Some(target) => RedirectTo(target, 301, t.thirtyDays)
  }

  /** The middleware, a search loop over the suffixes that returns on the first hit. */
  method RedirectMovedPagesStage(t: Tables, req: Request, decode: string -> string) returns (o: Outcome)
    ensures o == MovedPages(t, req, decode)
  {
    var decodedUriLC := Lower(DecodePath(req.pathname, decode));
    var i := 0;
    while i < |REDIRECT_SUFFIXES|
      invariant 0 <= i <= |REDIRECT_SUFFIXES|
      invariant FirstHit(t, decodedUriLC, REDIRECT_SUFFIXES) == FirstHit(t, decodedUriLC, REDIRECT_SUFFIXES[i..])
    {
      assert REDIRECT_SUFFIXES[i..][1..] == REDIRECT_SUFFIXES[i + 1..];
      var suffix := REDIRECT_SUFFIXES[i];
      if !EndsWith(decodedUriLC, suffix) {
        i := i + 1;
        continue;
      }
      var source := decodedUriLC[..|decodedUriLC| - |suffix|];
      if source in t.redirects {
        var target := t.redirects[source] + suffix;
        return RedirectTo(target, 301, t.thirtyDays);
      }
      i := i + 1;
    }
    return Next;
  }

  /** The first suffix that hits decides; every earlier one misses. */
  lemma {:induction false} FirstHitIsFirst(t: Tables, key: string, suffixes: seq<string>)
    ensures FirstHit(t, key, suffixes).None? <==> forall i :: 0 <= i < |suffixes| ==> Hit(t, key, suffixes[i]).None?
    ensures FirstHit(t, key, suffixes).Some? ==>
      exists i :: 0 <= i < |suffixes| && Hit(t, key, suffixes[i]) == FirstHit(t, key, suffixes) &&
        forall j :: 0 <= j < i ==> Hit(t, key, suffixes[j]).None?
  {
    if suffixes != [] {
      FirstHitIsFirst(t, key, suffixes[1..]);
      assert forall i :: 1 <= i < |suffixes| ==> suffixes[i] == suffixes[1..][i - 1];
      var r := FirstHit(t, key, suffixes);
      if Hit(t, key, suffixes[0]).None? && r.Some? {
        var k :| 0 <= k < |suffixes[1..]| && Hit(t, key, suffixes[1..][k]) == r &&
                 forall j :: 0 <= j < k ==> Hit(t, key, suffixes[1..][j]).None?;
        assert Hit(t, key, suffixes[k + 1]) == r;
        forall j | 0 <= j < k + 1 ensures Hit(t, key, suffixes[j]).None? {
          if j > 0 { assert suffixes[j] == suffixes[1..][j - 1]; }
        }
      }
    }
  }

  /**
   * A lower-cased decoded path that is itself a moved page is always
   * redirected, 301 and cached for thirty days, to an entry of the table
   * plus a suffix, with no check that the target differs from the request.
   */
  lemma MovedPageAlwaysRedirects(t: Tables, req: Request, decode: string -> string)
    requires LookupKey(req.pathname, decode) in t.redirects
    ensures MovedPages(t, req, decode).Redirect?
    ensures MovedPages(t, req, decode).status == 301
    ensures MovedPages(t, req, decode).cacheControl == CacheControlValue(t.thirtyDays)
    ensures exists k, i ::
              k in t.redirects && 0 <= i < |REDIRECT_SUFFIXES| &&
              MovedPages(t, req, decode).location == t.redirects[k] + REDIRECT_SUFFIXES[i]
  {
    var key := LookupKey(req.pathname, decode);
    assert key[..|key| - 0] == key;
    assert Hit(t, key, REDIRECT_SUFFIXES[2]).Some?;
    FirstHitIsFirst(t, key, REDIRECT_SUFFIXES);
    var i :| 0 <= i < |REDIRECT_SUFFIXES| && Hit(t, key, REDIRECT_SUFFIXES[i]) == FirstHit(t, key, REDIRECT_SUFFIXES);
    assert key[..|key| - |REDIRECT_SUFFIXES[i]|] in t.redirects;
  }

  /** Without any hit the request is passed on. */
  lemma NoHitPassesOn(t: Tables, req: Request, decode: string -> string)
    requires forall i :: 0 <= i < |REDIRECT_SUFFIXES| ==> Hit(t, LookupKey(req.pathname, decode), REDIRECT_SUFFIXES[i]).None?
    ensures MovedPages(t, req, decode) == Next
  {
    FirstHitIsFirst(t, LookupKey(req.pathname, decode), REDIRECT_SUFFIXES);
  }

  /** The query string plays no part: neither in the lookup nor in the target. */
  lemma QueryNotCarried(t: Tables, req: Request, url: string, search: string, decode: string -> string)
    ensures MovedPages(t, req.(url := url, originalUrl := url, search := search), decode) == MovedPages(t, req, decode)
  {
  }

  /**
   * The percent-encoded form of a path finds the same entry as the path
   * itself, when the codec behaves as encodeURIComponent and
   * decodeURIComponent do on well-formed strings.
   */
  lemma EncodedPathFindsEntry(p: string, encode: string -> string, decode: string -> string)
    requires forall s :: '/' !in encode(s)
    requires forall s :: decode(encode(s)) == s
    ensures LookupKey(EncodePath(p, encode), decode) == Lower(p)
  {
    DecodeEncodePath(p, encode, decode);
  }
}
