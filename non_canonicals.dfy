/**
 * Redirects a page URL whose path differs from the canonical spelling in the
 * canonicals table (for example in letter case or a trailing `/`) to that
 * spelling, for the page itself and for its `/index.json` and `/bcd.json`
 * variants.
 */
module RedirectNonCanonicals {
  import opened Wrappers
  import opened Strings
  import opened Constants
  import opened Http
  import opened Utils

  const REDIRECT_SUFFIXES: seq<string> := ["/index.json", "/bcd.json", ""]

  /** Joins two path pieces, dropping one `/` where both sides supply one. */
  function JoinPath(a: string, b: string): (r: string)
    ensures EndsWith(a, "/") && StartsWith(b, "/") ==> r == a + b[1..]
    ensures !(EndsWith(a, "/") && StartsWith(b, "/")) ==> r == a + b
  {
    if EndsWith(a, "/") && StartsWith(b, "/") then a + b[1..] else a + b
  }

  /**
   * When either side supplies a `/`, the join holds exactly one `/` between
   * the two pieces: `a` without its trailing `/`, then `/`, then `b` without
   * its leading `/`; when neither does, no `/` is added.
   */
  lemma JoinPathOneSlash(a: string, b: string)
    ensures var a' := if EndsWith(a, "/") then a[..|a| - 1] else a;
      var b' := if StartsWith(b, "/") then b[1..] else b;
      (EndsWith(a, "/") || StartsWith(b, "/") ==> JoinPath(a, b) == a' + "/" + b') &&
      (!EndsWith(a, "/") && !StartsWith(b, "/") ==> JoinPath(a, b) == a' + b')
  {
    if EndsWith(a, "/") {
      assert a == a[..|a| - 1] + "/";
    }
    if StartsWith(b, "/") {
      assert b == "/" + b[1..];
    }
  }

  /** The redirect target one suffix yields, if any. */
  function Candidate(t: Tables, pathname: string, search: string, suffix: string): (r: Option<string>)
    ensures r.Some? ==> r.value != pathname
  {
    if !EndsWith(pathname, suffix) then None
    else
      var originalSource := pathname[..|pathname| - |suffix|];
      var source := NormalizePath(originalSource);
      if source in t.canonicals && t.canonicals[source] != originalSource then
        var target := JoinPath(t.canonicals[source], suffix) + search;
        if pathname != target then Some(target) else None
      else None
  }

  /** The target of the first suffix, in order, that yields one. */
  function FirstRedirect(t: Tables, pathname: string, search: string, suffixes: seq<string>): Option<string>
  {
    if suffixes == [] then None
    else
      var c := Candidate(t, pathname, search, suffixes[0]);
      if c.Some? then c else FirstRedirect(t, pathname, search, suffixes[1..])
  }

  /** What the middleware does with a request. */
  function NonCanonicals(t: Tables, req: Request): Outcome
  {
    match FirstRedirect(t, req.pathname, req.search, REDIRECT_SUFFIXES)
    case None => Next
    case Some(target) => RedirectTo(target, 301, t.thirtyDays)
  }

  /** The middleware, a loop over the suffixes that returns on the first redirect. */
  method RedirectNonCanonicalsStage(t: Tables, req: Request) returns (o: Outcome)
    ensures o == NonCanonicals(t, req)
  {
    var pathname := req.pathname;
    var i := 0;
    while i < |REDIRECT_SUFFIXES|
      invariant 0 <= i <= |REDIRECT_SUFFIXES|
      invariant FirstRedirect(t, pathname, req.search, REDIRECT_SUFFIXES) ==
                FirstRedirect(t, pathname, req.search, REDIRECT_SUFFIXES[i..])
    {
      assert REDIRECT_SUFFIXES[i..][1..] == REDIRECT_SUFFIXES[i + 1..];
      var suffix := REDIRECT_SUFFIXES[i];
      if !EndsWith(pathname, suffix) {
        i := i + 1;
        continue;
      }
      var originalSource := pathname[..|pathname| - |suffix|];
      var source := NormalizePath(originalSource);
      if source in t.canonicals && t.canonicals[source] != originalSource {
        var target := JoinPath(t.canonicals[source], suffix) + req.search;
        if pathname != target {
          return RedirectTo(target, 301, t.thirtyDays);
        }
      }
      i := i + 1;
    }
    return Next;
  }

  /** The first hit wins: every earlier suffix yields nothing. */
  lemma {:induction false} FirstRedirectIsFirstHit(t: Tables, pathname: string, search: string, suffixes: seq<string>)
    ensures FirstRedirect(t, pathname, search, suffixes).None? <==>
            forall i :: 0 <= i < |suffixes| ==> Candidate(t, pathname, search, suffixes[i]).None?
    ensures FirstRedirect(t, pathname, search, suffixes).Some? ==>
            exists i :: 0 <= i < |suffixes| && Candidate(t, pathname, search, suffixes[i]) == FirstRedirect(t, pathname, search, suffixes) &&
                   forall j :: 0 <= j < i ==> Candidate(t, pathname, search, suffixes[j]).None?
  {
    if suffixes != [] {
      FirstRedirectIsFirstHit(t, pathname, search, suffixes[1..]);
      var r := FirstRedirect(t, pathname, search, suffixes);
      if Candidate(t, pathname, search, suffixes[0]).None? {
        assert forall i :: 1 <= i < |suffixes| ==> suffixes[i] == suffixes[1..][i - 1];
        if r.Some? {
          var k :| 0 <= k < |suffixes[1..]| && Candidate(t, pathname, search, suffixes[1..][k]) == r &&
                   forall j :: 0 <= j < k ==> Candidate(t, pathname, search, suffixes[1..][j]).None?;
          assert Candidate(t, pathname, search, suffixes[k + 1]) == r;
          assert forall j :: 0 <= j < k + 1 ==> Candidate(t, pathname, search, suffixes[j]).None? by {
            forall j | 0 <= j < k + 1 ensures Candidate(t, pathname, search, suffixes[j]).None? {
              if j > 0 { assert suffixes[j] == suffixes[1..][j - 1]; }
            }
          }
        }
      }
    }
  }

  /** The stage never redirects a path to itself. */
  lemma NeverRedirectsToItself(t: Tables, req: Request)
    ensures NonCanonicals(t, req).Redirect? ==> NonCanonicals(t, req).location != req.pathname
    ensures NonCanonicals(t, req).Redirect? ==> NonCanonicals(t, req).status == 301
  {
    var s := REDIRECT_SUFFIXES;
    var r := FirstRedirect(t, req.pathname, req.search, s);
    FirstRedirectIsFirstHit(t, req.pathname, req.search, s);
    if r.Some? {
      var i :| 0 <= i < |s| && Candidate(t, req.pathname, req.search, s[i]) == r;
    }
  }

  /** A path the table maps to itself is left alone as a page, whatever the query. */
  lemma CanonicalPageKept(t: Tables, p: string, search: string)
    requires NormalizePath(p) in t.canonicals && t.canonicals[NormalizePath(p)] == p
    ensures Candidate(t, p, search, "").None?
  {
    assert p[..|p| - 0] == p;
  }

  /** A path ending in `/bcd.json` does not end in `/index.json`. */
  lemma BcdIsNotIndex(q: string)
    ensures !EndsWith(q + "/bcd.json", "/index.json")
  {
    var p := q + "/bcd.json";
    if |p| >= 11 {
      assert p[|p| - 9] == '/';
      assert p[|p| - 11..][2] == p[|p| - 9];
    }
  }

  /**
   * The `/index.json` or `/bcd.json` variant of a non-canonical page whose
   * canonical path does not end in `/` is sent, with its query, to the same
   * variant of the canonical path.
   */
  lemma SuffixVariantRedirects(t: Tables, q: string, suffix: string, search: string)
    requires suffix == "/index.json" || suffix == "/bcd.json"
    requires NormalizePath(q) in t.canonicals
    requires t.canonicals[NormalizePath(q)] != q
    requires !EndsWith(t.canonicals[NormalizePath(q)], "/")
    requires '?' !in q && (search == "" || search[0] == '?')
    ensures NonCanonicals(t, Request("GET", "https", "", q + suffix + search, q + suffix + search, q + suffix, search, map[], map[])) ==
            RedirectTo(t.canonicals[NormalizePath(q)] + suffix + search, 301, t.thirtyDays)
  {
    var c := t.canonicals[NormalizePath(q)];
    var p := q + suffix;
    assert p[..|p| - |suffix|] == q;
    assert EndsWith(p, suffix);
    assert JoinPath(c, suffix) == c + suffix;
    var target := c + suffix + search;
    assert p != target by {
      if search == "" {
        assert target == c + suffix;
        assert target[..|target| - |suffix|] == c;
      } else {
        assert target[|c + suffix|] == '?';
        assert '?' !in suffix;
        if |target| <= |p| { assert |p| == |q| + |suffix|; }
        assert forall k :: 0 <= k < |p| ==> p[k] != '?';
      }
    }
    assert Candidate(t, p, search, suffix) == Some(target);
    var s := REDIRECT_SUFFIXES;
    assert s[1..][1..] == [""];
    if suffix == "/bcd.json" {
      BcdIsNotIndex(q);
      assert Candidate(t, p, search, s[0]) == None;
      assert s[1..][0] == suffix;
      assert FirstRedirect(t, p, search, s) == FirstRedirect(t, p, search, s[1..]);
    }
  }
}
