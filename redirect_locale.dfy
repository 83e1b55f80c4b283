/**
 * Locale redirects: a path that needs a locale (the home page, or one of the
 * locale-less sections) gets the negotiated locale inserted in front, and a
 * path whose first segment is a known locale in the wrong letter case is sent
 * to the canonically cased locale. Both redirects use the helper's default
 * 302 and `no-store`.
 */
module RedirectLocale {
  import opened Wrappers
  import opened Strings
  import opened Constants
  import opened Http
  import opened OrderedMaps
  import opened Utils
  import opened LocaleUtils

  /** The sections of NEEDS_LOCALE. */
  const NEEDS_LOCALE_WORDS: seq<string> := ["blog", "curriculum", "docs", "play", "search", "settings", "plus"]

  /** `NEEDS_LOCALE.test(p)`: `/` and a section name, then the end or `/`. */
  predicate NeedsLocale(p: string)
  {
    exists i :: 0 <= i < |NEEDS_LOCALE_WORDS| &&
      (p == "/" + NEEDS_LOCALE_WORDS[i] || StartsWith(p, "/" + NEEDS_LOCALE_WORDS[i] + "/"))
  }

  /** The condition of the insertion branch. */
  predicate InsertsLocale(uri: string)
  {
    uri == "" || uri == "/" || NeedsLocale(Lower(uri))
  }

  /** `CANONICALS[key]` is truthy. */
  predicate HasCanonical(t: Tables, key: string)
  {
    key in t.canonicals && t.canonicals[key] != ""
  }

  /** The locales, in order, for which `/{locale}{path}` is a canonical page. */
  function FilterWithPath(t: Tables, locales: seq<string>, path: string): (r: seq<string>)
    ensures forall x :: x in r <==> x in locales && HasCanonical(t, NormalizePath("/" + x + path))
  {
    if locales == [] then []
    else
      var rest := FilterWithPath(t, locales[1..], path);
      if HasCanonical(t, NormalizePath("/" + locales[0] + path)) then [locales[0]] + rest else rest
  }

  /** `getLocalesWithPath` */
  function LocalesWithPath(t: Tables, path: string): seq<string>
  {
    FilterWithPath(t, Values(t.validLocales), path)
  }

  /** `path || "/"` where `path` is the request path with one trailing `/` trimmed. */
  function TrimmedPath(uri: string): string
  {
    var path := if EndsWith(uri, "/") then uri[..|uri| - 1] else uri;
    if path == "" then "/" else path
  }

  /** The candidates given to `getLocale`: the locales having the page, or all of them. */
  function CandidateLocales(t: Tables, path: string): Locales
  {
    var ls := LocalesWithPath(t, path);
    if |ls| > 0 then LocaleList(ls) else LocaleMap(t.validLocales)
  }

  /** The locale the insertion branch puts in front of the path. */
  function InsertedLocale(
    t: Tables, req: Request,
    parse: string -> map<string, string>, pick: (seq<string>, string) -> Option<string>): string
  {
    GetLocale(t, req.headers, t.defaultLocale, CandidateLocales(t, TrimmedPath(req.pathname)), parse, pick)
  }

  /** `uriParts[1] ?? ""` */
  function FirstSegment(uri: string): string
  {
    var parts := Split(uri, '/');
    if |parts| > 1 then parts[1] else ""
  }

  /** `uriParts.slice(2)` */
  function RestSegments(uri: string): seq<string>
  {
    var parts := Split(uri, '/');
    if |parts| >= 2 then parts[2..] else []
  }

  /** The path after the re-cased locale: the non-empty remaining segments. */
  function Extra(uri: string): string
  {
    Join(NonEmpty(RestSegments(uri)), "/")
  }

  /** What the middleware does with a request. */
  function RedirectLocale(
    t: Tables, req: Request,
    parse: string -> map<string, string>, pick: (seq<string>, string) -> Option<string>): (o: Outcome)
    ensures o == Next || (o.Redirect? && o.status == 302 && o.cacheControl == "no-store")
  {
    var uri := req.pathname;
    if InsertsLocale(uri) then
      RedirectDefault("/" + InsertedLocale(t, req, parse, pick) + TrimmedPath(uri) + req.search)
    else
      var first := FirstSegment(uri);
      var firstLC := Lower(first);
      if Has(t.validLocales, firstLC) && first != Get(t.validLocales, firstLC).value then
        RedirectDefault("/" + Get(t.validLocales, firstLC).value + "/" + Extra(uri) + req.search)
      else Next
  }

  /**
   * The locale registry maps every locale's lower-case form to the locale,
   * no locale contains `/` or is spelled like a locale-less section, and the
   * default locale is registered.
   */
  predicate WellFormedRegistry(t: Tables)
  {
    (forall v :: v in Values(t.validLocales) ==> WellFormedLocale(t, v)) &&
    t.defaultLocale in Values(t.validLocales)
  }

  /** One registered locale: free of `/`, found under its lower-case form, not a section name. */
  predicate WellFormedLocale(t: Tables, v: string)
  {
    '/' !in v && Get(t.validLocales, Lower(v)) == Some(v) && Lower(v) !in NEEDS_LOCALE_WORDS
  }

  /** The Accept-Language picker only returns members of the list it is given. */
  ghost predicate PickReturnsMember(pick: (seq<string>, string) -> Option<string>)
  {
    forall list, v :: pick(list, v).Some? ==> pick(list, v).value in list
  }

  /** The insertion branch: the root gets `/{locale}/`, any other path one trailing `/` fewer. */
  lemma InsertionTarget(
    t: Tables, req: Request,
    parse: string -> map<string, string>, pick: (seq<string>, string) -> Option<string>)
    requires InsertsLocale(req.pathname)
    ensures var o := RedirectLocale(t, req, parse, pick);
      var l := InsertedLocale(t, req, parse, pick);
      o.Redirect? && o.status == 302 &&
      ((req.pathname == "" || req.pathname == "/") ==> o.location == "/" + l + "/" + req.search) &&
      (req.pathname != "/" && EndsWith(req.pathname, "/") ==>
        o.location == "/" + l + req.pathname[..|req.pathname| - 1] + req.search) &&
      (!EndsWith(req.pathname, "/") && req.pathname != "" ==> o.location == "/" + l + req.pathname + req.search)
  {
  }

  /** The inserted locale is a registered one, when the picker behaves. */
  lemma InsertedLocaleRegistered(
    t: Tables, req: Request,
    parse: string -> map<string, string>, pick: (seq<string>, string) -> Option<string>)
    requires WellFormedRegistry(t) && PickReturnsMember(pick)
    ensures InsertedLocale(t, req, parse, pick) in Values(t.validLocales)
  {
    var cands := CandidateLocales(t, TrimmedPath(req.pathname));
    var l := InsertedLocale(t, req, parse, pick);
    GetLocaleIsCandidate(t, req.headers, t.defaultLocale, cands, parse, pick);
    if l != t.defaultLocale && cands.LocaleList? {
      ListValuesAreCodes(cands.codes, l);
    }
  }

  /** The section name of a path `/{x}{rest}` with `x` free of `/` can only be `x`. */
  lemma SectionIsFirstSegment(x: string, rest: string, w: string)
    requires '/' !in x && '/' !in w
    requires rest != "" && rest[0] == '/'
    requires "/" + x + rest == "/" + w || StartsWith("/" + x + rest, "/" + w + "/")
    ensures w == x
  {
    var s := "/" + x + rest;
    assert s[|x| + 1] == '/';
    if s != "/" + w {
      assert s[..|w| + 2] == "/" + w + "/";
      assert forall k :: 1 <= k <= |x| ==> s[k] == x[k - 1];
      assert forall k :: 1 <= k <= |w| ==> s[k] == w[k - 1];
      assert s[|w| + 1] == '/';
      assert s[1..|x| + 1] == x;
      assert w == s[1..|w| + 1];
    }
  }

  /** `/{v}{rest}` with a registered-style `v` is not a path that needs a locale. */
  lemma NoInsertionAfterLocale(v: string, rest: string)
    requires '/' !in v && Lower(v) !in NEEDS_LOCALE_WORDS
    requires rest != "" && rest[0] == '/'
    ensures !InsertsLocale("/" + v + rest)
  {
    var uri := "/" + v + rest;
    var lv := Lower(v);
    LowerKeepsAbsent(v, '/');
    LowerConcat("/" + v, rest);
    LowerConcat("/", v);
    var lrest := Lower(rest);
    assert lrest[0] == '/';
    assert Lower(uri) == "/" + lv + lrest;
    if NeedsLocale(Lower(uri)) {
      var i :| 0 <= i < |NEEDS_LOCALE_WORDS| &&
        (Lower(uri) == "/" + NEEDS_LOCALE_WORDS[i] || StartsWith(Lower(uri), "/" + NEEDS_LOCALE_WORDS[i] + "/"));
      assert '/' !in NEEDS_LOCALE_WORDS[i];
      SectionIsFirstSegment(lv, lrest, NEEDS_LOCALE_WORDS[i]);
      assert false;
    }
  }

  /** The first segment of `/{v}{rest}` is `v`. */
  lemma FirstSegmentAfterSlash(v: string, rest: string)
    requires '/' !in v
    requires rest != "" && rest[0] == '/'
    ensures FirstSegment("/" + v + rest) == v
  {
    var uri := "/" + v + rest;
    SplitFirst("", '/', v + rest);
    assert uri == "" + ['/'] + (v + rest);
    assert v + rest == v + ['/'] + rest[1..];
    SplitFirst(v, '/', rest[1..]);
  }

  /** A path that starts with a registered locale, in its own spelling, passes through. */
  lemma RegisteredPrefixPasses(
    t: Tables, req: Request, v: string, rest: string,
    parse: string -> map<string, string>, pick: (seq<string>, string) -> Option<string>)
    requires WellFormedRegistry(t)
    requires v in Values(t.validLocales)
    requires rest != "" && rest[0] == '/'
    requires req.pathname == "/" + v + rest
    ensures RedirectLocale(t, req, parse, pick) == Next
  {
    NoInsertionAfterLocale(v, rest);
    FirstSegmentAfterSlash(v, rest);
  }

  /** Fixed point: the path produced by an insertion is not redirected again. */
  lemma InsertionIsFixedPoint(
    t: Tables, req: Request, again: Request,
    parse: string -> map<string, string>, pick: (seq<string>, string) -> Option<string>)
    requires WellFormedRegistry(t) && PickReturnsMember(pick)
    requires req.pathname == "" || req.pathname[0] == '/'
    requires InsertsLocale(req.pathname)
    requires again.pathname == "/" + InsertedLocale(t, req, parse, pick) + TrimmedPath(req.pathname)
    ensures RedirectLocale(t, again, parse, pick) == Next
  {
    var uri := req.pathname;
    var p := TrimmedPath(uri);
    if uri != "" && uri != "/" && EndsWith(uri, "/") {
      assert uri[..|uri| - 1][0] == uri[0];
    }
    assert p[0] == '/';
    InsertedLocaleRegistered(t, req, parse, pick);
    RegisteredPrefixPasses(t, again, InsertedLocale(t, req, parse, pick), p, parse, pick);
  }

  /** Fixed point: the path produced by re-casing is not redirected again. */
  lemma RecasingIsFixedPoint(
    t: Tables, req: Request, again: Request,
    parse: string -> map<string, string>, pick: (seq<string>, string) -> Option<string>)
    requires WellFormedRegistry(t)
    requires !InsertsLocale(req.pathname)
    requires Has(t.validLocales, Lower(FirstSegment(req.pathname)))
    requires again.pathname ==
      "/" + Get(t.validLocales, Lower(FirstSegment(req.pathname))).value + "/" + Extra(req.pathname)
    ensures RedirectLocale(t, again, parse, pick) == Next
  {
    var c := Get(t.validLocales, Lower(FirstSegment(req.pathname))).value;
    GetIn(t.validLocales, Lower(FirstSegment(req.pathname)));
    assert again.pathname == "/" + c + ("/" + Extra(req.pathname));
    RegisteredPrefixPasses(t, again, c, "/" + Extra(req.pathname), parse, pick);
  }

  /** The re-cased path has no empty segment after the locale: no `//` and no trailing `/`. */
  lemma ExtraHasNoEmptySegment(uri: string)
    ensures Extra(uri) != "" ==> forall s :: s in Split(Extra(uri), '/') ==> s != ""
  {
    var parts := NonEmpty(RestSegments(uri));
    if parts != [] {
      forall i | 0 <= i < |parts| ensures '/' !in parts[i] {
        assert parts[i] in parts;
        var rest := RestSegments(uri);
        assert forall k :: 0 <= k < |rest| ==> '/' !in rest[k];
      }
      SplitJoin(parts, '/');
    }
  }

  /** `GET /` answers 302 to the negotiated locale's home page. */
  lemma RootRedirects(
    t: Tables, req: Request,
    parse: string -> map<string, string>, pick: (seq<string>, string) -> Option<string>)
    requires req.pathname == "/"
    ensures RedirectLocale(t, req, parse, pick) ==
      Redirect("/" + InsertedLocale(t, req, parse, pick) + "/" + req.search, 302, "no-store")
  {
  }

  /** `GET /` with no query string answers 302 to `/{l}/` once the inserted locale is known to be `l`. */
  lemma RootToLocale(
    t: Tables, req: Request,
    parse: string -> map<string, string>, pick: (seq<string>, string) -> Option<string>, l: string)
    requires req.pathname == "/" && req.search == ""
    requires InsertedLocale(t, req, parse, pick) == l
    ensures RedirectLocale(t, req, parse, pick) == Redirect("/" + l + "/", 302, "no-store")
  {
    RootRedirects(t, req, parse, pick);
    assert "/" + l + "/" + req.search == "/" + l + "/";
  }

  lemma FrSpelling()
    ensures Lower("fr") == "fr"
    ensures NormalizePath("/fr/") == "/fr"
    ensures TrimmedPath("/") == "/"
  {
    assert Lower("/fr/") == "/fr/";
  }

  /** `fr` is among the candidates for the home page when `/fr/` is canonical. */
  lemma FrHasHomePage(t: Tables)
    requires HasCanonical(t, "/fr") && "fr" in Values(t.validLocales)
    ensures "fr" in LocalesWithPath(t, "/")
    ensures CandidateLocales(t, "/") == LocaleList(LocalesWithPath(t, "/"))
  {
    FrSpelling();
    assert "/" + "fr" + "/" == "/fr/";
  }

  /** In a list of registered locales, a lower-case registered locale is found as itself. */
  lemma RegisteredLookup(t: Tables, ls: seq<string>, k: string)
    requires WellFormedRegistry(t)
    requires forall x :: x in ls ==> x in Values(t.validLocales)
    requires k in ls && Lower(k) == k
    ensures Has(LocaleEntries(LocaleList(ls)), k)
    ensures Get(LocaleEntries(LocaleList(ls)), k).value == k
  {
    var i :| 0 <= i < |ls| && ls[i] == k;
    var es := KeyedByLower(ls);
    assert es[i].0 == k;
    FromEntriesHas(es, k);
    ListLookupIsCode(ls, k);
    var l := Get(FromEntries(es), k).value;
    assert Get(t.validLocales, Lower(l)) == Some(l);
    assert Get(t.validLocales, Lower(k)) == Some(k);
  }

  /** At the root the candidates are the locales with a home page, `fr` among them. */
  lemma RootCandidates(
    t: Tables, req: Request,
    parse: string -> map<string, string>, pick: (seq<string>, string) -> Option<string>)
    requires req.pathname == "/"
    requires HasCanonical(t, "/fr") && "fr" in Values(t.validLocales)
    ensures "fr" in LocalesWithPath(t, "/")
    ensures InsertedLocale(t, req, parse, pick) ==
      GetLocale(t, req.headers, t.defaultLocale, LocaleList(LocalesWithPath(t, "/")), parse, pick)
  {
    FrSpelling();
    FrHasHomePage(t);
  }

  /** `fr` is among the values the picker chooses from at the root. */
  lemma FrIsRootCandidate(t: Tables)
    requires WellFormedRegistry(t)
    requires HasCanonical(t, "/fr") && "fr" in Values(t.validLocales)
    ensures "fr" in Values(LocaleEntries(LocaleList(LocalesWithPath(t, "/"))))
  {
    var ls := LocalesWithPath(t, "/");
    FrHasHomePage(t);
    FrSpelling();
    RegisteredLookup(t, ls, "fr");
    GetIn(LocaleEntries(LocaleList(ls)), "fr");
  }

  /** A `fr` cookie picks `fr` at the root. */
  lemma CookieFrPicksFr(
    t: Tables, req: Request,
    parse: string -> map<string, string>, pick: (seq<string>, string) -> Option<string>)
    requires WellFormedRegistry(t)
    requires "fr" in Values(t.validLocales) && HasCanonical(t, "/fr")
    requires req.pathname == "/"
    requires t.preferredLocaleCookie in ExtractCookies(req.headers, parse)
    requires ExtractCookies(req.headers, parse)[t.preferredLocaleCookie] == "fr"
    ensures InsertedLocale(t, req, parse, pick) == "fr"
  {
    var ls := LocalesWithPath(t, "/");
    RootCandidates(t, req, parse, pick);
    FrSpelling();
    RegisteredLookup(t, ls, "fr");
    CookieWins(t, req.headers, t.defaultLocale, LocaleList(ls), parse, pick);
  }

  /** Without a cookie, an Accept-Language of `fr` picks `fr` at the root. */
  lemma AcceptLanguageFrPicksFr(
    t: Tables, req: Request,
    parse: string -> map<string, string>, pick: (seq<string>, string) -> Option<string>)
    requires WellFormedRegistry(t)
    requires HasCanonical(t, "/fr") && "fr" in Values(t.validLocales)
    requires req.pathname == "/"
    requires t.preferredLocaleCookie !in ExtractCookies(req.headers, parse)
    requires AcceptLanguage(req.headers) == Some("fr")
    requires forall list :: "fr" in list ==> pick(list, "fr") == Some("fr")
    ensures InsertedLocale(t, req, parse, pick) == "fr"
  {
    var ls := LocalesWithPath(t, "/");
    RootCandidates(t, req, parse, pick);
    FrIsRootCandidate(t);
    NegotiationOrFallback(t, req.headers, t.defaultLocale, LocaleList(ls), parse, pick);
  }

  /**
   * A `fr` preferred-locale cookie sends `/` to `/fr/` when `fr` is a
   * registered locale with a home page.
   */
  lemma CookieFrSendsRootToFr(
    t: Tables, req: Request,
    parse: string -> map<string, string>, pick: (seq<string>, string) -> Option<string>)
    requires WellFormedRegistry(t)
    requires "fr" in Values(t.validLocales) && HasCanonical(t, "/fr")
    requires req.pathname == "/" && req.search == ""
    requires t.preferredLocaleCookie in ExtractCookies(req.headers, parse)
    requires ExtractCookies(req.headers, parse)[t.preferredLocaleCookie] == "fr"
    ensures RedirectLocale(t, req, parse, pick) == Redirect("/fr/", 302, "no-store")
  {
    CookieFrPicksFr(t, req, parse, pick);
    RootToLocale(t, req, parse, pick, "fr");
  }

  /**
   * Without a cookie, an Accept-Language of `fr` sends `/` to `/fr/`, when
   * the picker answers `fr` for it and `fr` has a home page.
   */
  lemma AcceptLanguageFrSendsRootToFr(
    t: Tables, req: Request,
    parse: string -> map<string, string>, pick: (seq<string>, string) -> Option<string>)
    requires WellFormedRegistry(t)
    requires HasCanonical(t, "/fr") && "fr" in Values(t.validLocales)
    requires req.pathname == "/" && req.search == ""
    requires t.preferredLocaleCookie !in ExtractCookies(req.headers, parse)
    requires AcceptLanguage(req.headers) == Some("fr")
    requires forall list :: "fr" in list ==> pick(list, "fr") == Some("fr")
    ensures RedirectLocale(t, req, parse, pick) == Redirect("/fr/", 302, "no-store")
  {
    AcceptLanguageFrPicksFr(t, req, parse, pick);
    RootToLocale(t, req, parse, pick, "fr");
  }
}
