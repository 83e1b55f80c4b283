/**
 * Sends a request to the same page in the locale named by the
 * `preferredlocale` cookie, when that page exists in the canonical table and
 * is not the page requested.
 */
module RedirectPreferredLocale {
  import opened Strings
  import opened Constants
  import opened Http
  import opened Utils

  const PREFERRED_LOCALE_COOKIE := "preferredlocale"

  /** `localeAndSlugOf`: the first path segment (or "") and the remaining segments joined by `/`. */
  function LocaleAndSlugOf(pathname: string): (string, string)
  {
    var parts := Split(pathname, '/');
    (if |parts| > 1 then parts[1] else "", if |parts| >= 2 then Join(parts[2..], "/") else "")
  }

  /** The canonical-table key of the page in the preferred locale. */
  function PreferredKey(preferred: string, slug: string): string
  {
    NormalizePath("/" + preferred + "/" + slug)
  }

  /** The canonical entry for the page in the preferred locale, "" when absent. */
  function PreferredPathname(t: Tables, preferred: string, pathname: string): string
  {
    var key := PreferredKey(preferred, LocaleAndSlugOf(pathname).1);
    if key in t.canonicals then t.canonicals[key] else ""
  }

  /** What the middleware does with a request. */
  function PreferredLocale(t: Tables, req: Request): (o: Outcome)
  {
    var preferred := if PREFERRED_LOCALE_COOKIE in req.cookies then req.cookies[PREFERRED_LOCALE_COOKIE] else "";
    if preferred == "" then Next
    else
      var (locale, _) := LocaleAndSlugOf(req.pathname);
      if Lower(locale) == Lower(preferred) then Next
      else
        var target := PreferredPathname(t, preferred, req.pathname);
        if target != "" && target != req.pathname then RedirectDefault(target + req.search)
        else Next
  }

  /** A path `/{locale}/{slug}` splits into that locale and slug. */
  lemma LocaleAndSlugRoundTrip(locale: string, slug: string)
    requires '/' !in locale
    ensures LocaleAndSlugOf("/" + locale + "/" + slug) == (locale, slug)
  {
    var rest := locale + "/" + slug;
    var p := "/" + locale + "/" + slug;
    assert p == "" + ['/'] + rest;
    SplitFirst("", '/', rest);
    assert rest == locale + ['/'] + slug;
    SplitFirst(locale, '/', slug);
    var parts := Split(p, '/');
    assert parts == [""] + ([locale] + Split(slug, '/'));
    assert parts[1] == locale;
    assert parts[2..] == Split(slug, '/');
    JoinSplit(slug, '/');
  }

  /** Without a (non-empty) cookie the request is passed on. */
  lemma NoCookiePassesOn(t: Tables, req: Request)
    requires PREFERRED_LOCALE_COOKIE !in req.cookies || req.cookies[PREFERRED_LOCALE_COOKIE] == ""
    ensures PreferredLocale(t, req) == Next
  {
  }

  /** A page already in the preferred locale, in any letter case, is passed on. */
  lemma SameLocalePassesOn(t: Tables, req: Request)
    requires PREFERRED_LOCALE_COOKIE in req.cookies
    requires Lower(LocaleAndSlugOf(req.pathname).0) == Lower(req.cookies[PREFERRED_LOCALE_COOKIE])
    ensures PreferredLocale(t, req) == Next
  {
  }

  /**
   * The stage redirects exactly when the cookie names another locale and the
   * canonical table has the page in that locale at a different path; the
   * target is that table entry plus the query, with status 302 and
   * `no-store`, so it never sends the reader to a page absent from the table.
   */
  lemma RedirectsOnlyToCanonicalPages(t: Tables, req: Request)
    ensures PreferredLocale(t, req).Redirect? <==>
      PREFERRED_LOCALE_COOKIE in req.cookies && req.cookies[PREFERRED_LOCALE_COOKIE] != "" &&
      Lower(LocaleAndSlugOf(req.pathname).0) != Lower(req.cookies[PREFERRED_LOCALE_COOKIE]) &&
      PreferredPathname(t, req.cookies[PREFERRED_LOCALE_COOKIE], req.pathname) != "" &&
      PreferredPathname(t, req.cookies[PREFERRED_LOCALE_COOKIE], req.pathname) != req.pathname
    ensures PreferredLocale(t, req).Redirect? ==>
      exists key :: key in t.canonicals &&
        PreferredLocale(t, req) == Redirect(t.canonicals[key] + req.search, 302, "no-store") &&
        t.canonicals[key] != req.pathname
    ensures !PreferredLocale(t, req).Redirect? ==> PreferredLocale(t, req) == Next
  {
    if PreferredLocale(t, req).Redirect? {
      var preferred := req.cookies[PREFERRED_LOCALE_COOKIE];
      var key := PreferredKey(preferred, LocaleAndSlugOf(req.pathname).1);
      assert key in t.canonicals;
    }
  }

  /**
   * `/en-US/docs/Web` with `preferredlocale=fr` lands on `/fr/docs/Web` when
   * the canonical table lists the French page.
   */
  lemma EnglishPageToFrench(t: Tables, req: Request)
    requires t.canonicals == map["/fr/docs/web" := "/fr/docs/Web"]
    requires req.pathname == "/en-US/docs/Web" && req.search == ""
    requires req.cookies == map[PREFERRED_LOCALE_COOKIE := "fr"]
    ensures PreferredLocale(t, req) == Redirect("/fr/docs/Web", 302, "no-store")
  {
    EnglishWebPage();
    FrenchWebKey();
    RedirectsToPageInPreferredLocale(t, req, "en-US", "docs/Web", "fr");
  }

  /**
   * A page `/{locale}/{slug}` whose slug the table lists under another
   * preferred locale, at a different path, is redirected there.
   */
  lemma RedirectsToPageInPreferredLocale(t: Tables, req: Request, locale: string, slug: string, preferred: string)
    requires '/' !in locale && req.pathname == "/" + locale + "/" + slug
    requires PREFERRED_LOCALE_COOKIE in req.cookies && req.cookies[PREFERRED_LOCALE_COOKIE] == preferred
    requires preferred != "" && Lower(locale) != Lower(preferred)
    requires PreferredKey(preferred, slug) in t.canonicals
    requires t.canonicals[PreferredKey(preferred, slug)] !in {"", req.pathname}
    ensures PreferredLocale(t, req) == Redirect(t.canonicals[PreferredKey(preferred, slug)] + req.search, 302, "no-store")
  {
    LocaleAndSlugRoundTrip(locale, slug);
  }

  /** `/en-US/docs/Web` splits into `en-US` and `docs/Web`, and its locale is not `fr` in any case. */
  lemma EnglishWebPage()
    ensures "/en-US/docs/Web" == "/" + "en-US" + "/" + "docs/Web"
    ensures Lower("en-US") != Lower("fr")
  {
    assert Lower("en-US") == "en-us";
    assert Lower("fr") == "fr";
  }

  /** The key of `docs/Web` in `fr` is `/fr/docs/web`. */
  lemma FrenchWebKey()
    ensures PreferredKey("fr", "docs/Web") == "/fr/docs/web"
  {
    assert "/" + "fr" + "/" + "docs/Web" == "/fr/docs/Web";
    assert Lower("/fr/docs/Web") == "/fr/docs/web";
  }
}
