# MDN gateway and AI-help script, modelled in Dafny

This project models two parts of the MDN web-docs repository.

**The cloud-function gateway.** One Express router answers every request to
the MDN site. The model covers these parts:

- Environment (`Env`): the host names of the four origins (main, live
  samples, playground, unsafe), the upstream sources and the wildcard
  flag, and how a request is classified into an origin.
- Response headers (`Headers`): the security headers, the per-file
  headers, and the Cache-Control policy for 404s, hashed URLs and
  wildcard mode.
- Redirect helpers (`Utils`): the redirect helper, path normalisation,
  and the asset and live-sample tests.
- Locale and slug utilities (`LocaleUtils`, `SlugUtils`).
- Each middleware, as a function on the request or as a method that
  rewrites a `RequestContext` in place:
  - `RedirectLeadingSlash`, `LowercasePathname` and
    `StripForwardedHostHeaders`;
  - `RequireOrigin` and `RedirectEnforceTrailingSlash`;
  - `ResolveIndexHtml`, `RedirectMovedPages` and `RedirectNonCanonicals`;
  - `RedirectFundamental`, `RedirectLocale` and `RedirectPreferredLocale`.
- The two content proxies (`ProxyContent`, `ProxyContentAssets`), whose
  response interceptors are methods on a `Response` object. The
  not-found cache is a field of the `ContentProxy` class.
- The router (`App`): the registrations of `app.js` in their order, and
  what the order implies: which stage answers first, which route decides,
  and that the router always answers.

The data the gateway reads from generated modules (canonical paths, moved
pages, the locale registry, the attachment extensions) is the `Tables`
value. Pattern matching, cookie parsing, Accept-Language negotiation,
`sanitize-filename`, `path.join`, URI decoding and the fundamental-redirect
resolver are function parameters.

**The AI-help embedding script** (`AiHelp`, `AiHelpBcd`):

- how each built document is classified against the stored ones: full
  update, formatting update or embedding update;
- which stored documents are deleted;
- how the stored documents are paged out of the table;
- the browser-compatibility predicates, the version label, and the
  support string written for one browser.

## Model

| member | source | states |
|---|---|---|
| Env.WildcardDefaultsOff | cloud-function/src/env.js:99-101 | with WILDCARD_ENABLED unset or empty, wildcard mode is off |
| Env.UnsetOriginsShareLocalhost | cloud-function/src/env.js:40-43 | with the three origin variables unset or empty, every origin host is "localhost" (the fallbacks ConfigFromEnv reads through EnvOr) |
| Env.OriginNeedsItsHost | cloud-function/src/env.js:56-73 | OriginFromRequest answers main only on the main host, live samples only on the live-samples host, play only for a host ending in the play host; a runner page is play or unsafe, and a `_sample_.` path is never main |
| Env.SharedHostClassification | cloud-function/src/env.js:56-73 | with one shared host name, runner pages are play, live-sample paths live samples and every other path main |
| Env.OnlyLiveSamplesLackUpstream | cloud-function/src/env.js:80-91 | SourceUri gives "" exactly for the live-samples source; content, API and shared assets always have an upstream, with the documented defaults |
| Utils.RequestCountry | cloud-function/src/utils.js:15-23 | the country is the default or the CDN header's text verbatim, and "ZZ" is never taken from the header |
| Utils.RequestCountryFromHeader | cloud-function/src/utils.js:15-23 | a string header other than "ZZ" is the country |
| Utils.CacheControlDeterminesDuration | cloud-function/src/utils.js:39-44 | two durations give the same Cache-Control value iff they are equal, so the value records the duration (0 is "no-store") |
| Utils.RedirectDecision | cloud-function/src/utils.js:34-44 | RedirectTo with the given options equals RedirectDefault iff the status is 302 and the duration 0; any non-zero duration makes the response public |
| Utils.LocationKeepsQuery | cloud-function/src/utils.js:46-56 | only the path before the first `?` is encoded; the whole query text is kept verbatim and an empty query is dropped |
| Utils.LocationHeaderAsWritten | cloud-function/src/utils.js:52-56 | a location without `?` is encoded whole |
| Utils.LocationAsWrittenDropsQueryTail | cloud-function/src/utils.js:52-56 | as written, the text after a second `?` is lost from the Location header, while the corrected header keeps it |
| Utils.SendRedirect | cloud-function/src/utils.js:58 | the response gets the status, the Cache-Control value and the computed Location, is ended (headers sent), and nothing else changes |
| Utils.ExtensionAccepted | cloud-function/src/internal/constants/index.test.js:13-15 | a URL ending in `.foo` has the extension `foo` |
| Utils.ExtensionAcceptedUpperCase | cloud-function/src/internal/constants/index.test.js:17-19 | the extension test ignores letter case |
| Utils.ExtensionRejected | cloud-function/src/internal/constants/index.test.js:21-35 | intermediate, other, longer and suffix-sharing extensions are rejected |
| Utils.ExtensionAcceptedAnyCase | cloud-function/src/utils.js:73-85 | any URL whose last dot is followed by a listed extension, in any letter case, is an asset |
| Utils.ExtensionRejectedUnlessListed | cloud-function/src/utils.js:73-85 | a URL whose last dot is followed by text that is no listed extension in any case is not an asset |
| Utils.NormalizePath | cloud-function/src/utils.js:92-94 | the result is lower case, and is the lower-cased path with exactly one trailing `/` removed when it has one |
| Utils.NormalizePathStable | cloud-function/src/utils.js:92-94 | normalising is idempotent on paths that do not end in `//` |
| Headers.NoStorePrecedence | cloud-function/src/headers.js:65-72 | 404s, the service worker and `_whatsdeployed` always get "no-store", whatever the status |
| Headers.PublicCachingPolicy | cloud-function/src/headers.js:65-96 | a response is publicly cached iff it is a 2xx outside the never-cached URLs and, in wildcard mode, hashed; hashed URLs get one year, others one hour |
| Headers.OtherStatusesUncached | cloud-function/src/headers.js:74-83 | statuses outside 2xx get no Cache-Control |
| Headers.HashedFingerprint | cloud-function/src/headers.js:12 | a name with a dot, 8 to 32 lower-case hex digits and another dot is hashed |
| Headers.UndottedNotHashed | cloud-function/src/headers.js:91-96 | a URL without a dot is never hashed and is cached for the default hour |
| Headers.HashNeedsHexRun | cloud-function/src/headers.js:12 | with exactly two dots, a URL is not hashed when the part between them has the wrong length or a character outside lower-case hex |
| Headers.ContentTypeOfList | cloud-function/src/headers.js:103-107 | ParseContentType reads a string header as itself and a list header as its first value; an empty list or a missing header gives "" |
| Headers.TruthyMembers | cloud-function/src/headers.js:127 | exactly the pairs with a non-empty name and value are set |
| Headers.SetTruthyHeaders | cloud-function/src/headers.js:121-127 | the response headers become the old ones with the truthy pairs applied in order; status and sent flag unchanged |
| Headers.SetContentResponseHeaders | cloud-function/src/headers.js:117-128 | the security header list for the given csp and xFrame options is applied |
| Headers.SetFileHeaders | cloud-function/src/headers.js:42-49 | the robots header for contributor lists and the type and encoding of a 200 sitemap are applied |
| Headers.SetCacheHeader | cloud-function/src/headers.js:51-54 | the Cache-Control header is set when the policy gives a value |
| Headers.WithContentResponseHeaders | cloud-function/src/headers.js:21-57 | nothing changes once headers are sent; otherwise the security, per-file and cache headers are applied in that order |
| Headers.SecurityHeadersAlwaysSet | cloud-function/src/headers.js:121-124 | the referrer, nosniff and HSTS headers are always set |
| Headers.FramingHeaders | cloud-function/src/headers.js:31-40 | live samples get neither CSP nor X-Frame-Options; other responses get X-Frame-Options; CSP is set iff the response is HTML outside live samples and the policy is non-empty |
| Headers.CacheHeaderFollowsPolicy | cloud-function/src/headers.js:51-54 | the Cache-Control header set is exactly the policy's non-empty value, with a missing status read as 0 |
| Http.SplitUrl | cloud-function/src/middlewares/redirect-enforce-trailing-slash.js:15-17 | a URL splits into a path without `?` and a search that is empty or `?` plus text, which concatenate back to the URL |
| Http.SplitUrlOfParts | cloud-function/src/middlewares/redirect-enforce-trailing-slash.js:15-17 | a path and a well-formed search split back into themselves |
| Http.Response.SetHeader | cloud-function/src/headers.js:33 | the header is stored under its lower-cased name; status and sent flag are unchanged |
| Http.Response.SetHeaders | cloud-function/src/handlers/proxy-content-assets.js:59-61 | the headers are applied in order |
| Http.Response.SetStatus | cloud-function/src/handlers/proxy-content-assets.js:58 | only the status changes |
| RedirectLeadingSlash.NormalizedHasOneLeadingSlash | cloud-function/src/middlewares/redirect-leading-slash.js:41-43 | NormalizeLeadingSlash turns the leading run of `/` and `%2f` of a path into one `/` not followed by another separator |
| RedirectLeadingSlash.NeverDoubleSlash | cloud-function/src/middlewares/redirect-leading-slash.js:9-16 | no normalised path starts with `//`, so no redirect target is protocol-relative |
| RedirectLeadingSlash.NormalizeLeadingSlashIdempotent | cloud-function/src/middlewares/redirect-leading-slash.js:41-43 | normalising twice is normalising once |
| RedirectLeadingSlash.RedirectLeadingSlash | cloud-function/src/middlewares/redirect-leading-slash.js:26-34 | the middleware either continues or redirects (302, not cached) to the normalised URL |
| RedirectLeadingSlash.RedirectIffChanged | cloud-function/src/middlewares/redirect-leading-slash.js:26-34 | it continues iff normalising leaves the URL unchanged, i.e. iff the URL has no leading run other than one plain `/` |
| RedirectLeadingSlash.RedirectTargetPasses | cloud-function/src/middlewares/redirect-leading-slash.js:26-34 | the request for the redirect target passes the middleware |
| RedirectLeadingSlash.ManySlashesExample | cloud-function/src/middlewares/redirect-leading-slash.js:15-16 | `/////anything` becomes `/anything` |
| LowercasePathname.LowercasePathnameStage | cloud-function/src/middlewares/lowercase-pathname.js:11-21 | the request becomes its lower-cased form and the stage continues |
| LowercasePathname.OnlyThePathChanges | cloud-function/src/middlewares/lowercase-pathname.js:11-21 | only the path, url and originalUrl change, url and originalUrl agree, and the path has no upper-case letter left |
| LowercasePathname.LowercasedIdempotent | cloud-function/src/middlewares/lowercase-pathname.js:11-21 | lower-casing twice is lower-casing once |
| StripForwardedHostHeaders.Stripped | cloud-function/src/middlewares/stripForwardedHostHeaders.js:3-4 | no forwarded-host header is left, every other header is kept with its value, and none is added |
| StripForwardedHostHeaders.StripForwardedHostHeadersStage | cloud-function/src/middlewares/stripForwardedHostHeaders.js:14-19 | the request's headers become the stripped ones, the rest of the request is unchanged, and the stage continues |
| StripForwardedHostHeaders.StrippedIdempotent | cloud-function/src/middlewares/stripForwardedHostHeaders.js:14-19 | stripping twice is stripping once |
| StripForwardedHostHeaders.StrippedNames | cloud-function/src/middlewares/stripForwardedHostHeaders.js:3-4 | `X-Forwarded-For` is kept; `X-Forwarded-Host` and `Forwarded` are stripped in any case |
| RequireOrigin.WildcardPasses | cloud-function/src/middlewares/require-origin.js:14-16 | in wildcard mode every request passes |
| RequireOrigin.SampleNotServedAsMain | cloud-function/src/middlewares/require-origin.js:18-24 | a live-sample path gets 404 on a main-only route |
| RequireOrigin.GateMonotone | cloud-function/src/middlewares/require-origin.js:20 | Gate: adding expected origins never turns a passing request away |
| RedirectEnforceTrailingSlash.RedirectIffMissingSlash | cloud-function/src/middlewares/redirect-enforce-trailing-slash.js:14-28 | it redirects iff the path lacks a trailing `/` and is not an asset, to path + `/` + query with status 302 and a thirty-day cache; otherwise it continues |
| RedirectEnforceTrailingSlash.SecondPassContinues | cloud-function/src/middlewares/redirect-enforce-trailing-slash.js:14-28 | the request for the redirect location, before the Location header encodes it, has the slash added, keeps its query, and passes |
| ResolveIndexHtml.ResolveIndexHTML | cloud-function/src/middlewares/resolve-index-html.js:17-30 | the request becomes its resolved form and the stage continues |
| ResolveIndexHtml.IndexHtmlOnlyForPages | cloud-function/src/middlewares/resolve-index-html.js:19-27 | an asset folder is used as it is, any other folder has `index.html` joined on, and url equals originalUrl |
| ResolveIndexHtml.PageEndsInIndexHtml | cloud-function/src/middlewares/resolve-index-html.js:21-23 | with the path join of node, a page URL ends in `/index.html` |
| ResolveIndexHtml.QueryDropped | cloud-function/src/middlewares/resolve-index-html.js:24 | the rewritten URL is a bare path: the query is dropped |
| SlugUtils.SubstituteRemovesReserved | cloud-function/src/internal/slug-utils/index.js:15-18 | no `*`, `:` or `?` survives the substitutions |
| SlugUtils.SubstituteNoReserved | cloud-function/src/internal/slug-utils/index.js:15-18 | a slug without reserved characters is unchanged by them |
| SlugUtils.ColonSubstituted | cloud-function/src/internal/slug-utils/index.js:17 | a single `:` becomes `_colon_` |
| SlugUtils.DoubleColonSubstituted | cloud-function/src/internal/slug-utils/index.js:16 | `::` becomes `_doublecolon_`, not two `_colon_` |
| SlugUtils.StarSubstituted | cloud-function/src/internal/slug-utils/index.js:15 | `*` becomes `_star_` |
| SlugUtils.ReservedSlugsStayDistinct | cloud-function/src/internal/slug-utils/index.js:11-18 | around one separator between two parts without reserved characters, `a:b`, `a::b` and `a*b` give three different results |
| SlugUtils.SubstituteAroundSlash | cloud-function/src/internal/slug-utils/index.js:15-21 | the substitutions act segment by segment around `/` |
| SlugUtils.FolderSegmentNoSlash | cloud-function/src/internal/slug-utils/index.js:15-21 | a segment without `/` has none after substitution and lower-casing |
| SlugUtils.FolderSegmentsJoin | cloud-function/src/internal/slug-utils/index.js:15-21 | substituting and lower-casing a joined path equals doing so on each segment |
| SlugUtils.SlugToFolderSegments | cloud-function/src/internal/slug-utils/index.js:8-25 | the folder has as many segments as the slug, and segment i is the sanitised, substituted, lower-cased segment i |
| SlugUtils.DecodeEncodePath | cloud-function/src/internal/slug-utils/index.js:31-43 | decodePath inverts encodePath when the component codec escapes `/` and round-trips |
| SlugUtils.DecodePathSegments | cloud-function/src/internal/slug-utils/index.js:31-34 | decoding keeps the number of segments when the decoder yields no `/` |
| LocaleUtils.MergedCookieNames | cloud-function/src/internal/locale-utils/index.js:38-46 | a cookie is known iff some Cookie header defines it |
| LocaleUtils.LaterCookieWins | cloud-function/src/internal/locale-utils/index.js:38-46 | the last header that defines a cookie gives its value |
| LocaleUtils.AcceptLanguageEitherForm | cloud-function/src/internal/locale-utils/index.js:64-74 | AcceptLanguage reads a list header as its first value and a string header as itself, and an empty list or a missing header as null |
| LocaleUtils.CookieWins | cloud-function/src/internal/locale-utils/index.js:87-94 | a non-empty cookie naming a candidate in any case wins, with the candidate's spelling |
| LocaleUtils.NegotiationOrFallback | cloud-function/src/internal/locale-utils/index.js:96-101 | without the cookie, a usable negotiated locale is returned, and otherwise the fallback |
| LocaleUtils.GetLocaleIsCandidate | cloud-function/src/internal/locale-utils/index.js:83-102 | the result is always a candidate locale or the fallback |
| LocaleUtils.ListValuesAreCodes | cloud-function/src/internal/locale-utils/index.js:84-85 | the candidate list holds only codes of the given list |
| LocaleUtils.ListLookupIsCode | cloud-function/src/internal/locale-utils/index.js:84-93 | a lookup finds a listed code whose lower case is the key |
| LocaleUtils.ListKeyedByLowerCase | cloud-function/src/internal/locale-utils/index.js:84 | in the list KeyedByLower builds, each code is found under its lower-case form, the last spelling winning |
| LocaleUtils.IsValidLocaleIgnoresCase | cloud-function/src/internal/locale-utils/index.js:108-110 | validity ignores letter case, and a non-string is never valid |
| RedirectMovedPages.RedirectMovedPagesStage | cloud-function/src/middlewares/redirect-moved-pages.js:17-47 | the loop over the suffixes answers what the first hit decides, or continues when none hits |
| RedirectMovedPages.HitOfMovedPage | cloud-function/src/middlewares/redirect-moved-pages.js:30-43 | a key made of a moved page and a suffix hits that suffix, with the page's new location plus the suffix as target |
| RedirectMovedPages.FirstHitIsFirst | cloud-function/src/middlewares/redirect-moved-pages.js:29-44 | nothing is found iff every suffix misses; what is found comes from a suffix all of whose predecessors miss |
| RedirectMovedPages.MovedPageAlwaysRedirects | cloud-function/src/middlewares/redirect-moved-pages.js:37-42 | a moved page always gets a 301 with a thirty-day cache to some table target plus a suffix |
| RedirectMovedPages.NoHitPassesOn | cloud-function/src/middlewares/redirect-moved-pages.js:46 | without a hit the request is passed on |
| RedirectMovedPages.QueryNotCarried | cloud-function/src/middlewares/redirect-moved-pages.js:22-38 | the query takes no part in the lookup or the target |
| RedirectMovedPages.EncodedPathFindsEntry | cloud-function/src/middlewares/redirect-moved-pages.js:18-23 | a percent-encoded path is looked up as its decoded, lower-cased form |
| RedirectNonCanonicals.Candidate | cloud-function/src/middlewares/redirect-non-canonicals.js:26-45 | a suffix never yields the request path itself as target |
| RedirectNonCanonicals.RedirectNonCanonicalsStage | cloud-function/src/middlewares/redirect-non-canonicals.js:17-49 | the loop over the suffixes answers what the first candidate decides, or continues |
| RedirectNonCanonicals.FirstRedirectIsFirstHit | cloud-function/src/middlewares/redirect-non-canonicals.js:25-46 | nothing is found iff every suffix yields nothing; what is found comes from a suffix all of whose predecessors yield nothing |
| RedirectNonCanonicals.NeverRedirectsToItself | cloud-function/src/middlewares/redirect-non-canonicals.js:39-44 | a redirect never points at the request path and is always a 301 |
| RedirectNonCanonicals.CanonicalPageKept | cloud-function/src/middlewares/redirect-non-canonicals.js:34-37 | a path the table maps to itself is not redirected as a page |
| RedirectNonCanonicals.BcdIsNotIndex | cloud-function/src/middlewares/redirect-non-canonicals.js:7 | the two file suffixes never overlap |
| RedirectNonCanonicals.SuffixVariantRedirects | cloud-function/src/middlewares/redirect-non-canonicals.js:25-46 | a mis-cased `index.json` or `bcd.json` path is sent with its query to the canonical path plus the same suffix |
| RedirectNonCanonicals.JoinPathOneSlash | cloud-function/src/middlewares/redirect-non-canonicals.js:57-63 | JoinPath puts exactly one `/` between the parts when either supplies one (dropping the doubled one), and concatenates them otherwise |
| RedirectFundamental.RedirectFundamentalStage | cloud-function/src/middlewares/redirect-fundamental.js:15-36 | the stage continues iff the resolver gives no target, and otherwise answers the merged redirect |
| RedirectFundamental.EmptyQueryKeepsTarget | cloud-function/src/middlewares/redirect-fundamental.js:24-28 | without a query the resolved URL is used as it is |
| RedirectFundamental.QueryCarriedOver | cloud-function/src/middlewares/redirect-fundamental.js:24-28 | a target without a query gets the request query after `?`, and parses back into the two |
| RedirectFundamental.QueryAppendedWithAmpersand | cloud-function/src/middlewares/redirect-fundamental.js:25-27 | a target with its own query gets the request query after `&` |
| RedirectFundamental.RedirectUsesResolverStatus | cloud-function/src/middlewares/redirect-fundamental.js:29-32 | the redirect has the resolver's status, or 302 when it gives none, and a thirty-day cache |
| RedirectPreferredLocale.LocaleAndSlugRoundTrip | cloud-function/src/middlewares/redirect-preferred-locale.js:52-57 | a path `/{locale}/{slug}` splits back into that locale and slug |
| RedirectPreferredLocale.NoCookiePassesOn | cloud-function/src/middlewares/redirect-preferred-locale.js:17-22 | without a non-empty preference cookie the request is passed on |
| RedirectPreferredLocale.SameLocalePassesOn | cloud-function/src/middlewares/redirect-preferred-locale.js:28-33 | a page already in the preferred locale, in any letter case, is passed on |
| RedirectPreferredLocale.RedirectsOnlyToCanonicalPages | cloud-function/src/middlewares/redirect-preferred-locale.js:14-45 | it redirects iff the cookie names another locale and the canonical table has the page there at a different path; the target is that table entry plus the query, 302, not cached; otherwise it continues |
| RedirectPreferredLocale.RedirectsToPageInPreferredLocale | cloud-function/src/middlewares/redirect-preferred-locale.js:28-42 | a page `/{locale}/{slug}` whose slug the table lists under another preferred locale, at a different path, is redirected to that entry plus the query |
| RedirectPreferredLocale.EnglishPageToFrench | cloud-function/src/middlewares/redirect-preferred-locale.js:37-41 | with cookie `fr`, `/en-US/docs/Web` is sent to the French page the table lists |
| RedirectLocale.FilterWithPath | cloud-function/src/middlewares/redirect-locale.js:16-18 | exactly the locales whose prefixed path is a canonical page are kept |
| RedirectLocale.RedirectLocale | cloud-function/src/middlewares/redirect-locale.js:28-73 | the middleware either continues or answers a 302 that is not cached |
| RedirectLocale.InsertionTarget | cloud-function/src/middlewares/redirect-locale.js:34-53 | a path that needs a locale is sent to `/{locale}` plus the path with one trailing `/` trimmed, and the root to `/{locale}/`, with the query kept |
| RedirectLocale.InsertedLocaleRegistered | cloud-function/src/middlewares/redirect-locale.js:45-48 | the inserted locale is always a registered locale |
| RedirectLocale.SectionIsFirstSegment | cloud-function/src/middlewares/redirect-locale.js:8-9 | a section name can only match the first path segment |
| RedirectLocale.NoInsertionAfterLocale | cloud-function/src/middlewares/redirect-locale.js:36-40 | a path that starts with a locale-like segment does not need a locale |
| RedirectLocale.FirstSegmentAfterSlash | cloud-function/src/middlewares/redirect-locale.js:56-57 | the first segment of `/{v}{rest}` is `v` |
| RedirectLocale.RegisteredPrefixPasses | cloud-function/src/middlewares/redirect-locale.js:55-72 | a path under a registered locale in its own spelling passes |
| RedirectLocale.InsertionIsFixedPoint | cloud-function/src/middlewares/redirect-locale.js:34-53 | the target of an insertion is not redirected again |
| RedirectLocale.RecasingIsFixedPoint | cloud-function/src/middlewares/redirect-locale.js:60-70 | the target of a re-casing is not redirected again |
| RedirectLocale.ExtraHasNoEmptySegment | cloud-function/src/middlewares/redirect-locale.js:67-68 | the re-cased path has no empty segment after the locale |
| RedirectLocale.RootRedirects | cloud-function/src/middlewares/redirect-locale.js:50-52 | `GET /` answers 302 to the chosen locale's home page with its trailing `/` |
| RedirectLocale.FrHasHomePage | cloud-function/src/middlewares/redirect-locale.js:16-18 | `fr` is a candidate for the home page when `/fr/` is canonical |
| RedirectLocale.RegisteredLookup | cloud-function/src/internal/locale-utils/index.js:84-93 | a lower-case registered locale is found as itself among the candidates |
| RedirectLocale.CookieFrSendsRootToFr | cloud-function/src/middlewares/redirect-locale.js:45-52 | with cookie `fr`, `/` is sent to `/fr/` |
| RedirectLocale.AcceptLanguageFrSendsRootToFr | cloud-function/src/middlewares/redirect-locale.js:45-52 | with Accept-Language `fr` and no cookie, `/` is sent to `/fr/` |
| ProxyContent.RouteRequest | cloud-function/src/handlers/proxy-content.js:24-39 | the target is the bucket the router chooses, it is written to the `target` request header, and nothing else in the request changes |
| ProxyContent.SubdomainSelectsFolder | cloud-function/src/handlers/proxy-content.js:27-34 | in wildcard mode a string Host selects the folder of its first label; otherwise the default bucket is used |
| ProxyContent.FirstRun | cloud-function/src/handlers/proxy-content.js:62 | the match is a non-empty run without `/`, and there is none iff the URL is all slashes |
| ProxyContent.FirstRunOfPath | cloud-function/src/handlers/proxy-content.js:62 | the run found in `/{locale}/...` is the locale |
| ProxyContent.NotFoundLocale | cloud-function/src/handlers/proxy-content.js:62 | the locale of the 404 page is never empty (`en-us` by default) |
| ProxyContent.NotFoundFetchesAtMostTwice | cloud-function/src/handlers/proxy-content.js:77-95 | a 404 lookup fetches at most twice, only the locale's and the `en-us` page, and nothing for a cached locale, which is answered from the cache |
| ProxyContent.UncachedLocaleIsFetched | cloud-function/src/handlers/proxy-content.js:80-83 | a locale without an own cache entry is fetched first (corrected lookup) |
| ProxyContent.InheritedNameLooksCached | cloud-function/src/handlers/proxy-content.js:80-81 | as written, `constructor` looks cached in an empty cache, so the as-written lookup throws without fetching, while the corrected lookup fetches its page; `/constructor/...` requests ask for that locale |
| ProxyContent.NotFoundAsWritten | cloud-function/src/handlers/proxy-content.js:77-95 | as written, the lookup throws exactly for an inherited property name the cache does not hold; otherwise it answers with at most two fetches |
| ProxyContent.AsWrittenAgreesOffInheritedNames | cloud-function/src/handlers/proxy-content.js:77-95 | for every locale that is not an inherited property name, the as-written lookup never throws and answers exactly as NotFound |
| ProxyContent.NotFoundCacheGrows | cloud-function/src/handlers/proxy-content.js:85-91 | cache entries are only added, for the locale or `en-us`, and wildcard mode never writes the cache |
| ProxyContent.NotFoundKeepsCacheFaithful | cloud-function/src/handlers/proxy-content.js:86-88 | the cache keeps holding only successfully fetched 404 pages |
| ProxyContent.NotFoundAnswer | cloud-function/src/handlers/proxy-content.js:77-95 | outside wildcard mode the answer is the locale's or `en-us`'s fetched 404 page, or "not found" when the `en-us` page fails |
| ProxyContent.ContentProxy.constructor | cloud-function/src/handlers/proxy-content.js:13-15 | the proxy starts with the content bucket, the wildcard flag and an empty cache |
| ProxyContent.ContentProxy.Get404ForLocale | cloud-function/src/handlers/proxy-content.js:77-95 | the answer, the new cache and the fetched URLs are those of the 404 lookup |
| ProxyContent.ContentProxy.Intercept | cloud-function/src/handlers/proxy-content.js:46-67 | content headers are set; a 404 outside live samples answers the `index.html` retry with 200 and HTML when it succeeds and the locale's 404 page otherwise; any other body passes through |
| ProxyContent.TryHtmlUrlOfPath | cloud-function/src/handlers/proxy-content.js:51-53 | the retry for `/{path}` asks the bucket for `{path}/index.html` |
| ProxyContentAssets.LocaleOfUrl | cloud-function/src/handlers/proxy-content-assets.js:47 | the locale taken from the URL holds no `/` |
| ProxyContentAssets.InterceptAsset | cloud-function/src/handlers/proxy-content-assets.js:43-76 | content headers are set; a 404 under an active locale other than `en-US` is retried under `en-us`, whose success is answered with its status and headers and whose failure sends a 303 to ProductionUrl of the URL in wildcard mode; otherwise the body passes through |
| ProxyContentAssets.ResolvedUnlessPlain | cloud-function/src/handlers/proxy-content-assets.js:64-67 | ProductionUrl sends a URL with a segment starting with `.` or `%`, or with a character URL parsing rewrites, through URL resolution rather than appending it to the origin |
| ProxyContentAssets.AssetPathPrefixed | cloud-function/src/handlers/proxy-content-assets.js:64-67 | the plain asset path `/fr/docs/Web/x.png` falls back to the same path on the production origin |
| ProxyContentAssets.DotDotAssetResolved | cloud-function/src/handlers/proxy-content-assets.js:64-67 | `/fr/docs/Web/../../../x.png` is resolved, not appended to the origin as written |
| ProxyContentAssets.LocaleOfLocalePath | cloud-function/src/handlers/proxy-content-assets.js:47 | the locale of `/{l}/{rest}` is `l` |
| ProxyContentAssets.RetryReplacesLocaleSegment | cloud-function/src/handlers/proxy-content-assets.js:54-56 | the retry for `/{l}/{rest}` fetches `en-us/{rest}` from the same bucket |
| ProxyContentAssets.LowerCaseEnUsRetriesSameUrl | cloud-function/src/handlers/proxy-content-assets.js:48-56 | a missing asset under `/en-us/` is retried at the same URL, since the `en-US` test is case-sensitive |
| ProxyContentAssets.NoRetryCases | cloud-function/src/handlers/proxy-content-assets.js:48-53 | there is no retry for `en-US`, for inactive locales, for statuses other than 404, or without a locale |
| App.RunStage | cloud-function/src/app.js:45-137 | running a stage on the live request gives the outcome and the request the wired middleware defines |
| App.RunChain | cloud-function/src/app.js:37-43 | the handlers of a route run in order until one answers, as the chain function defines |
| App.HandleRequest | cloud-function/src/app.js:144-149 | the router walks the registrations in order and its answer and final request are those of the dispatch function |
| App.PreludeRunsFirst | cloud-function/src/app.js:45-47 | cookie parsing, forwarded-host stripping and the leading-slash redirect run first, in that order, and the routes see the request they leave |
| App.WiredPrelude | cloud-function/src/app.js:45-46 | the prelude parses the cookies, strips the forwarded-host headers and changes nothing else |
| App.LeadingSlashesRedirectBeforeAnyRoute | cloud-function/src/app.js:47 | a URL with a bad leading run is redirected (302, not cached) to its normalised form before any route is consulted |
| App.SkipPassingLayers | cloud-function/src/app.js:45-138 | registrations that let the request through can be skipped |
| App.SkipPassingGroup | cloud-function/src/app.js:45-138 | a group of registrations that all let the request through leaves the answer to the ones after it |
| App.FirstMatchingRouteDecides | cloud-function/src/app.js:37-43 | the first GET-only route to match decides: 405 with `Allow: GET, OPTIONS` for other methods, otherwise its chain's answer, and 405 again when every handler continues |
| App.RootRouteDecides | cloud-function/src/app.js:89 | a request for `/` that reaches the root route gets 405 for other methods and the root chain's answer otherwise |
| App.GetRootRedirects | cloud-function/src/app.js:89 | `GET /` from the main origin is answered with a 302, not cached, to a locale home page |
| App.RootChain | cloud-function/src/app.js:89 | the root chain always answers `/` with a 302 that is not cached |
| App.ChainOfChecks | cloud-function/src/app.js:109-137 | a chain that starts with checks answers with the first check that answers, and otherwise runs on with the same request |
| App.FirstAnswerCons | cloud-function/src/app.js:109-137 | one more check in front answers first when it answers |
| App.ResolveThenProxy | cloud-function/src/app.js:117-118 | every page chain ends by proxying the request with its path resolved to the stored file |
| App.DocsChecksOrder | cloud-function/src/app.js:109-116 | the docs checks answer in the registered order |
| App.DocsChainOrder | cloud-function/src/app.js:109-119 | the docs chain runs the origin gate, then the fundamental, locale, preferred-locale, trailing-slash and moved-pages redirects, the first answer winning; otherwise it proxies the resolved request |
| App.BlogChainOrder | cloud-function/src/app.js:120-127 | the blog and curriculum chain runs the origin gate, the locale redirect and the enforced trailing slash in order; otherwise it proxies the resolved request |
| App.NonCanonicalsBeforePageRoutes | cloud-function/src/app.js:108 | a request that no earlier route matched is redirected by the non-canonical redirect before any page chain runs |
| App.CatchAllShadowsRest | cloud-function/src/app.js:129-138 | no registration after a GET-only route that matches every path is ever consulted |
| App.NeverUnanswered | cloud-function/src/app.js:129-137 | a router ending in a GET-only route that matches every path always answers |
| App.NotFoundIsUnreachable | cloud-function/src/app.js:129-138 | when `*` matches every path the closing `notFound` registration makes no difference and the router always answers |
| OrderedMaps.SetHas | scripts/ai-help-macros.js:98-100 | setting a key makes it present, keeps the other keys, and gives it the new value |
| OrderedMaps.FromEntriesGet | scripts/ai-help-macros.js:98-100 | in a Map built from entries, a key holds the value of its last entry |
| OrderedMaps.FromEntriesHas | scripts/ai-help-macros.js:98-100 | a key is present iff some entry has it |
| OrderedMaps.FromEntriesEntries | scripts/ai-help-macros.js:98-100 | every entry of the Map comes from the given entries |
| AiHelp.StoredDocFoundByUrl | scripts/ai-help-macros.js:99 | in the Map Entries builds from the stored documents, a URL finds the last document with it, and a URL is present iff some stored document has it |
| AiHelp.DetermineChanges | scripts/ai-help-macros.js:97-178 | the loop builds the full, formatting and embedding updates and the seen URLs the specification functions define, and the deletions are the stored entries whose URL was not seen |
| AiHelp.UpdatesAreNewOrChangedDocs | scripts/ai-help-macros.js:127-137 | a document is queued for full update iff it is new or its text hash changed, and the update carries it with both hashes |
| AiHelp.FormattingUpdatesAreReformattedDocs | scripts/ai-help-macros.js:138-148 | a document with unchanged text gets a formatting update iff formatting is forced or its markdown hash changed; a changed document never gets one |
| AiHelp.EmbeddingUpdatesAreMissingEmbeddings | scripts/ai-help-macros.js:150-162 | with the next model configured, a document with unchanged text gets an embedding update iff it lacks the current or the next embedding, carrying both flags; a changed document never gets one |
| AiHelp.FullUpdateOnly | scripts/ai-help-macros.js:127-163 | no document is counted both as a full update and as a formatting or embedding update |
| AiHelp.DeletionsMember | scripts/ai-help-macros.js:176-178 | an entry is deleted iff its URL was not seen |
| AiHelp.DeletionsAreUnseenStoredDocs | scripts/ai-help-macros.js:175-178 | deletions are stored documents whose URL was not seen, every unseen URL is covered, and with distinct stored URLs the deletions are exactly the unseen stored documents |
| AiHelp.AtMostSplits | scripts/ai-help-macros.js:687-688 | in id order, the rows at or below an id come first and all later rows are above it |
| AiHelp.AtMostOfRow | scripts/ai-help-macros.js:724-726 | the rows up to the k-th are exactly those at or below its id |
| AiHelp.SelectDocs | scripts/ai-help-macros.js:674-718 | a page never holds more than 1000 rows |
| AiHelp.FetchAllExistingDocs | scripts/ai-help-macros.js:720-730 | paging from id 0 reads every row above id 0, in id order, with one query per full page plus one |
| AiHelp.PagesOf | scripts/ai-help-macros.js:724 | full pages plus a partial page give the page count |
| AiHelp.FetchedRows | scripts/ai-help-macros.js:722-728 | a row is fetched iff it is in the table and its id is positive |
| AiHelpBcd.SupportVerdicts | scripts/ai-help-macros.js:636-665 | a statement is never both fully supported and not supported; it gets one of the two verdicts iff it has no limitation; a major limitation is a limitation |
| AiHelpBcd.PreviewVersions | scripts/ai-help-macros.js:619-631 | `preview` is a preview, a retired release is not, and non-string versions are not |
| AiHelpBcd.LabelAsWrittenKeepsRange | scripts/ai-help-macros.js:570-572 | as written, `≤v` keeps its marker, and the three-character spelling loses only its first character |
| AiHelpBcd.LabelOfRange | scripts/ai-help-macros.js:568-572 | the range `≤v` is labelled `v` |
| AiHelpBcd.RangeReadsAsExactVersion | scripts/ai-help-macros.js:568-572 | Label reads `≤v` and `v` alike, as `v`, for any version other than `preview` |
| AiHelpBcd.LabelAsWrittenShowsVersion | scripts/ai-help-macros.js:564-577 | as written, a plain version other than `preview` is labelled as itself, and so is `≤v` with its marker kept |
| AiHelpBcd.ItemNotes | scripts/ai-help-macros.js:520-555 | no note of a statement is empty |
| AiHelpBcd.NotesNeverEmpty | scripts/ai-help-macros.js:518-557 | the support string never holds an empty note between separators |
| AiHelpBcd.NoLimitationNoNotes | scripts/ai-help-macros.js:521-553 | a statement without limitation that is not a preview has only its support verdict as a note |
| AiHelpBcd.NoSupportAlone | scripts/ai-help-macros.js:550-552 | a statement without version or limitation reads `No support` alone |
| AiHelpBcd.FullSupportAlone | scripts/ai-help-macros.js:545-549 | a statement added in a stable version without limitation or release date reads `Full support since version v` alone |
| AiHelpBcd.RemovalAndPreviewNotes | scripts/ai-help-macros.js:522-552 | a removal is not mentioned when another statement re-adds the feature in that version, a preview never reads as full support, and `No support` appears iff the statement is not supported at all |
| Strings.JoinSplit | cloud-function/src/internal/slug-utils/index.js:32 | joining the pieces of a split with the separator gives the text back |
| Strings.SplitJoin | cloud-function/src/internal/slug-utils/index.js:41 | splitting a join of separator-free pieces gives the pieces back |
| Strings.NonEmpty | scripts/ai-help-macros.js:555 | `filter(Boolean)` on strings keeps exactly the non-empty ones |
| Strings.LowerFixedPoints | cloud-function/src/utils.js:93 | Lower leaves no upper-case ASCII letter, and a text is its own lower case iff it has none |

## Left out

- I/O is outside the model: the network, the HTTP proxying, Postgres, the OpenAI embedding calls, the crawl of the build output and SHA-256 hashing. Fetch results, stored rows, built documents and the hash are values or function parameters.
- Rejected fetches (network errors) are not modelled: every fetch returns a status, headers and a body.
- Concurrency is not modelled. Two 404s for the same locale can both fetch its page before either caches it; the model runs requests one at a time.
- ProxyContent.ContentProxy.Get404ForLocale always fetches from the module's default bucket, as the source does. The model therefore keeps the default bucket apart from the per-request `target` header.
- In the router a handler is a named stage that ends the chain. The content proxy and the asset proxy answer as `Handled(name)`, and their interceptors are modelled on their own (`ProxyContent`, `ProxyContentAssets`). `app.js` imports `proxyContentAssets` from the content-proxy module, which does not export it. The model takes that handler to be the one in `proxy-content-assets.js`.
- `decodeURIComponent` throwing on a malformed escape is not modelled: URI decoding is a total function parameter.
- WHATWG URL parsing is abstract. A request carries its parsed path and query, and `Http.Parsed` ties them to its URL.
- ProxyContentAssets.ProductionUrl appends only a plain path to the production origin: one leading `/`, letters, digits and sub-delimiters, and no segment that starts with `.` or `%`. Every other URL goes through the resolution parameter `resolve`. That covers dot segments (`.`, `..` and their `%2e` spellings), `\` read as `/`, `?` and `#`, the percent-encoding of `"`, `<`, `>` and other characters, and absolute URLs. How WHATWG resolves those is not modelled.
- LowercasePathname.Lowercased rebuilds the URL from the Host header as it arrived. `URL.prototype.toString` would lower-case the host and drop a default port such as `:443`; that is not modelled.
- Utils.LocationHeader: `encodeURI` is a function parameter with no properties. The model therefore does not show what it does to a location, for example that a `%` in an already-encoded path is encoded again.
- Strings.Lower: lower-casing covers ASCII letters only. Unicode case mapping is not modelled.
- cookie-parser's signed cookies and JSON cookies are not modelled. `req.cookies` is the result of the `parse` parameter.
- Some handlers are opaque and answer as `Handled(name)`: proxyApi, handleStripePlans, proxyTelemetry, proxyPong, handleRunner and proxySharedAssets. Their files are not part of this model.
- `redirect-trailing-slash.js` is not part of this model; that middleware is the parameter `trailingSlash`.
- `internal/fundamental-redirects` is not part of this model; its resolver is the parameter `resolveFundamental`.
- `express.json()` is modelled as a stage that always continues. Body parsing is not modelled.
- Route matching follows Express 4, where `*` matches every path. It is the parameter `matches`, and App.NotFoundIsUnreachable assumes exactly that of `*`.
- HEAD requests are served by the GET handlers, as Express does. The 405 answer covers every other method except OPTIONS.
- ProxyContentAssets.InterceptAsset tests against `en-US` case-sensitively, as the source does. A missing `/en-us/` asset is therefore retried at the same URL (ProxyContentAssets.LowerCaseEnUsRetriesSameUrl).
- `buildBCDTable` and the prose of `FlagsNote` are not modelled. The flags note is the parameter `flagsNote`.
- AiHelpBcd.VersionIsPreview: the browser is never null in the model, so the source's `browser &&` test always holds.
- AiHelpBcd.IsFullySupportedWithoutLimitation and AiHelpBcd.IsNotSupportedAtAll are modelled by their truthiness. The JavaScript values they return (the version string, or the note that is truthy) are not modelled.
- AiHelpBcd.VersionIsPreview: a `releases` lookup of an inherited property name (`constructor`) finds no status among beta, nightly and planned, so the model's own-key lookup gives the same verdict.
- AiHelp.FetchAllExistingDocs requires the table rows in id order with unique ids. This is what `ORDER BY id` over the primary key delivers.
- AiHelp.FetchAllExistingDocs models a page query as a filter over the rows, not SQL. The query count is stated; the query text is not.
- Utils.SendRedirect: it sends the corrected Location header (Utils.LocationKeepsQuery); the as-written header is Utils.LocationHeaderAsWritten. Express's own work in `res.redirect` is not modelled: the `encodeurl` pass over the Location, the Content-Type, Vary and Content-Length headers and the short body.
- ProxyContent.NotFound: it models the own-key cache lookup, so an inherited property name such as `constructor` is fetched like any uncached locale. The code as written throws for those names; that behaviour is ProxyContent.NotFoundAsWritten.
- ProxyContent.NotFoundAnswer states the answer of the own-key lookup. For an inherited name the code as written throws instead (ProxyContent.NotFoundAsWritten, ProxyContent.InheritedNameLooksCached).
- ProxyContent.ContentProxy.Get404ForLocale uses the own-key lookup of ProxyContent.NotFound, not the as-written throw for inherited names.
- ProxyContent.ContentProxy.Intercept answers a 404 through Get404ForLocale, so it also uses the own-key lookup.
- AiHelpBcd.RemovedNote uses the corrected AiHelpBcd.Label, which strips the `≤` range marker. The as-written label is AiHelpBcd.LabelAsWritten.
- AiHelpBcd.ItemNotes uses the corrected AiHelpBcd.Label as well.
- RedirectFundamental.MergeQuery builds a new string. The code appends the query to the URL object the resolver returned, in place. The model assumes the resolver returns a fresh object on every call, so that no other caller sees the change.
- Env.ConfigFromEnv: reading `process.env` at module load is modelled as a function of an environment map. Only the variables the gateway's core uses are kept: the origins, the sources and the wildcard flag. Secrets, placement keys and the other settings are not modelled.
- The rest of the AI-help script is not modelled: the embedding and upload phases, the batching of database writes, and the command-line interface.

## Findings

| source | as written | input that shows it | evidently intended | confidence | as-written member | corrected member |
|---|---|---|---|---|---|---|
| cloud-function/src/utils.js:52-56 | `location.split("?", 2)` keeps only the text between the first and the second `?` as the query | `/en-US/search?q=why?` is sent as `/en-US/search?q=why` | everything after the first `?` is kept verbatim | not executed | Utils.LocationAsWrittenDropsQueryTail | Utils.LocationKeepsQuery |
| cloud-function/src/handlers/proxy-content.js:80-81 | the cache is a plain object, so `notFoundBufferCache[locale]` is truthy for names inherited from `Object.prototype` | a 404 under `/constructor/x` on an empty cache: no page is fetched, and the inherited function is handed to `Buffer.from` | only locales the cache stored count as cached (an own-key test or a `Map`) | not executed | ProxyContent.InheritedNameLooksCached | ProxyContent.UncachedLocaleIsFetched |
| scripts/ai-help-macros.js:570-572 | the range marker is spelled as three characters (`â‰¤`, the UTF-8 bytes of `≤` read as Windows-1252), and `slice(1)` drops only one character | the version `≤37` is labelled `≤37` | the version `≤37` is labelled `37` | not executed | AiHelpBcd.LabelAsWrittenKeepsRange | AiHelpBcd.LabelOfRange |
