/**
 * The gateway's router: an ordered list of layers, each a middleware that
 * runs for every request (`router.use`), a route that runs its chain for
 * any method (`router.all`), or a GET/OPTIONS-only route (`getOnly`) that
 * answers 405 to other methods.
 *
 * As in Express, the router holds the middlewares as function values: the
 * record `Middlewares`. The lemmas about registration order hold whatever
 * those functions are; `Wire` binds them to the stages of this model, and
 * `HandleRequest` runs the stages' own methods on the live request.
 * Route-pattern matching (Express's path patterns) is the function
 * `matches`; handlers whose behaviour lies outside this model answer the
 * request as `Handled(name)`.
 */
module App {
  import opened Wrappers
  import opened Strings
  import opened Constants
  import opened Http
  import opened Env
  import opened Utils
  import LS = RedirectLeadingSlash
  import NC = RedirectNonCanonicals
  import RO = RequireOrigin
  import MP = RedirectMovedPages
  import RF = RedirectFundamental
  import RL = RedirectLocale
  import RP = RedirectPreferredLocale
  import ET = RedirectEnforceTrailingSlash
  import RI = ResolveIndexHtml
  import LP = LowercasePathname
  import SF = StripForwardedHostHeaders

  /** One middleware or handler of a chain. */
  datatype Stage =
    | CookieParser
    | StripForwardedHosts
    | LeadingSlash
    | RequireOriginOf(expected: seq<Origin>)
    | Fundamental
    | Locale
    | PreferredLocale
    | TrailingSlash
    | EnforceTrailingSlash
    | MovedPages
    | NonCanonicals
    | ResolveIndex
    | LowercasePath
    | JsonBody
    | Handler(name: string)
    | NotFound

  /** A registration on the router. */
  datatype Layer =
    | Use(stage: Stage)
    | All(patterns: seq<string>, stages: seq<Stage>)
    | GetOnly(patterns: seq<string>, stages: seq<Stage>)

  /** How the router answers: by a stage, by the 405 of a GET-only route, or not at all. */
  datatype Answer =
    | Answered(outcome: Outcome)
    | MethodNotAllowed(status: nat, allow: string)
    | Unanswered

  const ALLOW := "GET, OPTIONS"

  /** The middleware functions the router calls, and its path matcher. */
  datatype Middlewares = Middlewares(
    cookieParser: Request -> Request,
    stripForwardedHostHeaders: Request -> Request,
    redirectLeadingSlash: Request -> Outcome,
    requireOrigin: (seq<Origin>, Request) -> Outcome,
    redirectFundamental: Request -> Outcome,
    redirectLocale: Request -> Outcome,
    redirectPreferredLocale: Request -> Outcome,
    redirectTrailingSlash: Request -> Outcome,
    redirectEnforceTrailingSlash: Request -> Outcome,
    redirectMovedPages: Request -> Outcome,
    redirectNonCanonicals: Request -> Outcome,
    resolveIndexHTML: Request -> Request,
    lowercasePathname: Request -> Request,
    matches: (string, string) -> bool)

  /**
   * What the stages depend on: the tables, the configuration, and the
   * functions outside this model (`cookie.parse`, the Accept-Language
   * picker, `sanitize-filename`, `path.join`, `decodeURIComponent`,
   * `resolveFundamental`, `redirectTrailingSlash` and Express's path matching).
   */
  datatype Deps = Deps(
    tables: Tables,
    config: Config,
    parse: string -> map<string, string>,
    pick: (seq<string>, string) -> Option<string>,
    sanitize: string -> string,
    pathJoin: (string, string) -> string,
    decode: string -> string,
    resolveFundamental: string -> RF.FundamentalRedirect,
    trailingSlash: Request -> Outcome,
    matches: (string, string) -> bool)

  /** `cookieParser()`: the Cookie header parsed into `req.cookies`, empty without one. */
  function ParsedCookies(headers: map<string, HeaderValue>, parse: string -> map<string, string>): map<string, string>
  {
    if "cookie" !in headers then map[]
    else match headers["cookie"]
      case Text(v) => if v == "" then map[] else parse(v)
      case Entries(vs) => if vs == [] then map[] else parse(Join(vs, "; "))
  }

  /** The middlewares of this model, as the router calls them. */
  function Wire(d: Deps): Middlewares
  {
    Middlewares(
      (r: Request) => r.(cookies := ParsedCookies(r.headers, d.parse)),
      (r: Request) => r.(headers := SF.Stripped(r.headers)),
      r => LS.RedirectLeadingSlash(r),
      (expected, r) => RO.Gate(d.config, expected, r),
      r => RF.Fundamental(r, d.resolveFundamental, d.tables.thirtyDays),
      r => RL.RedirectLocale(d.tables, r, d.parse, d.pick),
      r => RP.PreferredLocale(d.tables, r),
      d.trailingSlash,
      r => ET.EnforceTrailingSlash(d.tables, r),
      r => MP.MovedPages(d.tables, r, d.decode),
      r => NC.NonCanonicals(d.tables, r),
      r => RI.Resolved(d.tables, r, d.sanitize, d.pathJoin),
      r => LP.Lowercased(r),
      d.matches)
  }

  /**
   * The registrations of the router, in order: the three middlewares every
   * request passes, then the backend and asset routes, the root, the live
   * samples and attachments, and the page routes behind the non-canonical
   * redirect.
   */
  function Routes(t: Tables): seq<Layer>
  {
    PRELUDE + RouteLayers(t)
  }

  /** The registrations after the prelude. */
  function RouteLayers(t: Tables): seq<Layer>
  {
    BEFORE_ROOT + ([ROOT] + (SampleRoutes(t) + PAGE_ROUTES))
  }

  const PRELUDE: seq<Layer> := [Use(CookieParser), Use(StripForwardedHosts), Use(LeadingSlash)]

  /** The backend, telemetry, playground and asset routes. */
  const BEFORE_ROOT: seq<Layer> := [
    All(STRIPE_PLANS_PATHS, STRIPE_PLANS_CHAIN),
    All(API_PATHS, API_CHAIN),
    All(TELEMETRY_PATHS, TELEMETRY_CHAIN),
    All(PONG_PATHS, PONG_CHAIN),
    All(PIMG_PATHS, PIMG_CHAIN),
    GetOnly(RUNNER_PATHS, RUNNER_CHAIN),
    GetOnly(SHARED_ASSETS_PATHS, SHARED_ASSETS_CHAIN),
    GetOnly(ASSET_PATHS, ASSET_CHAIN),
    GetOnly(SEARCH_INDEX_PATHS, SEARCH_INDEX_CHAIN)]

  const ROOT: Layer := GetOnly(ROOT_PATHS, ROOT_CHAIN)

  /** The live-sample and attachment routes. */
  function SampleRoutes(t: Tables): seq<Layer>
  {
    [GetOnly(LIVE_SAMPLE_PATHS, LIVE_SAMPLE_CHAIN), GetOnly(AttachmentPaths(t), ATTACHMENT_CHAIN)]
  }

  const CATCH_ALL: Layer := GetOnly(CATCH_ALL_PATHS, CATCH_ALL_CHAIN)

  /** The page routes, behind the non-canonical redirect, and the closing `notFound`. */
  const PAGE_ROUTES: seq<Layer> := [
    Use(NonCanonicals),
    GetOnly(DOCS_PATHS, DOCS_CHAIN),
    GetOnly(BLOG_PATHS, BLOG_CHAIN),
    CATCH_ALL,
    All(CATCH_ALL_PATHS, [NotFound])]

  const PROXY_CONTENT := "proxyContent"

  const STRIPE_PLANS_PATHS: seq<string> := ["/api/v1/stripe/plans"]
  const STRIPE_PLANS_CHAIN: seq<Stage> := [RequireOriginOf([Main]), Handler("handleStripePlans")]

  const API_PATHS: seq<string> := ["/api/*", "/admin-api/*", "/events/fxa", "/users/fxa/*"]
  const API_CHAIN: seq<Stage> := [RequireOriginOf([Main]), Handler("proxyApi")]

  const TELEMETRY_PATHS: seq<string> := ["/submit/mdn-dex/*"]
  const TELEMETRY_CHAIN: seq<Stage> := [RequireOriginOf([Main]), Handler("proxyTelemetry")]

  const PONG_PATHS: seq<string> := ["/pong/*"]
  const PONG_CHAIN: seq<Stage> := [RequireOriginOf([Main]), JsonBody, Handler("proxyPong")]

  const PIMG_PATHS: seq<string> := ["/pimg/*"]
  const PIMG_CHAIN: seq<Stage> := [RequireOriginOf([Main]), Handler("proxyPong")]

  const RUNNER_PATHS: seq<string> := ["/[^/]+/docs/*/runner.html", "/[^/]+/blog/*/runner.html", "/runner.html"]
  const RUNNER_CHAIN: seq<Stage> := [RequireOriginOf([Play]), Handler("handleRunner")]

  const SHARED_ASSETS_PATHS: seq<string> := ["/shared-assets/*"]
  const SHARED_ASSETS_CHAIN: seq<Stage> := [RequireOriginOf([Play, Main, LiveSamples]), Handler("proxySharedAssets")]

  const ASSET_PATHS: seq<string> := ["/assets/*", "/sitemaps/*", "/static/*", "/[^/]+.[^/]+"]
  const ASSET_CHAIN: seq<Stage> := [RequireOriginOf([Main]), Handler(PROXY_CONTENT)]

  const SEARCH_INDEX_PATHS: seq<string> := ["/[^/]+/search-index.json"]
  const SEARCH_INDEX_CHAIN: seq<Stage> := [RequireOriginOf([Main]), LowercasePath, Handler(PROXY_CONTENT)]

  const ROOT_PATHS: seq<string> := ["/"]
  const ROOT_CHAIN: seq<Stage> := [RequireOriginOf([Main]), Locale]

  const LIVE_SAMPLE_PATHS: seq<string> := ["/[^/]+/docs/*/_sample_.*.html", "/[^/]+/blog/*/_sample_.*.html"]
  const LIVE_SAMPLE_CHAIN: seq<Stage> := [RequireOriginOf([LiveSamples]), ResolveIndex, Handler(PROXY_CONTENT)]

  /** The attachment patterns, built from the attachment extensions joined by `|`. */
  function AttachmentPaths(t: Tables): seq<string>
  {
    var attachments := "*.(" + Join(t.attachmentExt, "|") + ")";
    ["/[^/]+/docs/*/" + attachments, "/[^/]+/blog/*/" + attachments]
  }
  const ATTACHMENT_CHAIN: seq<Stage> :=
    [RequireOriginOf([Main, LiveSamples, Play]), ResolveIndex, Handler("proxyContentAssets")]

  const DOCS_PATHS: seq<string> := ["/[^/]+/docs/*"]
  const DOCS_CHAIN: seq<Stage> := [
    RequireOriginOf([Main]), Fundamental, Locale, PreferredLocale, TrailingSlash, MovedPages, ResolveIndex,
    Handler(PROXY_CONTENT)]

  const BLOG_PATHS: seq<string> := ["/[^/]+/blog($|/*)", "/[^/]+/curriculum($|/*)"]
  const BLOG_CHAIN: seq<Stage> := [
    RequireOriginOf([Main]), Locale, EnforceTrailingSlash, ResolveIndex, Handler(PROXY_CONTENT)]

  const CATCH_ALL_PATHS: seq<string> := ["*"]
  const CATCH_ALL_CHAIN: seq<Stage> := [
    RequireOriginOf([Main]), Fundamental, Locale, TrailingSlash, ResolveIndex, Handler(PROXY_CONTENT)]

  /** What one stage does to a request: its outcome and the request it leaves. */
  function Step(m: Middlewares, s: Stage, r: Request): (Outcome, Request)
  {
    match s
    case CookieParser => (Next, m.cookieParser(r))
    case StripForwardedHosts => (Next, m.stripForwardedHostHeaders(r))
    case LeadingSlash => (m.redirectLeadingSlash(r), r)
    case RequireOriginOf(expected) => (m.requireOrigin(expected, r), r)
    case Fundamental => (m.redirectFundamental(r), r)
    case Locale => (m.redirectLocale(r), r)
    case PreferredLocale => (m.redirectPreferredLocale(r), r)
    case TrailingSlash => (m.redirectTrailingSlash(r), r)
    case EnforceTrailingSlash => (m.redirectEnforceTrailingSlash(r), r)
    case MovedPages => (m.redirectMovedPages(r), r)
    case NonCanonicals => (m.redirectNonCanonicals(r), r)
    case ResolveIndex => (Next, m.resolveIndexHTML(r))
    case LowercasePath => (Next, m.lowercasePathname(r))
    case JsonBody => (Next, r)
    case Handler(name) => (Handled(name), r)
    case NotFound => (SendStatus(404), r)
  }

  /** A chain runs its stages in order until one of them answers. */
  function Chain(m: Middlewares, stages: seq<Stage>, r: Request): (Outcome, Request)
  {
    if stages == [] then (Next, r)
    else
      var step := Step(m, stages[0], r);
      if step.0 != Next then step else Chain(m, stages[1..], step.1)
  }

  /** Some pattern of the list matches the path. */
  predicate Matches(m: Middlewares, patterns: seq<string>, path: string)
  {
    exists i :: 0 <= i < |patterns| && m.matches(patterns[i], path)
  }

  /** Methods a GET-only route serves: GET, HEAD (served by the GET handlers) and OPTIONS. */
  predicate ServedByGet(verb: string)
  {
    verb == "GET" || verb == "HEAD" || verb == "OPTIONS"
  }

  /** How the router answers a request, and the request as the answering stage leaves it. */
  function Dispatch(m: Middlewares, layers: seq<Layer>, r: Request): (Answer, Request)
  {
    if layers == [] then (Unanswered, r)
    else match layers[0]
      case Use(s) =>
        var step := Step(m, s, r);
        if step.0 != Next then (Answered(step.0), step.1) else Dispatch(m, layers[1..], step.1)
      case All(ps, ss) =>
        if !Matches(m, ps, r.pathname) then Dispatch(m, layers[1..], r)
        else
          var c := Chain(m, ss, r);
          if c.0 != Next then (Answered(c.0), c.1) else Dispatch(m, layers[1..], c.1)
      case GetOnly(ps, ss) =>
        if !Matches(m, ps, r.pathname) then Dispatch(m, layers[1..], r)
        else if !ServedByGet(r.verb) then (MethodNotAllowed(405, ALLOW), r)
        else
          var c := Chain(m, ss, r);
          if c.0 != Next then (Answered(c.0), c.1) else (MethodNotAllowed(405, ALLOW), c.1)
  }

  /** Runs one stage on the live request, with the stage's own method where it has one. */
  method RunStage(ctx: RequestContext, d: Deps, s: Stage) returns (o: Outcome)
    modifies ctx
    ensures (o, ctx.Value()) == Step(Wire(d), s, old(ctx.Value()))
  {
    match s
    case CookieParser =>
      ctx.cookies := ParsedCookies(ctx.headers, d.parse);
      o := Next;
    case StripForwardedHosts =>
      o := SF.StripForwardedHostHeadersStage(ctx);
    case LeadingSlash =>
      o := LS.RedirectLeadingSlash(ctx.Value());
    case RequireOriginOf(expected) =>
      o := RO.Gate(d.config, expected, ctx.Value());
    case Fundamental =>
      o := RF.RedirectFundamentalStage(ctx.Value(), d.resolveFundamental, d.tables.thirtyDays);
    case Locale =>
      o := RL.RedirectLocale(d.tables, ctx.Value(), d.parse, d.pick);
    case PreferredLocale =>
      o := RP.PreferredLocale(d.tables, ctx.Value());
    case TrailingSlash =>
      o := d.trailingSlash(ctx.Value());
    case EnforceTrailingSlash =>
      o := ET.EnforceTrailingSlash(d.tables, ctx.Value());
    case MovedPages =>
      o := MP.RedirectMovedPagesStage(d.tables, ctx.Value(), d.decode);
    case NonCanonicals =>
      o := NC.RedirectNonCanonicalsStage(d.tables, ctx.Value());
    case ResolveIndex =>
      o := RI.ResolveIndexHTML(ctx, d.tables, d.sanitize, d.pathJoin);
    case LowercasePath =>
      o := LP.LowercasePathnameStage(ctx);
    case JsonBody =>
      o := Next;
    case Handler(name) =>
      o := Handled(name);
    case NotFound =>
      o := SendStatus(404);
  }

  /** Runs a chain stage by stage until a stage answers. */
  method RunChain(ctx: RequestContext, d: Deps, stages: seq<Stage>) returns (o: Outcome)
    modifies ctx
    ensures (o, ctx.Value()) == Chain(Wire(d), stages, old(ctx.Value()))
  {
    var i := 0;
    while i < |stages|
      invariant 0 <= i <= |stages|
      invariant Chain(Wire(d), stages, old(ctx.Value())) == Chain(Wire(d), stages[i..], ctx.Value())
    {
      o := RunStage(ctx, d, stages[i]);
      if o != Next {
        return;
      }
      i := i + 1;
    }
    o := Next;
  }

  /** The router: it walks the layers in registration order. */
  method HandleRequest(ctx: RequestContext, d: Deps, layers: seq<Layer>) returns (a: Answer)
    modifies ctx
    ensures (a, ctx.Value()) == Dispatch(Wire(d), layers, old(ctx.Value()))
  {
    var i := 0;
    while i < |layers|
      invariant 0 <= i <= |layers|
      invariant Dispatch(Wire(d), layers, old(ctx.Value())) == Dispatch(Wire(d), layers[i..], ctx.Value())
    {
      match layers[i] {
        case Use(s) =>
          var o := RunStage(ctx, d, s);
          if o != Next {
            return Answered(o);
          }
        case All(ps, ss) =>
          if Matches(Wire(d), ps, ctx.pathname) {
            var o := RunChain(ctx, d, ss);
            if o != Next {
              return Answered(o);
            }
          }
        case GetOnly(ps, ss) =>
          if Matches(Wire(d), ps, ctx.pathname) {
            if ServedByGet(ctx.verb) {
              var o := RunChain(ctx, d, ss);
              if o != Next {
                return Answered(o);
              }
            }
            return MethodNotAllowed(405, ALLOW);
          }
      }
      i := i + 1;
    }
    return Unanswered;
  }

  /** The request once the two request-rewriting middlewares registered first have run. */
  function Prelude(m: Middlewares, r: Request): Request
  {
    m.stripForwardedHostHeaders(m.cookieParser(r))
  }

  /**
   * Cookie parsing, forwarded-host stripping and the leading-slash redirect
   * run first, in that order: the leading-slash redirect sees the parsed
   * cookies and the stripped headers, and if it does not answer, the routes
   * see the same request.
   */
  lemma PreludeRunsFirst(m: Middlewares, t: Tables, r: Request)
    ensures var p := Prelude(m, r);
      Dispatch(m, Routes(t), r) ==
        if m.redirectLeadingSlash(p) != Next then (Answered(m.redirectLeadingSlash(p)), p)
        else Dispatch(m, RouteLayers(t), p)
  {
    var rs := Routes(t);
    var c := m.cookieParser(r);
    assert rs[0] == Use(CookieParser);
    assert rs[1..] == [Use(StripForwardedHosts), Use(LeadingSlash)] + RouteLayers(t);
    assert Dispatch(m, rs, r) == Dispatch(m, rs[1..], c);
    assert rs[1..][1..] == [Use(LeadingSlash)] + RouteLayers(t);
    assert Dispatch(m, rs[1..], c) == Dispatch(m, rs[1..][1..], Prelude(m, r));
    assert rs[1..][1..][1..] == RouteLayers(t);
  }

  /** The prelude of this model parses the cookies, strips the forwarded-host headers and keeps the rest. */
  lemma WiredPrelude(d: Deps, r: Request)
    ensures Prelude(Wire(d), r) == r.(cookies := ParsedCookies(r.headers, d.parse), headers := SF.Stripped(r.headers))
  {
  }

  /**
   * A URL with a leading run of `/` or `%2f` other than one plain `/` is
   * redirected (302, not cached) to its normalised form before any route is
   * consulted.
   */
  lemma LeadingSlashesRedirectBeforeAnyRoute(d: Deps, r: Request)
    requires LS.NormalizeLeadingSlash(r.url) != r.url
    ensures Dispatch(Wire(d), Routes(d.tables), r).0 == Answered(RedirectDefault(LS.NormalizeLeadingSlash(r.url)))
  {
    PreludeRunsFirst(Wire(d), d.tables, r);
    WiredPrelude(d, r);
  }

  /** A layer that lets a request through untouched: a middleware that continues, or a route that does not match. */
  predicate Passes(m: Middlewares, layer: Layer, r: Request)
  {
    if layer.Use? then Step(m, layer.stage, r) == (Next, r) else !Matches(m, layer.patterns, r.pathname)
  }

  /** Layers that let a request through can be skipped. */
  lemma {:induction false} SkipPassingLayers(m: Middlewares, layers: seq<Layer>, r: Request, k: nat)
    requires k <= |layers|
    requires forall i :: 0 <= i < k ==> Passes(m, layers[i], r)
    ensures Dispatch(m, layers, r) == Dispatch(m, layers[k..], r)
  {
    if k > 0 {
      assert Passes(m, layers[0], r);
      assert Dispatch(m, layers, r) == Dispatch(m, layers[1..], r);
      forall i | 0 <= i < k - 1 ensures Passes(m, layers[1..][i], r) {
        assert layers[1..][i] == layers[i + 1];
      }
      SkipPassingLayers(m, layers[1..], r, k - 1);
      assert layers[1..][k - 1..] == layers[k..];
    }
  }

  /** A group of registrations that all let the request through leaves the answer to the ones after it. */
  lemma SkipPassingGroup(m: Middlewares, group: seq<Layer>, rest: seq<Layer>, r: Request)
    requires forall i :: 0 <= i < |group| ==> Passes(m, group[i], r)
    ensures Dispatch(m, group + rest, r) == Dispatch(m, rest, r)
  {
    forall i | 0 <= i < |group| ensures Passes(m, (group + rest)[i], r) {
      assert (group + rest)[i] == group[i];
    }
    SkipPassingLayers(m, group + rest, r, |group|);
    assert (group + rest)[|group|..] == rest;
  }

  /**
   * The first route to match decides: a GET-only route answers any method
   * other than GET, HEAD and OPTIONS with 405 and `Allow: GET, OPTIONS`,
   * and otherwise runs its chain, answering 405 as well when every stage
   * of it continues.
   */
  lemma FirstMatchingRouteDecides(m: Middlewares, layers: seq<Layer>, r: Request, k: nat)
    requires k < |layers| && layers[k].GetOnly?
    requires forall i :: 0 <= i < k ==> Passes(m, layers[i], r)
    requires Matches(m, layers[k].patterns, r.pathname)
    ensures var a := Dispatch(m, layers, r);
      var c := Chain(m, layers[k].stages, r);
      if !ServedByGet(r.verb) then a == (MethodNotAllowed(405, "GET, OPTIONS"), r)
      else if c.0 != Next then a == (Answered(c.0), c.1)
      else a == (MethodNotAllowed(405, "GET, OPTIONS"), c.1)
  {
    SkipPassingLayers(m, layers, r, k);
    assert layers[k..][0] == layers[k];
  }

  /**
   * A request for `/` that reaches the routes and that no backend or asset
   * route matches is decided by the root route: 405 for methods other than
   * GET, HEAD and OPTIONS, otherwise the answer of its chain.
   */
  lemma RootRouteDecides(m: Middlewares, t: Tables, r: Request)
    requires m.redirectLeadingSlash(Prelude(m, r)) == Next
    requires forall i :: 0 <= i < |BEFORE_ROOT| ==> Passes(m, BEFORE_ROOT[i], Prelude(m, r))
    requires m.matches("/", Prelude(m, r).pathname)
    ensures var p := Prelude(m, r);
      var a := Dispatch(m, Routes(t), r).0;
      var c := Chain(m, ROOT_CHAIN, p).0;
      if !ServedByGet(p.verb) then a == MethodNotAllowed(405, "GET, OPTIONS")
      else if c != Next then a == Answered(c)
      else a == MethodNotAllowed(405, "GET, OPTIONS")
  {
    var p := Prelude(m, r);
    var rest := [ROOT] + (SampleRoutes(t) + PAGE_ROUTES);
    PreludeRunsFirst(m, t, r);
    SkipPassingGroup(m, BEFORE_ROOT, rest, p);
    assert Matches(m, rest[0].patterns, p.pathname) by {
      assert rest[0].patterns[0] == "/";
    }
    FirstMatchingRouteDecides(m, rest, p, 0);
  }

  /**
   * `GET /` from the main origin, with no earlier route matching `/`, is
   * redirected (302, not cached) to the chosen locale's home page.
   */
  lemma GetRootRedirects(d: Deps, r: Request)
    requires r.verb == "GET" && r.url == "/" && r.pathname == "/"
    requires d.config.wildcard || OriginFromRequest(d.config, r.hostname, "/") == Main
    requires forall i :: 0 <= i < |BEFORE_ROOT| ==> Passes(Wire(d), BEFORE_ROOT[i], Prelude(Wire(d), r))
    requires d.matches("/", "/")
    ensures var a := Dispatch(Wire(d), Routes(d.tables), r).0;
      a.Answered? && a.outcome.Redirect? && a.outcome.status == 302 && a.outcome.cacheControl == "no-store"
  {
    var m := Wire(d);
    var p := Prelude(m, r);
    RootPrelude(d, r);
    RootChain(d, p);
    RootRouteDecides(m, d.tables, r);
  }

  /** For `/` the prelude keeps the path and the host, and the leading-slash redirect continues. */
  lemma RootPrelude(d: Deps, r: Request)
    requires r.url == "/" && r.pathname == "/"
    ensures var p := Prelude(Wire(d), r);
      p.pathname == "/" && p.hostname == r.hostname && p.verb == r.verb &&
      Wire(d).redirectLeadingSlash(p) == Next
  {
    var p := Prelude(Wire(d), r);
    WiredPrelude(d, r);
    LS.RedirectIffChanged(p);
  }

  /** The root chain: the origin gate, then the locale redirect, which always answers for `/`. */
  lemma RootChain(d: Deps, p: Request)
    requires p.pathname == "/"
    requires d.config.wildcard || OriginFromRequest(d.config, p.hostname, "/") == Main
    ensures var c := Chain(Wire(d), ROOT_CHAIN, p).0;
      c.Redirect? && c.status == 302 && c.cacheControl == "no-store"
  {
    RL.RootRedirects(d.tables, p, d.parse, d.pick);
    assert ROOT_CHAIN[1..] == [Locale];
  }

  /** A stage that answers or continues without rewriting the request. */
  predicate Check(s: Stage)
  {
    !(s.CookieParser? || s.StripForwardedHosts? || s.ResolveIndex? || s.LowercasePath?)
  }

  /** The outcome of the first of a list of checks that answers, `Next` when none does. */
  function FirstAnswer(m: Middlewares, checks: seq<Stage>, r: Request): Outcome
  {
    if checks == [] then Next
    else if Step(m, checks[0], r).0 != Next then Step(m, checks[0], r).0
    else FirstAnswer(m, checks[1..], r)
  }

  /** A chain that starts with checks answers with the first of them that answers, or runs on. */
  lemma {:induction false} ChainOfChecks(m: Middlewares, checks: seq<Stage>, tail: seq<Stage>, r: Request)
    requires forall i :: 0 <= i < |checks| ==> Check(checks[i])
    ensures Chain(m, checks + tail, r) ==
      if FirstAnswer(m, checks, r) != Next then (FirstAnswer(m, checks, r), r) else Chain(m, tail, r)
  {
    if checks != [] {
      assert (checks + tail)[0] == checks[0];
      assert (checks + tail)[1..] == checks[1..] + tail;
      ChainOfChecks(m, checks[1..], tail, r);
    } else {
      assert checks + tail == tail;
    }
  }

  /** One more check in front of a list of checks. */
  lemma FirstAnswerCons(m: Middlewares, s: Stage, rest: seq<Stage>, r: Request)
    ensures FirstAnswer(m, [s] + rest, r) ==
      if Step(m, s, r).0 != Next then Step(m, s, r).0 else FirstAnswer(m, rest, r)
  {
    assert ([s] + rest)[1..] == rest;
  }

  /** The end of every page chain: the path is resolved to the stored file, and the content proxy answers. */
  lemma ResolveThenProxy(m: Middlewares, r: Request)
    ensures Chain(m, [ResolveIndex, Handler(PROXY_CONTENT)], r) == (Handled(PROXY_CONTENT), m.resolveIndexHTML(r))
  {
    assert [ResolveIndex, Handler(PROXY_CONTENT)][1..] == [Handler(PROXY_CONTENT)];
  }

  /** The checks of the docs chain, before the path is resolved. */
  const DOCS_CHECKS: seq<Stage> := [RequireOriginOf([Main]), Fundamental, Locale, PreferredLocale, TrailingSlash, MovedPages]

  /** The first of the docs checks to answer. */
  lemma DocsChecksOrder(m: Middlewares, r: Request)
    ensures FirstAnswer(m, DOCS_CHECKS, r) ==
      if m.requireOrigin([Main], r) != Next then m.requireOrigin([Main], r)
      else if m.redirectFundamental(r) != Next then m.redirectFundamental(r)
      else if m.redirectLocale(r) != Next then m.redirectLocale(r)
      else if m.redirectPreferredLocale(r) != Next then m.redirectPreferredLocale(r)
      else if m.redirectTrailingSlash(r) != Next then m.redirectTrailingSlash(r)
      else m.redirectMovedPages(r)
  {
    var c3: seq<Stage> := [PreferredLocale, TrailingSlash, MovedPages];
    var c2 := [Locale] + c3;
    var c1 := [Fundamental] + c2;
    assert DOCS_CHECKS == [RequireOriginOf([Main])] + c1;
    FirstAnswerCons(m, RequireOriginOf([Main]), c1, r);
    FirstAnswerCons(m, Fundamental, c2, r);
    FirstAnswerCons(m, Locale, c3, r);
    DocsChecksTail(m, r);
  }

  /** The last three docs checks: preferred locale, trailing slash, moved pages. */
  lemma DocsChecksTail(m: Middlewares, r: Request)
    ensures FirstAnswer(m, [PreferredLocale, TrailingSlash, MovedPages], r) ==
      if m.redirectPreferredLocale(r) != Next then m.redirectPreferredLocale(r)
      else if m.redirectTrailingSlash(r) != Next then m.redirectTrailingSlash(r)
      else m.redirectMovedPages(r)
  {
    var c5: seq<Stage> := [MovedPages];
    var c4 := [TrailingSlash] + c5;
    assert [PreferredLocale, TrailingSlash, MovedPages] == [PreferredLocale] + c4;
    FirstAnswerCons(m, PreferredLocale, c4, r);
    FirstAnswerCons(m, TrailingSlash, c5, r);
    FirstAnswerCons(m, MovedPages, [], r);
    assert [MovedPages] + [] == c5;
  }

  /**
   * The docs chain: the origin gate, then the fundamental, locale,
   * preferred-locale, trailing-slash and moved-pages redirects, in that
   * order; the first to answer wins, and a request none of them redirects
   * is proxied with its path resolved to the stored file.
   */
  lemma DocsChainOrder(m: Middlewares, r: Request)
    ensures var g := m.requireOrigin([Main], r);
      var f := m.redirectFundamental(r);
      var l := m.redirectLocale(r);
      var pl := m.redirectPreferredLocale(r);
      var ts := m.redirectTrailingSlash(r);
      var mp := m.redirectMovedPages(r);
      Chain(m, DOCS_CHAIN, r) ==
        if g != Next then (g, r)
        else if f != Next then (f, r)
        else if l != Next then (l, r)
        else if pl != Next then (pl, r)
        else if ts != Next then (ts, r)
        else if mp != Next then (mp, r)
        else (Handled(PROXY_CONTENT), m.resolveIndexHTML(r))
  {
    assert DOCS_CHAIN == DOCS_CHECKS + [ResolveIndex, Handler(PROXY_CONTENT)];
    ChainOfChecks(m, DOCS_CHECKS, [ResolveIndex, Handler(PROXY_CONTENT)], r);
    ResolveThenProxy(m, r);
    DocsChecksOrder(m, r);
  }

  /**
   * The blog and curriculum chain: the origin gate, then the locale redirect,
   * then the enforced trailing slash; otherwise the resolved request is proxied.
   */
  lemma BlogChainOrder(m: Middlewares, r: Request)
    ensures var g := m.requireOrigin([Main], r);
      var l := m.redirectLocale(r);
      var e := m.redirectEnforceTrailingSlash(r);
      Chain(m, BLOG_CHAIN, r) ==
        if g != Next then (g, r)
        else if l != Next then (l, r)
        else if e != Next then (e, r)
        else (Handled(PROXY_CONTENT), m.resolveIndexHTML(r))
  {
    var c2: seq<Stage> := [EnforceTrailingSlash];
    var c1 := [Locale] + c2;
    var checks := [RequireOriginOf([Main])] + c1;
    assert BLOG_CHAIN == checks + [ResolveIndex, Handler(PROXY_CONTENT)];
    ChainOfChecks(m, checks, [ResolveIndex, Handler(PROXY_CONTENT)], r);
    ResolveThenProxy(m, r);
    FirstAnswerCons(m, RequireOriginOf([Main]), c1, r);
    FirstAnswerCons(m, Locale, c2, r);
    FirstAnswerCons(m, EnforceTrailingSlash, [], r);
    assert [EnforceTrailingSlash] + [] == c2;
  }

  /**
   * The non-canonical redirect runs after the asset, live-sample and
   * attachment routes and before the page routes: a request none of the
   * earlier routes matched is redirected by it before any page chain runs.
   */
  lemma NonCanonicalsBeforePageRoutes(m: Middlewares, t: Tables, r: Request)
    requires m.redirectLeadingSlash(Prelude(m, r)) == Next
    requires forall i :: 0 <= i < |BEFORE_ROOT| ==> Passes(m, BEFORE_ROOT[i], Prelude(m, r))
    requires Passes(m, ROOT, Prelude(m, r))
    requires forall i :: 0 <= i < |SampleRoutes(t)| ==> Passes(m, SampleRoutes(t)[i], Prelude(m, r))
    requires m.redirectNonCanonicals(Prelude(m, r)) != Next
    ensures Dispatch(m, Routes(t), r).0 == Answered(m.redirectNonCanonicals(Prelude(m, r)))
  {
    var p := Prelude(m, r);
    PreludeRunsFirst(m, t, r);
    SkipPassingGroup(m, BEFORE_ROOT, [ROOT] + (SampleRoutes(t) + PAGE_ROUTES), p);
    SkipPassingGroup(m, [ROOT], SampleRoutes(t) + PAGE_ROUTES, p);
    SkipPassingGroup(m, SampleRoutes(t), PAGE_ROUTES, p);
    assert PAGE_ROUTES[0] == Use(NonCanonicals);
  }

  /** Nothing after a GET-only route that matches every path is ever consulted. */
  lemma {:induction false} CatchAllShadowsRest(m: Middlewares, layers: seq<Layer>, r: Request, k: nat)
    requires k < |layers| && layers[k].GetOnly?
    requires forall path :: Matches(m, layers[k].patterns, path)
    ensures Dispatch(m, layers, r) == Dispatch(m, layers[..k + 1], r)
  {
    if k == 0 {
      assert layers[..1][0] == layers[0];
      assert Matches(m, layers[0].patterns, r.pathname);
    } else {
      assert layers[..k + 1][0] == layers[0];
      assert layers[..k + 1][1..] == layers[1..][..k];
      forall rr | true ensures Dispatch(m, layers[1..], rr) == Dispatch(m, layers[1..][..k], rr) {
        CatchAllShadowsRest(m, layers[1..], rr, k - 1);
      }
    }
  }

  /** A router whose last layer is a GET-only route matching every path always answers. */
  lemma {:induction false} NeverUnanswered(m: Middlewares, layers: seq<Layer>, last: Layer, r: Request)
    requires layers != [] && layers[|layers| - 1] == last && last.GetOnly?
    requires forall path :: Matches(m, last.patterns, path)
    ensures Dispatch(m, layers, r).0 != Unanswered
  {
    if |layers| == 1 {
      assert Matches(m, layers[0].patterns, r.pathname);
    } else {
      assert layers[1..][|layers[1..]| - 1] == last;
      forall rr | true ensures Dispatch(m, layers[1..], rr).0 != Unanswered {
        NeverUnanswered(m, layers[1..], last, rr);
      }
    }
  }

  /**
   * When `*` matches every path, the closing `notFound` registration is
   * never reached: the catch-all GET-only route answers every request that
   * gets that far, so the router always answers.
   */
  lemma NotFoundIsUnreachable(m: Middlewares, t: Tables, r: Request)
    requires forall path :: m.matches("*", path)
    ensures Dispatch(m, Routes(t), r) == Dispatch(m, Routes(t)[..|Routes(t)| - 1], r)
    ensures Dispatch(m, Routes(t), r).0 != Unanswered
  {
    var rs := Routes(t);
    var k := |rs| - 2;
    assert |rs| == 20;
    assert rs[k] == CATCH_ALL;
    forall path ensures Matches(m, CATCH_ALL.patterns, path) {
      assert CATCH_ALL.patterns[0] == "*";
    }
    CatchAllShadowsRest(m, rs, r, k);
    assert rs[..k + 1][k] == CATCH_ALL;
    NeverUnanswered(m, rs[..k + 1], CATCH_ALL, r);
  }
}
