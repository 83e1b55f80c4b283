/**
 * The request and response records the gateway's stages work on, as Express
 * and Node present them.
 *
 * A request is a value (`Request`) when a stage only reads it, and a
 * `RequestContext` object when a stage rewrites fields of the live request in
 * place. `pathname` and `search` are what parsing `url` yields (the path
 * before the first `?`, and the query with its `?`, or "" when the query is
 * empty); stages that assign `url` assign them too.
 */
module Http {
  import opened Wrappers
  import opened Strings

  /** A header as Node gives it: one string, or the list form used for repeated headers. */
  datatype HeaderValue = Text(value: string) | Entries(values: seq<string>)

  /** `verb` is the HTTP method. */
  datatype Request = Request(
    verb: string,
    protocol: string,
    hostname: string,
    url: string,
    originalUrl: string,
    pathname: string,
    search: string,
    headers: map<string, HeaderValue>,
    cookies: map<string, string>)

  /**
   * What a middleware does with a request: hand it on (`next()`), answer with
   * a redirect, or answer with a bare status (`res.sendStatus`).
   * `location` is the argument given to the redirect helper, before encoding.
   * `Handled` is a handler that answers the request itself (a proxy, or a
   * handler whose source is not part of this model).
   */
  datatype Outcome =
    | Next
    | Redirect(location: string, status: nat, cacheControl: string)
    | SendStatus(status: nat)
    | Handled(handler: string)

  /** The path and the query (with its `?`, or "" when empty) of a URL. */
  function SplitUrl(url: string): (r: (string, string))
    ensures '?' !in r.0
    ensures r.1 == "" || (r.1[0] == '?' && |r.1| >= 2)
    ensures r.0 + r.1 == url || (r.1 == "" && url == r.0 + "?")
  {
    var i := IndexOf(url, '?');
    if i < 0 then (url, "")
    else if i == |url| - 1 then (url[..i], "")
    else (url[..i], url[i..])
  }

  /** A path without `?` followed by a non-empty query parses back into the two. */
  lemma SplitUrlOfParts(path: string, query: string)
    requires '?' !in path
    requires query == "" || (query[0] == '?' && |query| >= 2)
    ensures SplitUrl(path + query) == (path, query)
  {
    var u := path + query;
    if query == "" {
      assert u == path;
    } else {
      assert u[..|path|] == path;
      IndexOfAt(u, '?', |path|);
      assert u[|path|..] == query;
    }
  }

  /** A request whose parsed fields agree with its URL. */
  predicate Parsed(r: Request)
  {
    SplitUrl(r.url) == (r.pathname, r.search)
  }

  /** The Host header as a template string shows it (`undefined` when absent). */
  function HostText(r: Request): string
  {
    if "host" !in r.headers then "undefined"
    else match r.headers["host"]
      case Text(v) => v
      case Entries(vs) => Join(vs, ",")
  }

  /** The live request object that in-place middlewares rewrite. */
  class RequestContext {
    var verb: string
    var protocol: string
    var hostname: string
    var url: string
    var originalUrl: string
    var pathname: string
    var search: string
    var headers: map<string, HeaderValue>
    var cookies: map<string, string>

    /** The request as a value. */
    function Value(): Request
      reads this
    {
      Request(verb, protocol, hostname, url, originalUrl, pathname, search, headers, cookies)
    }

    constructor (r: Request)
      ensures Value() == r
    {
      verb := r.verb;
      protocol := r.protocol;
      hostname := r.hostname;
      url := r.url;
      originalUrl := r.originalUrl;
      pathname := r.pathname;
      search := r.search;
      headers := r.headers;
      cookies := r.cookies;
    }
  }

  /**
   * The server response. Node stores header names in lower case, so
   * `headers` is keyed by the lower-cased name.
   */
  class Response {
    var statusCode: nat
    var headers: map<string, string>
    var headersSent: bool

    constructor ()
      ensures statusCode == 200 && headers == map[] && !headersSent
    {
      statusCode := 200;
      headers := map[];
      headersSent := false;
    }

    /** res.setHeader */
    method SetHeader(name: string, value: string)
      modifies this
      ensures headers == old(headers)[Lower(name) := value]
      ensures statusCode == old(statusCode) && headersSent == old(headersSent)
    {
      headers := headers[Lower(name) := value];
    }

    /** The headers once each pair of the list is set in turn. */
    static function Applied(h: map<string, string>, list: seq<(string, string)>): map<string, string>
      decreases |list|
    {
      if list == [] then h
      else Applied(h, list[..|list| - 1])[Lower(list[|list| - 1].0) := list[|list| - 1].1]
    }

    /**
     * After setting a list of headers, a name holds the value of the last
     * pair that sets it, and a name no pair sets keeps its old value.
     */
    static lemma {:induction false} AppliedValue(h: map<string, string>, list: seq<(string, string)>, k: string)
      ensures (exists i :: 0 <= i < |list| && Lower(list[i].0) == k) ==>
        k in Applied(h, list) &&
        exists i :: 0 <= i < |list| && Lower(list[i].0) == k && Applied(h, list)[k] == list[i].1 &&
          forall j :: i < j < |list| ==> Lower(list[j].0) != k
      ensures (forall i :: 0 <= i < |list| ==> Lower(list[i].0) != k) ==>
        (k in Applied(h, list) <==> k in h) && (k in h ==> Applied(h, list)[k] == h[k])
    {
      if list != [] {
        var init := list[..|list| - 1];
        AppliedValue(h, init, k);
        assert forall i :: 0 <= i < |init| ==> init[i] == list[i];
        if Lower(list[|list| - 1].0) != k && exists i :: 0 <= i < |list| && Lower(list[i].0) == k {
          var i :| 0 <= i < |list| && Lower(list[i].0) == k;
          assert i < |init| && Lower(init[i].0) == k;
        }
      }
    }

    /** Setting `a` then `b` is setting `a + b`. */
    static lemma {:induction false} AppliedConcat(h: map<string, string>, a: seq<(string, string)>, b: seq<(string, string)>)
      ensures Applied(h, a + b) == Applied(Applied(h, a), b)
      decreases |b|
    {
      if b != [] {
        var init := b[..|b| - 1];
        AppliedConcat(h, a, init);
        assert (a + b)[..|a + b| - 1] == a + init;
        assert (a + b)[|a + b| - 1] == b[|b| - 1];
      } else {
        assert a + b == a;
      }
    }

    /** `list.forEach(([k, v]) => res.setHeader(k, v))` */
    method SetHeaders(list: seq<(string, string)>)
      modifies this
      ensures headers == Applied(old(headers), list)
      ensures statusCode == old(statusCode) && headersSent == old(headersSent)
    {
      var i := 0;
      while i < |list|
        invariant 0 <= i <= |list|
        invariant headers == Applied(old(headers), list[..i])
        invariant statusCode == old(statusCode) && headersSent == old(headersSent)
      {
        assert list[..i + 1][..i] == list[..i];
        SetHeader(list[i].0, list[i].1);
        i := i + 1;
      }
      assert list[..|list|] == list;
    }

    /** res.statusCode = status */
    method SetStatus(status: nat)
      modifies this
      ensures statusCode == status
      ensures headers == old(headers) && headersSent == old(headersSent)
    {
      statusCode := status;
    }

    /** res.end: the head and the body go out, so the headers count as sent. */
    method End()
      modifies this
      ensures headersSent
      ensures headers == old(headers) && statusCode == old(statusCode)
    {
      headersSent := true;
    }
  }
}
