/**
 * Rewrites a document request to the storage path of its `index.html`: the
 * path becomes a folder name (see `SlugUtils.SlugToFolder`), a non-asset
 * folder gets `index.html` joined on, and both `url` and `originalUrl`
 * become that path, so the query is dropped. `path.join` is the parameter
 * `pathJoin` and the filename sanitiser the parameter `sanitize`.
 */
module ResolveIndexHtml {
  import opened Strings
  import opened Constants
  import opened Http
  import opened Utils
  import opened SlugUtils

  /** The storage path the request is rewritten to. */
  function IndexPath(t: Tables, pathname: string, sanitize: string -> string, pathJoin: (string, string) -> string): string
  {
    var folder := SlugToFolderDefault(pathname, sanitize);
    if IsAsset(t, folder) then folder else pathJoin(folder, "index.html")
  }

  /** The request after the stage. */
  function Resolved(t: Tables, r: Request, sanitize: string -> string, pathJoin: (string, string) -> string): Request
  {
    if r.pathname == "" then r
    else
      var p := IndexPath(t, r.pathname, sanitize, pathJoin);
      r.(url := p, originalUrl := p, pathname := SplitUrl(p).0, search := SplitUrl(p).1)
  }

  /** The middleware; it always continues. */
  method ResolveIndexHTML(
    ctx: RequestContext, t: Tables, sanitize: string -> string, pathJoin: (string, string) -> string)
    returns (o: Outcome)
    modifies ctx
    ensures ctx.Value() == Resolved(t, old(ctx.Value()), sanitize, pathJoin)
    ensures o == Next
  {
    ghost var r := ctx.Value();
    if ctx.pathname != "" {
      var pathname := SlugToFolderDefault(ctx.pathname, sanitize);
      if !IsAsset(t, pathname) {
        pathname := pathJoin(pathname, "index.html");
      }
      assert pathname == IndexPath(t, r.pathname, sanitize, pathJoin);
      var (path, query) := SplitUrl(pathname);
      // `req.url` is set, Express derives the path and query from it, and `originalUrl` follows `url`.
      ctx.url, ctx.pathname, ctx.search, ctx.originalUrl := pathname, path, query, pathname;
    }
    return Next;
  }

  /** An asset folder is used as it is; any other folder gets `index.html` joined on. */
  lemma IndexHtmlOnlyForPages(
    t: Tables, r: Request, sanitize: string -> string, pathJoin: (string, string) -> string)
    requires r.pathname != ""
    ensures var folder := SlugToFolderDefault(r.pathname, sanitize);
      Resolved(t, r, sanitize, pathJoin).url == (if IsAsset(t, folder) then folder else pathJoin(folder, "index.html"))
    ensures Resolved(t, r, sanitize, pathJoin).url == Resolved(t, r, sanitize, pathJoin).originalUrl
  {
  }

  /** What node's `path.join(a, "index.html")` gives for a folder `a` that is not empty. */
  function NodeJoinIndex(a: string): string
  {
    (if EndsWith(a, "/") then a else a + "/") + "index.html"
  }

  /** The node join ends in `/index.html`. */
  lemma NodeJoinEndsInIndexHtml(a: string)
    ensures EndsWith(NodeJoinIndex(a), "/index.html")
  {
    var u := NodeJoinIndex(a);
    if EndsWith(a, "/") {
      assert u[|u| - 11..] == a[|a| - 1..] + "index.html";
    } else {
      assert u == a + "/index.html";
    }
  }

  /**
   * With `path.join` appending `index.html` as a new last segment, a page
   * request ends in `/index.html`, right after its folder.
   */
  lemma PageEndsInIndexHtml(
    t: Tables, r: Request, sanitize: string -> string, pathJoin: (string, string) -> string)
    requires r.pathname != ""
    requires !IsAsset(t, SlugToFolderDefault(r.pathname, sanitize))
    requires forall a :: pathJoin(a, "index.html") == NodeJoinIndex(a)
    ensures EndsWith(Resolved(t, r, sanitize, pathJoin).url, "/index.html")
  {
    var folder := SlugToFolderDefault(r.pathname, sanitize);
    assert Resolved(t, r, sanitize, pathJoin).url == NodeJoinIndex(folder);
    NodeJoinEndsInIndexHtml(folder);
  }

  /**
   * The query is dropped: when neither the sanitiser nor `path.join` produces
   * a `?`, the rewritten URL is a bare path with no search part.
   */
  lemma QueryDropped(
    t: Tables, r: Request, sanitize: string -> string, pathJoin: (string, string) -> string)
    requires r.pathname != ""
    requires forall s :: '?' !in sanitize(s)
    requires forall a :: '?' !in a ==> '?' !in pathJoin(a, "index.html")
    ensures var r' := Resolved(t, r, sanitize, pathJoin);
      r'.search == "" && r'.url == r'.pathname && r'.originalUrl == r'.pathname
  {
    var segments := MapStrings(sanitize, Split(Lower(Substitute(r.pathname)), '/'));
    JoinAvoids(segments, "/", '?');
    var p := IndexPath(t, r.pathname, sanitize, pathJoin);
    assert '?' !in p;
    assert IndexOf(p, '?') == -1;
  }
}
