/**
 * The single-page-application fallback of the backend (backend/src/main.ts,
 * the middleware at lines 31-46): API calls, static assets and non-GET
 * requests go on to the next handler; every other request is answered with
 * the front end's `index.html`.
 *
 * The request's `path` and `method` (here `httpMethod`) may be absent;
 * JavaScript's `&&` treats an absent field and the empty string alike
 * (both are falsy).
 */
module SpaFallback {

  import opened Wrappers

  /** The two request fields the middleware reads. */
  datatype Request = Request(path: Option<string>, httpMethod: Option<string>)

  /** What the middleware does: call `next()`, or send `index.html`. */
  datatype Action = Next | SendIndex

  /** A string field as a JavaScript condition: present and not empty. */
  predicate Truthy(f: Option<string>) {
    f.Some? && f.value != ""
  }

  /** `String.prototype.startsWith`. */
  predicate StartsWith(s: string, prefix: string) {
    |prefix| <= |s| && s[..|prefix|] == prefix
  }

  /** A request for the API: its path begins with "/api". */
  predicate IsApi(r: Request) {
    Truthy(r.path) && StartsWith(r.path.value, "/api")
  }

  /** A request for a static asset: its path contains a dot. */
  predicate IsAsset(r: Request) {
    Truthy(r.path) && '.' in r.path.value
  }

  /** A request with a method that is given and is not exactly "GET". */
  predicate IsOtherMethod(r: Request) {
    Truthy(r.httpMethod) && r.httpMethod.value != "GET"
  }

  /**
   * The middleware, its three early returns in the source's order. The
   * request is passed on exactly when it is for the API, for an asset, or
   * uses another method than GET, whichever test decides it.
   */
  function Fallback(r: Request): (a: Action)
    ensures a == Next <==> IsApi(r) || IsAsset(r) || IsOtherMethod(r)
    ensures a == SendIndex <==> !IsApi(r) && !IsAsset(r) && !IsOtherMethod(r)
  {
    if Truthy(r.path) && StartsWith(r.path.value, "/api") then Next
    else if Truthy(r.path) && '.' in r.path.value then Next
    else if Truthy(r.httpMethod) && r.httpMethod.value != "GET" then Next
    else SendIndex
  }

  /** An API path goes on, whatever the method. */
  lemma ApiGoesOn(p: string, m: Option<string>)
    requires StartsWith(p, "/api")
    ensures Fallback(Request(Some(p), m)) == Next
  {
  }

  /** A path with a dot goes on, whatever the method. */
  lemma AssetGoesOn(p: string, m: Option<string>)
    requires '.' in p
    ensures Fallback(Request(Some(p), m)) == Next
  {
  }

  /**
   * A page route of the front end, fetched with GET, gets `index.html`:
   * a path not starting with "/api" and without a dot.
   */
  lemma PageRouteServed(p: string)
    requires !StartsWith(p, "/api") && '.' !in p
    ensures Fallback(Request(Some(p), Some("GET"))) == SendIndex
  {
  }

  /**
   * Absent or empty fields never pass a request on: with neither a path
   * nor a method, or an empty path and a GET, the answer is `index.html`.
   */
  lemma MissingFieldsServed(m: Option<string>)
    requires m == None || m == Some("") || m == Some("GET")
    ensures Fallback(Request(None, m)) == SendIndex
    ensures Fallback(Request(Some(""), m)) == SendIndex
  {
  }

  /**
   * The method test is exact: a lower-case "get" and a HEAD request go on
   * like any other method, and "/apidocs" counts as an API path because
   * the test is a prefix test, not a path-segment test.
   */
  lemma ExactTests()
    ensures Fallback(Request(Some("/lessons"), Some("get"))) == Next
    ensures Fallback(Request(Some("/lessons"), Some("HEAD"))) == Next
    ensures Fallback(Request(Some("/apidocs"), Some("GET"))) == Next
    ensures Fallback(Request(Some("/API"), Some("GET"))) == SendIndex
  {
    assert "/apidocs"[..4] == "/api";
    assert "/API"[..4][1] != "/api"[1];
  }
}
