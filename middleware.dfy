/** The access decision the middleware takes on every request: protected
    pages and protected API routes need a session; without one an API call
    is answered 401 and a page visit is sent to the login page with the
    requested path as `redirect`. */
module Middleware {
  import opened Js
  import opened Http

  const ProtectedPaths: seq<string> := ["/profile", "/posts/new", "/messages"]

  /** `paths.some(p => pathname.startsWith(p))`. */
  predicate AnyPrefix(paths: seq<string>, pathname: string)
    decreases |paths|
  {
    paths != [] && (StartsWith(pathname, paths[0]) || AnyPrefix(paths[1..], pathname))
  }

  lemma {:induction false} AnyPrefixIff(paths: seq<string>, pathname: string)
    ensures AnyPrefix(paths, pathname) <==> exists i :: 0 <= i < |paths| && StartsWith(pathname, paths[i])
    decreases |paths|
  {
    if paths != [] {
      AnyPrefixIff(paths[1..], pathname);
      if AnyPrefix(paths[1..], pathname) {
        var i :| 0 <= i < |paths[1..]| && StartsWith(pathname, paths[1..][i]);
        assert StartsWith(pathname, paths[i + 1]);
      }
      if exists i :: 0 <= i < |paths| && StartsWith(pathname, paths[i]) {
        var i :| 0 <= i < |paths| && StartsWith(pathname, paths[i]);
        if i > 0 {
          assert paths[1..][i - 1] == paths[i];
        }
      }
    }
  }

  predicate IsProtectedPath(pathname: string) {
    AnyPrefix(ProtectedPaths, pathname)
  }

  predicate IsProtectedApi(pathname: string) {
    StartsWith(pathname, "/api/")
      && !StartsWith(pathname, "/api/public/")
      && !StartsWith(pathname, "/api/auth/")
  }

  /** What the middleware answers. */
  datatype Outcome =
    | Pass
    | Unauthorized(status: int, error: string, message: string)
    /** A redirect to `/login?redirect=<redirect>`. */
    | RedirectToLogin(redirect: string)

  /** A protected page or API route requested without a session. */
  predicate Blocked(req: Request) {
    (IsProtectedPath(req.pathname) || IsProtectedApi(req.pathname)) && req.session.None?
  }

  function Decide(req: Request): Outcome {
    if Blocked(req) then
      if StartsWith(req.pathname, "/api/") then
        Unauthorized(401, "Unauthorized", "Authentication required")
      else
        RedirectToLogin(req.pathname)
    else Pass
  }

  /** The protected pages are exactly the paths beginning with one of the
      three prefixes (so `/profileX` is protected too). */
  lemma ProtectedPathIff(pathname: string)
    ensures IsProtectedPath(pathname) <==>
      StartsWith(pathname, "/profile") || StartsWith(pathname, "/posts/new") || StartsWith(pathname, "/messages")
  {
    AnyPrefixIff(ProtectedPaths, pathname);
    assert ProtectedPaths[0] == "/profile" && ProtectedPaths[1] == "/posts/new" && ProtectedPaths[2] == "/messages";
  }

  /** A request is let through unless it targets a protected page or API
      route without a session; with a session every request passes. */
  lemma PassIff(req: Request)
    ensures Decide(req) == Pass <==>
      req.session.Some? || (!IsProtectedPath(req.pathname) && !IsProtectedApi(req.pathname))
  {
  }

  /** A blocked request gets 401 when its path is an API path and a login
      redirect carrying its own path otherwise. */
  lemma BlockedOutcome(req: Request)
    requires Blocked(req)
    ensures StartsWith(req.pathname, "/api/") ==>
      Decide(req) == Unauthorized(401, "Unauthorized", "Authentication required")
    ensures !StartsWith(req.pathname, "/api/") ==> Decide(req) == RedirectToLogin(req.pathname)
  {
  }

  /** No protected page lies under `/api/`, so a 401 is only ever given for a
      protected API route, and a redirect only for a protected page. */
  lemma UnauthorizedOnlyForApi(req: Request)
    ensures Decide(req).Unauthorized? <==> IsProtectedApi(req.pathname) && req.session.None?
    ensures Decide(req).RedirectToLogin? <==> IsProtectedPath(req.pathname) && req.session.None?
  {
    ProtectedPathIff(req.pathname);
    var p := req.pathname;
    if StartsWith(p, "/api/") {
      assert p[1] == 'a';
      assert !StartsWith(p, "/profile") by { assert "/profile"[1] == 'p'; }
      assert !StartsWith(p, "/posts/new") by { assert "/posts/new"[1] == 'p'; }
      assert !StartsWith(p, "/messages") by { assert "/messages"[1] == 'm'; }
    }
  }

  /** The public and auth API families, and the bare `/api` path, are open;
      the other API routes are protected. */
  lemma OpenApiRoutes(rest: string)
    ensures !IsProtectedApi("/api/public/" + rest)
    ensures !IsProtectedApi("/api/auth/" + rest)
    ensures !IsProtectedApi("/api")
    ensures !IsProtectedPath("/api")
    ensures IsProtectedApi("/api/posts")
    ensures IsProtectedPath("/profileX")
  {
    assert StartsWith("/api/public/" + rest, "/api/public/");
    assert StartsWith("/api/auth/" + rest, "/api/auth/");
    ProtectedPathIff("/api");
    ProtectedPathIff("/profileX");
    assert "/profile" <= "/profileX";
    assert !("/api/auth/" <= "/api/posts") by { assert "/api/posts"[5] != "/api/auth/"[5]; }
    assert !("/api/public/" <= "/api/posts") by { assert "/api/posts"[6] != "/api/public/"[6]; }
  }
}
