/** utils/auth.ts: the routes reachable without signing in, and the sign-in
    routes among them. Both are exact comparisons against fixed lists. */
module Routes {
  const PublicRoutes: seq<string> := ["/", "/signin", "/signup"]
  const AuthRoutes: seq<string> := ["/signin", "/signup"]

  /** `PUBLIC_ROUTES.includes(path)`. */
  function IsPublicRoute(path: string): (r: bool)
    ensures r <==> path == "/" || path == "/signin" || path == "/signup"
  {
    path in PublicRoutes
  }

  /** `['/signin', '/signup'].includes(path)`. */
  function IsAuthRoute(path: string): (r: bool)
    ensures r <==> path == "/signin" || path == "/signup"
  {
    path in AuthRoutes
  }

  /** The sign-in routes are public, and the home page is the one public
      route that is not a sign-in route. */
  lemma AuthRoutesArePublic(path: string)
    ensures IsAuthRoute(path) ==> IsPublicRoute(path)
    ensures IsPublicRoute(path) && !IsAuthRoute(path) <==> path == "/"
  {
  }

  /** Matching is exact: a sign-in route followed by anything, such as
      "/signin/" or "/signup?next=x", is not public, and the only public
      route that extends to another one is "/". */
  lemma NoPrefixMatch(route: string, suffix: string)
    requires |suffix| > 0
    ensures IsAuthRoute(route) ==> !IsPublicRoute(route + suffix)
    ensures IsPublicRoute(route) && IsPublicRoute(route + suffix) ==> route == "/"
  {
    assert |route + suffix| > |route|;
  }
}
