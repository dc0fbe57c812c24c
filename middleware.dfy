/**
 * The web client's route guard: a visitor without a session token who
 * asks for a protected page is sent to the login page, and a visitor with
 * a token who asks for a login-type page is sent to the dashboard.
 */
module RouteGuard {
  import opened Wrappers

  const ProtectedRoutes: seq<string> :=
    ["/", "/contracts", "/contractors", "/reports", "/settings", "/security", "/audit", "/approvals", "/profile"]

  const PublicRoutes: seq<string> := ["/login", "/register", "/forgot-password", "/reset-password"]

  predicate StartsWith(s: string, prefix: string)
  {
    |prefix| <= |s| && s[..|prefix|] == prefix
  }

  /** A path falls under a route when it is the route or lies below it. */
  predicate Matches(path: string, route: string)
  {
    path == route || StartsWith(path, route + "/")
  }

  /** `routes.some(route => pathname === route || pathname.startsWith(route + "/"))`. */
  predicate MatchesAny(path: string, routes: seq<string>)
  {
    exists i | 0 <= i < |routes| :: Matches(path, routes[i])
  }

  /** A matching path starts with the route and continues, if at all, with a slash. */
  lemma MatchShape(path: string, route: string)
    requires Matches(path, route)
    ensures |route| <= |path| && path[..|route|] == route
    ensures |path| > |route| ==> path[|route|] == '/'
  {
    if path != route {
      assert path[..|route|] == (route + "/")[..|route|];
    }
  }

  /**
   * `s.replace(pattern, replacement)` with a string pattern: only the first
   * occurrence, wherever it is, is replaced.
   */
  function ReplaceFirst(s: string, pattern: string, replacement: string): (r: string)
    requires |pattern| > 0
    decreases |s|
  {
    if |s| < |pattern| then s
    else if s[..|pattern|] == pattern then replacement + s[|pattern|..]
    else [s[0]] + ReplaceFirst(s[1..], pattern, replacement)
  }

  const BearerPrefix := "Bearer "

  /** `Bearer <token>` yields the token. */
  lemma BearerStripped(token: string)
    ensures ReplaceFirst(BearerPrefix + token, BearerPrefix, "") == token
  {
    var s := BearerPrefix + token;
    assert s[..|BearerPrefix|] == BearerPrefix;
    assert s[|BearerPrefix|..] == token;
  }

  /**
   * `cookies.get("auth_token")?.value || headers.get("authorization")?.replace("Bearer ", "")`;
   * `None` stands for `undefined`.
   */
  function SessionToken(cookie: Option<string>, authorization: Option<string>): (token: Option<string>)
    ensures cookie.Some? && cookie.value != "" ==> token == cookie
    ensures (cookie.None? || cookie.value == "") && authorization.None? ==> token.None?
  {
    if cookie.Some? && cookie.value != "" then cookie
    else if authorization.Some? then Some(ReplaceFirst(authorization.value, BearerPrefix, ""))
    else None
  }

  /** A token counts only when it is a non-empty string. */
  predicate HasToken(token: Option<string>)
  {
    token.Some? && token.value != ""
  }

  /** With no usable cookie, a bearer header supplies its token. */
  lemma HeaderTokenUsed(cookie: Option<string>, token: string)
    requires cookie.None? || cookie.value == ""
    ensures SessionToken(cookie, Some(BearerPrefix + token)) == Some(token)
    ensures HasToken(SessionToken(cookie, Some(BearerPrefix + token))) <==> token != ""
  {
    BearerStripped(token);
  }

  /** What the guard does with a request. */
  datatype Decision =
    | Redirect(location: string, redirectParam: Option<string>)
    | Next

  /** The redirect decision for a request to `path` carrying the given cookie and header. */
  function Guard(path: string, cookie: Option<string>, authorization: Option<string>): (d: Decision)
    ensures d.Redirect? ==> d.location == "/login" || d.location == "/"
    ensures d == Redirect("/login", Some(path)) <==> MatchesAny(path, ProtectedRoutes) && !HasToken(SessionToken(cookie, authorization))
  {
    var token := SessionToken(cookie, authorization);
    if MatchesAny(path, ProtectedRoutes) && !HasToken(token) then Redirect("/login", Some(path))
    else if MatchesAny(path, PublicRoutes) && HasToken(token) then Redirect("/", None)
    else Next
  }

  /** No path is both protected and public. */
  lemma RoutesDisjoint(path: string)
    ensures !(MatchesAny(path, ProtectedRoutes) && MatchesAny(path, PublicRoutes))
  {
    forall i, j | 0 <= i < |ProtectedRoutes| && 0 <= j < |PublicRoutes|
      ensures !(Matches(path, ProtectedRoutes[i]) && Matches(path, PublicRoutes[j]))
    {
      TablesDistinguished(i, j);
      NotBoth(path, ProtectedRoutes[i], PublicRoutes[j]);
    }
  }

  /**
   * Two routes no path can fall under at once: the public route continues
   * its leading slash with something other than a slash, and the protected
   * route is either the root or differs from it in the second or fourth
   * character.
   */
  predicate Distinguished(p: string, q: string)
  {
    |q| >= 4 && q[1] != '/'
    && (p == "/" || (|p| >= 4 && (p[1] != q[1] || p[3] != q[3])))
  }

  lemma TablesDistinguished(i: nat, j: nat)
    requires i < |ProtectedRoutes| && j < |PublicRoutes|
    ensures Distinguished(ProtectedRoutes[i], PublicRoutes[j])
  {
    assert j == 0 || j == 1 || j == 2 || j == 3;
    assert i == 0 || i == 1 || i == 2 || i == 3 || i == 4 || i == 5 || i == 6 || i == 7 || i == 8;
  }

  lemma NotBoth(path: string, p: string, q: string)
    requires Distinguished(p, q)
    ensures !(Matches(path, p) && Matches(path, q))
  {
    if Matches(path, q) {
      MatchShape(path, q);
      assert path[1] == path[..|q|][1] == q[1];
      assert path[3] == path[..|q|][3] == q[3];
      if p == "/" {
        RootNotMatched(path);
      } else {
        DiffersEarly(path, p);
      }
    }
  }

  lemma RootNotMatched(path: string)
    requires |path| >= 2 && path[1] != '/'
    ensures !Matches(path, "/")
  {
    assert path[..2][1] == path[1];
  }

  lemma DiffersEarly(path: string, p: string)
    requires |p| >= 4 && |path| >= 4 && (path[1] != p[1] || path[3] != p[3])
    ensures !Matches(path, p)
  {
    if |p| + 1 <= |path| {
      assert path[..|p| + 1][1] == path[1] && path[..|p| + 1][3] == path[3];
      assert (p + "/")[1] == p[1] && (p + "/")[3] == p[3];
    }
  }

  /** The dashboard redirect fires exactly for a public path requested with a token. */
  lemma DashboardRedirect(path: string, cookie: Option<string>, authorization: Option<string>)
    ensures Guard(path, cookie, authorization) == Redirect("/", None)
        <==> MatchesAny(path, PublicRoutes) && HasToken(SessionToken(cookie, authorization))
  {
    RoutesDisjoint(path);
  }

  /** A path under neither list, such as `/users`, always passes. */
  lemma UnlistedPathsPass(path: string, cookie: Option<string>, authorization: Option<string>)
    requires !MatchesAny(path, ProtectedRoutes) && !MatchesAny(path, PublicRoutes)
    ensures Guard(path, cookie, authorization) == Next
  {
  }

  /** Following a redirect with the same credentials is let through: the guard never loops. */
  lemma RedirectTargetPasses(path: string, cookie: Option<string>, authorization: Option<string>)
    requires Guard(path, cookie, authorization).Redirect?
    ensures Guard(Guard(path, cookie, authorization).location, cookie, authorization) == Next
  {
    assert Matches("/login", PublicRoutes[0]);
    assert Matches("/", ProtectedRoutes[0]);
    RoutesDisjoint("/login");
    RoutesDisjoint("/");
  }

  /** A page below a protected route, such as `/contracts/42`, is protected too. */
  lemma SubpagesProtected(route: string, rest: string)
    requires route in ProtectedRoutes
    ensures MatchesAny(route + "/" + rest, ProtectedRoutes)
  {
    var i :| 0 <= i < |ProtectedRoutes| && ProtectedRoutes[i] == route;
    assert (route + "/" + rest)[..|route + "/"|] == route + "/";
    assert Matches(route + "/" + rest, ProtectedRoutes[i]);
  }
}
