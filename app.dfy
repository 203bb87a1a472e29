/**
 * The application shell: the session state (`authToken`, `isAuthenticated`
 * and the token kept in local storage under `"authToken"`) with its boot
 * restore, `login` and `logout`, and the route guard that picks a page or a
 * redirect for each path.
 */
module App {
  import opened Wrappers

  // ---------------------------------------------------------------------------
  // Route guard
  // ---------------------------------------------------------------------------

  datatype Page = AuthPage | DashboardPage | LinkDetailsPage(short: string)

  /** What a route renders: a page, or a `<Navigate to=...>` redirect. */
  datatype Element = Render(page: Page) | Redirect(to: string)

  /** The `:short` parameter when `path` is `/link/<short>` with one non-empty segment. */
  function LinkRouteParam(path: string): (r: Option<string>)
    ensures r.Some? ==> path == "/link/" + r.value && r.value != "" && '/' !in r.value
  {
    if |path| > 6 && path[..6] == "/link/" && '/' !in path[6..] then Some(path[6..]) else None
  }

  /** The `<Routes>` table: `/login`, `/dashboard`, `/link/:short`, and `*`. The
      auth page is rendered exactly at `/login` signed out, every other page only
      when signed in, and every redirect goes to the home of the current state. */
  function Route(path: string, isAuthenticated: bool): (e: Element)
    ensures e == Render(AuthPage) <==> !isAuthenticated && path == "/login"
    ensures e.Render? && !e.page.AuthPage? ==> isAuthenticated
    ensures e.Redirect? ==> e.to == if isAuthenticated then "/dashboard" else "/login"
  {
    if path == "/login" then
      if isAuthenticated then Redirect("/dashboard") else Render(AuthPage)
    else if path == "/dashboard" then
      if isAuthenticated then Render(DashboardPage) else Redirect("/login")
    else if LinkRouteParam(path).Some? then
      if isAuthenticated then Render(LinkDetailsPage(LinkRouteParam(path).value)) else Redirect("/login")
    else
      Redirect(if isAuthenticated then "/dashboard" else "/login")
  }

  /** `/link/<short>` is recognised exactly for a non-empty code without a slash, and yields that code. */
  lemma LinkRouteParamRoundTrip(short: string)
    ensures LinkRouteParam("/link/" + short) == if short != "" && '/' !in short then Some(short) else None
  {
    var path := "/link/" + short;
    assert path[..6] == "/link/" && path[6..] == short;
  }

  /** The guard's decision for each route. */
  lemma RouteGuard(path: string, isAuthenticated: bool)
    ensures path == "/dashboard" && isAuthenticated ==> Route(path, isAuthenticated) == Render(DashboardPage)
    ensures LinkRouteParam(path).Some? && isAuthenticated
            ==> Route(path, isAuthenticated) == Render(LinkDetailsPage(LinkRouteParam(path).value))
    ensures path == "/login" && isAuthenticated ==> Route(path, isAuthenticated) == Redirect("/dashboard")
    ensures (path == "/dashboard" || LinkRouteParam(path).Some?) && !isAuthenticated
            ==> Route(path, isAuthenticated) == Redirect("/login")
    ensures path != "/login" && path != "/dashboard" && LinkRouteParam(path).None?
            ==> Route(path, isAuthenticated) == Redirect(if isAuthenticated then "/dashboard" else "/login")
  {
    assert LinkRouteParam("/dashboard").None? by { assert "/dashboard"[..6][1] == 'd' != "/link/"[1]; }
  }

  /** Every redirect lands on a path that renders a page, so there are no redirect loops. */
  lemma RedirectSettles(path: string, isAuthenticated: bool)
    ensures Route(path, isAuthenticated).Redirect? ==> Route(Route(path, isAuthenticated).to, isAuthenticated).Render?
  {
    assert LinkRouteParam("/dashboard").None? by { assert "/dashboard"[..6][1] == 'd' != "/link/"[1]; }
  }

  // ---------------------------------------------------------------------------
  // Session
  // ---------------------------------------------------------------------------

  class Session {
    /** `localStorage.getItem("authToken")`. */
    var storedToken: Option<string>
    var authToken: Option<string>
    var isAuthenticated: bool

    /** The two state variables always change together. */
    ghost predicate Valid()
      reads this
    {
      isAuthenticated <==> authToken.Some?
    }

    /** First render: `useState(null)` and `useState(false)`, whatever is stored. */
    constructor(stored: Option<string>)
      ensures Valid()
      ensures storedToken == stored && authToken == None && !isAuthenticated
    {
      storedToken, authToken, isAuthenticated := stored, None, false;
    }

    /** The boot effect: a truthy stored token is adopted; otherwise nothing changes. */
    method RestoreSession()
      modifies this
      ensures old(Valid()) ==> Valid()
      ensures storedToken == old(storedToken)
      ensures Truthy(storedToken) ==> authToken == storedToken && isAuthenticated
      ensures !Truthy(storedToken) ==> authToken == old(authToken) && isAuthenticated == old(isAuthenticated)
    {
      var token := storedToken;
      if Truthy(token) {
        authToken := token;
        isAuthenticated := true;
      }
    }

    method Login(token: string)
      modifies this
      ensures Valid()
      ensures storedToken == Some(token) && authToken == Some(token) && isAuthenticated
      ensures ElementAt("/login") == Redirect("/dashboard") && ElementAt("/dashboard") == Render(DashboardPage)
    {
      storedToken := Some(token);
      authToken := Some(token);
      isAuthenticated := true;
    }

    method Logout()
      modifies this
      ensures Valid()
      ensures storedToken == None && authToken == None && !isAuthenticated
      ensures ElementAt("/dashboard") == Redirect("/login") && ElementAt("/login") == Render(AuthPage)
    {
      storedToken := None;
      authToken := None;
      isAuthenticated := false;
    }

    /** What the router shows for `path` in the current session. */
    function ElementAt(path: string): (e: Element)
      reads this
      ensures e == Render(AuthPage) <==> !isAuthenticated && path == "/login"
      ensures e.Render? && !e.page.AuthPage? ==> isAuthenticated
    {
      Route(path, isAuthenticated)
    }
  }

  /** Logging in and reloading the page: the session comes back exactly when the token is non-empty. */
  method LoginThenReload(token: string) returns (reloaded: Session)
    ensures reloaded.Valid()
    ensures reloaded.isAuthenticated <==> token != ""
    ensures reloaded.isAuthenticated ==> reloaded.authToken == Some(token)
  {
    var session := new Session(None);
    session.RestoreSession();
    session.Login(token);
    reloaded := new Session(session.storedToken);
    reloaded.RestoreSession();
  }
}
