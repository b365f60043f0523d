/**
 * frontend/src/components/layout/app-layout.tsx: the route guard. Protection is a prefix test
 * against a list of routes, publicity an exact match, and the effect chooses at most one
 * `router.replace` target.
 */
module AppLayout {
  import opened Wrappers
  import opened Text

  const ProtectedRoutes: seq<string> := ["/projects", "/dashboard", "/milestones", "/chat", "/activity", "/teammates", "/profile"]
  const PublicRoutes: seq<string> := ["/login", "/signup"]

  /** `protectedRoutes.some(r => pathname.startsWith(r))`. */
  predicate IsProtected(pathname: string) {
    exists i :: 0 <= i < |ProtectedRoutes| && StartsWith(pathname, ProtectedRoutes[i])
  }

  /** `publicRoutes.includes(pathname)`. */
  predicate IsPublic(pathname: string) {
    pathname in PublicRoutes
  }

  /**
   * The redirect effect: nothing while the user loads; a visitor on a protected path goes to
   * `/login`; a user on a public path goes to `/projects`; `/` sends each to their start page;
   * every other case, a user on a protected page among them, stays where it is.
   */
  function Redirect(isUserLoading: bool, hasUser: bool, pathname: string): (r: Option<string>)
    ensures isUserLoading ==> r.None?
    ensures !isUserLoading && !hasUser && IsProtected(pathname) ==> r == Some("/login")
    ensures !isUserLoading && hasUser && IsPublic(pathname) ==> r == Some("/projects")
    ensures !isUserLoading && pathname == "/" ==> r == Some(if hasUser then "/projects" else "/login")
    ensures r.Some? ==> !isUserLoading && (IsProtected(pathname) || IsPublic(pathname) || pathname == "/")
    ensures hasUser ==> r != Some("/login")
    ensures !hasUser ==> r != Some("/projects")
    ensures !isUserLoading && hasUser && !IsPublic(pathname) && pathname != "/" ==> r.None?
    ensures !isUserLoading && !hasUser && !IsProtected(pathname) && pathname != "/" ==> r.None?
  {
    if isUserLoading then None
    else if !hasUser && IsProtected(pathname) then Some("/login")
    else if hasUser && IsPublic(pathname) then Some("/projects")
    else if pathname == "/" then Some(if hasUser then "/projects" else "/login")
    else None
  }

  /** The root and the public pages are not protected. */
  lemma OpenPages()
    ensures !IsProtected("/") && !IsProtected("/login") && !IsProtected("/signup")
  {
    forall i | 0 <= i < |ProtectedRoutes|
      ensures !StartsWith("/login", ProtectedRoutes[i]) && !StartsWith("/signup", ProtectedRoutes[i])
    {
      assert ProtectedRoutes[i][1] in "pdmcat";
    }
  }

  /**
   * Protection is by prefix and publicity exact: any path under `/projects` is protected, while
   * a path under `/login` is not public, so a user there is not sent away.
   */
  lemma PrefixVersusExact(rest: string)
    requires rest != ""
    ensures IsProtected("/projects" + rest)
    ensures !IsPublic("/login" + rest)
    ensures Redirect(false, true, "/login" + rest).None?
  {
    assert StartsWith("/projects" + rest, ProtectedRoutes[0]) by {
      assert ("/projects" + rest)[..9] == "/projects";
    }
    var p := "/login" + rest;
    assert p != "/login" && p != "/signup" by {
      assert |p| > |"/login"|;
      assert p[1] == 'l' && "/signup"[1] == 's';
    }
    assert p != "/" by { assert |p| > 1; }
  }
}
