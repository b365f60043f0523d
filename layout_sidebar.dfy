/**
 * frontend/src/components/layout/sidebar.tsx: the application sidebar. Its effect checks that
 * the project in the query exists among the caller's projects; the rest is what it shows: the
 * projects entry's label, the per-project menu, which item is active, when the sidebar shows at
 * all, and the avatar's initial. `localStorage` is a string map and the fetched project list an
 * input outcome.
 */
module LayoutSidebar {
  import opened Wrappers
  import opened Json
  import opened Text
  import opened Client

  /** `!!projectId`: the query parameter is present and non-empty. */
  predicate HasProjectId(projectId: Option<string>) {
    projectId.Some? && projectId.value != ""
  }

  /** `${projectId}` in a template: the id, or `"null"` when the parameter is absent. */
  function ProjectIdText(projectId: Option<string>): string {
    if projectId.Some? then projectId.value else "null"
  }

  /** A menu entry's link and caption. */
  datatype MenuItem = MenuItem(href: string, caption: string)

  /** The pages of a project, in menu order, with their labels. */
  const MenuPages: seq<(string, string)> :=
    [("/dashboard", "Dashboard"), ("/milestones", "Milestones"), ("/chat", "Chat"),
     ("/activity", "Activity"), ("/teammates", "Teammates")]

  /** `menu`: one entry per project page, linking to it with the project in the query. */
  function Menu(projectId: Option<string>): (m: seq<MenuItem>)
    ensures |m| == |MenuPages|
    ensures forall i :: 0 <= i < |m| ==>
              m[i].href == MenuPages[i].0 + "?projectId=" + ProjectIdText(projectId) && m[i].caption == MenuPages[i].1
  {
    seq(|MenuPages|, i requires 0 <= i < |MenuPages| =>
      MenuItem(MenuPages[i].0 + "?projectId=" + ProjectIdText(projectId), MenuPages[i].1))
  }

  /** `pathname.startsWith(href.split("?")[0])`. */
  predicate IsActive(pathname: string, href: string) {
    StartsWith(pathname, BeforeFirst(href, '?'))
  }

  /** A menu entry is active exactly on the pages under its path, whatever the project id. */
  lemma MenuActiveByPath(projectId: Option<string>, pathname: string, i: nat)
    requires i < |MenuPages|
    ensures IsActive(pathname, Menu(projectId)[i].href) <==> StartsWith(pathname, MenuPages[i].0)
  {
    var path := MenuPages[i].0;
    MenuPathPlain(i);
    assert path + "?projectId=" + ProjectIdText(projectId) == path + ['?'] + ("projectId=" + ProjectIdText(projectId));
    BeforeFirstOfJoin(path, '?', "projectId=" + ProjectIdText(projectId));
  }

  lemma MenuPathPlain(i: nat)
    requires i < |MenuPages|
    ensures '?' !in MenuPages[i].0
  {
    assert MenuPages[i].0 in ["/dashboard", "/milestones", "/chat", "/activity", "/teammates"];
  }

  /** `pathname.startsWith("/projects")`. */
  predicate OnProjectsPage(pathname: string) {
    StartsWith(pathname, "/projects")
  }

  /** `baseLabel`: the project's name when there is an existing project with a truthy name. */
  function BaseLabel(projectId: Option<string>, projectExists: bool, projectName: Value): (r: Value)
    ensures !HasProjectId(projectId) || !projectExists ==> r == Str("Projects")
    ensures HasProjectId(projectId) && projectExists && JsTruthy(projectName) ==> r == projectName
    ensures HasProjectId(projectId) && projectExists && !JsTruthy(projectName) ==> r == Str("Projects")
  {
    if !HasProjectId(projectId) || !projectExists then Str("Projects") else JsOr(projectName, Str("Projects"))
  }

  /** The sidebar renders only off the auth pages, after the user loaded, and with a user. */
  predicate Visible(pathname: string, loading: bool, user: Value) {
    pathname != "/login" && pathname != "/signup" && !loading && JsTruthy(user)
  }

  /** The second effect: once the user has loaded, a missing user is sent to `/login`. */
  function LoggedOutRedirect(loading: bool, user: Value): (r: Option<string>)
    ensures r.Some? <==> !loading && !JsTruthy(user)
    ensures r.Some? ==> r.value == "/login"
  {
    if !loading && !JsTruthy(user) then Some("/login") else None
  }

  /** Whenever the sidebar is hidden for want of a user, it is also sending the visitor to log in. */
  lemma HiddenWithoutUserRedirects(pathname: string, user: Value)
    requires !JsTruthy(user)
    ensures !Visible(pathname, false, user) && LoggedOutRedirect(false, user) == Some("/login")
  {
  }

  /** The project menu shows off the projects pages for an existing project in the query. */
  predicate ShowsMenu(pathname: string, projectId: Option<string>, projectExists: bool) {
    !OnProjectsPage(pathname) && HasProjectId(projectId) && projectExists
  }

  /** "Invalid Project" shows under the same conditions when the project does not exist. */
  predicate ShowsInvalid(pathname: string, projectId: Option<string>, projectExists: bool) {
    !OnProjectsPage(pathname) && HasProjectId(projectId) && !projectExists
  }

  /** The menu and the invalid-project entry never show together, and one shows off the projects pages. */
  lemma MenuOrInvalid(pathname: string, projectId: Option<string>, projectExists: bool)
    ensures !(ShowsMenu(pathname, projectId, projectExists) && ShowsInvalid(pathname, projectId, projectExists))
    ensures (ShowsMenu(pathname, projectId, projectExists) || ShowsInvalid(pathname, projectId, projectExists))
            <==> !OnProjectsPage(pathname) && HasProjectId(projectId)
  {
  }

  /** `v?.[0]` on a name or email: its first character, or `undefined`. */
  function FirstChar(v: Value): (r: Value)
    ensures v.Str? && v.s != "" ==> r == Str([v.s[0]])
    ensures !(v.Str? && v.s != "") ==> r == Undefined
  {
    if v.Str? && v.s != "" then Str([v.s[0]]) else Undefined
  }

  /** `(user?.name?.[0] || user?.email?.[0] || "?").toUpperCase()`. */
  function AvatarInitial(user: Value): (r: string)
    ensures |r| == 1
    ensures var name := Prop(user, "name");
            name.Str? && name.s != "" ==> r == [UpperChar(name.s[0])]
    ensures var name := Prop(user, "name"); var email := Prop(user, "email");
            !(name.Str? && name.s != "") && email.Str? && email.s != "" ==> r == [UpperChar(email.s[0])]
    ensures var name := Prop(user, "name"); var email := Prop(user, "email");
            !(name.Str? && name.s != "") && !(email.Str? && email.s != "") ==> r == "?"
  {
    Upper(JsOr(JsOr(FirstChar(Prop(user, "name")), FirstChar(Prop(user, "email"))), Str("?")).s)
  }

  /** Storage keys `logout` removes. */
  const SessionKeys: set<string> := {"token", "user"}

  class Sidebar {
    var projectExists: bool
    var projectName: Value
    var user: Value
    var loading: bool
    var storage: map<string, string>

    constructor (storage: map<string, string>)
      ensures projectExists && projectName == Null && user == Null && loading && this.storage == storage
    {
      projectExists := true;
      projectName := Null;
      user := Null;
      loading := true;
      this.storage := storage;
    }

    /**
     * `useUser`. `parsedUser` is what `JSON.parse` makes of the stored string, `None` when it
     * rejects it. A stored user replaces `null` and loading ends; a stored string that does not
     * parse throws before either setter runs, so `threw` is set and loading never ends.
     */
    method LoadUser(parsedUser: Option<Value>) returns (threw: bool)
      modifies this
      ensures threw <==> "user" in storage && storage["user"] != "" && parsedUser.None?
      ensures "user" in storage && storage["user"] != "" && parsedUser.Some? ==> user == parsedUser.value
      ensures !("user" in storage && storage["user"] != "" && parsedUser.Some?) ==> user == old(user)
      ensures threw ==> loading == old(loading)
      ensures !threw ==> !loading
      ensures projectExists == old(projectExists) && projectName == old(projectName) && storage == old(storage)
    {
      threw := "user" in storage && storage["user"] != "" && parsedUser.None?;
      if threw {
        return;
      }
      if "user" in storage && storage["user"] != "" {
        user := parsedUser.value;
      }
      loading := false;
    }

    /**
     * The project effect. Without a project id the project is marked missing. Without a token it
     * returns before asking, leaving both fields as they were. Otherwise the project is looked
     * up in the fetched list: found gives its title, and not found, a failure, a list that is
     * not an array or a `null` element reached before the match (the lookup throws) marks it
     * missing.
     */
    method LoadProject(projectId: Option<string>, projects: Outcome<Value>) returns (calls: seq<Call>)
      modifies this
      ensures !HasProjectId(projectId) ==> calls == [] && !projectExists && projectName == Null
      ensures HasProjectId(projectId) && !("token" in storage && storage["token"] != "") ==>
                calls == [] && projectExists == old(projectExists) && projectName == old(projectName)
      ensures HasProjectId(projectId) && "token" in storage && storage["token"] != "" ==>
                && calls == [FetchProjects]
                && var found := if projects.Success? && projects.value.Arr?
                                then FindByIdOrThrow(projects.value.items, Str(projectId.value)) else None;
                   && projectExists == (found.Some? && JsTruthy(found.value))
                   && projectName == (if found.Some? && JsTruthy(found.value) then Prop(found.value, "title") else Null)
      ensures user == old(user) && loading == old(loading) && storage == old(storage)
    {
      if !HasProjectId(projectId) {
        projectExists := false;
        projectName := Null;
        return [];
      }
      if !("token" in storage && storage["token"] != "") {
        return [];
      }
      calls := [FetchProjects];
      if projects.Failure? || !projects.value.Arr? {
        projectExists := false;
        projectName := Null;
        return;
      }
      // `find` throws on a `null` element it reaches, and the `catch` marks the project missing
      var found := FindByIdOrThrow(projects.value.items, Str(projectId.value));
      if found.None? || !JsTruthy(found.value) {
        projectExists := false;
        projectName := Null;
      } else {
        projectExists := true;
        projectName := Prop(found.value, "title");
      }
    }

    /** `logout`: the session's token and user leave storage; everything else stays. */
    method Logout() returns (target: string)
      modifies this
      ensures storage == old(storage) - SessionKeys
      ensures target == "/login"
      ensures projectExists == old(projectExists) && projectName == old(projectName)
      ensures user == old(user) && loading == old(loading)
    {
      storage := storage - {"token"};
      storage := storage - {"user"};
      target := "/login";
    }
  }
}
