/**
 * frontend/src/components/dashboard/client-page.tsx: the page that loads a project, its tasks
 * and its teammates, then shows the board. The three awaited calls' results are inputs. The
 * effect's cleanup can run while `loadData` is suspended: `teardown` is the number of awaits that
 * complete while the component is still mounted, so after the k-th await `mounted` is
 * `k <= teardown`.
 */
module Dashboard {
  import opened Wrappers
  import opened Json
  import opened Client

  /** `!projectId` is false: the query parameter is present and non-empty. */
  predicate ProjectIdSet(projectId: Option<string>) {
    projectId.Some? && projectId.value != ""
  }

  /**
   * What the first await yields: `None` when `fetchProjects` fails or `.find` throws, on a
   * non-array or on a `null` element it reaches; else `find(...) || null`.
   */
  function FoundProject(projects: Outcome<Value>, projectId: string): (r: Option<Value>)
    ensures r.Some? <==> projects.Success? && projects.value.Arr?
                         && FindByIdOrThrow(projects.value.items, Str(projectId)).Some?
    ensures r.Some? ==> r.value == Null || (r.value in projects.value.items && Prop(r.value, "id") == Str(projectId))
  {
    if projects.Success? && projects.value.Arr? then
      match FindByIdOrThrow(projects.value.items, Str(projectId))
      case None => None
      case Some(p) => Some(JsOr(p, Null))
    else None
  }

  /** `Array.isArray(v) ? v : []`. */
  function ArrayOrEmpty(v: Value): (r: seq<Value>)
    ensures v.Arr? ==> r == v.items
    ensures !v.Arr? ==> r == []
  {
    if v.Arr? then v.items else []
  }

  /** The calls `loadData` reaches before it stops. */
  function LoadCalls(projectId: string, projects: Outcome<Value>, tasksData: Outcome<Value>): (calls: seq<Call>)
    ensures 1 <= |calls| <= 3 && calls[0] == FetchProjects
    ensures |calls| > 1 <==> FoundProject(projects, projectId).Some? && JsTruthy(FoundProject(projects, projectId).value)
    ensures |calls| == 3 <==> |calls| > 1 && tasksData.Success?
  {
    var found := FoundProject(projects, projectId);
    if found.Some? && JsTruthy(found.value) then
      [FetchProjects, FetchTasks(projectId)] + (if tasksData.Success? then [FetchTeammates(projectId)] else [])
    else [FetchProjects]
  }

  /** What the page renders. */
  datatype View = Skeleton | NoProjectSelected | ProjectNotFound | BoardView(project: Value, tasks: seq<Value>, users: seq<Value>)

  /** The render's chain of early returns. */
  function ViewOf(loading: bool, projectId: Option<string>, project: Value, tasks: seq<Value>, users: seq<Value>): (v: View)
    ensures v == Skeleton <==> loading
    ensures v == NoProjectSelected <==> !loading && !ProjectIdSet(projectId)
    ensures v == ProjectNotFound <==> !loading && ProjectIdSet(projectId) && !JsTruthy(project)
    ensures v.BoardView? <==> !loading && ProjectIdSet(projectId) && JsTruthy(project)
  {
    if loading then Skeleton
    else if !ProjectIdSet(projectId) then NoProjectSelected
    else if !JsTruthy(project) then ProjectNotFound
    else BoardView(project, tasks, users)
  }

  class Page {
    var tasks: seq<Value>
    var users: seq<Value>
    var project: Value
    var loading: bool
    const projectId: Option<string>

    constructor (projectId: Option<string>)
      ensures this.projectId == projectId && tasks == [] && users == [] && project == Null && loading
    {
      this.projectId := projectId;
      tasks := [];
      users := [];
      project := Null;
      loading := true;
    }

    /**
     * The effect and its `loadData`. With no project id nothing is fetched and loading ends.
     * Otherwise every setter runs only while mounted: the project after the first await, the
     * tasks and teammates (non-arrays as `[]`) after the third, and loading ends exactly when
     * the component is still mounted at the last await reached. A failure or a missing project
     * stops the sequence.
     */
    method LoadData(projects: Outcome<Value>, tasksData: Outcome<Value>, usersData: Outcome<Value>, teardown: nat)
      returns (calls: seq<Call>)
      modifies this
      ensures !ProjectIdSet(projectId) ==>
                calls == [] && !loading && project == old(project) && tasks == old(tasks) && users == old(users)
      ensures ProjectIdSet(projectId) ==>
                var pid := projectId.value;
                var found := FoundProject(projects, pid);
                && calls == LoadCalls(pid, projects, tasksData)
                && loading == (teardown < |calls|)
                && project == (if found.Some? && 1 <= teardown then found.value else old(project))
                && (|calls| == 3 && usersData.Success? && 3 <= teardown ==>
                      tasks == ArrayOrEmpty(tasksData.value) && users == ArrayOrEmpty(usersData.value))
                && (!(|calls| == 3 && usersData.Success? && 3 <= teardown) ==>
                      tasks == old(tasks) && users == old(users))
    {
      if !ProjectIdSet(projectId) {
        loading := false;
        return [];
      }
      var pid := projectId.value;
      loading := true;
      calls := [FetchProjects];
      // await fetchProjects(); `.find` throws on a value that is not an array and on a `null`
      // element it reaches
      if projects.Failure? || !projects.value.Arr? || FindByIdOrThrow(projects.value.items, Str(pid)).None? {
        if 1 <= teardown { loading := false; }
        return;
      }
      var found := JsOr(FindByIdOrThrow(projects.value.items, Str(pid)).value, Null);
      if 1 <= teardown { project := found; }
      if !JsTruthy(found) {
        if 1 <= teardown { loading := false; }
        return;
      }
      calls := calls + [FetchTasks(pid)];
      if tasksData.Failure? {
        if 2 <= teardown { loading := false; }
        return;
      }
      calls := calls + [FetchTeammates(pid)];
      if usersData.Failure? || 3 > teardown {
        if 3 <= teardown { loading := false; }
        return;
      }
      tasks := ArrayOrEmpty(tasksData.value);
      users := ArrayOrEmpty(usersData.value);
      loading := false;
    }
  }

  /** A project the server does not list for the caller is never shown and its tasks never asked for. */
  lemma NotListedNotFetched(items: seq<Value>, projectId: string, tasksData: Outcome<Value>)
    requires forall i :: 0 <= i < |items| ==> Prop(items[i], "id") != Str(projectId)
    ensures FoundProject(Success(Arr(items)), projectId) ==
              if exists i :: 0 <= i < |items| && ReadThrows(items[i]) then None else Some(Null)
    ensures LoadCalls(projectId, Success(Arr(items)), tasksData) == [FetchProjects]
  {
    assert forall i :: 0 <= i <= |items| ==> NoMatchBefore(items, Str(projectId), i);
  }
}
