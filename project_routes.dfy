/**
 * The project, teammate, invite-listing and activity-feed handlers of backend/app.py, and its
 * `is_leader` helper. The caller's id comes from the token check; the random parts of
 * generated ids and the request's timestamp are inputs.
 */
module ProjectRoutes {
  import opened Wrappers
  import opened Json
  import opened Store
  import opened Http

  /** `is_leader(projectId, userId)`: the pair's first entry is a leader's. */
  predicate IsLeader(members: seq<Record>, projectId: Value, userId: Value) {
    var pm := Select(members, PairQuery(projectId, userId));
    pm != [] && Get(pm[0], "role") == Str("leader")
  }

  /** `is_leader` decides on the first stored entry of the pair, whatever later entries say. */
  lemma IsLeaderFirstEntry(members: seq<Record>, projectId: Value, userId: Value)
    ensures var i := FirstMatch(members, PairQuery(projectId, userId));
            IsLeader(members, projectId, userId) <==> i < |members| && IsLeaderEntry(members[i])
  {
    SelectHead(members, PairQuery(projectId, userId));
  }

  /** After `add_member(..., role="leader")` the user leads the project, whatever was stored. */
  lemma AddLeaderLeads(members: seq<Record>, projectId: Value, userId: Value, id: string)
    ensures IsLeader(WithMember(members, projectId, userId, "leader", id), projectId, userId)
  {
    var r := WithMember(members, projectId, userId, "leader", id);
    WithMemberRole(members, projectId, userId, "leader", id);
    IsLeaderFirstEntry(r, projectId, userId);
  }

  // ---------------------------------------------------------------------------
  // create_project, get_projects
  // ---------------------------------------------------------------------------

  /** The project `create_project` stores. */
  function ProjectRecord(id: string, title: Value, description: Value, creator: Value): Record {
    map["id" := Str(id), "title" := title, "description" := description, "status" := Str("running"),
        "members" := Arr([creator])]
  }

  /** The store after a successful `create_project`. */
  function CreatedProject(t: Tables, proj: Record, userId: Value, pmSuffix: string, actSuffix: string, now: string): Tables
    requires HasCollections(t)
  {
    t[Projects := t[Projects] + [proj]]
     [ProjectMembers := WithMember(t[ProjectMembers], Get(proj, "id"), userId, "leader", GenId("pm", pmSuffix))]
     [Activities := t[Activities] + [ActivityRecord(GenId("act", actSuffix), Get(proj, "id"), userId, "created the project", now)]]
  }

  /**
   * `create_project`: 400 without a truthy title and no change; otherwise the project is stored
   * running with the caller as its only listed member, the caller is made its leader, one
   * activity is logged, and the answer is 201 with the project.
   */
  method CreateProject(db: Db, data: Record, userId: Value, projSuffix: string, pmSuffix: string,
                       actSuffix: string, now: string) returns (resp: Response)
    requires db.Valid()
    modifies db
    ensures db.Valid()
    ensures !PyTruthy(Get(data, "title")) ==> resp == Error("title required", 400) && db.tables == old(db.tables)
    ensures PyTruthy(Get(data, "title")) ==>
              var proj := ProjectRecord(GenId("proj", projSuffix), Get(data, "title"), GetOr(data, "description", Str("")), userId);
              && resp == Response(201, Obj(proj))
              && db.tables == CreatedProject(old(db.tables), proj, userId, pmSuffix, actSuffix, now)
  {
    var title := Get(data, "title");
    if !PyTruthy(title) {
      return Error("title required", 400);
    }
    var proj := ProjectRecord(GenId("proj", projSuffix), title, GetOr(data, "description", Str("")), userId);
    var _ := db.Insert(Projects, proj);
    var _ := db.AddMember(proj["id"], userId, "leader", pmSuffix);
    var _ := db.LogActivity(proj["id"], userId, "created the project", actSuffix, now);
    resp := Response(201, Obj(proj));
  }

  /**
   * What `create_project` stores is running whatever the body says, lists only the creator,
   * and the creator leads it afterwards.
   */
  lemma CreatedProjectLed(t: Tables, data: Record, userId: Value, projSuffix: string, pmSuffix: string,
                          actSuffix: string, now: string)
    requires HasCollections(t)
    ensures var proj := ProjectRecord(GenId("proj", projSuffix), Get(data, "title"), GetOr(data, "description", Str("")), userId);
            var after := CreatedProject(t, proj, userId, pmSuffix, actSuffix, now);
            && Get(after[Projects][|t[Projects]|], "status") == Str("running")
            && Get(after[Projects][|t[Projects]|], "members") == Arr([userId])
            && after[Projects][..|t[Projects]|] == t[Projects]
            && IsLeader(after[ProjectMembers], Str(GenId("proj", projSuffix)), userId)
  {
    var proj := ProjectRecord(GenId("proj", projSuffix), Get(data, "title"), GetOr(data, "description", Str("")), userId);
    AddLeaderLeads(t[ProjectMembers], Get(proj, "id"), userId, GenId("pm", pmSuffix));
  }

  /** The test `get_projects` applies to each project: the user has a membership in it. */
  function MemberOf(members: seq<Record>, userId: Value): Record -> bool {
    p => HasMembership(members, Get(p, "id"), userId)
  }

  /** The projects in which the user has a membership, in store order. */
  function VisibleProjects(projects: seq<Record>, members: seq<Record>, userId: Value): seq<Record> {
    Where(projects, MemberOf(members, userId))
  }

  /** `get_projects` lists exactly the projects the caller is a member of, nothing else. */
  lemma VisibleProjectsExact(projects: seq<Record>, members: seq<Record>, userId: Value)
    ensures forall p :: p in VisibleProjects(projects, members, userId) <==>
              p in projects && HasMembership(members, Get(p, "id"), userId)
    ensures |VisibleProjects(projects, members, userId)| <= |projects|
  {
    WherePartition(projects, MemberOf(members, userId));
    assert |multiset(Where(projects, MemberOf(members, userId)))| <= |multiset(projects)|;
  }

  /** `get_projects`: the loop over all projects with a membership lookup per project. */
  method GetProjects(db: Db, userId: Value) returns (resp: Response)
    requires db.Valid()
    ensures resp == Response(200, Arr(Objs(VisibleProjects(db.tables[Projects], db.tables[ProjectMembers], userId))))
  {
    var projects := db.tables[Projects];
    ghost var pred := MemberOf(db.tables[ProjectMembers], userId);
    var visible: seq<Record> := [];
    var k := 0;
    while k < |projects|
      invariant 0 <= k <= |projects|
      invariant visible == Where(projects[..k], pred)
    {
      var p := projects[k];
      var pm := db.Find(ProjectMembers, PairQuery(Get(p, "id"), userId));
      MembershipFound(db.tables[ProjectMembers], Get(p, "id"), userId);
      if pm != [] {
        visible := visible + [p];
      }
      assert projects[..k + 1] == projects[..k] + [p];
      WhereSnoc(projects[..k], p, pred);
      k := k + 1;
    }
    assert projects[..k] == projects;
    resp := Response(200, Arr(Objs(visible)));
  }

  // ---------------------------------------------------------------------------
  // get_teammates
  // ---------------------------------------------------------------------------

  /** The row `get_teammates` builds: the public user plus the membership's role. */
  function TeammateRow(u: Record, pm: Record): Record {
    map["id" := Get(u, "id"), "name" := Get(u, "name"), "email" := Get(u, "email"),
        "status" := GetOr(u, "status", Str("offline")), "role" := Get(pm, "role")]
  }

  /** One row per membership whose user is stored (the first with that id), in membership order. */
  function TeammateRows(pmList: seq<Record>, users: seq<Record>): seq<Record> {
    if pmList == [] then []
    else
      var pm := pmList[|pmList| - 1];
      var i := FirstIndex(users, "id", Get(pm, "userId"));
      TeammateRows(pmList[..|pmList| - 1], users)
        + if i < |users| && users[i] != map[] then [TeammateRow(users[i], pm)] else []
  }

  /** Every row belongs to one of the memberships and to the stored user it names. */
  lemma {:induction false} TeammateRowsSound(pmList: seq<Record>, users: seq<Record>)
    ensures |TeammateRows(pmList, users)| <= |pmList|
    ensures forall row :: row in TeammateRows(pmList, users) ==>
              exists pm, u :: pm in pmList && u in users && Get(u, "id") == Get(pm, "userId") && row == TeammateRow(u, pm)
  {
    if pmList != [] {
      var n := |pmList| - 1;
      TeammateRowsSound(pmList[..n], users);
      var pm := pmList[n];
      var i := FirstIndex(users, "id", Get(pm, "userId"));
      forall row | row in TeammateRows(pmList, users)
        ensures exists pm, u :: pm in pmList && u in users && Get(u, "id") == Get(pm, "userId") && row == TeammateRow(u, pm)
      {
        if row in TeammateRows(pmList[..n], users) {
          var pm', u :| pm' in pmList[..n] && u in users && Get(u, "id") == Get(pm', "userId") && row == TeammateRow(u, pm');
          assert pm' in pmList;
        } else {
          assert row == TeammateRow(users[i], pm);
          assert users[i] in users && pm in pmList;
        }
      }
    }
  }

  /** Conversely, every membership whose user is stored yields its row; none is dropped. */
  lemma {:induction false} TeammateRowsComplete(pmList: seq<Record>, users: seq<Record>)
    ensures forall k :: 0 <= k < |pmList| ==>
              var i := FirstIndex(users, "id", Get(pmList[k], "userId"));
              i < |users| && users[i] != map[] ==> TeammateRow(users[i], pmList[k]) in TeammateRows(pmList, users)
  {
    if pmList != [] {
      var n := |pmList| - 1;
      TeammateRowsComplete(pmList[..n], users);
      forall k | 0 <= k < n
        ensures pmList[k] == pmList[..n][k]
      {
      }
    }
  }

  /** The sort key of `get_teammates`: 0 for a leader's row, 1 otherwise. */
  function RoleKey(row: Record): nat {
    if IsLeaderEntry(row) then 0 else 1
  }

  /** Places `row` after every row whose key is not larger, as a stable sort does. */
  function InsertByRole(row: Record, sorted: seq<Record>): seq<Record> {
    if sorted == [] then [row]
    else if RoleKey(row) < RoleKey(sorted[0]) then [row] + sorted
    else [sorted[0]] + InsertByRole(row, sorted[1..])
  }

  /** `members.sort(key=lambda x: 0 if x["role"] == "leader" else 1)`: a stable sort by key. */
  function SortByRole(rows: seq<Record>): seq<Record> {
    if rows == [] then [] else InsertByRole(rows[|rows| - 1], SortByRole(rows[..|rows| - 1]))
  }

  /** Inserting into leaders-then-others puts a leader after the leaders and another row last. */
  lemma {:induction false} InsertByRoleSplit(row: Record, leaders: seq<Record>, others: seq<Record>)
    requires forall x :: x in leaders ==> IsLeaderEntry(x)
    requires forall x :: x in others ==> !IsLeaderEntry(x)
    ensures InsertByRole(row, leaders + others)
            == if IsLeaderEntry(row) then (leaders + [row]) + others else leaders + (others + [row])
  {
    if leaders != [] {
      assert (leaders + others)[0] == leaders[0];
      assert (leaders + others)[1..] == leaders[1..] + others;
      InsertByRoleSplit(row, leaders[1..], others);
    } else if others != [] {
      assert leaders + others == others;
      if !IsLeaderEntry(row) {
        assert others[0] in others;
        assert others[1..] + [] == others[1..];
        InsertByRoleSplit(row, [], others[1..]);
        assert [] + others[1..] == others[1..];
      }
    } else {
      assert leaders + others == [];
    }
  }

  lemma LeadersThenOthers(rows: seq<Record>)
    ensures forall x :: x in Where(rows, IsLeaderEntry) ==> IsLeaderEntry(x)
    ensures forall x :: x in WhereNot(rows, IsLeaderEntry) ==> !IsLeaderEntry(x)
  {
    WherePartition(rows, IsLeaderEntry);
  }

  /**
   * The stable sort by role is the leaders' rows in their listed order followed by every other
   * row in its listed order.
   */
  lemma {:induction false} SortByRoleLeadersFirst(rows: seq<Record>)
    ensures SortByRole(rows) == Where(rows, IsLeaderEntry) + WhereNot(rows, IsLeaderEntry)
  {
    if rows != [] {
      var n := |rows| - 1;
      SortByRoleLeadersFirst(rows[..n]);
      SortByRoleStep(rows[..n], rows[n]);
      SplitLast(rows);
    }
  }

  /** One more row keeps the sort equal to the partition. */
  lemma SortByRoleStep(init: seq<Record>, last: Record)
    requires SortByRole(init) == Where(init, IsLeaderEntry) + WhereNot(init, IsLeaderEntry)
    ensures SortByRole(init + [last]) == Where(init + [last], IsLeaderEntry) + WhereNot(init + [last], IsLeaderEntry)
  {
    var leaders, others := Where(init, IsLeaderEntry), WhereNot(init, IsLeaderEntry);
    assert (init + [last])[..|init|] == init;
    assert SortByRole(init + [last]) == InsertByRole(last, leaders + others);
    LeadersThenOthers(init);
    InsertByRoleSplit(last, leaders, others);
    WhereSnoc(init, last, IsLeaderEntry);
  }

  /** The sorted rows are the same rows, and no non-leader's row comes before a leader's. */
  lemma SortByRolePermutes(rows: seq<Record>)
    ensures multiset(SortByRole(rows)) == multiset(rows)
    ensures forall i, j :: 0 <= i < j < |SortByRole(rows)| && IsLeaderEntry(SortByRole(rows)[j]) ==>
              IsLeaderEntry(SortByRole(rows)[i])
  {
    SortByRoleLeadersFirst(rows);
    WherePartition(rows, IsLeaderEntry);
    var leaders, others := Where(rows, IsLeaderEntry), WhereNot(rows, IsLeaderEntry);
    var s := SortByRole(rows);
    forall i, j | 0 <= i < j < |s| && IsLeaderEntry(s[j]) ensures IsLeaderEntry(s[i]) {
      if j >= |leaders| {
        assert false;
      } else {
        assert s[i] == leaders[i];
        assert s[i] in leaders;
      }
    }
  }

  /** One step of `get_teammates`' loop: the row of membership `k`, when its user is stored. */
  method JoinTeammate(db: Db, pmList: seq<Record>, k: nat, members: seq<Record>) returns (out: seq<Record>)
    requires db.Valid() && k < |pmList|
    requires members == TeammateRows(pmList[..k], db.tables[Users])
    ensures out == TeammateRows(pmList[..k + 1], db.tables[Users])
  {
    var pm := pmList[k];
    var u := db.FindOne(Users, "id", Get(pm, "userId"));
    assert pmList[..k + 1][..k] == pmList[..k];
    out := members;
    if u.Some? && u.value != map[] {
      out := members + [TeammateRow(u.value, pm)];
    }
  }

  /**
   * `get_teammates`: 400 without a truthy projectId; otherwise one row per membership of the
   * project whose user is stored, leaders' rows first, each group in membership order.
   */
  method GetTeammates(db: Db, projectId: Option<string>) returns (resp: Response)
    requires db.Valid()
    ensures !Truthy(projectId) ==> resp == Error("projectId required", 400)
    ensures Truthy(projectId) ==>
              var rows := TeammateRows(Select(db.tables[ProjectMembers], [("projectId", Str(projectId.value))]), db.tables[Users]);
              resp == Response(200, Arr(Objs(Where(rows, IsLeaderEntry) + WhereNot(rows, IsLeaderEntry))))
  {
    if !Truthy(projectId) {
      return Error("projectId required", 400);
    }
    var pmList := db.Find(ProjectMembers, [("projectId", Str(projectId.value))]);
    var users := db.tables[Users];
    var members: seq<Record> := [];
    var k := 0;
    while k < |pmList|
      invariant 0 <= k <= |pmList|
      invariant members == TeammateRows(pmList[..k], users)
    {
      members := JoinTeammate(db, pmList, k, members);
      k := k + 1;
    }
    assert pmList[..k] == pmList;
    SortByRoleLeadersFirst(members);
    members := SortByRole(members);
    resp := Response(200, Arr(Objs(members)));
  }

  // ---------------------------------------------------------------------------
  // list_invites, get_activities_route
  // ---------------------------------------------------------------------------

  /** An invite `list_invites` shows for the project: of that project and still pending. */
  predicate PendingFor(inv: Record, projectId: string) {
    Get(inv, "projectId") == Str(projectId) && Get(inv, "status") == Str("pending")
  }

  /** The filter of `list_invites` as a test on invites. */
  function Pending(projectId: string): Record -> bool {
    inv => PendingFor(inv, projectId)
  }

  /**
   * `list_invites`: with a truthy projectId the project's pending invites in store order,
   * otherwise every stored invite.
   */
  function ListInvites(invites: seq<Record>, projectId: Option<string>): (resp: Response)
    ensures resp.status == 200 && resp.body.Arr?
    ensures !Truthy(projectId) ==> resp.body == Arr(Objs(invites))
    ensures Truthy(projectId) ==>
              resp.body == Arr(Objs(Where(invites, Pending(projectId.value))))
              && forall inv :: inv in Where(invites, Pending(projectId.value)) <==>
                                 inv in invites && PendingFor(inv, projectId.value)
  {
    if Truthy(projectId) then
      WherePartition(invites, Pending(projectId.value));
      Response(200, Arr(Objs(Where(invites, Pending(projectId.value)))))
    else Response(200, Arr(Objs(invites)))
  }

  /**
   * `get_activities_route`: 400 without a truthy projectId, 403 when the caller has no
   * membership in the project; otherwise the project's activities, newest first.
   */
  method GetActivities(db: Db, projectId: Option<string>, userId: Value) returns (resp: Response)
    requires db.Valid()
    ensures !Truthy(projectId) ==> resp == Error("projectId required", 400)
    ensures Truthy(projectId) && !HasMembership(db.tables[ProjectMembers], Str(projectId.value), userId) ==>
              resp == Error("Not authorized", 403)
    ensures Truthy(projectId) && HasMembership(db.tables[ProjectMembers], Str(projectId.value), userId) ==>
              resp == Response(200, Arr(Objs(SortNewestFirst(Select(db.tables[Activities], [("projectId", Str(projectId.value))])))))
  {
    if !Truthy(projectId) {
      return Error("projectId required", 400);
    }
    var pm := db.Find(ProjectMembers, PairQuery(Str(projectId.value), userId));
    MembershipFound(db.tables[ProjectMembers], Str(projectId.value), userId);
    if pm == [] {
      return Error("Not authorized", 403);
    }
    var acts := db.GetProjectActivities(Str(projectId.value));
    resp := Response(200, Arr(Objs(acts)));
  }
}
