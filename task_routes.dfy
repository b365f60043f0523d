/**
 * The task and milestone handlers of backend/app.py. Both resources follow one pattern
 * (list by project, create with required fields, update through a whitelist, delete, each
 * change logged as an activity); `Kind` selects the collection, the labels, the required
 * fields and the whitelist. The caller's id comes from the token check; the random parts of
 * generated ids and the request's timestamp are inputs.
 */
module TaskRoutes {
  import opened Wrappers
  import opened Json
  import opened Store
  import opened Http

  datatype Kind = TaskKind | MilestoneKind

  function CollectionOf(kind: Kind): Collection {
    match kind
    case TaskKind => Tasks
    case MilestoneKind => Milestones
  }

  /** The word used in messages and activity descriptions. */
  function Label(kind: Kind): string {
    match kind
    case TaskKind => "task"
    case MilestoneKind => "milestone"
  }

  /** The prefix of generated ids. */
  function Prefix(kind: Kind): string {
    match kind
    case TaskKind => "task"
    case MilestoneKind => "mile"
  }

  /** The body keys a create must carry, in the order they are checked. */
  function Required(kind: Kind): seq<string> {
    match kind
    case TaskKind => ["title", "priority", "status", "projectId"]
    case MilestoneKind => ["title", "projectId"]
  }

  /** The keys an update may copy from the body. */
  function Allowed(kind: Kind): seq<string> {
    match kind
    case TaskKind => ["title", "description", "priority", "status", "assigneeId"]
    case MilestoneKind => ["title", "description", "dueDate", "status", "progress"]
  }

  /** The record a create stores: the body's fields with their defaults, both timestamps `now`. */
  function NewItem(kind: Kind, id: string, data: Record, now: string): Record {
    match kind
    case TaskKind =>
      map["id" := Str(id), "title" := Get(data, "title"), "description" := GetOr(data, "description", Str("")),
          "priority" := Get(data, "priority"), "status" := Get(data, "status"),
          "assigneeId" := Get(data, "assigneeId"), "projectId" := Get(data, "projectId"),
          "createdAt" := Str(now), "updatedAt" := Str(now)]
    case MilestoneKind =>
      map["id" := Str(id), "title" := Get(data, "title"), "description" := GetOr(data, "description", Str("")),
          "dueDate" := Get(data, "dueDate"), "progress" := GetOr(data, "progress", Num(0)),
          "status" := GetOr(data, "status", Str("pending")), "projectId" := Get(data, "projectId"),
          "createdAt" := Str(now), "updatedAt" := Str(now)]
  }

  /** The description a handler logs: "<verb> <label>: <title>". */
  function Describe(verb: string, kind: Kind, title: Value): string {
    verb + " " + Label(kind) + ": " + PyStr(title)
  }

  function ItemActivity(verb: string, kind: Kind, projectId: Value, userId: Value, title: Value,
                        actSuffix: string, now: string): Record {
    ActivityRecord(GenId("act", actSuffix), projectId, userId, Describe(verb, kind, title), now)
  }

  // ---------------------------------------------------------------------------
  // Listing
  // ---------------------------------------------------------------------------

  /**
   * `get_tasks`: 400 without a truthy projectId, 403 when the caller has no membership in the
   * project, otherwise the project's tasks in store order.
   */
  method GetTasks(db: Db, projectId: Option<string>, userId: Value) returns (resp: Response)
    requires db.Valid()
    ensures !Truthy(projectId) ==> resp == Error("projectId required", 400)
    ensures Truthy(projectId) && !HasMembership(db.tables[ProjectMembers], Str(projectId.value), userId) ==>
              resp == Error("Not authorized", 403)
    ensures Truthy(projectId) && HasMembership(db.tables[ProjectMembers], Str(projectId.value), userId) ==>
              resp == Response(200, Arr(Objs(Select(db.tables[Tasks], [("projectId", Str(projectId.value))]))))
  {
    if !Truthy(projectId) {
      return Error("projectId required", 400);
    }
    var pm := db.Find(ProjectMembers, PairQuery(Str(projectId.value), userId));
    MembershipFound(db.tables[ProjectMembers], Str(projectId.value), userId);
    if pm == [] {
      return Error("Not authorized", 403);
    }
    var tasks := db.Find(Tasks, [("projectId", Str(projectId.value))]);
    resp := Response(200, Arr(Objs(tasks)));
  }

  /** `get_milestones`: 400 without a truthy projectId, otherwise the project's milestones; no membership check. */
  method GetMilestones(db: Db, projectId: Option<string>) returns (resp: Response)
    requires db.Valid()
    ensures !Truthy(projectId) ==> resp == Error("projectId required", 400)
    ensures Truthy(projectId) ==>
              resp == Response(200, Arr(Objs(Select(db.tables[Milestones], [("projectId", Str(projectId.value))]))))
  {
    if !Truthy(projectId) {
      return Error("projectId required", 400);
    }
    var miles := db.Find(Milestones, [("projectId", Str(projectId.value))]);
    resp := Response(200, Arr(Objs(miles)));
  }

  /** The listings return exactly the project's records: each of them and nothing else. */
  lemma ListingExact(items: seq<Record>, projectId: string)
    ensures forall x :: x in Select(items, [("projectId", Str(projectId))]) <==>
              x in items && Get(x, "projectId") == Str(projectId)
  {
    SelectMembers(items, [("projectId", Str(projectId))]);
    forall x ensures Matches(x, [("projectId", Str(projectId))]) <==> Get(x, "projectId") == Str(projectId) {
      MatchesOne(x, "projectId", Str(projectId));
    }
  }

  // ---------------------------------------------------------------------------
  // Create
  // ---------------------------------------------------------------------------

  /**
   * `create_task_route` and `create_milestone`: 400 naming the first missing required key,
   * with no change; otherwise the new record is appended, "created <label>: <title>" is
   * logged for the body's project, and the answer is 201 with the record.
   */
  method CreateItem(db: Db, kind: Kind, data: Record, userId: Value, itemSuffix: string,
                    actSuffix: string, now: string) returns (resp: Response)
    requires db.Valid()
    modifies db
    ensures db.Valid()
    ensures FirstMissing(data, Required(kind)).Some? ==>
              resp == Error(FirstMissing(data, Required(kind)).value + " is required", 400)
              && db.tables == old(db.tables)
    ensures FirstMissing(data, Required(kind)).None? ==>
              var item := NewItem(kind, GenId(Prefix(kind), itemSuffix), data, now);
              var c := CollectionOf(kind);
              && resp == Response(201, Obj(item))
              && db.tables == Logged(old(db.tables), c, old(db.tables[c]) + [item],
                                     ItemActivity("created", kind, Get(data, "projectId"), userId, Get(item, "title"), actSuffix, now))
  {
    var missing := CheckRequired(data, Required(kind));
    if missing.Some? {
      return Error(missing.value + " is required", 400);
    }
    var item := NewItem(kind, GenId(Prefix(kind), itemSuffix), data, now);
    var _ := db.Insert(CollectionOf(kind), item);
    var _ := db.LogActivity(Get(data, "projectId"), userId, Describe("created", kind, Get(item, "title")), actSuffix, now);
    resp := Response(201, Obj(item));
  }

  /**
   * A created record carries the generated id, the body's title and project, and both
   * timestamps `now`; a milestone's progress and status default to 0 and "pending".
   */
  lemma NewItemFields(kind: Kind, id: string, data: Record, now: string)
    ensures var item := NewItem(kind, id, data, now);
            && item["id"] == Str(id) && item["title"] == Get(data, "title")
            && item["projectId"] == Get(data, "projectId")
            && item["createdAt"] == Str(now) && item["updatedAt"] == Str(now)
            && item["description"] == (if "description" in data then data["description"] else Str(""))
            && (kind == MilestoneKind ==>
                  && item["progress"] == (if "progress" in data then data["progress"] else Num(0))
                  && item["status"] == (if "status" in data then data["status"] else Str("pending")))
  {
  }

  /** A task create reports title before priority before status before projectId. */
  lemma TaskCreateChecksInOrder(data: Record)
    ensures "title" !in data ==> FirstMissing(data, Required(TaskKind)) == Some("title")
    ensures "title" in data && "priority" !in data ==> FirstMissing(data, Required(TaskKind)) == Some("priority")
    ensures "title" in data && "priority" in data && "status" !in data ==>
              FirstMissing(data, Required(TaskKind)) == Some("status")
    ensures "title" in data && "priority" in data && "status" in data && "projectId" !in data ==>
              FirstMissing(data, Required(TaskKind)) == Some("projectId")
  {
    var r := Required(TaskKind);
    assert r[0] == "title" && r[1..] == ["priority", "status", "projectId"];
    assert r[1..][0] == "priority" && r[1..][1..] == ["status", "projectId"];
    assert r[1..][1..][0] == "status" && r[1..][1..][1..] == ["projectId"];
    assert r[1..][1..][1..][0] == "projectId";
    assert FirstMissing(data, r) == (if "title" !in data then Some("title") else FirstMissing(data, r[1..]));
    assert FirstMissing(data, r[1..]) ==
             (if "priority" !in data then Some("priority") else FirstMissing(data, r[1..][1..]));
    assert FirstMissing(data, r[1..][1..]) ==
             (if "status" !in data then Some("status") else FirstMissing(data, r[1..][1..][1..]));
    assert FirstMissing(data, r[1..][1..][1..]) ==
             (if "projectId" !in data then Some("projectId") else FirstMissing(data, r[1..][1..][1..][1..]));
  }

  // ---------------------------------------------------------------------------
  // Update
  // ---------------------------------------------------------------------------

  /** The record after an update: the whitelisted keys copied from the body, then `updatedAt`. */
  function Patched(item: Record, patch: Record, allowed: seq<string>, now: string): Record {
    CopyKeys(item, patch, allowed)["updatedAt" := Str(now)]
  }

  /**
   * An update changes only whitelisted keys and `updatedAt`: a whitelisted key takes the body's
   * value when the body has it, `id`, `projectId` and `createdAt` keep theirs, and `updatedAt`
   * becomes `now`.
   */
  lemma PatchedKeepsIdentity(kind: Kind, item: Record, patch: Record, now: string)
    ensures var r := Patched(item, patch, Allowed(kind), now);
            && r["updatedAt"] == Str(now)
            && (forall k :: k in Allowed(kind) ==>
                  Get(r, k) == if k in patch then patch[k] else Get(item, k))
            && (forall k :: k !in Allowed(kind) && k != "updatedAt" ==>
                  (k in r <==> k in item) && Get(r, k) == Get(item, k))
            && Get(r, "id") == Get(item, "id") && Get(r, "projectId") == Get(item, "projectId")
            && Get(r, "createdAt") == Get(item, "createdAt")
  {
    CopyKeysSpec(item, patch, Allowed(kind));
    assert "id" !in Allowed(kind) && "projectId" !in Allowed(kind) && "createdAt" !in Allowed(kind);
  }

  /**
   * `update_task` and `update_milestone`: 404 with no change when no stored record (an empty
   * one counts as none) has the id; otherwise the first record with the id is patched in place,
   * "updated <label>: <title>" is logged for its project, and the answer is the record.
   */
  method UpdateItem(db: Db, kind: Kind, itemId: string, patch: Record, userId: Value,
                    actSuffix: string, now: string) returns (resp: Response)
    requires db.Valid()
    modifies db
    ensures db.Valid()
    ensures var items := old(db.tables[CollectionOf(kind)]);
            var i := FirstIndex(items, "id", Str(itemId));
            !(i < |items| && items[i] != map[]) ==>
              resp == Error(Label(kind) + " not found", 404) && db.tables == old(db.tables)
    ensures var items := old(db.tables[CollectionOf(kind)]);
            var i := FirstIndex(items, "id", Str(itemId));
            i < |items| && items[i] != map[] ==>
              var item := Patched(items[i], patch, Allowed(kind), now);
              && resp == Response(200, Obj(item))
              && db.tables == Logged(old(db.tables), CollectionOf(kind), items[i := item],
                                     ItemActivity("updated", kind, Get(item, "projectId"), userId, Get(item, "title"), actSuffix, now))
  {
    var c := CollectionOf(kind);
    var found := db.FindOne(c, "id", Str(itemId));
    if found.None? || found.value == map[] {
      return Error(Label(kind) + " not found", 404);
    }
    var item := ApplyAllowed(found.value, patch, Allowed(kind));
    item := item["updatedAt" := Str(now)];
    var items := db.tables[c];
    var i := FirstIndex(items, "id", Str(itemId));
    db.tables := db.tables[c := items[i := item]];
    var _ := db.LogActivity(Get(item, "projectId"), userId, Describe("updated", kind, Get(item, "title")), actSuffix, now);
    resp := Response(200, Obj(item));
  }

  // ---------------------------------------------------------------------------
  // Delete
  // ---------------------------------------------------------------------------

  /**
   * `delete_task` and `delete_milestone`: 404 with no change when no stored record has the id;
   * otherwise the first record with the id is removed, "deleted <label>: <title>" is logged
   * for its project, and the answer is `{"ok": true}`.
   */
  method DeleteItem(db: Db, kind: Kind, itemId: string, userId: Value, actSuffix: string, now: string)
    returns (resp: Response)
    requires db.Valid()
    modifies db
    ensures db.Valid()
    ensures var items := old(db.tables[CollectionOf(kind)]);
            var i := FirstIndex(items, "id", Str(itemId));
            !(i < |items| && items[i] != map[]) ==>
              resp == Error(Label(kind) + " not found", 404) && db.tables == old(db.tables)
    ensures var items := old(db.tables[CollectionOf(kind)]);
            var i := FirstIndex(items, "id", Str(itemId));
            i < |items| && items[i] != map[] ==>
              && resp == Response(200, OkBody)
              && db.tables == Logged(old(db.tables), CollectionOf(kind), items[..i] + items[i + 1..],
                                     ItemActivity("deleted", kind, Get(items[i], "projectId"), userId, Get(items[i], "title"), actSuffix, now))
  {
    var c := CollectionOf(kind);
    var found := db.FindOne(c, "id", Str(itemId));
    if found.None? || found.value == map[] {
      return Error(Label(kind) + " not found", 404);
    }
    var item := found.value;
    var _ := db.Delete(c, Str(itemId));
    var _ := db.LogActivity(Get(item, "projectId"), userId, Describe("deleted", kind, Get(item, "title")), actSuffix, now);
    resp := Response(200, OkBody);
  }

  /** A delete removes exactly the found record: one fewer, every other record kept in order. */
  lemma DeleteRemovesOne(items: seq<Record>, i: nat)
    requires i < |items|
    ensures |items[..i] + items[i + 1..]| == |items| - 1
    ensures multiset(items[..i] + items[i + 1..]) + multiset{items[i]} == multiset(items)
  {
    assert items == items[..i] + [items[i]] + items[i + 1..];
  }
}
