/**
 * The backend's in-memory table store (backend/models.py): a dictionary from collection
 * name to a list of records, the generic helpers that query and change those lists in
 * place, and the helpers for activities, project members, invites and chat threads.
 *
 * Records are JSON-like dictionaries. Random ids (`gen_id`) and the clock (`now_iso`) are
 * inputs: a generated id is `prefix + "-" + suffix` with the random `suffix` given by the
 * caller, and nothing here assumes two suffixes differ.
 */
module Store {
  import opened Wrappers
  import opened Json
  import Text

  type Record = map<string, Value>

  /** A `find` query: the keyword arguments, in the order they were passed. */
  type Query = seq<(string, Value)>

  /**
   * The eight collections of the `db` literal, named in the source "users", "projects",
   * "tasks", "milestones", "chat_threads", "activities", "project_members" and "invites".
   */
  datatype Collection = Users | Projects | Tasks | Milestones | ChatThreads | Activities | ProjectMembers | Invites

  /** Every collection of the `db` literal is present in the tables. */
  predicate HasCollections(t: map<Collection, seq<Record>>) {
    && Users in t && Projects in t && Tasks in t && Milestones in t
    && ChatThreads in t && Activities in t && ProjectMembers in t && Invites in t
  }

  /** `item.get(k)`: the stored value, or None when the key is absent. */
  function Get(r: Record, k: string): Value {
    if k in r then r[k] else Null
  }

  /** `item.get(k, default)`. */
  function GetOr(r: Record, k: string, default: Value): Value {
    if k in r then r[k] else default
  }

  /** `gen_id(prefix)`, with the random part supplied. */
  function GenId(prefix: string, suffix: string): string {
    prefix + "-" + suffix
  }

  // ---------------------------------------------------------------------------
  // Specification of the query helpers
  // ---------------------------------------------------------------------------

  /** Every queried key holds the queried value (a missing key reads as None). */
  predicate Matches(r: Record, q: Query) {
    forall j :: 0 <= j < |q| ==> Get(r, q[j].0) == q[j].1
  }

  /** A one-key query matches exactly the items holding that value under that key. */
  lemma MatchesOne(r: Record, key: string, v: Value)
    ensures Matches(r, [(key, v)]) <==> Get(r, key) == v
  {
    assert [(key, v)][0] == (key, v);
  }

  /** What `find` returns: the stored items matching the query, in stored order. */
  function Select(items: seq<Record>, q: Query): seq<Record> {
    if items == [] then []
    else (if Matches(items[0], q) then [items[0]] else []) + Select(items[1..], q)
  }

  /** Index of the first item whose `key` holds `v`; `|items|` when there is none. */
  function FirstIndex(items: seq<Record>, key: string, v: Value): (i: nat)
    ensures i <= |items|
    ensures i < |items| ==> Get(items[i], key) == v
    ensures forall j :: 0 <= j < i ==> Get(items[j], key) != v
  {
    if items == [] then 0
    else if Get(items[0], key) == v then 0
    else 1 + FirstIndex(items[1..], key, v)
  }

  /** Index of the first item matching a query; `|items|` when there is none. */
  function FirstMatch(items: seq<Record>, q: Query): (i: nat)
    ensures i <= |items|
    ensures i < |items| ==> Matches(items[i], q)
    ensures forall j :: 0 <= j < i ==> !Matches(items[j], q)
  {
    if items == [] then 0
    else if Matches(items[0], q) then 0
    else 1 + FirstMatch(items[1..], q)
  }

  /** `find` keeps exactly the matching items: nothing else, and none of them is lost. */
  lemma {:induction false} SelectMembers(items: seq<Record>, q: Query)
    ensures forall x :: x in Select(items, q) <==> x in items && Matches(x, q)
  {
    if items != [] {
      SelectMembers(items[1..], q);
      assert items == [items[0]] + items[1..];
    }
  }

  /** `find` distributes over concatenation, so it keeps the stored order. */
  lemma {:induction false} SelectAppend(a: seq<Record>, b: seq<Record>, q: Query)
    ensures Select(a + b, q) == Select(a, q) + Select(b, q)
  {
    if a != [] {
      assert (a + b)[0] == a[0];
      assert (a + b)[1..] == a[1..] + b;
      SelectAppend(a[1..], b, q);
      var h := if Matches(a[0], q) then [a[0]] else [];
      assert Select(a + b, q) == h + (Select(a[1..], q) + Select(b, q));
      assert Select(a, q) == h + Select(a[1..], q);
    } else {
      assert a + b == b;
    }
  }

  /** An empty query returns the whole collection. */
  lemma {:induction false} SelectEmptyQuery(items: seq<Record>)
    ensures Select(items, []) == items
  {
    if items != [] {
      SelectEmptyQuery(items[1..]);
      assert Matches(items[0], []);
      assert items == [items[0]] + items[1..];
    }
  }

  /** The first item `find` returns is the first stored match. */
  lemma {:induction false} SelectHead(items: seq<Record>, q: Query)
    ensures Select(items, q) != [] <==> FirstMatch(items, q) < |items|
    ensures Select(items, q) != [] ==> Select(items, q)[0] == items[FirstMatch(items, q)]
  {
    if items != [] && !Matches(items[0], q) {
      SelectHead(items[1..], q);
    }
  }

  // ---------------------------------------------------------------------------
  // Specification of delete
  // ---------------------------------------------------------------------------

  /**
   * What `delete(collection, id)` leaves: the first item with that id removed. Python's
   * `if not item` also treats an empty dictionary as "not found".
   */
  function DeleteId(items: seq<Record>, id: Value): seq<Record> {
    var i := FirstIndex(items, "id", id);
    if i < |items| && items[i] != map[] then items[..i] + items[i + 1..] else items
  }

  /** The deletions a loop of `delete` calls performs, in order. */
  function DeleteIds(items: seq<Record>, ids: seq<Value>): seq<Record> {
    if ids == [] then items else DeleteIds(DeleteId(items, ids[0]), ids[1..])
  }

  /** `[x["id"] for x in xs]`. */
  function IdsOf(xs: seq<Record>): seq<Value> {
    if xs == [] then [] else [Get(xs[0], "id")] + IdsOf(xs[1..])
  }

  /** Every record carries an "id" key and no two carry the same one. */
  predicate UniqueIds(items: seq<Record>) {
    && (forall i :: 0 <= i < |items| ==> "id" in items[i])
    && (forall i, j :: 0 <= i < j < |items| ==> Get(items[i], "id") != Get(items[j], "id"))
  }

  /** The items satisfying `p`, in order. */
  function Where(items: seq<Record>, p: Record -> bool): seq<Record> {
    if items == [] then [] else (if p(items[0]) then [items[0]] else []) + Where(items[1..], p)
  }

  /** The items not satisfying `p`, in order. */
  function WhereNot(items: seq<Record>, p: Record -> bool): seq<Record> {
    if items == [] then [] else (if p(items[0]) then [] else [items[0]]) + WhereNot(items[1..], p)
  }

  lemma SplitLast(items: seq<Record>)
    requires items != []
    ensures items == items[..|items| - 1] + [items[|items| - 1]]
  {
  }

  /** Filtering one more item at the end adds it exactly when it passes. */
  lemma {:induction false} WhereSnoc(items: seq<Record>, x: Record, p: Record -> bool)
    ensures p(x) ==> Where(items + [x], p) == Where(items, p) + [x] && WhereNot(items + [x], p) == WhereNot(items, p)
    ensures !p(x) ==> Where(items + [x], p) == Where(items, p) && WhereNot(items + [x], p) == WhereNot(items, p) + [x]
  {
    if items == [] {
      assert [x][1..] == [];
    } else {
      assert (items + [x])[0] == items[0];
      assert (items + [x])[1..] == items[1..] + [x];
      WhereSnoc(items[1..], x, p);
    }
  }

  /** Splitting by a test loses and invents nothing. */
  lemma {:induction false} WherePartition(items: seq<Record>, p: Record -> bool)
    ensures multiset(Where(items, p)) + multiset(WhereNot(items, p)) == multiset(items)
    ensures forall x :: x in Where(items, p) <==> x in items && p(x)
    ensures forall x :: x in WhereNot(items, p) <==> x in items && !p(x)
  {
    if items != [] {
      WherePartition(items[1..], p);
      assert items == [items[0]] + items[1..];
    }
  }

  lemma DeleteIdsAppend(items: seq<Record>, ids: seq<Value>, id: Value)
    ensures DeleteIds(items, ids + [id]) == DeleteId(DeleteIds(items, ids), id)
    decreases |ids|
  {
    if ids != [] {
      assert (ids + [id])[0] == ids[0];
      assert (ids + [id])[1..] == ids[1..] + [id];
      DeleteIdsAppend(DeleteId(items, ids[0]), ids[1..], id);
    } else {
      assert ids + [id] == [id];
      assert [id][1..] == [];
    }
  }

  /** Deleting an id the head does not carry leaves the head in front. */
  lemma DeleteIdPastHead(x: Record, rest: seq<Record>, id: Value)
    requires Get(x, "id") != id
    ensures DeleteId([x] + rest, id) == [x] + DeleteId(rest, id)
  {
    var items := [x] + rest;
    assert items[0] == x;
    assert items[1..] == rest;
    var i := FirstIndex(rest, "id", id);
    assert FirstIndex(items, "id", id) == i + 1;
    if i < |rest| && rest[i] != map[] {
      assert items[..i + 1] == [x] + rest[..i];
      assert items[i + 2..] == rest[i + 1..];
    }
  }

  lemma {:induction false} DeleteIdsPastHead(x: Record, rest: seq<Record>, ids: seq<Value>)
    requires forall k :: 0 <= k < |ids| ==> Get(x, "id") != ids[k]
    ensures DeleteIds([x] + rest, ids) == [x] + DeleteIds(rest, ids)
    decreases |ids|
  {
    if ids != [] {
      DeleteIdPastHead(x, rest, ids[0]);
      DeleteIdsPastHead(x, DeleteId(rest, ids[0]), ids[1..]);
    }
  }

  /** An id no item carries is not among the ids of any selection of those items. */
  lemma {:induction false} IdAbsentFromSelection(items: seq<Record>, p: Record -> bool, v: Value)
    requires forall j :: 0 <= j < |items| ==> Get(items[j], "id") != v
    ensures v !in IdsOf(Where(items, p))
  {
    if items != [] {
      IdAbsentFromSelection(items[1..], p, v);
      var w := Where(items, p);
      if p(items[0]) {
        assert w == [items[0]] + Where(items[1..], p);
        assert IdsOf(w) == [Get(items[0], "id")] + IdsOf(Where(items[1..], p));
      } else {
        assert w == Where(items[1..], p);
      }
    }
  }

  /**
   * When ids are unique, deleting (one by one) the ids of the items satisfying `p` removes
   * exactly those items and keeps every other item in its order.
   */
  lemma {:induction false} DeleteSelectedIds(items: seq<Record>, p: Record -> bool)
    requires UniqueIds(items)
    ensures DeleteIds(items, IdsOf(Where(items, p))) == WhereNot(items, p)
  {
    if items != [] {
      var x, rest := items[0], items[1..];
      assert items == [x] + rest;
      assert UniqueIds(rest) by {
        forall i, j | 0 <= i < j < |rest| ensures Get(rest[i], "id") != Get(rest[j], "id") {
          assert rest[i] == items[i + 1] && rest[j] == items[j + 1];
        }
      }
      var restIds := IdsOf(Where(rest, p));
      DeleteSelectedIds(rest, p);
      assert items[1..] == rest;
      assert items[0] == x;
      if p(x) {
        assert Where(items, p) == [x] + Where(rest, p);
        assert IdsOf(Where(items, p)) == [Get(x, "id")] + restIds;
        assert "id" in x;
        assert x != map[];
        assert FirstIndex(items, "id", Get(x, "id")) == 0;
        assert DeleteId(items, Get(x, "id")) == rest;
      } else {
        assert Where(items, p) == Where(rest, p);
        IdAbsentFromSelection(rest, p, Get(x, "id")) by {
          forall j | 0 <= j < |rest| ensures Get(rest[j], "id") != Get(x, "id") {
            assert rest[j] == items[j + 1];
          }
        }
        DeleteIdsPastHead(x, rest, restIds);
      }
    }
  }

  function MatchesQuery(q: Query): Record -> bool {
    r => Matches(r, q)
  }

  lemma {:induction false} SelectIsWhere(items: seq<Record>, q: Query)
    ensures Select(items, q) == Where(items, MatchesQuery(q))
  {
    if items != [] {
      SelectIsWhere(items[1..], q);
    }
  }

  /**
   * When ids are unique, deleting one by one the ids of what a query finds removes exactly
   * the matching items and keeps the others in order.
   */
  lemma DeleteFound(items: seq<Record>, q: Query)
    requires UniqueIds(items)
    ensures DeleteIds(items, IdsOf(Select(items, q))) == WhereNot(items, MatchesQuery(q))
  {
    SelectIsWhere(items, q);
    DeleteSelectedIds(items, MatchesQuery(q));
  }

  // ---------------------------------------------------------------------------
  // Specification of the member helpers
  // ---------------------------------------------------------------------------

  function PairQuery(projectId: Value, userId: Value): Query {
    [("projectId", projectId), ("userId", userId)]
  }

  predicate IsLeaderEntry(r: Record) {
    Get(r, "role") == Str("leader")
  }

  /** No two membership entries share a (projectId, userId) pair. */
  predicate UniquePairs(members: seq<Record>) {
    forall i, j :: 0 <= i < j < |members| ==>
      !(Get(members[i], "projectId") == Get(members[j], "projectId")
        && Get(members[i], "userId") == Get(members[j], "userId"))
  }

  function MemberRecord(id: string, projectId: Value, userId: Value, role: string): Record {
    map["id" := Str(id), "projectId" := projectId, "userId" := userId, "role" := Str(role)]
  }

  /** The membership table after `add_member`. */
  function WithMember(members: seq<Record>, projectId: Value, userId: Value, role: string, id: string): seq<Record> {
    var i := FirstMatch(members, PairQuery(projectId, userId));
    if i < |members| then
      if !IsLeaderEntry(members[i]) then members[i := members[i]["role" := Str(role)]] else members
    else members + [MemberRecord(id, projectId, userId, role)]
  }

  /**
   * `add_member` never creates a second entry for a pair: the table grows only when the pair
   * had no entry, and a table without duplicate pairs stays without them.
   */
  lemma WithMemberKeepsPairsUnique(members: seq<Record>, projectId: Value, userId: Value, role: string, id: string)
    requires UniquePairs(members)
    ensures UniquePairs(WithMember(members, projectId, userId, role, id))
    ensures |WithMember(members, projectId, userId, role, id)| ==
            if FirstMatch(members, PairQuery(projectId, userId)) < |members| then |members| else |members| + 1
  {
    var q := PairQuery(projectId, userId);
    var i := FirstMatch(members, q);
    var r := WithMember(members, projectId, userId, role, id);
    if i == |members| {
      forall a, b | 0 <= a < b < |r|
        ensures !(Get(r[a], "projectId") == Get(r[b], "projectId") && Get(r[a], "userId") == Get(r[b], "userId"))
      {
        if b == |members| {
          assert !Matches(members[a], q);
        }
      }
    }
  }

  /**
   * After `add_member` the pair has an entry, and the role of its first entry is the new role
   * unless that entry already was a leader's, which stays a leader's. Every other entry is
   * left as it was.
   */
  lemma WithMemberRole(members: seq<Record>, projectId: Value, userId: Value, role: string, id: string)
    ensures var r := WithMember(members, projectId, userId, role, id);
            var q := PairQuery(projectId, userId);
            var i := FirstMatch(members, q);
            && FirstMatch(r, q) == i && i < |r|
            && (i < |members| && IsLeaderEntry(members[i]) ==> r[i] == members[i])
            && (!(i < |members| && IsLeaderEntry(members[i])) ==> Get(r[i], "role") == Str(role))
            && (forall k :: 0 <= k < |members| && k != i ==> r[k] == members[k])
  {
    var r := WithMember(members, projectId, userId, role, id);
    var q := PairQuery(projectId, userId);
    var i := FirstMatch(members, q);
    if i < |members| {
      assert Matches(r[i], q) by {
        assert Get(r[i], "projectId") == Get(members[i], "projectId");
        assert Get(r[i], "userId") == Get(members[i], "userId");
      }
    } else {
      assert Matches(r[i], q);
    }
    FirstMatchAt(r, q, i);
  }

  /** Every entry of the user holds `role`. */
  predicate UserHasRole(members: seq<Record>, userId: Value, role: string) {
    forall k :: 0 <= k < |members| && Get(members[k], "userId") == userId ==> Get(members[k], "role") == Str(role)
  }

  /**
   * When every entry of a user already holds `role`, adding the user to a project with that
   * role keeps it so: `add_member` never gives the user another role.
   */
  lemma WithMemberUserRole(members: seq<Record>, projectId: Value, userId: Value, role: string, id: string)
    requires UserHasRole(members, userId, role)
    ensures UserHasRole(WithMember(members, projectId, userId, role, id), userId, role)
  {
    var r := WithMember(members, projectId, userId, role, id);
    WithMemberRole(members, projectId, userId, role, id);
    var i := FirstMatch(members, PairQuery(projectId, userId));
    if i == |members| {
      assert r == members + [MemberRecord(id, projectId, userId, role)];
    } else {
      assert |r| == |members|;
    }
  }

  /** The first match is at `i` when `i` matches and nothing before it does. */
  lemma FirstMatchAt(items: seq<Record>, q: Query, i: nat)
    requires i < |items| && Matches(items[i], q)
    requires forall j :: 0 <= j < i ==> !Matches(items[j], q)
    ensures FirstMatch(items, q) == i
  {
  }

  /** Some entry links the user to the project. */
  predicate HasMembership(members: seq<Record>, projectId: Value, userId: Value) {
    exists k :: 0 <= k < |members| && Get(members[k], "projectId") == projectId && Get(members[k], "userId") == userId
  }

  lemma MatchesPair(r: Record, projectId: Value, userId: Value)
    ensures Matches(r, PairQuery(projectId, userId)) <==> Get(r, "projectId") == projectId && Get(r, "userId") == userId
  {
    var q := PairQuery(projectId, userId);
    assert q[0] == ("projectId", projectId) && q[1] == ("userId", userId);
  }

  /** The membership test of the routes: `find` on the pair is non-empty exactly when some entry links them. */
  lemma MembershipFound(members: seq<Record>, projectId: Value, userId: Value)
    ensures Select(members, PairQuery(projectId, userId)) != [] <==> HasMembership(members, projectId, userId)
  {
    var q := PairQuery(projectId, userId);
    SelectMembers(members, q);
    if Select(members, q) != [] {
      var x := Select(members, q)[0];
      assert x in Select(members, q);
      MatchesPair(x, projectId, userId);
      var k :| 0 <= k < |members| && members[k] == x;
    }
    if HasMembership(members, projectId, userId) {
      var k :| 0 <= k < |members| && Get(members[k], "projectId") == projectId && Get(members[k], "userId") == userId;
      MatchesPair(members[k], projectId, userId);
      assert members[k] in Select(members, q);
    }
  }

  /** `add_member` never moves an entry to another pair, and afterwards the pair has an entry. */
  lemma WithMemberKeepsPairs(members: seq<Record>, projectId: Value, userId: Value, role: string, id: string)
    ensures var r := WithMember(members, projectId, userId, role, id);
            && |members| <= |r|
            && (forall k :: 0 <= k < |members| ==>
                  Get(r[k], "projectId") == Get(members[k], "projectId") && Get(r[k], "userId") == Get(members[k], "userId"))
            && HasMembership(r, projectId, userId)
  {
    var r := WithMember(members, projectId, userId, role, id);
    WithMemberRole(members, projectId, userId, role, id);
    var i := FirstMatch(r, PairQuery(projectId, userId));
    MatchesPair(r[i], projectId, userId);
  }

  /** `remove_member` deletes the ids of the pair's non-leader entries, in table order. */
  function RemovableIds(members: seq<Record>, q: Query): seq<Value> {
    IdsOf(Where(members, Removable(q)))
  }

  /** An entry `remove_member` deletes: one of the pair's, and not a leader's. */
  function Removable(q: Query): Record -> bool {
    r => Matches(r, q) && !IsLeaderEntry(r)
  }

  /** The entries of `find(...)` that are not leaders', as the loop of `remove_member` visits them. */
  function NonLeaders(entries: seq<Record>): seq<Record> {
    if entries == [] then []
    else (if IsLeaderEntry(entries[0]) then [] else [entries[0]]) + NonLeaders(entries[1..])
  }

  lemma {:induction false} NonLeadersOfSelect(members: seq<Record>, q: Query)
    ensures NonLeaders(Select(members, q)) == Where(members, Removable(q))
  {
    if members != [] {
      NonLeadersOfSelect(members[1..], q);
      NonLeadersAppend(if Matches(members[0], q) then [members[0]] else [], Select(members[1..], q));
    }
  }

  lemma {:induction false} NonLeadersAppend(a: seq<Record>, b: seq<Record>)
    ensures NonLeaders(a + b) == NonLeaders(a) + NonLeaders(b)
  {
    if a != [] {
      assert (a + b)[0] == a[0];
      assert (a + b)[1..] == a[1..] + b;
      NonLeadersAppend(a[1..], b);
      var h := if IsLeaderEntry(a[0]) then [] else [a[0]];
      assert NonLeaders(a + b) == h + (NonLeaders(a[1..]) + NonLeaders(b));
    } else {
      assert a + b == b;
    }
  }

  /**
   * When membership ids are unique, `remove_member` leaves exactly the entries that are not
   * the pair's, plus the pair's leader entries, in their order.
   */
  lemma RemoveMemberKeepsLeaders(members: seq<Record>, projectId: Value, userId: Value)
    requires UniqueIds(members)
    ensures var q := PairQuery(projectId, userId);
            DeleteIds(members, IdsOf(NonLeaders(Select(members, q)))) == WhereNot(members, Removable(q))
  {
    var q := PairQuery(projectId, userId);
    NonLeadersOfSelect(members, q);
    DeleteSelectedIds(members, Removable(q));
  }

  // ---------------------------------------------------------------------------
  // Specification of the activity feed
  // ---------------------------------------------------------------------------

  /** The sort key of `get_project_activities`: the timestamp string. */
  function TimestampOf(a: Record): string {
    var t := Get(a, "timestamp");
    if t.Str? then t.s else []
  }

  predicate NewestFirst(acts: seq<Record>) {
    forall i, j :: 0 <= i < j < |acts| ==> Text.LexLe(TimestampOf(acts[j]), TimestampOf(acts[i]))
  }

  /** Places `a` after every entry whose timestamp is not older, as a stable sort does. */
  function InsertByTimestamp(a: Record, sorted: seq<Record>): seq<Record> {
    if sorted == [] then [a]
    else if Text.LexLe(TimestampOf(a), TimestampOf(sorted[0])) then [sorted[0]] + InsertByTimestamp(a, sorted[1..])
    else [a] + sorted
  }

  /** `acts.sort(key=lambda x: x["timestamp"], reverse=True)`. */
  function SortNewestFirst(acts: seq<Record>): seq<Record> {
    if acts == [] then [] else InsertByTimestamp(acts[|acts| - 1], SortNewestFirst(acts[..|acts| - 1]))
  }

  /** Inserting keeps every entry and adds exactly `a`. */
  lemma {:induction false} InsertByTimestampPermutes(a: Record, sorted: seq<Record>)
    ensures multiset(InsertByTimestamp(a, sorted)) == multiset(sorted) + multiset{a}
  {
    if sorted != [] {
      InsertByTimestampPermutes(a, sorted[1..]);
      assert sorted == [sorted[0]] + sorted[1..];
    }
  }

  /** An entry no older than every entry of a newest-first list can head it. */
  lemma ConsNewestFirst(top: Record, rest: seq<Record>)
    requires NewestFirst(rest)
    requires forall x :: x in rest ==> Text.LexLe(TimestampOf(x), TimestampOf(top))
    ensures NewestFirst([top] + rest)
  {
    var r := [top] + rest;
    forall i, j | 0 <= i < j < |r| ensures Text.LexLe(TimestampOf(r[j]), TimestampOf(r[i])) {
      if i == 0 {
        assert r[j] == rest[j - 1];
        assert r[j] in rest;
      } else {
        assert r[i] == rest[i - 1] && r[j] == rest[j - 1];
      }
    }
  }

  lemma NewestFirstTail(sorted: seq<Record>)
    requires NewestFirst(sorted) && sorted != []
    ensures NewestFirst(sorted[1..])
    ensures forall x :: x in sorted[1..] ==> Text.LexLe(TimestampOf(x), TimestampOf(sorted[0]))
  {
    var tail := sorted[1..];
    forall i, j | 0 <= i < j < |tail| ensures Text.LexLe(TimestampOf(tail[j]), TimestampOf(tail[i])) {
      assert tail[i] == sorted[i + 1] && tail[j] == sorted[j + 1];
    }
    forall x | x in tail ensures Text.LexLe(TimestampOf(x), TimestampOf(sorted[0])) {
      var k :| 0 <= k < |tail| && tail[k] == x;
      assert sorted[k + 1] == x;
    }
  }

  lemma {:induction false} InsertByTimestampSorted(a: Record, sorted: seq<Record>)
    requires NewestFirst(sorted)
    ensures NewestFirst(InsertByTimestamp(a, sorted))
  {
    if sorted != [] {
      var head, tail := sorted[0], sorted[1..];
      NewestFirstTail(sorted);
      if Text.LexLe(TimestampOf(a), TimestampOf(head)) {
        InsertByTimestampSorted(a, tail);
        InsertByTimestampPermutes(a, tail);
        var rest := InsertByTimestamp(a, tail);
        forall x | x in rest ensures Text.LexLe(TimestampOf(x), TimestampOf(head)) {
          assert x in multiset(rest);
          assert x == a || x in tail;
        }
        ConsNewestFirst(head, rest);
      } else {
        Text.LexLeTotal(TimestampOf(a), TimestampOf(head));
        forall x | x in sorted ensures Text.LexLe(TimestampOf(x), TimestampOf(a)) {
          if x != head {
            assert x in tail;
            Text.LexLeTransitive(TimestampOf(x), TimestampOf(head), TimestampOf(a));
          }
        }
        ConsNewestFirst(a, sorted);
      }
    }
  }

  /** The sorted feed is newest-first and holds exactly the entries it was given. */
  lemma {:induction false} SortNewestFirstCorrect(acts: seq<Record>)
    ensures NewestFirst(SortNewestFirst(acts))
    ensures multiset(SortNewestFirst(acts)) == multiset(acts)
  {
    if acts != [] {
      var init, last := acts[..|acts| - 1], acts[|acts| - 1];
      SortNewestFirstCorrect(init);
      InsertByTimestampSorted(last, SortNewestFirst(init));
      InsertByTimestampPermutes(last, SortNewestFirst(init));
      assert acts == init + [last];
    }
  }

  /** The entries stamped `t`, in order. */
  function StampedAt(acts: seq<Record>, t: string): seq<Record> {
    if acts == [] then [] else (if TimestampOf(acts[0]) == t then [acts[0]] else []) + StampedAt(acts[1..], t)
  }

  lemma {:induction false} StampedAtAppend(x: seq<Record>, y: seq<Record>, t: string)
    ensures StampedAt(x + y, t) == StampedAt(x, t) + StampedAt(y, t)
  {
    if x != [] {
      StampedAtAppend(x[1..], y, t);
      assert (x + y)[0] == x[0] && (x + y)[1..] == x[1..] + y;
    } else {
      assert x + y == y;
    }
  }

  lemma {:induction false} StampedAtNone(acts: seq<Record>, t: string)
    requires forall x :: x in acts ==> TimestampOf(x) != t
    ensures StampedAt(acts, t) == []
  {
    if acts != [] {
      assert acts[0] in acts;
      forall x | x in acts[1..] ensures TimestampOf(x) != t {
        assert x in acts;
      }
      StampedAtNone(acts[1..], t);
    }
  }

  /** Inserting `a` into a newest-first list puts it after every entry with the same timestamp. */
  lemma {:induction false} InsertByTimestampStable(a: Record, sorted: seq<Record>, t: string)
    requires NewestFirst(sorted)
    ensures StampedAt(InsertByTimestamp(a, sorted), t) ==
              StampedAt(sorted, t) + (if TimestampOf(a) == t then [a] else [])
  {
    if sorted == [] {
      assert [a][0] == a && [a][1..] == [];
    } else {
      var head, tail := sorted[0], sorted[1..];
      NewestFirstTail(sorted);
      if Text.LexLe(TimestampOf(a), TimestampOf(head)) {
        InsertByTimestampStable(a, tail, t);
        var rest := InsertByTimestamp(a, tail);
        assert ([head] + rest)[0] == head && ([head] + rest)[1..] == rest;
      } else {
        var r := [a] + sorted;
        assert r[0] == a && r[1..] == sorted;
        if TimestampOf(a) == t {
          forall x | x in sorted ensures TimestampOf(x) != t {
            if x == head {
              Text.LexLeTotal(t, t);
            } else {
              assert x in tail;
            }
          }
          StampedAtNone(sorted, t);
        }
      }
    }
  }

  /** The sort is stable: entries with equal timestamps keep their stored order. */
  lemma {:induction false} SortNewestFirstStable(acts: seq<Record>, t: string)
    ensures StampedAt(SortNewestFirst(acts), t) == StampedAt(acts, t)
  {
    if acts != [] {
      var init, last := acts[..|acts| - 1], acts[|acts| - 1];
      SortNewestFirstStable(init, t);
      SortNewestFirstCorrect(init);
      InsertByTimestampStable(last, SortNewestFirst(init), t);
      assert acts == init + [last];
      StampedAtAppend(init, [last], t);
      assert [last][0] == last && [last][1..] == [];
    }
  }

  // ---------------------------------------------------------------------------
  // Specification of the member listing
  // ---------------------------------------------------------------------------

  /** The row `get_project_members` builds for one membership and its user. */
  function MemberRow(u: Record, m: Record): Record {
    map["id" := Get(u, "id"), "name" := Get(u, "name"), "email" := Get(u, "email"),
        "status" := GetOr(u, "status", Str("offline")), "role" := GetOr(m, "role", Str("member"))]
  }

  /** The row of one membership: empty when no user carries its userId. */
  function RowFor(m: Record, users: seq<Record>): seq<Record> {
    var i := FirstIndex(users, "id", Get(m, "userId"));
    if i < |users| && users[i] != map[] then [MemberRow(users[i], m)] else []
  }

  /** One row per membership whose user exists (the first user with that id), in membership order. */
  function MemberRows(memberships: seq<Record>, users: seq<Record>): seq<Record> {
    if memberships == [] then []
    else MemberRows(memberships[..|memberships| - 1], users) + RowFor(memberships[|memberships| - 1], users)
  }

  /** Every listed row comes from a stored user and one of the given memberships; none is invented. */
  lemma {:induction false} MemberRowsSound(memberships: seq<Record>, users: seq<Record>)
    ensures |MemberRows(memberships, users)| <= |memberships|
    ensures forall row :: row in MemberRows(memberships, users) ==>
              exists m, u :: (m in memberships && u in users && row == MemberRow(u, m)
                              && Get(u, "id") == Get(m, "userId"))
  {
    if memberships != [] {
      var n := |memberships| - 1;
      var m := memberships[n];
      MemberRowsSound(memberships[..n], users);
      var i := FirstIndex(users, "id", Get(m, "userId"));
      forall row | row in MemberRows(memberships, users)
        ensures exists m, u :: (m in memberships && u in users && row == MemberRow(u, m)
                                && Get(u, "id") == Get(m, "userId"))
      {
        if row in MemberRows(memberships[..n], users) {
          var m', u :| m' in memberships[..n] && u in users && row == MemberRow(u, m') && Get(u, "id") == Get(m', "userId");
          assert m' in memberships;
        } else {
          assert row == MemberRow(users[i], m);
          assert users[i] in users && m in memberships;
        }
      }
    }
  }

  /** Conversely, every membership whose user is stored yields its row; none is dropped. */
  lemma {:induction false} MemberRowsComplete(memberships: seq<Record>, users: seq<Record>)
    ensures forall k :: 0 <= k < |memberships| ==>
              var i := FirstIndex(users, "id", Get(memberships[k], "userId"));
              i < |users| && users[i] != map[] ==> MemberRow(users[i], memberships[k]) in MemberRows(memberships, users)
  {
    if memberships != [] {
      var n := |memberships| - 1;
      MemberRowsComplete(memberships[..n], users);
      forall k | 0 <= k < n
        ensures memberships[k] == memberships[..n][k]
      {
      }
    }
  }

  // ---------------------------------------------------------------------------
  // The store
  // ---------------------------------------------------------------------------

  function ActivityRecord(id: string, projectId: Value, userId: Value, description: string, now: string): Record {
    map["id" := Str(id), "projectId" := projectId, "userId" := userId,
        "description" := Str(description), "timestamp" := Str(now)]
  }

  function InviteRecord(id: string, projectId: Value, email: Value, name: Value, now: string): Record {
    map["id" := Str(id), "projectId" := projectId, "email" := email, "name" := name,
        "status" := Str("pending"), "createdAt" := Str(now)]
  }

  function ThreadRecord(id: string, title: Value, projectId: Value, creatorId: Value, now: string): Record {
    map["id" := Str(id), "title" := title, "projectId" := projectId, "creatorId" := creatorId,
        "messages" := Arr([]), "createdAt" := Str(now), "updatedAt" := Str(now)]
  }

  class Db {
    var tables: map<Collection, seq<Record>>

    /** Every collection of the `db` literal is present (what `normalize_db` also guarantees). */
    ghost predicate Valid()
      reads this
    {
      HasCollections(tables)
    }

    /** `db.get(collection, [])`. */
    function Table(collection: Collection): seq<Record>
      reads this
    {
      if collection in tables then tables[collection] else []
    }

    /** The module-level `db` literal: the eight collections, all empty. */
    constructor ()
      ensures Valid()
      ensures forall c :: c in tables ==> tables[c] == []
    {
      tables := map[Users := [], Projects := [], Tasks := [], Milestones := [],
                    ChatThreads := [], Activities := [], ProjectMembers := [], Invites := []];
    }

    /** `find(collection, **query)`: the stored items matching every pair of the query, in order. */
    method Find(collection: Collection, query: Query) returns (results: seq<Record>)
      ensures results == Select(Table(collection), query)
      ensures forall x :: x in results <==> x in Table(collection) && Matches(x, query)
    {
      var items := Table(collection);
      results := [];
      var i := 0;
      while i < |items|
        invariant 0 <= i <= |items|
        invariant results == Select(items[..i], query)
      {
        var item := items[i];
        var matched := true;
        var k := 0;
        while k < |query|
          invariant 0 <= k <= |query|
          invariant matched
          invariant forall j :: 0 <= j < k ==> Get(item, query[j].0) == query[j].1
        {
          if Get(item, query[k].0) != query[k].1 {
            matched := false;
            break;
          }
          k := k + 1;
        }
        assert matched == Matches(item, query);
        if matched {
          results := results + [item];
        }
        assert items[..i + 1] == items[..i] + [item];
        SelectAppend(items[..i], [item], query);
        i := i + 1;
      }
      assert items[..i] == items;
      SelectMembers(items, query);
    }

    /** `find_one(collection, key, value)`: the first item whose `key` holds `value`, or None. */
    method FindOne(collection: Collection, key: string, value: Value) returns (r: Option<Record>)
      ensures var items := Table(collection);
              var i := FirstIndex(items, key, value);
              (i < |items| ==> r == Some(items[i])) && (i == |items| ==> r == None)
      ensures r.None? <==> forall j :: 0 <= j < |Table(collection)| ==> Get(Table(collection)[j], key) != value
    {
      var items := Table(collection);
      var i := 0;
      while i < |items|
        invariant 0 <= i <= |items|
        invariant forall j :: 0 <= j < i ==> Get(items[j], key) != value
      {
        if Get(items[i], key) == value {
          return Some(items[i]);
        }
        i := i + 1;
      }
      return None;
    }

    /** `insert(collection, obj)`: appends `obj` and returns it. */
    method Insert(collection: Collection, obj: Record) returns (r: Record)
      requires collection in tables
      modifies this
      ensures r == obj
      ensures tables == old(tables)[collection := old(tables[collection]) + [obj]]
    {
      tables := tables[collection := tables[collection] + [obj]];
      r := obj;
    }

    /**
     * `update(collection, id, patch)`: merges the patch into the first item with that id and
     * returns it; None, and nothing changed, when there is none.
     */
    method Update(collection: Collection, id: Value, patch: Record) returns (r: Option<Record>)
      modifies this
      ensures var items := old(Table(collection));
              var i := FirstIndex(items, "id", id);
              if i < |items| && items[i] != map[] then
                r == Some(items[i] + patch) && tables == old(tables)[collection := items[i := items[i] + patch]]
              else
                r == None && tables == old(tables)
    {
      var items := Table(collection);
      // The dictionary find_one returns is the table's own element at this index.
      var i := FirstIndex(items, "id", id);
      if i == |items| || items[i] == map[] {
        return None;
      }
      var item := items[i] + patch;
      tables := tables[collection := items[i := item]];
      r := Some(item);
    }

    /**
     * `delete(collection, id)`: removes the first item with that id and answers true; false,
     * and nothing changed, when there is none.
     */
    method Delete(collection: Collection, id: Value) returns (ok: bool)
      modifies this
      ensures var items := old(Table(collection));
              var i := FirstIndex(items, "id", id);
              ok == (i < |items| && items[i] != map[])
      ensures tables == if ok then old(tables)[collection := DeleteId(old(Table(collection)), id)] else old(tables)
      ensures collection in old(tables) ==>
                tables == old(tables)[collection := DeleteId(old(tables[collection]), id)]
      ensures ok ==> |Table(collection)| == |old(Table(collection))| - 1
    {
      var item := FindOne(collection, "id", id);
      if item.None? || item.value == map[] {
        return false;
      }
      var items := Table(collection);
      var i := FirstIndex(items, "id", id);
      // list.remove(item) drops the first element equal to item; earlier ones carry another id.
      tables := tables[collection := items[..i] + items[i + 1..]];
      ok := true;
    }

    /** `log_activity`: appends exactly one activity record and returns it. */
    method LogActivity(projectId: Value, userId: Value, description: string, suffix: string, now: string)
      returns (act: Record)
      requires Valid()
      modifies this
      ensures Valid()
      ensures act == ActivityRecord(GenId("act", suffix), projectId, userId, description, now)
      ensures tables == old(tables)[Activities := old(tables[Activities]) + [act]]
    {
      act := ActivityRecord(GenId("act", suffix), projectId, userId, description, now);
      act := Insert(Activities, act);
    }

    /** `get_project_activities`: that project's activities, newest first. */
    method GetProjectActivities(projectId: Value) returns (acts: seq<Record>)
      ensures acts == SortNewestFirst(Select(Table(Activities), [("projectId", projectId)]))
      ensures NewestFirst(acts)
      ensures multiset(acts) == multiset(Select(Table(Activities), [("projectId", projectId)]))
      ensures forall a :: a in acts <==> a in Table(Activities) && Get(a, "projectId") == projectId
    {
      var all := Table(Activities);
      acts := [];
      var i := 0;
      while i < |all|
        invariant 0 <= i <= |all|
        invariant acts == Select(all[..i], [("projectId", projectId)])
      {
        MatchesOne(all[i], "projectId", projectId);
        if Get(all[i], "projectId") == projectId {
          acts := acts + [all[i]];
        }
        assert all[..i + 1] == all[..i] + [all[i]];
        SelectAppend(all[..i], [all[i]], [("projectId", projectId)]);
        i := i + 1;
      }
      assert all[..i] == all;
      var unsorted := acts;
      acts := SortNewestFirst(acts);
      SortNewestFirstCorrect(unsorted);
      SelectMembers(all, [("projectId", projectId)]);
      forall a ensures a in acts <==> a in all && Get(a, "projectId") == projectId {
        assert a in acts <==> a in multiset(acts);
        assert a in unsorted <==> a in multiset(unsorted);
        MatchesOne(a, "projectId", projectId);
      }
    }

    /**
     * `add_member`: the pair's first entry takes the new role unless it is a leader's;
     * without an entry a new one is appended. Returns the pair's entry.
     */
    method AddMember(projectId: Value, userId: Value, role: string, suffix: string) returns (entry: Record)
      requires Valid()
      modifies this
      ensures Valid()
      ensures var members := old(tables[ProjectMembers]);
              tables == old(tables)[ProjectMembers := WithMember(members, projectId, userId, role, GenId("pm", suffix))]
      ensures var members := tables[ProjectMembers];
              var i := FirstMatch(members, PairQuery(projectId, userId));
              i < |members| && entry == members[i]
    {
      var members := tables[ProjectMembers];
      var q := PairQuery(projectId, userId);
      var existing := Find(ProjectMembers, q);
      WithMemberRole(members, projectId, userId, role, GenId("pm", suffix));
      if |existing| > 0 {
        SelectHead(members, q);
        entry := existing[0];
        if Get(entry, "role") != Str("leader") {
          // entry["role"] = role rewrites the table's own element.
          var i := FirstMatch(members, q);
          entry := entry["role" := Str(role)];
          tables := tables[ProjectMembers := members[i := entry]];
        }
        return;
      }
      SelectHead(members, q);
      entry := MemberRecord(GenId("pm", suffix), projectId, userId, role);
      entry := Insert(ProjectMembers, entry);
    }

    /**
     * `remove_member`: deletes, one `delete` at a time, the pair's entries that are not a
     * leader's; always answers true.
     */
    method RemoveMember(projectId: Value, userId: Value) returns (ok: bool)
      requires Valid()
      modifies this
      ensures Valid() && ok
      ensures var members := old(tables[ProjectMembers]);
              tables == old(tables)[ProjectMembers :=
                DeleteIds(members, IdsOf(NonLeaders(Select(members, PairQuery(projectId, userId)))))]
    {
      ghost var members := tables[ProjectMembers];
      ghost var before := tables;
      var entries := Find(ProjectMembers, PairQuery(projectId, userId));
      ghost var ids: seq<Value> := [];
      var k := 0;
      while k < |entries|
        invariant 0 <= k <= |entries|
        invariant ids == IdsOf(NonLeaders(entries[..k]))
        invariant tables == before[ProjectMembers := DeleteIds(members, ids)]
      {
        var e := entries[k];
        RemovalStep(entries, k);
        if Get(e, "role") != Str("leader") {
          assert tables[ProjectMembers] == DeleteIds(members, ids);
          var _ := Delete(ProjectMembers, Get(e, "id"));
          assert tables == before[ProjectMembers := DeleteId(DeleteIds(members, ids), Get(e, "id"))];
          DeleteIdsAppend(members, ids, Get(e, "id"));
          ids := ids + [Get(e, "id")];
        }
        k := k + 1;
      }
      assert entries[..k] == entries;
      ok := true;
    }

    /** `get_project_members`: one public row per membership of the project whose user exists. */
    method GetProjectMembers(projectId: Value) returns (users: seq<Record>)
      ensures users == MemberRows(Select(Table(ProjectMembers), [("projectId", projectId)]), Table(Users))
    {
      var memberships := Find(ProjectMembers, [("projectId", projectId)]);
      users := [];
      var k := 0;
      while k < |memberships|
        invariant 0 <= k <= |memberships|
        invariant users == MemberRows(memberships[..k], Table(Users))
      {
        var mem := memberships[k];
        var u := FindOne(Users, "id", Get(mem, "userId"));
        if u.Some? && u.value != map[] {
          users := users + [MemberRow(u.value, mem)];
        }
        assert memberships[..k + 1][..k] == memberships[..k];
        k := k + 1;
      }
      assert memberships[..k] == memberships;
    }

    /** `create_invite`: appends a pending invite and returns it. */
    method CreateInvite(projectId: Value, email: Value, name: Value, suffix: string, now: string)
      returns (invite: Record)
      requires Valid()
      modifies this
      ensures Valid()
      ensures invite == InviteRecord(GenId("invite", suffix), projectId, email, name, now)
      ensures Get(invite, "status") == Str("pending")
      ensures tables == old(tables)[Invites := old(tables[Invites]) + [invite]]
    {
      invite := InviteRecord(GenId("invite", suffix), projectId, email, name, now);
      invite := Insert(Invites, invite);
    }

    /** `get_project_invites`: every invite of the project, whatever its status. */
    method GetProjectInvites(projectId: Value) returns (invites: seq<Record>)
      ensures invites == Select(Table(Invites), [("projectId", projectId)])
      ensures forall x :: x in invites <==> x in Table(Invites) && Get(x, "projectId") == projectId
    {
      invites := Find(Invites, [("projectId", projectId)]);
      forall x ensures Matches(x, [("projectId", projectId)]) <==> Get(x, "projectId") == projectId {
        MatchesOne(x, "projectId", projectId);
      }
    }

    /** `mark_invite_accepted`: the first invite with that id gets status "accepted"; None if there is none. */
    method MarkInviteAccepted(inviteId: Value) returns (inv: Option<Record>)
      modifies this
      ensures var items := old(Table(Invites));
              var i := FirstIndex(items, "id", inviteId);
              if i == |items| then inv == None && tables == old(tables)
              else if items[i] == map[] then inv == Some(items[i]) && tables == old(tables)
              else inv == Some(items[i]["status" := Str("accepted")])
                   && tables == old(tables)[Invites := items[i := items[i]["status" := Str("accepted")]]]
    {
      inv := FindOne(Invites, "id", inviteId);
      if inv.Some? && inv.value != map[] {
        var items := Table(Invites);
        var i := FirstIndex(items, "id", inviteId);
        var updated := inv.value["status" := Str("accepted")];
        tables := tables[Invites := items[i := updated]];
        inv := Some(updated);
      }
    }

    /** `create_chat_thread`: appends a thread with no messages and returns it. */
    method CreateChatThread(title: Value, projectId: Value, creatorId: Value, suffix: string, now: string)
      returns (thread: Record)
      requires Valid()
      modifies this
      ensures Valid()
      ensures thread == ThreadRecord(GenId("thread", suffix), title, projectId, creatorId, now)
      ensures Get(thread, "messages") == Arr([])
      ensures tables == old(tables)[ChatThreads := old(tables[ChatThreads]) + [thread]]
    {
      thread := ThreadRecord(GenId("thread", suffix), title, projectId, creatorId, now);
      thread := Insert(ChatThreads, thread);
    }

    /** `get_chat_threads_by_project`. */
    method GetChatThreadsByProject(projectId: Value) returns (threads: seq<Record>)
      ensures forall x :: x in threads <==> x in Table(ChatThreads) && Get(x, "projectId") == projectId
      ensures threads == Select(Table(ChatThreads), [("projectId", projectId)])
    {
      threads := Find(ChatThreads, [("projectId", projectId)]);
      forall x ensures Matches(x, [("projectId", projectId)]) <==> Get(x, "projectId") == projectId {
        MatchesOne(x, "projectId", projectId);
      }
    }

    /** `update_chat_thread`: `update` on the chat threads. */
    method UpdateChatThread(threadId: Value, patch: Record) returns (r: Option<Record>)
      modifies this
      ensures var items := old(Table(ChatThreads));
              var i := FirstIndex(items, "id", threadId);
              if i < |items| && items[i] != map[] then
                r == Some(items[i] + patch) && tables == old(tables)[ChatThreads := items[i := items[i] + patch]]
              else
                r == None && tables == old(tables)
    {
      r := Update(ChatThreads, threadId, patch);
    }

    /** `delete_chat_thread`: `delete` on the chat threads. */
    method DeleteChatThread(threadId: Value) returns (ok: bool)
      modifies this
      ensures ok == (FirstIndex(old(Table(ChatThreads)), "id", threadId) < |old(Table(ChatThreads))|
                     && old(Table(ChatThreads))[FirstIndex(old(Table(ChatThreads)), "id", threadId)] != map[])
      ensures tables == if ok then old(tables)[ChatThreads := DeleteId(old(Table(ChatThreads)), threadId)]
                        else old(tables)
    {
      ok := Delete(ChatThreads, threadId);
    }

    /** `normalize_db`: the four newer collections exist afterwards; every existing list is kept. */
    method NormalizeDb()
      modifies this
      ensures forall c :: c in [ProjectMembers, Invites, Activities, ChatThreads] ==> c in tables
      ensures forall c :: c in old(tables) ==> c in tables && tables[c] == old(tables)[c]
      ensures forall c :: c in tables && c !in old(tables) ==>
                c in [ProjectMembers, Invites, Activities, ChatThreads] && tables[c] == []
    {
      var names := [ProjectMembers, Invites, Activities, ChatThreads];
      var k := 0;
      while k < |names|
        invariant 0 <= k <= |names|
        invariant forall j :: 0 <= j < k ==> names[j] in tables
        invariant forall c :: c in old(tables) ==> c in tables && tables[c] == old(tables)[c]
        invariant forall c :: c in tables && c !in old(tables) ==> c in names[..k] && tables[c] == []
      {
        if names[k] !in tables {
          tables := tables[names[k] := []];
        }
        k := k + 1;
      }
    }
  }

  /** One more visited entry adds its id to the deletions exactly when it is not a leader's. */
  lemma RemovalStep(entries: seq<Record>, k: nat)
    requires k < |entries|
    ensures IdsOf(NonLeaders(entries[..k + 1])) ==
            IdsOf(NonLeaders(entries[..k])) + (if IsLeaderEntry(entries[k]) then [] else [Get(entries[k], "id")])
  {
    assert entries[..k + 1] == entries[..k] + [entries[k]];
    NonLeadersAppend(entries[..k], [entries[k]]);
    IdsOfAppend(NonLeaders(entries[..k]), NonLeaders([entries[k]]));
    assert [entries[k]][1..] == [];
  }

  lemma {:induction false} IdsOfAppend(a: seq<Record>, b: seq<Record>)
    ensures IdsOf(a + b) == IdsOf(a) + IdsOf(b)
  {
    if a != [] {
      assert (a + b)[0] == a[0];
      assert (a + b)[1..] == a[1..] + b;
      IdsOfAppend(a[1..], b);
      assert IdsOf(a + b) == [Get(a[0], "id")] + (IdsOf(a[1..]) + IdsOf(b));
    } else {
      assert a + b == b;
    }
  }
}
