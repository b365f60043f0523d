/**
 * What the Next.js components share: records as JavaScript objects, the id-keyed list surgery
 * their handlers perform (`map` with a replacement, `filter` on a field), and the remote calls
 * of frontend/src/lib/api.ts they issue. A remote call's result is an input `Outcome`.
 */
module Client {
  import opened Wrappers
  import opened Json

  /** A plain JavaScript object, such as a task, project, milestone or thread. */
  type JsObject = map<string, Value>

  /** `o.k`: `undefined` when the property is missing. */
  function Field(o: JsObject, k: string): Value {
    Prop(Obj(o), k)
  }

  /** `o.k === v`. */
  predicate FieldIs(o: JsObject, k: string, v: Value) {
    Field(o, k) == v
  }

  /** A remote call a component issues, named after its function in frontend/src/lib/api.ts. */
  datatype Call =
    | CreateTask(taskBody: JsObject)
    | UpdateTask(taskId: Value, taskPatch: JsObject)
    | DeleteTask(deletedId: Value)
    | CreateProject(projectBody: JsObject)
    | UpdateProject(projectId: Value, projectPatch: JsObject)
    | CreateMilestone(milestoneBody: JsObject)
    | FetchProjects
    | FetchTasks(tasksOf: string)
    | FetchTeammates(teammatesOf: string)

  // ---------------------------------------------------------------------------
  // List surgery keyed by a field
  // ---------------------------------------------------------------------------

  /** `xs.map(t => t.k === v ? {...t, [key]: w} : t)`. */
  function SetWhere(xs: seq<JsObject>, k: string, v: Value, key: string, w: Value): seq<JsObject> {
    seq(|xs|, i requires 0 <= i < |xs| => if FieldIs(xs[i], k, v) then xs[i][key := w] else xs[i])
  }

  /** `xs.map(t => t.k === v ? {...t, ...patch} : t)`. */
  function MergeWhere(xs: seq<JsObject>, k: string, v: Value, patch: JsObject): seq<JsObject> {
    seq(|xs|, i requires 0 <= i < |xs| => if FieldIs(xs[i], k, v) then xs[i] + patch else xs[i])
  }

  /** `xs.map(t => t.k === v ? r : t)`. */
  function ReplaceWhere(xs: seq<JsObject>, k: string, v: Value, r: JsObject): seq<JsObject> {
    seq(|xs|, i requires 0 <= i < |xs| => if FieldIs(xs[i], k, v) then r else xs[i])
  }

  /** `xs.filter(t => t.k === v)`. */
  function Having(xs: seq<JsObject>, k: string, v: Value): seq<JsObject> {
    if xs == [] then []
    else Having(xs[..|xs| - 1], k, v) + (if FieldIs(xs[|xs| - 1], k, v) then [xs[|xs| - 1]] else [])
  }

  /** `xs.filter(t => t.k !== v)`. */
  function Without(xs: seq<JsObject>, k: string, v: Value): seq<JsObject> {
    if xs == [] then []
    else Without(xs[..|xs| - 1], k, v) + (if FieldIs(xs[|xs| - 1], k, v) then [] else [xs[|xs| - 1]])
  }

  /**
   * Setting one field by key touches only the matching elements, and in them only that field;
   * the order and the length are kept.
   */
  lemma SetWhereOnlyMatching(xs: seq<JsObject>, k: string, v: Value, key: string, w: Value)
    ensures var r := SetWhere(xs, k, v, key, w);
            && |r| == |xs|
            && (forall i :: 0 <= i < |xs| && !FieldIs(xs[i], k, v) ==> r[i] == xs[i])
            && (forall i :: 0 <= i < |xs| && FieldIs(xs[i], k, v) ==>
                  r[i].Keys == xs[i].Keys + {key} && r[i][key] == w
                  && forall f :: f in xs[i] && f != key ==> r[i][f] == xs[i][f])
  {
  }

  /**
   * Replacing after merging is the same as replacing, provided the patch leaves the key as it
   * was: the merge then leaves no trace.
   */
  lemma ReplaceAfterMerge(xs: seq<JsObject>, k: string, v: Value, patch: JsObject, r: JsObject)
    requires k in patch ==> patch[k] == v
    ensures ReplaceWhere(MergeWhere(xs, k, v, patch), k, v, r) == ReplaceWhere(xs, k, v, r)
  {
    var m := MergeWhere(xs, k, v, patch);
    forall i | 0 <= i < |xs| ensures FieldIs(m[i], k, v) <==> FieldIs(xs[i], k, v) {
      if FieldIs(xs[i], k, v) {
        assert Field(m[i], k) == Field(xs[i], k);
      }
    }
  }

  /** A filter keeps exactly the elements passing it. */
  lemma {:induction false} HavingMembers(xs: seq<JsObject>, k: string, v: Value)
    ensures forall x :: x in Having(xs, k, v) <==> x in xs && FieldIs(x, k, v)
    decreases |xs|
  {
    if xs != [] {
      HavingMembers(xs[..|xs| - 1], k, v);
      assert xs == xs[..|xs| - 1] + [xs[|xs| - 1]];
    }
  }

  /** `filter(t => t.k !== v)` keeps exactly the other elements, in order. */
  lemma {:induction false} WithoutMembers(xs: seq<JsObject>, k: string, v: Value)
    ensures forall x :: x in Without(xs, k, v) <==> x in xs && !FieldIs(x, k, v)
    ensures |Without(xs, k, v)| + |Having(xs, k, v)| == |xs|
    decreases |xs|
  {
    if xs != [] {
      WithoutMembers(xs[..|xs| - 1], k, v);
      assert xs == xs[..|xs| - 1] + [xs[|xs| - 1]];
    }
  }

  /** Filtering out a value no element holds keeps the list as it is. */
  lemma {:induction false} WithoutAbsent(xs: seq<JsObject>, k: string, v: Value)
    requires forall i :: 0 <= i < |xs| ==> !FieldIs(xs[i], k, v)
    ensures Without(xs, k, v) == xs
    decreases |xs|
  {
    if xs != [] {
      WithoutAbsent(xs[..|xs| - 1], k, v);
      assert xs == xs[..|xs| - 1] + [xs[|xs| - 1]];
    }
  }

  /** `xs.find(x => x.id === id)`: the first element with that id, or `undefined`. */
  function FindById(items: seq<Value>, id: Value): (r: Value)
    ensures (exists i :: 0 <= i < |items| && Prop(items[i], "id") == id) ==> r in items && Prop(r, "id") == id
    ensures (forall i :: 0 <= i < |items| ==> Prop(items[i], "id") != id) ==> r == Undefined
  {
    if items == [] then Undefined
    else if Prop(items[0], "id") == id then items[0]
    else FindById(items[1..], id)
  }

  /** Reading a property of `null` or `undefined` throws a TypeError. */
  predicate ReadThrows(v: Value) {
    v == Null || v == Undefined
  }

  /** No element before index `i` has the id. */
  predicate NoMatchBefore(items: seq<Value>, id: Value, i: nat)
    requires i <= |items|
  {
    forall k :: 0 <= k < i ==> Prop(items[k], "id") != id
  }

  /**
   * `xs.find(x => x.id === id)` as the browser runs it: the scan throws (`None`) when it reaches
   * a `null` or `undefined` element before a match; otherwise it gives what `FindById` gives.
   */
  function FindByIdOrThrow(items: seq<Value>, id: Value): (r: Option<Value>)
    ensures r.None? <==> exists i :: 0 <= i < |items| && ReadThrows(items[i]) && NoMatchBefore(items, id, i)
    ensures r.Some? ==> r.value == FindById(items, id)
  {
    if items == [] then Some(Undefined)
    else if ReadThrows(items[0]) then
      assert NoMatchBefore(items, id, 0);
      None
    else if Prop(items[0], "id") == id then
      assert forall i :: 0 < i < |items| ==> !NoMatchBefore(items, id, i);
      Some(items[0])
    else
      var r := FindByIdOrThrow(items[1..], id);
      assert forall i :: 0 < i <= |items| ==> (NoMatchBefore(items, id, i) <==> NoMatchBefore(items[1..], id, i - 1));
      assert forall i :: 0 < i < |items| ==> items[i] == items[1..][i - 1];
      r
  }

  /** `find` returns the first match: every element before it has another id. */
  lemma {:induction false} FindByIdFirst(items: seq<Value>, id: Value, i: nat)
    requires i < |items| && Prop(items[i], "id") == id
    ensures exists j :: 0 <= j <= i && FindById(items, id) == items[j] && forall k :: 0 <= k < j ==> Prop(items[k], "id") != id
    decreases i
  {
    if Prop(items[0], "id") != id {
      FindByIdFirst(items[1..], id, i - 1);
      var j :| 0 <= j <= i - 1 && FindById(items[1..], id) == items[1..][j]
               && forall k :: 0 <= k < j ==> Prop(items[1..][k], "id") != id;
      assert FindById(items, id) == items[j + 1];
      forall k | 0 <= k < j + 1 ensures Prop(items[k], "id") != id {
        if k > 0 { assert items[k] == items[1..][k - 1]; }
      }
    } else {
      assert FindById(items, id) == items[0];
    }
  }
}
