/**
 * frontend/src/components/kanban/kanban-board.tsx: the board's task list and dialog state,
 * and the handlers that edit them around a remote call. Each handler returns the remote calls
 * it issued; the call's result is an input. React's state updates are applied in program order.
 */
module KanbanBoard {
  import opened Wrappers
  import opened Json
  import opened Client

  /** The ids of the three columns, in display order. */
  const StatusColumns: seq<string> := ["todo", "in-progress", "done"]

  /** The tasks one column shows. */
  function Column(tasks: seq<JsObject>, status: string): seq<JsObject> {
    Having(tasks, "status", Str(status))
  }

  /** A status that one of the columns shows. */
  predicate InSomeColumn(t: JsObject) {
    Field(t, "status") in {Str("todo"), Str("in-progress"), Str("done")}
  }

  /** `prevTasks.find(p => p.id === taskId)?.status`. */
  function FoundStatus(xs: seq<JsObject>, id: Value): Value {
    if xs == [] then Undefined
    else if FieldIs(xs[0], "id", id) then Field(xs[0], "status")
    else FoundStatus(xs[1..], id)
  }

  /** `v ?? 'todo'`. */
  function OrTodo(v: Value): Value {
    if v == Null || v == Undefined then Str("todo") else v
  }

  /** The list the failure branch of `handleDrop` writes, computed from the list it is given. */
  function Reverted(xs: seq<JsObject>, id: Value): seq<JsObject> {
    SetWhere(xs, "id", id, "status", OrTodo(FoundStatus(xs, id)))
  }

  /** The body `handleAddTask` sends: the given task with status todo and the board's project. */
  function AddBody(newTask: JsObject, projectId: string): JsObject {
    newTask["status" := Str("todo")]["projectId" := Str(projectId)]
  }

  /** When every task with the id has status `w`, the first one found has it too. */
  lemma {:induction false} FoundStatusIs(xs: seq<JsObject>, id: Value, w: Value)
    requires forall i :: 0 <= i < |xs| && FieldIs(xs[i], "id", id) ==> Field(xs[i], "status") == w
    requires exists i :: 0 <= i < |xs| && FieldIs(xs[i], "id", id)
    ensures FoundStatus(xs, id) == w
    decreases |xs|
  {
    if !FieldIs(xs[0], "id", id) {
      var i :| 0 <= i < |xs| && FieldIs(xs[i], "id", id);
      assert xs[1..][i - 1] == xs[i];
      FoundStatusIs(xs[1..], id, w);
    }
  }

  /**
   * The revert in `handleDrop` reads the status back from the list the drop already patched, so
   * it writes the dropped status again: the list stays as the drop left it.
   */
  lemma RevertIsNoOp(xs: seq<JsObject>, id: Value, status: string)
    ensures var dropped := SetWhere(xs, "id", id, "status", Str(status));
            Reverted(dropped, id) == dropped
  {
    var dropped := SetWhere(xs, "id", id, "status", Str(status));
    if exists i :: 0 <= i < |dropped| && FieldIs(dropped[i], "id", id) {
      forall i | 0 <= i < |dropped| && FieldIs(dropped[i], "id", id)
        ensures Field(dropped[i], "status") == Str(status)
      {
        assert FieldIs(xs[i], "id", id);
      }
      FoundStatusIs(dropped, id, Str(status));
      forall i | 0 <= i < |dropped| && FieldIs(dropped[i], "id", id)
        ensures dropped[i]["status" := Str(status)] == dropped[i]
      {
        assert FieldIs(xs[i], "id", id);
      }
    }
  }

  /** A task appears in the column of its status and in no other. */
  lemma ColumnsPartition(tasks: seq<JsObject>, t: JsObject, c: string)
    requires t in tasks
    ensures t in Column(tasks, c) <==> Field(t, "status") == Str(c)
  {
    HavingMembers(tasks, "status", Str(c));
  }

  /** When every status is one of the three, the columns together hold every task exactly once. */
  lemma {:induction false} ColumnsCoverAll(tasks: seq<JsObject>)
    requires forall i :: 0 <= i < |tasks| ==> InSomeColumn(tasks[i])
    ensures |Column(tasks, "todo")| + |Column(tasks, "in-progress")| + |Column(tasks, "done")| == |tasks|
    decreases |tasks|
  {
    if tasks != [] {
      ColumnsCoverAll(tasks[..|tasks| - 1]);
    }
  }

  class Board {
    var tasks: seq<JsObject>
    var isAddDialogOpen: bool
    var taskToEdit: Option<JsObject>
    var isEditDialogOpen: bool
    var taskToRemove: Option<JsObject>
    const projectId: string

    constructor (initialTasks: seq<JsObject>, projectId: string)
      ensures tasks == initialTasks && this.projectId == projectId
      ensures !isAddDialogOpen && taskToEdit.None? && !isEditDialogOpen && taskToRemove.None?
    {
      tasks := initialTasks;
      this.projectId := projectId;
      isAddDialogOpen := false;
      taskToEdit := None;
      isEditDialogOpen := false;
      taskToRemove := None;
    }

    /**
     * `handleDrop`: an empty task id does nothing; otherwise the matching tasks take the new
     * status and the update is sent. On failure the "revert" rewrites the status it reads from
     * the patched list, so either way the list ends as the drop left it.
     */
    method HandleDrop(taskId: string, status: string, outcome: Outcome<JsObject>) returns (calls: seq<Call>)
      modifies this
      ensures taskId == "" ==> calls == [] && tasks == old(tasks)
      ensures taskId != "" ==>
                && calls == [UpdateTask(Str(taskId), map["status" := Str(status)])]
                && tasks == SetWhere(old(tasks), "id", Str(taskId), "status", Str(status))
      ensures isAddDialogOpen == old(isAddDialogOpen) && taskToEdit == old(taskToEdit)
      ensures isEditDialogOpen == old(isEditDialogOpen) && taskToRemove == old(taskToRemove)
    {
      if taskId == "" {
        return [];
      }
      tasks := SetWhere(tasks, "id", Str(taskId), "status", Str(status));
      calls := [UpdateTask(Str(taskId), map["status" := Str(status)])];
      if outcome.Failure? {
        RevertIsNoOp(old(tasks), Str(taskId), status);
        tasks := Reverted(tasks, Str(taskId));
      }
    }

    /**
     * `handleAddTask`: sends the task with status todo and the board's project; a created task
     * is put first, a failure leaves the list; the add dialog closes either way.
     */
    method HandleAddTask(newTask: JsObject, outcome: Outcome<JsObject>) returns (calls: seq<Call>)
      modifies this
      ensures calls == [CreateTask(AddBody(newTask, projectId))]
      ensures outcome.Success? ==> tasks == [outcome.value] + old(tasks)
      ensures outcome.Failure? ==> tasks == old(tasks)
      ensures !isAddDialogOpen
      ensures taskToEdit == old(taskToEdit) && isEditDialogOpen == old(isEditDialogOpen)
      ensures taskToRemove == old(taskToRemove)
    {
      calls := [CreateTask(AddBody(newTask, projectId))];
      if outcome.Success? {
        tasks := [outcome.value] + tasks;
      }
      isAddDialogOpen := false;
    }

    /** `handleRemoveTaskClick`: remembers the task to confirm. */
    method HandleRemoveTaskClick(task: JsObject)
      modifies this
      ensures taskToRemove == Some(task)
      ensures tasks == old(tasks) && taskToEdit == old(taskToEdit)
      ensures isAddDialogOpen == old(isAddDialogOpen) && isEditDialogOpen == old(isEditDialogOpen)
    {
      taskToRemove := Some(task);
    }

    /**
     * `confirmRemove`: nothing without a remembered task. Otherwise every task with its id is
     * filtered out and the delete sent; a failure restores the snapshot taken before, so the
     * task is back at its index. The remembered task is cleared either way.
     */
    method ConfirmRemove(outcome: Outcome<Value>) returns (calls: seq<Call>)
      modifies this
      ensures old(taskToRemove).None? ==> calls == [] && tasks == old(tasks) && taskToRemove == old(taskToRemove)
      ensures old(taskToRemove).Some? ==>
                var id := Field(old(taskToRemove).value, "id");
                && calls == [DeleteTask(id)]
                && taskToRemove.None?
                && (outcome.Success? ==> tasks == Without(old(tasks), "id", id))
                && (outcome.Failure? ==> tasks == old(tasks))
      ensures taskToEdit == old(taskToEdit)
      ensures isAddDialogOpen == old(isAddDialogOpen) && isEditDialogOpen == old(isEditDialogOpen)
    {
      if taskToRemove.None? {
        return [];
      }
      var id := Field(taskToRemove.value, "id");
      var snapshot := tasks;
      tasks := Without(tasks, "id", id);
      calls := [DeleteTask(id)];
      if outcome.Failure? {
        tasks := snapshot;
      }
      taskToRemove := None;
    }

    /** `handleEditTaskClick`: remembers the task and opens the edit dialog. */
    method HandleEditTaskClick(task: JsObject)
      modifies this
      ensures taskToEdit == Some(task) && isEditDialogOpen
      ensures tasks == old(tasks) && taskToRemove == old(taskToRemove) && isAddDialogOpen == old(isAddDialogOpen)
    {
      taskToEdit := Some(task);
      isEditDialogOpen := true;
    }

    /**
     * `handleUpdateTask`: nothing without a task being edited. Otherwise the fields are merged
     * into the matching tasks and the update sent; the server's task then replaces them, or a
     * failure restores the snapshot. The edit dialog closes and forgets the task either way.
     */
    method HandleUpdateTask(updated: JsObject, outcome: Outcome<JsObject>) returns (calls: seq<Call>)
      modifies this
      ensures old(taskToEdit).None? ==>
                calls == [] && tasks == old(tasks) && isEditDialogOpen == old(isEditDialogOpen) && taskToEdit.None?
      ensures old(taskToEdit).Some? ==>
                var id := Field(old(taskToEdit).value, "id");
                && calls == [UpdateTask(id, updated)]
                && !isEditDialogOpen && taskToEdit.None?
                && (outcome.Success? ==> tasks == ReplaceWhere(MergeWhere(old(tasks), "id", id, updated), "id", id, outcome.value))
                && (outcome.Failure? ==> tasks == old(tasks))
      ensures taskToRemove == old(taskToRemove) && isAddDialogOpen == old(isAddDialogOpen)
    {
      if taskToEdit.None? {
        return [];
      }
      var id := Field(taskToEdit.value, "id");
      var snapshot := tasks;
      tasks := MergeWhere(tasks, "id", id, updated);
      calls := [UpdateTask(id, updated)];
      if outcome.Success? {
        tasks := ReplaceWhere(tasks, "id", id, outcome.value);
      } else {
        tasks := snapshot;
      }
      isEditDialogOpen := false;
      taskToEdit := None;
    }
  }
}
