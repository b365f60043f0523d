/**
 * frontend/src/components/kanban/add-task-dialog.tsx and edit-task-dialog.tsx. The board owns
 * both dialogs: their open flags are the board's fields and their callbacks are the board's
 * handlers, so a submit is modelled together with the board it runs on. The form is checked
 * against the task schema first, as react-hook-form does before calling `onSubmit`.
 */
module TaskDialogs {
  import opened Wrappers
  import opened Json
  import opened Client
  import opened KanbanBoard

  /** The task form's values; an optional field that was never set is `undefined`. */
  datatype TaskForm = TaskForm(title: Value, description: Value, priority: Value, assigneeId: Value)

  /** The form's `defaultValues`. */
  const DefaultTaskForm: TaskForm := TaskForm(Str(""), Str(""), Str("medium"), Undefined)

  predicate OptionalString(v: Value) {
    v == Undefined || v.Str?
  }

  /** `taskSchema`: a non-empty title, a priority of low/medium/high, optional strings otherwise. */
  predicate TaskSchemaValid(f: TaskForm) {
    && f.title.Str? && |f.title.s| >= 1
    && OptionalString(f.description)
    && f.priority in {Str("low"), Str("medium"), Str("high")}
    && OptionalString(f.assigneeId)
  }

  /** The body the add dialog sends to `createTask`. */
  function AddPayload(f: TaskForm, projectId: string): (p: JsObject)
    ensures p.Keys == {"title", "description", "priority", "assigneeId", "status", "projectId"}
    ensures p["status"] == Str("todo") && p["projectId"] == Str(projectId)
  {
    map["title" := f.title, "description" := f.description, "priority" := f.priority,
        "assigneeId" := f.assigneeId, "status" := Str("todo"), "projectId" := Str(projectId)]
  }

  /** The patch the edit dialog sends to `updateTask`: never the status or the project. */
  function EditPatch(f: TaskForm): (p: JsObject)
    ensures p.Keys == {"title", "description", "priority", "assigneeId"}
    ensures "status" !in p && "projectId" !in p && "id" !in p
  {
    map["title" := f.title, "description" := f.description, "priority" := f.priority, "assigneeId" := f.assigneeId]
  }

  /** The values the edit dialog's effect loads from a task. */
  function FormFromTask(t: JsObject): (f: TaskForm)
    ensures f.title == Field(t, "title") && f.priority == Field(t, "priority")
    ensures !JsTruthy(Field(t, "description")) ==> f.description == Str("")
    ensures JsTruthy(Field(t, "description")) ==> f.description == Field(t, "description")
    ensures !JsTruthy(Field(t, "assigneeId")) ==> f.assigneeId == Undefined
    ensures JsTruthy(Field(t, "assigneeId")) ==> f.assigneeId == Field(t, "assigneeId")
  {
    TaskForm(Field(t, "title"), JsOr(Field(t, "description"), Str("")), Field(t, "priority"),
             JsOr(Field(t, "assigneeId"), Undefined))
  }

  /** An untouched form fails the schema: submitting a fresh dialog does nothing. */
  lemma DefaultFormRejected()
    ensures !TaskSchemaValid(DefaultTaskForm)
  {
  }

  /**
   * A task loaded into the form passes the schema exactly when its title is a non-empty string,
   * its priority one of the three and its set description and assignee strings.
   */
  lemma LoadedFormValid(t: JsObject)
    ensures TaskSchemaValid(FormFromTask(t)) <==>
              && Field(t, "title").Str? && |Field(t, "title").s| >= 1
              && Field(t, "priority") in {Str("low"), Str("medium"), Str("high")}
              && (JsTruthy(Field(t, "description")) ==> Field(t, "description").Str?)
              && (JsTruthy(Field(t, "assigneeId")) ==> Field(t, "assigneeId").Str?)
  {
  }

  class AddTaskDialog {
    var form: TaskForm

    constructor ()
      ensures form == DefaultTaskForm
    {
      form := DefaultTaskForm;
    }

    /**
     * `onSubmit` with `onAddTask` bound to the board's `handleAddTask`. A created task is handed
     * to the board, which sends it to `createTask` a second time; then the form resets and the
     * dialog closes. A failed create leaves the board and the form as they were and the dialog
     * open.
     */
    method Submit(board: Board, created: Outcome<JsObject>, recreated: Outcome<JsObject>) returns (calls: seq<Call>)
      modifies this, board
      ensures !TaskSchemaValid(old(form)) ==>
                calls == [] && form == old(form) && board.tasks == old(board.tasks)
                && board.isAddDialogOpen == old(board.isAddDialogOpen)
      ensures TaskSchemaValid(old(form)) && created.Failure? ==>
                && calls == [CreateTask(AddPayload(old(form), board.projectId))]
                && form == old(form) && board.tasks == old(board.tasks)
                && board.isAddDialogOpen == old(board.isAddDialogOpen)
      ensures TaskSchemaValid(old(form)) && created.Success? ==>
                && calls == [CreateTask(AddPayload(old(form), board.projectId)),
                             CreateTask(AddBody(created.value, board.projectId))]
                && form == DefaultTaskForm && !board.isAddDialogOpen
                && (recreated.Success? ==> board.tasks == [recreated.value] + old(board.tasks))
                && (recreated.Failure? ==> board.tasks == old(board.tasks))
      ensures board.taskToEdit == old(board.taskToEdit) && board.taskToRemove == old(board.taskToRemove)
      ensures board.isEditDialogOpen == old(board.isEditDialogOpen)
    {
      if !TaskSchemaValid(form) {
        return [];
      }
      calls := [CreateTask(AddPayload(form, board.projectId))];
      if created.Failure? {
        return;
      }
      var more := board.HandleAddTask(created.value, recreated);
      calls := calls + more;
      form := DefaultTaskForm;
      board.isAddDialogOpen := false;
    }
  }

  class EditTaskDialog {
    var form: TaskForm

    constructor ()
      ensures form == DefaultTaskForm
    {
      form := DefaultTaskForm;
    }

    /** The effect that loads the task into the form when the dialog opens with one. */
    method Load(task: Option<JsObject>, isOpen: bool)
      modifies this
      ensures task.Some? && isOpen ==> form == FormFromTask(task.value)
      ensures !(task.Some? && isOpen) ==> form == old(form)
    {
      if task.Some? && isOpen {
        form := FormFromTask(task.value);
      }
    }

    /**
     * `onSubmit` with `task` the board's task being edited and `onUpdateTask` bound to the
     * board's `handleUpdateTask`. Nothing happens without a task. A successful update hands the
     * server's task to the board, which sends it to `updateTask` a second time, and the dialog
     * closes; a failure changes nothing and leaves the dialog open.
     */
    method Submit(board: Board, updated: Outcome<JsObject>, resent: Outcome<JsObject>) returns (calls: seq<Call>)
      modifies board
      ensures !TaskSchemaValid(form) || old(board.taskToEdit).None? ==>
                calls == [] && board.tasks == old(board.tasks) && board.isEditDialogOpen == old(board.isEditDialogOpen)
                && board.taskToEdit == old(board.taskToEdit)
      ensures TaskSchemaValid(form) && old(board.taskToEdit).Some? && updated.Failure? ==>
                && calls == [UpdateTask(Field(old(board.taskToEdit).value, "id"), EditPatch(form))]
                && board.tasks == old(board.tasks) && board.isEditDialogOpen == old(board.isEditDialogOpen)
                && board.taskToEdit == old(board.taskToEdit)
      ensures TaskSchemaValid(form) && old(board.taskToEdit).Some? && updated.Success? ==>
                var id := Field(old(board.taskToEdit).value, "id");
                && calls == [UpdateTask(id, EditPatch(form)), UpdateTask(id, updated.value)]
                && !board.isEditDialogOpen && board.taskToEdit.None?
                && (resent.Success? ==>
                      board.tasks == ReplaceWhere(MergeWhere(old(board.tasks), "id", id, updated.value), "id", id, resent.value))
                && (resent.Failure? ==> board.tasks == old(board.tasks))
      ensures board.taskToRemove == old(board.taskToRemove) && board.isAddDialogOpen == old(board.isAddDialogOpen)
    {
      if !TaskSchemaValid(form) || board.taskToEdit.None? {
        return [];
      }
      var id := Field(board.taskToEdit.value, "id");
      calls := [UpdateTask(id, EditPatch(form))];
      if updated.Failure? {
        return;
      }
      var more := board.HandleUpdateTask(updated.value, resent);
      calls := calls + more;
      board.isEditDialogOpen := false;
    }
  }

  /**
   * When the server answers the edit with the task under the same id, the board's merge is
   * overwritten: every task with that id becomes the server's second answer.
   */
  lemma EditOverwritesMerge(tasks: seq<JsObject>, id: Value, serverTask: JsObject, second: JsObject)
    requires "id" in serverTask ==> serverTask["id"] == id
    ensures ReplaceWhere(MergeWhere(tasks, "id", id, serverTask), "id", id, second) == ReplaceWhere(tasks, "id", id, second)
  {
    ReplaceAfterMerge(tasks, "id", id, serverTask, second);
  }
}
