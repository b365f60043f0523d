/**
 * frontend/src/components/projects/add-project-dialog.tsx and edit-project-dialog.tsx. The page
 * that owns the project list is not part of this model, so each dialog records what its
 * callbacks deliver: `open` is the parent's `isOpen` as `onOpenChange` writes it, and
 * `delivered` the projects handed to `onAddProject` / `onUpdateProject`, in order.
 */
module ProjectDialogs {
  import opened Wrappers
  import opened Json
  import opened Client

  /** The project form's values. */
  datatype ProjectForm = ProjectForm(title: Value, description: Value)

  /** The add dialog's `defaultValues`; the edit dialog starts with every field unset. */
  const DefaultProjectForm: ProjectForm := ProjectForm(Str(""), Str(""))
  const UnsetProjectForm: ProjectForm := ProjectForm(Undefined, Undefined)

  /** `projectSchema`: a non-empty title and an optional string description. */
  predicate ProjectSchemaValid(f: ProjectForm) {
    && f.title.Str? && |f.title.s| >= 1
    && (f.description == Undefined || f.description.Str?)
  }

  /** `{ ...data, status: 'running' }`, the body sent to `createProject`. */
  function CreateBody(f: ProjectForm): (b: JsObject)
    ensures b.Keys == {"title", "description", "status"}
    ensures b["status"] == Str("running")
    ensures b["title"] == f.title && b["description"] == f.description
  {
    map["title" := f.title, "description" := f.description, "status" := Str("running")]
  }

  /** `{ title, description: description ?? "" }`, the patch sent to `updateProject`. */
  function EditBody(f: ProjectForm): (b: JsObject)
    ensures b.Keys == {"title", "description"}
    ensures b["title"] == f.title
    ensures f.description == Undefined || f.description == Null ==> b["description"] == Str("")
    ensures f.description != Undefined && f.description != Null ==> b["description"] == f.description
  {
    map["title" := f.title, "description" := Nullish(f.description, Str(""))]
  }

  /** The values the edit dialog's effect loads from a project. */
  function FormFromProject(p: JsObject): (f: ProjectForm)
    ensures f.title == Field(p, "title")
    ensures JsTruthy(Field(p, "description")) ==> f.description == Field(p, "description")
    ensures !JsTruthy(Field(p, "description")) ==> f.description == Str("")
  {
    ProjectForm(Field(p, "title"), JsOr(Field(p, "description"), Str("")))
  }

  /** The add dialog refuses to submit until a title is typed. */
  lemma DefaultProjectFormRejected()
    ensures !ProjectSchemaValid(DefaultProjectForm)
    ensures !ProjectSchemaValid(UnsetProjectForm)
  {
  }

  /**
   * A valid edit form always sends a string description, and a project loaded and submitted
   * unchanged writes back its own title, and its description or `""` when that was falsy.
   */
  lemma ResubmitUnchanged(p: JsObject)
    ensures var b := EditBody(FormFromProject(p));
            && b["title"] == Field(p, "title")
            && b["description"] == (if JsTruthy(Field(p, "description")) then Field(p, "description") else Str(""))
  {
  }

  lemma EditBodyDescriptionIsString(f: ProjectForm)
    requires ProjectSchemaValid(f)
    ensures EditBody(f)["description"].Str?
  {
  }

  class AddProjectDialog {
    var form: ProjectForm
    var open: bool
    var delivered: seq<JsObject>

    constructor (isOpen: bool)
      ensures form == DefaultProjectForm && open == isOpen && delivered == []
    {
      form := DefaultProjectForm;
      open := isOpen;
      delivered := [];
    }

    /**
     * `onSubmit`: sends the form with status `running`. The created project goes to
     * `onAddProject`, the form resets and the dialog closes; a failure is only reported, so the
     * dialog stays open with the form as typed.
     */
    method Submit(created: Outcome<JsObject>) returns (calls: seq<Call>)
      modifies this
      ensures !ProjectSchemaValid(old(form)) ==>
                calls == [] && form == old(form) && open == old(open) && delivered == old(delivered)
      ensures ProjectSchemaValid(old(form)) ==> calls == [CreateProject(CreateBody(old(form)))]
      ensures ProjectSchemaValid(old(form)) && created.Success? ==>
                delivered == old(delivered) + [created.value] && form == DefaultProjectForm && !open
      ensures ProjectSchemaValid(old(form)) && created.Failure? ==>
                delivered == old(delivered) && form == old(form) && open == old(open)
    {
      if !ProjectSchemaValid(form) {
        return [];
      }
      calls := [CreateProject(CreateBody(form))];
      if created.Success? {
        delivered := delivered + [created.value];
        form := DefaultProjectForm;
        open := false;
      }
    }
  }

  class EditProjectDialog {
    var form: ProjectForm
    var open: bool
    var delivered: seq<JsObject>

    constructor (isOpen: bool)
      ensures form == UnsetProjectForm && open == isOpen && delivered == []
    {
      form := UnsetProjectForm;
      open := isOpen;
      delivered := [];
    }

    /** The effect: a project given to the dialog is loaded into the form. */
    method Load(project: Option<JsObject>)
      modifies this
      ensures project.Some? ==> form == FormFromProject(project.value)
      ensures project.None? ==> form == old(form)
      ensures open == old(open) && delivered == old(delivered)
    {
      if project.Some? {
        form := FormFromProject(project.value);
      }
    }

    /**
     * `onSubmit`: nothing without a project. Otherwise the patch is sent; the server's project
     * goes to `onUpdateProject` only on success, and the dialog closes whatever the outcome.
     */
    method Submit(project: Option<JsObject>, updated: Outcome<JsObject>) returns (calls: seq<Call>)
      modifies this
      ensures !ProjectSchemaValid(old(form)) || project.None? ==>
                calls == [] && open == old(open) && delivered == old(delivered)
      ensures ProjectSchemaValid(old(form)) && project.Some? ==>
                && calls == [UpdateProject(Field(project.value, "id"), EditBody(old(form)))]
                && !open
                && (updated.Success? ==> delivered == old(delivered) + [updated.value])
                && (updated.Failure? ==> delivered == old(delivered))
      ensures form == old(form)
    {
      if !ProjectSchemaValid(form) || project.None? {
        return [];
      }
      calls := [UpdateProject(Field(project.value, "id"), EditBody(form))];
      if updated.Success? {
        delivered := delivered + [updated.value];
      }
      open := false;
    }
  }
}
