/**
 * frontend/src/components/milestones/add-milestone-dialog.tsx, edit-milestone-dialog.tsx and the
 * progress toggle of milestone-card.tsx. The page that owns the milestone list is not part of
 * this model: the add dialog records the milestones it hands to `onAddMilestone`, and the edit
 * dialog is the pure function from the milestone and the form to the record it hands on.
 * A form's date is held as the ISO string `toISOString()` gives for it; parsing and printing
 * dates is not modelled.
 */
module MilestoneDialogs {
  import opened Wrappers
  import opened Json
  import opened Client

  /** The milestone form's values; `dueDate` is `None` while no date is picked. */
  datatype MilestoneForm = MilestoneForm(title: Value, description: Value, dueDate: Option<string>, progress: Value)

  /** The add dialog's `defaultValues` (it has no progress field). */
  const DefaultMilestoneForm: MilestoneForm := MilestoneForm(Str(""), Str(""), None, Undefined)

  predicate NonEmptyString(v: Value) {
    v.Str? && |v.s| >= 1
  }

  /** The add dialog's `milestoneSchema`: title, description and a due date. */
  predicate AddSchemaValid(f: MilestoneForm) {
    NonEmptyString(f.title) && NonEmptyString(f.description) && f.dueDate.Some?
  }

  /** The edit dialog's `milestoneSchema`: the same, plus a progress number within 0..100. */
  predicate EditSchemaValid(f: MilestoneForm) {
    AddSchemaValid(f) && f.progress.Num? && 0 <= f.progress.n <= 100
  }

  /** The payload the add dialog sends to `createMilestone`. */
  function AddPayload(f: MilestoneForm, projectId: string): (p: JsObject)
    requires f.dueDate.Some?
    ensures p.Keys == {"title", "description", "dueDate", "projectId", "status"}
    ensures p["status"] == Str("pending") && p["projectId"] == Str(projectId)
    ensures p["dueDate"] == Str(f.dueDate.value)
    ensures p["title"] == f.title && p["description"] == f.description
  {
    map["title" := f.title, "description" := f.description, "dueDate" := Str(f.dueDate.value),
        "projectId" := Str(projectId), "status" := Str("pending")]
  }

  class AddMilestoneDialog {
    var form: MilestoneForm
    var open: bool
    var delivered: seq<JsObject>
    const projectId: string

    constructor (projectId: string, isOpen: bool)
      ensures form == DefaultMilestoneForm && open == isOpen && delivered == [] && this.projectId == projectId
    {
      form := DefaultMilestoneForm;
      open := isOpen;
      delivered := [];
      this.projectId := projectId;
    }

    /**
     * `onSubmit`: sends the payload; the created milestone goes to `onAddMilestone`, the form
     * resets and the dialog closes. There is no `catch`: a failed create leaves the promise
     * rejected (`escaped`), skipping the callback, the reset and the close.
     */
    method Submit(created: Outcome<JsObject>) returns (calls: seq<Call>, escaped: bool)
      modifies this
      ensures !AddSchemaValid(old(form)) ==>
                calls == [] && !escaped && form == old(form) && open == old(open) && delivered == old(delivered)
      ensures AddSchemaValid(old(form)) ==>
                calls == [CreateMilestone(AddPayload(old(form), projectId))] && escaped == created.Failure?
      ensures AddSchemaValid(old(form)) && created.Success? ==>
                delivered == old(delivered) + [created.value] && form == DefaultMilestoneForm && !open
      ensures AddSchemaValid(old(form)) && created.Failure? ==>
                delivered == old(delivered) && form == old(form) && open == old(open)
    {
      if !AddSchemaValid(form) {
        return [], false;
      }
      calls := [CreateMilestone(AddPayload(form, projectId))];
      if created.Failure? {
        return calls, true;
      }
      delivered := delivered + [created.value];
      form := DefaultMilestoneForm;
      open := false;
      escaped := false;
    }
  }

  /**
   * The values the edit dialog loads from a milestone, both as `defaultValues` and in the effect
   * that runs when it opens; `dueIso` is the ISO string of `new Date(milestone.dueDate)`, or
   * `None` when that date is invalid.
   */
  function FormFromMilestone(m: JsObject, dueIso: Option<string>): (f: MilestoneForm)
    ensures f.title == Field(m, "title") && f.description == Field(m, "description") && f.dueDate == dueIso
    ensures Field(m, "progress") == Null || Field(m, "progress") == Undefined ==> f.progress == Num(0)
    ensures Field(m, "progress") != Null && Field(m, "progress") != Undefined ==> f.progress == Field(m, "progress")
  {
    MilestoneForm(Field(m, "title"), Field(m, "description"), dueIso, Nullish(Field(m, "progress"), Num(0)))
  }

  /** The record the edit dialog hands to `onUpdateMilestone`: the milestone with the form's fields. */
  function Rebuilt(m: JsObject, f: MilestoneForm): (r: JsObject)
    requires f.dueDate.Some?
    ensures r.Keys == m.Keys + {"title", "description", "dueDate", "progress", "projectId"}
    ensures r["title"] == f.title && r["description"] == f.description
    ensures r["dueDate"] == Str(f.dueDate.value) && r["progress"] == f.progress
    ensures r["projectId"] == Field(m, "projectId")
    ensures forall k :: k in m && k !in {"title", "description", "dueDate", "progress"} ==> r[k] == m[k]
  {
    m["title" := f.title]["description" := f.description]["dueDate" := Str(f.dueDate.value)]
     ["progress" := f.progress]["projectId" := Field(m, "projectId")]
  }

  /** `onSubmit` behind the schema: the rebuilt milestone, or nothing when the form is invalid. */
  function SubmitEdit(m: JsObject, f: MilestoneForm): (r: Option<JsObject>)
    ensures r.Some? <==> EditSchemaValid(f)
    ensures r.Some? ==> Field(r.value, "progress").Num? && 0 <= Field(r.value, "progress").n <= 100
    ensures r.Some? ==> Field(r.value, "id") == Field(m, "id") && Field(r.value, "projectId") == Field(m, "projectId")
  {
    if EditSchemaValid(f) then Some(Rebuilt(m, f)) else None
  }

  /**
   * Opening the edit dialog on a milestone and saving it untouched hands on the same milestone,
   * up to the date's ISO form, when its progress is set and within bounds.
   */
  lemma SaveUntouched(m: JsObject, iso: string)
    requires "projectId" in m && "progress" in m && m["progress"].Num? && 0 <= m["progress"].n <= 100
    requires NonEmptyString(Field(m, "title")) && NonEmptyString(Field(m, "description"))
    ensures SubmitEdit(m, FormFromMilestone(m, Some(iso))) == Some(m["dueDate" := Str(iso)])
  {
    var f := FormFromMilestone(m, Some(iso));
    var r := Rebuilt(m, f);
    var want := m["dueDate" := Str(iso)];
    assert "title" in m && "description" in m;
    assert r.Keys == want.Keys;
    forall k | k in r ensures r[k] == want[k] {
    }
    assert r == want;
  }

  /** A milestone without progress opens with progress 0, so it can be saved. */
  lemma MissingProgressDefaultsToZero(m: JsObject, iso: string)
    requires "progress" !in m
    requires NonEmptyString(Field(m, "title")) && NonEmptyString(Field(m, "description"))
    ensures var r := SubmitEdit(m, FormFromMilestone(m, Some(iso)));
            r.Some? && r.value["progress"] == Num(0)
  {
  }

  // ---------------------------------------------------------------------------
  // milestone-card.tsx: the progress toggle
  // ---------------------------------------------------------------------------

  /** The value the toggle asks for: 0 from exactly 100, 100 from anything else. */
  function ToggleTarget(progress: Value): (r: Value)
    ensures r == Num(0) <==> progress == Num(100)
    ensures r == Num(100) <==> progress != Num(100)
  {
    if progress == Num(100) then Num(0) else Num(100)
  }

  /** The toggle's label. */
  function ToggleLabel(progress: Value): (r: string)
    ensures r == "Mark Incomplete" <==> progress == Num(100)
    ensures r == "Mark Complete" <==> progress != Num(100)
  {
    if progress == Num(100) then "Mark Incomplete" else "Mark Complete"
  }

  /** The toggle is rendered only when the card is given an `onUpdateProgress` handler. */
  function ToggleShown(hasHandler: bool, progress: Value): (r: Option<string>)
    ensures r.Some? <==> hasHandler
    ensures r.Some? ==> r.value == ToggleLabel(progress)
  {
    if hasHandler then Some(ToggleLabel(progress)) else None
  }

  /** The label announces the toggle's target: "Complete" asks for 100, "Incomplete" for 0. */
  lemma LabelMatchesTarget(progress: Value)
    ensures ToggleLabel(progress) == "Mark Complete" <==> ToggleTarget(progress) == Num(100)
  {
  }

  /** Toggling twice returns to the start only from 100 or 0; any other progress ends at 0. */
  lemma ToggleTwice(progress: Value)
    ensures ToggleTarget(ToggleTarget(progress)) == progress <==> progress == Num(100) || progress == Num(0)
    ensures progress != Num(100) ==> ToggleTarget(ToggleTarget(progress)) == Num(0)
  {
  }
}
