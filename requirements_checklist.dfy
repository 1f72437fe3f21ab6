/**
 * The requirements checklist on a program's page: which items are expanded, the "Add
 * Requirement" dialog and the updates its checkboxes and notes fields send.
 */
module RequirementsChecklist {
  import opened Outcomes
  import opened Types
  import opened Store
  import RequirementHooks

  /** A checkbox's state: checked, unchecked, or the third "indeterminate" state. */
  datatype CheckedState = Checked | Unchecked | Indeterminate

  /** `checked === true`. */
  function CompletedFrom(checked: CheckedState): (completed: bool)
    ensures completed <==> checked == Checked
  {
    checked.Checked?
  }

  /** The update a checkbox click sends through the page: only `completed`. */
  function ToggleUpdate(checked: CheckedState): RequirementUpdate
  {
    NoRequirementChanges.(completed := Some(CompletedFrom(checked)))
  }

  /** The update a notes edit sends: only `notes`. */
  function NotesUpdate(notes: string): RequirementUpdate
  {
    NoRequirementChanges.(notes := Some(notes))
  }

  /** A checkbox click changes the row's `completed` and nothing else; any non-checked state clears it. */
  lemma ToggleChangesOnlyCompleted(row: RequirementRow, checked: CheckedState)
    ensures RequirementHooks.Apply(row, RequirementHooks.UpdateData(ToggleUpdate(checked)))
         == row.(completed := checked == Checked)
  {
  }

  /** A notes edit changes the row's notes and nothing else. */
  lemma NotesEditChangesOnlyNotes(row: RequirementRow, notes: string)
    ensures RequirementHooks.Apply(row, RequirementHooks.UpdateData(NotesUpdate(notes))) == row.(notes := Some(notes))
  {
  }

  // ---------------------------------------------------------------- expanded items

  /** `toggleExpanded`'s new set. */
  function ToggledSet(items: set<string>, id: string): (r: set<string>)
    ensures id in r <==> id !in items
    ensures forall x :: x != id ==> (x in r <==> x in items)
  {
    if id in items then items - {id} else items + {id}
  }

  lemma ToggleExpandedTwice(items: set<string>, id: string)
    ensures ToggledSet(ToggledSet(items, id), id) == items
  {
  }

  // ---------------------------------------------------------------- the create payload

  /** The hidden `programId` field: `requirements[0]?.programId || ""`. */
  function FormProgramId(requirements: seq<Requirement>): string
  {
    if |requirements| == 0 then "" else requirements[0].programId
  }

  /**
   * The requirement the form creates, as written: the submitted name, not completed, and the
   * program of the first listed requirement.
   */
  function CreatePayload(name: string, requirements: seq<Requirement>): (r: NewRequirement)
    ensures r.name == name && !r.completed && r.notes.None? && r.documentId.None?
  {
    NewRequirement(FormProgramId(requirements), name, false, None, None)
  }

  /** On a page that lists a program's requirements, the form's program id is that program's. */
  lemma FormProgramIdOfListedPage(reqs: seq<RequirementRow>, user: Option<string>, programId: string, readFails: bool)
    requires RequirementHooks.ListRequirements(reqs, user, programId, readFails).Ok?
    requires |RequirementHooks.ListRequirements(reqs, user, programId, readFails).value| > 0
    ensures FormProgramId(RequirementHooks.ListRequirements(reqs, user, programId, readFails).value) == programId
  {
  }

  /**
   * As written, a program with no requirements yet cannot get its first one: the payload's
   * program id is "", so the new row never shows up among the program's requirements.
   */
  lemma FirstRequirementMissesProgram(reqs: seq<RequirementRow>, programId: string, newId: string, name: string)
    requires programId != ""
    ensures CreatePayload(name, []).programId == ""
    ensures RequirementHooks.RowsOf(reqs + [RequirementHooks.InsertedRow(newId, CreatePayload(name, []))], programId)
         == RequirementHooks.RowsOf(reqs, programId)
  {
    var row := RequirementHooks.InsertedRow(newId, CreatePayload(name, []));
    RequirementHooks.RowsOfAppend(reqs, [row], programId);
    assert RequirementHooks.RowsOf([row], programId) == [];
    assert RequirementHooks.RowsOf(reqs, programId) + [] == RequirementHooks.RowsOf(reqs, programId);
  }

  /** The create the page evidently means: the requirement belongs to the page's program. */
  function CreatePayloadFor(pageProgramId: string, name: string): (r: NewRequirement)
    ensures r.programId == pageProgramId
    ensures r.name == name && !r.completed && r.notes.None? && r.documentId.None?
  {
    NewRequirement(pageProgramId, name, false, None, None)
  }

  /** With the page's program id the new requirement joins the end of that program's list, empty or not. */
  lemma CreatedRequirementJoinsProgram(reqs: seq<RequirementRow>, programId: string, newId: string, name: string)
    ensures var row := RequirementHooks.InsertedRow(newId, CreatePayloadFor(programId, name));
      RequirementHooks.RowsOf(reqs + [row], programId) == RequirementHooks.RowsOf(reqs, programId) + [row]
  {
    var row := RequirementHooks.InsertedRow(newId, CreatePayloadFor(programId, name));
    RequirementHooks.RowsOfAppend(reqs, [row], programId);
    assert RequirementHooks.RowsOf([row], programId) == [row];
  }

  // ---------------------------------------------------------------- the component's state

  class Checklist {
    var expandedItems: set<string>
    var dialogOpen: bool

    constructor ()
      ensures expandedItems == {} && !dialogOpen
    {
      expandedItems, dialogOpen := {}, false;
    }

    /** `toggleExpanded`. */
    method ToggleExpanded(id: string)
      modifies this
      ensures expandedItems == ToggledSet(old(expandedItems), id)
      ensures dialogOpen == old(dialogOpen)
    {
      expandedItems := ToggledSet(expandedItems, id);
    }

    /** `handleCreateRequirement`, as written: hands the payload to the page and closes the dialog. */
    method HandleCreateRequirement(name: string, requirements: seq<Requirement>) returns (payload: NewRequirement)
      modifies this
      ensures payload == CreatePayload(name, requirements)
      ensures !dialogOpen && expandedItems == old(expandedItems)
    {
      payload := CreatePayload(name, requirements);
      dialogOpen := false;
    }

    /** The corrected handler: the same, with the page's program id. */
    method HandleCreateRequirementFor(pageProgramId: string, name: string) returns (payload: NewRequirement)
      modifies this
      ensures payload == CreatePayloadFor(pageProgramId, name)
      ensures !dialogOpen && expandedItems == old(expandedItems)
    {
      payload := CreatePayloadFor(pageProgramId, name);
      dialogOpen := false;
    }
  }
}
