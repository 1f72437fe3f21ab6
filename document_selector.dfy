/**
 * The "Attach Document" dialog: the user clicks a document to select it and confirms with
 * Attach, which hands the selection to the parent and closes the dialog.
 */
module DocumentSelector {
  import opened Outcomes

  /** JavaScript truthiness of a `string | null`: present and not empty. */
  predicate Truthy(s: Option<string>) { s.Some? && s.value != "" }

  class Selector {
    var selectedDocumentId: Option<string>
    /** Whether the dialog is open; the parent owns it and is told through `onOpenChange`. */
    var open: bool

    /** `useState(currentDocumentId || null)`. */
    constructor (currentDocumentId: Option<string>, open: bool)
      ensures Truthy(currentDocumentId) ==> selectedDocumentId == currentDocumentId
      ensures !Truthy(currentDocumentId) ==> selectedDocumentId == None
      ensures this.open == open
    {
      selectedDocumentId := if Truthy(currentDocumentId) then currentDocumentId else None;
      this.open := open;
    }

    /** Clicking a document selects it. */
    method Click(documentId: string)
      modifies this
      ensures selectedDocumentId == Some(documentId) && open == old(open)
    {
      selectedDocumentId := Some(documentId);
    }

    /** The Attach button is disabled exactly when nothing (truthy) is selected. */
    predicate AttachDisabled()
      reads this
    {
      !Truthy(selectedDocumentId)
    }

    /**
     * `handleSelect`: with a selection, reports it once to the parent and closes; without one,
     * does nothing. The selection itself is kept either way.
     */
    method HandleSelect() returns (selected: Option<string>)
      modifies this
      ensures selected.None? <==> old(AttachDisabled())
      ensures selected.Some? ==> selected == old(selectedDocumentId) && !open
      ensures selected.None? ==> open == old(open)
      ensures selectedDocumentId == old(selectedDocumentId)
    {
      if Truthy(selectedDocumentId) {
        selected := selectedDocumentId;
        open := false;
      } else {
        selected := None;
      }
    }

    /** Cancel closes the dialog and keeps the selection. */
    method Cancel()
      modifies this
      ensures !open && selectedDocumentId == old(selectedDocumentId)
    {
      open := false;
    }
  }
}
