/**
 * The upload dialog's form: a name, a status, the set of selected programs (a JavaScript
 * `Set`, which keeps insertion order) and the chosen file, of which only its name matters here.
 */
module UploadDialog {
  import opened Outcomes
  import opened Types
  import opened Text
  import opened Seqs

  // ---------------------------------------------------------------- the default name

  /** An extension the pattern `/\.[^/.]+$/` accepts after the final '.'. */
  predicate IsExtension(ext: string) { ext != "" && '.' !in ext && '/' !in ext }

  /** `fileName.replace(/\.[^/.]+$/, "")`: drops a final ".ext" when there is one. */
  function StripExtension(fileName: string): (r: string)
    ensures |r| <= |fileName| && r == fileName[..|r|]
  {
    var ext := AfterLast(fileName, '.');
    if '.' in fileName && IsExtension(ext) then fileName[..|fileName| - |ext| - 1] else fileName
  }

  lemma {:induction false} AfterLastOfDotted(base: string, ext: string)
    requires '.' !in ext
    ensures AfterLast(base + "." + ext, '.') == ext
    decreases |ext|
  {
    if ext != [] {
      var s := base + "." + ext;
      var e := ext[..|ext| - 1];
      assert s[..|s| - 1] == base + "." + e;
      assert '.' !in e by {
        forall i | 0 <= i < |e| ensures e[i] != '.' { assert e[i] == ext[i]; }
      }
      AfterLastOfDotted(base, e);
      assert s[|s| - 1] == ext[|ext| - 1] != '.';
      assert AfterLast(s, '.') == AfterLast(s[..|s| - 1], '.') + [s[|s| - 1]];
      assert e + [ext[|ext| - 1]] == ext;
    }
  }

  /** A name that ends in ".ext" loses exactly that ending. */
  lemma StripRemovesExtension(base: string, ext: string)
    requires IsExtension(ext)
    ensures StripExtension(base + "." + ext) == base
  {
    AfterLastOfDotted(base, ext);
    var s := base + "." + ext;
    assert s[|base|] == '.';
    assert s[..|s| - |ext| - 1] == base;
  }

  /** The name changes only by dropping such an ending; otherwise it is kept whole. */
  lemma StripOnlyRemovesExtension(fileName: string)
    ensures StripExtension(fileName) == fileName
         || exists ext :: IsExtension(ext) && fileName == StripExtension(fileName) + "." + ext
  {
    var ext := AfterLast(fileName, '.');
    if '.' in fileName && IsExtension(ext) {
      var r := StripExtension(fileName);
      assert fileName == r + "." + ext;
    }
  }

  // ---------------------------------------------------------------- the program selection

  /** `handleProgramToggle`'s new set: an absent id is added at the end, a present one deleted. */
  function Toggled(selected: seq<string>, id: string): (r: seq<string>)
    ensures id in r <==> id !in selected
    ensures forall x :: x != id ==> (x in r <==> x in selected)
  {
    if id in selected then Remove(selected, id) else selected + [id]
  }

  lemma ToggleKeepsNoDuplicates(selected: seq<string>, id: string)
    requires NoDuplicates(selected)
    ensures NoDuplicates(Toggled(selected, id))
  {
    if id in selected {
      RemoveKeepsNoDuplicates(selected, id);
    }
  }

  /**
   * Toggling twice gives back the same set. When the id was absent it gives back the very same
   * sequence; when it was present the id moves to the end, as re-adding to a `Set` does.
   */
  lemma ToggleTwice(selected: seq<string>, id: string)
    ensures forall x :: x in Toggled(Toggled(selected, id), id) <==> x in selected
    ensures id !in selected ==> Toggled(Toggled(selected, id), id) == selected
    ensures id in selected ==> Toggled(Toggled(selected, id), id) == Remove(selected, id) + [id]
  {
    if id !in selected {
      RemoveLastAppended(selected, id);
    }
  }

  // ---------------------------------------------------------------- the form

  class Form {
    var name: string
    var status: DocumentStatus
    var selectedProgramIds: seq<string>
    /** The chosen file's name, or None before a file is picked. */
    var file: Option<string>
    /** Whether the dialog is open; the parent owns it and the form closes it through `onOpenChange`. */
    var open: bool

    ghost predicate Valid()
      reads this
    {
      NoDuplicates(selectedProgramIds)
    }

    constructor (open: bool)
      ensures Valid()
      ensures name == "" && status == Draft && selectedProgramIds == [] && file == None && this.open == open
    {
      name, status, selectedProgramIds, file, this.open := "", Draft, [], None, open;
    }

    /** `handleFileChange`: keeps the file; fills the name from it only when the name is empty. */
    method HandleFileChange(selectedFile: Option<string>)
      modifies this
      ensures status == old(status) && selectedProgramIds == old(selectedProgramIds) && open == old(open)
      ensures selectedFile.None? ==> file == old(file) && name == old(name)
      ensures selectedFile.Some? ==> file == selectedFile
      ensures selectedFile.Some? && old(name) == "" ==> name == StripExtension(selectedFile.value)
      ensures old(name) != "" ==> name == old(name)
    {
      if selectedFile.Some? {
        file := selectedFile;
        if name == "" {
          name := StripExtension(selectedFile.value);
        }
      }
    }

    /** `handleProgramToggle`. */
    method HandleProgramToggle(programId: string)
      requires Valid()
      modifies this
      ensures Valid()
      ensures selectedProgramIds == Toggled(old(selectedProgramIds), programId)
      ensures name == old(name) && status == old(status) && file == old(file) && open == old(open)
    {
      ToggleKeepsNoDuplicates(selectedProgramIds, programId);
      selectedProgramIds := Toggled(selectedProgramIds, programId);
    }

    /**
     * `handleSubmit`: without a name or a file nothing happens; otherwise the document is handed
     * to the parent (with no word count and no file URL) and the form is reset and closed.
     */
    method HandleSubmit(documentType: DocumentType) returns (upload: Option<UploadRequest>)
      requires Valid()
      modifies this
      ensures Valid()
      ensures old(name) == "" || old(file).None? ==>
        && upload.None?
        && name == old(name) && status == old(status) && selectedProgramIds == old(selectedProgramIds)
        && file == old(file) && open == old(open)
      ensures old(name) != "" && old(file).Some? ==>
        && upload == Some(UploadRequest(old(name), documentType, old(status), old(selectedProgramIds), None, None))
        && NoDuplicates(upload.value.assignedProgramIds)
        && name == "" && status == Draft && selectedProgramIds == [] && file == None && !open
    {
      if name == "" || file.None? {
        return None;
      }
      upload := Some(UploadRequest(name, documentType, status, selectedProgramIds, None, None));
      name, status, selectedProgramIds, file := "", Draft, [], None;
      open := false;
    }
  }
}
