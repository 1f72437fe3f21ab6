/**
 * The documents panel: the documents of the selected type, the names of the programs a
 * document is assigned to, the status badge and the count line.
 */
module DocumentsPanel {
  import opened Outcomes
  import opened Types
  import opened Text

  /** The type selected when the panel opens. */
  const InitialType: DocumentType := Sop

  /** The heading of each type in the left-hand list. */
  function TypeLabel(t: DocumentType): string
  {
    match t
    case Sop => "Statement of Purpose"
    case Ps => "Personal Statement"
    case Cv => "CV/Resume"
    case WritingSample => "Writing Sample"
    case Custom => "Custom"
  }

  /** `filteredDocuments`: the documents of type `t`, in input order. */
  function WithType(documents: seq<Document>, t: DocumentType): (r: seq<Document>)
    ensures forall d :: d in r <==> d in documents && d.docType == t
    ensures |r| <= |documents|
    ensures (forall d :: d in documents ==> d.docType == t) ==> r == documents
  {
    if documents == [] then []
    else (if documents[0].docType == t then [documents[0]] else []) + WithType(documents[1..], t)
  }

  /**
   * The filter works item by item, so it keeps input order: filtering two stretches of the
   * list in a row gives the first stretch's documents followed by the second's.
   */
  lemma {:induction false} WithTypeAppend(a: seq<Document>, b: seq<Document>, t: DocumentType)
    ensures WithType(a + b, t) == WithType(a, t) + WithType(b, t)
  {
    if a == [] {
      assert a + b == b;
    } else {
      assert (a + b)[0] == a[0];
      assert (a + b)[1..] == a[1..] + b;
      WithTypeAppend(a[1..], b, t);
    }
  }

  /** A document of the selected type is shown as many times as it occurs; any other, never. */
  lemma {:induction false} WithTypeKeepsMultiplicity(documents: seq<Document>, t: DocumentType, d: Document)
    ensures multiset(WithType(documents, t))[d] == if d.docType == t then multiset(documents)[d] else 0
  {
    if documents != [] {
      var head, tail := documents[0], documents[1..];
      WithTypeKeepsMultiplicity(tail, t, d);
      assert documents == [head] + tail;
      var kept := if head.docType == t then [head] else [];
      assert WithType(documents, t) == kept + WithType(tail, t);
      assert multiset(WithType(documents, t)) == multiset(kept) + multiset(WithType(tail, t));
    }
  }

  /** The panel's view of a program. */
  datatype ProgramSummary = ProgramSummary(id: string, university: string, department: string)

  /** `programs.find((p) => p.id === id)`: the first program with that id. */
  function FindProgram(programs: seq<ProgramSummary>, id: string): (r: Option<nat>)
    ensures r.Some? ==> r.value < |programs| && programs[r.value].id == id
    ensures r.Some? ==> forall j :: 0 <= j < r.value ==> programs[j].id != id
    ensures r.None? <==> forall j :: 0 <= j < |programs| ==> programs[j].id != id
  {
    if programs == [] then None
    else if programs[0].id == id then Some(0)
    else match FindProgram(programs[1..], id)
      case None => None
      case Some(k) => Some(k + 1)
  }

  /** The university `getProgramNames` shows for one id, if it shows one: `filter(Boolean)` drops "". */
  function ShownName(programs: seq<ProgramSummary>, id: string): Option<string>
  {
    match FindProgram(programs, id)
    case None => None
    case Some(k) => if programs[k].university == "" then None else Some(programs[k].university)
  }

  /** The names shown for `ids`, in id order. */
  function Names(programs: seq<ProgramSummary>, ids: seq<string>): (names: seq<string>)
    ensures |names| <= |ids|
    ensures forall n :: n in names ==> n != ""
    ensures (forall id :: id in ids ==> ShownName(programs, id).None?) <==> names == []
  {
    if ids == [] then []
    else (if ShownName(programs, ids[0]).Some? then [ShownName(programs, ids[0]).value] else [])
         + Names(programs, ids[1..])
  }

  /** `getProgramNames`. */
  function ProgramNames(programs: seq<ProgramSummary>, ids: seq<string>): string
  {
    if |ids| == 0 then "No programs"
    else
      var names := Names(programs, ids);
      if |names| > 0 then Join(names, ", ") else "No programs"
  }

  /**
   * "No programs" is shown exactly when no id leads to a program with a university, unless
   * the universities themselves spell it; otherwise the names are joined with ", " in id order.
   */
  lemma ProgramNamesCases(programs: seq<ProgramSummary>, ids: seq<string>)
    ensures (forall id :: id in ids ==> ShownName(programs, id).None?) ==> ProgramNames(programs, ids) == "No programs"
    ensures (exists id :: id in ids && ShownName(programs, id).Some?) ==>
      ProgramNames(programs, ids) == Join(Names(programs, ids), ", ")
  {
  }

  /** A shown name is the university of the first program carrying the id. */
  lemma {:induction false} NamesComeFromFirstMatch(programs: seq<ProgramSummary>, ids: seq<string>, n: string)
    requires n in Names(programs, ids)
    ensures exists id, k ::
      (&& id in ids && 0 <= k < |programs| && programs[k].id == id
       && (forall j :: 0 <= j < k ==> programs[j].id != id) && programs[k].university == n)
  {
    var rest := Names(programs, ids[1..]);
    var head := ShownName(programs, ids[0]);
    if head.Some? && n == head.value {
      var k := FindProgram(programs, ids[0]).value;
      assert ids[0] in ids && programs[k].university == n;
    } else {
      assert n in rest;
      NamesComeFromFirstMatch(programs, ids[1..], n);
      forall id | id in ids[1..] ensures id in ids { }
    }
  }

  /** The names are built id by id: the names for `a + b` are those for `a` followed by those for `b`. */
  lemma {:induction false} NamesAppend(programs: seq<ProgramSummary>, a: seq<string>, b: seq<string>)
    ensures Names(programs, a + b) == Names(programs, a) + Names(programs, b)
  {
    if a == [] {
      assert a + b == b;
    } else {
      var ab := a + b;
      assert ab[0] == a[0] && ab[1..] == a[1..] + b;
      var head := if ShownName(programs, a[0]).Some? then [ShownName(programs, a[0]).value] else [];
      assert Names(programs, ab) == head + Names(programs, a[1..] + b);
      NamesAppend(programs, a[1..], b);
    }
  }

  /** One id contributes the university of its first program when that is non-empty, and nothing otherwise. */
  lemma NamesOfOne(programs: seq<ProgramSummary>, id: string)
    ensures Names(programs, [id]) == if ShownName(programs, id).Some? then [ShownName(programs, id).value] else []
  {
    assert [id][1..] == [];
  }

  /** Every id whose first program has a university contributes that university to the names. */
  lemma {:induction false} EveryShownNameAppears(programs: seq<ProgramSummary>, ids: seq<string>, id: string)
    requires id in ids && ShownName(programs, id).Some?
    ensures ShownName(programs, id).value in Names(programs, ids)
  {
    if ids[0] != id {
      EveryShownNameAppears(programs, ids[1..], id);
    }
  }

  /** The status badge's text. */
  function StatusBadge(s: DocumentStatus): (text: string)
    ensures text == "Final" <==> s == Final
    ensures text == "Draft" <==> s == Draft
  {
    match s
    case Final => "Final"
    case Draft => "Draft"
  }

  /** The line under the heading, e.g. "1 document of type CV/Resume". */
  function CountLine(count: nat, t: DocumentType): string
  {
    Decimal(count) + " " + (if count == 1 then "document" else "documents") + " of type " + TypeLabel(t)
  }

  /** The count line speaks of one "document" only when there is exactly one. */
  lemma CountLineWording(count: nat, t: DocumentType)
    ensures count == 1 ==> CountLine(count, t) == "1 document of type " + TypeLabel(t)
    ensures count != 1 ==> CountLine(count, t) == Decimal(count) + " documents of type " + TypeLabel(t)
  {
    if count == 1 {
      assert Decimal(1) == "1";
      assert "1" + " " + "document" + " of type " == "1 document of type ";
    } else {
      var d, typeLabel := Decimal(count), TypeLabel(t);
      assert " " + "documents" + " of type " == " documents of type ";
      assert d + " " + "documents" + " of type " + typeLabel == d + (" " + "documents" + " of type ") + typeLabel;
    }
  }
}
