/**
 * The requirement hooks: reading a program's checklist, and creating, updating and deleting
 * requirement rows, with the recomputation of the owning program's
 * `requirements_completed` / `requirements_total` by a full scan of its rows.
 */
module RequirementHooks {
  import opened Outcomes
  import opened Types
  import opened Store

  /** transformRequirement: a row as the client sees it (null notes or document become absent). */
  function ToRequirement(row: RequirementRow): Requirement
  {
    Requirement(row.id, row.programId, row.name, row.completed, row.notes, row.documentId)
  }

  /** The row a create inserts; `id` is the key the server assigns. */
  function InsertedRow(id: string, r: NewRequirement): RequirementRow
  {
    RequirementRow(id, r.programId, r.name, r.completed, r.notes, r.documentId)
  }

  /** A created requirement reads back as exactly the fields that were given. */
  lemma CreatedRequirementReadsBack(id: string, r: NewRequirement)
    ensures ToRequirement(InsertedRow(id, r))
         == Requirement(id, r.programId, r.name, r.completed, r.notes, r.documentId)
  {
  }

  // ---------------------------------------------------------------- the update builder

  /** `updateData`: the columns an update writes; None for a column it leaves out. */
  datatype RequirementPatch = RequirementPatch(
    name: Option<string>,
    completed: Option<bool>,
    notes: Option<string>,
    documentId: Option<string>)

  /** Copies each defined field of the update; `id` and `programId` are never copied. */
  function UpdateData(u: RequirementUpdate): RequirementPatch
  {
    RequirementPatch(u.name, u.completed, u.notes, u.documentId)
  }

  function Apply(row: RequirementRow, d: RequirementPatch): RequirementRow
  {
    row.(name := if d.name.Some? then d.name.value else row.name,
         completed := if d.completed.Some? then d.completed.value else row.completed,
         notes := if d.notes.Some? then d.notes else row.notes,
         documentId := if d.documentId.Some? then d.documentId else row.documentId)
  }

  /**
   * An update writes the defined fields and keeps every other column; in particular it never
   * moves a requirement to another program, whatever `programId` the update carries.
   */
  lemma UpdateWritesDefinedFields(row: RequirementRow, u: RequirementUpdate)
    ensures Apply(row, UpdateData(u)).id == row.id
    ensures Apply(row, UpdateData(u)).programId == row.programId
    ensures u.name.Some? ==> Apply(row, UpdateData(u)).name == u.name.value
    ensures u.name.None? ==> Apply(row, UpdateData(u)).name == row.name
    ensures u.completed.Some? ==> Apply(row, UpdateData(u)).completed == u.completed.value
    ensures u.completed.None? ==> Apply(row, UpdateData(u)).completed == row.completed
    ensures u.notes.Some? ==> Apply(row, UpdateData(u)).notes == u.notes
    ensures u.notes.None? ==> Apply(row, UpdateData(u)).notes == row.notes
    ensures u.documentId.Some? ==> Apply(row, UpdateData(u)).documentId == u.documentId
    ensures u.documentId.None? ==> Apply(row, UpdateData(u)).documentId == row.documentId
    ensures Apply(row, UpdateData(NoRequirementChanges)) == row
    ensures Apply(Apply(row, UpdateData(u)), UpdateData(u)) == Apply(row, UpdateData(u))
  {
  }

  // ---------------------------------------------------------------- table operations

  /** The number of rows whose id is `id` (what `.single()` insists is one). */
  function MatchCount(reqs: seq<RequirementRow>, id: string): nat
  {
    if reqs == [] then 0 else (if reqs[0].id == id then 1 else 0) + MatchCount(reqs[1..], id)
  }

  /** The index of the first row with id `id`. */
  function FindById(reqs: seq<RequirementRow>, id: string): (k: nat)
    requires MatchCount(reqs, id) >= 1
    ensures k < |reqs| && reqs[k].id == id
  {
    if reqs[0].id == id then 0 else 1 + FindById(reqs[1..], id)
  }

  /** With exactly one match, no other row carries that id. */
  lemma {:induction false} OnlyMatch(reqs: seq<RequirementRow>, id: string, i: nat)
    requires MatchCount(reqs, id) == 1 && i < |reqs| && i != FindById(reqs, id)
    ensures reqs[i].id != id
  {
    if reqs[0].id == id {
      assert MatchCount(reqs[1..], id) == 0;
      ZeroMatches(reqs[1..], id, i - 1);
    } else if i > 0 {
      OnlyMatch(reqs[1..], id, i - 1);
    }
  }

  lemma {:induction false} ZeroMatches(reqs: seq<RequirementRow>, id: string, i: nat)
    requires MatchCount(reqs, id) == 0 && i < |reqs|
    ensures reqs[i].id != id
  {
    if i > 0 {
      ZeroMatches(reqs[1..], id, i - 1);
    }
  }

  /** `.update(d).eq("id", id)`: every row with that id is patched. */
  function PatchRows(reqs: seq<RequirementRow>, id: string, d: RequirementPatch): (r: seq<RequirementRow>)
    ensures |r| == |reqs|
    ensures forall i :: 0 <= i < |reqs| ==> r[i] == if reqs[i].id == id then Apply(reqs[i], d) else reqs[i]
  {
    if reqs == [] then []
    else [if reqs[0].id == id then Apply(reqs[0], d) else reqs[0]] + PatchRows(reqs[1..], id, d)
  }

  /** `.delete().eq("id", id)`: every row with that id is removed. */
  function RemoveId(reqs: seq<RequirementRow>, id: string): (r: seq<RequirementRow>)
    ensures forall x :: x in r <==> x in reqs && x.id != id
    ensures |r| == |reqs| - MatchCount(reqs, id)
  {
    if reqs == [] then []
    else (if reqs[0].id == id then [] else [reqs[0]]) + RemoveId(reqs[1..], id)
  }

  /** The rows of program `pid`, in table order: `.select(...).eq("program_id", pid)`. */
  function RowsOf(reqs: seq<RequirementRow>, pid: string): (rows: seq<RequirementRow>)
    ensures |rows| <= |reqs|
    ensures forall i :: 0 <= i < |rows| ==> rows[i].programId == pid
  {
    if reqs == [] then []
    else (if reqs[0].programId == pid then [reqs[0]] else []) + RowsOf(reqs[1..], pid)
  }

  /** The selection holds exactly the program's rows. */
  lemma {:induction false} RowsOfSelects(reqs: seq<RequirementRow>, pid: string)
    ensures forall x :: x in RowsOf(reqs, pid) <==> x in reqs && x.programId == pid
  {
    if reqs != [] {
      RowsOfSelects(reqs[1..], pid);
      assert reqs == [reqs[0]] + reqs[1..];
    }
  }

  /** A program no requirement row points at has no rows. */
  lemma {:induction false} RowsOfAbsentProgram(reqs: seq<RequirementRow>, pid: string)
    requires forall r :: r in reqs ==> r.programId != pid
    ensures RowsOf(reqs, pid) == []
  {
    if reqs != [] {
      assert reqs[0] in reqs;
      forall r | r in reqs[1..] ensures r.programId != pid { assert r in reqs; }
      RowsOfAbsentProgram(reqs[1..], pid);
    }
  }

  /** `filter((r) => r.completed).length`. */
  function CompletedIn(rows: seq<RequirementRow>): (n: nat)
    ensures n <= |rows|
  {
    if rows == [] then 0 else (if rows[0].completed then 1 else 0) + CompletedIn(rows[1..])
  }

  datatype Counters = Counters(completed: nat, total: nat)

  /** The recomputed counters of program `pid`: completed rows and all rows. */
  function Recount(reqs: seq<RequirementRow>, pid: string): (c: Counters)
    ensures c.completed <= c.total <= |reqs|
  {
    var rows := RowsOf(reqs, pid);
    Counters(CompletedIn(rows), |rows|)
  }

  /** `.from("programs").update({...counters}).eq("id", pid)`: no owner filter, no `.single()`. */
  function WriteCounters(programs: seq<ProgramRow>, pid: string, c: Counters): (r: seq<ProgramRow>)
    ensures |r| == |programs|
    ensures forall i :: 0 <= i < |programs| ==>
      r[i] == if programs[i].id == pid
              then programs[i].(requirementsCompleted := c.completed, requirementsTotal := c.total)
              else programs[i]
  {
    if programs == [] then []
    else
      [if programs[0].id == pid
       then programs[0].(requirementsCompleted := c.completed, requirementsTotal := c.total)
       else programs[0]] + WriteCounters(programs[1..], pid, c)
  }

  // ---------------------------------------------------------------- the derived-data invariant

  /** A program row's counters agree with a full scan of its requirement rows. */
  predicate CountersMatch(p: ProgramRow, reqs: seq<RequirementRow>)
  {
    p.requirementsCompleted == Recount(reqs, p.id).completed
    && p.requirementsTotal == Recount(reqs, p.id).total
  }

  predicate Consistent(programs: seq<ProgramRow>, reqs: seq<RequirementRow>)
  {
    forall i :: 0 <= i < |programs| ==> CountersMatch(programs[i], reqs)
  }

  lemma {:induction false} RowsOfAppend(a: seq<RequirementRow>, b: seq<RequirementRow>, q: string)
    ensures RowsOf(a + b, q) == RowsOf(a, q) + RowsOf(b, q)
  {
    if a != [] {
      assert (a + b)[1..] == a[1..] + b;
      RowsOfAppend(a[1..], b, q);
    } else {
      assert a + b == b;
    }
  }

  lemma {:induction false} CompletedInAppend(a: seq<RequirementRow>, b: seq<RequirementRow>)
    ensures CompletedIn(a + b) == CompletedIn(a) + CompletedIn(b)
  {
    if a != [] {
      assert (a + b)[1..] == a[1..] + b;
      CompletedInAppend(a[1..], b);
    } else {
      assert a + b == b;
    }
  }

  /** Patching rows that do not belong to program `q` leaves `q`'s rows as they were. */
  lemma {:induction false} PatchKeepsOtherPrograms(reqs: seq<RequirementRow>, id: string, d: RequirementPatch, q: string)
    requires forall i :: 0 <= i < |reqs| && reqs[i].id == id ==> reqs[i].programId != q
    ensures RowsOf(PatchRows(reqs, id, d), q) == RowsOf(reqs, q)
  {
    if reqs != [] {
      assert PatchRows(reqs, id, d)[1..] == PatchRows(reqs[1..], id, d);
      PatchKeepsOtherPrograms(reqs[1..], id, d, q);
    }
  }

  /** Patching never changes which program a row belongs to, so no program's total changes. */
  lemma {:induction false} PatchKeepsTotals(reqs: seq<RequirementRow>, id: string, d: RequirementPatch, q: string)
    ensures |RowsOf(PatchRows(reqs, id, d), q)| == |RowsOf(reqs, q)|
  {
    if reqs != [] {
      assert PatchRows(reqs, id, d)[1..] == PatchRows(reqs[1..], id, d);
      PatchKeepsTotals(reqs[1..], id, d, q);
    }
  }

  /** Writing the recount of `pid` repairs `pid` and leaves every other program as it was. */
  lemma WriteRecountRepairs(programs: seq<ProgramRow>, reqs: seq<RequirementRow>, pid: string)
    requires forall i :: 0 <= i < |programs| && programs[i].id != pid ==> CountersMatch(programs[i], reqs)
    ensures Consistent(WriteCounters(programs, pid, Recount(reqs, pid)), reqs)
  {
  }

  /**
   * After a successful update and a successful counter write, every program's counters agree
   * with its rows again, provided they did before.
   */
  lemma UpdateRestoresConsistency(programs: seq<ProgramRow>, reqs: seq<RequirementRow>, id: string, d: RequirementPatch)
    requires Consistent(programs, reqs) && MatchCount(reqs, id) == 1
    ensures var pid := reqs[FindById(reqs, id)].programId;
            var after := PatchRows(reqs, id, d);
            Consistent(WriteCounters(programs, pid, Recount(after, pid)), after)
  {
    var k := FindById(reqs, id);
    var pid := reqs[k].programId;
    var after := PatchRows(reqs, id, d);
    forall i | 0 <= i < |programs| && programs[i].id != pid
      ensures CountersMatch(programs[i], after)
    {
      forall j | 0 <= j < |reqs| && reqs[j].id == id
        ensures reqs[j].programId != programs[i].id
      {
        if j != k { OnlyMatch(reqs, id, j); }
      }
      PatchKeepsOtherPrograms(reqs, id, d, programs[i].id);
    }
    WriteRecountRepairs(programs, after, pid);
  }

  /** Deleting the only row with `id` is removing the one index where it sits. */
  lemma {:induction false} RemoveOnlyMatch(reqs: seq<RequirementRow>, id: string)
    requires MatchCount(reqs, id) == 1
    ensures var k := FindById(reqs, id); RemoveId(reqs, id) == reqs[..k] + reqs[k + 1..]
  {
    var tail := reqs[1..];
    if reqs[0].id == id {
      RemoveNone(tail, id);
      assert reqs[..0] + reqs[1..] == tail;
    } else {
      RemoveOnlyMatch(tail, id);
      SpliceAfterHead(reqs, FindById(tail, id));
    }
  }

  /** Splicing index `k` out of the tail and putting the head back splices index `k + 1` out of the whole. */
  lemma SpliceAfterHead(reqs: seq<RequirementRow>, k: nat)
    requires k + 1 < |reqs|
    ensures [reqs[0]] + (reqs[1..][..k] + reqs[1..][k + 1..]) == reqs[..k + 1] + reqs[k + 2..]
  {
    assert reqs[1..][..k] == reqs[1..k + 1];
    assert reqs[1..][k + 1..] == reqs[k + 2..];
    assert reqs[..k + 1] == [reqs[0]] + reqs[1..k + 1];
  }

  lemma {:induction false} RemoveNone(reqs: seq<RequirementRow>, id: string)
    requires MatchCount(reqs, id) == 0
    ensures RemoveId(reqs, id) == reqs
  {
    if reqs != [] {
      RemoveNone(reqs[1..], id);
      assert reqs == [reqs[0]] + reqs[1..];
    }
  }

  /**
   * Removing one requirement lowers its program's total by one and its completed count by one
   * exactly when the removed requirement was completed; other programs keep their counts.
   */
  lemma DeleteAdjustsCounters(reqs: seq<RequirementRow>, k: nat)
    requires k < |reqs|
    ensures var gone := reqs[k];
            var rest := reqs[..k] + reqs[k + 1..];
            && Recount(rest, gone.programId).total == Recount(reqs, gone.programId).total - 1
            && Recount(rest, gone.programId).completed
               == Recount(reqs, gone.programId).completed - (if gone.completed then 1 else 0)
            && forall q :: q != gone.programId ==> Recount(rest, q) == Recount(reqs, q)
  {
    var gone := reqs[k];
    var p := gone.programId;
    var a, b := reqs[..k], reqs[k + 1..];
    assert reqs == a + [gone] + b;
    assert [gone][1..] == [];
    forall q
      ensures RowsOf(reqs, q) == RowsOf(a, q) + RowsOf([gone], q) + RowsOf(b, q)
      ensures RowsOf(a + b, q) == RowsOf(a, q) + RowsOf(b, q)
      ensures q != p ==> Recount(a + b, q) == Recount(reqs, q)
    {
      RowsOfAppend(a + [gone], b, q);
      RowsOfAppend(a, [gone], q);
      RowsOfAppend(a, b, q);
      if q != p {
        assert RowsOf([gone], q) == [];
        assert RowsOf(a, q) + [] == RowsOf(a, q);
      }
    }
    assert RowsOf([gone], p) == [gone];
    assert CompletedIn([gone]) == if gone.completed then 1 else 0;
    CompletedInAppend(RowsOf(a, p) + [gone], RowsOf(b, p));
    CompletedInAppend(RowsOf(a, p), [gone]);
    CompletedInAppend(RowsOf(a, p), RowsOf(b, p));
  }

  /**
   * After a delete whose pre-delete lookup found the row and whose counter write succeeded,
   * every program's counters agree with its rows again, provided they did before.
   */
  lemma DeleteRestoresConsistency(programs: seq<ProgramRow>, reqs: seq<RequirementRow>, id: string)
    requires Consistent(programs, reqs) && MatchCount(reqs, id) == 1
    ensures var pid := reqs[FindById(reqs, id)].programId;
            var after := RemoveId(reqs, id);
            Consistent(WriteCounters(programs, pid, Recount(after, pid)), after)
  {
    var k := FindById(reqs, id);
    var pid := reqs[k].programId;
    RemoveOnlyMatch(reqs, id);
    DeleteAdjustsCounters(reqs, k);
    WriteRecountRepairs(programs, RemoveId(reqs, id), pid);
  }

  /**
   * Appending a row without recounting breaks the invariant for the row's program whenever
   * that program exists: its stored total is one short of the rows it owns.
   */
  lemma CreateWithoutRecountBreaksConsistency(programs: seq<ProgramRow>, reqs: seq<RequirementRow>, row: RequirementRow, i: nat)
    requires Consistent(programs, reqs)
    requires i < |programs| && programs[i].id == row.programId
    ensures !Consistent(programs, reqs + [row])
  {
    RowsOfAppend(reqs, [row], row.programId);
    assert RowsOf([row], row.programId) == [row];
    assert !CountersMatch(programs[i], reqs + [row]);
  }

  /** Appending a row and then writing the recount of its program keeps every program consistent. */
  lemma CreateWithRecountKeepsConsistency(programs: seq<ProgramRow>, reqs: seq<RequirementRow>, row: RequirementRow)
    requires Consistent(programs, reqs)
    ensures Consistent(WriteCounters(programs, row.programId, Recount(reqs + [row], row.programId)), reqs + [row])
  {
    forall q | q != row.programId
      ensures Recount(reqs + [row], q) == Recount(reqs, q)
    {
      RowsOfAppend(reqs, [row], q);
      assert RowsOf([row], q) == [];
      assert RowsOf(reqs, q) + [] == RowsOf(reqs, q);
    }
    WriteRecountRepairs(programs, reqs + [row], row.programId);
  }

  // ---------------------------------------------------------------- the hooks

  /**
   * useRequirements: the program's requirements in creation order. The query only runs for a
   * non-empty program id; a page whose query did not run shows an empty list.
   */
  function ListRequirements(reqs: seq<RequirementRow>, user: Option<string>, programId: string, readFails: bool)
    : (r: Result<seq<Requirement>>)
    ensures programId == "" ==> r == Ok([])
    ensures programId != "" && user.None? ==> r == Err(NotAuthenticated)
    ensures r.Ok? <==> programId == "" || (user.Some? && !readFails)
    ensures r.Ok? && programId != "" ==> |r.value| == Recount(reqs, programId).total
    ensures r.Ok? && programId != "" ==>
      forall i :: 0 <= i < |r.value| ==> r.value[i] == ToRequirement(RowsOf(reqs, programId)[i])
    ensures r.Ok? ==> forall i :: 0 <= i < |r.value| ==> r.value[i].programId == programId
  {
    if programId == "" then Ok([])
    else if user.None? then Err(NotAuthenticated)
    else if readFails then Err(BackendError)
    else
      var rows := RowsOf(reqs, programId);
      Ok(seq(|rows|, i requires 0 <= i < |rows| => ToRequirement(rows[i])))
  }

  /** While the counters are consistent, a program's checklist is as long as its stored total. */
  lemma ListedCountMatchesCounters(programs: seq<ProgramRow>, reqs: seq<RequirementRow>, i: nat, user: string)
    requires Consistent(programs, reqs)
    requires i < |programs| && programs[i].id != ""
    ensures ListRequirements(reqs, Some(user), programs[i].id, false).Ok?
    ensures |ListRequirements(reqs, Some(user), programs[i].id, false).value| == programs[i].requirementsTotal
  {
    assert CountersMatch(programs[i], reqs);
  }

  /** useCreateRequirement, as written: inserts one row and recounts nothing. */
  method CreateRequirement(db: Database, user: Option<string>, newId: string, requirement: NewRequirement, insertFails: bool)
    returns (result: Result<Requirement>)
    modifies db
    ensures db.programs == old(db.programs)
    ensures db.documents == old(db.documents) && db.documentPrograms == old(db.documentPrograms)
    ensures user.None? ==> result == Err(NotAuthenticated)
    ensures result.Ok? <==> user.Some? && !insertFails
    ensures result.Err? ==> db.requirements == old(db.requirements)
    ensures result.Ok? ==> db.requirements == old(db.requirements) + [InsertedRow(newId, requirement)]
    ensures result.Ok? ==> result.value == ToRequirement(InsertedRow(newId, requirement))
  {
    if user.None? {
      return Err(NotAuthenticated);
    }
    if insertFails {
      return Err(BackendError);
    }
    var row := InsertedRow(newId, requirement);
    db.requirements := db.requirements + [row];
    return Ok(ToRequirement(row));
  }

  /**
   * A create that keeps the counters consistent: insert, then recount the owning program the
   * way update and delete do (the hook already invalidates the programs query after a create,
   * as if their counters had changed). A failed re-read or counter write is ignored, as there.
   */
  method CreateRequirementRecounted(db: Database, user: Option<string>, newId: string, requirement: NewRequirement,
                                    insertFails: bool, rereadFails: bool, counterWriteFails: bool)
    returns (result: Result<Requirement>)
    modifies db
    ensures db.documents == old(db.documents) && db.documentPrograms == old(db.documentPrograms)
    ensures user.None? ==> result == Err(NotAuthenticated)
    ensures result.Ok? <==> user.Some? && !insertFails
    ensures result.Err? ==> db.requirements == old(db.requirements) && db.programs == old(db.programs)
    ensures result.Ok? ==> db.requirements == old(db.requirements) + [InsertedRow(newId, requirement)]
    ensures result.Ok? && !rereadFails && !counterWriteFails ==>
      db.programs == WriteCounters(old(db.programs), requirement.programId, Recount(db.requirements, requirement.programId))
    ensures result.Ok? && !rereadFails && !counterWriteFails && Consistent(old(db.programs), old(db.requirements)) ==>
      Consistent(db.programs, db.requirements)
    ensures result.Ok? && (rereadFails || counterWriteFails) ==> db.programs == old(db.programs)
  {
    result := CreateRequirement(db, user, newId, requirement, insertFails);
    if result.Ok? && !rereadFails {
      var programData := RowsOf(db.requirements, requirement.programId);
      var counters := Counters(CompletedIn(programData), |programData|);
      if !counterWriteFails {
        if Consistent(db.programs, old(db.requirements)) {
          CreateWithRecountKeepsConsistency(db.programs, old(db.requirements), InsertedRow(newId, requirement));
        }
        db.programs := WriteCounters(db.programs, requirement.programId, counters);
      }
    }
  }

  /**
   * useUpdateRequirement: writes the defined fields of the row with `id` (which must match
   * exactly one row), then re-reads the owning program's rows and writes the recounted
   * counters onto that program. The re-read and the counter write are not checked: when
   * either fails the update still succeeds and the counters stay as they were.
   */
  method UpdateRequirement(db: Database, user: Option<string>, id: string, updates: RequirementUpdate,
                           writeFails: bool, rereadFails: bool, counterWriteFails: bool)
    returns (result: Result<Requirement>)
    modifies db
    ensures db.documents == old(db.documents) && db.documentPrograms == old(db.documentPrograms)
    ensures user.None? ==> result == Err(NotAuthenticated)
    ensures result.Ok? <==> user.Some? && !writeFails && MatchCount(old(db.requirements), id) == 1
    ensures result.Err? ==> db.requirements == old(db.requirements) && db.programs == old(db.programs)
    ensures result.Ok? ==>
      var k := FindById(old(db.requirements), id);
      var pid := old(db.requirements)[k].programId;
      && db.requirements == PatchRows(old(db.requirements), id, UpdateData(updates))
      && result.value == ToRequirement(Apply(old(db.requirements)[k], UpdateData(updates)))
      && result.value.programId == pid
      && db.programs == if rereadFails || counterWriteFails then old(db.programs)
                        else WriteCounters(old(db.programs), pid, Recount(db.requirements, pid))
    ensures result.Ok? && !rereadFails && !counterWriteFails && Consistent(old(db.programs), old(db.requirements)) ==>
      Consistent(db.programs, db.requirements)
  {
    if user.None? {
      return Err(NotAuthenticated);
    }
    var updateData := UpdateData(updates);
    if writeFails || MatchCount(db.requirements, id) != 1 {
      return Err(BackendError);
    }
    var k := FindById(db.requirements, id);
    if Consistent(db.programs, db.requirements) {
      UpdateRestoresConsistency(db.programs, db.requirements, id, updateData);
    }
    db.requirements := PatchRows(db.requirements, id, updateData);
    var requirement := ToRequirement(db.requirements[k]);
    if !rereadFails {
      var programData := RowsOf(db.requirements, requirement.programId);
      var completed := CompletedIn(programData);
      var total := |programData|;
      if !counterWriteFails {
        db.programs := WriteCounters(db.programs, requirement.programId, Counters(completed, total));
      }
    }
    return Ok(requirement);
  }

  /**
   * useDeleteRequirement: looks the row up first (a failed or empty lookup is not an error),
   * deletes every row with `id`, and recounts the program the lookup named, if any.
   */
  method DeleteRequirement(db: Database, user: Option<string>, id: string,
                           lookupFails: bool, deleteFails: bool, rereadFails: bool, counterWriteFails: bool)
    returns (result: Result<()>)
    modifies db
    ensures db.documents == old(db.documents) && db.documentPrograms == old(db.documentPrograms)
    ensures user.None? ==> result == Err(NotAuthenticated)
    ensures result.Ok? <==> user.Some? && !deleteFails
    ensures result.Err? ==> db.requirements == old(db.requirements) && db.programs == old(db.programs)
    ensures result.Ok? ==> db.requirements == RemoveId(old(db.requirements), id)
    ensures result.Ok? && (lookupFails || MatchCount(old(db.requirements), id) != 1 || rereadFails || counterWriteFails) ==>
      db.programs == old(db.programs)
    ensures result.Ok? && !lookupFails && MatchCount(old(db.requirements), id) == 1 && !rereadFails && !counterWriteFails ==>
      var pid := old(db.requirements)[FindById(old(db.requirements), id)].programId;
      db.programs == WriteCounters(old(db.programs), pid, Recount(db.requirements, pid))
    ensures result.Ok? && !lookupFails && MatchCount(old(db.requirements), id) == 1 && !rereadFails && !counterWriteFails
            && Consistent(old(db.programs), old(db.requirements)) ==>
      Consistent(db.programs, db.requirements)
  {
    if user.None? {
      return Err(NotAuthenticated);
    }
    var found: Option<string> := None;
    if !lookupFails && MatchCount(db.requirements, id) == 1 {
      found := Some(db.requirements[FindById(db.requirements, id)].programId);
      if Consistent(db.programs, db.requirements) {
        DeleteRestoresConsistency(db.programs, db.requirements, id);
      }
    }
    if deleteFails {
      return Err(BackendError);
    }
    db.requirements := RemoveId(db.requirements, id);
    if found.Some? && !rereadFails {
      var programData := RowsOf(db.requirements, found.value);
      var completed := CompletedIn(programData);
      var total := |programData|;
      if !counterWriteFails {
        db.programs := WriteCounters(db.programs, found.value, Counters(completed, total));
      }
    }
    return Ok(());
  }
}
