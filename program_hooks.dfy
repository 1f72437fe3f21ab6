/**
 * The program hooks: the caller's programs ordered by deadline, and the scoped create,
 * update and delete of a program row.
 */
module ProgramHooks {
  import opened Outcomes
  import opened Types
  import opened Store
  import opened Seqs

  /** transformProgram: drops the owner; a null fee becomes undefined. */
  function ToProgram(row: ProgramRow): Program
  {
    Program(row.id, row.university, row.department, row.deadline, row.status,
            row.requirementsCompleted, row.requirementsTotal, row.fee)
  }

  /** The row a create inserts: the caller's fields verbatim, counters included, owned by `userId`. */
  function InsertedRow(id: string, userId: string, p: NewProgram): ProgramRow
  {
    ProgramRow(id, userId, p.university, p.department, p.deadline, p.status,
               p.requirementsCompleted, p.requirementsTotal, p.fee)
  }

  /** What a create returns is what the caller passed, with the new id. */
  lemma CreatedProgramReadsBack(id: string, userId: string, p: NewProgram)
    ensures var q := ToProgram(InsertedRow(id, userId, p));
      && q.id == id && q.university == p.university && q.department == p.department
      && q.deadline == p.deadline && q.status == p.status
      && q.requirementsCompleted == p.requirementsCompleted && q.requirementsTotal == p.requirementsTotal
      && q.fee == p.fee
  {
  }

  /** `updateData`: the columns an update writes. */
  datatype ProgramPatch = ProgramPatch(
    university: Option<string>,
    department: Option<string>,
    deadline: Option<Instant>,
    status: Option<ProgramStatus>,
    requirementsCompleted: Option<int>,
    requirementsTotal: Option<int>,
    fee: Option<real>)

  /** Copies each defined field; `id` is never copied. */
  function UpdateData(u: ProgramUpdate): ProgramPatch
  {
    ProgramPatch(u.university, u.department, u.deadline, u.status,
                 u.requirementsCompleted, u.requirementsTotal, u.fee)
  }

  function Apply(row: ProgramRow, d: ProgramPatch): ProgramRow
  {
    row.(university := if d.university.Some? then d.university.value else row.university,
         department := if d.department.Some? then d.department.value else row.department,
         deadline := if d.deadline.Some? then d.deadline.value else row.deadline,
         status := if d.status.Some? then d.status.value else row.status,
         requirementsCompleted := if d.requirementsCompleted.Some? then d.requirementsCompleted.value else row.requirementsCompleted,
         requirementsTotal := if d.requirementsTotal.Some? then d.requirementsTotal.value else row.requirementsTotal,
         fee := if d.fee.Some? then d.fee else row.fee)
  }

  /** An update writes the defined fields, keeps every other column, and never changes id or owner. */
  lemma UpdateWritesDefinedFields(row: ProgramRow, u: ProgramUpdate)
    ensures Apply(row, UpdateData(u)).id == row.id && Apply(row, UpdateData(u)).userId == row.userId
    ensures u.university.Some? ==> Apply(row, UpdateData(u)).university == u.university.value
    ensures u.university.None? ==> Apply(row, UpdateData(u)).university == row.university
    ensures u.department.Some? ==> Apply(row, UpdateData(u)).department == u.department.value
    ensures u.department.None? ==> Apply(row, UpdateData(u)).department == row.department
    ensures u.deadline.Some? ==> Apply(row, UpdateData(u)).deadline == u.deadline.value
    ensures u.deadline.None? ==> Apply(row, UpdateData(u)).deadline == row.deadline
    ensures u.status.Some? ==> Apply(row, UpdateData(u)).status == u.status.value
    ensures u.status.None? ==> Apply(row, UpdateData(u)).status == row.status
    ensures u.requirementsCompleted.Some? ==> Apply(row, UpdateData(u)).requirementsCompleted == u.requirementsCompleted.value
    ensures u.requirementsCompleted.None? ==> Apply(row, UpdateData(u)).requirementsCompleted == row.requirementsCompleted
    ensures u.requirementsTotal.Some? ==> Apply(row, UpdateData(u)).requirementsTotal == u.requirementsTotal.value
    ensures u.requirementsTotal.None? ==> Apply(row, UpdateData(u)).requirementsTotal == row.requirementsTotal
    ensures u.fee.Some? ==> Apply(row, UpdateData(u)).fee == u.fee
    ensures u.fee.None? ==> Apply(row, UpdateData(u)).fee == row.fee
    ensures UpdateData(u) == UpdateData(u.(id := None))
    ensures Apply(row, UpdateData(NoProgramChanges)) == row
    ensures Apply(Apply(row, UpdateData(u)), UpdateData(u)) == Apply(row, UpdateData(u))
  {
  }

  // ---------------------------------------------------------------- the programs table

  predicate Matches(r: ProgramRow, id: string, user: string) { r.id == id && r.userId == user }

  /** Rows matching `.eq("id", id).eq("user_id", user)`. */
  function MatchCount(programs: seq<ProgramRow>, id: string, user: string): nat
  {
    if programs == [] then 0
    else (if Matches(programs[0], id, user) then 1 else 0) + MatchCount(programs[1..], id, user)
  }

  function FindMatch(programs: seq<ProgramRow>, id: string, user: string): (k: nat)
    requires MatchCount(programs, id, user) >= 1
    ensures k < |programs| && Matches(programs[k], id, user)
  {
    if Matches(programs[0], id, user) then 0 else 1 + FindMatch(programs[1..], id, user)
  }

  /** `.update(d).eq("id", id).eq("user_id", user)`. */
  function PatchMatching(programs: seq<ProgramRow>, id: string, user: string, d: ProgramPatch): (r: seq<ProgramRow>)
    ensures |r| == |programs|
    ensures forall i :: 0 <= i < |programs| ==>
      r[i] == if Matches(programs[i], id, user) then Apply(programs[i], d) else programs[i]
  {
    if programs == [] then []
    else [if Matches(programs[0], id, user) then Apply(programs[0], d) else programs[0]]
         + PatchMatching(programs[1..], id, user, d)
  }

  /** `.delete().eq("id", id).eq("user_id", user)`: removes the matching rows and no other. */
  function RemoveMatching(programs: seq<ProgramRow>, id: string, user: string): (r: seq<ProgramRow>)
    ensures forall x :: x in r <==> x in programs && !Matches(x, id, user)
  {
    if programs == [] then []
    else (if Matches(programs[0], id, user) then [] else [programs[0]]) + RemoveMatching(programs[1..], id, user)
  }

  /** The rows owned by `user`, in table order. */
  function OwnedBy(programs: seq<ProgramRow>, user: string): (r: seq<ProgramRow>)
    ensures forall x :: x in r <==> x in programs && x.userId == user
  {
    if programs == [] then []
    else (if programs[0].userId == user then [programs[0]] else []) + OwnedBy(programs[1..], user)
  }

  /** The sort key of `.order("deadline", { ascending: true })`. */
  function DeadlineOf(r: ProgramRow): int { r.deadline }

  /** `data.map(transformProgram)`. */
  function ToPrograms(rows: seq<ProgramRow>): (r: seq<Program>)
    ensures |r| == |rows|
    ensures forall i :: 0 <= i < |rows| ==> r[i] == ToProgram(rows[i])
  {
    if rows == [] then [] else [ToProgram(rows[0])] + ToPrograms(rows[1..])
  }

  /** The caller's rows, earliest deadline first; rows with equal deadlines keep table order. */
  function ByDeadline(programs: seq<ProgramRow>, user: string): (rows: seq<ProgramRow>)
    ensures multiset(rows) == multiset(OwnedBy(programs, user))
    ensures forall x :: x in rows <==> x in programs && x.userId == user
    ensures forall i, j :: 0 <= i < j < |rows| ==> rows[i].deadline <= rows[j].deadline
  {
    var owned := OwnedBy(programs, user);
    var rows := SortBy(owned, DeadlineOf);
    assert forall x :: x in rows <==> x in owned by {
      forall x ensures x in rows <==> x in owned {
        assert x in rows <==> x in multiset(rows);
        assert x in owned <==> x in multiset(owned);
      }
    }
    rows
  }

  /** usePrograms: the caller's programs ordered by deadline, earliest first. */
  function ListPrograms(programs: seq<ProgramRow>, user: Option<string>, readFails: bool): (r: Result<seq<Program>>)
    ensures user.None? ==> r == Err(NotAuthenticated)
    ensures r.Ok? <==> user.Some? && !readFails
    ensures r.Ok? ==> forall i, j :: 0 <= i < j < |r.value| ==> r.value[i].deadline <= r.value[j].deadline
    ensures r.Ok? ==> |r.value| == |OwnedBy(programs, user.value)|
  {
    if user.None? then Err(NotAuthenticated)
    else if readFails then Err(BackendError)
    else
      var rows := ByDeadline(programs, user.value);
      assert |rows| == |multiset(rows)| == |multiset(OwnedBy(programs, user.value))|;
      Ok(ToPrograms(rows))
  }

  /** The list holds each of the caller's programs and nothing else. */
  lemma ListedAreTheOwnedRows(programs: seq<ProgramRow>, user: string)
    ensures var r := ListPrograms(programs, Some(user), false);
      && r.Ok?
      && (forall x :: x in programs && x.userId == user ==> ToProgram(x) in r.value)
      && (forall p :: p in r.value ==> exists x :: x in programs && x.userId == user && p == ToProgram(x))
  {
    var rows := ByDeadline(programs, user);
    var out := ToPrograms(rows);
    forall x | x in programs && x.userId == user
      ensures ToProgram(x) in out
    {
      var i :| 0 <= i < |rows| && rows[i] == x;
      assert out[i] == ToProgram(x);
    }
    forall p | p in out
      ensures exists x :: x in programs && x.userId == user && p == ToProgram(x)
    {
      var i :| 0 <= i < |out| && out[i] == p;
      assert rows[i] in rows;
    }
  }

  // ---------------------------------------------------------------- the mutations

  /** useCreateProgram: inserts one row owned by the caller and returns it. */
  method CreateProgram(db: Database, user: Option<string>, newId: string, program: NewProgram, insertFails: bool)
    returns (result: Result<Program>)
    modifies db
    ensures db.requirements == old(db.requirements) && db.documents == old(db.documents)
    ensures db.documentPrograms == old(db.documentPrograms)
    ensures user.None? ==> result == Err(NotAuthenticated)
    ensures result.Ok? <==> user.Some? && !insertFails
    ensures result.Err? ==> db.programs == old(db.programs)
    ensures result.Ok? ==>
      && db.programs == old(db.programs) + [InsertedRow(newId, user.value, program)]
      && result.value == ToProgram(InsertedRow(newId, user.value, program))
  {
    if user.None? {
      return Err(NotAuthenticated);
    }
    if insertFails {
      return Err(BackendError);
    }
    var data := InsertedRow(newId, user.value, program);
    db.programs := db.programs + [data];
    return Ok(ToProgram(data));
  }

  /**
   * useUpdateProgram: writes the defined fields of the caller's row with `id`; `.single()`
   * makes anything but exactly one matching row an error.
   */
  method UpdateProgram(db: Database, user: Option<string>, id: string, updates: ProgramUpdate, writeFails: bool)
    returns (result: Result<Program>)
    modifies db
    ensures db.requirements == old(db.requirements) && db.documents == old(db.documents)
    ensures db.documentPrograms == old(db.documentPrograms)
    ensures user.None? ==> result == Err(NotAuthenticated)
    ensures result.Ok? <==> user.Some? && !writeFails && MatchCount(old(db.programs), id, user.value) == 1
    ensures result.Err? ==> db.programs == old(db.programs)
    ensures result.Ok? ==>
      && db.programs == PatchMatching(old(db.programs), id, user.value, UpdateData(updates))
      && result.value == ToProgram(Apply(old(db.programs)[FindMatch(old(db.programs), id, user.value)], UpdateData(updates)))
      && result.value.id == id
  {
    if user.None? {
      return Err(NotAuthenticated);
    }
    var updateData := UpdateData(updates);
    if writeFails || MatchCount(db.programs, id, user.value) != 1 {
      return Err(BackendError);
    }
    var k := FindMatch(db.programs, id, user.value);
    db.programs := PatchMatching(db.programs, id, user.value, updateData);
    return Ok(ToProgram(db.programs[k]));
  }

  /** useDeleteProgram: deletes the caller's row with `id`; other tables are not touched here. */
  method DeleteProgram(db: Database, user: Option<string>, id: string, deleteFails: bool)
    returns (result: Result<()>)
    modifies db
    ensures db.requirements == old(db.requirements) && db.documents == old(db.documents)
    ensures db.documentPrograms == old(db.documentPrograms)
    ensures user.None? ==> result == Err(NotAuthenticated)
    ensures result.Ok? <==> user.Some? && !deleteFails
    ensures result.Err? ==> db.programs == old(db.programs)
    ensures result.Ok? ==> db.programs == RemoveMatching(old(db.programs), id, user.value)
  {
    if user.None? {
      return Err(NotAuthenticated);
    }
    if deleteFails {
      return Err(BackendError);
    }
    db.programs := RemoveMatching(db.programs, id, user.value);
    return Ok(());
  }
}
