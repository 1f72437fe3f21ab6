/**
 * The programs board: one column per application status, the payload of the "Add Program"
 * form, the update a status change forwards, and the header's count.
 */
module ProgramBoard {
  import opened Outcomes
  import opened Types
  import opened Text
  import opened Store
  import ProgramHooks
  import RequirementHooks
  import Seqs

  /** The board's columns, in display order, with their headings. */
  const StatusColumns: seq<(ProgramStatus, string)> :=
    [(Researching, "Researching"), (Applying, "Applying"), (Submitted, "Submitted"), (Decision, "Decision")]

  datatype Column = Column(status: ProgramStatus, heading: string, programs: seq<Program>)

  /** `programs.filter((p) => p.status === status)`. */
  function WithStatus(programs: seq<Program>, status: ProgramStatus): (r: seq<Program>)
    ensures forall p :: p in r <==> p in programs && p.status == status
    ensures |r| <= |programs|
  {
    if programs == [] then []
    else (if programs[0].status == status then [programs[0]] else []) + WithStatus(programs[1..], status)
  }

  /**
   * The filter works item by item, so it keeps input order: filtering two stretches of the
   * list in a row gives the first stretch's programs followed by the second's.
   */
  lemma {:induction false} WithStatusAppend(a: seq<Program>, b: seq<Program>, status: ProgramStatus)
    ensures WithStatus(a + b, status) == WithStatus(a, status) + WithStatus(b, status)
  {
    if a == [] {
      assert a + b == b;
    } else {
      assert (a + b)[0] == a[0];
      assert (a + b)[1..] == a[1..] + b;
      WithStatusAppend(a[1..], b, status);
    }
  }

  /** A deadline every program of a list reaches is reached by every program of its columns. */
  lemma {:induction false} WithStatusKeepsBound(programs: seq<Program>, status: ProgramStatus, bound: int)
    requires forall k :: 0 <= k < |programs| ==> bound <= programs[k].deadline
    ensures forall k :: 0 <= k < |WithStatus(programs, status)| ==> bound <= WithStatus(programs, status)[k].deadline
  {
    if programs != [] {
      WithStatusKeepsBound(programs[1..], status, bound);
    }
  }

  /** The sort key of the programs hook's list: earliest deadline first. */
  function Deadline(p: Program): int { p.deadline }

  /** A list ordered by deadline gives columns ordered by deadline. */
  lemma {:induction false} WithStatusKeepsDeadlineOrder(programs: seq<Program>, status: ProgramStatus)
    requires Seqs.SortedBy(programs, Deadline)
    ensures Seqs.SortedBy(WithStatus(programs, status), Deadline)
  {
    if programs != [] {
      var tail := programs[1..];
      assert Seqs.SortedBy(tail, Deadline);
      assert forall k :: 0 <= k < |tail| ==> programs[0].deadline <= tail[k].deadline;
      WithStatusKeepsDeadlineOrder(tail, status);
      WithStatusKeepsBound(tail, status, programs[0].deadline);
      if programs[0].status == status {
        Seqs.ConsSorted(programs[0], WithStatus(tail, status), Deadline);
      }
    }
  }

  /** `programsByStatus`: each column with the programs of its status, in input order. */
  function ProgramsByStatus(programs: seq<Program>): (columns: seq<Column>)
    ensures |columns| == 4
    ensures forall i :: 0 <= i < 4 ==>
      && columns[i].status == StatusColumns[i].0 && columns[i].heading == StatusColumns[i].1
      && (forall p :: p in columns[i].programs <==> p in programs && p.status == StatusColumns[i].0)
      && columns[i].programs == WithStatus(programs, StatusColumns[i].0)
  {
    seq(4, i requires 0 <= i < 4 => Column(StatusColumns[i].0, StatusColumns[i].1, WithStatus(programs, StatusColumns[i].0)))
  }

  /** Every status has exactly one column. */
  lemma EveryStatusHasOneColumn(s: ProgramStatus)
    ensures exists i :: 0 <= i < 4 && StatusColumns[i].0 == s
    ensures forall i, j :: 0 <= i < j < 4 ==> StatusColumns[i].0 != StatusColumns[j].0
  {
    match s
    case Researching => assert StatusColumns[0].0 == s;
    case Applying => assert StatusColumns[1].0 == s;
    case Submitted => assert StatusColumns[2].0 == s;
    case Decision => assert StatusColumns[3].0 == s;
  }

  /** The filter keeps every copy of a program whose status matches, and no copy of any other. */
  lemma {:induction false} WithStatusKeepsMultiplicity(programs: seq<Program>, status: ProgramStatus, p: Program)
    ensures multiset(WithStatus(programs, status))[p] == if p.status == status then multiset(programs)[p] else 0
  {
    if programs != [] {
      var head, tail := programs[0], programs[1..];
      WithStatusKeepsMultiplicity(tail, status, p);
      assert programs == [head] + tail;
      var kept := if head.status == status then [head] else [];
      assert WithStatus(programs, status) == kept + WithStatus(tail, status);
      assert multiset(WithStatus(programs, status)) == multiset(kept) + multiset(WithStatus(tail, status));
    }
  }

  /** The four status filters split the list: together they hold each program exactly once. */
  lemma FiltersPartition(programs: seq<Program>)
    ensures multiset(WithStatus(programs, Researching)) + multiset(WithStatus(programs, Applying))
          + multiset(WithStatus(programs, Submitted)) + multiset(WithStatus(programs, Decision))
         == multiset(programs)
  {
    var all := multiset(WithStatus(programs, Researching)) + multiset(WithStatus(programs, Applying))
             + multiset(WithStatus(programs, Submitted)) + multiset(WithStatus(programs, Decision));
    forall p ensures all[p] == multiset(programs)[p] {
      WithStatusKeepsMultiplicity(programs, Researching, p);
      WithStatusKeepsMultiplicity(programs, Applying, p);
      WithStatusKeepsMultiplicity(programs, Submitted, p);
      WithStatusKeepsMultiplicity(programs, Decision, p);
    }
  }

  /** The columns partition the board: their programs are the input's, and the sizes add up to it. */
  lemma ColumnsPartition(programs: seq<Program>)
    ensures var c := ProgramsByStatus(programs);
      && multiset(c[0].programs) + multiset(c[1].programs) + multiset(c[2].programs) + multiset(c[3].programs)
         == multiset(programs)
      && |c[0].programs| + |c[1].programs| + |c[2].programs| + |c[3].programs| == |programs|
  {
    var c := ProgramsByStatus(programs);
    FiltersPartition(programs);
    assert c[0].programs == WithStatus(programs, Researching);
    assert c[1].programs == WithStatus(programs, Applying);
    assert c[2].programs == WithStatus(programs, Submitted);
    assert c[3].programs == WithStatus(programs, Decision);
    assert |multiset(programs)| == |programs|;
  }

  /** `handleCreateProgram`: what the form hands to the create hook; `deadline` is the parsed date. */
  function CreatePayload(university: string, department: string, deadline: Instant): (p: NewProgram)
    ensures p.status == Researching && p.requirementsCompleted == 0 && p.requirementsTotal == 7 && p.fee.None?
    ensures p.university == university && p.department == department && p.deadline == deadline
  {
    NewProgram(university, department, deadline, Researching, 0, 7, None)
  }

  /**
   * A program added from the board claims seven requirements while it has none, so its
   * counters disagree with its checklist until a requirement update or delete recounts them.
   */
  lemma BoardProgramStartsUncounted(id: string, user: string, university: string, department: string,
                                    deadline: Instant, reqs: seq<RequirementRow>)
    requires forall r :: r in reqs ==> r.programId != id
    ensures !RequirementHooks.CountersMatch(ProgramHooks.InsertedRow(id, user, CreatePayload(university, department, deadline)), reqs)
  {
    RequirementHooks.RowsOfAbsentProgram(reqs, id);
  }

  /** `handleStatusChange`: forwards the program id and an update holding only the status. */
  function StatusChange(programId: string, status: ProgramStatus): (r: (string, ProgramUpdate))
    ensures r.0 == programId
    ensures r.1 == NoProgramChanges.(status := Some(status))
  {
    (programId, ProgramUpdate(None, None, None, None, Some(status), None, None, None))
  }

  /** The header line under the title, e.g. "1 program total" or "3 programs total". */
  function Header(total: nat): string
  {
    Decimal(total) + " " + (if total == 1 then "program" else "programs") + " total"
  }

  lemma HeaderWording(total: nat)
    ensures total == 1 ==> Header(total) == "1 program total"
    ensures total != 1 ==> Header(total) == Decimal(total) + " programs total"
    ensures Header(total)[..|Decimal(total)|] == Decimal(total)
  {
    assert Decimal(1) == "1";
  }
}
