/** The onboarding page: turns the stepper's answers into the user's first program. */
module OnboardingPage {
  import opened Outcomes
  import opened Types
  import opened Store
  import opened OnboardingStepper
  import ProgramHooks
  import RequirementHooks

  /** `handleComplete`'s create payload. The field of study is not stored. */
  function CompletePayload(data: OnboardingData): (p: NewProgram)
    ensures p.status == Researching && p.requirementsCompleted == 0 && p.requirementsTotal == 0
    ensures p.university == data.university && p.department == data.department && p.deadline == data.deadline
    ensures p.fee.None?
  {
    NewProgram(data.university, data.department, data.deadline, Researching, 0, 0, None)
  }

  /** Answers that differ only in the field of study create the same program. */
  lemma FieldOfStudyIsDropped(a: OnboardingData, b: OnboardingData)
    requires a.university == b.university && a.department == b.department && a.deadline == b.deadline
    ensures CompletePayload(a) == CompletePayload(b)
  {
  }

  /**
   * `handleComplete`: creates the first program from the stepper's answers and navigates to
   * the board only from the create's success callback; a failed create navigates nowhere and
   * stores nothing.
   */
  method HandleComplete(db: Database, user: Option<string>, newId: string, data: OnboardingData, insertFails: bool)
    returns (navigate: bool)
    modifies db
    ensures navigate <==> user.Some? && !insertFails
    ensures navigate ==> db.programs == old(db.programs) + [ProgramHooks.InsertedRow(newId, user.value, CompletePayload(data))]
    ensures !navigate ==> db.programs == old(db.programs)
    ensures db.requirements == old(db.requirements) && db.documents == old(db.documents)
    ensures db.documentPrograms == old(db.documentPrograms)
  {
    var result := ProgramHooks.CreateProgram(db, user, newId, CompletePayload(data), insertFails);
    navigate := result.Ok?;
  }

  /**
   * The program onboarding creates starts with counters that agree with its (empty) set of
   * requirements.
   */
  lemma OnboardedProgramIsConsistent(id: string, user: string, data: OnboardingData, reqs: seq<RequirementRow>)
    requires forall r :: r in reqs ==> r.programId != id
    ensures RequirementHooks.CountersMatch(ProgramHooks.InsertedRow(id, user, CompletePayload(data)), reqs)
  {
    RequirementHooks.RowsOfAbsentProgram(reqs, id);
  }
}
