/**
 * The two-step onboarding: step 1 asks for a field of study, step 2 for a first program.
 * Finishing step 2 hands the answers to the page and navigates to the programs board.
 */
module OnboardingStepper {
  import opened Outcomes
  import opened Types

  /** What the stepper hands to `onComplete`; `deadline` is `new Date(deadline)`, parsed by the caller. */
  datatype OnboardingData = OnboardingData(fieldOfStudy: string, university: string, department: string, deadline: Instant)

  /** The field reported: the typed-in one when "Other" was chosen. */
  function FinalField(fieldOfStudy: string, customField: string): (f: string)
    ensures fieldOfStudy == "Other" ==> f == customField
    ensures fieldOfStudy != "Other" ==> f == fieldOfStudy
  {
    if fieldOfStudy == "Other" then customField else fieldOfStudy
  }

  class Stepper {
    var step: nat
    var fieldOfStudy: string
    var customField: string
    var university: string
    var department: string
    var deadline: string

    ghost predicate Valid()
      reads this
    {
      step == 1 || step == 2
    }

    constructor ()
      ensures Valid() && step == 1
      ensures fieldOfStudy == "" && customField == "" && university == "" && department == "" && deadline == ""
    {
      step, fieldOfStudy, customField, university, department, deadline := 1, "", "", "", "", "";
    }

    /** The inputs' change handlers. */
    method SetFieldOfStudy(value: string)
      modifies this
      ensures fieldOfStudy == value
      ensures step == old(step) && customField == old(customField) && university == old(university)
      ensures department == old(department) && deadline == old(deadline)
    {
      fieldOfStudy := value;
    }

    method SetCustomField(value: string)
      modifies this
      ensures customField == value
      ensures step == old(step) && fieldOfStudy == old(fieldOfStudy) && university == old(university)
      ensures department == old(department) && deadline == old(deadline)
    {
      customField := value;
    }

    method SetProgramFields(university: string, department: string, deadline: string)
      modifies this
      ensures this.university == university && this.department == department && this.deadline == deadline
      ensures step == old(step) && fieldOfStudy == old(fieldOfStudy) && customField == old(customField)
    {
      this.university, this.department, this.deadline := university, department, deadline;
    }

    /** Continue is disabled without a field, or with "Other" and nothing typed in. */
    predicate ContinueDisabled()
      reads this
    {
      fieldOfStudy == "" || (fieldOfStudy == "Other" && customField == "")
    }

    /** Complete Setup is disabled until the three program fields are filled in. */
    predicate CompleteDisabled()
      reads this
    {
      university == "" || department == "" || deadline == ""
    }

    /**
     * `handleFieldSubmit`: moves to step 2 whenever a field is chosen. It does not look at
     * the custom field, which only the Continue button's disabled state checks.
     */
    method HandleFieldSubmit()
      requires Valid()
      modifies this
      ensures Valid()
      ensures step == if old(fieldOfStudy) != "" then 2 else old(step)
      ensures fieldOfStudy == old(fieldOfStudy) && customField == old(customField)
      ensures university == old(university) && department == old(department) && deadline == old(deadline)
    {
      if fieldOfStudy != "" {
        step := 2;
      }
    }

    /** Back returns to step 1 with every answer kept. */
    method Back()
      modifies this
      ensures Valid() && step == 1
      ensures fieldOfStudy == old(fieldOfStudy) && customField == old(customField)
      ensures university == old(university) && department == old(department) && deadline == old(deadline)
    {
      step := 1;
    }

    /**
     * `handleProgramSubmit`: with all three program fields filled in, reports the answers and
     * navigates to the board at once, without waiting for the page's create to finish;
     * otherwise does nothing.
     */
    method HandleProgramSubmit(parsedDeadline: Instant) returns (completion: Option<OnboardingData>, navigate: bool)
      ensures completion.Some? <==> !CompleteDisabled()
      ensures navigate <==> completion.Some?
      ensures completion.Some? ==>
        completion.value == OnboardingData(FinalField(fieldOfStudy, customField), university, department, parsedDeadline)
    {
      if university != "" && department != "" && deadline != "" {
        completion := Some(OnboardingData(FinalField(fieldOfStudy, customField), university, department, parsedDeadline));
        navigate := true;
      } else {
        completion, navigate := None, false;
      }
    }
  }
}
