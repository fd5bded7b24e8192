/** The teacher form: six required fields, the email field also shape-checked. */
module TeacherForm {
  import opened Common
  import opened Text
  import opened Forms
  import EmailShape

  const Rules: seq<Rule> := [
    Required("firstName", "First name is required"),
    Required("lastName", "Last name is required"),
    RequiredEmail("email", "Email is required", "Invalid email format"),
    Required("phone", "Phone is required"),
    Required("subject", "Subject is required"),
    Required("department", "Department is required")
  ]

  /** The record a new teacher starts from. */
  const Blank: Record := map[
    "firstName" := "", "lastName" := "", "email" := "", "phone" := "",
    "subject" := "", "department" := "", "qualifications" := "", "experience" := "",
    "employeeId" := "", "joinDate" := "", "bio" := "", "photoURL" := ""
  ]

  const Spec: FormSpec := FormSpec("teacher", Rules, Blank)

  const RequiredFields: set<string> := {"firstName", "lastName", "email", "phone", "subject", "department"}

  /** The email field's message: "required" when blank, the format message when the
      shape test finds no match, none otherwise. */
  ghost function ExpectedEmail(email: string): Option<string> {
    if IsBlank(email) then Some("Email is required")
    else if EmailShape.Matches(email) then None
    else Some("Invalid email format")
  }

  lemma RulesCoverRequiredFields()
    ensures FieldsOf(Rules) == RequiredFields && Distinct(Rules)
  {
    assert Rules[0].field == "firstName" && Rules[1].field == "lastName" && Rules[2].field == "email";
    assert Rules[3].field == "phone" && Rules[4].field == "subject" && Rules[5].field == "department";
  }

  /** What `validateForm` records for a teacher whose required fields are all
      defined: each field is judged on its own value only, a blank email gets only
      the "required" message, and no other field ever gets an error. */
  lemma FieldErrors(form: Record)
    requires RequiredFields <= form.Keys
    ensures Validate(Rules, form).Some?
    ensures Validate(Rules, form).value.Keys <= RequiredFields
    ensures Get(Validate(Rules, form).value, "firstName") == Expected(form, "firstName", "First name is required")
    ensures Get(Validate(Rules, form).value, "lastName") == Expected(form, "lastName", "Last name is required")
    ensures Get(Validate(Rules, form).value, "email") == ExpectedEmail(form["email"])
    ensures Get(Validate(Rules, form).value, "phone") == Expected(form, "phone", "Phone is required")
    ensures Get(Validate(Rules, form).value, "subject") == Expected(form, "subject", "Subject is required")
    ensures Get(Validate(Rules, form).value, "department") == Expected(form, "department", "Department is required")
  {
    RulesCoverRequiredFields();
    assert forall i :: 0 <= i < |Rules| ==> Rules[i].field in form;
    ErrorsPerRule(Rules, form);
    RuleErrorMeaning(Rules[0], form["firstName"]);
    RuleErrorMeaning(Rules[1], form["lastName"]);
    RuleErrorMeaning(Rules[2], form["email"]);
    RuleErrorMeaning(Rules[3], form["phone"]);
    RuleErrorMeaning(Rules[4], form["subject"]);
    RuleErrorMeaning(Rules[5], form["department"]);
  }

  /** `validateForm` returns true exactly when the six required fields are defined and
      non-blank and the email has the expected shape. */
  lemma ValidIff(form: Record)
    ensures Validate(Rules, form) == Some(map[]) <==>
              && Filled(form, "firstName") && Filled(form, "lastName") && Filled(form, "email")
              && Filled(form, "phone") && Filled(form, "subject") && Filled(form, "department")
              && EmailShape.Matches(form["email"])
  {
    ValidIffAllPass(Rules, form);
    assert (forall i :: 0 <= i < |Rules| ==> Passes(Rules[i], form)) <==>
             && Passes(Rules[0], form) && Passes(Rules[1], form) && Passes(Rules[2], form)
             && Passes(Rules[3], form) && Passes(Rules[4], form) && Passes(Rules[5], form);
  }

  /** qualifications, experience, employeeId, joinDate, bio, photoURL and any other
      field without a rule never change the outcome of validation. */
  lemma OptionalFieldsIgnored(form: Record, field: string, value: string)
    requires field !in RequiredFields
    ensures Validate(Rules, form[field := value]) == Validate(Rules, form)
  {
    RulesCoverRequiredFields();
    UnruledFieldIrrelevant(Rules, form, field, value);
  }

  /** A submit reaches `onSubmit` only with a valid teacher. */
  lemma SubmitSendsOnlyValid(st: FormState, upload: Upload, save: Outcome)
    requires Submit(Spec, st, upload, save).result.Sent?
    ensures Filled(st.data, "firstName") && Filled(st.data, "lastName") && Filled(st.data, "email")
    ensures Filled(st.data, "phone") && Filled(st.data, "subject") && Filled(st.data, "department")
    ensures EmailShape.Matches(st.data["email"])
  {
    ValidIff(st.data);
  }

  /** An error map confined to the required fields that flags each of them holds
      exactly the required fields. */
  lemma AllRequiredFlagged(errs: Errors)
    requires errs.Keys <= RequiredFields
    requires Get(errs, "firstName").Some? && Get(errs, "lastName").Some? && Get(errs, "email").Some?
    requires Get(errs, "phone").Some? && Get(errs, "subject").Some? && Get(errs, "department").Some?
    ensures errs.Keys == RequiredFields
  {
  }

  /** The empty submission: when every required field is blank (as in the untouched
      new-teacher form) each of the six gets its "required" message, so the form is
      invalid and `onSubmit` is not called. */
  lemma BlankFormRejected(form: Record)
    requires RequiredFields <= form.Keys
    requires IsBlank(form["firstName"]) && IsBlank(form["lastName"]) && IsBlank(form["email"])
    requires IsBlank(form["phone"]) && IsBlank(form["subject"]) && IsBlank(form["department"])
    ensures Validate(Rules, form).Some?
    ensures Validate(Rules, form).value.Keys == RequiredFields
  {
    FieldErrors(form);
    AllRequiredFlagged(Validate(Rules, form).value);
  }
}
