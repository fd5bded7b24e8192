/** The student form: seven required fields and no format check of any kind. */
module StudentForm {
  import opened Common
  import opened Forms

  const Rules: seq<Rule> := [
    Required("firstName", "First name is required"),
    Required("lastName", "Last name is required"),
    Required("rollNumber", "Roll number is required"),
    Required("grade", "Class/Grade is required"),
    Required("section", "Section is required"),
    Required("parentName", "Parent name is required"),
    Required("parentPhone", "Parent phone is required")
  ]

  /** The record a new student starts from. */
  const Blank: Record := map[
    "firstName" := "", "lastName" := "", "rollNumber" := "", "grade" := "",
    "section" := "", "dateOfBirth" := "", "parentName" := "", "parentEmail" := "",
    "parentPhone" := "", "address" := "", "admissionDate" := "", "photoURL" := ""
  ]

  const Spec: FormSpec := FormSpec("student", Rules, Blank)

  const RequiredFields: set<string> :=
    {"firstName", "lastName", "rollNumber", "grade", "section", "parentName", "parentPhone"}

  lemma RulesCoverRequiredFields()
    ensures FieldsOf(Rules) == RequiredFields && Distinct(Rules)
  {
    assert Rules[0].field == "firstName" && Rules[1].field == "lastName" && Rules[2].field == "rollNumber";
    assert Rules[3].field == "grade" && Rules[4].field == "section" && Rules[5].field == "parentName";
    assert Rules[6].field == "parentPhone";
  }

  /** What `validateForm` records for a student whose required fields are all
      defined: each field is judged on its own value only, by blankness alone, and no
      other field ever gets an error. */
  lemma FieldErrors(form: Record)
    requires RequiredFields <= form.Keys
    ensures Validate(Rules, form).Some?
    ensures Validate(Rules, form).value.Keys <= RequiredFields
    ensures Get(Validate(Rules, form).value, "firstName") == Expected(form, "firstName", "First name is required")
    ensures Get(Validate(Rules, form).value, "lastName") == Expected(form, "lastName", "Last name is required")
    ensures Get(Validate(Rules, form).value, "rollNumber") == Expected(form, "rollNumber", "Roll number is required")
    ensures Get(Validate(Rules, form).value, "grade") == Expected(form, "grade", "Class/Grade is required")
    ensures Get(Validate(Rules, form).value, "section") == Expected(form, "section", "Section is required")
    ensures Get(Validate(Rules, form).value, "parentName") == Expected(form, "parentName", "Parent name is required")
    ensures Get(Validate(Rules, form).value, "parentPhone") == Expected(form, "parentPhone", "Parent phone is required")
  {
    RulesCoverRequiredFields();
    assert forall i :: 0 <= i < |Rules| ==> Rules[i].field in form;
    ErrorsPerRule(Rules, form);
    RuleErrorMeaning(Rules[0], form["firstName"]);
    RuleErrorMeaning(Rules[1], form["lastName"]);
    RuleErrorMeaning(Rules[2], form["rollNumber"]);
    RuleErrorMeaning(Rules[3], form["grade"]);
    RuleErrorMeaning(Rules[4], form["section"]);
    RuleErrorMeaning(Rules[5], form["parentName"]);
    RuleErrorMeaning(Rules[6], form["parentPhone"]);
  }

  /** `validateForm` returns true exactly when the seven required fields are defined
      and non-blank, whatever the other fields hold. */
  lemma ValidIff(form: Record)
    ensures Validate(Rules, form) == Some(map[]) <==>
              && Filled(form, "firstName") && Filled(form, "lastName") && Filled(form, "rollNumber")
              && Filled(form, "grade") && Filled(form, "section") && Filled(form, "parentName")
              && Filled(form, "parentPhone")
  {
    ValidIffAllPass(Rules, form);
    assert (forall i :: 0 <= i < |Rules| ==> Passes(Rules[i], form)) <==>
             && Passes(Rules[0], form) && Passes(Rules[1], form) && Passes(Rules[2], form)
             && Passes(Rules[3], form) && Passes(Rules[4], form) && Passes(Rules[5], form)
             && Passes(Rules[6], form);
  }

  /** dateOfBirth, parentEmail (which gets no format check), address, admissionDate,
      photoURL and any other field without a rule never change the outcome of
      validation. */
  lemma OptionalFieldsIgnored(form: Record, field: string, value: string)
    requires field !in RequiredFields
    ensures Validate(Rules, form[field := value]) == Validate(Rules, form)
  {
    RulesCoverRequiredFields();
    UnruledFieldIrrelevant(Rules, form, field, value);
  }

  /** A submit reaches `onSubmit` only with a valid student. */
  lemma SubmitSendsOnlyValid(st: FormState, upload: Upload, save: Outcome)
    requires Submit(Spec, st, upload, save).result.Sent?
    ensures Filled(st.data, "firstName") && Filled(st.data, "lastName") && Filled(st.data, "rollNumber")
    ensures Filled(st.data, "grade") && Filled(st.data, "section") && Filled(st.data, "parentName")
    ensures Filled(st.data, "parentPhone")
  {
    ValidIff(st.data);
  }
}
