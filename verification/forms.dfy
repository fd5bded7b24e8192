/** The generic entity form behind the teacher and student forms: field-level
    validation, editing a field, the photo controls, and the submit gate. The two
    forms differ only in their rules, their blank record and the noun in the alert. */
module Forms {
  import opened Common
  import opened Text
  import EmailShape

  /** The form's `errors` object: field name to message. A field whose error was
      cleared by an edit keeps its key with the empty message. */
  type Errors = map<string, string>

  /** `errors[name]` is truthy: the field shows an error. */
  predicate HasError(errors: Errors, field: string) {
    field in errors && errors[field] != ""
  }

  /** One line of `validateForm`: a required field, optionally with the email-shape
      test on its untrimmed value when it is not blank. */
  datatype Rule =
    | Required(field: string, message: string)
    | RequiredEmail(field: string, message: string, formatMessage: string)

  /** The fields and texts that make one form. */
  datatype FormSpec = FormSpec(noun: string, rules: seq<Rule>, blank: Record)

  /** The fields that carry a rule. */
  function FieldsOf(rules: seq<Rule>): set<string> {
    set i | 0 <= i < |rules| :: rules[i].field
  }

  /** No field has two rules. */
  ghost predicate Distinct(rules: seq<Rule>) {
    forall i, j :: 0 <= i < j < |rules| ==> rules[i].field != rules[j].field
  }

  /** The message one rule records for a present value, if any. */
  function RuleError(rule: Rule, value: string): Option<string> {
    if Trim(value) == "" then Some(rule.message)
    else if rule.RequiredEmail? && !EmailShape.HasEmailShape(value) then Some(rule.formatMessage)
    else None
  }

  /** A blank value gets the rule's "required" message and nothing else; a non-blank
      value passes a plain rule, and passes an email rule exactly when the regular
      expression finds a match, getting the format message otherwise. */
  lemma RuleErrorMeaning(rule: Rule, value: string)
    ensures IsBlank(value) ==> RuleError(rule, value) == Some(rule.message)
    ensures !IsBlank(value) && rule.Required? ==> RuleError(rule, value) == None
    ensures !IsBlank(value) && rule.RequiredEmail? ==>
              (RuleError(rule, value).None? <==> EmailShape.Matches(value))
              && (RuleError(rule, value).Some? ==> RuleError(rule, value).value == rule.formatMessage)
  {
    TrimMeaning(value);
    EmailShape.HasEmailShapeMeaning(value);
  }

  /** `validateForm`'s error map, built rule by rule. `None` when a rule's field is
      `undefined`: calling `trim` on it throws before any error is recorded. */
  function Validate(rules: seq<Rule>, form: Record): (r: Option<Errors>)
    ensures r.Some? <==> forall i :: 0 <= i < |rules| ==> rules[i].field in form
    ensures r.Some? ==> r.value.Keys <= FieldsOf(rules)
    decreases |rules|
  {
    if |rules| == 0 then Some(map[])
    else
      var init := rules[..|rules| - 1];
      var last := rules[|rules| - 1];
      assert FieldsOf(rules) == FieldsOf(init) + {last.field};
      match Validate(init, form)
      case None => None
      case Some(errs) =>
        if last.field !in form then None
        else
          match RuleError(last, form[last.field])
          case None => Some(errs)
          case Some(m) => Some(errs[last.field := m])
  }

  /** One more rule adds at most its own field's message to the errors so far. */
  lemma ValidateLast(rules: seq<Rule>, form: Record)
    requires |rules| > 0 && Validate(rules, form).Some?
    ensures Validate(rules[..|rules| - 1], form).Some? && rules[|rules| - 1].field in form
    ensures var last := rules[|rules| - 1];
            var errs := Validate(rules[..|rules| - 1], form).value;
            Validate(rules, form).value ==
              match RuleError(last, form[last.field])
              case None => errs
              case Some(m) => errs[last.field := m]
  {
  }

  /** When no field has two rules, each rule's field carries exactly the message of
      its own rule: every field is checked independently of the others. */
  lemma {:induction false} ErrorsPerRule(rules: seq<Rule>, form: Record)
    requires Validate(rules, form).Some? && Distinct(rules)
    ensures forall i :: 0 <= i < |rules| ==>
              Get(Validate(rules, form).value, rules[i].field) == RuleError(rules[i], form[rules[i].field])
    decreases |rules|
  {
    if |rules| > 0 {
      var n := |rules| - 1;
      var init, last := rules[..n], rules[n];
      ValidateLast(rules, form);
      assert forall i :: 0 <= i < n ==> init[i] == rules[i];
      ErrorsPerRule(init, form);
      var errs := Validate(init, form).value;
      var all := Validate(rules, form).value;
      forall i | 0 <= i < |rules|
        ensures Get(all, rules[i].field) == RuleError(rules[i], form[rules[i].field])
      {
        if i < n {
          assert rules[i].field != last.field;
          assert Get(all, rules[i].field) == Get(errs, init[i].field);
        }
      }
    }
  }

  /** `validateForm` returns true exactly when every rule's field is present and
      passes its rule, i.e. when the error map it computes is empty. */
  lemma {:induction false} ValidIffEveryRulePasses(rules: seq<Rule>, form: Record)
    ensures Validate(rules, form) == Some(map[]) <==>
              forall i :: 0 <= i < |rules| ==> rules[i].field in form && RuleError(rules[i], form[rules[i].field]).None?
    decreases |rules|
  {
    if |rules| > 0 {
      var n := |rules| - 1;
      var init, last := rules[..n], rules[n];
      assert forall i :: 0 <= i < n ==> init[i] == rules[i];
      ValidIffEveryRulePasses(init, form);
      var v := Validate(init, form);
      if v.Some? && last.field in form {
        var m := RuleError(last, form[last.field]);
        if m.Some? {
          assert Validate(rules, form) == Some(v.value[last.field := m.value]);
          assert last.field in v.value[last.field := m.value];
          assert Validate(rules, form) != Some(map[]);
        } else {
          assert Validate(rules, form) == v;
          assert (forall i :: 0 <= i < |rules| ==> rules[i].field in form && RuleError(rules[i], form[rules[i].field]).None?)
             <==> (forall i :: 0 <= i < n ==> init[i].field in form && RuleError(init[i], form[init[i].field]).None?);
        }
      } else {
        assert Validate(rules, form).None?;
      }
    }
  }

  /** A rule's field is defined, not blank, and, for an email rule, has the email
      shape. */
  ghost predicate Passes(rule: Rule, form: Record) {
    && rule.field in form
    && !IsBlank(form[rule.field])
    && (rule.RequiredEmail? ==> EmailShape.Matches(form[rule.field]))
  }

  /** The validity test in the rules' own terms, without reference to the error map. */
  lemma ValidIffAllPass(rules: seq<Rule>, form: Record)
    ensures Validate(rules, form) == Some(map[]) <==> forall i :: 0 <= i < |rules| ==> Passes(rules[i], form)
  {
    ValidIffEveryRulePasses(rules, form);
    forall i | 0 <= i < |rules| && rules[i].field in form
      ensures RuleError(rules[i], form[rules[i].field]).None? <==> Passes(rules[i], form)
    {
      RuleErrorMeaning(rules[i], form[rules[i].field]);
    }
  }

  /** A field without a rule never influences validation, whatever its content. */
  lemma {:induction false} UnruledFieldIrrelevant(rules: seq<Rule>, form: Record, field: string, value: string)
    requires field !in FieldsOf(rules)
    ensures Validate(rules, form[field := value]) == Validate(rules, form)
    decreases |rules|
  {
    if |rules| > 0 {
      var init := rules[..|rules| - 1];
      assert FieldsOf(rules) == FieldsOf(init) + {rules[|rules| - 1].field};
      UnruledFieldIrrelevant(init, form, field, value);
    }
  }

  /** The message a plain required field gets, as the form promises it: its own
      message when blank, none otherwise. */
  ghost function Expected(form: Record, field: string, message: string): Option<string>
    requires field in form
  {
    if IsBlank(form[field]) then Some(message) else None
  }

  /** A required field is defined and not blank. */
  ghost predicate Filled(form: Record, field: string) {
    field in form && !IsBlank(form[field])
  }

  /** The state of a mounted form. `photoFile` names the chosen file, if any. */
  datatype FormState = FormState(data: Record, photoFile: Option<string>, preview: string, errors: Errors, loading: bool)

  /** Mounting the form: the record being edited, or the blank record when adding. */
  function Open(spec: FormSpec, existing: Option<Record>): (st: FormState)
    ensures existing.Some? ==> st.data == existing.value
    ensures existing.None? ==> st.data == spec.blank
    ensures st.preview != "" <==> existing.Some? && "photoURL" in existing.value && existing.value["photoURL"] != ""
    ensures st.preview != "" ==> st.preview == existing.value["photoURL"]
    ensures st.photoFile.None? && st.errors == map[] && !st.loading
  {
    var preview := if existing.Some? && "photoURL" in existing.value then existing.value["photoURL"] else "";
    FormState(if existing.Some? then existing.value else spec.blank, None, preview, map[], false)
  }

  /** `handleChange`: writes one field and clears that field's error if it shows one. */
  function Change(st: FormState, name: string, value: string): (r: FormState)
    ensures r.data.Keys == st.data.Keys + {name} && r.data[name] == value
    ensures forall f :: f in st.data && f != name ==> r.data[f] == st.data[f]
    ensures !HasError(r.errors, name)
    ensures r.errors.Keys == st.errors.Keys
    ensures forall f :: f in st.errors && f != name ==> r.errors[f] == st.errors[f]
    ensures !HasError(st.errors, name) ==> r.errors == st.errors
    ensures r.photoFile == st.photoFile && r.preview == st.preview && r.loading == st.loading
  {
    var errors := if HasError(st.errors, name) then st.errors[name := ""] else st.errors;
    st.(data := st.data[name := value], errors := errors)
  }

  /** `handlePhotoSelect`: remembers the chosen file; no selection changes nothing.
      The preview is filled in later by a file reader, which is not modelled. */
  function SelectPhoto(st: FormState, file: Option<string>): (r: FormState)
    ensures file.Some? ==> r.photoFile == file
    ensures file.None? ==> r == st
    ensures r.data == st.data && r.errors == st.errors
  {
    if file.Some? then st.(photoFile := file) else st
  }

  /** `removePhoto`: forgets the chosen file and the preview, and nothing else; the
      record's own `photoURL` stays. */
  function RemovePhoto(st: FormState): (r: FormState)
    ensures r.photoFile.None? && r.preview == ""
    ensures r.data == st.data && r.errors == st.errors && r.loading == st.loading
  {
    st.(photoFile := None, preview := "")
  }

  /** The result of a photo upload, an input to the submit step. */
  datatype Upload = Uploaded(url: string) | UploadFailed

  /** How a submit attempt ended. */
  datatype SubmitResult =
    | Crashed                        // a required field was undefined: validation threw
    | Invalid                        // errors are shown; nothing was sent
    | UploadError                    // the photo upload failed; nothing was sent
    | Sent(record: Record, saved: bool) // `onSubmit` received `record`; `saved` is its outcome

  datatype SubmitStep = SubmitStep(form: FormState, result: SubmitResult, alert: Option<string>)

  function AlertText(noun: string): string {
    "Failed to save " + noun + ". Please try again."
  }

  /** The record `handleSubmit` hands to `onSubmit`: the form data with `photoURL`
      replaced by the upload's URL when a file was chosen. */
  function Outgoing(st: FormState, upload: Upload): Record
    requires st.photoFile.Some? ==> upload.Uploaded?
  {
    if st.photoFile.Some? then st.data["photoURL" := upload.url] else st.data
  }

  /** `handleSubmit`. `upload` is consulted only when a file was chosen, and `save` is
      the outcome of the `onSubmit` call it awaits. */
  function Submit(spec: FormSpec, st: FormState, upload: Upload, save: Outcome): (s: SubmitStep)
    ensures s.result.Crashed? <==> Validate(spec.rules, st.data).None?
    ensures s.result.Sent? <==> Validate(spec.rules, st.data) == Some(map[]) && (st.photoFile.None? || upload.Uploaded?)
    ensures s.result.Sent? ==>
              s.result.record == (if st.photoFile.Some? then st.data["photoURL" := upload.url] else st.data)
    ensures s.result.Sent? ==> (s.result.saved <==> save.Succeeded?)
    ensures s.result.Crashed? ==> s.form == st
    ensures Validate(spec.rules, st.data).Some? ==> s.form.errors == Validate(spec.rules, st.data).value
    ensures s.result.Invalid? ==> s.form.loading == st.loading
    ensures s.result.UploadError? || s.result.Sent? ==> !s.form.loading
    ensures s.alert.Some? <==> s.result.UploadError? || (s.result.Sent? && !s.result.saved)
    ensures s.alert.Some? ==> s.alert.value == AlertText(spec.noun)
    ensures s.form.data == st.data && s.form.photoFile == st.photoFile && s.form.preview == st.preview
  {
    match Validate(spec.rules, st.data)
    case None => SubmitStep(st, Crashed, None)
    case Some(errs) =>
      var checked := st.(errors := errs);
      if |errs| != 0 then SubmitStep(checked, Invalid, None)
      else if st.photoFile.Some? && upload.UploadFailed? then
        SubmitStep(checked.(loading := false), UploadError, Some(AlertText(spec.noun)))
      else
        var record := Outgoing(st, upload);
        SubmitStep(checked.(loading := false), Sent(record, save.Succeeded?),
                   if save.Succeeded? then None else Some(AlertText(spec.noun)))
  }

  /** A form with at least one error is never sent, and shows exactly the errors
      just computed. */
  lemma SubmitWithErrors(spec: FormSpec, st: FormState, upload: Upload, save: Outcome)
    requires Validate(spec.rules, st.data).Some? && Validate(spec.rules, st.data).value != map[]
    ensures Submit(spec, st, upload, save).result.Invalid?
    ensures Submit(spec, st, upload, save).form.errors == Validate(spec.rules, st.data).value
    ensures Submit(spec, st, upload, save).alert.None?
  {
    var errs := Validate(spec.rules, st.data).value;
    var k :| k in errs;
    assert |errs| != 0;
  }

  /** Removing the chosen photo does not remove the stored one: a later successful
      submit sends the record's own `photoURL` unchanged (or leaves it undefined). */
  lemma RemovedPhotoKeepsStoredUrl(spec: FormSpec, st: FormState, upload: Upload, save: Outcome)
    requires Submit(spec, RemovePhoto(st), upload, save).result.Sent?
    ensures Get(Submit(spec, RemovePhoto(st), upload, save).result.record, "photoURL") == Get(st.data, "photoURL")
  {
  }
}
