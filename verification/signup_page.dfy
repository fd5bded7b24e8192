/** The sign-up page's submit handler: two local password checks in a fixed order,
    then the sign-up call. No check of the email is made here. */
module SignupPage {
  import opened Common
  import opened Text

  const MinPasswordLength: nat := 6
  const MismatchError := "Passwords do not match"
  const TooShortError := "Password must be at least 6 characters"
  const FailurePrefix := "Failed to create an account. "

  datatype Signup = Signup(email: string, password: string, confirm: string, error: string, loading: bool)

  /** A submit: the new state, the `(email, password)` passed to `signup` if it was
      called, and where the page navigated, if anywhere. */
  datatype SignupStep = SignupStep(page: Signup, signupCall: Option<(string, string)>, navigateTo: Option<string>)

  /** The message of the first local check that fails, if any: mismatch first, then
      length measured in UTF-16 code units as `String.length` does. */
  function PasswordProblem(password: string, confirm: string): Option<string> {
    if password != confirm then Some(MismatchError)
    else if Utf16Length(password) < MinPasswordLength then Some(TooShortError)
    else None
  }

  /** `handleSubmit`. `result` is the outcome of `signup`, consulted only if it is
      called. */
  function Submit(s: Signup, result: Outcome): (r: SignupStep)
    ensures r.signupCall.Some? <==> s.password == s.confirm && Utf16Length(s.password) >= MinPasswordLength
    ensures r.signupCall.Some? ==> r.signupCall.value == (s.email, s.password)
    ensures s.password != s.confirm ==> r.page.error == MismatchError
    ensures s.password == s.confirm && Utf16Length(s.password) < MinPasswordLength ==> r.page.error == TooShortError
    ensures r.signupCall.None? ==> r.page.loading == s.loading && r.navigateTo.None?
    ensures r.signupCall.Some? ==> !r.page.loading
    ensures r.navigateTo.Some? <==> r.signupCall.Some? && result.Succeeded?
    ensures r.navigateTo.Some? ==> r.navigateTo.value == HomeRoute && r.page.error == ""
    ensures r.signupCall.Some? && result.Failed? ==> r.page.error == FailurePrefix + result.message
    ensures r.page.email == s.email && r.page.password == s.password && r.page.confirm == s.confirm
  {
    match PasswordProblem(s.password, s.confirm)
    case Some(message) => SignupStep(s.(error := message), None, None)
    case None =>
      var call := Some((s.email, s.password));
      match result
      case Succeeded => SignupStep(s.(error := "", loading := false), call, Some(HomeRoute))
      case Failed(message) => SignupStep(s.(error := FailurePrefix + message, loading := false), call, None)
  }

  /** The email plays no part in the decision: two submits that differ only in the
      email reach the same error, navigation and loading state, and call `signup`
      under the same conditions. */
  lemma EmailNotChecked(s: Signup, email: string, result: Outcome)
    ensures Submit(s.(email := email), result).page == Submit(s, result).page.(email := email)
    ensures Submit(s.(email := email), result).navigateTo == Submit(s, result).navigateTo
    ensures Submit(s.(email := email), result).signupCall.Some? == Submit(s, result).signupCall.Some?
  {
  }

  /** A mismatched pair is reported as a mismatch even when the password is also too
      short. */
  lemma MismatchReportedBeforeLength(s: Signup, result: Outcome)
    requires s.password != s.confirm && Utf16Length(s.password) < MinPasswordLength
    ensures Submit(s, result).page.error == MismatchError
    ensures Submit(s, result).signupCall.None?
  {
  }

  /** The length check counts UTF-16 code units: three characters outside the Basic
      Multilingual Plane pass it, three ordinary ones do not. */
  lemma LengthCountsCodeUnits(result: Outcome)
    ensures Submit(Signup("", "\U{1F600}\U{1F600}\U{1F600}", "\U{1F600}\U{1F600}\U{1F600}", "", false), result).signupCall.Some?
    ensures Submit(Signup("", "abc", "abc", "", false), result).signupCall.None?
  {
    assert Utf16Length("\U{1F600}\U{1F600}\U{1F600}") == 6;
    assert Utf16Length("abc") == 3;
  }
}
