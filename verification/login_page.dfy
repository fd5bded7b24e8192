/** The login page: the role it starts with, where a successful login leads, and the
    two buttons that change the role. */
module LoginPage {
  import opened Common
  import opened Text

  const TeacherRole := "teacher"
  const StudentRole := "student"
  const TeachersRoute := "/teachers"
  const StudentsRoute := "/students"
  const SignInError := "Failed to sign in. Please check your email and password."

  /** `location.state`: the path the user was sent away from and a role, either may be
      missing. */
  datatype NavState = NavState(from: Option<string>, role: Option<string>)

  datatype Login = Login(role: Option<string>, email: string, password: string, error: string, loading: bool)

  const Initial: Login := Login(None, "", "", "", false)

  /** A JavaScript string value that is truthy: defined and non-empty. */
  predicate Truthy(v: Option<string>) {
    v.Some? && v.value != ""
  }

  /** The role-derivation effect. A passed role wins; otherwise the origin path picks
      "teacher" or "student" by prefix; otherwise the role is left as it was. */
  function DeriveRole(current: Option<string>, nav: Option<NavState>): (r: Option<string>)
    ensures nav.Some? && Truthy(nav.value.role) ==> r == nav.value.role
    ensures r != current ==> nav.Some? && (Truthy(nav.value.role) || Truthy(nav.value.from))
    ensures nav.Some? && !Truthy(nav.value.role) && nav.value.from.Some? ==>
              && (StartsWith(nav.value.from.value, TeachersRoute) ==> r == Some(TeacherRole))
              && (StartsWith(nav.value.from.value, StudentsRoute) ==> r == Some(StudentRole))
              && (!StartsWith(nav.value.from.value, TeachersRoute) && !StartsWith(nav.value.from.value, StudentsRoute) ==> r == current)
  {
    var passed := if nav.Some? then nav.value.role else None;
    var from := if nav.Some? then nav.value.from else None;
    if Truthy(passed) then passed
    else if Truthy(from) then
      if StartsWith(from.value, TeachersRoute) then Some(TeacherRole)
      else if StartsWith(from.value, StudentsRoute) then Some(StudentRole)
      else current
    else current
  }

  /** Where a successful login leads for each role. */
  function RouteFor(role: Option<string>): (r: string)
    ensures r != HomeRoute <==> role == Some(TeacherRole) || role == Some(StudentRole)
    ensures r != HomeRoute ==> r == "/" + role.value + "s"
  {
    if role == Some(TeacherRole) then TeachersRoute
    else if role == Some(StudentRole) then StudentsRoute
    else HomeRoute
  }

  /** The role-to-route map and the prefix test agree: a user sent to the login page
      from anywhere under a role's route gets that role, and after logging in returns
      to that route. Every other role, or none, leads home. */
  lemma ReturnsToOrigin(role: string, rest: string, current: Option<string>)
    requires role == TeacherRole || role == StudentRole
    ensures DeriveRole(current, Some(NavState(Some(RouteFor(Some(role)) + rest), None))) == Some(role)
    ensures StartsWith(RouteFor(Some(role)) + rest, RouteFor(DeriveRole(current, Some(NavState(Some(RouteFor(Some(role)) + rest), None)))))
  {
    var path := RouteFor(Some(role)) + rest;
    assert path[..|RouteFor(Some(role))|] == RouteFor(Some(role));
    if role == StudentRole {
      assert path[1] == 's';
      assert !StartsWith(path, TeachersRoute);
    }
  }

  lemma RoutesDistinct(role: Option<string>)
    ensures RouteFor(role) == HomeRoute <==> role != Some(TeacherRole) && role != Some(StudentRole)
    ensures RouteFor(Some(TeacherRole)) != RouteFor(Some(StudentRole))
  {
  }

  /** A login attempt: the new state, the `(email, password)` passed to `login`, and,
      after a successful login, the route taken. */
  datatype LoginStep = LoginStep(page: Login, loginCall: (string, string), navigateTo: Option<string>)

  /** `handleSubmit`: no local checks; the login result alone decides. */
  function Submit(l: Login, result: Outcome): (s: LoginStep)
    ensures result.Succeeded? ==> s.navigateTo == Some(RouteFor(l.role)) && s.page.error == ""
    ensures result.Failed? ==> s.navigateTo.None? && s.page.error == SignInError
    ensures s.loginCall == (l.email, l.password)
    ensures !s.page.loading
    ensures s.page.role == l.role && s.page.email == l.email && s.page.password == l.password
  {
    match result
    case Succeeded => LoginStep(l.(error := "", loading := false), (l.email, l.password), Some(RouteFor(l.role)))
    case Failed(_) => LoginStep(l.(error := SignInError, loading := false), (l.email, l.password), None)
  }

  /** `handleRoleSelect`: sets the role and clears the error, keeping what was typed. */
  function SelectRole(l: Login, role: string): (r: Login)
    ensures r.role == Some(role) && r.error == ""
    ensures r.email == l.email && r.password == l.password && r.loading == l.loading
  {
    l.(role := Some(role), error := "")
  }

  /** `handleBack`: forgets the role, the error and what was typed. */
  function Back(l: Login): (r: Login)
    ensures r.role.None? && r.error == "" && r.email == "" && r.password == ""
    ensures r.loading == l.loading
  {
    l.(role := None, error := "", email := "", password := "")
  }

  /** The role-selection view is shown while the role is falsy. */
  predicate ShowsRoleSelection(l: Login): (b: bool)
    ensures b <==> l.role.None? || l.role == Some("")
  {
    !Truthy(l.role)
  }

  /** Going back always returns to role selection; choosing either role always leaves
      it, and a later successful login leads to that role's page. */
  lemma RoleButtons(l: Login, role: string, result: Outcome)
    requires role == TeacherRole || role == StudentRole
    ensures ShowsRoleSelection(Back(l))
    ensures !ShowsRoleSelection(SelectRole(l, role))
    ensures result.Succeeded? ==>
              Submit(SelectRole(l, role), result).navigateTo == Some(if role == TeacherRole then TeachersRoute else StudentsRoute)
  {
  }
}
