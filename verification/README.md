# School management app: verified model of its decision logic

The app is a React front end over Firebase. It keeps teacher and student records,
lets users sign up and log in, and shows an activity log. Storage, authentication and
file upload all happen in Firebase. This model covers the logic the components
decide for themselves:

- **Entity forms** (`Forms`, `TeacherForm`, `StudentForm`). The forms hold:
  - `validateForm`, with its required-field rules and the teacher form's email-shape
    test (`EmailShape`).
  - `handleChange`, the photo controls, and the submit gate.
  - The choice of `photoURL` in the record sent to `onSubmit`.

  One generic form is parameterised by its rules, its blank record and its noun,
  with one instance per entity.
- **List pages** (`Search`, `CrudPage`, `TeachersPage`, `StudentsPage`):
  - The search effect.
  - The page state as a pure transition function over events: add, edit,
    delete-with-confirmation and submit. Each backend call is returned as a value,
    and its success or failure arrives as an input.
- **Sign-up** (`SignupPage`): the ordered password checks and what the submit
  handler does afterwards.
- **Login** (`LoginPage`):
  - Role derivation from navigation state.
  - The role-to-route redirect.
  - The role buttons and the view test.
- **Activity log** (`LogsPage`): the action badge, the timestamp guard and the
  payload cell.
- **Shared text operations** (`Text`, `Common`): `trim`, `toLowerCase`, `includes`,
  `startsWith` and `length` as JavaScript defines them, except for the limits listed
  below.

Records are maps from field name to string, and a missing key stands for
`undefined`. Whitespace is the full set that JavaScript's `trim` and `\S` use: the
WhiteSpace and LineTerminator code points.

## Model

| member | source | states |
|---|---|---|
| Text.TrimMeaning | src/components/TeacherForm.jsx:61-67 | `trim` removes exactly the leading and trailing whitespace. Its result is empty exactly when the input is blank, and it never starts or ends with whitespace. |
| Text.Lower | src/pages/TeachersPage.jsx:44-50 | Lowercasing keeps the length and folds each ASCII capital letter to its small letter. Every other character is left alone. |
| Text.Includes | src/pages/TeachersPage.jsx:46-50 | `includes` is true exactly when the needle occurs at some index of the haystack. |
| Text.StartsWith | src/pages/LoginPage.jsx:26-28 | `startsWith` holds exactly when the prefix occurs at index 0. It then also satisfies `includes`. |
| Text.Utf16Length | src/pages/SignupPage.jsx:23 | `length` counts UTF-16 code units, between one and two per character. |
| Text.Utf16LengthOfBmp | src/pages/SignupPage.jsx:23 | For text inside the Basic Multilingual Plane, `length` is the number of characters. |
| Text.Utf16LengthAdditive | src/pages/SignupPage.jsx:23 | `length` adds up over concatenation, and a single character counts two code units exactly when it lies outside the Basic Multilingual Plane. Together these fix the count for every string. |
| EmailShape.ScanCorrect | src/components/TeacherForm.jsx:64 | The one-pass scanner accepts exactly the strings in which `\S+@\S+\.\S+` matches somewhere. |
| EmailShape.HasEmailShapeMeaning | src/components/TeacherForm.jsx:64 | The email test is an unanchored search for the pattern. |
| EmailShape.SurroundingTextKeepsMatch | src/components/TeacherForm.jsx:64 | Text or whitespace around a matching value never causes rejection. |
| Forms.RuleErrorMeaning | src/components/TeacherForm.jsx:61-64 | A blank value gets only the "required" message. A non-blank value passes a plain rule. It passes an email rule exactly when the pattern matches, and otherwise gets the format message. |
| Forms.Validate | src/components/TeacherForm.jsx:58-71 | Validation fails by throwing exactly when some ruled field is `undefined`. Errors only ever name ruled fields. |
| Forms.ErrorsPerRule | src/components/TeacherForm.jsx:61-67 | When no field has two rules, each field's error is the one its own rule gives for its own value. Every field is checked independently. |
| Forms.ValidIffEveryRulePasses | src/components/TeacherForm.jsx:69-70 | The form is valid (the error map is empty) exactly when every ruled field is defined and its rule records nothing. |
| Forms.ValidIffAllPass | src/components/TeacherForm.jsx:58-70 | The form is valid exactly when every ruled field is defined and not blank, and each email field matches the pattern. |
| Forms.UnruledFieldIrrelevant | src/components/TeacherForm.jsx:58-71 | Changing a field without a rule never changes the result of validation. |
| Forms.Open | src/components/TeacherForm.jsx:8-26 | A form opens on the edited record or else the blank record. The preview is the record's truthy `photoURL`, or empty. There is no file, no error and no loading. |
| Forms.Change | src/components/TeacherForm.jsx:29-36 | `handleChange` sets exactly the named field and keeps every other field. It clears that field's error only if one shows, by setting it to "" so the key stays, and touches no other error. |
| Forms.SelectPhoto | src/components/TeacherForm.jsx:38-48 | Choosing a file records it. No selection changes nothing. Data and errors are untouched. |
| Forms.RemovePhoto | src/components/TeacherForm.jsx:50-56 | `removePhoto` clears only the chosen file and the preview. The record, including its `photoURL`, is untouched. |
| Forms.Submit | src/components/TeacherForm.jsx:73-96 | `onSubmit` is reached exactly when validation finds no errors and the upload, if any, succeeded. The sent record is the form data, with `photoURL` set to the upload's URL when a file was chosen. The errors shown are the ones just computed. `loading` ends false once validation passes. The alert appears exactly when the upload or the save failed. |
| Forms.SubmitWithErrors | src/components/TeacherForm.jsx:76-78 | A form with any error is not sent, shows exactly those errors and raises no alert. |
| Forms.RemovedPhotoKeepsStoredUrl | src/components/TeacherForm.jsx:82-89 | After `removePhoto`, a successful submit still sends the record's own `photoURL`. |
| TeacherForm.FieldErrors | src/components/TeacherForm.jsx:58-71 | Each of the six required fields gets its own message exactly when it is blank. The email gets "Invalid email format" only when it is non-blank and the pattern does not match. No other field gets an error. |
| TeacherForm.ValidIff | src/components/TeacherForm.jsx:58-71 | A teacher is valid exactly when the six required fields are defined and non-blank and the email matches the pattern. |
| TeacherForm.OptionalFieldsIgnored | src/components/TeacherForm.jsx:58-71 | Qualifications, experience, employee id, join date, bio, photo URL and every other unruled field never change validation. |
| TeacherForm.SubmitSendsOnlyValid | src/components/TeacherForm.jsx:73-78 | Only a teacher with all required fields filled reaches `onSubmit`. |
| TeacherForm.BlankFormRejected | src/components/TeacherForm.jsx:8-21 | Submitting the blank teacher form flags exactly the six required fields. |
| StudentForm.FieldErrors | src/components/StudentForm.jsx:57-70 | Each of the seven required fields gets its own message exactly when it is blank. No other field gets an error. |
| StudentForm.ValidIff | src/components/StudentForm.jsx:57-70 | A student is valid exactly when the seven required fields are defined and non-blank. |
| StudentForm.OptionalFieldsIgnored | src/components/StudentForm.jsx:57-70 | Date of birth, parent email (which gets no format check), address, admission date, photo URL and every other unruled field never change validation. |
| StudentForm.SubmitSendsOnlyValid | src/components/StudentForm.jsx:72-77 | Only a student with all required fields filled reaches `onSubmit`. |
| Search.AnyFieldMatchesMeaning | src/pages/TeachersPage.jsx:45-51 | The `\|\|` chain over the searched fields holds exactly when some searched field is defined and its lowercased value contains the query. |
| Search.Select | src/pages/TeachersPage.jsx:45-51 | The filtered list is an order-preserving subsequence of the list. Each matching record keeps its multiplicity and every other record is dropped. |
| Search.FilterMeaning | src/pages/TeachersPage.jsx:38-53 | A blank query shows the whole list. Any other query keeps, in order, exactly the records in which some searched field contains the lowercased, untrimmed query. |
| Search.UnsearchedFieldIrrelevant | src/pages/TeachersPage.jsx:45-51 | A field outside the searched list never decides whether a record is kept. |
| Search.UndefinedFieldsNeverMatch | src/pages/TeachersPage.jsx:46-50 | A record whose searched fields are all `undefined` is hidden by every non-blank query. |
| CrudPage.AddForm | src/pages/TeachersPage.jsx:55-58 | `handleAdd` opens the form with nothing being edited, and leaves the list, query, pending delete and toast alone. |
| CrudPage.EditForm | src/pages/TeachersPage.jsx:60-63 | `handleEdit` opens the form on the chosen record. |
| CrudPage.AskDelete | src/pages/TeachersPage.jsx:65-67 | `handleDelete` only records the pending record. It makes no call and leaves the list, query, form, editing and toast alone. |
| CrudPage.ConfirmDeleteStep | src/pages/TeachersPage.jsx:69-77 | A delete call is made exactly when a record is pending, with that record's id. The pending record is cleared only on success. Otherwise it stays and an error toast is set. |
| CrudPage.SubmitStep | src/pages/TeachersPage.jsx:79-94 | Update is called with the edited record's id when editing, and create otherwise. Success closes the form, ends editing and shows the "updated" or "added" toast. Failure sets the error toast, changes nothing else, and rethrows. |
| CrudPage.CallsComeOnlyFromConfirmAndSubmit | src/pages/TeachersPage.jsx:55-94 | Only confirming a pending deletion or saving the form reaches the backend. Update is dispatched exactly when editing, and only a failed save rethrows. |
| CrudPage.EditingImpliesFormOpen | src/pages/TeachersPage.jsx:55-94 | No event leaves a record being edited while the form is closed. |
| CrudPage.DismissalsClearOnlyTheirPart | src/pages/TeachersPage.jsx:163-198 | Closing the modal or cancelling the form closes it and ends editing. Closing the delete dialog forgets the pending record. Closing the toast removes it. Each changes nothing else and reaches no backend. |
| CrudPage.PendingComesFromRequest | src/pages/TeachersPage.jsx:65-77 | A pending deletion after an event is either the one already pending or the record that event asked to delete. |
| CrudPage.DeleteOnlyAfterRequest | src/pages/TeachersPage.jsx:65-77 | Over any sequence of events from no pending deletion, every delete call targets a record the user earlier asked to delete. |
| CrudPage.ListIsLastSnapshot | src/pages/TeachersPage.jsx:27-34 | Over any sequence of events, the list the page holds is the one the subscription delivered last, or the starting list if none arrived. No handler edits the list itself. |
| TeachersPage.BlankQueryShowsAll | src/pages/TeachersPage.jsx:39-41 | An empty or whitespace-only query shows every teacher. |
| TeachersPage.ShownIff | src/pages/TeachersPage.jsx:44-51 | Otherwise a teacher is shown exactly when its first name, last name, subject, department or email, lowercased, contains the lowercased query. The list order is kept. |
| TeachersPage.UnsearchedFieldsIgnored | src/pages/TeachersPage.jsx:45-51 | Phone and every other unsearched field never affect matching. |
| TeachersPage.QueryIsNotTrimmed | src/pages/TeachersPage.jsx:39-44 | The query is lowercased but not trimmed, so " ann" finds no "Ann" although "ann" does. |
| StudentsPage.BlankQueryShowsAll | src/pages/StudentsPage.jsx:39-41 | An empty or whitespace-only query shows every student. |
| StudentsPage.ShownIff | src/pages/StudentsPage.jsx:44-52 | Otherwise a student is shown exactly when its first name, last name, grade, section, roll number or parent name contains the lowercased query. The list order is kept. |
| StudentsPage.UnsearchedFieldsIgnored | src/pages/StudentsPage.jsx:45-52 | Parent phone, parent email and every other unsearched field never affect matching. |
| SignupPage.Submit | src/pages/SignupPage.jsx:16-38 | Signup is called, with the email and password, exactly when the passwords agree and are at least 6 code units long. A mismatch, then a short password, gives its own error with `loading` untouched. Success navigates to "/". Failure shows the prefixed message and does not navigate. `loading` ends false after a call. |
| SignupPage.EmailNotChecked | src/pages/SignupPage.jsx:16-38 | The email plays no part in the handler's decision. |
| SignupPage.MismatchReportedBeforeLength | src/pages/SignupPage.jsx:19-25 | Mismatched short passwords report the mismatch. |
| SignupPage.LengthCountsCodeUnits | src/pages/SignupPage.jsx:23-25 | Three characters outside the Basic Multilingual Plane pass the length check, while three ordinary ones fail it. |
| LoginPage.DeriveRole | src/pages/LoginPage.jsx:18-32 | A truthy passed role wins. Without one, an origin starting with "/teachers" gives "teacher" and one starting with "/students" gives "student". Anything else keeps the role. |
| LoginPage.ReturnsToOrigin | src/pages/LoginPage.jsx:25-48 | A user sent to login from anywhere under a role's route gets that role, and is redirected back to that route. |
| LoginPage.RoutesDistinct | src/pages/LoginPage.jsx:42-48 | Only "teacher" and "student" leave "/", and they go to different routes. |
| LoginPage.RouteFor | src/pages/LoginPage.jsx:42-48 | Only the roles "teacher" and "student" leave the home route, and each goes to "/" followed by the role's plural. |
| LoginPage.Submit | src/pages/LoginPage.jsx:34-55 | `login` is always called with the typed credentials. Success goes to the role's route. Failure sets the fixed message and does not navigate. `loading` ends false. |
| LoginPage.SelectRole | src/pages/LoginPage.jsx:57-60 | Choosing a role sets it and clears the error, keeping email and password. |
| LoginPage.Back | src/pages/LoginPage.jsx:62-67 | Going back forgets the role and clears the error, email and password. |
| LoginPage.RoleButtons | src/pages/LoginPage.jsx:57-70 | Back always shows role selection. Choosing either role leaves it, and a later successful login leads to that role's page. |
| LoginPage.ShowsRoleSelection | src/pages/LoginPage.jsx:70 | Role selection is shown exactly when the role is `null` or the empty string. |
| LogsPage.BadgeClass | src/pages/LogsPage.jsx:45-56 | Only "create", "update" and "delete" get a class, "badge-" followed by the action. Every other action gets "". |
| LogsPage.BadgeClassInjective | src/pages/LogsPage.jsx:45-53 | The three badge classes are pairwise distinct. |
| LogsPage.AuthActionsUnstyled | src/pages/LogsPage.jsx:54-55 | The "signup", "login" and "logout" actions get no badge class. |
| LogsPage.Millis | src/pages/LogsPage.jsx:40-43 | There is no instant (the text is "N/A") exactly when the timestamp is missing, or its seconds are missing or 0. |
| LogsPage.MillisRoundTrip | src/pages/LogsPage.jsx:42 | The milliseconds are the seconds times 1000: a non-zero whole number of seconds, which dividing by 1000 gives back. |
| LogsPage.TimestampText | src/pages/LogsPage.jsx:40-43 | An unset timestamp reads "N/A". A set one reads as the formatting of its seconds times 1000. |
| LogsPage.TimestampTextDistinguishes | src/pages/LogsPage.jsx:40-43 | Take a formatter that tells instants apart and never prints "N/A". Then the text is "N/A" exactly for unset timestamps, and two set timestamps read the same exactly when their seconds agree. |
| LogsPage.PayloadCellFor | src/pages/LogsPage.jsx:113-120 | The data is shown exactly when the stored payload is truthy, that is, any object, even an empty one. It is then the object's own fields. `null` and `undefined` show "—". |
| LogsPage.PayloadRoundTrip | src/pages/LogsPage.jsx:113-120 | A logged entry round-trips through the log writer's `payload \|\| null` and the cell. An entry logged with data, even `{}`, shows exactly that data. One logged without data, such as a delete, shows the dash. |

## Left out

- The Firebase services (Firestore, Storage, Auth) and the `onSnapshot`
  subscriptions are left out. The calls a handler makes are returned as values, and
  their outcomes are inputs. The service-side activity-log writes are not modelled,
  except for the stored payload value (`LogsPage.StoredPayload`).
- The auth service's sign-up, login and logout flows, and the activity log's
  "anonymous" user fallback, are left out. They import an `auth` binding that the
  Firebase configuration module does not export.
- The `FileReader` preview, the `Date.now()` upload paths, `toLocaleString`
  formatting and the Toast auto-close timer are left out: they depend on I/O, the
  clock or the locale. The formatter is a parameter of `LogsPage.TimestampText`.
- The form's `loading` flag during the awaits, the page-level `loading` spinner, JSX
  rendering and the presentation components are not modelled. `async` ordering is
  flattened into one step per handler.
- Text.Lower: `toLowerCase` is modelled for ASCII letters only. Other letters are
  left as they are.
- Common.Get: records are taken to hold strings. A non-string field value (a number
  or `null`) in the filter or the validator is not modelled.
- Forms.Submit: a record without a `photoURL` key is sent with `photoURL` set to
  `undefined`. The model does not tell that apart from a missing key.
- The browser's own form validation runs before any handler and is not modelled. It covers `type="email"` inputs (TeacherForm.jsx:165, StudentForm.jsx:232, SignupPage.jsx:62) and `required` inputs (SignupPage.jsx:67, 82, 97, and the login inputs). The browser strips surrounding whitespace from emails and blocks malformed non-empty emails and empty required inputs. So `EmailShape.SurroundingTextKeepsMatch` and the blank-field rules describe the handlers, not everything a user can submit through a browser.
- LogsPage.StoredPayload: models only the `payload || null` choice of the log writer (src/firebase/activityLogService.js:26), and none of its Firestore write.
- LogsPage.Millis: `seconds * 1000` is exact integer arithmetic. Floating-point
  rounding of very large values is not modelled.
- LogsPage.PayloadCellFor: the JSON rendering of the payload is not modelled.
- The signup handler's console logging is left out.
