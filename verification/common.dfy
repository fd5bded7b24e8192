/** Small datatypes shared by every module of the model. */
module Common {

  /** A value that may be absent: a JavaScript `null` or `undefined`. */
  datatype Option<+T> = None | Some(value: T)

  /** The settled result of a backend call the application awaits (database write,
      sign-in, sign-up). The backend itself is not modelled: each call's result is an
      input to the transition that awaits it. */
  datatype Outcome = Succeeded | Failed(message: string)

  /** A document as the application sees it: field name to string value. A field
      that is not a key of the map is `undefined` in the JavaScript object. */
  type Record = map<string, string>

  /** The application's home route, where sign-up and a role-less login lead. */
  const HomeRoute := "/"

  /** Reads a field, `undefined` when absent. */
  function Get(r: Record, field: string): (v: Option<string>)
    ensures v.Some? <==> field in r
    ensures v.Some? ==> v.value == r[field]
  {
    if field in r then Some(r[field]) else None
  }
}
