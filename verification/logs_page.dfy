/** The activity-log table's display helpers: the action badge, the timestamp guard
    and the payload cell. */
module LogsPage {
  import opened Common

  /** `getActionBadgeClass`. */
  function BadgeClass(action: string): (c: string)
    ensures c != "" <==> action == "create" || action == "update" || action == "delete"
    ensures c != "" ==> c == "badge-" + action
  {
    match action
    case "create" => "badge-create"
    case "update" => "badge-update"
    case "delete" => "badge-delete"
    case _ => ""
  }

  /** Distinct actions with a badge get distinct badges, and the badge names the
      action it came from. */
  lemma BadgeClassInjective(a: string, b: string)
    requires BadgeClass(a) != "" && BadgeClass(a) == BadgeClass(b)
    ensures a == b
  {
    assert ("badge-" + a)[6..] == a;
    assert ("badge-" + b)[6..] == b;
  }

  /** The authentication actions that the sign-up, login and logout paths log get no
      badge style. */
  lemma AuthActionsUnstyled()
    ensures BadgeClass("signup") == "" && BadgeClass("login") == "" && BadgeClass("logout") == ""
  {
  }

  /** A stored timestamp, whose `seconds` may be missing. */
  datatype Timestamp = Timestamp(seconds: Option<int>)

  /** `!timestamp || !timestamp.seconds`: the timestamp is missing, or its seconds are
      missing or zero, the only falsy number the field holds. */
  predicate Unset(t: Option<Timestamp>) {
    t.None? || t.value.seconds.None? || t.value.seconds.value == 0
  }

  /** The instant `formatTimestamp` renders, in milliseconds, or `None` for "N/A". */
  function Millis(t: Option<Timestamp>): (ms: Option<int>)
    ensures ms.None? <==> Unset(t)
  {
    if t.None? || t.value.seconds.None? || t.value.seconds.value == 0 then None
    else Some(t.value.seconds.value * 1000)
  }

  /** The conversion to milliseconds loses nothing: dividing by 1000 gives the seconds
      back, and the result is a whole number of seconds. */
  lemma MillisRoundTrip(t: Option<Timestamp>)
    requires Millis(t).Some?
    ensures Millis(t).value % 1000 == 0
    ensures Millis(t).value / 1000 == t.value.seconds.value
    ensures Millis(t).value != 0
  {
  }

  const NotAvailable := "N/A"

  /** `formatTimestamp`, with the locale formatting of a millisecond instant passed in. */
  function TimestampText(t: Option<Timestamp>, format: int -> string): (s: string)
    ensures Unset(t) ==> s == NotAvailable
    ensures !Unset(t) ==> s == format(t.value.seconds.value * 1000)
  {
    match Millis(t)
    case None => NotAvailable
    case Some(ms) => format(ms)
  }

  /** With a formatter that tells instants apart and never prints "N/A", the text
      tells the timestamps apart exactly as their seconds do: "N/A" means unset, and
      two set timestamps read the same exactly when their seconds agree. */
  lemma TimestampTextDistinguishes(t: Option<Timestamp>, u: Option<Timestamp>, format: int -> string)
    requires forall ms :: format(ms) != NotAvailable
    requires forall a, b :: format(a) == format(b) ==> a == b
    ensures TimestampText(t, format) == NotAvailable <==> Unset(t)
    ensures !Unset(t) && !Unset(u) ==>
              (TimestampText(t, format) == TimestampText(u, format) <==> t.value.seconds == u.value.seconds)
  {
    if !Unset(t) && !Unset(u) && TimestampText(t, format) == TimestampText(u, format) {
      assert t.value.seconds.value * 1000 == u.value.seconds.value * 1000;
    }
  }

  /** A stored `payload` value as the table reads it. */
  datatype Payload = Missing | Null | Object(fields: Record)

  /** ECMAScript truthiness of a payload: every object is truthy, even an empty one;
      `null` and `undefined` are not. */
  predicate Truthy(v: Payload) {
    v.Object?
  }

  /** What the Details cell shows. */
  datatype PayloadCell = Details(payload: Record) | NoData

  const NoDataMark := "—"

  /** The payload cell: the data for a truthy payload, the dash otherwise. */
  function PayloadCellFor(payload: Payload): (c: PayloadCell)
    ensures c.Details? <==> Truthy(payload)
    ensures c.Details? ==> payload == Object(c.payload)
  {
    match payload
    case Object(fields) => Details(fields)
    case _ => NoData
  }

  /** The value the log writer stores: `payload || null`. */
  function StoredPayload(payload: Option<Record>): Payload {
    if payload.Some? then Object(payload.value) else Null
  }

  /** Writing and showing a log entry round-trip: an entry logged with data (a create
      or an update, even with an empty object) shows exactly that data, and one logged
      without (a delete) shows the dash. */
  lemma PayloadRoundTrip(payload: Option<Record>)
    ensures PayloadCellFor(StoredPayload(payload)).Details? <==> payload.Some?
    ensures payload.Some? ==> PayloadCellFor(StoredPayload(payload)).payload == payload.value
    ensures PayloadCellFor(StoredPayload(Some(map[]))) == Details(map[])
  {
  }
}
