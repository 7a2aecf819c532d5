/** The records of the trip lifecycle service: a trip as the store holds it,
    the shapes the handlers return, the exceptions they raise, and the two
    reads and two merges the handlers perform on a single trip. */
module TripRecords {
  import opened Options
  import opened TripDates

  /** The `status` child of a trip when it is a document; every key is optional. */
  datatype StatusDoc = StatusDoc(
    status: Option<string>,
    driverEmail: Option<string>,
    driverName: Option<string>,
    driverPhone: Option<string>,
    vehicleNumber: Option<string>,
    assignedAt: Option<string>,
    completedAt: Option<string>,
    updatedAt: Option<string>)

  const EmptyStatusDoc := StatusDoc(None, None, None, None, None, None, None, None)

  /** What sits under a trip's `status` key: nothing, a bare string (what a
      status write at the trip root leaves there), or a document. */
  datatype StatusNode = Absent | Text(text: string) | Doc(doc: StatusDoc)

  /** A trip record under `/trips/<booking id>`. The named fields are the keys
      the service reads; `extra` holds every other top-level key. */
  datatype Trip = Trip(
    customerEmail: Option<string>,
    fromLocation: Option<string>,
    toLocation: Option<string>,
    date: Option<string>,
    createdAt: Option<string>,
    updatedAt: Option<string>,
    status: StatusNode,
    extra: map<string, string>)

  /** A record with no key at all; `not trip_data` holds for it as for None. */
  const EmptyTrip := Trip(None, None, None, None, None, None, Absent, map[])

  /** The top-level keys that have a named field in `Trip`. */
  const RootKeys: set<string> :=
    {"customer_email", "from_location", "to_location", "date", "created_at", "updated_at", "status"}

  /** No top-level key is held twice, once named and once in `extra`. */
  predicate WellFormed(t: Trip) {
    forall k | k in t.extra :: k !in RootKeys
  }

  /** The body of an edit request (`TripUpdate`). */
  datatype TripUpdate = TripUpdate(fromLocation: string, toLocation: string, date: string)

  /** The `status` object of a history entry: every key present, unset ones null. */
  datatype StatusView = StatusView(
    status: string,
    driverEmail: Option<string>,
    driverName: Option<string>,
    driverPhone: Option<string>,
    vehicleNumber: Option<string>,
    assignedAt: Option<string>,
    completedAt: Option<string>)

  /** One element of the history response's `trips` list. */
  datatype HistoryEntry = HistoryEntry(
    bookingId: string,
    customerEmail: Option<string>,
    fromLocation: Option<string>,
    toLocation: Option<string>,
    date: Option<string>,
    createdAt: Option<string>,
    updatedAt: Option<string>,
    status: StatusView)

  /** One element of the nearby-trips response's `trips` list. */
  datatype TripSummary = TripSummary(
    bookingId: string,
    customerEmail: Option<string>,
    fromLocation: Option<string>,
    toLocation: Option<string>,
    date: Option<string>,
    createdAt: Option<string>)

  // ---------------------------------------------------------------------
  // Exceptions and responses

  /** An exception raised inside a handler's `try` block. */
  datatype Raised = HttpException(code: nat, detail: string) | AttributeError(message: string)

  /** The outcome of a Python expression that may raise. */
  datatype Attempt<T> = Value(value: T) | Threw(exc: Raised)

  /** What a handler answers: a JSON body, or an HTTP error with its detail. */
  datatype Response<T> = Success(body: T) | HttpError(code: nat, detail: string)

  const TripNotFound := HttpException(404, "Trip not found")
  const DriverDetailsRequired := HttpException(400, "Driver details required for assignment")
  const EditNeedsPending := HttpException(400, "Can only edit pending trips")
  const DeleteNeedsPending := HttpException(400, "Can only delete pending trips")
  /** `.get` called on a status that is a bare string. */
  const StatusIsString := AttributeError("'str' object has no attribute 'get'")

  const HistoryFailed := "Failed to fetch trip history"
  const StatusUpdateFailed := "Failed to update trip status"
  const NearbyFailed := "Failed to find nearby trips"
  const EditFailed := "Failed to update trip"
  const DeleteFailed := "Failed to delete trip"

  /** The decimal text of a number. */
  function Decimal(n: nat): string {
    if n < 10 then [DigitChar(n)] else Decimal(n / 10) + [DigitChar(n % 10)]
  }

  /** `str(e)`: an HTTPException reads as `<code>: <detail>`. */
  function Message(e: Raised): string {
    match e
    case HttpException(code, detail) => Decimal(code) + ": " + detail
    case AttributeError(message) => message
  }

  /** The generic `except Exception` of every handler. */
  function Rewrapped<T>(context: string, e: Raised): Response<T> {
    HttpError(500, context + ": " + Message(e))
  }

  /** The decimal text of a number reads back as that number, and has no
      leading zero unless the number is zero. */
  lemma {:induction false} DecimalReadsBack(n: nat)
    ensures |Decimal(n)| > 0 && AllDigits(Decimal(n)) && Number(Decimal(n)) == n
    ensures 0 < n ==> Decimal(n)[0] != '0'
  {
    var s := Decimal(n);
    if n < 10 {
      assert s[..0] == [];
    } else {
      DecimalReadsBack(n / 10);
      assert s[..|s| - 1] == Decimal(n / 10);
    }
  }

  /** Whatever was raised, the answer is a 500. An `AttributeError` keeps its
      message after the handler's context; an HTTP error keeps its status
      code only as decimal text in the detail, from which it can be read back. */
  lemma RewrappedKeepsMessage<T>(context: string, e: Raised)
    ensures var r: Response<T> := Rewrapped(context, e);
      && r.HttpError? && r.code == 500
      && (e.AttributeError? ==> r.detail == context + ": " + e.message)
      && (e.HttpException? ==>
            exists digits :: && r.detail == context + ": " + digits + ": " + e.detail
                             && |digits| > 0 && AllDigits(digits) && Number(digits) == e.code
                             && (0 < e.code ==> digits[0] != '0'))
  {
    if e.HttpException? {
      DecimalReadsBack(e.code);
      var r: Response<T> := Rewrapped(context, e);
      assert r.detail == context + ": " + Decimal(e.code) + ": " + e.detail;
    }
  }

  lemma Decimal404()
    ensures Decimal(404) == "404"
  {
    assert Decimal(40) == "40";
  }

  /** The text a status update for a missing trip comes back with. */
  lemma StatusUpdateNotFoundText()
    ensures Rewrapped<string>(StatusUpdateFailed, TripNotFound).detail
      == "Failed to update trip status: 404: Trip not found"
  {
    Decimal404();
  }

  // ---------------------------------------------------------------------
  // The authorization gate

  const BearerPrefix := "Bearer "

  /** `authorization and authorization.startswith("Bearer ")`. */
  predicate Authorized(authorization: Option<string>) {
    && authorization.Some?
    && |BearerPrefix| <= |authorization.value|
    && authorization.value[..|BearerPrefix|] == BearerPrefix
  }

  function Unauthorized<T>(): Response<T> {
    HttpError(401, "Invalid or missing authorization header")
  }

  /** The gate admits exactly the headers made of the prefix and some token,
      the empty token included; it looks at nothing else. */
  lemma AuthorizedIffBearer(authorization: Option<string>)
    ensures Authorized(authorization) <==>
      authorization.Some? && exists token :: authorization.value == BearerPrefix + token
  {
    if Authorized(authorization) {
      var h := authorization.value;
      assert h == BearerPrefix + h[|BearerPrefix|..];
    }
    if authorization.Some? && exists token :: authorization.value == BearerPrefix + token {
      var token :| authorization.value == BearerPrefix + token;
      assert (BearerPrefix + token)[..|BearerPrefix|] == BearerPrefix;
    }
  }

  // ---------------------------------------------------------------------
  // Reading a trip's status

  /** `trip_data.get('status', {}).get('status', 'pending')`: an absent
      status, or a document without a `status` key, reads as pending. */
  function StatusOrPending(node: StatusNode): Attempt<string> {
    match node
    case Absent => Value("pending")
    case Text(_) => Threw(StatusIsString)
    case Doc(d) => Value(d.status.GetOr("pending"))
  }

  /** `trip_data.get('status', {}).get('status') == 'pending'`: here an absent
      status reads as None, which is not pending. */
  function IsPending(node: StatusNode): Attempt<bool> {
    match node
    case Absent => Value(false)
    case Text(_) => Threw(StatusIsString)
    case Doc(d) => Value(d.status == Some("pending"))
  }

  /** The two readings disagree exactly on a missing status: no status at
      all, or a status document without a `status` key, is pending to the
      first and not pending to the second. On every other document they agree,
      and on a bare string both raise. */
  lemma StatusReadingsDisagreeOnMissingStatus(node: StatusNode)
    ensures node.Absent? ==> StatusOrPending(node) == Value("pending") && IsPending(node) == Value(false)
    ensures !node.Text? ==>
      ((StatusOrPending(node) == Value("pending") && IsPending(node) == Value(false))
       <==> (node.Absent? || node.doc.status.None?))
    ensures !node.Absent? ==>
      (IsPending(node) == Value(true) <==> StatusOrPending(node) == Value("pending") && node.doc.status.Some?)
    ensures node.Text? <==> StatusOrPending(node).Threw? && IsPending(node).Threw?
  {
  }

  /** The status document as far as `.get` reads it; an absent status reads as `{}`. */
  function DocOf(node: StatusNode): StatusDoc {
    match node
    case Doc(d) => d
    case _ => EmptyStatusDoc
  }

  // ---------------------------------------------------------------------
  // Writing a trip: the store's merge at the root and at the `status` child

  /** Sets one top-level key of a trip; a `status` written here replaces the
      status document with a bare string. */
  function SetChild(t: Trip, key: string, value: string): Trip {
    if key == "customer_email" then t.(customerEmail := Some(value))
    else if key == "from_location" then t.(fromLocation := Some(value))
    else if key == "to_location" then t.(toLocation := Some(value))
    else if key == "date" then t.(date := Some(value))
    else if key == "created_at" then t.(createdAt := Some(value))
    else if key == "updated_at" then t.(updatedAt := Some(value))
    else if key == "status" then t.(status := Text(value))
    else t.(extra := t.extra[key := value])
  }

  /** `trip_ref.update(pairs)`: every pair written at the top level of the
      trip, every other key kept. */
  function MergeIntoRoot(t: Trip, pairs: seq<(string, string)>): Trip {
    if pairs == [] then t
    else SetChild(MergeIntoRoot(t, pairs[..|pairs| - 1]), pairs[|pairs| - 1].0, pairs[|pairs| - 1].1)
  }

  lemma MergeOneMore(t: Trip, pairs: seq<(string, string)>, key: string, value: string)
    ensures MergeIntoRoot(t, pairs + [(key, value)]) == SetChild(MergeIntoRoot(t, pairs), key, value)
  {
    assert (pairs + [(key, value)])[..|pairs|] == pairs;
  }

  /** Writing `status` at the top level leaves a bare string there. */
  lemma SetChildStatus(t: Trip, value: string)
    ensures SetChild(t, "status", value) == t.(status := Text(value))
  {
  }

  lemma SetChildUpdatedAt(t: Trip, value: string)
    ensures SetChild(t, "updated_at", value) == t.(updatedAt := Some(value))
  {
  }

  /** A key without a named field lands in `extra`. */
  lemma SetChildExtra(t: Trip, key: string, value: string)
    requires key !in RootKeys
    ensures SetChild(t, key, value) == t.(extra := t.extra[key := value])
  {
  }

  /** One more key without a named field, merged after `pairs`. */
  lemma MergeExtra(t: Trip, pairs: seq<(string, string)>, before: Trip, key: string, value: string)
    requires MergeIntoRoot(t, pairs) == before && key !in RootKeys
    ensures MergeIntoRoot(t, pairs + [(key, value)]) == before.(extra := before.extra[key := value])
  {
    MergeOneMore(t, pairs, key, value);
    SetChildExtra(before, key, value);
  }

  /** `trip_ref.child('status').update({'status': status, 'updated_at': stamp})`:
      the two keys merged into the status document, its other keys kept. */
  function Expire(t: Trip, stamp: string): (r: Trip)
    ensures StatusOrPending(r.status) == Value("regret") && IsPending(r.status) == Value(false)
    ensures r.(status := t.status) == t
    ensures r.status.Doc? && r.status.doc.(status := DocOf(t.status).status, updatedAt := DocOf(t.status).updatedAt) == DocOf(t.status)
    ensures r.status.doc.updatedAt == Some(stamp)
  {
    t.(status := Doc(DocOf(t.status).(status := Some("regret"), updatedAt := Some(stamp))))
  }

  // ---------------------------------------------------------------------
  // Response shapes

  /** The history entry of a trip whose status is not a bare string: every
      top-level field copied, the status normalised with explicit nulls. */
  function Formatted(id: string, t: Trip): HistoryEntry {
    var d := DocOf(t.status);
    HistoryEntry(id, t.customerEmail, t.fromLocation, t.toLocation, t.date, t.createdAt, t.updatedAt,
      StatusView(d.status.GetOr("pending"), d.driverEmail, d.driverName, d.driverPhone,
                 d.vehicleNumber, d.assignedAt, d.completedAt))
  }

  /** `trip_data['status'] = {'status': 'regret'}`: the in-memory copy an
      expired trip is reported from. */
  function ShownAsRegret(t: Trip): Trip {
    t.(status := Doc(EmptyStatusDoc.(status := Some("regret"))))
  }

  /** The nearby-trips summary of a trip: six fields, no status. */
  function Summary(id: string, t: Trip): TripSummary {
    TripSummary(id, t.customerEmail, t.fromLocation, t.toLocation, t.date, t.createdAt)
  }
}
