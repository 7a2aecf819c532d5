# Trip lifecycle service — a Dafny model

`c_triphistory.py` holds the trip endpoints of FILL-IT: five request handlers
over the `/trips` node of a realtime database, keyed by booking id. This
project models that node and the handlers that read and write it, and proves
what each handler does to the store and what it answers.

- `options.dfy` (`Options`): the optional value used for every absent key.
- `trip_dates.dfy` (`TripDates`): a booking's `DD/MM/YYYY` date.
  - The parser models `datetime.strptime(s, '%d/%m/%Y')`.
  - The proleptic Gregorian calendar decides which dates exist.
  - `MidnightBefore` compares a booking's midnight with the current moment.
- `trip_records.dfy` (`TripRecords`): a trip as stored, with the status node
  that may be absent, a bare string or a document.
  - The response shapes and the exceptions a handler can raise.
  - The 500 re-wrapping of the generic `except Exception`.
  - The `Bearer` authorization gate.
  - The two ways the handlers read a status.
  - The store's top-level merge and the `status`-child merge that expires a trip.
- `trip_rules.dfy` (`TripRules`): the rules as functions of the store's contents,
  each with lemmas stating what it promises.
  - `EqualTo` is the `order_by_child(..).equal_to(..)` query.
  - `Visit`, `HistoryWalk` and `HistoryPass` are the history loop with lazy expiry.
  - `PendingOnly`, `NearbyScan` and `Summaries` are the nearby filter.
  - `StatusWritten` and `StatusPairs` are the status write.
- `trip_service.dfy` (`TripService`): the class `TripStore`.
  - Its state is the map from booking id to trip, plus the order in which the
    store lists its keys.
  - It has one method per handler. Each is proved against the functions above.

The current moment is a parameter. It is a `Clock`: today's date plus the
microseconds since midnight. The ISO timestamp a handler writes is a string
parameter too. The store is an in-memory map. A handler that raises after the
authorization check answers `HttpError(500, context + ": " + str(e))`. In that
text an `HTTPException` renders as `<code>: <detail>`.

Points where the code behaves differently from what its comments and names
suggest. The model states each one as the code has it:

- **Two ways to read a status.** History reads a missing status as
  `pending` (line 78). A status is missing when there is no status at all, or
  when it is a status document without a `status` key. Nearby, edit and delete
  read a missing status as not pending (lines 192, 228, 262). So such a trip
  can expire on a history read, but it cannot be edited or deleted
  (`StatusReadingsDisagreeOnMissingStatus`).
- **Trips dated today expire.** A booking's date at midnight is compared
  with `datetime.now()`, so a pending trip dated today is already in the past
  (`SameDayPendingTripExpires`).
- **Status writes go to the trip root.** `update_trip_status` writes `status`
  at the top level of the trip (line 160), not into the status document. The
  status becomes a bare string, and from then on every later history, nearby,
  edit or delete request that meets the trip raises `AttributeError` on
  `.get`. That answer is a 500 (`StatusWriteHidesStatus`,
  `HistoryFailsOnStringStatus`, `NearbyScanIsFilter`).
- **404 and 400 become 500.** The 404 and 400 errors are raised inside the
  `try`, so they come back as 500 with the original code embedded in the
  message.

## Model

| member | source | states |
|---|---|---|
| TripDates.ParseDate | c_triphistory.py:70-76 | a date string parses only to a real calendar date: year 1–9999, month 1–12, and a day the month has under the Gregorian leap rule |
| TripDates.ParseFormatted | c_triphistory.py:71 | every valid date written as zero-padded `DD/MM/YYYY` parses back to that same date |
| TripDates.TodayIsAlreadyPast | c_triphistory.py:77-79 | today's date at midnight compares as before now exactly when any time has passed since midnight |
| TripRecords.AuthorizedIffBearer | c_triphistory.py:52-53 | the gate admits exactly the headers made of `Bearer ` and some token, the empty token included, and rejects a missing header |
| TripRecords.StatusReadingsDisagreeOnMissingStatus | c_triphistory.py:78 | the history read (`.get('status', 'pending')`) and the guard read of lines 192/228/262 (`.get('status') == 'pending'`) disagree exactly on a missing status: no status, or a document without a `status` key, is pending to the first and not pending to the second. They agree on every other document, and a bare-string status makes both raise |
| TripRecords.Expire | c_triphistory.py:81-85 | expiring a trip merges `status: regret` and `updated_at` into its status document: afterwards the status reads `regret` (not pending), every other status key and every top-level field is kept |
| TripRecords.DecimalReadsBack | c_triphistory.py:111 | the decimal text that `str` gives an exception's status code is a non-empty run of digits without a leading zero, and it reads back as that code |
| TripRecords.RewrappedKeepsMessage | c_triphistory.py:109-111 | whatever was raised inside the `try`, the answer is a 500. An `AttributeError`'s message follows the handler's context. For an HTTP error, the detail is the context, then digits that read back as the original status code, then the original detail |
| TripRecords.StatusUpdateNotFoundText | c_triphistory.py:163-165 | a status update for a missing trip answers 500 with the detail `Failed to update trip status: 404: Trip not found` |
| TripRules.Without | c_triphistory.py:266 | removing a key from the store's listing keeps exactly the other keys, still each once |
| TripRules.EqualToSelects | c_triphistory.py:60 | the equality query answers exactly the stored keys whose child equals the value, each once, all present in the store |
| TripRules.EqualToAppend | c_triphistory.py:60 | the query answers a concatenated listing part by part, so its answer keeps the store's listing order |
| TripRules.EqualToAgrees | c_triphistory.py:60 | the query answers the same on two stores with the same keys whose trips agree on the queried child |
| TripRules.CanonicalDateExpires | c_triphistory.py:70-79 | a trip that reads as pending and whose date is the zero-padded text of a valid date expires exactly when that date's midnight is before now |
| TripRules.SameDayPendingTripExpires | c_triphistory.py:70-79 | a trip that reads as pending and is booked for today's date expires exactly when any time has passed since midnight |
| TripRules.HistoryStopsAtFailure | c_triphistory.py:109-111 | once the history loop has raised on a trip, the later trips change nothing: answer and store are those at the failure |
| TripRules.HistoryKeepsUnmatched | c_triphistory.py:79-85 | whatever the outcome, the history read keeps the store's keys and leaves every trip it did not match untouched |
| TripRules.HistoryWritesOnlyExpired | c_triphistory.py:79-85 | whatever the outcome, a trip of the store is either unchanged or was matched, expiring, and is now exactly its expired (`regret`) version |
| TripRules.HistoryKeepsWellFormed | c_triphistory.py:81-85 | the history read keeps the store's keys and keeps every trip well formed |
| TripRules.HistorySucceeds | c_triphistory.py:68-107 | when no matched trip has a bare-string status, the history loop succeeds with one entry per matched trip |
| TripRules.HistoryListsEveryTrip | c_triphistory.py:88-104 | when it succeeds, entry j carries key j as `booking_id`, the stored top-level fields, and either `regret` with every other status field null (expired on this read) or the stored status fields with `pending` for a missing status |
| TripRules.HistoryStoreExact | c_triphistory.py:79-85 | when it succeeds, a trip of the store afterwards is its expired version exactly when it was matched and expiring, and otherwise unchanged |
| TripRules.HistoryAtNow | c_triphistory.py:68-107 | the history read at the moment `now`: entries as above with expiry decided by `ExpiresAt` (status reads pending, date parses, its midnight before now), and only the matched expiring trips rewritten |
| TripRules.HistoryFailsOnStringStatus | c_triphistory.py:78 | a matched trip whose status is a bare string makes the read raise the `AttributeError` of `.get` on a string |
| TripRules.RereadMatchesSameTrips | c_triphistory.py:60 | after a history read, the same customer query matches the same trips, and none of them has a bare-string status |
| TripRules.SecondReadFindsRegret | c_triphistory.py:78-87 | a second history read succeeds with one entry per trip, reports every trip the first read expired as `regret`, and does not write it again |
| TripRules.RereadAtSameMomentWritesNothing | c_triphistory.py:79-85 | a second history read at the same moment leaves the store exactly as the first read left it |
| TripRules.PendingOnly | c_triphistory.py:192 | the nearby filter keeps exactly the matched stored trips whose status document says `pending`, so an absent status is left out |
| TripRules.PendingOnlyAppend | c_triphistory.py:190-192 | the pending filter answers a concatenated list part by part, so it keeps the order of the matched trips |
| TripRules.NearbyScanIsFilter | c_triphistory.py:190-201 | the nearby loop raises the `AttributeError` exactly when a matched trip has a bare-string status, and otherwise answers the summaries of the literally pending trips, in order |
| TripRules.NearbyExactly | c_triphistory.py:182-192 | the nearby answer lists exactly the stored trips with that date string whose status document says `pending` |
| TripRules.StatusWriteChanges | c_triphistory.py:139-156 | a status write sets the bare status string and `updated_at`, and adds the four driver fields and `assigned_at` for `driver_assigned` or `completed_at` for `trip_completed`. Any other status adds nothing. All other fields and keys are kept |
| TripRules.StatusWriteKeepsWellFormed | c_triphistory.py:148-156 | the keys a status write adds never collide with the trip's named fields |
| TripRules.StatusPairsWrite | c_triphistory.py:158-160 | merging the request's pairs, in order, at the top level of the trip yields exactly `StatusWritten` |
| TripRules.AssignmentPairsWrite | c_triphistory.py:148-154 | the five assignment keys merged after `status` and `updated_at` land in the trip's other keys with the request's values |
| TripRules.StatusWriteHidesStatus | c_triphistory.py:160 | after a status write both status reads raise and the trip can never expire |
| TripService.TripStore.GetTripHistory | c_triphistory.py:47-111 | 401 without touching the store; otherwise the store becomes exactly what the history pass over the customer's trips leaves, and the answer is its entries or the 500 re-wrap of what it raised; store invariant kept |
| TripService.TripStore.UpdateTripStatus | c_triphistory.py:114-165 | 401, a missing or empty trip record (500 around 404) and missing driver details (500 around 400) leave the store unchanged; otherwise only that trip changes, to `StatusWritten`; store invariant kept |
| TripService.TripStore.FindNearbyTrips | c_triphistory.py:168-206 | 401; otherwise the summaries of the date-matched literally pending trips, or the 500 re-wrap of the `AttributeError` when one has a bare-string status; `from_location` has no effect |
| TripService.TripStore.EditTrip | c_triphistory.py:209-242 | 401, a missing or empty trip record, a bare-string status or a status that is not literally `pending` leave the store unchanged with the matching error; otherwise exactly `from_location`, `to_location`, `date` and `updated_at` of that trip change |
| TripService.TripStore.DeleteTrip | c_triphistory.py:245-271 | the same guards leave the store unchanged; otherwise exactly that key leaves the store and its listing |

## Left out

- The database client and app setup (lines 5-6, 15, 18, every `db.reference`): the store is an in-memory map with an explicit listing order. A query answers in that order. The database's own ordering of equal children is not modelled.
- The argument of `trip_ref.update` at line 160 is a list of pairs. It is modelled as a top-level merge of those pairs, in order. What the database library really does with a list argument is not modelled.
- FastAPI routing, `Header` injection, JSON encoding and pydantic/`EmailStr` validation: an answer is a `Response` value. The pydantic models `TripStatus` and `TripHistory` are not checked against stored data. `TripUpdate` is a datatype.
- `datetime.now()` and the `pytz` Asia/Kolkata timestamps are parameters. The handlers call `now()` several times, which can give different stamps; the model uses one stamp per request.
- `print` logging and `load_dotenv`: no effect on results.
- Concurrency between requests: each method runs atomically.
- The 10 km location filter: the code does not implement it (lines 189, 193).
- ParseDate: accepts ASCII digits only. Python's `\d` also accepts other Unicode decimal digits.
- Stored values are strings. A trip whose `date`, `customer_email` or status fields hold non-string JSON values is not modelled.
- Status documents hold only the keys the handlers read or write. Other keys inside a status document are not modelled; top-level keys other than the named ones are kept in `Trip.extra`.
