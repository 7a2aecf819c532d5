/** The rules of the trip lifecycle service as functions of the store's
    contents: the equality queries, the history pass with its lazy expiry,
    the nearby filter and the shape of a status write, with the lemmas that
    say what each promises. */
module TripRules {
  import opened Options
  import opened TripDates
  import opened TripRecords

  predicate Distinct(s: seq<string>) {
    forall i, j | 0 <= i < j < |s| :: s[i] != s[j]
  }

  /** `trip_data = ref.get()` followed by `if not trip_data`: the key holds a
      record that is not empty. */
  predicate Found(trips: map<string, Trip>, key: string) {
    key in trips && trips[key] != EmptyTrip
  }

  predicate AllStored(trips: map<string, Trip>, ids: seq<string>) {
    forall i | 0 <= i < |ids| :: ids[i] in trips
  }

  /** `s` without `x`, the rest in the same order. */
  function Without(s: seq<string>, x: string): (r: seq<string>)
    ensures forall k :: k in r <==> k in s && k != x
    ensures Distinct(s) ==> Distinct(r)
    ensures |r| <= |s|
  {
    if s == [] then []
    else if s[0] == x then Without(s[1..], x)
    else
      var rest := Without(s[1..], x);
      assert Distinct(s) ==> s[0] !in rest;
      [s[0]] + rest
  }

  // ---------------------------------------------------------------------
  // Equality queries

  /** The two children the service queries on. */
  datatype Child = CustomerEmailChild | DateChild

  function ChildValue(t: Trip, child: Child): Option<string> {
    match child
    case CustomerEmailChild => t.customerEmail
    case DateChild => t.date
  }

  /** `order_by_child(child).equal_to(value).get()`: the keys, in store order,
      of the trips whose child equals `value` exactly. */
  function EqualTo(trips: map<string, Trip>, order: seq<string>, child: Child, value: string): seq<string> {
    if order == [] then []
    else
      var rest := EqualTo(trips, order[1..], child, value);
      if order[0] in trips && ChildValue(trips[order[0]], child) == Some(value) then [order[0]] + rest else rest
  }

  /** A query answers exactly the stored keys whose child equals the value,
      each once when the store lists each key once. */
  lemma {:induction false} EqualToSelects(trips: map<string, Trip>, order: seq<string>, child: Child, value: string)
    ensures var ids := EqualTo(trips, order, child, value);
      && (forall k :: k in ids <==> k in order && k in trips && ChildValue(trips[k], child) == Some(value))
      && AllStored(trips, ids)
      && (Distinct(order) ==> Distinct(ids))
      && |ids| <= |order|
  {
    if order != [] {
      EqualToSelects(trips, order[1..], child, value);
      assert order == [order[0]] + order[1..];
    }
  }

  /** A query answers a concatenated listing part by part, so its answer
      keeps the store's listing order. */
  lemma {:induction false} EqualToAppend(trips: map<string, Trip>, o1: seq<string>, o2: seq<string>,
                                         child: Child, value: string)
    ensures EqualTo(trips, o1 + o2, child, value) == EqualTo(trips, o1, child, value) + EqualTo(trips, o2, child, value)
  {
    if o1 == [] {
      assert o1 + o2 == o2;
    } else {
      EqualToAppend(trips, o1[1..], o2, child, value);
      assert (o1 + o2)[1..] == o1[1..] + o2;
    }
  }

  /** A query answers the same on two stores with the same keys whose trips
      agree on the queried child. */
  lemma {:induction false} EqualToAgrees(a: map<string, Trip>, b: map<string, Trip>, order: seq<string>, child: Child, value: string)
    requires a.Keys == b.Keys
    requires forall k | k in a :: ChildValue(a[k], child) == ChildValue(b[k], child)
    ensures EqualTo(a, order, child, value) == EqualTo(b, order, child, value)
  {
    if order != [] {
      EqualToAgrees(a, b, order[1..], child, value);
    }
  }

  // ---------------------------------------------------------------------
  // History: lazy expiry on read

  /** The condition under which reading a trip rewrites it to `regret`: its
      status reads as pending (an absent one does), its date parses, and
      that date's midnight is before now. */
  predicate ExpiresAt(t: Trip, now: Clock) {
    && StatusOrPending(t.status) == Value("pending")
    && t.date.Some?
    && ParseDate(t.date.value).Some?
    && MidnightBefore(ParseDate(t.date.value).value, now)
  }

  /** The keys of the trips in `snap` that expire at `now`. The history loop
      decides expiry on the trips as the query read them, so the decision
      for every key is fixed before the loop starts. */
  function ExpiringKeys(snap: map<string, Trip>, now: Clock): set<string> {
    set k | k in snap && ExpiresAt(snap[k], now)
  }

  /** A pending trip whose date is the canonical text of a valid date `d`
      expires exactly when `d`'s midnight is before now. */
  lemma CanonicalDateExpires(t: Trip, d: Date, now: Clock)
    requires ValidDate(d)
    requires StatusOrPending(t.status) == Value("pending")
    requires t.date == Some(FormatDate(d))
    ensures ExpiresAt(t, now) <==> MidnightBefore(d, now)
  {
    ParseFormatted(d);
  }

  /** A pending trip booked for today expires as soon as any time has passed
      since midnight. */
  lemma SameDayPendingTripExpires(t: Trip, now: Clock)
    requires ValidDate(now.today)
    requires StatusOrPending(t.status) == Value("pending")
    requires t.date == Some(FormatDate(now.today))
    ensures ExpiresAt(t, now) <==> 0 < now.micros
  {
    CanonicalDateExpires(t, now.today, now);
    TodayIsAlreadyPast(now);
  }

  /** The outcome of a history pass so far, and the store it leaves. */
  datatype Pass = Pass(result: Attempt<seq<HistoryEntry>>, store: map<string, Trip>)

  /** One trip `t`, stored under `id`, in the history loop: a pass that has
      failed stays failed; a bare-string status fails it; an expiring trip
      is listed as `regret` and written back; any other trip is listed as
      stored. */
  function Visit(before: Pass, id: string, t: Trip, expires: bool, stamp: string): Pass {
    if before.result.Threw? then before
    else
      match StatusOrPending(t.status)
      case Threw(e) => Pass(Threw(e), before.store)
      case Value(_) =>
        if expires then
          Pass(Value(before.result.value + [Formatted(id, ShownAsRegret(t))]), before.store[id := Expire(t, stamp)])
        else
          Pass(Value(before.result.value + [Formatted(id, t)]), before.store)
  }

  /** The history loop over the matched keys `ids`, whose trips were read
      into `snap` by the query, each visited in turn; the keys in
      `expiring` are the ones whose trips expire. */
  function HistoryWalk(snap: map<string, Trip>, ids: seq<string>, expiring: set<string>, stamp: string): Pass
    requires AllStored(snap, ids)
  {
    if ids == [] then Pass(Value([]), snap)
    else
      var id := ids[|ids| - 1];
      Visit(HistoryWalk(snap, ids[..|ids| - 1], expiring, stamp), id, snap[id], id in expiring, stamp)
  }

  /** The history loop at the moment `now`. */
  function HistoryPass(snap: map<string, Trip>, ids: seq<string>, now: Clock, stamp: string): Pass
    requires AllStored(snap, ids)
  {
    HistoryWalk(snap, ids, ExpiringKeys(snap, now), stamp)
  }

  predicate NoStringStatus(trips: map<string, Trip>, ids: seq<string>) {
    forall i | 0 <= i < |ids| :: ids[i] in trips && !trips[ids[i]].status.Text?
  }

  /** What a history entry says about trip `t` stored under `id`: the
      top-level fields as stored, and the status either as `regret` with
      every other status field null (the trip expired on this read) or as
      the stored status document with absent keys null. */
  predicate Reports(e: HistoryEntry, id: string, t: Trip, expired: bool) {
    && e.bookingId == id
    && e.customerEmail == t.customerEmail
    && e.fromLocation == t.fromLocation
    && e.toLocation == t.toLocation
    && e.date == t.date
    && e.createdAt == t.createdAt
    && e.updatedAt == t.updatedAt
    && if expired then
         e.status == StatusView("regret", None, None, None, None, None, None)
       else
         var d := DocOf(t.status);
         && e.status.status == d.status.GetOr("pending")
         && e.status.driverEmail == d.driverEmail
         && e.status.driverName == d.driverName
         && e.status.driverPhone == d.driverPhone
         && e.status.vehicleNumber == d.vehicleNumber
         && e.status.assignedAt == d.assignedAt
         && e.status.completedAt == d.completedAt
  }

  /** Once the pass has failed on a prefix it has failed for good, with the
      store as the failure left it. */
  lemma {:induction false} HistoryStopsAtFailure(snap: map<string, Trip>, ids: seq<string>, n: nat,
                                                 expiring: set<string>, stamp: string)
    requires AllStored(snap, ids) && n <= |ids|
    requires HistoryWalk(snap, ids[..n], expiring, stamp).result.Threw?
    ensures HistoryWalk(snap, ids, expiring, stamp) == HistoryWalk(snap, ids[..n], expiring, stamp)
  {
    if n < |ids| {
      var init := ids[..|ids| - 1];
      assert init[..n] == ids[..n];
      HistoryStopsAtFailure(snap, init, n, expiring, stamp);
    } else {
      assert ids[..n] == ids;
    }
  }

  /** Whatever the outcome, a history pass keeps the store's keys and leaves
      every trip it was not asked about as it was. */
  lemma {:induction false} HistoryKeepsUnmatched(snap: map<string, Trip>, ids: seq<string>, expiring: set<string>, stamp: string)
    requires AllStored(snap, ids)
    ensures var s := HistoryWalk(snap, ids, expiring, stamp).store;
      && s.Keys == snap.Keys
      && forall k | k in snap && k !in ids :: s[k] == snap[k]
  {
    if ids != [] {
      var init := ids[..|ids| - 1];
      HistoryKeepsUnmatched(snap, init, expiring, stamp);
      assert forall k | k in init :: k in ids;
    }
  }

  /** Whatever the outcome, a history pass writes a trip only if it was asked
      about it and it was expiring, and then writes it only to `regret`. */
  lemma {:induction false} HistoryWritesOnlyExpired(snap: map<string, Trip>, ids: seq<string>, expiring: set<string>,
                                                    stamp: string, k: string)
    requires AllStored(snap, ids) && k in snap
    ensures var s := HistoryWalk(snap, ids, expiring, stamp).store;
      && k in s
      && (s[k] == snap[k] || (k in ids && k in expiring && s[k] == Expire(snap[k], stamp)))
  {
    HistoryKeepsUnmatched(snap, ids, expiring, stamp);
    if ids != [] {
      var init := ids[..|ids| - 1];
      HistoryWritesOnlyExpired(snap, init, expiring, stamp, k);
      if k in init {
        assert k in ids;
      }
    }
  }

  /** Whatever the outcome, a history pass keeps every trip well formed. */
  lemma HistoryKeepsWellFormed(snap: map<string, Trip>, ids: seq<string>, expiring: set<string>, stamp: string)
    requires AllStored(snap, ids) && forall k | k in snap :: WellFormed(snap[k])
    ensures var s := HistoryWalk(snap, ids, expiring, stamp).store;
      && s.Keys == snap.Keys
      && forall k | k in s :: WellFormed(s[k])
  {
    HistoryKeepsUnmatched(snap, ids, expiring, stamp);
    forall k | k in snap
      ensures WellFormed(HistoryWalk(snap, ids, expiring, stamp).store[k])
    {
      HistoryWritesOnlyExpired(snap, ids, expiring, stamp, k);
    }
  }

  /** When no matched trip has a bare-string status, the pass succeeds with
      one entry per matched key. */
  lemma {:induction false} HistorySucceeds(snap: map<string, Trip>, ids: seq<string>, expiring: set<string>, stamp: string)
    requires NoStringStatus(snap, ids)
    ensures AllStored(snap, ids)
    ensures var r := HistoryWalk(snap, ids, expiring, stamp).result;
      r.Value? && |r.value| == |ids|
  {
    if ids != [] {
      var init := ids[..|ids| - 1];
      assert NoStringStatus(snap, init);
      HistorySucceeds(snap, init, expiring, stamp);
    }
  }

  /** When no matched trip has a bare-string status, the entries are the
      matched keys in order, each reporting its trip. */
  lemma {:induction false} HistoryListsEveryTrip(snap: map<string, Trip>, ids: seq<string>, expiring: set<string>, stamp: string)
    requires NoStringStatus(snap, ids)
    ensures AllStored(snap, ids)
    ensures var r := HistoryWalk(snap, ids, expiring, stamp).result;
      && r.Value?
      && |r.value| == |ids|
      && forall j | 0 <= j < |ids| :: Reports(r.value[j], ids[j], snap[ids[j]], ids[j] in expiring)
  {
    HistorySucceeds(snap, ids, expiring, stamp);
    if ids != [] {
      var init := ids[..|ids| - 1];
      var id := ids[|ids| - 1];
      assert NoStringStatus(snap, init);
      HistoryListsEveryTrip(snap, init, expiring, stamp);
      var before := HistoryWalk(snap, init, expiring, stamp).result.value;
      var t := snap[id];
      var entry := if id in expiring then Formatted(id, ShownAsRegret(t)) else Formatted(id, t);
      assert HistoryWalk(snap, ids, expiring, stamp).result.value == before + [entry];
      assert Reports(entry, id, t, id in expiring);
    }
  }

  /** One more trip for a pass over distinct keys that has not failed so far:
      the trip is still as the query read it, and the pass goes on with a
      visit to it. */
  lemma HistoryNext(snap: map<string, Trip>, ids: seq<string>, i: nat, expiring: set<string>, stamp: string,
                    entries: seq<HistoryEntry>, store: map<string, Trip>)
    requires AllStored(snap, ids) && Distinct(ids) && i < |ids|
    requires HistoryWalk(snap, ids[..i], expiring, stamp) == Pass(Value(entries), store)
    ensures store.Keys == snap.Keys && store[ids[i]] == snap[ids[i]]
    ensures HistoryWalk(snap, ids[..i + 1], expiring, stamp)
         == Visit(Pass(Value(entries), store), ids[i], snap[ids[i]], ids[i] in expiring, stamp)
  {
    assert ids[..i + 1][..i] == ids[..i];
    HistoryKeepsUnmatched(snap, ids[..i], expiring, stamp);
    assert ids[i] !in ids[..i];
  }

  /** When no matched trip has a bare-string status, a trip of the store
      after the pass differs from the snapshot exactly when it was matched
      and expiring. */
  lemma {:induction false} HistoryStoreExact(snap: map<string, Trip>, ids: seq<string>, expiring: set<string>,
                                             stamp: string, k: string)
    requires NoStringStatus(snap, ids) && k in snap
    ensures AllStored(snap, ids)
    ensures var s := HistoryWalk(snap, ids, expiring, stamp).store;
      && k in s
      && s[k] == if k in ids && k in expiring then Expire(snap[k], stamp) else snap[k]
  {
    HistoryKeepsUnmatched(snap, ids, expiring, stamp);
    if ids != [] {
      var init := ids[..|ids| - 1];
      var id := ids[|ids| - 1];
      assert ids == init + [id];
      assert NoStringStatus(snap, init);
      HistoryStoreExact(snap, init, expiring, stamp, k);
      HistorySucceeds(snap, init, expiring, stamp);
      assert k in ids <==> k in init || k == id;
    }
  }

  /** The history read at the moment `now`, when no matched trip has a
      bare-string status: one entry per matched key, in order, each
      reporting its trip as expired exactly when `ExpiresAt` holds; in the
      store only the matched trips that expire are rewritten, to `regret`. */
  lemma HistoryAtNow(snap: map<string, Trip>, ids: seq<string>, now: Clock, stamp: string)
    requires NoStringStatus(snap, ids)
    ensures AllStored(snap, ids)
    ensures var p := HistoryPass(snap, ids, now, stamp);
      && p.result.Value? && |p.result.value| == |ids|
      && (forall j | 0 <= j < |ids| :: Reports(p.result.value[j], ids[j], snap[ids[j]], ExpiresAt(snap[ids[j]], now)))
      && p.store.Keys == snap.Keys
      && forall k | k in snap :: p.store[k] == if k in ids && ExpiresAt(snap[k], now) then Expire(snap[k], stamp) else snap[k]
  {
    var expiring := ExpiringKeys(snap, now);
    HistoryListsEveryTrip(snap, ids, expiring, stamp);
    HistoryKeepsUnmatched(snap, ids, expiring, stamp);
    forall k | k in snap
      ensures HistoryPass(snap, ids, now, stamp).store[k] == if k in ids && ExpiresAt(snap[k], now) then Expire(snap[k], stamp) else snap[k]
    {
      HistoryStoreExact(snap, ids, expiring, stamp, k);
    }
  }

  /** A matched trip whose status is a bare string makes the whole read fail
      with the `AttributeError` of `.get` on a string. */
  lemma {:induction false} HistoryFailsOnStringStatus(snap: map<string, Trip>, ids: seq<string>, expiring: set<string>, stamp: string)
    requires AllStored(snap, ids)
    requires !NoStringStatus(snap, ids)
    ensures HistoryWalk(snap, ids, expiring, stamp).result == Threw(StatusIsString)
  {
    var init := ids[..|ids| - 1];
    if NoStringStatus(snap, init) {
      HistorySucceeds(snap, init, expiring, stamp);
    } else {
      HistoryFailsOnStringStatus(snap, init, expiring, stamp);
    }
  }

  /** The customer's trips, in store order. */
  function CustomerTrips(trips: map<string, Trip>, order: seq<string>, email: string): seq<string> {
    EqualTo(trips, order, CustomerEmailChild, email)
  }

  /** After a history read the same query matches the same trips, and none
      of them has a bare-string status: expiry touches only the status
      document. */
  lemma {:induction false} RereadMatchesSameTrips(trips: map<string, Trip>, order: seq<string>, email: string,
                                                  now: Clock, stamp: string)
    requires NoStringStatus(trips, CustomerTrips(trips, order, email))
    ensures
      var ids := CustomerTrips(trips, order, email);
      var first := HistoryPass(trips, ids, now, stamp).store;
      && first.Keys == trips.Keys
      && CustomerTrips(first, order, email) == ids
      && NoStringStatus(first, ids)
  {
    var ids := CustomerTrips(trips, order, email);
    var e1 := ExpiringKeys(trips, now);
    var first := HistoryPass(trips, ids, now, stamp).store;
    HistoryKeepsUnmatched(trips, ids, e1, stamp);
    forall k | k in trips
      ensures first[k].customerEmail == trips[k].customerEmail && first[k].status.Text? == trips[k].status.Text?
    {
      HistoryWritesOnlyExpired(trips, ids, e1, stamp, k);
    }
    EqualToAgrees(trips, first, order, CustomerEmailChild, email);
  }

  /** Reading a customer's history a second time: every trip the first read
      expired is reported as `regret` and not written again. */
  lemma {:induction false} SecondReadFindsRegret(trips: map<string, Trip>, order: seq<string>, email: string,
                                                 now: Clock, stamp: string, later: Clock, laterStamp: string)
    requires NoStringStatus(trips, CustomerTrips(trips, order, email))
    ensures
      var ids := CustomerTrips(trips, order, email);
      var first := HistoryPass(trips, ids, now, stamp).store;
      && first.Keys == trips.Keys
      && AllStored(first, ids)
      && var second := HistoryPass(first, ids, later, laterStamp);
         && second.store.Keys == trips.Keys
         && second.result.Value? && |second.result.value| == |ids|
         && forall j | 0 <= j < |ids| && ExpiresAt(trips[ids[j]], now) ::
              second.store[ids[j]] == first[ids[j]] && second.result.value[j].status.status == "regret"
  {
    var ids := CustomerTrips(trips, order, email);
    var e1 := ExpiringKeys(trips, now);
    var first := HistoryPass(trips, ids, now, stamp).store;
    RereadMatchesSameTrips(trips, order, email, now, stamp);
    var e2 := ExpiringKeys(first, later);
    var second := HistoryPass(first, ids, later, laterStamp);
    HistoryListsEveryTrip(first, ids, e2, laterStamp);
    HistoryKeepsUnmatched(first, ids, e2, laterStamp);
    forall j | 0 <= j < |ids| && ExpiresAt(trips[ids[j]], now)
      ensures second.store[ids[j]] == first[ids[j]] && second.result.value[j].status.status == "regret"
    {
      var k := ids[j];
      HistoryStoreExact(trips, ids, e1, stamp, k);
      assert k !in e2;
      HistoryStoreExact(first, ids, e2, laterStamp, k);
    }
  }

  /** Reading a customer's history again at the same moment writes nothing. */
  lemma {:induction false} RereadAtSameMomentWritesNothing(trips: map<string, Trip>, order: seq<string>, email: string,
                                                           now: Clock, stamp: string, laterStamp: string)
    requires NoStringStatus(trips, CustomerTrips(trips, order, email))
    ensures
      var ids := CustomerTrips(trips, order, email);
      var first := HistoryPass(trips, ids, now, stamp).store;
      && first.Keys == trips.Keys
      && AllStored(first, ids)
      && HistoryPass(first, ids, now, laterStamp).store == first
  {
    var ids := CustomerTrips(trips, order, email);
    var e1 := ExpiringKeys(trips, now);
    var first := HistoryPass(trips, ids, now, stamp).store;
    RereadMatchesSameTrips(trips, order, email, now, stamp);
    var e2 := ExpiringKeys(first, now);
    var second := HistoryPass(first, ids, now, laterStamp).store;
    HistoryKeepsUnmatched(first, ids, e2, laterStamp);
    forall k | k in first
      ensures second[k] == first[k]
    {
      HistoryStoreExact(trips, ids, e1, stamp, k);
      HistoryStoreExact(first, ids, e2, laterStamp, k);
      if k in ids && k !in e1 {
        assert first[k] == trips[k] && !ExpiresAt(trips[k], now);
      }
    }
    assert second == first;
  }

  // ---------------------------------------------------------------------
  // Nearby trips

  /** The keys among `ids` whose stored status is literally `pending`; an
      absent status is not. */
  function PendingOnly(trips: map<string, Trip>, ids: seq<string>): (r: seq<string>)
    ensures forall k :: k in r <==> k in ids && k in trips && IsPending(trips[k].status) == Value(true)
    ensures AllStored(trips, r)
    ensures |r| <= |ids|
  {
    if ids == [] then []
    else
      var init := PendingOnly(trips, ids[..|ids| - 1]);
      var id := ids[|ids| - 1];
      assert ids == ids[..|ids| - 1] + [id];
      if id in trips && IsPending(trips[id].status) == Value(true) then init + [id] else init
  }

  /** The filter answers a concatenated list part by part, so it keeps the
      order of the keys it is given. */
  lemma {:induction false} PendingOnlyAppend(trips: map<string, Trip>, a: seq<string>, b: seq<string>)
    ensures PendingOnly(trips, a + b) == PendingOnly(trips, a) + PendingOnly(trips, b)
  {
    if b == [] {
      assert a + b == a;
    } else {
      var init := b[..|b| - 1];
      PendingOnlyAppend(trips, a, init);
      assert (a + b)[..|a + b| - 1] == a + init;
    }
  }

  function Summaries(trips: map<string, Trip>, ids: seq<string>): (r: seq<TripSummary>)
    requires AllStored(trips, ids)
    ensures |r| == |ids| && forall j | 0 <= j < |ids| :: r[j] == Summary(ids[j], trips[ids[j]])
  {
    seq(|ids|, j requires 0 <= j < |ids| => Summary(ids[j], trips[ids[j]]))
  }

  /** The nearby loop over the date-matched keys: each trip whose status is
      literally pending is summarised in turn; a bare-string status stops the
      loop with an `AttributeError`. */
  function NearbyScan(trips: map<string, Trip>, ids: seq<string>): Attempt<seq<TripSummary>>
    requires AllStored(trips, ids)
  {
    if ids == [] then Value([])
    else
      var id := ids[|ids| - 1];
      match NearbyScan(trips, ids[..|ids| - 1])
      case Threw(e) => Threw(e)
      case Value(found) =>
        match IsPending(trips[id].status)
        case Threw(e) => Threw(e)
        case Value(pending) => Value(if pending then found + [Summary(id, trips[id])] else found)
  }

  /** The scan fails exactly when some matched trip has a bare-string status,
      and otherwise answers the summaries of the literally pending trips, in
      order. */
  lemma {:induction false} NearbyScanIsFilter(trips: map<string, Trip>, ids: seq<string>)
    requires AllStored(trips, ids)
    ensures NearbyScan(trips, ids) ==
      if NoStringStatus(trips, ids) then Value(Summaries(trips, PendingOnly(trips, ids))) else Threw(StatusIsString)
  {
    if ids != [] {
      var init := ids[..|ids| - 1];
      var id := ids[|ids| - 1];
      assert ids == init + [id];
      NearbyScanIsFilter(trips, init);
      assert NoStringStatus(trips, ids) <==> NoStringStatus(trips, init) && !trips[id].status.Text?;
      if NoStringStatus(trips, ids) && IsPending(trips[id].status) == Value(true) {
        SummariesAppend(trips, PendingOnly(trips, init), id);
      }
    }
  }

  lemma SummariesAppend(trips: map<string, Trip>, ids: seq<string>, id: string)
    requires AllStored(trips, ids) && id in trips
    ensures AllStored(trips, ids + [id])
    ensures Summaries(trips, ids + [id]) == Summaries(trips, ids) + [Summary(id, trips[id])]
  {
  }

  /** The nearby answer lists exactly the trips stored with that date string
      whose status document says `pending`; an absent status is left out. */
  lemma NearbyExactly(trips: map<string, Trip>, order: seq<string>, date: string)
    ensures var ids := PendingOnly(trips, EqualTo(trips, order, DateChild, date));
      forall k :: k in ids <==>
        && k in order && k in trips
        && trips[k].date == Some(date)
        && trips[k].status.Doc? && trips[k].status.doc.status == Some("pending")
  {
    EqualToSelects(trips, order, DateChild, date);
  }

  // ---------------------------------------------------------------------
  // Status writes

  /** Python truthiness of an optional string: present and not empty. */
  predicate Truthy(v: Option<string>) {
    v.Some? && v.value != ""
  }

  /** `all([driver_email, driver_name, driver_phone, vehicle_number])`. */
  predicate DriverDetailsGiven(email: Option<string>, name: Option<string>, phone: Option<string>, vehicle: Option<string>) {
    Truthy(email) && Truthy(name) && Truthy(phone) && Truthy(vehicle)
  }

  /** The keys a status write adds beside `status` and `updated_at`. */
  function StatusExtraKeys(status: string): set<string> {
    if status == "driver_assigned" then {"driver_email", "driver_name", "driver_phone", "vehicle_number", "assigned_at"}
    else if status == "trip_completed" then {"completed_at"}
    else {}
  }

  /** The trip after a successful status write: `status` replaced at the top
      level by the bare string, `updated_at` stamped, the driver details and
      assignment time of an assignment or the completion time of a
      completion added beside them. */
  function StatusWritten(t: Trip, status: string, email: Option<string>, name: Option<string>, phone: Option<string>,
                         vehicle: Option<string>, stamp: string): Trip
    requires status == "driver_assigned" ==> DriverDetailsGiven(email, name, phone, vehicle)
  {
    var written := t.(status := Text(status), updatedAt := Some(stamp));
    if status == "driver_assigned" then
      written.(extra := t.extra["driver_email" := email.value]["driver_name" := name.value]
                               ["driver_phone" := phone.value]["vehicle_number" := vehicle.value]["assigned_at" := stamp])
    else if status == "trip_completed" then
      written.(extra := t.extra["completed_at" := stamp])
    else
      written
  }

  /** A status write sets the bare status string and the stamp, adds exactly
      the keys its status calls for with the request's values, and keeps
      every other field and key of the trip. */
  lemma StatusWriteChanges(t: Trip, status: string, email: Option<string>, name: Option<string>, phone: Option<string>,
                           vehicle: Option<string>, stamp: string)
    requires status == "driver_assigned" ==> DriverDetailsGiven(email, name, phone, vehicle)
    ensures var w := StatusWritten(t, status, email, name, phone, vehicle, stamp);
      && w.status == Text(status) && w.updatedAt == Some(stamp)
      && w.(status := t.status, updatedAt := t.updatedAt, extra := t.extra) == t
      && w.extra.Keys == t.extra.Keys + StatusExtraKeys(status)
      && (forall k | k in t.extra && k !in StatusExtraKeys(status) :: w.extra[k] == t.extra[k])
      && (status == "driver_assigned" ==>
            && w.extra["driver_email"] == email.value && w.extra["driver_name"] == name.value
            && w.extra["driver_phone"] == phone.value && w.extra["vehicle_number"] == vehicle.value
            && w.extra["assigned_at"] == stamp)
      && (status == "trip_completed" ==> w.extra["completed_at"] == stamp)
  {
  }

  /** A status write keeps a well-formed trip well formed: the keys it adds
      have no named field. */
  lemma StatusWriteKeepsWellFormed(t: Trip, status: string, email: Option<string>, name: Option<string>, phone: Option<string>,
                                   vehicle: Option<string>, stamp: string)
    requires status == "driver_assigned" ==> DriverDetailsGiven(email, name, phone, vehicle)
    requires WellFormed(t)
    ensures WellFormed(StatusWritten(t, status, email, name, phone, vehicle, stamp))
  {
    StatusExtraKeysAreNotRoot(status);
    var w := StatusWritten(t, status, email, name, phone, vehicle, stamp);
    assert w.extra.Keys == t.extra.Keys + StatusExtraKeys(status);
  }

  /** The pairs of a status write, in the order the request builds them. */
  function StatusPairs(status: string, email: Option<string>, name: Option<string>, phone: Option<string>,
                       vehicle: Option<string>, stamp: string): seq<(string, string)>
    requires status == "driver_assigned" ==> DriverDetailsGiven(email, name, phone, vehicle)
  {
    [("status", status), ("updated_at", stamp)] +
    if status == "driver_assigned" then
      [("driver_email", email.value), ("driver_name", name.value), ("driver_phone", phone.value),
       ("vehicle_number", vehicle.value), ("assigned_at", stamp)]
    else if status == "trip_completed" then [("completed_at", stamp)]
    else []
  }

  /** The keys a status write adds have no named field. */
  lemma StatusExtraKeysAreNotRoot(status: string)
    ensures StatusExtraKeys(status) !! RootKeys
  {
  }

  /** Merging the status write's pairs at the top level of a trip yields
      `StatusWritten`. */
  lemma {:induction false} StatusPairsWrite(t: Trip, status: string, email: Option<string>, name: Option<string>,
                                            phone: Option<string>, vehicle: Option<string>, stamp: string)
    requires status == "driver_assigned" ==> DriverDetailsGiven(email, name, phone, vehicle)
    ensures MergeIntoRoot(t, StatusPairs(status, email, name, phone, vehicle, stamp))
         == StatusWritten(t, status, email, name, phone, vehicle, stamp)
  {
    var p1 := [("status", status)];
    var p2 := p1 + [("updated_at", stamp)];
    var base := t.(status := Text(status), updatedAt := Some(stamp));
    assert p1 == [] + p1;
    MergeOneMore(t, [], "status", status);
    SetChildStatus(t, status);
    MergeOneMore(t, p1, "updated_at", stamp);
    SetChildUpdatedAt(t.(status := Text(status)), stamp);
    assert MergeIntoRoot(t, p2) == base;
    if status == "driver_assigned" {
      AssignmentPairsWrite(t, p2, base, email.value, name.value, phone.value, vehicle.value, stamp);
      assert p2 + [("driver_email", email.value), ("driver_name", name.value), ("driver_phone", phone.value),
                   ("vehicle_number", vehicle.value), ("assigned_at", stamp)]
          == StatusPairs(status, email, name, phone, vehicle, stamp);
    } else if status == "trip_completed" {
      StatusExtraKeysAreNotRoot(status);
      MergeExtra(t, p2, base, "completed_at", stamp);
      assert p2 + [("completed_at", stamp)] == StatusPairs(status, email, name, phone, vehicle, stamp);
    } else {
      assert p2 == StatusPairs(status, email, name, phone, vehicle, stamp);
    }
  }

  /** The five assignment keys merged after `status` and `updated_at`. */
  lemma AssignmentPairsWrite(t: Trip, pairs: seq<(string, string)>, base: Trip,
                             email: string, name: string, phone: string, vehicle: string, stamp: string)
    requires MergeIntoRoot(t, pairs) == base
    ensures MergeIntoRoot(t, pairs + [("driver_email", email), ("driver_name", name), ("driver_phone", phone),
                                      ("vehicle_number", vehicle), ("assigned_at", stamp)])
         == base.(extra := base.extra["driver_email" := email]["driver_name" := name]["driver_phone" := phone]
                                     ["vehicle_number" := vehicle]["assigned_at" := stamp])
  {
    StatusExtraKeysAreNotRoot("driver_assigned");
    var p3 := pairs + [("driver_email", email)];
    var p4 := p3 + [("driver_name", name)];
    var p5 := p4 + [("driver_phone", phone)];
    var p6 := p5 + [("vehicle_number", vehicle)];
    var e3 := base.extra["driver_email" := email];
    var e4 := e3["driver_name" := name];
    var e5 := e4["driver_phone" := phone];
    var e6 := e5["vehicle_number" := vehicle];
    MergeExtra(t, pairs, base, "driver_email", email);
    MergeExtra(t, p3, base.(extra := e3), "driver_name", name);
    MergeExtra(t, p4, base.(extra := e4), "driver_phone", phone);
    MergeExtra(t, p5, base.(extra := e5), "vehicle_number", vehicle);
    MergeExtra(t, p6, base.(extra := e6), "assigned_at", stamp);
    assert p6 + [("assigned_at", stamp)] == pairs + [("driver_email", email), ("driver_name", name), ("driver_phone", phone),
                                                     ("vehicle_number", vehicle), ("assigned_at", stamp)];
  }

  /** After a successful status write no handler can read the trip's status
      any more: the history read and the edit and delete guards all raise,
      and the trip never expires. */
  lemma StatusWriteHidesStatus(t: Trip, status: string, email: Option<string>, name: Option<string>, phone: Option<string>,
                               vehicle: Option<string>, stamp: string, now: Clock)
    requires status == "driver_assigned" ==> DriverDetailsGiven(email, name, phone, vehicle)
    ensures var w := StatusWritten(t, status, email, name, phone, vehicle, stamp);
      && StatusOrPending(w.status) == Threw(StatusIsString)
      && IsPending(w.status) == Threw(StatusIsString)
      && !ExpiresAt(w, now)
  {
  }
}
