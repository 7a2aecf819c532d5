/** The trip lifecycle service: the five request handlers, each a method on
    the `/trips` node of the store. Every handler checks the authorization
    header before it touches the store, and answers any exception raised
    after that with a 500 that embeds the exception's message. */
module TripService {
  import opened Options
  import opened TripDates
  import opened TripRecords
  import opened TripRules

  /** The `/trips` node: every trip by booking id, and the order in which the
      store lists the keys. */
  class TripStore {
    var trips: map<string, Trip>
    var order: seq<string>

    ghost predicate Valid()
      reads this
    {
      && Distinct(order)
      && (forall k :: k in order <==> k in trips)
      && (forall k | k in trips :: WellFormed(trips[k]))
    }

    /** The store as the rest of the system left it; trips are created
        elsewhere. */
    constructor (initial: map<string, Trip>, listing: seq<string>)
      requires Distinct(listing) && (forall k :: k in listing <==> k in initial)
      requires forall k | k in initial :: WellFormed(initial[k])
      ensures Valid() && trips == initial && order == listing
    {
      trips := initial;
      order := listing;
    }

    /** GET /get-trip-history: the customer's trips in store order, each
        pending trip whose date has passed first rewritten to `regret`. */
    method GetTripHistory(email: string, authorization: Option<string>, now: Clock, stamp: string)
      returns (r: Response<seq<HistoryEntry>>)
      requires Valid()
      modifies this
      ensures Valid() && order == old(order)
      ensures !Authorized(authorization) ==> r == Unauthorized() && trips == old(trips)
      ensures Authorized(authorization) ==>
        var ids := CustomerTrips(old(trips), old(order), email);
        && AllStored(old(trips), ids)
        && var p := HistoryPass(old(trips), ids, now, stamp);
        && trips == p.store
        && r == match p.result
                case Value(entries) => Success(entries)
                case Threw(e) => Rewrapped(HistoryFailed, e)
    {
      if !Authorized(authorization) {
        return Unauthorized();
      }
      var ids := CustomerTrips(trips, order, email);
      EqualToSelects(trips, order, CustomerEmailChild, email);
      var snap := trips;
      if ids == [] {
        return Success([]);
      }
      ghost var expiring := ExpiringKeys(snap, now);
      var formatted: seq<HistoryEntry> := [];
      var i := 0;
      while i < |ids|
        invariant 0 <= i <= |ids| && order == old(order)
        invariant HistoryWalk(snap, ids[..i], expiring, stamp) == Pass(Value(formatted), trips)
      {
        var id := ids[i];
        var tripData := snap[id];
        HistoryNext(snap, ids, i, expiring, stamp, formatted, trips);
        ghost var next := Visit(Pass(Value(formatted), trips), id, tripData, id in expiring, stamp);
        var bookingDate := if tripData.date.Some? then ParseDate(tripData.date.value) else None;
        var statusVal: string;
        match StatusOrPending(tripData.status) {
          case Threw(e) =>
            HistoryStopsAtFailure(snap, ids, i + 1, expiring, stamp);
            HistoryKeepsWellFormed(snap, ids, expiring, stamp);
            return Rewrapped(HistoryFailed, e);
          case Value(v) =>
            statusVal := v;
        }
        if bookingDate.Some? && MidnightBefore(bookingDate.value, now) && statusVal == "pending" {
          assert id in expiring;
          trips := trips[id := Expire(trips[id], stamp)];
          tripData := ShownAsRegret(tripData);
        } else {
          assert id !in expiring;
        }
        formatted := formatted + [Formatted(id, tripData)];
        assert Pass(Value(formatted), trips) == next;
        i := i + 1;
      }
      assert ids[..i] == ids;
      HistoryKeepsWellFormed(snap, ids, expiring, stamp);
      r := Success(formatted);
    }

    /** POST /update-trip-status: writes the new status, unchecked, at the top
        level of the trip, with the driver details for an assignment and the
        completion time for a completion. */
    method UpdateTripStatus(bookingId: string, status: string,
                            driverEmail: Option<string>, driverName: Option<string>,
                            driverPhone: Option<string>, vehicleNumber: Option<string>,
                            authorization: Option<string>, stamp: string)
      returns (r: Response<string>)
      requires Valid()
      modifies this
      ensures Valid() && order == old(order)
      ensures !Authorized(authorization) ==> r == Unauthorized() && trips == old(trips)
      ensures Authorized(authorization) && !Found(old(trips), bookingId) ==>
        r == Rewrapped(StatusUpdateFailed, TripNotFound) && trips == old(trips)
      ensures Authorized(authorization) && Found(old(trips), bookingId) && status == "driver_assigned"
              && !DriverDetailsGiven(driverEmail, driverName, driverPhone, vehicleNumber) ==>
        r == Rewrapped(StatusUpdateFailed, DriverDetailsRequired) && trips == old(trips)
      ensures Authorized(authorization) && Found(old(trips), bookingId)
              && (status == "driver_assigned" ==> DriverDetailsGiven(driverEmail, driverName, driverPhone, vehicleNumber)) ==>
        && r == Success("Trip status updated successfully")
        && trips == old(trips)[bookingId := StatusWritten(old(trips)[bookingId], status, driverEmail, driverName,
                                                          driverPhone, vehicleNumber, stamp)]
    {
      if !Authorized(authorization) {
        return Unauthorized();
      }
      if bookingId !in trips || trips[bookingId] == EmptyTrip {
        return Rewrapped(StatusUpdateFailed, TripNotFound);
      }
      var tripData := trips[bookingId];
      var statusUpdate := [("status", status), ("updated_at", stamp)];
      if status == "driver_assigned" {
        if !DriverDetailsGiven(driverEmail, driverName, driverPhone, vehicleNumber) {
          return Rewrapped(StatusUpdateFailed, DriverDetailsRequired);
        }
        statusUpdate := statusUpdate + [("driver_email", driverEmail.value), ("driver_name", driverName.value),
                                        ("driver_phone", driverPhone.value), ("vehicle_number", vehicleNumber.value),
                                        ("assigned_at", stamp)];
      } else if status == "trip_completed" {
        statusUpdate := statusUpdate + [("completed_at", stamp)];
      }
      assert statusUpdate == StatusPairs(status, driverEmail, driverName, driverPhone, vehicleNumber, stamp);
      StatusPairsWrite(tripData, status, driverEmail, driverName, driverPhone, vehicleNumber, stamp);
      StatusWriteKeepsWellFormed(tripData, status, driverEmail, driverName, driverPhone, vehicleNumber, stamp);
      trips := trips[bookingId := MergeIntoRoot(tripData, statusUpdate)];
      r := Success("Trip status updated successfully");
    }

    /** GET /find-nearby-trips: the trips booked for exactly that date string
        whose status document says `pending`, as summaries. The requester's
        location is not used. */
    method FindNearbyTrips(fromLocation: string, date: string, authorization: Option<string>)
      returns (r: Response<seq<TripSummary>>)
      ensures !Authorized(authorization) ==> r == Unauthorized()
      ensures Authorized(authorization) ==>
        var ids := EqualTo(trips, order, DateChild, date);
        r == if NoStringStatus(trips, ids) then Success(Summaries(trips, PendingOnly(trips, ids)))
             else Rewrapped(NearbyFailed, StatusIsString)
    {
      if !Authorized(authorization) {
        return Unauthorized();
      }
      var ids := EqualTo(trips, order, DateChild, date);
      EqualToSelects(trips, order, DateChild, date);
      if ids == [] {
        return Success([]);
      }
      var nearby: seq<TripSummary> := [];
      var i := 0;
      while i < |ids|
        invariant 0 <= i <= |ids|
        invariant NearbyScan(trips, ids[..i]) == Value(nearby)
      {
        var id := ids[i];
        var tripData := trips[id];
        assert ids[..i + 1][..i] == ids[..i];
        match IsPending(tripData.status) {
          case Threw(e) =>
            NearbyScanIsFilter(trips, ids);
            assert !NoStringStatus(trips, ids) by {
              assert ids[i] in trips && trips[ids[i]].status.Text?;
            }
            return Rewrapped(NearbyFailed, e);
          case Value(pending) =>
            if pending {
              nearby := nearby + [Summary(id, tripData)];
            }
        }
        i := i + 1;
      }
      assert ids[..i] == ids;
      NearbyScanIsFilter(trips, ids);
      r := Success(nearby);
    }

    /** PUT /edit-trip/{trip_id}: a pending trip gets new locations and date. */
    method EditTrip(tripId: string, update: TripUpdate, authorization: Option<string>, stamp: string)
      returns (r: Response<string>)
      requires Valid()
      modifies this
      ensures Valid() && order == old(order)
      ensures !Authorized(authorization) ==> r == Unauthorized() && trips == old(trips)
      ensures Authorized(authorization) && !Found(old(trips), tripId) ==>
        r == Rewrapped(EditFailed, TripNotFound) && trips == old(trips)
      ensures Authorized(authorization) && Found(old(trips), tripId) ==>
        var t := old(trips)[tripId];
        match IsPending(t.status)
        case Threw(e) => r == Rewrapped(EditFailed, e) && trips == old(trips)
        case Value(false) => r == Rewrapped(EditFailed, EditNeedsPending) && trips == old(trips)
        case Value(true) =>
          && r == Success("Trip updated successfully")
          && trips == old(trips)[tripId := t.(fromLocation := Some(update.fromLocation),
                                              toLocation := Some(update.toLocation),
                                              date := Some(update.date),
                                              updatedAt := Some(stamp))]
    {
      if !Authorized(authorization) {
        return Unauthorized();
      }
      if tripId !in trips || trips[tripId] == EmptyTrip {
        return Rewrapped(EditFailed, TripNotFound);
      }
      var tripData := trips[tripId];
      match IsPending(tripData.status) {
        case Threw(e) =>
          return Rewrapped(EditFailed, e);
        case Value(pending) =>
          if !pending {
            return Rewrapped(EditFailed, EditNeedsPending);
          }
      }
      var changes: seq<(string, string)> := [];
      MergeOneMore(tripData, changes, "from_location", update.fromLocation);
      changes := changes + [("from_location", update.fromLocation)];
      MergeOneMore(tripData, changes, "to_location", update.toLocation);
      changes := changes + [("to_location", update.toLocation)];
      MergeOneMore(tripData, changes, "date", update.date);
      changes := changes + [("date", update.date)];
      MergeOneMore(tripData, changes, "updated_at", stamp);
      changes := changes + [("updated_at", stamp)];
      trips := trips[tripId := MergeIntoRoot(tripData, changes)];
      r := Success("Trip updated successfully");
    }

    /** DELETE /delete-trip/{trip_id}: a pending trip is removed from the store. */
    method DeleteTrip(tripId: string, authorization: Option<string>)
      returns (r: Response<string>)
      requires Valid()
      modifies this
      ensures Valid()
      ensures !Authorized(authorization) ==> r == Unauthorized() && trips == old(trips) && order == old(order)
      ensures Authorized(authorization) && !Found(old(trips), tripId) ==>
        r == Rewrapped(DeleteFailed, TripNotFound) && trips == old(trips) && order == old(order)
      ensures Authorized(authorization) && Found(old(trips), tripId) ==>
        match IsPending(old(trips)[tripId].status)
        case Threw(e) => r == Rewrapped(DeleteFailed, e) && trips == old(trips) && order == old(order)
        case Value(false) => r == Rewrapped(DeleteFailed, DeleteNeedsPending) && trips == old(trips) && order == old(order)
        case Value(true) =>
          && r == Success("Trip deleted successfully")
          && trips == old(trips) - {tripId}
          && order == Without(old(order), tripId)
    {
      if !Authorized(authorization) {
        return Unauthorized();
      }
      if tripId !in trips || trips[tripId] == EmptyTrip {
        return Rewrapped(DeleteFailed, TripNotFound);
      }
      var tripData := trips[tripId];
      match IsPending(tripData.status) {
        case Threw(e) =>
          return Rewrapped(DeleteFailed, e);
        case Value(pending) =>
          if !pending {
            return Rewrapped(DeleteFailed, DeleteNeedsPending);
          }
      }
      trips := trips - {tripId};
      order := Without(order, tripId);
      r := Success("Trip deleted successfully");
    }
  }
}
