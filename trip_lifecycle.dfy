/**
 * Booking a trip and changing its status. Fares are whole cents: a base fare
 * of 500, 150 per kilometre and 50 per minute.
 */
module TripController {
  import opened Wrappers
  import opened Lists
  import opened Models
  import opened Stores
  import opened BookTripRequest
  import opened TripService

  const BaseFareCents := 500
  const CentsPerKm := 150
  const CentsPerMinute := 50
  /** Duration stored on a booked trip whose request gives no estimate, in minutes. */
  const DefaultDurationMinutes := 30

  /** The fare breakdown adds up. */
  predicate FareConsistent(t: Trip) {
    t.totalFare == t.baseFare + t.distanceFare + t.timeFare
  }

  /** The columns a status update never writes are equal. */
  predicate SameBooking(a: Trip, b: Trip) {
    && a.id == b.id && a.userId == b.userId && a.driverId == b.driverId && a.vehicleId == b.vehicleId
    && a.origin == b.origin && a.destination == b.destination && a.scheduledAt == b.scheduledAt
    && a.baseFare == b.baseFare && a.paymentMethod == b.paymentMethod && a.createdAt == b.createdAt
  }

  /** The vehicle query of `book`: the first active vehicle of the driver whose type has the requested name. */
  function SelectVehicle(vehicles: seq<Vehicle>, driverId: nat, typeName: string): (r: Option<Vehicle>)
    ensures r.Some? <==> exists v :: v in vehicles && ActiveOfType(v, driverId, typeName)
    ensures r.Some? ==> exists i :: && 0 <= i < |vehicles| && vehicles[i] == r.value
                                    && ActiveOfType(r.value, driverId, typeName)
                                    && forall j :: 0 <= j < i ==> !ActiveOfType(vehicles[j], driverId, typeName)
  {
    if vehicles == [] then None
    else if ActiveOfType(vehicles[0], driverId, typeName) then Some(vehicles[0])
    else
      var r := SelectVehicle(vehicles[1..], driverId, typeName);
      assert forall v :: v in vehicles <==> v == vehicles[0] || v in vehicles[1..];
      assert r.Some? ==> exists i :: && 0 <= i < |vehicles| && vehicles[i] == r.value
                                     && forall j :: 0 <= j < i ==> !ActiveOfType(vehicles[j], driverId, typeName) by {
        if r.Some? {
          var i :| && 0 <= i < |vehicles[1..]| && vehicles[1..][i] == r.value
                   && forall j :: 0 <= j < i ==> !ActiveOfType(vehicles[1..][j], driverId, typeName);
          assert vehicles[i + 1] == r.value;
          assert forall j :: 1 <= j < i + 1 ==> vehicles[j] == vehicles[1..][j - 1];
        }
      }
      r
  }

  /** A request that passes the vehicle-type rule always finds its vehicle, and only such a request does. */
  lemma ValidationGuaranteesVehicle(req: BookingRequest, users: set<nat>, drivers: seq<Driver>,
                                    vehicleTypes: set<string>, vehicles: seq<Vehicle>, trips: seq<Trip>, now: int)
    ensures NoActiveVehicleOfType !in Validate(req, users, drivers, vehicleTypes, vehicles, trips, now)
        <==> SelectVehicle(vehicles, req.driverId, req.vehicleType).Some?
  {
  }

  /** The row `book` creates for a validated request and its chosen vehicle. */
  function NewTrip(req: BookingRequest, vehicle: Vehicle, id: nat, now: int): (t: Trip)
    ensures t.status == Scheduled && t.id == id && t.vehicleId == vehicle.id && t.createdAt == now
    ensures t.userId == req.userId && t.driverId == req.driverId && t.paymentMethod == req.paymentMethod
    ensures t.origin == req.origin && t.destination == req.destination && t.scheduledAt == req.scheduledAt
    ensures t.startedAt.None? && t.completedAt.None? && t.distanceKm.None?
    ensures t.baseFare == BaseFareCents && t.distanceFare == 0 && t.timeFare == 0 && t.totalFare == t.baseFare
    ensures FareConsistent(t)
    ensures t.durationMinutes == Some(if req.estimatedDurationMinutes.Some? then req.estimatedDurationMinutes.value
                                      else DefaultDurationMinutes)
  {
    Trip(id, req.userId, req.driverId, vehicle.id, Scheduled, req.origin, req.destination, req.scheduledAt,
         None, None, Some(req.estimatedDurationMinutes.GetOr(DefaultDurationMinutes)), None,
         BaseFareCents, 0, 0, BaseFareCents, req.paymentMethod, now)
  }

  /**
   * The trip after `updateStatus` to `target` at `now`, given the distance
   * drawn for a completion. The current status is not consulted. Every
   * transition keeps the booking columns, sets the status, and keeps the fare
   * breakdown adding up.
   */
  function Transition(t: Trip, target: TripStatus, now: int, distanceKm: int): (r: Trip)
    ensures r.status == target && SameBooking(t, r)
    ensures FareConsistent(t) ==> FareConsistent(r)
  {
    var relabelled := t.(status := target);
    match target
    case InProgress => relabelled.(startedAt := Some(now))
    case Completed =>
      var duration := if t.startedAt.Some? then Some(DiffInMinutes(t.startedAt.value, now) as int)
                      else t.durationMinutes;
      var distanceFare := CentsPerKm * distanceKm;
      var timeFare := CentsPerMinute * duration.GetOr(0);
      relabelled.(completedAt := Some(now), durationMinutes := duration, distanceKm := Some(distanceKm),
                  distanceFare := distanceFare, timeFare := timeFare,
                  totalFare := t.baseFare + distanceFare + timeFare)
    case _ => relabelled
  }

  /** Starting a trip stamps `started_at` and changes no other timestamp, duration, distance or fare. */
  lemma StartStampsOnly(t: Trip, now: int, km: int)
    ensures var r := Transition(t, InProgress, now, km);
      && r.startedAt == Some(now)
      && r.completedAt == t.completedAt && r.durationMinutes == t.durationMinutes && r.distanceKm == t.distanceKm
      && r.distanceFare == t.distanceFare && r.timeFare == t.timeFare && r.totalFare == t.totalFare
  {
  }

  /** Scheduling again or cancelling relabels the trip and touches nothing else. */
  lemma OtherTargetsOnlyRelabel(t: Trip, target: TripStatus, now: int, km: int)
    requires target == Scheduled || target == Cancelled
    ensures Transition(t, target, now, km) == t.(status := target)
  {
  }

  /**
   * Completing stamps `completed_at`, records the drawn distance, recomputes
   * the duration from `started_at` when the trip was started (keeping the
   * previous one otherwise), and recomputes the three fares so that they add up.
   */
  lemma CompletionRecomputesFares(t: Trip, now: int, km: int)
    requires 1 <= km <= 20
    ensures var r := Transition(t, Completed, now, km);
      && r.completedAt == Some(now)
      && r.distanceKm == Some(km)
      && r.distanceFare == CentsPerKm * km
      && CentsPerKm <= r.distanceFare <= 20 * CentsPerKm
      && r.startedAt == t.startedAt
      && (t.startedAt.None? ==> r.durationMinutes == t.durationMinutes)
      && (t.startedAt.Some? ==>
            var elapsed := if now >= t.startedAt.value then now - t.startedAt.value else t.startedAt.value - now;
            && r.durationMinutes.Some? && r.durationMinutes.value >= 0
            && 60 * r.durationMinutes.value <= elapsed < 60 * (r.durationMinutes.value + 1))
      && r.timeFare == CentsPerMinute * r.durationMinutes.GetOr(0)
      && FareConsistent(r)
  {
  }

  /**
   * Completing a completed trip is accepted and recomputes it: the second
   * distance and completion time replace the first, and a started trip's
   * duration is measured again.
   */
  lemma CompletingTwiceRecomputes(t: Trip, now1: int, km1: int, now2: int, km2: int)
    ensures var once := Transition(t, Completed, now1, km1);
      var twice := Transition(once, Completed, now2, km2);
      && twice.status == Completed
      && twice.completedAt == Some(now2)
      && twice.distanceKm == Some(km2)
      && twice.distanceFare == CentsPerKm * km2
      && (t.startedAt.None? ==> twice.durationMinutes == t.durationMinutes)
  {
  }

  /**
   * `book`: a request failing validation is answered 422; otherwise the first
   * matching vehicle is chosen (422 without one), the `scheduled` status row
   * must exist (500 without it), and a new scheduled trip is inserted and
   * answered 201. A failure while writing rolls back and answers 500.
   */
  method Book(db: Database, req: BookingRequest, now: int, writeFails: bool) returns (code: int, trip: Option<Trip>)
    requires db.Valid()
    modifies db
    ensures db.Valid()
    ensures var errors := Validate(req, old(db.users), old(db.drivers), old(db.vehicleTypes), old(db.vehicles),
                                   old(db.trips), now);
      var vehicle := SelectVehicle(old(db.vehicles), req.driverId, req.vehicleType);
      if errors != {} || vehicle.None? then code == 422 && trip.None? && db.trips == old(db.trips)
      else if Scheduled !in old(db.statuses) || writeFails then code == 500 && trip.None? && db.trips == old(db.trips)
      else
        && code == 201
        && trip == Some(NewTrip(req, vehicle.value, old(db.nextTripId), now))
        && db.trips == old(db.trips) + [trip.value]
    ensures db.drivers == old(db.drivers) && db.vehicles == old(db.vehicles) && db.users == old(db.users)
    ensures db.vehicleTypes == old(db.vehicleTypes) && db.statuses == old(db.statuses)
    ensures db.nextTripId == if code == 201 then old(db.nextTripId) + 1 else old(db.nextTripId)
  {
    var errors := Validate(req, db.users, db.drivers, db.vehicleTypes, db.vehicles, db.trips, now);
    if errors != {} {
      return 422, None;
    }
    var vehicle := SelectVehicle(db.vehicles, req.driverId, req.vehicleType);
    if vehicle.None? {
      return 422, None;
    }
    if Scheduled !in db.statuses || writeFails {
      return 500, None;
    }
    var t := NewTrip(req, vehicle.value, db.nextTripId, now);
    db.InsertTrip(t);
    return 201, Some(t);
  }

  /**
   * `updateStatus`: an unknown trip is answered 404 and a status name with no
   * row 422, both without change. Otherwise the trip is transitioned, saved,
   * the driver's two active-trip keys and the user's history key are
   * forgotten, and the answer is 200. A failure while saving rolls back and
   * answers 500 without change.
   */
  method UpdateStatus(db: Database, kv: KeyValueStore, tripId: nat, statusName: string, now: int, distanceKm: int,
                      saveFails: bool) returns (code: int)
    requires db.Valid() && kv.Valid()
    requires 1 <= distanceKm <= 20
    modifies db, kv
    ensures db.Valid() && kv.Valid()
    ensures var found := old(db.FindTrip(tripId));
      var status := ParseStatus(statusName);
      if found.None? then code == 404 && db.trips == old(db.trips) && kv.entries == old(kv.entries)
      else if status.None? || status.value !in old(db.statuses) then
        code == 422 && db.trips == old(db.trips) && kv.entries == old(kv.entries)
      else if saveFails then code == 500 && db.trips == old(db.trips) && kv.entries == old(kv.entries)
      else
        && code == 200
        && db.trips == SavedTrip(old(db.trips), Transition(found.value, status.value, now, distanceKm))
        && kv.entries == old(kv.entries) - {DriverActiveTripsKey(found.value.driverId),
                                            DriverActiveTripsEloquentKey(found.value.driverId),
                                            UserTripHistoryKey(found.value.userId)}
    ensures db.drivers == old(db.drivers) && db.vehicles == old(db.vehicles) && db.users == old(db.users)
    ensures db.vehicleTypes == old(db.vehicleTypes) && db.statuses == old(db.statuses)
    ensures db.nextTripId == old(db.nextTripId)
    ensures kv.locations == old(kv.locations) && kv.availability == old(kv.availability)
  {
    var found := db.FindTrip(tripId);
    if found.None? {
      return 404;
    }
    var status := ParseStatus(statusName);
    if status.None? || status.value !in db.statuses {
      return 422;
    }
    if saveFails {
      return 500;
    }
    var t := Transition(found.value, status.value, now, distanceKm);
    db.SaveTrip(t);
    InvalidateDriverActiveTripsCache(kv, t.driverId);
    InvalidateUserTripHistoryCache(kv, t.userId);
    return 200;
  }

  /** Saving a transition changes the row of that trip alone, and keeps every other row. */
  lemma {:induction false} SaveChangesOnlyThatTrip(trips: seq<Trip>, t: Trip, target: TripStatus, now: int, km: int)
    requires DistinctBy(trips, TripId)
    requires t in trips
    ensures var saved := SavedTrip(trips, Transition(t, target, now, km));
      && |saved| == |trips|
      && Transition(t, target, now, km) in saved
      && forall i :: 0 <= i < |trips| && trips[i] != t ==> saved[i] == trips[i]
  {
    var k :| 0 <= k < |trips| && trips[k] == t;
    var saved := SavedTrip(trips, Transition(t, target, now, km));
    assert saved[k] == Transition(t, target, now, km);
    forall i | 0 <= i < |trips| && trips[i] != t ensures saved[i] == trips[i] {
      if i < k {
        assert TripId(trips[i]) != TripId(trips[k]);
      } else if i > k {
        assert TripId(trips[k]) != TripId(trips[i]);
      }
    }
  }
}
