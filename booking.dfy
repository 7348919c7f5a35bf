/**
 * The validation rules of a booking request: the field ranges, the driver
 * and vehicle-type closures, and the overlapping-trip closure. Instants are
 * whole seconds; durations are whole minutes.
 */
module BookTripRequest {
  import opened Wrappers
  import opened Lists
  import opened Models

  /** Assumed length of a trip whose request gives no estimate, in minutes. */
  const DefaultEstimatedMinutes := 30
  const MaxAddressLength := 255
  const PaymentMethods: set<string> := {"cash", "credit_card", "paypal"}

  datatype BookingRequest = BookingRequest(
    userId: nat,
    driverId: nat,
    vehicleType: string,
    origin: Place,
    destination: Place,
    scheduledAt: int,
    estimatedDurationMinutes: Option<int>,
    paymentMethod: string)

  /** One failed rule; a request is rejected with 422 when any rule fails. */
  datatype BookingError =
    | UnknownUser
    | UnknownDriver
    | DriverNotAvailable
    | UnknownVehicleType
    | NoActiveVehicleOfType
    | OriginAddressTooLong
    | OriginLatitudeOutOfRange
    | OriginLongitudeOutOfRange
    | DestinationAddressTooLong
    | DestinationLatitudeOutOfRange
    | DestinationLongitudeOutOfRange
    | ScheduledInThePast
    | OverlappingTrip
    | InvalidEstimatedDuration
    | InvalidPaymentMethod

  /** The end of the proposed window: the start plus the estimate, or half an hour without one. */
  function ProposedEnd(req: BookingRequest): (e: int)
    ensures req.estimatedDurationMinutes.None? ==> e == req.scheduledAt + 60 * DefaultEstimatedMinutes
    ensures req.estimatedDurationMinutes.Some? ==> e - req.scheduledAt == 60 * req.estimatedDurationMinutes.value
  {
    req.scheduledAt + 60 * req.estimatedDurationMinutes.GetOr(DefaultEstimatedMinutes)
  }

  /** Trips in these states hold their driver; completed and cancelled trips do not. */
  predicate Blocking(t: Trip) {
    t.status == Scheduled || t.status == InProgress
  }

  function TripEnd(t: Trip): int
    requires t.durationMinutes.Some?
  {
    t.scheduledAt + 60 * t.durationMinutes.value
  }

  /** The three alternatives of the overlap query, for a proposed window [s, e]. */
  predicate OverlapBranches(t: Trip, s: int, e: int) {
    t.durationMinutes.Some? &&
    (|| (t.scheduledAt <= s && TripEnd(t) >= s)
     || (t.scheduledAt <= e && TripEnd(t) >= e)
     || (t.scheduledAt >= s && TripEnd(t) <= e))
  }

  /** Trip `t` is counted by the overlap query for `driverId` and window [s, e]. */
  predicate Conflicts(t: Trip, driverId: nat, s: int, e: int) {
    t.driverId == driverId && OverlapBranches(t, s, e) && Blocking(t)
  }

  /** The number of rows the overlap query counts. */
  function CountOverlapping(trips: seq<Trip>, driverId: nat, s: int, e: int): (n: nat)
    ensures n <= |trips|
    ensures n > 0 <==> exists t :: t in trips && Conflicts(t, driverId, s, e)
  {
    if trips == [] then 0
    else
      assert forall t :: t in trips <==> t == trips[0] || t in trips[1..];
      (if Conflicts(trips[0], driverId, s, e) then 1 else 0) + CountOverlapping(trips[1..], driverId, s, e)
  }

  /** `Driver::find`: the row with that id, if any. */
  function FindDriver(drivers: seq<Driver>, id: nat): (r: Option<Driver>)
    ensures r.Some? ==> r.value in drivers && r.value.id == id
    ensures r.None? ==> forall d :: d in drivers ==> d.id != id
  {
    var found := Filter(drivers, (d: Driver) => d.id == id);
    if found == [] then None else assert found[0] in found; Some(found[0])
  }

  predicate ActiveOfType(v: Vehicle, driverId: nat, typeName: string) {
    v.driverId == driverId && v.typeName == typeName && v.isActive
  }

  /** The vehicle query of the request: does the driver own an active vehicle of that type? */
  function HasActiveVehicleOfType(vehicles: seq<Vehicle>, driverId: nat, typeName: string): (b: bool)
    ensures b <==> exists v :: v in vehicles && ActiveOfType(v, driverId, typeName)
  {
    var found := Filter(vehicles, (v: Vehicle) => ActiveOfType(v, driverId, typeName));
    assert found != [] ==> found[0] in found;
    found != []
  }

  predicate InRange(x: real, bound: real) {
    -bound <= x <= bound
  }

  /** The driver closure and `exists:drivers,id`. */
  function DriverErrors(req: BookingRequest, drivers: seq<Driver>): (errors: set<BookingError>)
    ensures errors <= {UnknownDriver, DriverNotAvailable}
    ensures UnknownDriver in errors <==> forall d :: d in drivers ==> d.id != req.driverId
    ensures DistinctBy(drivers, DriverId) ==>
      (DriverNotAvailable in errors <==> !exists d :: d in drivers && d.id == req.driverId && d.isAvailable)
  {
    var driver := FindDriver(drivers, req.driverId);
    assert DistinctBy(drivers, DriverId) && driver.Some? ==>
      (driver.value.isAvailable <==> exists d :: d in drivers && d.id == req.driverId && d.isAvailable) by {
      if DistinctBy(drivers, DriverId) && driver.Some? {
        FoundIsTheOnlyOne(drivers, driver.value);
      }
    }
    (if driver.None? then {UnknownDriver} else {})
    + (if driver.None? || !driver.value.isAvailable then {DriverNotAvailable} else {})
  }

  /** The vehicle-type closure and `exists:vehicle_types,name`. */
  function VehicleErrors(req: BookingRequest, vehicleTypes: set<string>, vehicles: seq<Vehicle>)
    : (errors: set<BookingError>)
    ensures errors <= {UnknownVehicleType, NoActiveVehicleOfType}
    ensures UnknownVehicleType in errors <==> req.vehicleType !in vehicleTypes
    ensures NoActiveVehicleOfType in errors <==>
      !exists v :: v in vehicles && ActiveOfType(v, req.driverId, req.vehicleType)
  {
    (if req.vehicleType !in vehicleTypes then {UnknownVehicleType} else {})
    + (if !HasActiveVehicleOfType(vehicles, req.driverId, req.vehicleType) then {NoActiveVehicleOfType} else {})
  }

  /** The address length and coordinate ranges of the pickup and destination. */
  function PlaceErrors(req: BookingRequest): (errors: set<BookingError>)
    ensures errors <= {OriginAddressTooLong, OriginLatitudeOutOfRange, OriginLongitudeOutOfRange,
                       DestinationAddressTooLong, DestinationLatitudeOutOfRange, DestinationLongitudeOutOfRange}
    ensures OriginLatitudeOutOfRange in errors <==> !(-90.0 <= req.origin.lat <= 90.0)
    ensures OriginLongitudeOutOfRange in errors <==> !(-180.0 <= req.origin.lng <= 180.0)
    ensures DestinationLatitudeOutOfRange in errors <==> !(-90.0 <= req.destination.lat <= 90.0)
    ensures DestinationLongitudeOutOfRange in errors <==> !(-180.0 <= req.destination.lng <= 180.0)
    ensures OriginAddressTooLong in errors <==> |req.origin.address| > 255
    ensures DestinationAddressTooLong in errors <==> |req.destination.address| > 255
  {
    (if |req.origin.address| > MaxAddressLength then {OriginAddressTooLong} else {})
    + (if !InRange(req.origin.lat, 90.0) then {OriginLatitudeOutOfRange} else {})
    + (if !InRange(req.origin.lng, 180.0) then {OriginLongitudeOutOfRange} else {})
    + (if |req.destination.address| > MaxAddressLength then {DestinationAddressTooLong} else {})
    + (if !InRange(req.destination.lat, 90.0) then {DestinationLatitudeOutOfRange} else {})
    + (if !InRange(req.destination.lng, 180.0) then {DestinationLongitudeOutOfRange} else {})
  }

  /** `after_or_equal:now`, the overlap closure, the estimate's minimum and the payment methods. */
  function ScheduleErrors(req: BookingRequest, trips: seq<Trip>, now: int): (errors: set<BookingError>)
    ensures errors <= {ScheduledInThePast, OverlappingTrip, InvalidEstimatedDuration, InvalidPaymentMethod}
    ensures ScheduledInThePast in errors <==> req.scheduledAt < now
    ensures OverlappingTrip in errors <==>
      exists t :: t in trips && Conflicts(t, req.driverId, req.scheduledAt, ProposedEnd(req))
    ensures InvalidEstimatedDuration in errors <==>
      req.estimatedDurationMinutes.Some? && req.estimatedDurationMinutes.value < 1
    ensures InvalidPaymentMethod in errors <==> req.paymentMethod !in PaymentMethods
  {
    (if req.scheduledAt < now then {ScheduledInThePast} else {})
    + (if CountOverlapping(trips, req.driverId, req.scheduledAt, ProposedEnd(req)) > 0 then {OverlappingTrip} else {})
    + (if req.estimatedDurationMinutes.Some? && req.estimatedDurationMinutes.value < 1
       then {InvalidEstimatedDuration} else {})
    + (if req.paymentMethod !in PaymentMethods then {InvalidPaymentMethod} else {})
  }

  /** Every rule of the request that fails; the request passes when none does. */
  function Validate(req: BookingRequest, users: set<nat>, drivers: seq<Driver>, vehicleTypes: set<string>,
                    vehicles: seq<Vehicle>, trips: seq<Trip>, now: int): (errors: set<BookingError>)
    ensures UnknownUser in errors <==> req.userId !in users
    ensures DistinctBy(drivers, DriverId) ==>
      (DriverNotAvailable in errors <==> !exists d :: d in drivers && d.id == req.driverId && d.isAvailable)
    ensures NoActiveVehicleOfType in errors <==>
      !exists v :: v in vehicles && ActiveOfType(v, req.driverId, req.vehicleType)
    ensures OverlappingTrip in errors <==>
      exists t :: t in trips && Conflicts(t, req.driverId, req.scheduledAt, ProposedEnd(req))
  {
    var driverErrors, vehicleErrors := DriverErrors(req, drivers), VehicleErrors(req, vehicleTypes, vehicles);
    var placeErrors, scheduleErrors := PlaceErrors(req), ScheduleErrors(req, trips, now);
    assert NoActiveVehicleOfType !in placeErrors && NoActiveVehicleOfType !in scheduleErrors;
    assert NoActiveVehicleOfType !in driverErrors && DriverNotAvailable !in vehicleErrors;
    assert DriverNotAvailable !in placeErrors && DriverNotAvailable !in scheduleErrors;
    assert OverlappingTrip !in placeErrors && OverlappingTrip !in driverErrors && OverlappingTrip !in vehicleErrors;
    assert UnknownUser !in driverErrors && UnknownUser !in vehicleErrors;
    assert UnknownUser !in placeErrors && UnknownUser !in scheduleErrors;
    (if req.userId !in users then {UnknownUser} else {})
    + driverErrors + vehicleErrors + placeErrors + scheduleErrors
  }

  /**
   * Every rule of the request holds, each stated on its own: the user exists,
   * the driver exists and is available, the type exists and the driver owns an
   * active vehicle of it, both places have short addresses and coordinates in
   * range, the start is not in the past and overlaps no blocking trip of the
   * driver, an estimate is at least one minute, and the payment method is known.
   */
  ghost predicate PassesEveryRule(req: BookingRequest, users: set<nat>, drivers: seq<Driver>,
                                  vehicleTypes: set<string>, vehicles: seq<Vehicle>, trips: seq<Trip>, now: int) {
    && req.userId in users
    && (exists d :: d in drivers && d.id == req.driverId && d.isAvailable)
    && req.vehicleType in vehicleTypes
    && (exists v :: v in vehicles && ActiveOfType(v, req.driverId, req.vehicleType))
    && |req.origin.address| <= 255 && -90.0 <= req.origin.lat <= 90.0 && -180.0 <= req.origin.lng <= 180.0
    && |req.destination.address| <= 255
    && -90.0 <= req.destination.lat <= 90.0 && -180.0 <= req.destination.lng <= 180.0
    && req.scheduledAt >= now
    && !(exists t :: t in trips && Conflicts(t, req.driverId, req.scheduledAt, ProposedEnd(req)))
    && (req.estimatedDurationMinutes.Some? ==> req.estimatedDurationMinutes.value >= 1)
    && req.paymentMethod in PaymentMethods
  }

  /** With unique driver ids, a request is accepted exactly when every rule holds. */
  lemma AcceptedIffEveryRuleHolds(req: BookingRequest, users: set<nat>, drivers: seq<Driver>,
                                  vehicleTypes: set<string>, vehicles: seq<Vehicle>, trips: seq<Trip>, now: int)
    requires DistinctBy(drivers, DriverId)
    ensures Validate(req, users, drivers, vehicleTypes, vehicles, trips, now) == {}
        <==> PassesEveryRule(req, users, drivers, vehicleTypes, vehicles, trips, now)
  {
    NoErrorsIffNoneInAnyPart(req, users, drivers, vehicleTypes, vehicles, trips, now);
    var d := DriverErrors(req, drivers);
    assert d == {} <==> UnknownDriver !in d && DriverNotAvailable !in d;
    var v := VehicleErrors(req, vehicleTypes, vehicles);
    assert v == {} <==> UnknownVehicleType !in v && NoActiveVehicleOfType !in v;
    var p := PlaceErrors(req);
    assert p == {} <==> && OriginAddressTooLong !in p && OriginLatitudeOutOfRange !in p
                        && OriginLongitudeOutOfRange !in p && DestinationAddressTooLong !in p
                        && DestinationLatitudeOutOfRange !in p && DestinationLongitudeOutOfRange !in p;
    var s := ScheduleErrors(req, trips, now);
    assert s == {} <==> && ScheduledInThePast !in s && OverlappingTrip !in s
                        && InvalidEstimatedDuration !in s && InvalidPaymentMethod !in s;
  }

  /** Helper: the request passes when the user exists and each group of rules reports nothing. */
  lemma NoErrorsIffNoneInAnyPart(req: BookingRequest, users: set<nat>, drivers: seq<Driver>,
                                 vehicleTypes: set<string>, vehicles: seq<Vehicle>, trips: seq<Trip>, now: int)
    ensures Validate(req, users, drivers, vehicleTypes, vehicles, trips, now) == {}
        <==> && req.userId in users && DriverErrors(req, drivers) == {}
             && VehicleErrors(req, vehicleTypes, vehicles) == {} && PlaceErrors(req) == {}
             && ScheduleErrors(req, trips, now) == {}
  {
  }

  /** Under a primary key, a row is the only one carrying its id. */
  lemma FoundIsTheOnlyOne(drivers: seq<Driver>, found: Driver)
    requires DistinctBy(drivers, DriverId)
    requires found in drivers
    ensures forall d :: d in drivers && d.id == found.id ==> d == found
  {
    forall d | d in drivers && d != found ensures d.id != found.id {
      var i :| 0 <= i < |drivers| && drivers[i] == d;
      var j :| 0 <= j < |drivers| && drivers[j] == found;
      if i < j {
        assert DriverId(drivers[i]) != DriverId(drivers[j]);
      } else {
        assert DriverId(drivers[j]) != DriverId(drivers[i]);
      }
    }
  }

  /**
   * With non-negative durations the three alternatives are exactly a closed
   * interval overlap: windows that merely touch conflict.
   */
  lemma ThreeBranchesAreClosedOverlap(t: Trip, s: int, e: int)
    requires t.durationMinutes.Some? && t.durationMinutes.value >= 0
    requires s <= e
    ensures OverlapBranches(t, s, e) <==> t.scheduledAt <= e && TripEnd(t) >= s
  {
  }

  /** Adding one trip to the table adds one to the count exactly when it conflicts. */
  lemma {:induction false} CountOverlappingAppend(trips: seq<Trip>, t: Trip, driverId: nat, s: int, e: int)
    ensures CountOverlapping(trips + [t], driverId, s, e)
         == CountOverlapping(trips, driverId, s, e) + (if Conflicts(t, driverId, s, e) then 1 else 0)
  {
    if trips != [] {
      assert (trips + [t])[1..] == trips[1..] + [t];
      CountOverlappingAppend(trips[1..], t, driverId, s, e);
    }
  }

  /**
   * A booking fails the overlap rule exactly when the driver holds a scheduled
   * or in-progress trip with a known duration whose closed window meets the
   * proposed one, provided no duration is negative.
   */
  lemma RejectedIffClosedOverlap(req: BookingRequest, users: set<nat>, drivers: seq<Driver>,
                                 vehicleTypes: set<string>, vehicles: seq<Vehicle>, trips: seq<Trip>, now: int)
    requires req.estimatedDurationMinutes.Some? ==> req.estimatedDurationMinutes.value >= 0
    requires forall t :: t in trips && t.durationMinutes.Some? ==> t.durationMinutes.value >= 0
    ensures OverlappingTrip in Validate(req, users, drivers, vehicleTypes, vehicles, trips, now) <==>
      exists t :: && t in trips && t.driverId == req.driverId && Blocking(t) && t.durationMinutes.Some?
                  && t.scheduledAt <= ProposedEnd(req) && TripEnd(t) >= req.scheduledAt
  {
    var s, e := req.scheduledAt, ProposedEnd(req);
    forall t | t in trips && t.durationMinutes.Some?
      ensures OverlapBranches(t, s, e) <==> t.scheduledAt <= e && TripEnd(t) >= s
    {
      ThreeBranchesAreClosedOverlap(t, s, e);
    }
  }

  /**
   * A trip of another driver, a completed or cancelled trip, or a trip without a
   * duration never changes the outcome of validation.
   */
  lemma NonBlockingTripIsIgnored(req: BookingRequest, users: set<nat>, drivers: seq<Driver>,
                                 vehicleTypes: set<string>, vehicles: seq<Vehicle>, trips: seq<Trip>, t: Trip, now: int)
    requires t.driverId != req.driverId || t.status == Completed || t.status == Cancelled || t.durationMinutes.None?
    ensures Validate(req, users, drivers, vehicleTypes, vehicles, trips + [t], now)
         == Validate(req, users, drivers, vehicleTypes, vehicles, trips, now)
  {
    CountOverlappingAppend(trips, t, req.driverId, req.scheduledAt, ProposedEnd(req));
  }

  /**
   * The overlap scenario of the booking feature test: a scheduled 30-minute
   * trip two hours from now blocks a new request a quarter of an hour into it,
   * while the request one hour from now with the default estimate is clear.
   */
  lemma FeatureTestOverlap(now: int)
    ensures var place := Place("123 Main St, New York, NY", 40.7128, -74.0060);
      var existing := Trip(1, 1, 1, 1, Scheduled, place, place, now + 7200, None, None, Some(30), None,
                           500, 0, 0, 500, "credit_card", now);
      var overlapping := BookingRequest(1, 1, "SUV", place, place, now + 7200 + 900, None, "cash");
      var earlier := BookingRequest(1, 1, "SUV", place, place, now + 3600, None, "credit_card");
      && OverlappingTrip in ScheduleErrors(overlapping, [existing], now)
      && OverlappingTrip !in ScheduleErrors(earlier, [existing], now)
  {
    var place := Place("123 Main St, New York, NY", 40.7128, -74.0060);
    var existing := Trip(1, 1, 1, 1, Scheduled, place, place, now + 7200, None, None, Some(30), None,
                         500, 0, 0, 500, "credit_card", now);
    assert Conflicts(existing, 1, now + 8100, now + 9900);
    assert !Conflicts(existing, 1, now + 3600, now + 5400);
  }

  /** The feature test's 'Truck' request: an unknown type that the driver owns no vehicle of. */
  lemma FeatureTestUnknownType(req: BookingRequest, vehicles: seq<Vehicle>)
    requires req.vehicleType == "Truck"
    requires forall v :: v in vehicles ==> v.typeName in {"SUV", "Sedan"}
    ensures VehicleErrors(req, {"SUV", "Sedan"}, vehicles) == {UnknownVehicleType, NoActiveVehicleOfType}
  {
  }

  /** A request that passes every rule names an existing, available driver who owns an active vehicle of the type. */
  lemma AcceptedRequestHasDriverAndVehicle(req: BookingRequest, users: set<nat>, drivers: seq<Driver>,
                                           vehicleTypes: set<string>, vehicles: seq<Vehicle>, trips: seq<Trip>, now: int)
    requires DistinctBy(drivers, DriverId)
    requires Validate(req, users, drivers, vehicleTypes, vehicles, trips, now) == {}
    ensures exists d :: d in drivers && d.id == req.driverId && d.isAvailable
    ensures exists v :: v in vehicles && ActiveOfType(v, req.driverId, req.vehicleType)
    ensures req.scheduledAt >= now
  {
    assert ScheduledInThePast !in ScheduleErrors(req, trips, now);
  }
}
