/**
 * The driver endpoints: the nearby-driver search with its defaults and
 * vehicle-type post-filter, and the location and availability updates with
 * their status codes.
 */
module DriverController {
  import opened Wrappers
  import opened Lists
  import opened Models
  import opened Stores
  import opened DriverService

  /** Search radius when the request gives none, in kilometres. */
  const DefaultQueryRadius := 5.0
  const MinQueryRadius := 0.1
  const MaxQueryRadius := 50.0

  /** The inputs of the nearby-driver search; absent optional fields are `None`. */
  datatype NearbyRequest = NearbyRequest(latitude: real, longitude: real, radius: Option<real>,
                                         vehicleType: Option<string>)

  /** The JSON body of a successful search. */
  datatype NearbyResponse = NearbyResponse(drivers: seq<NearbyDriver>, count: nat)

  /** The latitude and longitude are within range. */
  predicate AcceptsLocation(lat: real, lng: real) {
    -90.0 <= lat <= 90.0 && -180.0 <= lng <= 180.0
  }

  /**
   * The validation rules of the search request. An accepted request names a
   * valid point and searches within the allowed radii, defaulted or not.
   */
  predicate AcceptsNearbyRequest(req: NearbyRequest, vehicleTypes: set<string>): (ok: bool)
    ensures ok ==> AcceptsLocation(req.latitude, req.longitude)
    ensures ok ==> MinQueryRadius <= req.radius.GetOr(DefaultQueryRadius) <= MaxQueryRadius
    ensures ok ==> req.vehicleType.GetOr("") in vehicleTypes + {""}
  {
    && AcceptsLocation(req.latitude, req.longitude)
    && (req.radius.Some? ==> MinQueryRadius <= req.radius.value <= MaxQueryRadius)
    && (req.vehicleType.Some? ==> req.vehicleType.value in vehicleTypes)
  }

  /** PHP truthiness of a string: only the empty string and "0" are false. */
  predicate PhpTruthy(s: string) {
    s != "" && s != "0"
  }

  /** The driver has an active vehicle whose type has this name. */
  predicate DrivesActive(nd: NearbyDriver, typeName: string) {
    exists v :: v in nd.vehicles && v.typeName == typeName && v.isActive
  }

  /** The vehicle-type post-filter on the service's result. */
  function FilterByVehicleType(ds: seq<NearbyDriver>, typeName: string): (r: seq<NearbyDriver>)
    ensures forall nd :: nd in r <==> nd in ds && DrivesActive(nd, typeName)
    ensures SortedBy(ds, Distance) ==> SortedBy(r, Distance)
    ensures DistinctBy(ds, NearbyDriverId) ==> DistinctBy(r, NearbyDriverId)
    ensures IsSubsequence(r, ds)
  {
    var keep := (nd: NearbyDriver) => DrivesActive(nd, typeName);
    var r := Filter(ds, keep);
    assert SortedBy(ds, Distance) ==> SortedBy(r, Distance) by {
      if SortedBy(ds, Distance) {
        FilterKeepsSorted(ds, keep, Distance);
      }
    }
    assert DistinctBy(ds, NearbyDriverId) ==> DistinctBy(r, NearbyDriverId) by {
      if DistinctBy(ds, NearbyDriverId) {
        FilterKeepsDistinct(ds, keep, NearbyDriverId);
      }
    }
    FilterIsSubsequence(ds, keep);
    r
  }

  /**
   * What the search returns from the service's result: filtered only for a
   * truthy vehicle type, so no type, "" and "0" all return the list as it is.
   */
  function Shown(ds: seq<NearbyDriver>, vehicleType: Option<string>): (r: seq<NearbyDriver>)
    ensures !(vehicleType.Some? && PhpTruthy(vehicleType.value)) ==> r == ds
    ensures vehicleType.Some? && PhpTruthy(vehicleType.value) ==>
              forall nd :: nd in r <==> nd in ds && DrivesActive(nd, vehicleType.value)
    ensures SortedBy(ds, Distance) ==> SortedBy(r, Distance)
    ensures IsSubsequence(r, ds)
    ensures |r| <= |ds|
  {
    if vehicleType.Some? && PhpTruthy(vehicleType.value) then FilterByVehicleType(ds, vehicleType.value)
    else SubsequenceOfItself(ds); ds
  }

  /**
   * `availableDriversNear`: a request breaking a rule is answered 422 without
   * touching the store. Otherwise the radius defaults to 5 km, the service is
   * asked (the index path when `useIndex`, else the cached database path with
   * its default 60-second lifetime), the vehicle-type filter runs on its
   * answer, and the body carries the drivers and their count. The cache entry
   * written depends on the point and radius alone, never on the vehicle type.
   */
  method AvailableDriversNear(db: Database, kv: KeyValueStore, req: NearbyRequest, useIndex: bool, now: int,
                              testing: bool, dist: (Coord, Coord) -> real)
    returns (code: int, resp: Option<NearbyResponse>)
    requires kv.Valid()
    modifies kv
    ensures kv.Valid()
    ensures code == 200 <==> AcceptsNearbyRequest(req, db.vehicleTypes)
    ensures code != 200 ==> code == 422 && resp.None? && kv.entries == old(kv.entries)
    ensures code == 200 ==> resp.Some? && resp.value.count == |resp.value.drivers|
    ensures code == 200 && useIndex ==>
      var radius := req.radius.GetOr(DefaultQueryRadius);
      && resp.value.drivers == Shown(IndexNearby(db.drivers, db.vehicles,
                                                 AvailableInRadius(kv.locations, kv.availability,
                                                                   Coord(req.latitude, req.longitude), radius, dist)),
                                     req.vehicleType)
      && kv.entries == old(kv.entries)
    ensures code == 200 && !useIndex ==>
      var radius := req.radius.GetOr(DefaultQueryRadius);
      var key := NearbyCacheKey(req.latitude, req.longitude, radius);
      var computed := AvailableNearby(db.drivers, db.vehicles, Coord(req.latitude, req.longitude), radius, testing, dist);
      if old(kv.Live(key, now)) then
        && resp.value.drivers == Shown(old(kv.entries[key].value.drivers), req.vehicleType)
        && kv.entries == old(kv.entries)
      else
        && resp.value.drivers == Shown(computed, req.vehicleType)
        && kv.entries == old(kv.entries)[key := Entry(DriverList(computed), now + DefaultNearbyTtl)]
    ensures kv.locations == old(kv.locations) && kv.availability == old(kv.availability)
  {
    if !AcceptsNearbyRequest(req, db.vehicleTypes) {
      return 422, None;
    }
    var radius := req.radius.GetOr(DefaultQueryRadius);
    var drivers;
    if useIndex {
      drivers := GetAvailableDriversNearRedis(db, kv, req.latitude, req.longitude, radius, dist);
    } else {
      drivers := GetAvailableDriversNear(db, kv, req.latitude, req.longitude, radius, true, DefaultNearbyTtl, now,
                                         testing, dist);
    }
    var shown := Shown(drivers, req.vehicleType);
    return 200, Some(NearbyResponse(shown, |shown|));
  }

  /** Without a vehicle type the search returns the service's answer as it is, nearest first. */
  lemma UnfilteredSearchIsServiceAnswer(ds: seq<NearbyDriver>)
    ensures Shown(ds, None) == ds
  {
  }

  /**
   * On the index path the filtered answer holds exactly the available
   * in-radius drivers that drive an active vehicle of the requested type,
   * nearest first.
   */
  lemma IndexSearchWithType(drivers: seq<Driver>, vehicles: seq<Vehicle>, locations: map<nat, Coord>,
                                               availability: map<nat, int>, c: Coord, radius: real,
                                               dist: (Coord, Coord) -> real, typeName: string)
    requires PhpTruthy(typeName)
    ensures var m := AvailableInRadius(locations, availability, c, radius, dist);
      var r := Shown(IndexNearby(drivers, vehicles, m), Some(typeName));
      && SortedBy(r, Distance)
      && forall nd :: nd in r <==>
           && nd.driver in drivers && nd.driver.id in m
           && Loaded(nd, vehicles, d => IndexDistance(m, d))
           && DrivesActive(nd, typeName)
  {
  }

  /**
   * `updateLocation`: an unknown driver is answered 404 by route binding and
   * bad coordinates 422, both without change; otherwise the service updates
   * the driver and the answer is 200 when it reports success, 500 when not.
   */
  method UpdateLocation(db: Database, kv: KeyValueStore, driverId: nat, lat: real, lng: real, now: int)
    returns (code: int)
    requires db.Valid() && kv.Valid()
    modifies db, kv
    ensures db.Valid() && kv.Valid()
    ensures !HasDriver(old(db.drivers), driverId) ==> code == 404
    ensures HasDriver(old(db.drivers), driverId) && !AcceptsLocation(lat, lng) ==> code == 422
    ensures code != 200 ==> db.drivers == old(db.drivers) && kv.locations == old(kv.locations)
                            && kv.entries == old(kv.entries)
    ensures HasDriver(old(db.drivers), driverId) && AcceptsLocation(lat, lng) ==>
      && code == 200
      && db.drivers == Relocated(old(db.drivers), driverId, lat, lng, now)
      && kv.locations == (if GeoIndexable(Coord(lat, lng)) then old(kv.locations)[driverId := Coord(lat, lng)]
                          else old(kv.locations))
      && kv.entries == WithoutNearby(old(kv.entries))
    ensures kv.availability == old(kv.availability)
    ensures db.vehicles == old(db.vehicles) && db.trips == old(db.trips) && db.users == old(db.users)
    ensures db.vehicleTypes == old(db.vehicleTypes) && db.statuses == old(db.statuses)
    ensures db.nextTripId == old(db.nextTripId)
  {
    if !HasDriver(db.drivers, driverId) {
      return 404;
    }
    if !AcceptsLocation(lat, lng) {
      return 422;
    }
    var updated := DriverService.UpdateDriverLocation(db, kv, driverId, lat, lng, now);
    code := if updated then 200 else 500;
  }

  /**
   * `updateAvailability`: an unknown driver is answered 404 and a value that
   * is not a boolean (`None`) 422, both without change; otherwise the service
   * updates the flag and the answer is 200 on success, 500 when not.
   */
  method UpdateAvailability(db: Database, kv: KeyValueStore, driverId: nat, isAvailable: Option<bool>)
    returns (code: int)
    requires db.Valid() && kv.Valid()
    modifies db, kv
    ensures db.Valid() && kv.Valid()
    ensures !HasDriver(old(db.drivers), driverId) ==> code == 404
    ensures HasDriver(old(db.drivers), driverId) && isAvailable.None? ==> code == 422
    ensures code != 200 ==> db.drivers == old(db.drivers) && kv.availability == old(kv.availability)
                            && kv.entries == old(kv.entries)
    ensures HasDriver(old(db.drivers), driverId) && isAvailable.Some? ==>
      && code == 200
      && db.drivers == WithAvailability(old(db.drivers), driverId, isAvailable.value)
      && kv.availability == old(kv.availability)[driverId := if isAvailable.value then 1 else 0]
      && kv.entries == WithoutNearby(old(kv.entries))
    ensures kv.locations == old(kv.locations)
    ensures db.vehicles == old(db.vehicles) && db.trips == old(db.trips) && db.users == old(db.users)
    ensures db.vehicleTypes == old(db.vehicleTypes) && db.statuses == old(db.statuses)
    ensures db.nextTripId == old(db.nextTripId)
  {
    if !HasDriver(db.drivers, driverId) {
      return 404;
    }
    if isAvailable.None? {
      return 422;
    }
    var updated := DriverService.UpdateDriverAvailability(db, kv, driverId, isAvailable.value);
    code := if updated then 200 else 500;
  }
}
