/**
 * The two stores the services share: the relational database (tables as
 * sequences of rows) and the key-value store that holds the geo index
 * `drivers:locations`, the per-driver availability mirror `driver:{id}:info`
 * and the cached query results.
 */
module Stores {
  import opened Wrappers
  import opened Lists
  import opened Models
  import opened PhpFloat

  /**
   * The cache keys of the application, one constructor per key family:
   * `drivers:available:near:{lat}:{lng}:{radius}` (each number as PHP writes
   * it into the string), `driver:{id}:active_trips`,
   * `driver:{id}:active_trips:eloquent` and `user:{id}:trip_history`.
   */
  datatype CacheKey =
    | NearbyDriversKey(lat: FloatText, lng: FloatText, radius: FloatText)
    | DriverActiveTripsKey(driverId: nat)
    | DriverActiveTripsEloquentKey(driverId: nat)
    | UserTripHistoryKey(userId: nat)

  /** The key matches the pattern `drivers:available:near:*`. */
  predicate HasNearbyPrefix(k: CacheKey) {
    k.NearbyDriversKey?
  }

  datatype CachedValue = DriverList(drivers: seq<NearbyDriver>) | TripList(trips: seq<Trip>)

  /** A stored value and the instant (in seconds) from which it is expired. */
  datatype Entry = Entry(value: CachedValue, expiresAt: int)

  /** Nearby keys hold driver lists; the trip keys hold trip lists. */
  predicate WellTyped(k: CacheKey, v: CachedValue) {
    k.NearbyDriversKey? <==> v.DriverList?
  }

  /** The largest latitude, in degrees, the geo index can encode (the Web Mercator limit). */
  const MaxGeoLatitude: real := 85.05112878

  /** GEOADD accepts the position: the longitude within 180 degrees and the latitude within the encodable band. */
  predicate GeoIndexable(c: Coord) {
    -MaxGeoLatitude <= c.lat <= MaxGeoLatitude && -180.0 <= c.lng <= 180.0
  }

  /** One member of a GEORADIUS ... WITHDIST reply. */
  datatype GeoHit = GeoHit(id: nat, distance: real)

  function HitId(h: GeoHit): nat {
    h.id
  }

  function HitDistance(h: GeoHit): real {
    h.distance
  }

  /** Redis `(bool) hget(...)`: a missing field and the stored 0 are false. */
  function Truthy(availability: map<nat, int>, id: nat): (b: bool)
    ensures b <==> id in availability && availability[id] != 0
  {
    id in availability && availability[id] != 0
  }

  /**
   * The in-radius members of the geo index whose availability flag is truthy,
   * each with its distance from `c`: what the index path collects before it
   * reads the database.
   */
  function AvailableInRadius(locations: map<nat, Coord>, availability: map<nat, int>, c: Coord, radius: real,
                             dist: (Coord, Coord) -> real): (m: map<nat, real>)
    ensures forall id :: id in m <==>
      id in locations && dist(locations[id], c) <= radius && Truthy(availability, id)
    ensures forall id :: id in m ==> m[id] == dist(locations[id], c)
  {
    map id | id in locations && dist(locations[id], c) <= radius && Truthy(availability, id) :: dist(locations[id], c)
  }

  class KeyValueStore {
    /** The geo sorted set `drivers:locations`: driver id to position. */
    var locations: map<nat, Coord>
    /** The `is_available` field of each hash `driver:{id}:info`. */
    var availability: map<nat, int>
    /** Cached values with their expiry. */
    var entries: map<CacheKey, Entry>

    ghost predicate Valid()
      reads this
    {
      forall k :: k in entries ==> WellTyped(k, entries[k].value)
    }

    constructor()
      ensures locations == map[] && availability == map[] && entries == map[]
      ensures Valid()
    {
      locations := map[];
      availability := map[];
      entries := map[];
    }

    /** `Cache::has`: the key holds a value that has not expired at `now`. */
    predicate Live(key: CacheKey, now: int)
      reads this
    {
      key in entries && now < entries[key].expiresAt
    }

    /** `Cache::put` / SETEX: a positive ttl stores the value until now + ttl; any other ttl forgets the key. */
    method Put(key: CacheKey, value: CachedValue, ttl: int, now: int)
      requires Valid() && WellTyped(key, value)
      modifies this
      ensures Valid()
      ensures entries == if ttl > 0 then old(entries)[key := Entry(value, now + ttl)] else old(entries) - {key}
      ensures ttl > 0 <==> Live(key, now)
      ensures locations == old(locations) && availability == old(availability)
    {
      if ttl > 0 {
        entries := entries[key := Entry(value, now + ttl)];
      } else {
        entries := entries - {key};
      }
    }

    /** `Cache::forget` / DEL of several keys. */
    method Forget(keys: set<CacheKey>)
      requires Valid()
      modifies this
      ensures Valid()
      ensures entries == old(entries) - keys
      ensures locations == old(locations) && availability == old(availability)
    {
      entries := entries - keys;
    }

    /**
     * GEOADD: inserts or moves one member of the geo index. A position outside
     * the encodable band is refused with an error reply and the index is left
     * as it was; the callers ignore the reply.
     */
    method GeoAdd(id: nat, c: Coord)
      modifies this
      ensures GeoIndexable(c) ==> locations == old(locations)[id := c]
      ensures !GeoIndexable(c) ==> locations == old(locations)
      ensures availability == old(availability) && entries == old(entries)
    {
      if GeoIndexable(c) {
        locations := locations[id := c];
      }
    }

    /** HSET driver:{id}:info is_available 0|1. */
    method SetAvailability(id: nat, isAvailable: bool)
      modifies this
      ensures availability == old(availability)[id := if isAvailable then 1 else 0]
      ensures Truthy(availability, id) == isAvailable
      ensures locations == old(locations) && entries == old(entries)
    {
      availability := availability[id := if isAvailable then 1 else 0];
    }

    /**
     * GEORADIUS ... WITHDIST ASC: every member within `radius` of `c` (border
     * included) with its distance, nearest first, each member once.
     */
    method GeoRadius(c: Coord, radius: real, dist: (Coord, Coord) -> real) returns (hits: seq<GeoHit>)
      ensures SortedBy(hits, HitDistance)
      ensures DistinctBy(hits, HitId)
      ensures forall h :: h in hits <==>
        h.id in locations && h.distance == dist(locations[h.id], c) && h.distance <= radius
    {
      var found: seq<GeoHit> := [];
      var rest := locations.Keys;
      while rest != {}
        invariant rest <= locations.Keys
        invariant forall h :: h in found <==>
          h.id in locations.Keys - rest && h.distance == dist(locations[h.id], c) && h.distance <= radius
        invariant forall i :: 0 <= i < |found| ==> found[i].id !in rest
        invariant DistinctBy(found, HitId)
        decreases rest
      {
        var id :| id in rest;
        var d := dist(locations[id], c);
        if d <= radius {
          found := found + [GeoHit(id, d)];
        }
        rest := rest - {id};
      }
      hits := SortBy(found, HitDistance);
      SameElements(found, hits);
      PermutationKeepsDistinct(found, hits, HitId);
    }
  }

  /** The driver rows after `UPDATE drivers SET lat, lng, location_updated_at WHERE id = ?`. */
  function Relocated(ds: seq<Driver>, id: nat, lat: real, lng: real, now: int): (r: seq<Driver>)
    ensures |r| == |ds|
    ensures forall i :: 0 <= i < |ds| ==>
      r[i] == if ds[i].id == id then ds[i].(lat := Some(lat), lng := Some(lng), locationUpdatedAt := Some(now))
              else ds[i]
  {
    seq(|ds|, i requires 0 <= i < |ds| =>
      if ds[i].id == id then ds[i].(lat := Some(lat), lng := Some(lng), locationUpdatedAt := Some(now)) else ds[i])
  }

  /** The driver rows after `UPDATE drivers SET is_available WHERE id = ?`. */
  function WithAvailability(ds: seq<Driver>, id: nat, isAvailable: bool): (r: seq<Driver>)
    ensures |r| == |ds|
    ensures forall i :: 0 <= i < |ds| ==> r[i] == if ds[i].id == id then ds[i].(isAvailable := isAvailable) else ds[i]
  {
    seq(|ds|, i requires 0 <= i < |ds| => if ds[i].id == id then ds[i].(isAvailable := isAvailable) else ds[i])
  }

  /** The trip rows after saving `t` over the row with its id. */
  function SavedTrip(ts: seq<Trip>, t: Trip): (r: seq<Trip>)
    ensures |r| == |ts|
    ensures forall i :: 0 <= i < |ts| ==> r[i] == if ts[i].id == t.id then t else ts[i]
  {
    seq(|ts|, i requires 0 <= i < |ts| => if ts[i].id == t.id then t else ts[i])
  }

  /** The UPDATE matches a row: the affected-row count is non-zero. */
  predicate HasDriver(ds: seq<Driver>, id: nat) {
    exists d :: d in ds && d.id == id
  }

  class Database {
    var drivers: seq<Driver>
    var vehicles: seq<Vehicle>
    var trips: seq<Trip>
    var users: set<nat>
    /** The names in vehicle_types. */
    var vehicleTypes: set<string>
    /** The rows of trip_statuses, by name. */
    var statuses: set<TripStatus>
    /** The next auto-increment value of trips.id. */
    var nextTripId: nat

    /** Primary keys are unique and below the auto-increment counter. */
    ghost predicate Valid()
      reads this
    {
      && DistinctBy(drivers, DriverId)
      && DistinctBy(trips, TripId)
      && forall i :: 0 <= i < |trips| ==> trips[i].id < nextTripId
    }

    constructor()
      ensures drivers == [] && vehicles == [] && trips == [] && users == {} && vehicleTypes == {}
      ensures statuses == {} && nextTripId == 1
      ensures Valid()
    {
      drivers, vehicles, trips := [], [], [];
      users, vehicleTypes, statuses := {}, {}, {};
      nextTripId := 1;
    }

    /** `Trip::find`: the row with that id, if any. */
    function FindTrip(id: nat): (r: Option<Trip>)
      reads this
      ensures r.Some? ==> r.value in trips && r.value.id == id
      ensures r.None? ==> forall t :: t in trips ==> t.id != id
    {
      var found := Filter(trips, (t: Trip) => t.id == id);
      if found == [] then None else assert found[0] in found; Some(found[0])
    }

    method UpdateDriverLocation(id: nat, lat: real, lng: real, now: int) returns (updated: bool)
      requires Valid()
      modifies this
      ensures Valid()
      ensures updated <==> HasDriver(old(drivers), id)
      ensures drivers == Relocated(old(drivers), id, lat, lng, now)
      ensures vehicles == old(vehicles) && trips == old(trips) && users == old(users)
      ensures vehicleTypes == old(vehicleTypes) && statuses == old(statuses) && nextTripId == old(nextTripId)
    {
      updated := HasDriver(drivers, id);
      drivers := Relocated(drivers, id, lat, lng, now);
      assert DistinctBy(drivers, DriverId) by {
        forall i, j | 0 <= i < j < |drivers| ensures DriverId(drivers[i]) != DriverId(drivers[j]) {
          assert DriverId(old(drivers)[i]) != DriverId(old(drivers)[j]);
        }
      }
    }

    method UpdateDriverAvailability(id: nat, isAvailable: bool) returns (updated: bool)
      requires Valid()
      modifies this
      ensures Valid()
      ensures updated <==> HasDriver(old(drivers), id)
      ensures drivers == WithAvailability(old(drivers), id, isAvailable)
      ensures vehicles == old(vehicles) && trips == old(trips) && users == old(users)
      ensures vehicleTypes == old(vehicleTypes) && statuses == old(statuses) && nextTripId == old(nextTripId)
    {
      updated := HasDriver(drivers, id);
      drivers := WithAvailability(drivers, id, isAvailable);
      assert DistinctBy(drivers, DriverId) by {
        forall i, j | 0 <= i < j < |drivers| ensures DriverId(drivers[i]) != DriverId(drivers[j]) {
          assert DriverId(old(drivers)[i]) != DriverId(old(drivers)[j]);
        }
      }
    }

    /** INSERT of a new trip row under the next auto-increment id. */
    method InsertTrip(t: Trip)
      requires Valid() && t.id == nextTripId
      modifies this
      ensures Valid()
      ensures trips == old(trips) + [t] && nextTripId == old(nextTripId) + 1
      ensures drivers == old(drivers) && vehicles == old(vehicles) && users == old(users)
      ensures vehicleTypes == old(vehicleTypes) && statuses == old(statuses)
    {
      trips := trips + [t];
      nextTripId := nextTripId + 1;
    }

    /** Saves a changed trip over the row with the same id. */
    method SaveTrip(t: Trip)
      requires Valid()
      modifies this
      ensures Valid()
      ensures trips == SavedTrip(old(trips), t)
      ensures drivers == old(drivers) && vehicles == old(vehicles) && users == old(users)
      ensures vehicleTypes == old(vehicleTypes) && statuses == old(statuses) && nextTripId == old(nextTripId)
    {
      trips := SavedTrip(trips, t);
      assert DistinctBy(trips, TripId) by {
        forall i, j | 0 <= i < j < |trips| ensures TripId(trips[i]) != TripId(trips[j]) {
          assert TripId(old(trips)[i]) != TripId(old(trips)[j]);
        }
      }
    }
  }
}
