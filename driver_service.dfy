/**
 * The nearby-driver service: the cached database query, the query over the
 * geo index and the availability mirror, the two driver updates that keep
 * the index and the mirror in step with the database, and the prefix-wide
 * invalidation of cached nearby results.
 */
module DriverService {
  import opened Wrappers
  import opened Lists
  import opened Models
  import opened Stores
  import opened PhpFloat

  const DefaultRadius: real := 5.0
  /** Seconds a cached nearby result lives when the caller gives no ttl. */
  const DefaultNearbyTtl := 60

  /** PHP `round(x, 3)`, in thousandths: the nearest integer to 1000x, halves away from zero. */
  function Round3(x: real): (r: int)
    ensures x >= 0.0 ==> (r as real) - 0.5 <= x * 1000.0 < (r as real) + 0.5
    ensures x < 0.0 ==> (r as real) - 0.5 < x * 1000.0 <= (r as real) + 0.5
  {
    if x >= 0.0 then (x * 1000.0 + 0.5).Floor else -((-x * 1000.0 + 0.5).Floor)
  }

  /** A value given to three decimals rounds to itself. */
  lemma Round3OfThousandths(k: int)
    ensures Round3(k as real / 1000.0) == k
  {
    assert (k as real / 1000.0) * 1000.0 == k as real;
  }

  /**
   * The text of `round(x, 3)`. Rounding keeps the sign, so a negative x that
   * rounds to zero gives a negative zero, written "-0". Within the range of
   * any coordinate the rounded value is written exactly.
   */
  function RoundedText(x: real): (t: FloatText)
    ensures t.negative <==> x < 0.0
    ensures -10000000000.0 <= x <= 10000000000.0 ==> t.value * 1000.0 == Round3(x) as real
  {
    var k := Round3(x);
    assert -10000000000.0 <= x <= 10000000000.0 ==> Printed(k as real / 1000.0) == k as real / 1000.0 by {
      if -10000000000.0 <= x <= 10000000000.0 {
        ThousandthsPrintExactly(k);
      }
    }
    FloatText(x < 0.0, Printed(k as real / 1000.0))
  }

  /** `drivers:available:near:{round(lat,3)}:{round(lng,3)}:{radius}`. */
  function NearbyCacheKey(lat: real, lng: real, radius: real): (k: CacheKey)
    ensures HasNearbyPrefix(k)
  {
    NearbyDriversKey(RoundedText(lat), RoundedText(lng), TextOf(radius))
  }

  /**
   * Two queries share a cache entry only when their numbers have the same
   * signs, their coordinates (within any real coordinate's range) lie within
   * a thousandth of a degree of each other, and their radii agree to 14
   * significant digits.
   */
  lemma SharedKeyMeansNearbyPoint(lat1: real, lng1: real, r1: real, lat2: real, lng2: real, r2: real)
    requires NearbyCacheKey(lat1, lng1, r1) == NearbyCacheKey(lat2, lng2, r2)
    ensures (lat1 < 0.0 <==> lat2 < 0.0) && (lng1 < 0.0 <==> lng2 < 0.0) && (r1 < 0.0 <==> r2 < 0.0)
    ensures Abs(lat1) <= 10000000000.0 && Abs(lat2) <= 10000000000.0 ==> Abs(lat1 - lat2) <= 0.001
    ensures Abs(lng1) <= 10000000000.0 && Abs(lng2) <= 10000000000.0 ==> Abs(lng1 - lng2) <= 0.001
    ensures Abs(r1 - r2) * 20000000000000.0 <= Abs(r1) + Abs(r2)
  {
    assert RoundedText(lat1) == RoundedText(lat2) && RoundedText(lng1) == RoundedText(lng2);
    assert Printed(r1) == Printed(r2);
  }

  /**
   * Queries whose coordinates round alike and have the same signs, and whose
   * radii are equal, share a cache entry.
   */
  lemma SameRoundingSharesKey(lat1: real, lng1: real, lat2: real, lng2: real, radius: real)
    requires Round3(lat1) == Round3(lat2) && Round3(lng1) == Round3(lng2)
    requires (lat1 < 0.0 <==> lat2 < 0.0) && (lng1 < 0.0 <==> lng2 < 0.0)
    ensures NearbyCacheKey(lat1, lng1, radius) == NearbyCacheKey(lat2, lng2, radius)
  {
  }

  /** Within the range of any coordinate, latitudes that round differently give different keys. */
  lemma DifferentRoundingSplitsKey(lat1: real, lng1: real, lat2: real, lng2: real, radius: real)
    requires -10000000000.0 <= lat1 <= 10000000000.0 && -10000000000.0 <= lat2 <= 10000000000.0
    requires Round3(lat1) != Round3(lat2)
    ensures NearbyCacheKey(lat1, lng1, radius) != NearbyCacheKey(lat2, lng2, radius)
  {
    assert RoundedText(lat1).value != RoundedText(lat2).value;
  }

  /** Latitudes -0.0004 and 0.0004 both round to zero, yet their keys differ: "-0" and "0". */
  lemma NegativeZeroSplitsKey()
    ensures Round3(-0.0004) == Round3(0.0004) == 0
    ensures NearbyCacheKey(-0.0004, 0.0, 5.0) != NearbyCacheKey(0.0004, 0.0, 5.0)
  {
  }

  /** Radii 5 and 5.000000000000001 are both written "5", so they share a key. */
  lemma FourteenDigitRadiiShareKey()
    ensures NearbyCacheKey(0.0, 0.0, 5.0) == NearbyCacheKey(0.0, 0.0, 5.000000000000001)
  {
    // The radius is scaled up thirteen times, to 50000000000000.01, which rounds to a whole number.
    assert PrintedBelow(50000000000000.01) == 50000000000000.0;
    assert PrintedBelow(5000000000000.001) == 5000000000000.0;
    assert PrintedBelow(500000000000.0001) == 500000000000.0;
    assert PrintedBelow(50000000000.00001) == 50000000000.0;
    assert PrintedBelow(5000000000.000001) == 5000000000.0;
    assert PrintedBelow(500000000.0000001) == 500000000.0;
    assert PrintedBelow(50000000.00000001) == 50000000.0;
    assert PrintedBelow(5000000.000000001) == 5000000.0;
    assert PrintedBelow(500000.0000000001) == 500000.0;
    assert PrintedBelow(50000.00000000001) == 50000.0;
    assert PrintedBelow(5000.000000000001) == 5000.0;
    assert PrintedBelow(500.0000000000001) == 500.0;
    assert PrintedBelow(50.00000000000001) == 50.0;
    assert PrintedBelow(5.000000000000001) == 5.0;
    ThousandthsPrintExactly(5000);
    assert TextOf(5.0) == TextOf(5.000000000000001);
  }

  /**
   * `getAvailableDriversNear`: with the cache on, a live entry under the
   * query's key is returned as stored; otherwise the available drivers in
   * range are queried and, with the cache on, stored for `cacheTtl` seconds.
   * With the cache off the store is neither read nor written.
   */
  method GetAvailableDriversNear(db: Database, kv: KeyValueStore, lat: real, lng: real, radius: real,
                                 useCache: bool, cacheTtl: int, now: int, testing: bool,
                                 dist: (Coord, Coord) -> real) returns (r: seq<NearbyDriver>)
    requires kv.Valid()
    modifies kv
    ensures kv.Valid()
    ensures var key := NearbyCacheKey(lat, lng, radius);
      if useCache && old(kv.Live(key, now)) then
        && r == old(kv.entries[key].value.drivers)
        && kv.entries == old(kv.entries)
      else
        && r == AvailableNearby(db.drivers, db.vehicles, Coord(lat, lng), radius, testing, dist)
        && kv.entries == if !useCache then old(kv.entries)
                         else if cacheTtl > 0 then old(kv.entries)[key := Entry(DriverList(r), now + cacheTtl)]
                         else old(kv.entries) - {key}
    ensures kv.locations == old(kv.locations) && kv.availability == old(kv.availability)
  {
    var key := NearbyCacheKey(lat, lng, radius);
    if useCache && kv.Live(key, now) {
      r := kv.entries[key].value.drivers;
      return;
    }
    r := AvailableNearby(db.drivers, db.vehicles, Coord(lat, lng), radius, testing, dist);
    if useCache {
      kv.Put(key, DriverList(r), cacheTtl, now);
    }
  }

  /** The distance the index reported for a driver. */
  function IndexDistance(m: map<nat, real>, d: Driver): real {
    if d.id in m then m[d.id] else 0.0
  }

  /**
   * `whereIn('id', ...)` over the drivers the index reported, each given the
   * index's distance, then `sortBy('distance')`.
   */
  function IndexNearby(drivers: seq<Driver>, vehicles: seq<Vehicle>, m: map<nat, real>): (r: seq<NearbyDriver>)
    ensures SortedBy(r, Distance)
    ensures forall nd :: nd in r <==>
      && nd.driver in drivers
      && nd.driver.id in m
      && nd == NearbyDriver(nd.driver, VehiclesOf(vehicles, nd.driver.id), m[nd.driver.id])
    ensures DistinctBy(drivers, DriverId) ==> DistinctBy(r, NearbyDriverId)
    ensures m == map[] ==> r == []
  {
    var r := NearbyBy(drivers, vehicles, (d: Driver) => d.id in m, (d: Driver) => IndexDistance(m, d));
    assert m == map[] ==> r == [];
    r
  }

  /**
   * `getAvailableDriversNearRedis`: the drivers the geo index places within
   * `radius` of the query point (border included) and whose mirror flag is
   * truthy, with the index's distance, nearest first. Drivers the index
   * knows but the database does not are dropped.
   */
  method GetAvailableDriversNearRedis(db: Database, kv: KeyValueStore, lat: real, lng: real, radius: real,
                                      dist: (Coord, Coord) -> real) returns (r: seq<NearbyDriver>)
    ensures r == IndexNearby(db.drivers, db.vehicles,
                             AvailableInRadius(kv.locations, kv.availability, Coord(lat, lng), radius, dist))
  {
    var c := Coord(lat, lng);
    var hits := kv.GeoRadius(c, radius, dist);
    if hits == [] {
      CollectedAreAvailableInRadius(hits, map[], kv.locations, kv.availability, c, radius, dist);
      return [];
    }
    var withDistance := CollectAvailable(kv, hits);
    CollectedAreAvailableInRadius(hits, withDistance, kv.locations, kv.availability, c, radius, dist);
    if withDistance == map[] {
      return [];
    }
    r := IndexNearby(db.drivers, db.vehicles, withDistance);
  }

  /**
   * The pass over a GEORADIUS reply: each member whose mirror flag is truthy
   * is kept with the distance the reply gave it.
   */
  method CollectAvailable(kv: KeyValueStore, hits: seq<GeoHit>) returns (collected: map<nat, real>)
    requires DistinctBy(hits, HitId)
    ensures forall id :: id in collected <==>
      Truthy(kv.availability, id) && exists k :: 0 <= k < |hits| && hits[k].id == id
    ensures forall k :: 0 <= k < |hits| && Truthy(kv.availability, hits[k].id) ==>
      hits[k].id in collected && collected[hits[k].id] == hits[k].distance
  {
    collected := map[];
    var i := 0;
    while i < |hits|
      invariant 0 <= i <= |hits|
      invariant forall id :: id in collected <==>
        Truthy(kv.availability, id) && exists k :: 0 <= k < i && hits[k].id == id
      invariant forall k :: 0 <= k < i && Truthy(kv.availability, hits[k].id) ==>
        hits[k].id in collected && collected[hits[k].id] == hits[k].distance
    {
      if Truthy(kv.availability, hits[i].id) {
        collected := collected[hits[i].id := hits[i].distance];
      }
      assert forall k :: 0 <= k < i ==> HitId(hits[k]) != HitId(hits[i]);
      i := i + 1;
    }
  }

  /**
   * The ids a pass over a GEORADIUS reply keeps (truthy flag, reply distance)
   * are the available members in range.
   */
  lemma CollectedAreAvailableInRadius(hits: seq<GeoHit>, collected: map<nat, real>, locations: map<nat, Coord>,
                                      availability: map<nat, int>, c: Coord, radius: real,
                                      dist: (Coord, Coord) -> real)
    requires forall h :: h in hits <==> h.id in locations && h.distance == dist(locations[h.id], c) && h.distance <= radius
    requires forall id :: id in collected <==> Truthy(availability, id) && exists k :: 0 <= k < |hits| && hits[k].id == id
    requires forall k :: 0 <= k < |hits| && Truthy(availability, hits[k].id) ==>
      hits[k].id in collected && collected[hits[k].id] == hits[k].distance
    ensures collected == AvailableInRadius(locations, availability, c, radius, dist)
  {
    var m := AvailableInRadius(locations, availability, c, radius, dist);
    forall id | id in m ensures id in collected && collected[id] == m[id] {
      var h := GeoHit(id, dist(locations[id], c));
      assert h in hits;
      var k :| 0 <= k < |hits| && hits[k] == h;
    }
    forall id | id in collected ensures id in m {
      var k :| 0 <= k < |hits| && hits[k].id == id;
      assert hits[k] in hits;
    }
  }

  /**
   * What the index path returns, in terms of the stores: exactly the database
   * drivers that the geo index places within the radius and whose mirror flag
   * is truthy, each with its index distance, nearest first.
   */
  lemma IndexPathSelects(drivers: seq<Driver>, vehicles: seq<Vehicle>, locations: map<nat, Coord>,
                         availability: map<nat, int>, c: Coord, radius: real, dist: (Coord, Coord) -> real,
                         nd: NearbyDriver)
    ensures var r := IndexNearby(drivers, vehicles, AvailableInRadius(locations, availability, c, radius, dist));
      nd in r <==>
        && nd.driver in drivers
        && nd.driver.id in locations
        && dist(locations[nd.driver.id], c) <= radius
        && Truthy(availability, nd.driver.id)
        && nd == NearbyDriver(nd.driver, VehiclesOf(vehicles, nd.driver.id), dist(locations[nd.driver.id], c))
  {
  }

  /** No index member in range, or none available, gives the empty list. */
  lemma IndexPathEmptyWhenNoneAvailable(drivers: seq<Driver>, vehicles: seq<Vehicle>, locations: map<nat, Coord>,
                                        availability: map<nat, int>, c: Coord, radius: real,
                                        dist: (Coord, Coord) -> real)
    requires forall id :: id in locations && dist(locations[id], c) <= radius ==> !Truthy(availability, id)
    ensures IndexNearby(drivers, vehicles, AvailableInRadius(locations, availability, c, radius, dist)) == []
  {
    var m := AvailableInRadius(locations, availability, c, radius, dist);
    assert forall id :: id !in m;
  }

  /** The cache entries with every nearby key removed. */
  function WithoutNearby(entries: map<CacheKey, Entry>): (r: map<CacheKey, Entry>)
    ensures forall k :: k in r <==> k in entries && !HasNearbyPrefix(k)
    ensures forall k :: k in r ==> r[k] == entries[k]
  {
    map k | k in entries && !HasNearbyPrefix(k) :: entries[k]
  }

  /**
   * `invalidateNearbyDriversCache`: each SCAN pass returns a batch of keys
   * matching `drivers:available:near:*`, which are deleted; the scan ends
   * when none remain. Every nearby key goes and every other key stays.
   */
  method InvalidateNearbyDriversCache(kv: KeyValueStore)
    requires kv.Valid()
    modifies kv
    ensures kv.Valid()
    ensures kv.entries == WithoutNearby(old(kv.entries))
    ensures kv.locations == old(kv.locations) && kv.availability == old(kv.availability)
  {
    var pending := set k | k in kv.entries && HasNearbyPrefix(k);
    while pending != {}
      invariant kv.Valid()
      invariant pending == set k | k in kv.entries && HasNearbyPrefix(k)
      invariant forall k :: k in kv.entries <==> k in old(kv.entries) && (!HasNearbyPrefix(k) || k in pending)
      invariant forall k :: k in kv.entries ==> kv.entries[k] == old(kv.entries)[k]
      invariant kv.locations == old(kv.locations) && kv.availability == old(kv.availability)
      decreases |pending|
    {
      var batch :| batch != {} && batch <= pending;
      kv.Forget(batch);
      pending := pending - batch;
    }
  }

  /**
   * `updateDriverLocation`: when the update matches the driver's row, the row
   * gets the new position stamped `now`, the geo index moves the driver there
   * (unless GEOADD refuses a latitude beyond the encodable band, which leaves
   * the index as it was), the nearby cache is emptied and the answer is true;
   * otherwise nothing but the (unmatched) update happens and the answer is
   * false.
   */
  method UpdateDriverLocation(db: Database, kv: KeyValueStore, driverId: nat, lat: real, lng: real, now: int)
    returns (updated: bool)
    requires db.Valid() && kv.Valid()
    modifies db, kv
    ensures db.Valid() && kv.Valid()
    ensures updated <==> HasDriver(old(db.drivers), driverId)
    ensures db.drivers == Relocated(old(db.drivers), driverId, lat, lng, now)
    ensures db.vehicles == old(db.vehicles) && db.trips == old(db.trips)
    ensures db.users == old(db.users) && db.vehicleTypes == old(db.vehicleTypes)
    ensures db.statuses == old(db.statuses) && db.nextTripId == old(db.nextTripId)
    ensures updated && GeoIndexable(Coord(lat, lng)) ==> kv.locations == old(kv.locations)[driverId := Coord(lat, lng)]
    ensures updated && !GeoIndexable(Coord(lat, lng)) ==> kv.locations == old(kv.locations)
    ensures updated ==> kv.entries == WithoutNearby(old(kv.entries))
    ensures !updated ==> kv.locations == old(kv.locations) && kv.entries == old(kv.entries)
    ensures kv.availability == old(kv.availability)
  {
    updated := db.UpdateDriverLocation(driverId, lat, lng, now);
    if !updated {
      return;
    }
    kv.GeoAdd(driverId, Coord(lat, lng));
    InvalidateNearbyDriversCache(kv);
  }

  /**
   * `updateDriverAvailability`: when the update matches the driver's row, the
   * row and the mirror flag (1 or 0) take the new availability and the nearby
   * cache is emptied; otherwise the key-value store is untouched and the
   * answer is false.
   */
  method UpdateDriverAvailability(db: Database, kv: KeyValueStore, driverId: nat, isAvailable: bool)
    returns (updated: bool)
    requires db.Valid() && kv.Valid()
    modifies db, kv
    ensures db.Valid() && kv.Valid()
    ensures updated <==> HasDriver(old(db.drivers), driverId)
    ensures db.drivers == WithAvailability(old(db.drivers), driverId, isAvailable)
    ensures db.vehicles == old(db.vehicles) && db.trips == old(db.trips)
    ensures db.users == old(db.users) && db.vehicleTypes == old(db.vehicleTypes)
    ensures db.statuses == old(db.statuses) && db.nextTripId == old(db.nextTripId)
    ensures updated ==> kv.availability == old(kv.availability)[driverId := if isAvailable then 1 else 0]
    ensures updated ==> kv.entries == WithoutNearby(old(kv.entries))
    ensures !updated ==> kv.availability == old(kv.availability) && kv.entries == old(kv.entries)
    ensures kv.locations == old(kv.locations)
  {
    updated := db.UpdateDriverAvailability(driverId, isAvailable);
    if !updated {
      return;
    }
    kv.SetAvailability(driverId, isAvailable);
    InvalidateNearbyDriversCache(kv);
  }

  /** An update that matches no row leaves the drivers table as it was. */
  lemma {:induction false} UnmatchedUpdateChangesNoRow(ds: seq<Driver>, id: nat, lat: real, lng: real, now: int,
                                                        isAvailable: bool)
    requires !HasDriver(ds, id)
    ensures Relocated(ds, id, lat, lng, now) == ds
    ensures WithAvailability(ds, id, isAvailable) == ds
  {
    assert forall i :: 0 <= i < |ds| ==> ds[i].id != id by {
      forall i | 0 <= i < |ds| ensures ds[i].id != id {
        assert ds[i] in ds;
      }
    }
  }
}
