/**
 * The queued availability job: copies the position and availability of every
 * driver with a recent location into the geo index and the mirror, then
 * pre-computes the nearby result for four fixed points.
 */
module AvailabilityJob {
  import opened Wrappers
  import opened Lists
  import opened Models
  import opened Stores
  import opened DriverService

  /** Whole minutes after which a location is too old to publish. */
  const StaleAfterMinutes := 5
  const PrewarmRadius: real := 5.0
  /** Seconds a pre-computed result lives. */
  const PrewarmTtl := 60

  /** City centre, airport, train station and shopping mall. */
  const PopularLocations: seq<Coord> := [
    Coord(40.7128, -74.0060),
    Coord(40.6413, -73.7781),
    Coord(40.7506, -73.9939),
    Coord(40.7516, -73.9755)
  ]

  /**
   * The location was stamped, and more than five whole minutes separate the
   * stamp from `now`. In seconds: an unstamped location is never stale, and a
   * stamp is stale exactly when at least six whole minutes (360 s) lie between
   * it and `now`, so a location exactly five minutes old is still published.
   */
  predicate IsStale(d: Driver, now: int): (stale: bool)
    ensures d.locationUpdatedAt.None? ==> !stale
    ensures d.locationUpdatedAt.Some? ==>
      (stale <==> now - d.locationUpdatedAt.value >= 360 || d.locationUpdatedAt.value - now >= 360)
  {
    d.locationUpdatedAt.Some? && DiffInMinutes(d.locationUpdatedAt.value, now) > StaleAfterMinutes
  }

  /** The driver is written to the index and the mirror by the job. */
  predicate Published(d: Driver, now: int) {
    Located(d) && !IsStale(d, now)
  }

  /** The driver's position is written to the index: published, and inside the band GEOADD accepts. */
  predicate Indexed(d: Driver, now: int) {
    Published(d, now) && GeoIndexable(Position(d))
  }

  /**
   * The geo index after the job's loop has visited `ds` in order. The job
   * never removes an entry and adds none but indexed drivers.
   */
  function SyncedLocations(locations: map<nat, Coord>, ds: seq<Driver>, now: int): (r: map<nat, Coord>)
    ensures locations.Keys <= r.Keys
    ensures forall id :: id in r ==> id in locations || exists d :: d in ds && Indexed(d, now) && d.id == id
  {
    if ds == [] then locations
    else
      var before := SyncedLocations(locations, ds[..|ds| - 1], now);
      var d := ds[|ds| - 1];
      assert forall e :: e in ds[..|ds| - 1] ==> e in ds;
      if Indexed(d, now) then before[d.id := Position(d)] else before
  }

  /**
   * The availability mirror after the job's loop has visited `ds` in order.
   * The job never removes a flag and adds none but published drivers'.
   */
  function SyncedFlags(availability: map<nat, int>, ds: seq<Driver>, now: int): (r: map<nat, int>)
    ensures availability.Keys <= r.Keys
    ensures forall id :: id in r ==> id in availability || exists d :: d in ds && Published(d, now) && d.id == id
  {
    if ds == [] then availability
    else
      var before := SyncedFlags(availability, ds[..|ds| - 1], now);
      var d := ds[|ds| - 1];
      assert forall e :: e in ds[..|ds| - 1] ==> e in ds;
      if Published(d, now) then before[d.id := if d.isAvailable then 1 else 0] else before
  }

  /**
   * What the loop leaves in the index, for drivers with unique ids: each
   * indexed driver at its position; every other id exactly as before.
   */
  lemma {:induction false} SyncLocationsOutcome(locations: map<nat, Coord>, ds: seq<Driver>, now: int)
    requires DistinctBy(ds, DriverId)
    ensures var r := SyncedLocations(locations, ds, now);
      forall d :: d in ds && Indexed(d, now) ==> d.id in r && r[d.id] == Position(d)
    ensures var r := SyncedLocations(locations, ds, now);
      forall id :: (forall d :: d in ds && Indexed(d, now) ==> d.id != id) ==>
        (id in r <==> id in locations) && (id in locations ==> r[id] == locations[id])
  {
    if ds != [] {
      var init := ds[..|ds| - 1];
      assert ds == init + [ds[|ds| - 1]];
      DistinctInit(ds, DriverId);
      SyncLocationsOutcome(locations, init, now);
    }
  }

  /**
   * What the loop leaves in the mirror, for drivers with unique ids: each
   * published driver's flag as 1 or 0; every other id exactly as before.
   */
  lemma {:induction false} SyncFlagsOutcome(availability: map<nat, int>, ds: seq<Driver>, now: int)
    requires DistinctBy(ds, DriverId)
    ensures var r := SyncedFlags(availability, ds, now);
      forall d :: d in ds && Published(d, now) ==> d.id in r && r[d.id] == (if d.isAvailable then 1 else 0)
    ensures var r := SyncedFlags(availability, ds, now);
      forall id :: (forall d :: d in ds && Published(d, now) ==> d.id != id) ==>
        (id in r <==> id in availability) && (id in availability ==> r[id] == availability[id])
  {
    if ds != [] {
      var init := ds[..|ds| - 1];
      assert ds == init + [ds[|ds| - 1]];
      DistinctInit(ds, DriverId);
      SyncFlagsOutcome(availability, init, now);
    }
  }

  /** The key under which a point's result is pre-computed. */
  function PointKey(p: Coord): CacheKey {
    NearbyCacheKey(p.lat, p.lng, PrewarmRadius)
  }

  /** The four fixed points round to four different keys. */
  lemma PopularKeysDistinct()
    ensures DistinctBy(PopularLocations, PointKey)
  {
    var ps := PopularLocations;
    assert Round3(ps[0].lat) == 40713 && Round3(ps[1].lat) == 40641;
    assert Round3(ps[2].lat) == 40751 && Round3(ps[3].lat) == 40752;
    forall i, j | 0 <= i < j < |ps|
      ensures PointKey(ps[i]) != PointKey(ps[j])
    {
      DifferentRoundingSplitsKey(ps[i].lat, ps[i].lng, ps[j].lat, ps[j].lng, PrewarmRadius);
    }
  }

  /**
   * The cache after pre-computing `points` in order. No entry is removed;
   * which keys are written, and with what, is stated by the two lemmas below.
   */
  function Prewarmed(entries: map<CacheKey, Entry>, points: seq<Coord>, drivers: seq<Driver>, vehicles: seq<Vehicle>,
                     locations: map<nat, Coord>, availability: map<nat, int>, now: int,
                     dist: (Coord, Coord) -> real): (r: map<CacheKey, Entry>)
    ensures entries.Keys <= r.Keys
  {
    if points == [] then entries
    else
      var before := Prewarmed(entries, points[..|points| - 1], drivers, vehicles, locations, availability, now, dist);
      var p := points[|points| - 1];
      assert forall q :: q in points[..|points| - 1] ==> q in points;
      var found := AvailableInRadius(locations, availability, p, PrewarmRadius, dist);
      if found == map[] then before
      else before[PointKey(p) := Entry(DriverList(IndexNearby(drivers, vehicles, found)), now + PrewarmTtl)]
  }

  /** The point has an available driver within the pre-warm radius. */
  predicate Warm(p: Coord, locations: map<nat, Coord>, availability: map<nat, int>, dist: (Coord, Coord) -> real) {
    AvailableInRadius(locations, availability, p, PrewarmRadius, dist) != map[]
  }

  /**
   * For points with distinct keys, each point with an available driver in
   * range holds, for 60 seconds, exactly what the index path answers there.
   */
  lemma {:induction false} PrewarmWrites(entries: map<CacheKey, Entry>, points: seq<Coord>, drivers: seq<Driver>,
                                         vehicles: seq<Vehicle>, locations: map<nat, Coord>,
                                         availability: map<nat, int>, now: int, dist: (Coord, Coord) -> real)
    requires DistinctBy(points, PointKey)
    ensures var r := Prewarmed(entries, points, drivers, vehicles, locations, availability, now, dist);
      forall p :: p in points && Warm(p, locations, availability, dist) ==>
        && PointKey(p) in r
        && r[PointKey(p)] == Entry(DriverList(IndexNearby(drivers, vehicles,
                                     AvailableInRadius(locations, availability, p, PrewarmRadius, dist))),
                                   now + PrewarmTtl)
  {
    if points != [] {
      var init := points[..|points| - 1];
      assert points == init + [points[|points| - 1]];
      DistinctInit(points, PointKey);
      PrewarmWrites(entries, init, drivers, vehicles, locations, availability, now, dist);
    }
  }

  /** Pre-computing touches no key but those of points with an available driver in range. */
  lemma {:induction false} PrewarmKeeps(entries: map<CacheKey, Entry>, points: seq<Coord>, drivers: seq<Driver>,
                                        vehicles: seq<Vehicle>, locations: map<nat, Coord>,
                                        availability: map<nat, int>, now: int, dist: (Coord, Coord) -> real,
                                        k: CacheKey)
    requires forall p :: p in points && Warm(p, locations, availability, dist) ==> PointKey(p) != k
    ensures var r := Prewarmed(entries, points, drivers, vehicles, locations, availability, now, dist);
      (k in r <==> k in entries) && (k in entries ==> r[k] == entries[k])
  {
    if points != [] {
      var init := points[..|points| - 1];
      assert forall p :: p in init ==> p in points;
      PrewarmKeeps(entries, init, drivers, vehicles, locations, availability, now, dist, k);
    }
  }

  /**
   * `handle`: visits the drivers with both coordinates, publishes each one
   * whose location is not stale, then pre-computes the popular points.
   */
  method Handle(db: Database, kv: KeyValueStore, now: int, dist: (Coord, Coord) -> real)
    requires kv.Valid()
    modifies kv
    ensures kv.Valid()
    ensures kv.locations == SyncedLocations(old(kv.locations), Filter(db.drivers, Located), now)
    ensures kv.availability == SyncedFlags(old(kv.availability), Filter(db.drivers, Located), now)
    ensures kv.entries == Prewarmed(old(kv.entries), PopularLocations, db.drivers, db.vehicles,
                                    kv.locations, kv.availability, now, dist)
  {
    var drivers := Filter(db.drivers, Located);
    var i := 0;
    while i < |drivers|
      invariant 0 <= i <= |drivers|
      invariant kv.Valid()
      invariant kv.locations == SyncedLocations(old(kv.locations), drivers[..i], now)
      invariant kv.availability == SyncedFlags(old(kv.availability), drivers[..i], now)
      invariant kv.entries == old(kv.entries)
    {
      var d := drivers[i];
      assert d in drivers;
      assert drivers[..i + 1][..i] == drivers[..i];
      if !IsStale(d, now) {
        kv.GeoAdd(d.id, Position(d));
        kv.SetAvailability(d.id, d.isAvailable);
      }
      i := i + 1;
    }
    assert drivers[..i] == drivers;
    PreCalculatePopularLocations(db, kv, now, dist);
  }

  /**
   * `preCalculatePopularLocations`: for each fixed point, the available
   * members of the geo index within 5 km are loaded from the database, sorted
   * by distance and stored for 60 seconds; a point with none stores nothing.
   */
  method PreCalculatePopularLocations(db: Database, kv: KeyValueStore, now: int, dist: (Coord, Coord) -> real)
    requires kv.Valid()
    modifies kv
    ensures kv.Valid()
    ensures kv.entries == Prewarmed(old(kv.entries), PopularLocations, db.drivers, db.vehicles,
                                    kv.locations, kv.availability, now, dist)
    ensures kv.locations == old(kv.locations) && kv.availability == old(kv.availability)
  {
    var points := PopularLocations;
    for j := 0 to |points|
      invariant kv.Valid()
      invariant kv.locations == old(kv.locations) && kv.availability == old(kv.availability)
      invariant kv.entries == Prewarmed(old(kv.entries), points[..j], db.drivers, db.vehicles,
                                        kv.locations, kv.availability, now, dist)
    {
      assert points[..j + 1][..j] == points[..j];
      PrewarmPoint(db, kv, points[j], now, dist);
    }
    assert points[..|points|] == points;
  }

  /** One pass of the loop over the fixed points. */
  method PrewarmPoint(db: Database, kv: KeyValueStore, p: Coord, now: int, dist: (Coord, Coord) -> real)
    requires kv.Valid()
    modifies kv
    ensures kv.Valid()
    ensures var found := AvailableInRadius(kv.locations, kv.availability, p, PrewarmRadius, dist);
      kv.entries == if found == map[] then old(kv.entries)
                    else old(kv.entries)[PointKey(p) := Entry(DriverList(IndexNearby(db.drivers, db.vehicles, found)),
                                                              now + PrewarmTtl)]
    ensures kv.locations == old(kv.locations) && kv.availability == old(kv.availability)
  {
    ghost var found := AvailableInRadius(kv.locations, kv.availability, p, PrewarmRadius, dist);
    var hits := kv.GeoRadius(p, PrewarmRadius, dist);
    var available := CollectAvailable(kv, hits);
    CollectedAreAvailableInRadius(hits, available, kv.locations, kv.availability, p, PrewarmRadius, dist);
    assert available == found;
    if hits == [] {
      assert available == map[];
      return;
    }
    var key := PointKey(p);
    if available != map[] {
      var sorted := IndexNearby(db.drivers, db.vehicles, available);
      kv.Put(key, DriverList(sorted), PrewarmTtl, now);
    }
  }

  /**
   * After the job, each popular point with an available driver in range holds
   * the index path's answer for that point and a 5 km radius, whatever the
   * cache held before; other keys are as the job found them.
   */
  lemma JobPrewarmsIndexAnswers(entries: map<CacheKey, Entry>, drivers: seq<Driver>, vehicles: seq<Vehicle>,
                                locations: map<nat, Coord>, availability: map<nat, int>, now: int,
                                dist: (Coord, Coord) -> real, p: Coord)
    requires p in PopularLocations
    requires AvailableInRadius(locations, availability, p, PrewarmRadius, dist) != map[]
    ensures var r := Prewarmed(entries, PopularLocations, drivers, vehicles, locations, availability, now, dist);
      && NearbyCacheKey(p.lat, p.lng, 5.0) in r
      && r[NearbyCacheKey(p.lat, p.lng, 5.0)].value
         == DriverList(IndexNearby(drivers, vehicles, AvailableInRadius(locations, availability, p, 5.0, dist)))
      && r[NearbyCacheKey(p.lat, p.lng, 5.0)].expiresAt == now + PrewarmTtl
  {
    PopularKeysDistinct();
    PrewarmWrites(entries, PopularLocations, drivers, vehicles, locations, availability, now, dist);
  }

  /**
   * A stale driver's earlier index entry is kept: the job neither refreshes
   * nor removes it, so the index path can still return that driver.
   */
  lemma StaleEntrySurvives(locations: map<nat, Coord>, ds: seq<Driver>, d: Driver, now: int)
    requires DistinctBy(ds, DriverId)
    requires d in ds && IsStale(d, now) && d.id in locations
    ensures d.id in SyncedLocations(locations, ds, now)
    ensures SyncedLocations(locations, ds, now)[d.id] == locations[d.id]
  {
    SyncLocationsOutcome(locations, ds, now);
    forall e | e in ds && Indexed(e, now) ensures e.id != d.id {
      var i :| 0 <= i < |ds| && ds[i] == e;
      var j :| 0 <= j < |ds| && ds[j] == d;
      if i < j {
        assert DriverId(ds[i]) != DriverId(ds[j]);
      } else if j < i {
        assert DriverId(ds[j]) != DriverId(ds[i]);
      }
    }
  }
}
