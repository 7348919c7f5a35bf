/**
 * The rows the core reads and writes (drivers, vehicles, trips), the trip
 * status names, Carbon's minute difference, and the query scopes of the
 * Driver model: `available` and both branches of `nearby`.
 *
 * Coordinates, radii and distances are exact reals (the source uses floats);
 * instants are whole seconds; money is whole cents.
 */
module Models {
  import opened Wrappers
  import opened Lists
  import opened PhpFloat

  /** A point on the map, in degrees. */
  datatype Coord = Coord(lat: real, lng: real)

  /** A row of the drivers table, restricted to the columns the core uses. */
  datatype Driver = Driver(
    id: nat,
    userId: nat,
    isAvailable: bool,
    lat: Option<real>,
    lng: Option<real>,
    locationUpdatedAt: Option<int>)

  function DriverId(d: Driver): nat {
    d.id
  }

  /** Both coordinate columns are non-null. */
  predicate Located(d: Driver) {
    d.lat.Some? && d.lng.Some?
  }

  function Position(d: Driver): Coord
    requires Located(d)
  {
    Coord(d.lat.value, d.lng.value)
  }

  /** A row of the vehicles table, joined with its vehicle type's name. */
  datatype Vehicle = Vehicle(id: nat, driverId: nat, typeName: string, isActive: bool)

  /** The `vehicles` relation of a driver, as eager loading returns it. */
  function VehiclesOf(vehicles: seq<Vehicle>, driverId: nat): (r: seq<Vehicle>)
    ensures forall v :: v in r <==> v in vehicles && v.driverId == driverId
  {
    Filter(vehicles, (v: Vehicle) => v.driverId == driverId)
  }

  /** The four rows of trip_statuses, identified by name. */
  datatype TripStatus = Scheduled | InProgress | Completed | Cancelled

  function StatusName(s: TripStatus): string {
    match s
    case Scheduled => "scheduled"
    case InProgress => "in_progress"
    case Completed => "completed"
    case Cancelled => "cancelled"
  }

  /** Looks a status up by name; names that no status carries find nothing. */
  function ParseStatus(name: string): (r: Option<TripStatus>)
    ensures r.Some? ==> StatusName(r.value) == name
    ensures r.None? ==> forall s :: StatusName(s) != name
  {
    if name == "scheduled" then Some(Scheduled)
    else if name == "in_progress" then Some(InProgress)
    else if name == "completed" then Some(Completed)
    else if name == "cancelled" then Some(Cancelled)
    else None
  }

  lemma StatusNameRoundTrip(s: TripStatus)
    ensures ParseStatus(StatusName(s)) == Some(s)
  {
  }

  /** An address with its coordinates. */
  datatype Place = Place(address: string, lat: real, lng: real)

  /** A row of the trips table; fares in cents, instants in seconds. */
  datatype Trip = Trip(
    id: nat,
    userId: nat,
    driverId: nat,
    vehicleId: nat,
    status: TripStatus,
    origin: Place,
    destination: Place,
    scheduledAt: int,
    startedAt: Option<int>,
    completedAt: Option<int>,
    durationMinutes: Option<int>,
    distanceKm: Option<int>,
    baseFare: int,
    distanceFare: int,
    timeFare: int,
    totalFare: int,
    paymentMethod: string,
    createdAt: int)

  function TripId(t: Trip): nat {
    t.id
  }

  /** Carbon's diffInMinutes: the whole minutes between two instants, in either order. */
  function DiffInMinutes(from: int, to: int): (m: nat)
    ensures 60 * m <= (if to >= from then to - from else from - to) < 60 * (m + 1)
  {
    (if to >= from then to - from else from - to) / 60
  }

  /** A driver row as a nearby query returns it: eager-loaded vehicles and a distance. */
  datatype NearbyDriver = NearbyDriver(driver: Driver, vehicles: seq<Vehicle>, distance: real)

  function Distance(nd: NearbyDriver): real {
    nd.distance
  }

  function NearbyDriverId(nd: NearbyDriver): nat {
    nd.driver.id
  }

  /** `nd` is driver `nd.driver` with its vehicles and the distance `metric` gives it. */
  predicate Loaded(nd: NearbyDriver, vehicles: seq<Vehicle>, metric: Driver -> real) {
    nd == NearbyDriver(nd.driver, VehiclesOf(vehicles, nd.driver.id), metric(nd.driver))
  }

  /** Attaches to each driver its vehicles and its distance, keeping the order. */
  function Hydrate(ds: seq<Driver>, vehicles: seq<Vehicle>, metric: Driver -> real): (r: seq<NearbyDriver>)
    ensures |r| == |ds|
    ensures forall i :: 0 <= i < |ds| ==> r[i].driver == ds[i] && Loaded(r[i], vehicles, metric)
  {
    seq(|ds|, i requires 0 <= i < |ds| => NearbyDriver(ds[i], VehiclesOf(vehicles, ds[i].id), metric(ds[i])))
  }

  lemma HydrateMembership(ds: seq<Driver>, vehicles: seq<Vehicle>, metric: Driver -> real, nd: NearbyDriver)
    ensures nd in Hydrate(ds, vehicles, metric) <==> nd.driver in ds && Loaded(nd, vehicles, metric)
  {
    var r := Hydrate(ds, vehicles, metric);
    if nd.driver in ds && Loaded(nd, vehicles, metric) {
      var i :| 0 <= i < |ds| && ds[i] == nd.driver;
      assert r[i] == nd;
    }
  }

  /**
   * The shape shared by every nearby query: keep the drivers `keep` accepts,
   * load their vehicles and distance, order by ascending distance.
   */
  function NearbyBy(ds: seq<Driver>, vehicles: seq<Vehicle>, keep: Driver -> bool, metric: Driver -> real)
    : (r: seq<NearbyDriver>)
    ensures SortedBy(r, Distance)
    ensures forall nd :: nd in r <==> nd.driver in ds && keep(nd.driver) && Loaded(nd, vehicles, metric)
    ensures DistinctBy(ds, DriverId) ==> DistinctBy(r, NearbyDriverId)
  {
    var kept := Filter(ds, keep);
    var hydrated := Hydrate(kept, vehicles, metric);
    var r := SortBy(hydrated, Distance);
    assert forall nd :: nd in r <==> nd.driver in ds && keep(nd.driver) && Loaded(nd, vehicles, metric) by {
      SameElements(hydrated, r);
      forall nd ensures nd in hydrated <==> nd.driver in kept && Loaded(nd, vehicles, metric) {
        HydrateMembership(kept, vehicles, metric, nd);
      }
    }
    assert DistinctBy(ds, DriverId) ==> DistinctBy(r, NearbyDriverId) by {
      if DistinctBy(ds, DriverId) {
        FilterKeepsDistinct(ds, keep, DriverId);
        assert DistinctBy(hydrated, NearbyDriverId) by {
          forall i, j | 0 <= i < j < |hydrated|
            ensures NearbyDriverId(hydrated[i]) != NearbyDriverId(hydrated[j])
          {
            assert DriverId(kept[i]) != DriverId(kept[j]);
          }
        }
        PermutationKeepsDistinct(hydrated, r, NearbyDriverId);
      }
    }
    r
  }

  predicate IsAvailable(d: Driver) {
    d.isAvailable
  }

  /** Scope `available`: the drivers whose is_available flag is set, in table order. */
  function Available(ds: seq<Driver>): (r: seq<Driver>)
    ensures forall d :: d in r <==> d in ds && d.isAvailable
    ensures DistinctBy(ds, DriverId) ==> DistinctBy(r, DriverId)
  {
    assert DistinctBy(ds, DriverId) ==> DistinctBy(Filter(ds, IsAvailable), DriverId) by {
      if DistinctBy(ds, DriverId) {
        FilterKeepsDistinct(ds, IsAvailable, DriverId);
      }
    }
    Filter(ds, IsAvailable)
  }

  /** Testing branch of scope `nearby`: |Δlat| and |Δlng| both below radius/111 degrees. */
  predicate InTestingBox(d: Driver, c: Coord, radius: real) {
    Located(d) && Abs(d.lat.value - c.lat) < radius / 111.0 && Abs(d.lng.value - c.lng) < radius / 111.0
  }

  /** Testing branch's `distance` column: |Δlat| + |Δlng| (in degrees). */
  function TestingDistance(d: Driver, c: Coord): real {
    if Located(d) then Abs(d.lat.value - c.lat) + Abs(d.lng.value - c.lng) else 0.0
  }

  /** Scope `nearby`, testing branch: box filter, ordered by |Δlat| + |Δlng|. */
  function NearbyTesting(ds: seq<Driver>, vehicles: seq<Vehicle>, c: Coord, radius: real): (r: seq<NearbyDriver>)
    ensures SortedBy(r, Distance)
    ensures forall nd :: nd in r <==>
      && nd.driver in ds
      && InTestingBox(nd.driver, c, radius)
      && nd == NearbyDriver(nd.driver, VehiclesOf(vehicles, nd.driver.id), TestingDistance(nd.driver, c))
    ensures DistinctBy(ds, DriverId) ==> DistinctBy(r, NearbyDriverId)
  {
    NearbyBy(ds, vehicles, d => InTestingBox(d, c, radius), d => TestingDistance(d, c))
  }

  /** Production branch's `distance`: the great-circle distance `dist` gives, null without a position. */
  function ProductionDistance(d: Driver, c: Coord, dist: (Coord, Coord) -> real): real {
    if Located(d) then dist(Position(d), c) else 0.0
  }

  /** Scope `nearby`, production branch: distance strictly below the radius, ascending. */
  function NearbyProduction(ds: seq<Driver>, vehicles: seq<Vehicle>, c: Coord, radius: real,
                            dist: (Coord, Coord) -> real): (r: seq<NearbyDriver>)
    ensures SortedBy(r, Distance)
    ensures forall nd :: nd in r <==>
      && nd.driver in ds
      && Located(nd.driver)
      && dist(Position(nd.driver), c) < radius
      && nd == NearbyDriver(nd.driver, VehiclesOf(vehicles, nd.driver.id), dist(Position(nd.driver), c))
    ensures DistinctBy(ds, DriverId) ==> DistinctBy(r, NearbyDriverId)
  {
    NearbyBy(ds, vehicles, d => Located(d) && dist(Position(d), c) < radius, d => ProductionDistance(d, c, dist))
  }

  /**
   * `Driver::available()->nearby(...)`, on the branch the environment selects:
   * the available drivers of that branch's filter, nearest first, each once.
   */
  function AvailableNearby(ds: seq<Driver>, vehicles: seq<Vehicle>, c: Coord, radius: real,
                           testing: bool, dist: (Coord, Coord) -> real): (r: seq<NearbyDriver>)
    ensures SortedBy(r, Distance)
    ensures testing ==> forall nd :: nd in r <==>
      && nd.driver in ds && nd.driver.isAvailable
      && InTestingBox(nd.driver, c, radius)
      && nd == NearbyDriver(nd.driver, VehiclesOf(vehicles, nd.driver.id), TestingDistance(nd.driver, c))
    ensures !testing ==> forall nd :: nd in r <==>
      && nd.driver in ds && nd.driver.isAvailable
      && Located(nd.driver) && dist(Position(nd.driver), c) < radius
      && nd == NearbyDriver(nd.driver, VehiclesOf(vehicles, nd.driver.id), dist(Position(nd.driver), c))
    ensures DistinctBy(ds, DriverId) ==> DistinctBy(r, NearbyDriverId)
  {
    if testing then NearbyTesting(Available(ds), vehicles, c, radius)
    else NearbyProduction(Available(ds), vehicles, c, radius, dist)
  }

  /** A driver standing on the query point is in the testing box for every positive radius. */
  lemma DriverAtQueryPointIsNearby(ds: seq<Driver>, vehicles: seq<Vehicle>, d: Driver, radius: real)
    requires d in ds && Located(d)
    requires radius > 0.0
    ensures NearbyDriver(d, VehiclesOf(vehicles, d.id), 0.0) in NearbyTesting(ds, vehicles, Position(d), radius)
  {
  }

  /** A driver without coordinates is in neither branch's result. */
  lemma UnlocatedDriverNeverNearby(ds: seq<Driver>, vehicles: seq<Vehicle>, c: Coord, radius: real,
                                   testing: bool, dist: (Coord, Coord) -> real, nd: NearbyDriver)
    requires !Located(nd.driver)
    ensures nd !in AvailableNearby(ds, vehicles, c, radius, testing, dist)
  {
  }
}
