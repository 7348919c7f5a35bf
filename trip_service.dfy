/**
 * The trip views and their caches: a driver's in-progress trips (through the
 * query builder or through Eloquent, under different keys) and a user's trip
 * history, each computed on a miss and kept for a ttl, and the two exact-key
 * invalidations.
 */
module TripService {
  import opened Lists
  import opened Models
  import opened Stores

  /** Seconds a cached trip list lives when the caller gives no ttl. */
  const DefaultTripTtl := 300

  /** Sort key for `orderBy('created_at', 'desc')`. */
  function NewestCreatedFirst(t: Trip): real {
    -(t.createdAt as real)
  }

  /** Sort key for `orderBy('scheduled_at', 'desc')`. */
  function LatestScheduledFirst(t: Trip): real {
    -(t.scheduledAt as real)
  }

  predicate InProgressFor(t: Trip, driverId: nat) {
    t.driverId == driverId && t.status == InProgress
  }

  /**
   * The Eloquent query: the driver's trips whose status is `in_progress`,
   * newest first, each matching row once.
   */
  function ActiveTrips(trips: seq<Trip>, driverId: nat): (r: seq<Trip>)
    ensures forall t :: t in r <==> t in trips && InProgressFor(t, driverId)
    ensures forall i, j :: 0 <= i < j < |r| ==> r[i].createdAt >= r[j].createdAt
  {
    var kept := Filter(trips, (t: Trip) => InProgressFor(t, driverId));
    var r := SortBy(kept, NewestCreatedFirst);
    assert forall i, j :: 0 <= i < j < |r| ==> NewestCreatedFirst(r[i]) <= NewestCreatedFirst(r[j]);
    SameElements(kept, r);
    r
  }

  /**
   * The query-builder query: as the Eloquent one, but the inner join with
   * users drops a trip whose user row is missing.
   */
  function ActiveTripsJoined(trips: seq<Trip>, users: set<nat>, driverId: nat): (r: seq<Trip>)
    ensures forall t :: t in r <==> t in trips && InProgressFor(t, driverId) && t.userId in users
    ensures forall i, j :: 0 <= i < j < |r| ==> r[i].createdAt >= r[j].createdAt
  {
    var kept := Filter(trips, (t: Trip) => InProgressFor(t, driverId) && t.userId in users);
    var r := SortBy(kept, NewestCreatedFirst);
    assert forall i, j :: 0 <= i < j < |r| ==> NewestCreatedFirst(r[i]) <= NewestCreatedFirst(r[j]);
    SameElements(kept, r);
    r
  }

  /** When every trip's user exists, the two implementations return the same list. */
  lemma JoinedAgreesWithEloquent(trips: seq<Trip>, users: set<nat>, driverId: nat)
    requires forall t :: t in trips ==> t.userId in users
    ensures ActiveTripsJoined(trips, users, driverId) == ActiveTrips(trips, driverId)
  {
    FilterCongruent(trips, (t: Trip) => InProgressFor(t, driverId) && t.userId in users,
                    (t: Trip) => InProgressFor(t, driverId));
  }

  /** A user's trips, latest scheduled first, each row once. */
  function TripHistory(trips: seq<Trip>, userId: nat): (r: seq<Trip>)
    ensures forall t :: t in r <==> t in trips && t.userId == userId
    ensures forall i, j :: 0 <= i < j < |r| ==> r[i].scheduledAt >= r[j].scheduledAt
  {
    var kept := Filter(trips, (t: Trip) => t.userId == userId);
    var r := SortBy(kept, LatestScheduledFirst);
    assert forall i, j :: 0 <= i < j < |r| ==> LatestScheduledFirst(r[i]) <= LatestScheduledFirst(r[j]);
    SameElements(kept, r);
    r
  }

  /** The driver's view holds each in-progress trip of the driver as often as the table does, and nothing else. */
  lemma ActiveTripsCounts(trips: seq<Trip>, driverId: nat, t: Trip)
    ensures multiset(ActiveTrips(trips, driverId))[t] == if InProgressFor(t, driverId) then multiset(trips)[t] else 0
  {
    FilterCounts(trips, (t: Trip) => InProgressFor(t, driverId), t);
  }

  /**
   * The joined view holds each in-progress trip of the driver whose user
   * exists as often as the table does, and nothing else.
   */
  lemma ActiveTripsJoinedCounts(trips: seq<Trip>, users: set<nat>, driverId: nat, t: Trip)
    ensures multiset(ActiveTripsJoined(trips, users, driverId))[t]
         == if InProgressFor(t, driverId) && t.userId in users then multiset(trips)[t] else 0
  {
    FilterCounts(trips, (t: Trip) => InProgressFor(t, driverId) && t.userId in users, t);
  }

  /** The user's history holds each of the user's trips as often as the table does, and nothing else. */
  lemma TripHistoryCounts(trips: seq<Trip>, userId: nat, t: Trip)
    ensures multiset(TripHistory(trips, userId))[t] == if t.userId == userId then multiset(trips)[t] else 0
  {
    FilterCounts(trips, (t: Trip) => t.userId == userId, t);
  }

  /**
   * The get-or-compute step the three views share: with the cache on, a live
   * entry is returned as stored; otherwise the freshly computed list is
   * returned and, with the cache on, stored for `cacheTtl` seconds.
   */
  method Remember(kv: KeyValueStore, key: CacheKey, computed: seq<Trip>, useCache: bool, cacheTtl: int, now: int)
    returns (r: seq<Trip>)
    requires kv.Valid() && !key.NearbyDriversKey?
    modifies kv
    ensures kv.Valid()
    ensures if useCache && old(kv.Live(key, now)) then
        r == old(kv.entries[key].value.trips) && kv.entries == old(kv.entries)
      else
        && r == computed
        && kv.entries == if !useCache then old(kv.entries)
                         else if cacheTtl > 0 then old(kv.entries)[key := Entry(TripList(computed), now + cacheTtl)]
                         else old(kv.entries) - {key}
    ensures kv.locations == old(kv.locations) && kv.availability == old(kv.availability)
  {
    if useCache && kv.Live(key, now) {
      r := kv.entries[key].value.trips;
      return;
    }
    r := computed;
    if useCache {
      kv.Put(key, TripList(r), cacheTtl, now);
    }
  }

  /** `getDriverActiveTrips`, cached under `driver:{id}:active_trips`. */
  method GetDriverActiveTrips(db: Database, kv: KeyValueStore, driverId: nat, useCache: bool, cacheTtl: int, now: int)
    returns (r: seq<Trip>)
    requires kv.Valid()
    modifies kv
    ensures kv.Valid()
    ensures var key := DriverActiveTripsKey(driverId);
      if useCache && old(kv.Live(key, now)) then
        r == old(kv.entries[key].value.trips) && kv.entries == old(kv.entries)
      else
        && r == ActiveTripsJoined(db.trips, db.users, driverId)
        && kv.entries == if !useCache then old(kv.entries)
                         else if cacheTtl > 0 then old(kv.entries)[key := Entry(TripList(r), now + cacheTtl)]
                         else old(kv.entries) - {key}
    ensures kv.locations == old(kv.locations) && kv.availability == old(kv.availability)
  {
    r := Remember(kv, DriverActiveTripsKey(driverId), ActiveTripsJoined(db.trips, db.users, driverId),
                  useCache, cacheTtl, now);
  }

  /** `getDriverActiveTripsEloquent`, cached under `driver:{id}:active_trips:eloquent`. */
  method GetDriverActiveTripsEloquent(db: Database, kv: KeyValueStore, driverId: nat, useCache: bool, cacheTtl: int,
                                      now: int) returns (r: seq<Trip>)
    requires kv.Valid()
    modifies kv
    ensures kv.Valid()
    ensures var key := DriverActiveTripsEloquentKey(driverId);
      if useCache && old(kv.Live(key, now)) then
        r == old(kv.entries[key].value.trips) && kv.entries == old(kv.entries)
      else
        && r == ActiveTrips(db.trips, driverId)
        && kv.entries == if !useCache then old(kv.entries)
                         else if cacheTtl > 0 then old(kv.entries)[key := Entry(TripList(r), now + cacheTtl)]
                         else old(kv.entries) - {key}
    ensures kv.locations == old(kv.locations) && kv.availability == old(kv.availability)
  {
    r := Remember(kv, DriverActiveTripsEloquentKey(driverId), ActiveTrips(db.trips, driverId), useCache, cacheTtl, now);
  }

  /** `getUserTripHistory`, cached under `user:{id}:trip_history`. */
  method GetUserTripHistory(db: Database, kv: KeyValueStore, userId: nat, useCache: bool, cacheTtl: int, now: int)
    returns (r: seq<Trip>)
    requires kv.Valid()
    modifies kv
    ensures kv.Valid()
    ensures var key := UserTripHistoryKey(userId);
      if useCache && old(kv.Live(key, now)) then
        r == old(kv.entries[key].value.trips) && kv.entries == old(kv.entries)
      else
        && r == TripHistory(db.trips, userId)
        && kv.entries == if !useCache then old(kv.entries)
                         else if cacheTtl > 0 then old(kv.entries)[key := Entry(TripList(r), now + cacheTtl)]
                         else old(kv.entries) - {key}
    ensures kv.locations == old(kv.locations) && kv.availability == old(kv.availability)
  {
    r := Remember(kv, UserTripHistoryKey(userId), TripHistory(db.trips, userId), useCache, cacheTtl, now);
  }

  /** `invalidateDriverActiveTripsCache`: both of the driver's keys go, nothing else. */
  method InvalidateDriverActiveTripsCache(kv: KeyValueStore, driverId: nat)
    requires kv.Valid()
    modifies kv
    ensures kv.Valid()
    ensures kv.entries == old(kv.entries) - {DriverActiveTripsKey(driverId), DriverActiveTripsEloquentKey(driverId)}
    ensures kv.locations == old(kv.locations) && kv.availability == old(kv.availability)
  {
    kv.Forget({DriverActiveTripsKey(driverId)});
    kv.Forget({DriverActiveTripsEloquentKey(driverId)});
  }

  /** `invalidateUserTripHistoryCache`: the user's history key goes, nothing else. */
  method InvalidateUserTripHistoryCache(kv: KeyValueStore, userId: nat)
    requires kv.Valid()
    modifies kv
    ensures kv.Valid()
    ensures kv.entries == old(kv.entries) - {UserTripHistoryKey(userId)}
    ensures kv.locations == old(kv.locations) && kv.availability == old(kv.availability)
  {
    kv.Forget({UserTripHistoryKey(userId)});
  }
}
