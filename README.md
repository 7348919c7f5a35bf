# TransportationApp core in Dafny

A model of the core rules of a Laravel ride-hailing back end. It covers:

- Booking validation (`BookTripRequest`). The driver must exist and be available. The driver must own an active vehicle of the requested type. Coordinates and addresses must be in range. The payment method must be known. The new window must not overlap a scheduled or in-progress trip of the same driver.
- The trip lifecycle (`TripController`). Booking picks a vehicle and sets the initial fares. A status update stamps times and recomputes fares.
- The nearby-driver engine. This includes the driver scopes, the two search paths of `DriverService` (SQL with a result cache, or the geo index plus an availability mirror), location and availability updates with prefix-wide cache invalidation, and the reconciliation job `ProcessDriverAvailability`. The job copies fresh locations into the index and pre-warms four fixed points.
- The trip-view caches of `TripService`: get-or-compute per driver and per user, with exact-key invalidation.
- The driver endpoints of `DriverController`: defaults, vehicle-type post-filter, count and status codes.

Conventions:

- Times are integer seconds.
- Booking durations are whole minutes.
- Money is integer cents: base 500, 150 per km, 50 per minute.
- Coordinates, radii and distances are exact reals.
- Distance is a function parameter `dist`. `now()` and `rand(1, 20)` are method parameters.
- The database is a class `Stores.Database` whose tables are sequences of rows.
- Redis and the Laravel cache are one class `Stores.KeyValueStore`, holding:
  - the geo set `drivers:locations` as a map from driver id to coordinate;
  - the availability mirror `driver:{id}:info` as a map from driver id to 0/1;
  - the cache entries as a map from key to value and expiry time.
- A cache key is a datatype with one constructor per key family. The `drivers:available:near:` prefix is the `NearbyDriversKey` constructor. Its three numbers are held as PHP writes them into the key: the sign bit and the value rounded to 14 significant digits (`PhpFloat.FloatText`).

Modules:

- `Lists`: filter, stable sort, uniqueness.
- `PhpFloat`: how PHP writes a float into a string.
- `Models`: rows and driver scopes.
- `BookTripRequest`.
- `Stores`.
- `DriverService`.
- `AvailabilityJob`.
- `TripService`.
- `TripController` (file `trip_lifecycle.dfy`).
- `DriverController`.

Behaviour of the code that a reader might not expect, and that the model keeps:

- A completed trip can be completed again. `updateStatus` never looks at the trip's current status (app/Http/Controllers/TripController.php:139-163), so the second completion recomputes the distance, fares and completion time (`TripController.CompletingTwiceRecomputes`). Nothing in the code guarantees that a trip is completed only once.
- The job never removes an index entry. Its loop only skips a driver whose location is older than 5 minutes ("Skip drivers with outdated locations", app/Jobs/ProcessDriverAvailability.php:56), so a stale driver keeps its earlier entry and flag (`AvailabilityJob.StaleEntrySurvives`). Nothing guarantees that the geo index holds only fresh locations.
- The geo-index path includes drivers exactly on the radius border, because Redis GEORADIUS does. The SQL path keeps the strict `<` of `scopeNearby` (app/Models/Driver.php:100-103). The two paths therefore do not promise the same answer for a driver at exactly the radius.
- Elapsed minutes follow Carbon 2, where `diffInMinutes` gives whole, absolute minutes. Under that assumption the staleness test "more than 5 whole minutes" holds from 360 seconds on, in either direction (`AvailabilityJob.IsStale`). The Carbon version is not fixed by the code; Carbon 3 behaves differently (see "## Left out").
- Location updates accept any latitude in [-90, 90], but the Redis geo index only encodes latitudes within ±85.05112878 degrees. GEOADD refuses a position outside that band and the callers ignore the refusal. A driver moved there gets the new row, a cleared nearby cache and 200, while the index keeps its previous entry, or none (`Stores.KeyValueStore.GeoAdd`, `DriverService.UpdateDriverLocation`, `AvailabilityJob.Handle`).

## Model

| member | source | states |
|---|---|---|
| Models.VehiclesOf | app/Models/Driver.php:53-56 | the eager-loaded `vehicles` of a driver are exactly the vehicles whose `driver_id` is that driver's id |
| Models.ParseStatus | database/migrations/2024_06_10_000003_create_trips_table.php:16 | a status name resolves to the status with that name, and to nothing iff none of the four statuses has it |
| Models.StatusNameRoundTrip | database/migrations/2024_06_10_000003_create_trips_table.php:16 | parsing a status's name gives back that status |
| Models.DiffInMinutes | app/Http/Controllers/TripController.php:150 | the whole minutes between two instants: 60·m ≤ \|to − from\| < 60·(m+1) |
| Models.Hydrate | app/Services/DriverService.php:98-105 | one result per driver row, in order, each carrying that driver's vehicles and its distance |
| Models.HydrateMembership | app/Services/DriverService.php:98-105 | a result is in the hydrated list iff its driver is among the rows and it is loaded with that driver's vehicles and distance |
| Models.NearbyBy | app/Models/Driver.php:81-87 | a scoped query is sorted ascending by distance, holds exactly the kept rows (each loaded) and keeps driver ids unique |
| Models.Available | app/Models/Driver.php:69-72 | `available` keeps exactly the drivers with `is_available` true, with ids still unique |
| Models.NearbyTesting | app/Models/Driver.php:78-87 | the testing branch keeps a driver iff \|Δlat\| < r/111 and \|Δlng\| < r/111 (both strict), with distance \|Δlat\| + \|Δlng\|, ascending |
| Models.NearbyProduction | app/Models/Driver.php:100-103 | the production branch keeps a located driver iff its distance is strictly below the radius, ascending |
| Models.DriverAtQueryPointIsNearby | app/Models/Driver.php:82-86 | a driver located exactly at the query point is found at distance 0 for any positive radius |
| Models.UnlocatedDriverNeverNearby | app/Models/Driver.php:83 | a driver without a stored latitude or longitude is never returned by either branch |
| Models.AvailableNearby | app/Services/DriverService.php:41-44 | the available drivers of the selected branch: in the testing box, or located strictly within the radius; nearest first, each loaded with its vehicles and distance, ids unique |
| BookTripRequest.ProposedEnd | app/Http/Requests/BookTripRequest.php:76-77 | the proposed end is `scheduled_at` plus the estimate, 30 minutes when absent |
| BookTripRequest.CountOverlapping | app/Http/Requests/BookTripRequest.php:80-112 | the count never exceeds the trips, and is positive iff some trip of the driver is blocking, has a duration and meets one of the three branches |
| BookTripRequest.FindDriver | app/Http/Requests/BookTripRequest.php:36 | `Driver::find` returns a row with that id, and none only when no row has it |
| BookTripRequest.HasActiveVehicleOfType | app/Http/Requests/BookTripRequest.php:48-53 | true iff the driver has an active vehicle whose type has the requested name |
| BookTripRequest.DriverErrors | app/Http/Requests/BookTripRequest.php:31-41 | an unknown driver is reported iff no row has its id; an unavailable driver iff no available row has it |
| BookTripRequest.VehicleErrors | app/Http/Requests/BookTripRequest.php:42-59 | an unknown type name iff the name is not in `vehicle_types`; no vehicle iff the driver has no active vehicle of that name |
| BookTripRequest.PlaceErrors | app/Http/Requests/BookTripRequest.php:60-65 | each address is at most 255 characters, latitudes lie in [-90,90] and longitudes in [-180,180], each rule iff |
| BookTripRequest.ScheduleErrors | app/Http/Requests/BookTripRequest.php:66-120 | past times, overlaps, estimates below 1 and unknown payment methods are reported, each iff it occurs |
| BookTripRequest.Validate | app/Http/Requests/BookTripRequest.php:27-122 | the set of failed rules: unknown user iff absent, unavailable driver, missing vehicle and overlap each iff their condition |
| BookTripRequest.FoundIsTheOnlyOne | app/Http/Requests/BookTripRequest.php:36-37 | with unique driver ids, the driver found is the only row carrying that id |
| BookTripRequest.ThreeBranchesAreClosedOverlap | app/Http/Requests/BookTripRequest.php:83-107 | with non-negative durations the three branches equal `start ≤ proposedEnd ∧ end ≥ proposedStart`, so touching endpoints conflict |
| BookTripRequest.CountOverlappingAppend | app/Http/Requests/BookTripRequest.php:80-112 | adding a trip adds one to the count iff that trip conflicts |
| BookTripRequest.RejectedIffClosedOverlap | app/Http/Requests/BookTripRequest.php:80-116 | a booking is rejected for overlap iff some blocking trip of the driver with a duration overlaps the closed window |
| BookTripRequest.NonBlockingTripIsIgnored | app/Http/Requests/BookTripRequest.php:80-111 | a trip of another driver, a completed or cancelled trip, or one without a duration never changes the outcome of validation |
| BookTripRequest.FeatureTestOverlap | tests/Feature/BookTripTest.php:152-185 | a trip at now+2h for 30 minutes blocks a booking at now+2h15 and does not block one at now+1h |
| BookTripRequest.FeatureTestUnknownType | tests/Feature/BookTripTest.php:134-148 | asking for a 'Truck' where only SUV and Sedan exist fails both vehicle rules |
| BookTripRequest.AcceptedRequestHasDriverAndVehicle | app/Http/Requests/BookTripRequest.php:27-122 | a request passing every rule names an available driver with an active vehicle of the type, and is not in the past |
| BookTripRequest.AcceptedIffEveryRuleHolds | app/Http/Requests/BookTripRequest.php:27-122 | with unique driver ids, a request has no failed rule iff the user exists, the driver exists and is available, the type exists and the driver has an active vehicle of it, both addresses are at most 255 characters with coordinates in range, the start is not in the past and overlaps no blocking trip, an estimate is at least 1 and the payment method is known |
| Stores.Truthy | app/Services/DriverService.php:86 | the mirror flag reads true iff it is present and non-zero |
| Stores.AvailableInRadius | app/Services/DriverService.php:80-91 | exactly the indexed drivers within the radius (border included) whose flag is truthy, each with its index distance |
| Stores.KeyValueStore.Put | app/Services/DriverService.php:47 | a positive lifetime stores the value until now+ttl and makes the key live; a non-positive one removes the key |
| Stores.KeyValueStore.Forget | app/Services/TripService.php:148-149 | the named keys are removed and every other entry stays |
| Stores.KeyValueStore.GeoAdd | app/Services/DriverService.php:134-139 | a position with \|lat\| ≤ 85.05112878 and \|lng\| ≤ 180 becomes the driver's index entry; any other position is refused and leaves the index as it was; nothing else changes |
| Stores.KeyValueStore.SetAvailability | app/Services/DriverService.php:167 | the driver's flag becomes 1 or 0 and reads back as the boolean written |
| Stores.KeyValueStore.GeoRadius | app/Services/DriverService.php:65-73 | the reply holds each indexed member within the radius once, with its distance, ascending |
| Stores.Relocated | app/Services/DriverService.php:122-127 | the update writes latitude, longitude and `location_updated_at` on the row with that id and leaves every other row as it was |
| Stores.WithAvailability | app/Services/DriverService.php:157-160 | the update writes `is_available` on the row with that id and leaves every other row as it was |
| Stores.SavedTrip | app/Http/Controllers/TripController.php:165 | saving replaces the row with the trip's id and leaves every other row as it was |
| Stores.Database.FindTrip | app/Http/Controllers/TripController.php:121 | route binding finds the trip with that id, and nothing only when no row has it |
| Stores.Database.UpdateDriverLocation | app/Services/DriverService.php:122-131 | reports an update iff a row has the id; writes the location on that row and changes no other table |
| Stores.Database.UpdateDriverAvailability | app/Services/DriverService.php:157-164 | reports an update iff a row has the id; writes the flag on that row and changes no other table |
| Stores.Database.InsertTrip | app/Http/Controllers/TripController.php:65-81 | the new trip is appended with the next id, which then advances; other tables stay |
| Stores.Database.SaveTrip | app/Http/Controllers/TripController.php:165 | the trip's row is replaced; other tables and the id counter stay |
| DriverService.Round3 | app/Services/DriverService.php:32-33 | rounds to thousandths, half away from zero as PHP `round` does |
| DriverService.Round3OfThousandths | app/Services/DriverService.php:32-33 | a value that already has three decimals rounds to itself |
| PhpFloat.Printed | app/Services/DriverService.php:34 | the value a float is written as in the key lies within half a unit of its fourteenth significant digit, so it is zero or of the other sign only when the float is |
| PhpFloat.ThousandthsPrintExactly | app/Services/DriverService.php:32-34 | a value with three decimals and fewer than 15 significant digits, such as any rounded coordinate, is written exactly |
| DriverService.RoundedText | app/Services/DriverService.php:32-34 | `{$lat}` of `round($latitude, 3)` keeps the sign bit of the latitude, "-0" included, and within any coordinate's range is written as the rounded thousandths exactly |
| DriverService.NearbyCacheKey | app/Services/DriverService.php:34 | the key of a query carries the `drivers:available:near:` prefix |
| DriverService.SharedKeyMeansNearbyPoint | app/Services/DriverService.php:32-34 | two queries sharing a key have numbers of the same signs, coordinates (within any real coordinate's range) within 0.001 degree of each other, and radii that agree to 14 significant digits |
| DriverService.SameRoundingSharesKey | app/Services/DriverService.php:32-34 | queries whose coordinates round to the same thousandths with the same signs, at the same radius, share a key |
| DriverService.DifferentRoundingSplitsKey | app/Services/DriverService.php:32-34 | within any coordinate's range, latitudes that round to different thousandths give different keys |
| DriverService.NegativeZeroSplitsKey | app/Services/DriverService.php:32-34 | latitudes -0.0004 and 0.0004 both round to 0, yet their keys differ, as "-0" and "0" |
| DriverService.FourteenDigitRadiiShareKey | app/Services/DriverService.php:34 | radii 5 and 5.000000000000001 are both written "5", so their queries share a key |
| DriverService.GetAvailableDriversNear | app/Services/DriverService.php:22-51 | with the cache on, a live key returns the stored value untouched; otherwise the available nearby drivers are computed and stored for the lifetime; with it off the cache is neither read nor written |
| DriverService.IndexNearby | app/Services/DriverService.php:97-108 | the hydrated drivers are exactly the database rows whose id has an index distance, ascending by it, ids unique, empty for no ids |
| DriverService.GetAvailableDriversNearRedis | app/Services/DriverService.php:62-109 | returns exactly the available in-radius drivers known to the database, nearest first |
| DriverService.CollectAvailable | app/Services/DriverService.php:80-91 | the loop keeps exactly the reply members whose flag is truthy, each with the reply's distance |
| DriverService.CollectedAreAvailableInRadius | app/Services/DriverService.php:65-91 | what the loop collects from a GEORADIUS reply equals the available in-radius set of the index |
| DriverService.IndexPathSelects | app/Services/DriverService.php:62-109 | the index path's answer holds a driver iff it is in the database, indexed within the radius and flagged available |
| DriverService.IndexPathEmptyWhenNoneAvailable | app/Services/DriverService.php:75-95 | with no available driver in radius, the index path answers an empty list |
| DriverService.WithoutNearby | app/Services/DriverService.php:180-191 | exactly the entries without the nearby prefix remain, unchanged |
| DriverService.InvalidateNearbyDriversCache | app/Services/DriverService.php:180-191 | the scan-and-delete loop removes every key with the nearby prefix and no other key |
| DriverService.UpdateDriverLocation | app/Services/DriverService.php:119-145 | a matched driver gets its row, an index entry at the new position when GEOADD accepts it (the old entry otherwise) and a cleared nearby cache; an unmatched id returns false and changes neither store; no other table changes |
| DriverService.UpdateDriverAvailability | app/Services/DriverService.php:154-173 | a matched driver gets its row, mirror flag 0/1 and a cleared nearby cache; an unmatched id returns false and changes neither store; no other table changes |
| DriverService.UnmatchedUpdateChangesNoRow | app/Services/DriverService.php:129-131 | an update for an id no row has leaves the driver table as it was |
| AvailabilityJob.IsStale | app/Jobs/ProcessDriverAvailability.php:57 | a driver with no timestamp is never skipped; one is skipped iff at least 360 seconds separate its timestamp from now |
| AvailabilityJob.SyncedLocations | app/Jobs/ProcessDriverAvailability.php:55-67 | the index after the loop keeps every entry it had and gains only ids of drivers that are published and inside GEOADD's band |
| AvailabilityJob.SyncedFlags | app/Jobs/ProcessDriverAvailability.php:55-70 | the mirror after the loop keeps every flag it had and gains only ids of published drivers |
| AvailabilityJob.SyncLocationsOutcome | app/Jobs/ProcessDriverAvailability.php:55-67 | each published driver inside GEOADD's band ends at its position; every other id keeps its entry, or its absence |
| AvailabilityJob.SyncFlagsOutcome | app/Jobs/ProcessDriverAvailability.php:55-70 | each published driver's flag ends as `is_available` in 0/1; every other id keeps its flag, or its absence |
| AvailabilityJob.PopularKeysDistinct | app/Jobs/ProcessDriverAvailability.php:89-98 | the four popular points round to four different cache keys |
| AvailabilityJob.Prewarmed | app/Jobs/ProcessDriverAvailability.php:100-152 | pre-warming never removes a cache entry |
| AvailabilityJob.PrewarmWrites | app/Jobs/ProcessDriverAvailability.php:100-152 | for points with distinct keys, each point with an available driver in radius holds the index answer for 60 seconds |
| AvailabilityJob.PrewarmKeeps | app/Jobs/ProcessDriverAvailability.php:112-135 | a key of no point with an available driver in radius is neither written nor removed |
| AvailabilityJob.Handle | app/Jobs/ProcessDriverAvailability.php:43-81 | the job syncs the located, non-stale drivers into the index (where GEOADD accepts the position) and the mirror, then pre-warms the four points |
| AvailabilityJob.PreCalculatePopularLocations | app/Jobs/ProcessDriverAvailability.php:86-153 | the pre-warm loop writes exactly the entries the pre-warm fold describes and leaves index and mirror alone |
| AvailabilityJob.PrewarmPoint | app/Jobs/ProcessDriverAvailability.php:100-151 | one point's pass writes the index answer under the point's key for 60 seconds iff any available driver is in radius |
| AvailabilityJob.JobPrewarmsIndexAnswers | app/Jobs/ProcessDriverAvailability.php:130-150 | after pre-warming, a popular point with an available driver in range holds the index path's answer for that point, expiring 60 seconds after now |
| AvailabilityJob.StaleEntrySurvives | app/Jobs/ProcessDriverAvailability.php:55-59 | a stale driver's existing index entry survives the job unchanged |
| TripService.ActiveTrips | app/Services/TripService.php:93-102 | exactly the driver's in-progress trips, newest `created_at` first |
| TripService.ActiveTripsJoined | app/Services/TripService.php:40-52 | exactly the driver's in-progress trips whose user exists, newest `created_at` first |
| TripService.JoinedAgreesWithEloquent | app/Services/TripService.php:40-102 | when every trip's user exists, the query-builder and Eloquent variants agree |
| TripService.TripHistory | app/Services/TripService.php:128-131 | exactly the user's trips, latest `scheduled_at` first |
| TripService.ActiveTripsCounts | app/Services/TripService.php:93-102 | each in-progress trip of the driver appears as often as in the table, no other trip ever |
| TripService.ActiveTripsJoinedCounts | app/Services/TripService.php:40-52 | each in-progress trip of the driver whose user row exists appears as often as in the table, no other trip ever: the inner join neither repeats nor invents a row |
| TripService.TripHistoryCounts | app/Services/TripService.php:128-131 | each trip of the user appears as often as in the table, no other trip ever |
| TripService.Remember | app/Services/TripService.php:33-35 | a live key is returned as stored; a miss returns the computed list and stores it when the cache is on |
| TripService.GetDriverActiveTrips | app/Services/TripService.php:29-73 | get-or-compute of the joined active trips under `driver:{id}:active_trips` |
| TripService.GetDriverActiveTripsEloquent | app/Services/TripService.php:84-109 | get-or-compute of the active trips under the distinct `:eloquent` key |
| TripService.GetUserTripHistory | app/Services/TripService.php:119-138 | get-or-compute of the trip history under `user:{id}:trip_history` |
| TripService.InvalidateDriverActiveTripsCache | app/Services/TripService.php:146-150 | removes both of the driver's keys and no other |
| TripService.InvalidateUserTripHistoryCache | app/Services/TripService.php:158-161 | removes exactly the user's history key |
| TripController.SelectVehicle | app/Http/Controllers/TripController.php:39-44 | finds a vehicle iff the driver has an active one of the type, and then the first such in table order |
| TripController.ValidationGuaranteesVehicle | app/Http/Controllers/TripController.php:39-50 | a request passing the vehicle rule always finds its vehicle, and only such a request does |
| TripController.NewTrip | app/Http/Controllers/TripController.php:61-81 | a booked trip copies user, driver, places, schedule and payment method from the request, uses the chosen vehicle and the new id, is created now, scheduled and unstarted, with base and total fare 500 cents, zero distance and time fares, and duration the estimate or 30 |
| TripController.Transition | app/Http/Controllers/TripController.php:139-163 | every status update sets the status, keeps parties, vehicle, route, schedule, base fare, payment method and creation time, and keeps total = base + distance + time |
| TripController.StartStampsOnly | app/Http/Controllers/TripController.php:143-144 | starting stamps `started_at` and keeps every other timestamp, duration, distance and fare |
| TripController.OtherTargetsOnlyRelabel | app/Http/Controllers/TripController.php:139-163 | scheduling again or cancelling changes the status only |
| TripController.CompletionRecomputesFares | app/Http/Controllers/TripController.php:145-162 | completing stamps `completed_at`, records the 1–20 km distance, sets the distance fare to 150 cents per km, measures the duration only for a started trip, charges 50 cents per minute, and the fares add up |
| TripController.CompletingTwiceRecomputes | app/Http/Controllers/TripController.php:139-163 | a second completion is accepted and replaces distance, fares and completion time |
| TripController.Book | app/Http/Controllers/TripController.php:29-98 | a failing request or a missing vehicle gets 422, a missing status row or a failed write 500, both with no trip and no change; otherwise 201, exactly the new trip is appended and the id counter advances; no other table changes |
| TripController.UpdateStatus | app/Http/Controllers/TripController.php:121-188 | unknown trip 404, unknown status 422, failed save 500, all without change; otherwise 200, the transitioned trip is saved and exactly its three cache keys are dropped; no other table, the index or the mirror changes |
| TripController.SaveChangesOnlyThatTrip | app/Http/Controllers/TripController.php:165 | saving a transition changes only that trip's row |
| DriverController.FilterByVehicleType | app/Http/Controllers/DriverController.php:48-54 | keeps exactly the drivers with an active vehicle of that type name, as a subsequence of the input, so their order is kept |
| DriverController.Shown | app/Http/Controllers/DriverController.php:47-58 | without a vehicle type, or with the falsy "" or "0", the service's answer is returned unchanged; with a truthy one it is filtered as a subsequence, keeping distance order |
| DriverController.AvailableDriversNear | app/Http/Controllers/DriverController.php:25-60 | 422 on a bad field without touching the cache; else 200 with the radius defaulted to 5, the filtered answer and its count; the cache written never depends on the type |
| DriverController.AcceptsNearbyRequest | app/Http/Controllers/DriverController.php:27-32 | an accepted request names a point in range, searches within 0.1–50 km whether or not it gives a radius, and names no unknown vehicle type |
| DriverController.UnfilteredSearchIsServiceAnswer | app/Http/Controllers/DriverController.php:48 | without `vehicle_type` the service result is returned as it is |
| DriverController.IndexSearchWithType | app/Http/Controllers/DriverController.php:40-54 | the index path filtered by a type holds exactly the available in-radius drivers with an active vehicle of it, nearest first |
| DriverController.UpdateLocation | app/Http/Controllers/DriverController.php:69-92 | unknown driver 404 and bad coordinates 422, both without change; otherwise the service's update and 200, the index moving only when GEOADD accepts the position; vehicles, trips and the other tables never change |
| DriverController.UpdateAvailability | app/Http/Controllers/DriverController.php:95-116 | unknown driver 404 and a non-boolean 422, both without change; otherwise the service's update and 200; vehicles, trips and the other tables never change |

## Left out

- The haversine formula of `scopeNearby` and `Vehicle`, and Redis GEORADIUS distance: these are floating point. Distance is the parameter `dist`, and only the radius filter and the ordering are modelled.
- Julianday arithmetic in the overlap query: times are integer seconds and durations whole minutes, so the overlap is exact.
- The characters of cache keys and the framework's cache-key prefix. A key is a constructor; in the nearby key each number is its sign bit and the value written, which fix its characters. `Cache` and `Redis` share one key space. The job writes its entries with `setex` under the same key the service reads.
- PhpFloat.Printed: assumes PHP's `precision` setting is at its default of 14. It rounds the exact real with halves away from zero, while PHP rounds the binary double it holds, so the two can differ on a float exactly half way at its fifteenth digit. Exponent notation for very large or small numbers is not modelled, because it does not change which numbers share a text.
- DriverService.RoundedText: a negative zero given as input (`-0.0`) is not a real, so the model writes "0" for it where PHP writes "-0".
- Models.DiffInMinutes: models Carbon 2, whose `diffInMinutes` is absolute and truncated to whole minutes. The code does not pin the Carbon version, and Laravel 11 also accepts Carbon 3, where `diffInMinutes` is the signed, fractional difference `(to - from) / 60`. That variant is not modelled.
- AvailabilityJob.IsStale: under Carbon 3 the job would skip a stamp t exactly when `now - t > 300` seconds, and would never skip a stamp in the future; the model states the Carbon 2 outcome (at least 360 seconds apart, in either direction). The completion fare is the same under both versions, because `duration_minutes` is cast to an integer when read.
- SCAN cursor internals. Each round of the invalidation loop deletes some non-empty batch of matching keys until none remain.
- DriverService.InvalidateNearbyDriversCache: models the intended scan-until-done loop. The source calls `scan` through the `Redis` facade, which does not pass the cursor by reference, so as written the loop may stop after one batch and leave later nearby keys; how the arguments reach the client depends on the Redis client in use, which is not part of this model.
- Stores.KeyValueStore.GeoAdd: models the phpredis client, which answers a refused position with `false` that the callers ignore. Under the Predis client the refusal throws instead: `updateDriverLocation` then fails with 500 before clearing the cache, and the job stops. That variant is not modelled.
- Serialization, JSON bodies, messages, logging, eager loading of `user` and `status`, and the query-builder hydration loop of `getDriverActiveTrips`. Results carry the driver row, its vehicles and its distance. `user` is not modelled.
- Transactions and exceptions. `Book`'s `writeFails` and `UpdateStatus`'s `saveFails` stand for any exception in the transaction, which rolls back. The job's `tries` (3) and `timeout` (60 seconds) are not modelled. A job that throws partway is not modelled either: the model runs `handle` to the end.
- The check-then-insert race between booking validation and `book`, and every other concurrent interleaving. The model is sequential.
- Missing or non-numeric required fields, and the date parsing of `scheduled_at`. Requests are typed values; an absent optional field is `None`.
- Affected-row counting by the database. An update reports success iff a row has the id, as SQLite counts matched rows; MySQL would report 0 for a row whose values do not change.
- DriverController.UpdateLocation: the 500 for a failed service update cannot occur in a sequential run, because route binding has just found the driver. It needs a deletion between the binding and the update.
- DriverController.UpdateAvailability: the 500 is unreachable for the same reason.
- The choice between the geo-index and SQL paths (`config` and `extension_loaded`) is the `useIndex` parameter. The `testing` environment switch of `scopeNearby` is the `testing` parameter.
- Ties in the distance and date orderings. The sorts are stable, but the order among equal keys that the database or `Collection::sortBy` returns is not promised.
- The `show`, `userHistory` and `driverActiveTrips` endpoints and the console command. They only forward to modelled operations.
- tests/TestCase.php (SQLite trig functions), migrations, seeders and factories.
- The count assertions of tests/Feature/AvailableDriversTest.php:114 and :128. They expect distant drivers to be found, which the testing box filter excludes.
- `book` leaves its transaction open on the 422 path. Nothing is written on that path, so the model treats it as a plain rejection.
