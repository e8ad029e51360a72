# Device-telemetry leaderboard: trail merge, metrics and ranking

This project models the computing core of a small IoT report service. The
service reads location telemetry for each registered device over the last
24 hours and builds a trail from it. It measures how far and how fast each
device travelled, then ranks the devices on a leaderboard with a grand
total. Everything around that core is left out: HTTP, map rendering, the
HTML page and the clock.

Modules (one per stage of `main.py`):

- `Telemetry` (`telemetry.dfy`): the backend's per-key series and the
  request parameters. `FetchTrail` merges the `lat` and `lon` series by
  position into a trail (`fetch_trail`).
- `Metrics` (`metrics.dfy`): path length over consecutive points, elapsed
  hours and the guarded average speed. Also `round(x, 2)` and the map
  outcome of `save_map`. The haversine distance is a parameter `dist` of
  type `Distance`: any function on two points whose values are never
  negative.
- `Ranking` (`ranking.dfy`): the stable descending sort of the results
  (`sorted(..., key=distance, reverse=True)`) and the sum of distances.
  Stability is stated per distance value: for every distance `km`, the
  entries with that distance appear in the same order before and after
  (`StableOf`). `RankIsTheStableSort` proves that this, together with
  sortedness, determines the board exactly. So the insertion sort used
  here gives the same board as any other stable sort, Python's included.
- `Leaderboard` (`leaderboard.dfy`): the device loop as a method with a
  `while` loop (`CollectResults`), and the request as a whole
  (`Leaderboard`). The backend is a parameter `backend: Query -> Response`.
  The request time is a parameter `nowMs`.
- `Wrappers` (`wrappers.dfy`): `Option`, for the `None` map path.

Each result row stores `round(total_km, 2)` (main.py:78). The ranking
sorts on that rounded value (main.py:81), and the total sums the rounded
values (main.py:82). The model does the same: `ResultFor` rounds with
`Round2`, and `Leaderboard` returns `Round2(TotalDistance(results))`.
Over exact reals that last rounding changes nothing, because a sum of
whole hundredths is a whole number of hundredths (`RoundedTotalIsExact`).

## Model

| member | source | states |
|---|---|---|
| `Telemetry.TrailQuery` | main.py:30-32 | the request asks for keys `lat,lon` of the device over `[startTs, endTs]`, at most 10000 samples, no aggregation, ascending order |
| `Telemetry.Series` | main.py:36 | the series stored under the key when it is present, and the empty series when it is absent, as `data.get(key, [])` |
| `Telemetry.Merge` | main.py:37-38 | the merged trail has as many points as the shorter of the two series |
| `Telemetry.FetchTrail` | main.py:36-38 | the trail has `min` of the two series' lengths (a missing key counts as empty), and it is empty exactly when either key is missing or empty |
| `Telemetry.MergeAt` | main.py:38 | point `i` takes `ts` and latitude from `lat[i]` and longitude from `lon[i]` |
| `Telemetry.MergeIgnoresSurplus` | main.py:37-38 | entries of the longer series past the shorter one's length do not affect the trail |
| `Telemetry.FetchTrailAt` | main.py:36-38 | point `i` of a fetched trail is built from `data["lat"][i]` and `data["lon"][i]`, and both keys are present |
| `Telemetry.FetchTrailWithinLimit` | main.py:32-38 | when the backend returns no more lat samples than the request's `limit`, the trail stays within that limit |
| `Telemetry.FetchTrailInTimeOrder` | main.py:32-38 | a latitude series in ascending time order (as requested) gives a trail whose timestamps never decrease |
| `Metrics.PathLength` | main.py:72 | the sum of `dist` over consecutive pairs is never negative, and it is 0 for a trail of 0 or 1 points |
| `Metrics.PathLengthAppend` | main.py:72 | the length of `a + b` is the length of `a`, plus the leg from the last point of `a` to the first of `b`, plus the length of `b` (only consecutive pairs are summed) |
| `Metrics.PathLengthPrefix` | main.py:72 | a prefix of a trail is never longer than the trail |
| `Metrics.DurationHours` | main.py:73 | the duration times 3,600,000 is the last timestamp minus the first |
| `Metrics.DurationNonNegative` | main.py:73 | a trail in time order has a non-negative duration |
| `Metrics.AverageSpeed` | main.py:74 | for a positive duration, speed times duration is the distance; otherwise the speed is 0 (no division by zero); speed is non-negative when distance is |
| `Metrics.Measure` | main.py:71-77 | distance and speed are non-negative; an empty or single-point trail gives 0 and 0; otherwise distance is the path length, and the speed is 0 when the duration is not positive |
| `Metrics.MeasureSpeedTimesDuration` | main.py:73-74 | for a positive duration, the reported speed times the duration is the reported distance |
| `Metrics.OneHourSpeed` | main.py:73-74 | over exactly one hour the average speed equals the distance |
| `Metrics.MapPath` | main.py:41-55 | no map exactly when the trail is empty; otherwise the map is at `/static/<name>_map.html` |
| `Metrics.Round2` | main.py:78 | `round(x, 2)` is within 0.005 of `x`, a whole number of hundredths, an exact tie goes to the even hundredth, and non-negative `x` stays non-negative |
| `Metrics.Round2Monotone` | main.py:78 | rounding never reverses the order of two distances |
| `Metrics.Round2Exact` | main.py:78 | a value already in whole hundredths is left unchanged by `round(x, 2)`, so rounding twice rounds once |
| `Ranking.Insert` | main.py:81 | inserting adds exactly the one entry (multiset) and puts either it or the old head first |
| `Ranking.InsertSorted` | main.py:81 | inserting into a board sorted by distance keeps it sorted |
| `Ranking.InsertStable` | main.py:81 | an inserted entry goes before every entry with the same distance |
| `Ranking.RankByDistance` | main.py:81 | the board is a permutation of the results and its distances never increase |
| `Ranking.RankStable` | main.py:81 | entries with equal distance keep their original relative order |
| `Ranking.SortedStableUnique` | main.py:81 | two boards that are both sorted and agree on the order of every group of ties are equal |
| `Ranking.RankIsTheStableSort` | main.py:81 | any sorted board that keeps ties in original order is exactly `RankByDistance(results)` |
| `Ranking.RankedEntryIsResult` | main.py:81 | every row of the board is one of the results |
| `Ranking.LeaderIsFarthest` | main.py:81 | the first-ranked entry (the highlighted winner) has the greatest distance of all results |
| `Ranking.TotalDistanceOrderFree` | main.py:82 | the total of the distances is the same for any reordering of the entries |
| `Ranking.RankedTotal` | main.py:82 | the total over the sorted board equals the total over the results |
| `Ranking.TotalDistance` | main.py:82 | the grand total `sum(x[1] for x in sorted_devices)`: non-negative distances give a non-negative total; `TotalDistanceOrderFree` and `RankedTotal` show it does not depend on the order of the rows |
| `Leaderboard.QueryWindow` | main.py:64-65 | the window ends at the request time and starts exactly 24 hours earlier |
| `Leaderboard.DeviceTrail` | main.py:70 | the trail fetched with this device's query over the window has `min` of the two answered series' lengths, and is in time order when the latitude series is ascending |
| `Leaderboard.ResultFor` | main.py:71-78 | the row `(name, round(total_km, 2), round(avg_speed, 2))`: it carries the device's name, both values are non-negative whole hundredths, the distance is within 0.005 of the trail's path length, and an empty trail gives zeros |
| `Leaderboard.Results` | main.py:67-79 | the final `results` list has one row per registry device; `ResultsFollowRegistry` states that row `i` is device `i`'s `ResultFor` |
| `Leaderboard.Maps` | main.py:67-79 | the final `maps` dictionary has a key for every registry device; `MapsKeys` states it has no other key and `MapsValues` what each key holds |
| `Leaderboard.MeasureDevice` | main.py:70-78 | one loop pass yields the device's row (its name, rounded non-negative distance and speed) and its map outcome; no map means zero distance and speed |
| `Leaderboard.CollectResults` | main.py:67-79 | after the loop, `results` holds the rows appended device by device and `maps` the dictionary filled device by device, in registry order |
| `Leaderboard.ResultsFollowRegistry` | main.py:67-78 | exactly one row per registry device, in registry order: row `i` is device `i`'s result, carries its name, and has non-negative distance and speed |
| `Leaderboard.MapsKeys` | main.py:68-79 | the map dictionary has exactly the device names as keys |
| `Leaderboard.MapsValues` | main.py:75-79 | with distinct names, each device's key holds its own map outcome |
| `Leaderboard.ResultNameRegistered` | main.py:69-79 | every result row carries the name of a registered device |
| `Leaderboard.TotalInHundredths` | main.py:78-82 | result rows whose distances are whole hundredths have a total in whole hundredths |
| `Leaderboard.RoundedTotalIsExact` | main.py:78-82 | rounding the sum of the rounded result distances to two decimals leaves it unchanged |
| `Leaderboard.Leaderboard` | main.py:64-82 | for the 24-hour window: the board is a permutation of the results, sorted by distance descending, stable on ties; the total is the rounded sum of the result distances and is non-negative; every board row has a map entry |

## Left out

- Login, the telemetry GET, `raise_for_status` and JSON decoding (main.py:30-35, 60-62) are network I/O. The backend is a parameter that always answers. A failed request, which aborts the whole page in the source, is not modelled.
- `float(...)` parsing of sample values (main.py:38): values are already numbers (`real`). A value that does not parse raises in the source and is not modelled.
- The haversine trigonometry (main.py:21-27) is floating-point numerics. Only `dist >= 0` is assumed; symmetry and `dist(p, p) == 0` are not used.
- Floating point: distances, durations and speeds are exact reals. `Round2` rounds the exact real, whereas the source rounds a binary double.
- `save_map` (main.py:44-54): the folium map and the file write are a foreign library and the filesystem. Only its outcome is modelled (`MapPath`: `None` for an empty trail, else the URL path).
- The Flask route, the HTML template, `'%.2f'` formatting and `render_template_string` (main.py:58, 84-208) are presentation. The winner flag of the first row is covered only by `LeaderIsFarthest`.
- `time.time()` (main.py:64) is the clock. The request time is the parameter `nowMs`.
- Configuration and the static directory (main.py:8-18) are constants and I/O. The device registry is a parameter: a sequence of `(name, id)` pairs in dictionary order, with distinct names as dictionary keys guarantee (only `MapsValues` relies on that).
