/**
 * The leaderboard request (`leaderboard` in main.py): fetch each registered
 * device's trail over the last 24 hours, measure it, record its map, then
 * rank the results and total their distances.
 */
module Leaderboard {
  import opened Wrappers
  import opened Telemetry
  import opened Metrics
  import opened Ranking

  /** A registered device: display name and backend identifier. */
  datatype Device = Device(name: string, id: string)

  /** The telemetry backend as one request sees it: a query in, an answer out. */
  type Backend = Query -> Response

  /** Milliseconds in the trailing window. */
  const DayMillis: int := 24 * 60 * 60 * 1000

  /** The query window `(startTs, endTs)` ending at the request time `nowMs`. */
  function QueryWindow(nowMs: int): (w: (int, int))
    ensures w.1 == nowMs && w.0 < w.1 && w.1 - w.0 == DayMillis
  {
    (nowMs - DayMillis, nowMs)
  }

  /** Device names are keys of the registry, so no two are equal. */
  predicate DistinctNames(registry: seq<Device>)
  {
    forall i, j :: 0 <= i < j < |registry| ==> registry[i].name != registry[j].name
  }

  /** The trail of `device` over `[startTs, endTs]`. */
  function DeviceTrail(device: Device, backend: Backend, startTs: int, endTs: int): (trail: seq<Point>)
    ensures var data := backend(TrailQuery(device.id, startTs, endTs));
      |trail| == Min(|Series(data, "lat")|, |Series(data, "lon")|) &&
      (Ascending(Series(data, "lat")) ==> InTimeOrder(trail))
  {
    var data := backend(TrailQuery(device.id, startTs, endTs));
    assert Ascending(Series(data, "lat")) ==> InTimeOrder(FetchTrail(data)) by {
      if Ascending(Series(data, "lat")) {
        FetchTrailInTimeOrder(data);
      }
    }
    FetchTrail(data)
  }

  /** The result row of one device: its name and its metrics rounded to hundredths. */
  function ResultFor(device: Device, backend: Backend, startTs: int, endTs: int, dist: Distance): (row: Entry)
    ensures row.name == device.name
    ensures row.distanceKm >= 0.0 && row.speedKmh >= 0.0
    ensures InHundredths(row.distanceKm) && InHundredths(row.speedKmh)
    ensures -0.005 <= row.distanceKm - PathLength(DeviceTrail(device, backend, startTs, endTs), dist) <= 0.005
    ensures DeviceTrail(device, backend, startTs, endTs) == [] ==> row.distanceKm == 0.0 && row.speedKmh == 0.0
  {
    var m := Measure(DeviceTrail(device, backend, startTs, endTs), dist);
    Entry(device.name, Round2(m.distanceKm), Round2(m.speedKmh))
  }

  /** The rows the device loop appends: one per device of `registry`, in registry order. */
  function Results(registry: seq<Device>, backend: Backend, startTs: int, endTs: int, dist: Distance): (results: seq<Entry>)
    ensures |results| == |registry|
  {
    if registry == [] then []
    else
      Results(registry[..|registry| - 1], backend, startTs, endTs, dist)
        + [ResultFor(registry[|registry| - 1], backend, startTs, endTs, dist)]
  }

  /** The `maps` dictionary the device loop fills: each device's map outcome under its name. */
  function Maps(registry: seq<Device>, backend: Backend, startTs: int, endTs: int, dist: Distance)
    : (maps: map<string, Option<string>>)
    ensures forall i :: 0 <= i < |registry| ==> registry[i].name in maps
  {
    if registry == [] then map[]
    else
      var d := registry[|registry| - 1];
      Maps(registry[..|registry| - 1], backend, startTs, endTs, dist)[d.name := MapPath(DeviceTrail(d, backend, startTs, endTs), d.name)]
  }

  /** One pass of the device loop: fetch the trail, measure it, publish its map. */
  method MeasureDevice(device: Device, backend: Backend, startTs: int, endTs: int, dist: Distance)
    returns (entry: Entry, mapPath: Option<string>)
    ensures entry == ResultFor(device, backend, startTs, endTs, dist)
    ensures entry.name == device.name && entry.distanceKm >= 0.0 && entry.speedKmh >= 0.0
    ensures mapPath == MapPath(DeviceTrail(device, backend, startTs, endTs), device.name)
    ensures mapPath == None ==> entry.distanceKm == 0.0 && entry.speedKmh == 0.0
  {
    var trail := FetchTrail(backend(TrailQuery(device.id, startTs, endTs)));
    var km, kmh;
    if trail != [] {
      km := PathLength(trail, dist);
      var hours := DurationHours(trail);
      kmh := AverageSpeed(km, hours);
      mapPath := MapPath(trail, device.name);
    } else {
      km, kmh, mapPath := 0.0, 0.0, None;
    }
    entry := Entry(device.name, Round2(km), Round2(kmh));
  }

  /**
   * One row per registered device, in registry order: row `i` is the result
   * of device `i`, named after it, with non-negative distance and speed.
   */
  lemma {:induction false} ResultsFollowRegistry(registry: seq<Device>, backend: Backend, startTs: int, endTs: int, dist: Distance)
    ensures var results := Results(registry, backend, startTs, endTs, dist);
      |results| == |registry| &&
      forall i :: 0 <= i < |registry| ==>
        results[i] == ResultFor(registry[i], backend, startTs, endTs, dist) &&
        results[i].name == registry[i].name &&
        results[i].distanceKm >= 0.0 && results[i].speedKmh >= 0.0
  {
    if registry != [] {
      var init := registry[..|registry| - 1];
      ResultsFollowRegistry(init, backend, startTs, endTs, dist);
      var results := Results(registry, backend, startTs, endTs, dist);
      forall i | 0 <= i < |registry|
        ensures results[i] == ResultFor(registry[i], backend, startTs, endTs, dist)
      {
        if i < |init| {
          assert registry[i] == init[i];
        }
      }
    }
  }

  /** The dictionary has exactly one key per device name. */
  lemma {:induction false} MapsKeys(registry: seq<Device>, backend: Backend, startTs: int, endTs: int, dist: Distance)
    ensures Maps(registry, backend, startTs, endTs, dist).Keys == set i | 0 <= i < |registry| :: registry[i].name
  {
    if registry != [] {
      var init := registry[..|registry| - 1];
      MapsKeys(init, backend, startTs, endTs, dist);
      var names := set i | 0 <= i < |registry| :: registry[i].name;
      var initNames := set i | 0 <= i < |init| :: init[i].name;
      assert names == initNames + {registry[|registry| - 1].name} by {
        forall x | x in names ensures x in initNames + {registry[|registry| - 1].name} {
          var i :| 0 <= i < |registry| && registry[i].name == x;
          if i < |init| {
            assert init[i] == registry[i];
          }
        }
        forall x | x in initNames ensures x in names {
          var i :| 0 <= i < |init| && init[i].name == x;
          assert registry[i] == init[i];
        }
      }
    }
  }

  /** With distinct names, each device's map outcome is stored under its own name. */
  lemma {:induction false} MapsValues(registry: seq<Device>, backend: Backend, startTs: int, endTs: int, dist: Distance)
    requires DistinctNames(registry)
    ensures forall i :: 0 <= i < |registry| ==>
      registry[i].name in Maps(registry, backend, startTs, endTs, dist) &&
      Maps(registry, backend, startTs, endTs, dist)[registry[i].name]
        == MapPath(DeviceTrail(registry[i], backend, startTs, endTs), registry[i].name)
  {
    if registry != [] {
      var init := registry[..|registry| - 1];
      var last := |registry| - 1;
      assert DistinctNames(init) by {
        forall i, j | 0 <= i < j < |init| ensures init[i].name != init[j].name {
          assert init[i] == registry[i] && init[j] == registry[j];
        }
      }
      MapsValues(init, backend, startTs, endTs, dist);
      forall i | 0 <= i < last
        ensures Maps(registry, backend, startTs, endTs, dist)[registry[i].name]
          == MapPath(DeviceTrail(registry[i], backend, startTs, endTs), registry[i].name)
      {
        assert registry[i] == init[i];
        assert registry[i].name != registry[last].name;
      }
    }
  }

  /**
   * The device loop: one result per device, appended in registry order, and
   * each device's map outcome recorded under its name.
   */
  method CollectResults(registry: seq<Device>, backend: Backend, startTs: int, endTs: int, dist: Distance)
    returns (results: seq<Entry>, maps: map<string, Option<string>>)
    ensures results == Results(registry, backend, startTs, endTs, dist)
    ensures maps == Maps(registry, backend, startTs, endTs, dist)
  {
    results, maps := [], map[];
    var i := 0;
    while i < |registry|
      invariant 0 <= i <= |registry|
      invariant results == Results(registry[..i], backend, startTs, endTs, dist)
      invariant maps == Maps(registry[..i], backend, startTs, endTs, dist)
    {
      var device := registry[i];
      var entry, mapPath := MeasureDevice(device, backend, startTs, endTs, dist);
      results := results + [entry];
      maps := maps[device.name := mapPath];
      assert registry[..i + 1][..i] == registry[..i];
      i := i + 1;
    }
    assert registry[..i] == registry;
  }

  /** A result row belongs to a registered device. */
  lemma ResultNameRegistered(registry: seq<Device>, results: seq<Entry>, e: Entry)
    requires |results| == |registry|
    requires forall i :: 0 <= i < |registry| ==> results[i].name == registry[i].name
    requires e in results
    ensures e.name in set i | 0 <= i < |registry| :: registry[i].name
  {
    var j :| 0 <= j < |results| && results[j] == e;
    assert registry[j].name == e.name;
  }

  /** Rows whose distances are whole hundredths sum to whole hundredths. */
  lemma {:induction false} TotalInHundredths(rows: seq<Entry>)
    requires forall i :: 0 <= i < |rows| ==> InHundredths(rows[i].distanceKm)
    ensures InHundredths(TotalDistance(rows))
  {
    if rows != [] {
      TotalInHundredths(rows[1..]);
      InHundredthsAdd(rows[0].distanceKm, TotalDistance(rows[1..]));
    }
  }

  /**
   * Every row's distance is already rounded, so rounding their sum changes
   * nothing: the reported total is exactly the sum of the listed distances.
   */
  lemma RoundedTotalIsExact(registry: seq<Device>, backend: Backend, startTs: int, endTs: int, dist: Distance)
    ensures var results := Results(registry, backend, startTs, endTs, dist);
      Round2(TotalDistance(results)) == TotalDistance(results)
  {
    var results := Results(registry, backend, startTs, endTs, dist);
    ResultsFollowRegistry(registry, backend, startTs, endTs, dist);
    TotalInHundredths(results);
    Round2Exact(TotalDistance(results));
  }

  /** The result rows of a request at `nowMs`: one per device, over the last 24 hours. */
  function DayResults(registry: seq<Device>, backend: Backend, nowMs: int, dist: Distance): (results: seq<Entry>)
  {
    Results(registry, backend, QueryWindow(nowMs).0, QueryWindow(nowMs).1, dist)
  }

  /**
   * The whole request: the ranked board, the grand total and the map of
   * each device, for the 24 hours up to `nowMs`.
   */
  method Leaderboard(registry: seq<Device>, backend: Backend, nowMs: int, dist: Distance)
    returns (board: seq<Entry>, total: real, maps: map<string, Option<string>>)
    ensures maps == Maps(registry, backend, QueryWindow(nowMs).0, QueryWindow(nowMs).1, dist)
    ensures multiset(board) == multiset(DayResults(registry, backend, nowMs, dist))
    ensures SortedDesc(board)
    ensures StableOf(board, DayResults(registry, backend, nowMs, dist))
    ensures total == Round2(TotalDistance(DayResults(registry, backend, nowMs, dist)))
    ensures total >= 0.0
    ensures |board| == |registry|
    ensures forall e | e in board :: e.name in maps
  {
    var w := QueryWindow(nowMs);
    var results;
    results, maps := CollectResults(registry, backend, w.0, w.1, dist);
    board := RankByDistance(results);
    total := Round2(TotalDistance(board));
    ResultsFollowRegistry(registry, backend, w.0, w.1, dist);
    RankStable(results);
    RankedTotal(results);
    forall e | e in board
      ensures e.name in maps
    {
      RankedEntryIsResult(results, e);
      ResultNameRegistered(registry, results, e);
    }
  }
}
