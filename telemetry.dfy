/**
 * Location telemetry as the backend returns it, and its merge into a trail
 * (`fetch_trail` in main.py).
 */
module Telemetry {

  /** One `{ts, value}` entry of a per-key time series; `value` already read as a number. */
  datatype RawSample = RawSample(ts: int, value: real)

  /** The backend's answer: key name mapped to that key's list of entries. */
  type Response = map<string, seq<RawSample>>

  /** One point of a device's trail: a timestamp in milliseconds and a position in degrees. */
  datatype Point = Point(ts: int, lat: real, lon: real)

  /** The parameters of one time-series request. */
  datatype Query = Query(deviceId: string, keys: seq<string>, startTs: int, endTs: int,
                         limit: nat, agg: string, orderBy: string)

  /** The sample cap sent with every request. */
  const SampleLimit: nat := 10000

  function Min(a: int, b: int): (m: int) { if a <= b then a else b }

  /** The request for both coordinate keys of one device over `[startTs, endTs]`, raw and ascending. */
  function TrailQuery(deviceId: string, startTs: int, endTs: int): (q: Query)
    ensures q.keys == ["lat", "lon"] && q.limit == SampleLimit
    ensures q.deviceId == deviceId && q.startTs == startTs && q.endTs == endTs
    ensures q.agg == "NONE" && q.orderBy == "ASC"
  {
    Query(deviceId, ["lat", "lon"], startTs, endTs, SampleLimit, "NONE", "ASC")
  }

  /** The series stored under `key`, a missing key read as the empty series. */
  function Series(data: Response, key: string): (s: seq<RawSample>)
    ensures key in data ==> s == data[key]
    ensures key !in data ==> s == []
  {
    if key in data then data[key] else []
  }

  /**
   * Pairs the latitude and longitude series by position and stops at the
   * shorter one; each point takes its timestamp from the latitude entry.
   */
  function Merge(la: seq<RawSample>, lo: seq<RawSample>): (trail: seq<Point>)
    ensures |trail| == Min(|la|, |lo|)
  {
    if la == [] || lo == [] then []
    else [Point(la[0].ts, la[0].value, lo[0].value)] + Merge(la[1..], lo[1..])
  }

  /** The trail of one telemetry answer. */
  function FetchTrail(data: Response): (trail: seq<Point>)
    ensures |trail| == Min(|Series(data, "lat")|, |Series(data, "lon")|)
    ensures trail == [] <==>
      ("lat" !in data || "lon" !in data || data["lat"] == [] || data["lon"] == [])
  {
    Merge(Series(data, "lat"), Series(data, "lon"))
  }

  /** Point `i` of the merge is built from entry `i` of each series. */
  lemma {:induction false} MergeAt(la: seq<RawSample>, lo: seq<RawSample>, i: nat)
    requires i < Min(|la|, |lo|)
    ensures Merge(la, lo)[i] == Point(la[i].ts, la[i].value, lo[i].value)
  {
    if i > 0 {
      MergeAt(la[1..], lo[1..], i - 1);
    }
  }

  /** Entries of the longer series beyond the shorter one's length play no part. */
  lemma {:induction false} MergeIgnoresSurplus(la: seq<RawSample>, lo: seq<RawSample>)
    ensures var n := Min(|la|, |lo|);
      Merge(la, lo) == Merge(la[..n], lo[..n])
  {
    var n := Min(|la|, |lo|);
    if n > 0 {
      var la', lo' := la[..n], lo[..n];
      assert la'[1..] == la[1..][..n - 1];
      assert lo'[1..] == lo[1..][..n - 1];
      MergeIgnoresSurplus(la[1..], lo[1..]);
    }
  }

  /** Point `i` of a fetched trail comes from entry `i` of the `lat` and `lon` series. */
  lemma FetchTrailAt(data: Response, i: nat)
    requires i < |FetchTrail(data)|
    ensures "lat" in data && "lon" in data
    ensures FetchTrail(data)[i] == Point(data["lat"][i].ts, data["lat"][i].value, data["lon"][i].value)
  {
    MergeAt(Series(data, "lat"), Series(data, "lon"), i);
  }

  /** A backend that honours the request's cap yields a trail within that cap. */
  lemma FetchTrailWithinLimit(data: Response, deviceId: string, startTs: int, endTs: int)
    requires |Series(data, "lat")| <= TrailQuery(deviceId, startTs, endTs).limit
    ensures |FetchTrail(data)| <= TrailQuery(deviceId, startTs, endTs).limit
  {
  }

  /** Timestamps never decrease along the series. */
  predicate Ascending(s: seq<RawSample>)
  {
    forall i, j :: 0 <= i < j < |s| ==> s[i].ts <= s[j].ts
  }

  /** Timestamps never decrease along the trail. */
  predicate InTimeOrder(trail: seq<Point>)
  {
    forall i, j :: 0 <= i < j < |trail| ==> trail[i].ts <= trail[j].ts
  }

  /** A latitude series delivered in ascending order gives a trail in time order. */
  lemma FetchTrailInTimeOrder(data: Response)
    requires Ascending(Series(data, "lat"))
    ensures InTimeOrder(FetchTrail(data))
  {
    var t := FetchTrail(data);
    forall i, j | 0 <= i < j < |t|
      ensures t[i].ts <= t[j].ts
    {
      FetchTrailAt(data, i);
      FetchTrailAt(data, j);
    }
  }
}
