/**
 * Per-device metrics of a trail: total distance over consecutive points,
 * elapsed hours, guarded average speed and the map outcome (the body of the
 * device loop in `leaderboard`, main.py).
 */
module Metrics {
  import opened Wrappers
  import opened Telemetry

  /** Milliseconds in one hour, the divisor of the duration. */
  const MillisPerHour: int := 1000 * 60 * 60

  /**
   * The great-circle distance in kilometres between two points. Only its
   * non-negativity is assumed; the haversine trigonometry is a parameter.
   */
  type Distance = d: (Point, Point) -> real | forall p: Point, q: Point :: d(p, q) >= 0.0
    witness (p: Point, q: Point) => 0.0

  /** The sum of `dist` over consecutive pairs of points, taken in trail order. */
  function PathLength(trail: seq<Point>, dist: Distance): (km: real)
    ensures km >= 0.0
    ensures |trail| <= 1 ==> km == 0.0
  {
    if |trail| <= 1 then 0.0
    else PathLength(trail[..|trail| - 1], dist) + dist(trail[|trail| - 2], trail[|trail| - 1])
  }

  /** Elapsed hours between the first and the last point. */
  function DurationHours(trail: seq<Point>): (hours: real)
    requires trail != []
    ensures hours * (MillisPerHour as real) == (trail[|trail| - 1].ts - trail[0].ts) as real
  {
    (trail[|trail| - 1].ts - trail[0].ts) as real / (MillisPerHour as real)
  }

  /** Distance over time, or 0 when no positive time has elapsed. */
  function AverageSpeed(km: real, hours: real): (kmh: real)
    ensures hours > 0.0 ==> kmh * hours == km
    ensures hours <= 0.0 ==> kmh == 0.0
    ensures km >= 0.0 ==> kmh >= 0.0
  {
    if hours > 0.0 then km / hours else 0.0
  }

  /** `x` is a whole number of hundredths. */
  predicate InHundredths(x: real)
  {
    (x * 100.0).Floor as real == x * 100.0
  }

  /**
   * `round(x, 2)`: the nearest multiple of 1/100, a tie going to the even
   * multiple.
   */
  function Round2(x: real): (r: real)
    ensures -0.005 <= r - x <= 0.005
    ensures InHundredths(r)
    ensures (r - x == 0.005 || x - r == 0.005) ==> (r * 100.0).Floor % 2 == 0
    ensures x >= 0.0 ==> r >= 0.0
  {
    var scaled := x * 100.0;
    var n := scaled.Floor;
    var frac := scaled - n as real;
    var k := if frac > 0.5 then n + 1
             else if frac < 0.5 then n
             else if n % 2 == 0 then n else n + 1;
    k as real / 100.0
  }

  /** Rounding never reverses the order of two values. */
  lemma Round2Monotone(x: real, y: real)
    requires x <= y
    ensures Round2(x) <= Round2(y)
  {
    var nx, ny := (x * 100.0).Floor, (y * 100.0).Floor;
    assert nx <= ny;
  }

  /** A value already in hundredths is left as it is; in particular rounding twice rounds once. */
  lemma Round2Exact(x: real)
    requires InHundredths(x)
    ensures Round2(x) == x
  {
  }

  /** A sum of two whole numbers of hundredths is one too. */
  lemma InHundredthsAdd(x: real, y: real)
    requires InHundredths(x) && InHundredths(y)
    ensures InHundredths(x + y)
  {
    var m, n := (x * 100.0).Floor, (y * 100.0).Floor;
    assert (x + y) * 100.0 == (m + n) as real;
  }

  datatype DeviceMetrics = DeviceMetrics(distanceKm: real, speedKmh: real)

  /** The metrics of one trail; an empty trail measures zero on both counts. */
  function Measure(trail: seq<Point>, dist: Distance): (m: DeviceMetrics)
    ensures m.distanceKm >= 0.0 && m.speedKmh >= 0.0
    ensures |trail| <= 1 ==> m == DeviceMetrics(0.0, 0.0)
    ensures trail != [] ==> m.distanceKm == PathLength(trail, dist)
    ensures trail != [] && DurationHours(trail) <= 0.0 ==> m.speedKmh == 0.0
  {
    if trail != [] then
      var km := PathLength(trail, dist);
      DeviceMetrics(km, AverageSpeed(km, DurationHours(trail)))
    else
      DeviceMetrics(0.0, 0.0)
  }

  /** Over a positive duration, speed times duration is the distance covered. */
  lemma MeasureSpeedTimesDuration(trail: seq<Point>, dist: Distance)
    requires trail != [] && DurationHours(trail) > 0.0
    ensures Measure(trail, dist).speedKmh * DurationHours(trail) == Measure(trail, dist).distanceKm
  {
  }

  /** Where the device's map is published: nothing for an empty trail. */
  function MapPath(trail: seq<Point>, deviceName: string): (path: Option<string>)
    ensures path == None <==> trail == []
    ensures path != None ==> path.value == "/static/" + deviceName + "_map.html"
  {
    if trail == [] then None else Some("/static/" + deviceName + "_map.html")
  }

  /** The length of a trail is that of its two halves plus the leg joining them. */
  lemma {:induction false} PathLengthAppend(a: seq<Point>, b: seq<Point>, dist: Distance)
    requires a != [] && b != []
    ensures PathLength(a + b, dist) == PathLength(a, dist) + dist(a[|a| - 1], b[0]) + PathLength(b, dist)
    decreases |b|
  {
    var ab := a + b;
    if |b| == 1 {
      assert ab[..|ab| - 1] == a;
    } else {
      var b' := b[..|b| - 1];
      assert ab[..|ab| - 1] == a + b';
      assert b'[0] == b[0];
      PathLengthAppend(a, b', dist);
    }
  }

  /** Cutting a trail short never lengthens it. */
  lemma PathLengthPrefix(trail: seq<Point>, k: nat, dist: Distance)
    requires k <= |trail|
    ensures PathLength(trail[..k], dist) <= PathLength(trail, dist)
  {
    if 0 < k < |trail| {
      assert trail == trail[..k] + trail[k..];
      PathLengthAppend(trail[..k], trail[k..], dist);
    } else if k == |trail| {
      assert trail[..k] == trail;
    }
  }

  /** A trail in time order never has negative duration. */
  lemma DurationNonNegative(trail: seq<Point>)
    requires trail != [] && InTimeOrder(trail)
    ensures DurationHours(trail) >= 0.0
  {
    assert trail[0].ts <= trail[|trail| - 1].ts;
  }

  /** Over exactly one hour the average speed is the distance covered. */
  lemma OneHourSpeed(trail: seq<Point>, dist: Distance)
    requires trail != [] && trail[|trail| - 1].ts - trail[0].ts == MillisPerHour
    ensures Measure(trail, dist).speedKmh == Measure(trail, dist).distanceKm
  {
    assert DurationHours(trail) == 1.0;
  }
}
