/**
 Location fixes as the trip screen sees them, the unit conversions it applies to
 them, and the abstract distance between two fixes.

 `Double` is modelled as `real`: no rounding, no NaN and no infinities.
 */
module Fixes {

  /** A geographic coordinate in degrees. */
  datatype Coordinate = Coordinate(latitude: real, longitude: real)

  /** One location delivered by the positioning service: a coordinate and the
      instantaneous speed in metres per second. The service reports a negative
      speed when the speed is unknown; nothing here clamps it. */
  datatype Fix = Fix(coordinate: Coordinate, speed: real)

  /** The distance in metres between two coordinates. The geodesic computation
      of the positioning framework is not modelled: every operation takes the
      distance as a parameter and asks only that it never be negative. Like the
      framework's, it sees the coordinates of two fixes and nothing else. */
  type Distance = (Coordinate, Coordinate) -> real

  ghost predicate NonNegative(dist: Distance)
  {
    forall a, b :: dist(a, b) >= 0.0
  }

  /** Metres per second to kilometres per hour. */
  const KmhPerMs: real := 3.6

  /** The speed limit, in km/h, above which the top bar turns red. */
  const SpeedLimitKmh: real := 115.0

  /** The fixed divisor of the acceleration formula: a nominal two seconds
      between fixes, never a measured interval. */
  const AccelerationDivisor: real := 2.0

  /** The speed of a fix converted to km/h; a negative (unknown) speed stays negative. */
  function Kmh(f: Fix): (v: real)
    ensures v >= 0.0 <==> f.speed >= 0.0
    ensures v > SpeedLimitKmh <==> f.speed > SpeedLimitKmh / KmhPerMs
  {
    f.speed * KmhPerMs
  }

  /** The acceleration the screen reports between a baseline fix and the current
      one: the difference of their km/h speeds over the fixed divisor. */
  function Acceleration(baseline: Fix, current: Fix): (a: real)
    ensures a * AccelerationDivisor + Kmh(baseline) == Kmh(current)
  {
    (current.speed * KmhPerMs - baseline.speed * KmhPerMs) / AccelerationDivisor
  }

  function Abs(x: real): (r: real)
    ensures r >= 0.0 && (r == x || r == -x)
  {
    if x < 0.0 then -x else x
  }

  /** A running maximum that is replaced only on a strict increase. */
  function RaiseTo(current: real, candidate: real): (m: real)
    ensures m >= current && m >= candidate
    ensures m == current || m == candidate
    ensures m != current ==> candidate > current
  {
    if candidate > current then candidate else current
  }

  /** `m` lies between `a` and `b`, whichever of them is smaller. */
  predicate Between(m: real, a: real, b: real)
  {
    (a <= m <= b) || (b <= m <= a)
  }

  /** The mean of `a` and `b` weighted by `wa` and `wb`, as the average-speed
      update computes it. The first weight must be positive. */
  function WeightedMean(a: real, wa: real, b: real, wb: real): (m: real)
    requires wa > 0.0 && wb >= 0.0
    ensures m * (wa + wb) == a * wa + b * wb
    ensures Between(m, a, b)
    ensures wb == 0.0 ==> m == a
  {
    var m := (a * wa + b * wb) / (wa + wb);
    assert m - a == (b - a) * (wb / (wa + wb));
    assert 0.0 <= wb / (wa + wb) <= 1.0;
    m
  }

}
