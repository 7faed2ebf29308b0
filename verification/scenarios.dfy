/**
 Concrete trips worked through the model: the behaviour of the screen on
 small inputs, with the distance function constrained only where it matters.
 */
module Scenarios {
  import opened Optional
  import opened Fixes
  import opened Trip
  import opened TripRun

  /** A fix on the meridian at 79 degrees west, at the given latitude and speed. */
  function At(latitude: real, speed: real): Fix
  {
    Fix(Coordinate(latitude, -79.0), speed)
  }

  /** Started without an available fix, the first tracked fix crashes on the
      previous-location unwrap. */
  lemma NoStartFixCrashes(dist: Distance)
    requires NonNegative(dist)
    ensures Run(Start(Initial(), None), [At(43.0, 0.0)], dist) == Trapped(UnwrapPreviousLocation)
  {
  }

  /** A fix 1000 m from the start fix at 30 m/s: 108 km/h becomes the maximum,
      the distance is 1000 m, and the average is still 0 because no distance
      had been covered before this fix. */
  lemma OneKilometreAt108(dist: Distance)
    requires NonNegative(dist)
    requires dist(At(43.009, 30.0).coordinate, At(43.0, 0.0).coordinate) == 1000.0
    ensures Run(Start(Initial(), Some(At(43.0, 0.0))), [At(43.009, 30.0)], dist).Running?
    ensures
      var r := Run(Start(Initial(), Some(At(43.0, 0.0))), [At(43.009, 30.0)], dist).state;
      && r.currentLocation == Some(At(43.009, 30.0))
      && Kmh(r.currentLocation.value) == 108.0
      && r.maxSpeed == 108.0
      && r.totalDistance == 1000.0
      && r.avgSpeed == 0.0
      && r.maxAcceleration == 54.0
      && !r.overLimit
  {
  }

  /** The average is weighted by the distance from the current fix to the
      start fix: 36 km/h over the first 100 m does not count, and 72 km/h at
      300 m from the start gives (0 * 100 + 72 * 300) / 400 = 54 km/h. */
  lemma AverageWeightedByDistanceFromStart(dist: Distance)
    requires NonNegative(dist)
    requires dist(At(43.0009, 10.0).coordinate, At(43.0, 0.0).coordinate) == 100.0
    requires dist(At(43.0027, 20.0).coordinate, At(43.0, 0.0).coordinate) == 300.0
    ensures
      Run(Start(Initial(), Some(At(43.0, 0.0))), [At(43.0009, 10.0), At(43.0027, 20.0)], dist).Running?
    ensures
      var r :=
        Run(Start(Initial(), Some(At(43.0, 0.0))), [At(43.0009, 10.0), At(43.0027, 20.0)], dist).state;
      && r.totalDistance == 400.0
      && r.avgSpeed == 54.0
      && r.maxSpeed == 72.0
  {
    var s0 := Start(Initial(), Some(At(43.0, 0.0)));
    var s1 := Deliver(s0, [At(43.0009, 10.0)], dist).state;
    assert s1.totalDistance == 100.0 && s1.avgSpeed == 0.0;
    assert Run(s0, [At(43.0009, 10.0), At(43.0027, 20.0)], dist) ==
           Run(s1, [At(43.0027, 20.0)], dist);
  }

  /** 32 m/s (115.2 km/h) turns the alarm on; the next fix at 31 m/s
      (111.6 km/h) turns it off again. */
  lemma AlarmOnThenOff(start: Fix, dist: Distance)
    requires NonNegative(dist)
    ensures Run(Start(Initial(), Some(start)), [At(43.0, 32.0)], dist).state.overLimit
    ensures !Run(Start(Initial(), Some(start)), [At(43.0, 32.0), At(43.0, 31.0)], dist).state.overLimit
  {
    RunAlarmFollowsLastFix(Start(Initial(), Some(start)), [At(43.0, 32.0)], dist);
    RunAlarmFollowsLastFix(Start(Initial(), Some(start)), [At(43.0, 32.0), At(43.0, 31.0)], dist);
  }

  /** Exactly 115 km/h turns the alarm on: the last step's condition is "not below
      the limit", although the speed step alone would not have set it. */
  lemma AlarmAtExactlyTheLimit(s: TripState, dist: Distance)
    requires NonNegative(dist)
    ensures !UpdateSpeed(s, At(43.0, 115.0 / 3.6), dist).Running? ||
            !UpdateSpeed(s, At(43.0, 115.0 / 3.6), dist).state.overLimit
    ensures UpdateKmBeforeLimit(s, At(43.0, 115.0 / 3.6)).overLimit
  {
  }

  /** From a start fix at 50 km/h to a fix at 60 km/h the reported
      acceleration is (60 - 50) / 2 = 5. */
  lemma AccelerationFiftyToSixty(dist: Distance)
    requires NonNegative(dist)
    ensures Run(Start(Initial(), Some(At(43.0, 50.0 / 3.6))), [At(43.0, 60.0 / 3.6)], dist).Running?
    ensures
      Run(Start(Initial(), Some(At(43.0, 50.0 / 3.6))), [At(43.0, 60.0 / 3.6)], dist).state.maxAcceleration
      == 5.0
  {
  }

  /** An unknown speed (negative) never raises the maximum speed. */
  lemma UnknownSpeedNeverRaisesMaximum(s: TripState, c: Fix, dist: Distance)
    requires NonNegative(dist)
    requires Valid(s) && s.tripStarted && s.startLocation.Some?
    requires c.speed < 0.0
    ensures Deliver(s, [c], dist).Running?
    ensures Deliver(s, [c], dist).state.maxSpeed == s.maxSpeed
  {
  }

}
