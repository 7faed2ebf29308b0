/**
 Sequences of location callbacks, one fix each, and what a whole trip
 computes: the aggregates in closed form over the fixes delivered.

 Because the previous location is set only by the start button, every
 distance and acceleration step of a trip is measured against the start fix.
 */
module TripRun {
  import opened Optional
  import opened Fixes
  import opened Trip

  /** Delivers `fixes` one callback at a time, stopping at the first trap.
      Each callback carries a single fix; a larger batch acts as its last fix
      alone (`Trip.OnlyLastFixCounts`). */
  function Run(s: TripState, fixes: seq<Fix>, dist: Distance): (o: Outcome)
    requires NonNegative(dist)
    ensures |fixes| == 0 ==> o == Running(s)
    ensures o.Running? && |fixes| > 0 ==> o.state.currentLocation == Some(fixes[|fixes| - 1])
    ensures o.Running? ==>
      o.state.tripStarted == s.tripStarted && o.state.startLocation == s.startLocation
    decreases |fixes|
  {
    if |fixes| == 0 then Running(s)
    else
      match Deliver(s, [fixes[0]], dist)
      case Trapped(t) => Trapped(t)
      case Running(s1) => Run(s1, fixes[1..], dist)
  }

  /** The sum of the distances from each fix to the start fix `origin`. */
  function SumFromStart(fixes: seq<Fix>, origin: Fix, dist: Distance): (total: real)
    requires NonNegative(dist)
    ensures total >= 0.0
    ensures |fixes| > 0 ==> total >= dist(fixes[0].coordinate, origin.coordinate)
    decreases |fixes|
  {
    if |fixes| == 0 then 0.0
    else dist(fixes[0].coordinate, origin.coordinate) + SumFromStart(fixes[1..], origin, dist)
  }

  /** The largest of `init` and the km/h speeds of `fixes`. */
  function MaxSpeedOver(init: real, fixes: seq<Fix>): (m: real)
    ensures m >= init
    ensures forall i :: 0 <= i < |fixes| ==> m >= Kmh(fixes[i])
    ensures m == init || exists i :: 0 <= i < |fixes| && m == Kmh(fixes[i])
    decreases |fixes|
  {
    if |fixes| == 0 then init
    else
      var m := MaxSpeedOver(RaiseTo(init, Kmh(fixes[0])), fixes[1..]);
      assert forall i :: 1 <= i < |fixes| ==> fixes[i] == fixes[1..][i - 1];
      m
  }

  /** The largest of `init` and the acceleration magnitudes from the start fix
      `origin` to each of `fixes`. */
  function MaxAccelerationOver(init: real, origin: Fix, fixes: seq<Fix>): (m: real)
    ensures m >= init
    ensures forall i :: 0 <= i < |fixes| ==> m >= Abs(Acceleration(origin, fixes[i]))
    ensures m == init || exists i :: 0 <= i < |fixes| && m == Abs(Acceleration(origin, fixes[i]))
    decreases |fixes|
  {
    if |fixes| == 0 then init
    else
      var m := MaxAccelerationOver(RaiseTo(init, Abs(Acceleration(origin, fixes[0]))), origin, fixes[1..]);
      assert forall i :: 1 <= i < |fixes| ==> fixes[i] == fixes[1..][i - 1];
      m
  }

  /** Every state a run reaches is valid. */
  lemma {:induction false} RunPreservesValid(s: TripState, fixes: seq<Fix>, dist: Distance)
    requires NonNegative(dist)
    requires Valid(s)
    ensures Run(s, fixes, dist).Running? ==> Valid(Run(s, fixes, dist).state)
    decreases |fixes|
  {
    if |fixes| > 0 {
      var o := Deliver(s, [fixes[0]], dist);
      if o.Running? {
        RunPreservesValid(o.state, fixes[1..], dist);
      }
    }
  }

  /** Across a run the maximum speed, the maximum acceleration and the total
      distance never decrease, and the start location and tracking flag are
      never reassigned. */
  lemma {:induction false} RunMonotone(s: TripState, fixes: seq<Fix>, dist: Distance)
    requires NonNegative(dist)
    ensures Run(s, fixes, dist).Running? ==>
      var r := Run(s, fixes, dist).state;
      && r.maxSpeed >= s.maxSpeed
      && r.maxAcceleration >= s.maxAcceleration
      && r.totalDistance >= s.totalDistance
      && r.startLocation == s.startLocation
      && r.previousLocation == s.previousLocation
      && r.tripStarted == s.tripStarted
    decreases |fixes|
  {
    if |fixes| > 0 {
      var o := Deliver(s, [fixes[0]], dist);
      if o.Running? {
        RunMonotone(o.state, fixes[1..], dist);
      }
    }
  }

  /** A tracked trip that has a start fix never crashes. */
  lemma {:induction false} RunNeverTrapsWithStartFix(s: TripState, fixes: seq<Fix>, dist: Distance)
    requires NonNegative(dist)
    requires Valid(s) && s.startLocation.Some?
    ensures Run(s, fixes, dist).Running?
    decreases |fixes|
  {
    if |fixes| > 0 {
      var o := Deliver(s, [fixes[0]], dist);
      assert o.Running?;
      RunNeverTrapsWithStartFix(o.state, fixes[1..], dist);
    }
  }

  /** A tracked trip started without an available fix crashes on its first
      fix; when nothing has been added to the distance yet, it is the
      previous-location unwrap that fails. */
  lemma RunWithoutStartFixTraps(s: TripState, fixes: seq<Fix>, dist: Distance)
    requires NonNegative(dist)
    requires Valid(s) && s.tripStarted && s.startLocation.None?
    requires |fixes| > 0
    ensures Run(s, fixes, dist).Trapped?
    ensures s.totalDistance == 0.0 ==> Run(s, fixes, dist) == Trapped(UnwrapPreviousLocation)
  {
    assert Deliver(s, [fixes[0]], dist).Trapped?;
  }

  /** While no trip is tracked a run only moves the current location to the
      last fix: the aggregates, the alarm and the trip locations are frozen. */
  lemma {:induction false} RunWhileIdle(s: TripState, fixes: seq<Fix>, dist: Distance)
    requires NonNegative(dist)
    requires !s.tripStarted
    ensures Run(s, fixes, dist) ==
      Running(if |fixes| == 0 then s else s.(currentLocation := Some(fixes[|fixes| - 1])))
    decreases |fixes|
  {
    if |fixes| > 0 {
      var s1 := s.(currentLocation := Some(fixes[0]));
      assert Deliver(s, [fixes[0]], dist) == Running(s1);
      RunWhileIdle(s1, fixes[1..], dist);
      if |fixes| > 1 {
        assert fixes[1..][|fixes[1..]| - 1] == fixes[|fixes| - 1];
      }
    }
  }

  /** After the stop button every fix leaves the statistics as they were. */
  lemma FrozenAfterStop(s: TripState, fixes: seq<Fix>, dist: Distance)
    requires NonNegative(dist)
    ensures Run(Stop(s), fixes, dist).Running?
    ensures
      var r := Run(Stop(s), fixes, dist).state;
      && !r.tripStarted && !r.overLimit
      && r.totalDistance == s.totalDistance
      && r.maxSpeed == s.maxSpeed
      && r.avgSpeed == s.avgSpeed
      && r.maxAcceleration == s.maxAcceleration
      && r.startLocation == s.startLocation
  {
    RunWhileIdle(Stop(s), fixes, dist);
  }

  /** The total distance of a tracked trip is the sum, over the fixes, of the
      distance from each fix to the start fix. */
  lemma {:induction false} RunTotalDistance(s: TripState, fixes: seq<Fix>, origin: Fix, dist: Distance)
    requires NonNegative(dist)
    requires Valid(s) && s.tripStarted && s.startLocation == Some(origin)
    ensures Run(s, fixes, dist).Running?
    ensures Run(s, fixes, dist).state.totalDistance == s.totalDistance + SumFromStart(fixes, origin, dist)
    decreases |fixes|
  {
    if |fixes| > 0 {
      var o := Deliver(s, [fixes[0]], dist);
      assert o.Running? &&
        o.state.totalDistance == s.totalDistance + dist(fixes[0].coordinate, origin.coordinate);
      RunTotalDistance(o.state, fixes[1..], origin, dist);
    }
  }

  /** The maximum speed of a tracked trip is the largest km/h speed among the
      fixes and the maximum before them. */
  lemma {:induction false} RunMaxSpeed(s: TripState, fixes: seq<Fix>, dist: Distance)
    requires NonNegative(dist)
    requires Valid(s) && s.tripStarted && s.startLocation.Some?
    ensures Run(s, fixes, dist).Running?
    ensures Run(s, fixes, dist).state.maxSpeed == MaxSpeedOver(s.maxSpeed, fixes)
    decreases |fixes|
  {
    if |fixes| > 0 {
      var o := Deliver(s, [fixes[0]], dist);
      assert o.Running? && o.state.maxSpeed == RaiseTo(s.maxSpeed, Kmh(fixes[0]));
      RunMaxSpeed(o.state, fixes[1..], dist);
    }
  }

  /** The maximum acceleration of a tracked trip is the largest magnitude of
      the acceleration from the start fix to each fix, and the maximum before
      them. */
  lemma {:induction false} RunMaxAcceleration(s: TripState, fixes: seq<Fix>, origin: Fix, dist: Distance)
    requires NonNegative(dist)
    requires Valid(s) && s.tripStarted && s.startLocation == Some(origin)
    ensures Run(s, fixes, dist).Running?
    ensures Run(s, fixes, dist).state.maxAcceleration ==
      MaxAccelerationOver(s.maxAcceleration, origin, fixes)
    decreases |fixes|
  {
    if |fixes| > 0 {
      var o := Deliver(s, [fixes[0]], dist);
      assert o.Running? &&
        o.state.maxAcceleration == RaiseTo(s.maxAcceleration, Abs(Acceleration(origin, fixes[0])));
      RunMaxAcceleration(o.state, fixes[1..], origin, dist);
    }
  }

  /** After a tracked run the alarm reflects the last fix alone. */
  lemma {:induction false} RunAlarmFollowsLastFix(s: TripState, fixes: seq<Fix>, dist: Distance)
    requires NonNegative(dist)
    requires Valid(s) && s.tripStarted && s.startLocation.Some?
    requires |fixes| > 0
    ensures Run(s, fixes, dist).Running?
    ensures Run(s, fixes, dist).state.overLimit <==> Kmh(fixes[|fixes| - 1]) >= SpeedLimitKmh
    decreases |fixes|
  {
    var o := Deliver(s, [fixes[0]], dist);
    assert o.Running?;
    if |fixes| == 1 {
      assert Run(s, fixes, dist) == Run(o.state, [], dist);
    } else {
      RunAlarmFollowsLastFix(o.state, fixes[1..], dist);
      assert fixes[1..][|fixes[1..]| - 1] == fixes[|fixes| - 1];
    }
  }

  /** The average speed of a trip never exceeds its maximum speed. */
  lemma AverageBelowMaximum(s: TripState, available: Option<Fix>, fixes: seq<Fix>, dist: Distance)
    requires NonNegative(dist)
    ensures Run(Start(s, available), fixes, dist).Running? ==>
      Run(Start(s, available), fixes, dist).state.avgSpeed <=
      Run(Start(s, available), fixes, dist).state.maxSpeed
  {
    RunPreservesValid(Start(s, available), fixes, dist);
  }

}
