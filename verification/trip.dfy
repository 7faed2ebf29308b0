/**
 The trip statistics of the GPS screen as a state machine: the stored fields of
 the view controller, the start and stop buttons, and the per-fix updates of
 speed, distance, acceleration and the speed-limit alarm, in the order the
 location callback runs them.

 Two force-unwraps in the source (`startLocation!` and `previousLocation!`)
 crash the app when the optional is empty; here they are the `Trapped` outcome.
 */
module Trip {
  import opened Optional
  import opened Fixes

  /** The stored fields of the screen. `overLimit` is the alarm: the top bar
      shown red. Speeds are in km/h and the distance is in metres. */
  datatype TripState = TripState(
    currentLocation: Option<Fix>,
    startLocation: Option<Fix>,
    previousLocation: Option<Fix>,
    tripStarted: bool,
    totalDistance: real,
    maxSpeed: real,
    avgSpeed: real,
    maxAcceleration: real,
    overLimit: bool)

  /** Which force-unwrap found an empty optional. */
  datatype Trap = UnwrapStartLocation | UnwrapPreviousLocation

  /** The result of delivering fixes: the new state, or the crash. */
  datatype Outcome = Running(state: TripState) | Trapped(trap: Trap)

  /** What holds of every state the screen can reach. The previous location
      is only ever assigned together with the start location. */
  ghost predicate Valid(s: TripState)
  {
    && s.totalDistance >= 0.0
    && s.maxSpeed >= 0.0
    && s.maxAcceleration >= 0.0
    && s.avgSpeed <= s.maxSpeed
    && s.previousLocation == s.startLocation
  }

  /** The fields as declared, before any button is pressed. */
  function Initial(): (s: TripState)
    ensures Valid(s)
    ensures !s.tripStarted && !s.overLimit
    ensures s.currentLocation.None? && s.startLocation.None? && s.previousLocation.None?
    ensures s.totalDistance == 0.0 && s.maxSpeed == 0.0
    ensures s.avgSpeed == 0.0 && s.maxAcceleration == 0.0
  {
    TripState(None, None, None, false, 0.0, 0.0, 0.0, 0.0, false)
  }

  /** The start button: resets the four aggregates, clears the alarm and takes
      the fix the location manager has right now (possibly none) as both the
      start and the previous location. */
  function Start(s: TripState, available: Option<Fix>): (r: TripState)
    ensures Valid(r)
    ensures r.tripStarted && !r.overLimit
    ensures r.startLocation == available
    ensures r.totalDistance == 0.0 && r.maxSpeed == 0.0
    ensures r.avgSpeed == 0.0 && r.maxAcceleration == 0.0
    ensures r.currentLocation == s.currentLocation
  {
    s.(tripStarted := true,
       startLocation := available,
       previousLocation := available,
       totalDistance := 0.0,
       maxSpeed := 0.0,
       avgSpeed := 0.0,
       maxAcceleration := 0.0,
       overLimit := false)
  }

  /** The stop button: the trip is no longer tracked and the top bar is
      cleared; every aggregate keeps its value. */
  function Stop(s: TripState): (r: TripState)
    ensures !r.tripStarted && !r.overLimit
    ensures r.(tripStarted := s.tripStarted, overLimit := s.overLimit) == s
    ensures Valid(s) ==> Valid(r)
  {
    s.(tripStarted := false, overLimit := false)
  }

  /** The speed step for the current fix `c`: the running maximum, the
      provisional alarm (strictly above the limit), and the average speed,
      weighted by the distance so far and by the distance from `c` to the
      start location. Traps when that distance is needed and there is no
      start location. */
  function UpdateSpeed(s: TripState, c: Fix, dist: Distance): (o: Outcome)
    requires NonNegative(dist)
    ensures o.Trapped? <==> s.totalDistance > 0.0 && s.startLocation.None?
    ensures o.Trapped? ==> o.trap == UnwrapStartLocation
    ensures o.Running? ==>
      var r := o.state;
      && r == s.(maxSpeed := r.maxSpeed, avgSpeed := r.avgSpeed, overLimit := r.overLimit)
      && r.maxSpeed >= s.maxSpeed && r.maxSpeed >= Kmh(c)
      && (r.maxSpeed == s.maxSpeed || r.maxSpeed == Kmh(c))
      && (r.maxSpeed != s.maxSpeed ==> Kmh(c) > s.maxSpeed)
      && (r.overLimit <==> Kmh(c) > SpeedLimitKmh)
      && (s.totalDistance <= 0.0 ==> r.avgSpeed == 0.0)
      && (s.totalDistance > 0.0 ==>
            var w := dist(c.coordinate, s.startLocation.value.coordinate);
            && r.avgSpeed * (s.totalDistance + w) == s.avgSpeed * s.totalDistance + Kmh(c) * w
            && Between(r.avgSpeed, s.avgSpeed, Kmh(c)))
  {
    var speed := Kmh(c);
    var s1 := s.(maxSpeed := RaiseTo(s.maxSpeed, speed), overLimit := speed > SpeedLimitKmh);
    if s.totalDistance > 0.0 then
      match s.startLocation
      case None => Trapped(UnwrapStartLocation)
      case Some(start) =>
        var w := dist(c.coordinate, start.coordinate);
        Running(s1.(avgSpeed := WeightedMean(s.avgSpeed, s.totalDistance, speed, w)))
    else
      Running(s1.(avgSpeed := 0.0))
  }

  /** The distance step: adds the distance from `c` to the previous location,
      trapping when there is none. */
  function UpdateDistance(s: TripState, c: Fix, dist: Distance): (o: Outcome)
    requires NonNegative(dist)
    ensures o.Trapped? <==> s.previousLocation.None?
    ensures o.Trapped? ==> o.trap == UnwrapPreviousLocation
    ensures o.Running? ==>
      && o.state == s.(totalDistance := o.state.totalDistance)
      && o.state.totalDistance >= s.totalDistance
      && o.state.totalDistance - s.totalDistance ==
         dist(c.coordinate, s.previousLocation.value.coordinate)
  {
    match s.previousLocation
    case None => Trapped(UnwrapPreviousLocation)
    case Some(previous) =>
      Running(s.(totalDistance := s.totalDistance + dist(c.coordinate, previous.coordinate)))
  }

  /** The acceleration step: the magnitude of the acceleration from the
      previous location to `c` raises the running maximum when strictly
      larger. Skipped when there is no previous location. */
  function UpdateAcceleration(s: TripState, c: Fix): (r: TripState)
    ensures r == s.(maxAcceleration := r.maxAcceleration)
    ensures s.previousLocation.None? ==> r == s
    ensures s.previousLocation.Some? ==>
      var a := Abs(Acceleration(s.previousLocation.value, c));
      && r.maxAcceleration >= s.maxAcceleration && r.maxAcceleration >= a
      && (r.maxAcceleration == s.maxAcceleration || r.maxAcceleration == a)
      && (r.maxAcceleration != s.maxAcceleration ==> a > s.maxAcceleration)
  {
    match s.previousLocation
    case None => s
    case Some(previous) =>
      s.(maxAcceleration := RaiseTo(s.maxAcceleration, Abs(Acceleration(previous, c))))
  }

  /** The last step: the alarm is decided again, now on for every speed that
      is not below the limit, so exactly the limit turns it on. */
  function UpdateKmBeforeLimit(s: TripState, c: Fix): (r: TripState)
    ensures r == s.(overLimit := r.overLimit)
    ensures r.overLimit <==> Kmh(c) >= SpeedLimitKmh
  {
    s.(overLimit := !(Kmh(c) < SpeedLimitKmh))
  }

  /** One fix `c` while the trip is tracked: speed, distance, acceleration,
      then the alarm, stopping at the first trap. */
  function Process(s: TripState, c: Fix, dist: Distance): (o: Outcome)
    requires NonNegative(dist)
    ensures o.Trapped? <==>
      s.previousLocation.None? || (s.totalDistance > 0.0 && s.startLocation.None?)
    ensures o.Trapped? ==>
      (o.trap == UnwrapStartLocation <==> s.totalDistance > 0.0 && s.startLocation.None?)
    ensures o.Running? ==>
      var r := o.state;
      var p := s.previousLocation.value;
      && r.currentLocation == s.currentLocation
      && r.startLocation == s.startLocation
      && r.previousLocation == s.previousLocation
      && r.tripStarted == s.tripStarted
      && r.maxSpeed >= s.maxSpeed && r.maxSpeed >= Kmh(c)
      && (r.maxSpeed == s.maxSpeed || r.maxSpeed == Kmh(c))
      && r.totalDistance == s.totalDistance + dist(c.coordinate, p.coordinate)
      && r.maxAcceleration >= s.maxAcceleration
      && r.maxAcceleration >= Abs(Acceleration(p, c))
      && (r.maxAcceleration == s.maxAcceleration || r.maxAcceleration == Abs(Acceleration(p, c)))
      && (r.overLimit <==> Kmh(c) >= SpeedLimitKmh)
      && (s.totalDistance <= 0.0 ==> r.avgSpeed == 0.0)
      && (s.totalDistance > 0.0 ==>
            var w := dist(c.coordinate, s.startLocation.value.coordinate);
            && r.avgSpeed * (s.totalDistance + w) == s.avgSpeed * s.totalDistance + Kmh(c) * w
            && Between(r.avgSpeed, s.avgSpeed, Kmh(c)))
    ensures o.Running? && Valid(s) ==> Valid(o.state)
  {
    match UpdateSpeed(s, c, dist)
    case Trapped(t) => Trapped(t)
    case Running(s1) =>
      match UpdateDistance(s1, c, dist)
      case Trapped(t) => Trapped(t)
      case Running(s2) => Running(UpdateKmBeforeLimit(UpdateAcceleration(s2, c), c))
  }

  /** The location callback with a batch of fixes. An empty batch changes
      nothing; otherwise only the last fix is used: it always becomes the
      current location, and it is processed only while the trip is tracked. */
  function Deliver(s: TripState, locations: seq<Fix>, dist: Distance): (o: Outcome)
    requires NonNegative(dist)
    ensures |locations| == 0 ==> o == Running(s)
    ensures |locations| > 0 && !s.tripStarted ==>
      o == Running(s.(currentLocation := Some(locations[|locations| - 1])))
    ensures |locations| > 0 && s.tripStarted ==>
      o == Process(s.(currentLocation := Some(locations[|locations| - 1])),
                   locations[|locations| - 1], dist)
  {
    if |locations| == 0 then Running(s)
    else
      var c := locations[|locations| - 1];
      var s1 := s.(currentLocation := Some(c));
      if s1.tripStarted then Process(s1, c, dist) else Running(s1)
  }

  /** Two starts in a row with the same available fix leave the state of one. */
  lemma StartIdempotent(s: TripState, available: Option<Fix>)
    ensures Start(Start(s, available), available) == Start(s, available)
  {
  }

  /** A start forgets everything of the previous trip. */
  lemma StartForgetsPreviousTrip(s: TripState, t: TripState, available: Option<Fix>)
    requires s.currentLocation == t.currentLocation
    ensures Start(s, available) == Start(t, available)
  {
  }

  /** A second stop has no further effect. */
  lemma StopIdempotent(s: TripState)
    ensures Stop(Stop(s)) == Stop(s)
  {
  }

  /** Only the last fix of a batch matters. */
  lemma OnlyLastFixCounts(s: TripState, locations: seq<Fix>, dist: Distance)
    requires NonNegative(dist)
    requires |locations| > 0
    ensures Deliver(s, locations, dist) == Deliver(s, [locations[|locations| - 1]], dist)
  {
  }

  /** In a reachable state of a tracked trip, a fix crashes the screen exactly
      when the trip was started without an available fix. */
  lemma TrapIffNoStartFix(s: TripState, c: Fix, dist: Distance)
    requires NonNegative(dist)
    requires Valid(s) && s.tripStarted
    ensures Deliver(s, [c], dist).Trapped? <==> s.startLocation.None?
  {
  }

}
