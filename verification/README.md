# Trip statistics of the GPS screen, in Dafny

The app shows one screen with a map and a row of trip statistics. The start
button begins a trip, the stop button ends it, and every location fix that
arrives while the trip runs updates five values:

- the current speed;
- the maximum speed;
- the distance-weighted average speed;
- the total distance;
- the maximum acceleration.

When the speed reaches 115 km/h the top bar turns red (the speed alarm).

This project models that logic as pure functions over an immutable
`TripState` record. The record holds the stored fields of the view
controller.

- `Fixes` (`fixes.dfy`): a fix is a coordinate plus a speed in m/s. The file
  also holds the km/h conversion, the acceleration formula with its fixed
  divisor of 2, and the running-maximum and weighted-mean helpers. The
  geodesic distance is an abstract `Distance` function of two coordinates
  (never of speeds) that must never be negative.
- `Trip` (`trip.dfy`): the state, and the start and stop buttons. It also has
  the four per-fix steps, in the order the callback runs them: speed,
  distance, acceleration, then the final alarm decision. `Process` runs one
  fix through them. `Deliver` is the location callback itself.
- `TripRun` (`trip_run.dfy`): runs over sequences of fixes, with the
  aggregates of a whole trip in closed form.
- `Scenarios` (`scenarios.dfy`): small worked trips.

A Swift force-unwrap of an empty optional crashes the app. The model does
not skip that case. It returns the outcome `Trapped(UnwrapStartLocation)` or
`Trapped(UnwrapPreviousLocation)` instead.

## Behaviour as written

The code has some behaviours a reader might not expect. The model follows
the code as written:

- Negative "unknown" speeds are not clamped to 0. They enter the maximum,
  the average, the acceleration and the alarm as they are.
- `previousLocation` is assigned only by the start button. It is never
  moved on to the latest fix. So every distance step and every acceleration
  is measured from the start fix. The total distance is therefore the sum of
  the distances from each fix to the start fix.
- The average-speed weight is the distance from the *current* fix to the
  start fix. The other weight is the total distance *before* this fix's
  distance step. So the first fix of a trip always leaves the average at 0.
- A missing previous location crashes the app. It is not skipped. A trip
  started without an available fix therefore crashes on its first fix.
- The speed step sets the alarm only above 115 km/h. The last step then
  overrides it with "not below 115 km/h". The visible alarm is therefore on
  at exactly 115 km/h.
- The stop button also clears the top bar, so the model's alarm is cleared
  on stop. The aggregates are kept.

## Model

| member | source | states |
|---|---|---|
| `Trip.Initial` | Assignment_Lab7_GPS/ViewController.swift:20-40 | The declared fields (lines 20-27) form a valid state. No trip is running, the alarm is off (the top bar is cleared at line 40), all three locations are empty, and the distance, maximum speed, average speed and maximum acceleration are 0. |
| `Trip.Start` | Assignment_Lab7_GPS/ViewController.swift:44-66 | Start zeroes the distance and the maximum, average and acceleration. It sets the trip flag and clears the alarm. Start and previous location both become the available fix (possibly none). The result is valid. |
| `Trip.StartIdempotent` | Assignment_Lab7_GPS/ViewController.swift:44-56 | Two starts with the same available fix give the state of one start. |
| `Trip.StartForgetsPreviousTrip` | Assignment_Lab7_GPS/ViewController.swift:44-56 | The state after start depends only on the available fix and the current location, not on the earlier trip. |
| `Trip.Stop` | Assignment_Lab7_GPS/ViewController.swift:69-78 | Stop clears the trip flag and the alarm. Every other field is unchanged, and validity is kept. |
| `Trip.StopIdempotent` | Assignment_Lab7_GPS/ViewController.swift:69-71 | A second stop changes nothing. |
| `Trip.UpdateSpeed` | Assignment_Lab7_GPS/ViewController.swift:98-125 | The maximum speed is at least the old maximum and the fix's km/h speed, and is one of the two. It changes only on a strict increase. The provisional alarm means strictly above 115. With no distance so far the average becomes 0. Otherwise the new average times the summed weights equals the weighted sum of the old average and the current speed, so it lies between them. A missing start location traps exactly when the distance so far is positive. |
| `Trip.UpdateDistance` | Assignment_Lab7_GPS/ViewController.swift:128-133 | The total grows by exactly the distance from the fix to the previous location. It traps exactly when there is no previous location. |
| `Trip.UpdateAcceleration` | Assignment_Lab7_GPS/ViewController.swift:136-145 | The maximum acceleration becomes the larger of itself and the magnitude of (current km/h − previous km/h) / 2. It changes only on a strict increase, and nothing changes without a previous location. |
| `Trip.UpdateKmBeforeLimit` | Assignment_Lab7_GPS/ViewController.swift:156-169 | The final alarm is on exactly when the km/h speed is not below 115. Nothing else changes. |
| `Trip.Process` | Assignment_Lab7_GPS/ViewController.swift:86-93 | One tracked fix traps exactly when the previous location is missing, or when the start location is missing and the distance is positive. Otherwise the trip locations are untouched and both maxima are raised to the fix's values. The total gains the distance to the previous location, and the alarm is "at least 115". With no distance before this fix the average becomes 0. Otherwise, because the speed step runs before the distance step, the new average is the mean of the old average and the current speed, weighted by the total from before this fix and by the fix's distance to the start fix; so it lies between them. Validity is preserved. |
| `Trip.Deliver` | Assignment_Lab7_GPS/ViewController.swift:82-95 | An empty batch changes nothing. Only the last fix of a batch is used, and it always becomes the current location. While no trip runs, nothing else changes. |
| `Trip.OnlyLastFixCounts` | Assignment_Lab7_GPS/ViewController.swift:83-84 | A batch has the same effect as its last fix alone. |
| `Trip.TrapIffNoStartFix` | Assignment_Lab7_GPS/ViewController.swift:118-130 | In a reachable tracked state, a fix crashes exactly when the trip was started without an available fix. |
| `Fixes.Kmh` | Assignment_Lab7_GPS/ViewController.swift:101 | The km/h speed is negative exactly when the reported speed is. It is above the limit exactly when the m/s speed is above 115 / 3.6. |
| `Fixes.Acceleration` | Assignment_Lab7_GPS/ViewController.swift:139 | The acceleration times the divisor 2, added to the baseline km/h speed, gives the current km/h speed. |
| `Fixes.Abs` | Assignment_Lab7_GPS/ViewController.swift:140-141 | The magnitude of the acceleration is non-negative and equals the value or its negation. |
| `Fixes.RaiseTo` | Assignment_Lab7_GPS/ViewController.swift:106-108 | A running maximum is at least both inputs and equal to one of them. It differs from the old value only on a strict increase. |
| `Fixes.WeightedMean` | Assignment_Lab7_GPS/ViewController.swift:117-118 | The mean times the weight sum equals the weighted sum of the two values. It lies between them and equals the first when the second weight is 0. |
| `TripRun.Run` | Assignment_Lab7_GPS/ViewController.swift:82-95 | Successive location callbacks, each carrying one fix (`Trip.OnlyLastFixCounts` covers larger batches). No fixes change nothing. After a run that does not crash, the current location is the last fix delivered, and the trip flag and start location are as before. |
| `TripRun.SumFromStart` | Assignment_Lab7_GPS/ViewController.swift:128-130 | A sum of distances to the start fix is non-negative and at least its first term. |
| `TripRun.MaxSpeedOver` | Assignment_Lab7_GPS/ViewController.swift:106-108 | The running maximum over fixes is at least the initial value and every km/h speed. It is the initial value or one of those speeds. |
| `TripRun.MaxAccelerationOver` | Assignment_Lab7_GPS/ViewController.swift:139-141 | The running maximum over fixes is at least the initial value and every acceleration magnitude from the start fix. It is the initial value or one of those magnitudes. |
| `TripRun.RunPreservesValid` | Assignment_Lab7_GPS/ViewController.swift:98-145 | Every state a run reaches is valid: non-negative distance and maxima, average at most maximum, previous location equal to start location. |
| `TripRun.RunMonotone` | Assignment_Lab7_GPS/ViewController.swift:106-141 | Across any run the maximum speed, maximum acceleration and total distance never decrease. The start location, previous location and trip flag are never reassigned. |
| `TripRun.RunNeverTrapsWithStartFix` | Assignment_Lab7_GPS/ViewController.swift:118-130 | A valid state with a start fix never crashes, whatever fixes follow. |
| `TripRun.RunWithoutStartFixTraps` | Assignment_Lab7_GPS/ViewController.swift:130 | A tracked trip without a start fix crashes on its first fix. It is the previous-location unwrap when no distance has been added. |
| `TripRun.RunWhileIdle` | Assignment_Lab7_GPS/ViewController.swift:83-86 | With no trip running, a run only sets the current location to the last fix. |
| `TripRun.FrozenAfterStop` | Assignment_Lab7_GPS/ViewController.swift:69-94 | After stop, any fixes leave the distance, maxima, average and start location as they were at stop. |
| `TripRun.RunTotalDistance` | Assignment_Lab7_GPS/ViewController.swift:128-131 | Because the previous location stays the start fix, the total after a run equals the earlier total plus the sum of each fix's distance to the start fix. |
| `TripRun.RunMaxSpeed` | Assignment_Lab7_GPS/ViewController.swift:106-108 | The maximum speed after a run is the largest of the earlier maximum and the fixes' km/h speeds. |
| `TripRun.RunMaxAcceleration` | Assignment_Lab7_GPS/ViewController.swift:136-142 | The maximum acceleration after a run is the largest of the earlier maximum and each fix's acceleration magnitude from the start fix. |
| `TripRun.RunAlarmFollowsLastFix` | Assignment_Lab7_GPS/ViewController.swift:156-167 | After a tracked run the alarm is on exactly when the last fix's km/h speed is at least 115. |
| `TripRun.AverageBelowMaximum` | Assignment_Lab7_GPS/ViewController.swift:116-121 | In every trip that does not crash, the average speed never exceeds the maximum speed. |
| `Scenarios.NoStartFixCrashes` | Assignment_Lab7_GPS/ViewController.swift:130 | Start with no available fix, then one fix: the previous-location unwrap crashes. |
| `Scenarios.OneKilometreAt108` | Assignment_Lab7_GPS/ViewController.swift:101-142 | A fix at 30 m/s, 1000 m from a resting start fix, gives 108 km/h current and maximum speed. The distance is 1000 m, the average 0 and the acceleration 54, with no alarm. |
| `Scenarios.AverageWeightedByDistanceFromStart` | Assignment_Lab7_GPS/ViewController.swift:117-121 | Fixes at 36 and 72 km/h, at distinct coordinates 100 m and 300 m from the start, give a total of 400 m and an average of 54 km/h. |
| `Scenarios.AlarmOnThenOff` | Assignment_Lab7_GPS/ViewController.swift:156-167 | 32 m/s (115.2 km/h) turns the alarm on, and a following 31 m/s (111.6 km/h) turns it off. |
| `Scenarios.AlarmAtExactlyTheLimit` | Assignment_Lab7_GPS/ViewController.swift:112-167 | At exactly 115 km/h the speed step leaves the alarm off and the last step turns it on. |
| `Scenarios.AccelerationFiftyToSixty` | Assignment_Lab7_GPS/ViewController.swift:136-142 | From a start fix at 50 km/h to a fix at 60 km/h the maximum acceleration is 5. |
| `Scenarios.UnknownSpeedNeverRaisesMaximum` | Assignment_Lab7_GPS/ViewController.swift:101-108 | In any reachable tracked state with a start fix, a fix with any negative (unknown) speed does not crash and leaves the maximum speed unchanged. |

## Left out

- User interface: outlets, label texts and their `%.1f` formatting, bar
  colours other than the alarm, and the map region (`updateMapView`). These
  are presentation only.
- The location manager: authorization, accuracy, and starting and stopping
  updates. These are calls into the operating system. The fix the manager
  has at start is a parameter of `Trip.Start`, and fixes arrive as the
  argument of `Trip.Deliver`.
- The error callback (`didFailWithError`). It only prints and changes no
  state.
- The rounded "distance before the speed limit" value. It is only printed,
  never stored.
- The geodesic computation of `CLLocation.distance(from:)`. It is a
  framework call, so it is a `Distance` parameter over two coordinates that
  is only assumed non-negative. Nothing else about the geodesic (symmetry,
  zero distance from a point to itself, the triangle inequality) is assumed.
- `Double` arithmetic. It is modelled as `real`, so rounding, NaN and
  infinity are not modelled. The average's denominator is positive whenever
  the average is computed, so no division by zero arises in the model.
