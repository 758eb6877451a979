# swingby_challenge in Dafny

This project models the discrete logic of swingby_challenge in Dafny. swingby_challenge simulates a spacecraft's planar trajectory around the Sun, with planetary swing-bys. The numerical work (scipy's `odeint`, astropy's ephemeris, `np.sqrt`, `np.cos` and `np.sin`) is not modelled. Each of these is a function parameter, and a predicate states what the model relies on about it:

- `IsSqrt`: a square root on the non-negative reals.
- `IsTrig`: cosine and sine, through their values at 0 and at a quarter turn, the Pythagorean identity and angle addition.
- `IsOdeint`: one state per grid instant, the first row being the initial state; only the N-body right-hand side stops the program, at one of its listed bodies.

What the model captures, module by module:

- `Constants` (class `Config`): the Earth's orbital radius and speed, and the two per-body tables, GM and mean radius.
- `Coordinates`: `transform_to_rotating_coordinate_system`, an element-wise counter-clockwise rotation.
- `Ephemeris`:
  - `get_planet_coord` and `get_planet_coord_timeseries`. `swingby/utils/ephemeris.py` and the legacy `planet_position.py` contain the same two functions, so one model covers both files.
  - The per-instant lookups are re-indexed into per-body `x`, `y`, `z` series.
  - Two quirks are kept: `z` is a copy of `x`, and a name listed n times gets n entries per instant.
- `EquationOfMotion` (`equation_of_motion.py`):
  - The N-body right-hand side is written as the imperative loop over the coordinate dictionary, with the array `dxdt` updated in place. It is proved equal to a functional specification `NBody`.
  - The collision exit becomes the outcome `Collision(body)`.
  - The two-body right-hand side is a function.
- `EquationOfMotionFacts`: the N-body right-hand side as a whole:
  - it reduces to the two-body form when no body is listed;
  - it collides exactly when a squared distance is below a squared radius;
  - it does not depend on the order or the repetition of the listed bodies.
- `Integrator`: the `odeint` oracle and the force models handed to it.
- `Simulation`: class `OrbitSimulation` of `swingby/core/simulation.py`.
  - Its fields are updated by `RunSimulation`.
  - The segment loop is a `while` loop proved against the recursive specification `Propagate`.
  - Daily integer-second grids, zip truncation, and the start state of every segment are modelled.
  - So are the daily timeseries, the bodies' positions over it, and the distance to the Earth, including numpy broadcasting.
- `SimulationFacts`: properties of the loop and of what follows it:
  - solution count, row count and clock;
  - the delta-V touches the velocity only, and `delta_V[0]` is never applied;
  - when the timeseries matches the samples;
  - the Earth distance over the whole mission.
- `Orbit`: the legacy script `orbit.py` up to its plotting.
  - It models the closed-form escape velocity and the rotation at time zero.
  - It models the truncated step counts, the `np.linspace` grids, and the two-body then N-body propagation joined by a delta-V kick.

Instants are real seconds on one fixed scale. A grid of `propagate_orbit_segment` counts integer seconds from the mission start `dtStart`. The N-body right-hand side reads the ephemeris at `dtStart + t`.

Three behaviours of the code are modelled as written, although a reader might expect a check:

- **Length mismatch between `travel_days` and `delta_V`.**
  - The code does not reject it. It zips the two lists and ignores the extra entries, while the timeseries still spans `sum(travel_days)` days.
  - The model zips (`Zipped`). `SeriesMatchesSamples` shows when the timeseries still matches the samples, and `DroppedDurationsMismatch` shows the distance failing when durations are dropped.
- **A non-positive duration.**
  - The segment's empty solution is appended first, and then `t_span[-1]` fails.
  - The model reports `EmptySegment` after appending.
- **The Earth-distance shape check.**
  - numpy subtracts arrays of equal length element by element, repeats the single entry of an array of length one, and fails on any other pair of lengths.
  - `Broadcast` models that, and `ShapeMismatch` is the failure.

## Model

| member | source | states |
|---|---|---|
| Constants.EarthSpeed | swingby/physics/constants.py:13 | Earth's orbital speed is positive, its square is GM_sun / r_earth, and it lies strictly between 25 and 35 km/s |
| Constants.GravityTable | swingby/physics/constants.py:25-37 | dict_GM has exactly the ten bodies as keys, every GM is positive, and the Earth's lies in (300000, 500000) |
| Constants.RadiusTable | swingby/physics/constants.py:42-53 | dict_planet_radius has exactly the ten bodies as keys and every radius is positive |
| Constants.TablesAgree | swingby/physics/constants.py:26-53 | the two tables have the same keys, the Sun's GM is the two-body literal 1.327e11, and the Earth's radius is 6371 km |
| Coordinates.TransformToRotatingFrame | swingby/utils/coordinates.py:18-22 | the outputs have the inputs' length, and element k is the counter-clockwise rotation of (x[k], y[k]) by omega * time[k] |
| Coordinates.ZeroTimeIsIdentity | tests/test_utils.py:8-19 | at time zero the transform returns its inputs unchanged, whatever omega is |
| Coordinates.RotateByZero | orbit.py:66-70 | a rotation by phase zero leaves a vector unchanged |
| Coordinates.QuarterTurn | tests/test_utils.py:21-32 | a quarter turn maps (1, 0) to (0, 1) |
| Coordinates.HalfTurnPerElement | tests/test_utils.py:34-61 | a half turn maps (1, 0) to (-1, 0), and on two elements with phases 0 and pi each is rotated by its own phase |
| Coordinates.RotationPreservesLength | swingby/utils/coordinates.py:20-22 | the rotation preserves x^2 + y^2 |
| Coordinates.RotationsCompose | swingby/utils/coordinates.py:21-22 | rotating by a and then by b is rotating by a + b |
| Ephemeris.Entry | swingby/utils/ephemeris.py:43 | a dictionary entry has the position's x and y, and its z is the position's x |
| Ephemeris.CoordsAt | swingby/utils/ephemeris.py:40-47 | the dictionary's keys are exactly the names listed (none for an empty list), and each entry holds that body's x and y at the instant, with z equal to x |
| Ephemeris.GetPlanetCoord | planet_position.py:39-46 | the loop over the list builds exactly the dictionary CoordsAt describes, a repeated name overwriting its entry with the same value |
| Ephemeris.Count | planet_position.py:67-70 | the number of occurrences of a name is at most the list's length, and zero exactly when the name is not listed |
| Ephemeris.CoordTimeseries | swingby/utils/ephemeris.py:55-57 | the result's keys are exactly the names listed, and an empty timeseries gives empty series for every one of them |
| Ephemeris.GetPlanetCoordTimeseries | planet_position.py:49-78 | initialisation, the nested append loops and the final array conversion together give exactly CoordTimeseries |
| Ephemeris.AppendInstant | planet_position.py:67-70 | one instant's loop over the list appends each listed body's entry to its track once per occurrence, keeping the key set |
| Ephemeris.InstantAppended | swingby/utils/ephemeris.py:60-72 | appending the entries of instant k to the tracks of the first k instants gives the tracks of the first k + 1 instants |
| Ephemeris.AppendEachAt | swingby/utils/ephemeris.py:68-72 | after one instant's appends, a body's track has its entry appended as many times as the name is listed |
| Ephemeris.SamplesLength | swingby/utils/ephemeris.py:56-72 | a body listed n times gets n entries per instant, n * len(timeseries) in all |
| Ephemeris.SamplesBlock | planet_position.py:59-70 | the n entries of the k-th instant are that body's entry at timeseries[k], so the series keep the instants' order |
| Ephemeris.SeriesEntryIsLookup | swingby/utils/ephemeris.py:59-72 | for a name listed once, every series has len(timeseries) entries, and entry k of x, y and z is get_planet_coord(timeseries[k])[p] |
| Ephemeris.DuplicateDoubles | planet_position.py:55-70 | a name listed twice has series twice as long as the timeseries, with entries 2k and 2k+1 both the body's x at timeseries[k] |
| Ephemeris.TimeseriesZIsX | planet_position.py:42 | every listed body's z series equals its x series |
| EquationOfMotion.Dedup | planet_position.py:40-44 | the dictionary's keys are exactly the names listed |
| EquationOfMotion.DedupOrder | planet_position.py:40-44 | the keys come in insertion order: each key's first occurrence in the list precedes that of every later key |
| EquationOfMotion.DedupDistinct | planet_position.py:44 | no name is a key of the dictionary twice |
| EquationOfMotion.FirstCollision | equation_of_motion.py:36-54 | there is no collision exactly when every body is at least its radius away; a collision reported is a listed body strictly closer than its radius |
| EquationOfMotion.NBody | equation_of_motion.py:9-69 | a derivative has four components, the first two being the velocity x[2], x[3] |
| EquationOfMotion.Evaluate | equation_of_motion.py:36-67 | over a dictionary in key order, a derivative has four components, the first two being the velocity |
| EquationOfMotion.OrbitalEquationOfMotionNBody | equation_of_motion.py:29-69 | the in-place computation, from the day conversion of t through the pulls, collision exit and Sun term, gives exactly NBody |
| EquationOfMotion.SubtractPlanetPulls | equation_of_motion.py:35-58 | the loop stops at the first body the spacecraft is inside; otherwise dxdt[2] and dxdt[3] hold minus the sum of all the bodies' pulls |
| EquationOfMotion.LoopStep | equation_of_motion.py:48-58 | a body the spacecraft is not inside has a positive distance, keeps the scan collision-free, and has its pull subtracted from the acceleration so far |
| EquationOfMotion.CollisionStep | equation_of_motion.py:50-54 | a body the spacecraft is inside, met after bodies it is not inside, is the first collision of the whole dictionary |
| EquationOfMotion.InstantOfStep | equation_of_motion.py:30-31 | turning t seconds into days and adding them to dt_start gives the instant dt_start + t |
| EquationOfMotion.TwoBody | equation_of_motion.py:77-90 | the derivative starts with the velocity, and the acceleration is parallel to the position and points towards the Sun |
| EquationOfMotionFacts.EmptyListIsTwoBody | equation_of_motion.py:61-88 | with no bodies listed and dict_GM["sun"] = 1.327e11, the N-body right-hand side returns the two-body derivative |
| EquationOfMotionFacts.FormatExample | tests/test_equation_of_motion.py:12-26 | with the program's tables, no bodies and state (1, 0, 0, 1), the result is a four-component derivative |
| EquationOfMotionFacts.SunwardExample | tests/test_equation_of_motion.py:28-42 | with the program's tables, no bodies and state (1, 0, 0, 0), the acceleration has a negative x and a zero y |
| EquationOfMotionFacts.Sunward | equation_of_motion.py:61-67 | at (1, 0) with no bodies and the two-body GM for the Sun, the acceleration points along -x with no y component |
| EquationOfMotionFacts.SunTermIsCentral | equation_of_motion.py:61-67 | the Sun term that is subtracted is parallel to the position and has a positive dot product with it, so the Sun's acceleration points against the position |
| EquationOfMotionFacts.NormIsDistance | equation_of_motion.py:41-50 | the distance the loop measures is the square root of the squared distance to the body's ephemeris position |
| EquationOfMotionFacts.CollisionIsFirstCollision | equation_of_motion.py:36-54 | the right-hand side stops exactly when the dictionary scan finds a collision, and reports that body |
| EquationOfMotionFacts.DistancesBySquares | equation_of_motion.py:50-52 | being strictly closer than the radius is having a squared distance below the squared radius |
| EquationOfMotionFacts.CollisionIff | equation_of_motion.py:50-54 | the right-hand side collides if and only if some listed body's squared distance is below its squared radius, and it reports such a body |
| EquationOfMotionFacts.SurfaceIsNotCollision | equation_of_motion.py:52 | a spacecraft exactly on the only listed body's surface is not a collision |
| EquationOfMotionFacts.CentreIsCollision | equation_of_motion.py:48-54 | a spacecraft at a listed body's centre is a collision |
| EquationOfMotionFacts.AccelRemove | equation_of_motion.py:56-58 | whatever its position in the list, a body's pull enters the planets' acceleration exactly once |
| EquationOfMotionFacts.AccelSameNames | equation_of_motion.py:36-58 | two duplicate-free lists of the same names give the same planets' acceleration |
| EquationOfMotionFacts.CoordsBySameNames | planet_position.py:39-46 | the coordinate dictionary depends only on the set of names listed |
| EquationOfMotionFacts.EvaluateSameNames | equation_of_motion.py:36-69 | over one dictionary, two key orders of the same names collide together and otherwise give the same derivative |
| EquationOfMotionFacts.SameDerivative | equation_of_motion.py:56-67 | without a collision, two key orders of the same names give the same derivative |
| EquationOfMotionFacts.OrderIndependent | equation_of_motion.py:32-69 | two lists with the same names, in any order and with any repetition, are admissible together, collide together, and otherwise give the same derivative |
| EquationOfMotionFacts.DuplicateCountsOnce | equation_of_motion.py:32-36 | listing a body again changes nothing, not even the body a collision reports |
| EquationOfMotionFacts.DedupListed | planet_position.py:43-44 | appending a listed name leaves the dictionary's keys and their order unchanged |
| Integrator.NoBodyNoCollision | orbit.py:82 | a propagation with the two-body model or with no listed bodies always returns a solution |
| Integrator.LastRow | orbit.py:88 | the last row of a solution over a non-empty grid has the initial state's length, and a one-instant grid returns the initial state |
| Simulation.TimeGridShape | swingby/core/simulation.py:110-112 | a grid of d > 0 days has d instants, t_start + k * 86400; a grid of d <= 0 days is empty |
| Simulation.GridEnd | swingby/core/simulation.py:168 | a grid of d > 0 days starts at t_start and its last instant is t_start + (d - 1) * 86400 |
| Simulation.PropagateOrbitSegment | swingby/core/simulation.py:89-126 | the segment's grid is the daily grid; a solution has one row per instant, rows of the start state's length, and starts at x0; a collision is at a body of the list |
| Simulation.CalculateInitialVelocity | swingby/core/simulation.py:55-62 | the velocity is (-(v_earth + v_inf), v_inf / 2), so for v_inf > 0 the first component is negative and the second positive |
| Simulation.SetupInitialConditions | swingby/core/simulation.py:76-85 | the state has four components, lies one Earth radius beyond the Earth along +x at the Earth's y, and carries the initial velocity |
| Simulation.Segment | swingby/core/simulation.py:155-168 | one pass keeps every row four components long and, when it succeeds, adds exactly one non-empty solution |
| Simulation.Propagate | swingby/core/simulation.py:153-168 | after n passes without error there are exactly n non-empty solutions, all of four-component rows |
| Simulation.Column | swingby/core/simulation.py:187-188 | the concatenated column has one value per row of all the solutions |
| Simulation.DailyInstants | swingby/core/simulation.py:171-172 | the timeseries has one instant per day from dt_start for sum(travel_days) days, and none when that sum is not positive |
| Simulation.Broadcast | swingby/core/simulation.py:191-193 | two arrays combine exactly when their lengths are equal or one of them is 1, and the result has the longer length |
| Simulation.EarthDistance | swingby/core/simulation.py:180-193 | no solution is the concatenation error; a mismatch error is raised exactly when the lengths cannot be broadcast; otherwise the result has the broadcast length and element k is the distance between the Earth's k-th position and the spacecraft's k-th sample, a side of length one repeating its single entry |
| Simulation.OrbitSimulation.constructor | swingby/core/simulation.py:38-43 | a new simulation has no solutions, no timeseries, no coordinates and no distance |
| Simulation.OrbitSimulation.RunSimulation | swingby/core/simulation.py:128-178 | the solutions are those of the segment loop from the initial conditions. An error leaves the other fields as they were. Otherwise timeseries and coordinates are set, and the distance is updated as _calculate_spacecraft_earth_distance does |
| Simulation.OrbitSimulation.PropagateSegments | swingby/core/simulation.py:150-168 | the solutions are reset and then become those of the loop over the zipped segments; the other fields are unchanged |
| Simulation.OrbitSimulation.CalculateSpacecraftEarthDistance | swingby/core/simulation.py:180-193 | the distance is updated only when "earth" is a key of the coordinates, and the other fields are unchanged |
| Simulation.SegmentLoop | swingby/core/simulation.py:153-168 | the while loop over the zipped segments returns exactly the solutions and the error of Propagate |
| Simulation.NextSegment | swingby/core/simulation.py:155-168 | one pass, choosing the start state and the bodies, gives exactly the next state of Propagate |
| Simulation.SegmentStep | swingby/core/simulation.py:163-168 | a collision stops the loop with the solutions as they were; otherwise the solution is appended, and an empty grid stops the loop while a non-empty one moves t_current to its last instant |
| Simulation.StopsThere | swingby/core/simulation.py:163-168 | once the loop has stopped with an error, later passes change nothing |
| SimulationFacts.Advance | swingby/core/simulation.py:168 | a successful pass had a positive duration and moved t_current on by 86400 * (days - 1) |
| SimulationFacts.Appended | swingby/core/simulation.py:163-167 | a successful pass appends one solution with a row per day, starting at the segment's start state |
| SimulationFacts.KickedStarts | swingby/core/simulation.py:155-160 | the first solution starts at the initial state, and each later one starts at the previous last state with its delta-V added to the velocity only, the position unchanged |
| SimulationFacts.DurationsPositive | swingby/core/simulation.py:110-112 | after passes without error every duration was positive |
| SimulationFacts.RowCount | swingby/core/simulation.py:150-167 | after n passes without error the solutions hold sum(travel_days[:n]) rows |
| SimulationFacts.Clock | swingby/core/simulation.py:153-168 | after n passes without error t_current = 86400 * (sum(travel_days[:n]) - n), each boundary instant being sampled twice |
| SimulationFacts.FirstSegment | swingby/core/simulation.py:155-157 | the first segment feels no body, so it succeeds exactly when its duration is positive and otherwise fails as an empty segment |
| SimulationFacts.FirstDeltaVIgnored | swingby/core/simulation.py:154-160 | two missions that differ only in delta_V[0] propagate identically |
| SimulationFacts.FirstSegmentIgnoresPlanets | swingby/core/simulation.py:156-157 | the first segment is the same whatever bodies are listed |
| SimulationFacts.PassError | swingby/core/simulation.py:163-168 | a pass fails either by colliding with one of the bodies its segment feels, never in the first segment, or by having no days |
| SimulationFacts.RunOfTwoSegments | tests/test_simulation.py:45-62 | travel_days [30, 60] with two delta-Vs gives two solutions of 30 and 60 rows, unless the second segment collides with a listed body |
| SimulationFacts.ClockOfTwoSegments | tests/test_simulation.py:52 | that run has 90 samples and ends with t_current at day 88 |
| SimulationFacts.SeriesMatchesSamples | swingby/core/simulation.py:171-192 | with positive durations and no error, the timeseries has as many instants as there are samples if and only if no duration is dropped by the zip |
| SimulationFacts.MissionSamples | swingby/core/simulation.py:171-172 | when every duration has its delta-V and no error occurs, the timeseries has sum(travel_days) instants, one per sample |
| SimulationFacts.EarthSeries | swingby/core/simulation.py:182-184 | the Earth listed once has one x and y per instant, its ephemeris position at that instant |
| SimulationFacts.DistanceToEarth | swingby/core/simulation.py:182-193 | with the Earth listed once and one instant per sample, the distance is set without error, one value per instant, each the Earth-spacecraft distance at that index |
| SimulationFacts.DistanceOverTheMission | swingby/core/simulation.py:170-193 | after a run without error, every duration having its delta-V and the Earth listed once, the distance has one value per day of the mission |
| SimulationFacts.DroppedDurationsMismatch | swingby/core/simulation.py:154-193 | when delta_V is shorter than travel_days, every duration is positive and the Earth is listed once, the timeseries is longer than the samples; the distance then fails with a shape mismatch, keeping its earlier value, unless there is a single sample row, which is broadcast |
| SimulationFacts.DistanceKeptWithoutEarth | swingby/core/simulation.py:182 | without the Earth listed, the distance keeps its earlier value and no error is raised |
| Orbit.Trunc | orbit.py:79 | int() truncates toward zero: the result is the integer part, below or at the value for positive values and above or at it for negative ones |
| Orbit.Linspace | orbit.py:80 | a negative count is an error; otherwise there are exactly num samples, the first is start, and for num >= 2 the last is stop |
| Orbit.LinspaceSpacing | orbit.py:93 | consecutive samples of a grid of two or more differ by (stop - start) / (num - 1) |
| Orbit.LegacySpeeds | orbit.py:61-63 | the closed form gives v_sc_x^2 + v_sc_y^2 = v_earth^2 and v_sc_x^2 + (v_sc_y - v_earth)^2 = v_inf^2 |
| Orbit.NoExcessSpeed | orbit.py:61-63 | with v_inf = 0 the spacecraft leaves with the Earth's velocity (0, v_earth) |
| Orbit.InitialState | orbit.py:77 | the initial state is [r_earth, 0, -v_sc_x, v_sc_y] |
| Orbit.SpacecraftOrbit | orbit.py:55-96 | a completed run has a non-empty two-body solution with one row per grid instant, and an N-body solution with one row per grid instant |
| Orbit.Stops | orbit.py:55-94 | the script fails on a missing delta_V component exactly when it has fewer than two, then on a zero step exactly when delta_t = 0, then on a negative or zero two-body step count; a collision is at a listed body |
| Orbit.Completes | orbit.py:66-93 | a completed run starts from the closed-form state unchanged by the rotation at time 0, has the truncated step counts as lengths, starts the N-body phase from the last two-body state plus delta-V on the velocity, and repeats the boundary instant t_twobody years |
| Orbit.StartsAtEarthSpeed | orbit.py:61-82 | a completed run starts on Earth's orbit at (r_earth, 0), at Earth's orbital speed and v_inf away from Earth's velocity |
| Orbit.InitialSpeeds | orbit.py:61-77 | the initial state built from the closed form has Earth's orbital speed and is v_inf away from Earth's velocity |

## Left out

- Numerical integration: scipy's `odeint` is the parameter `odeint`. The model makes no claim about its accuracy; it states only the shape of its result and its collision stop.
- The ephemeris: astropy's `get_body_barycentric`, `Time` and `solar_system_ephemeris.set` are the parameter `eph`. Each call reads one position per body and instant.
- Floating point: values are exact reals, and `np.sqrt`, `np.cos` and `np.sin` are parameters. There is no rounding, NaN or overflow, so the `abs(result[3]) < 1e-10` of the test becomes exactly zero.
- Calendar arithmetic: `datetime`, `timedelta` and `pd.date_range` become real seconds on one scale. The day conversion in the N-body right-hand side is exact.
- The `print` and `sys.exit` of the N-body right-hand side become the outcome `Collision(body)`. During a propagation this becomes `Collided(body)` and then a run error.
- Plotting and file output:
  - `save_results` (`swingby/core/simulation.py:195-219`);
  - the `OrbitPlotter` field;
  - the Earth-orbit and plotting lines of `orbit.py` (99-143);
  - `swingby/visualization/plots.py`;
  - the `__main__` block of `planet_position.py`.
- The legacy wrapper `spacecraft_orbit` in `swingby/core/simulation.py` (223-247) only constructs a simulation, runs it and saves the plots. Each of those steps is modelled or listed here.
- The `config` field and the custom-config constructor argument. The tables are the fixed `GravityTable` and `RadiusTable`, and `Config` has no behaviour.
- `main.py`, `pluto_mission.py`, `config.py` and the `__init__.py` re-exports are scripts and re-exports.
- swingby/physics/dynamics.py is not part of this model. The force model is that of `equation_of_motion.py`.
- EquationOfMotion.NBody: a body missing from the GM or radius table (a `KeyError` in the program) and a spacecraft at the Sun (a division by zero, NaN in numpy) are excluded by the precondition `Admissible` rather than modelled as outcomes. The right-hand side is called from inside `odeint`, whose numerics are not modelled.
- Orbit.LegacySpeeds: the closed form is stated only for v_inf <= 2 v_earth, where its square root is defined. Above that numpy gives NaN, and the script assumes v_inf < 5 km/s.
- Orbit.StartsAtEarthSpeed: the same bound on v_inf as `LegacySpeeds`.
- Orbit.SpacecraftOrbit: over an empty grid, `odeint` is taken to return an empty solution, which then fails at `sol_0to1[-1, :]`.
- SimulationFacts.KickedStarts, SimulationFacts.RowCount and SimulationFacts.Clock: stated after at least one pass (n > 0). After zero passes the statements are the empty case of `Propagate`.
- Simulation.Kick: the delta-V is applied to the first two components of `_delta_V`. A delta-V with fewer than two components (an `IndexError` in the program) is excluded by the precondition `DeltaVsUsable`.
