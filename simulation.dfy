/** The mission sequencer, class OrbitSimulation of swingby/core/simulation.py.

    A mission is a list of segments. Segment i lasts travelDays[i] days and is
    propagated by odeint over a daily grid of integer seconds; the first segment
    starts from a state just outside the Earth and feels the Sun only, every
    later one starts from the previous segment's last state with the delta-V
    deltaV[i] added to the velocity, and feels the listed bodies as well. After
    the segments, the sequencer builds a daily timeseries, the bodies' positions
    over it, and the spacecraft's distance to the Earth.

    Instants are seconds: grid instants count from the mission start dtStart, and
    the ephemeris and the timeseries use the same seconds scale as dtStart. */
module Simulation {
  import opened RealMath
  import opened Constants
  import opened Ephemeris
  import opened Integrator

  /** One day, 24 * 60 * 60 s: the step of every segment's grid and of the timeseries. */
  const DAY: int := 86400

  /** sum(s). */
  function Sum(s: seq<int>): int
  {
    if |s| == 0 then 0 else Sum(s[..|s| - 1]) + s[|s| - 1]
  }

  /** np.arange(start, stop, step) over integers with a positive step: start,
      start + step, ... for as long as the value is below stop. */
  function Arange(start: int, stop: int, step: int): seq<int>
    requires 0 < step
    decreases stop - start
  {
    if stop <= start then [] else [start] + Arange(start + step, stop, step)
  }

  /** The grid of propagate_orbit_segment for a segment of `days` days starting
      at tStart seconds. */
  function TimeGrid(tStart: int, days: int): seq<int>
  {
    Arange(tStart, tStart + days * DAY, DAY)
  }

  /** A grid of d > 0 days has exactly d instants, tStart, tStart + DAY, ...,
      tStart + (d - 1) * DAY; a grid of d <= 0 days is empty. */
  lemma {:induction false} TimeGridShape(tStart: int, days: int)
    ensures |TimeGrid(tStart, days)| == if 0 < days then days else 0
    ensures forall k :: 0 <= k < |TimeGrid(tStart, days)| ==> TimeGrid(tStart, days)[k] == tStart + k * DAY
    decreases days
  {
    if 0 < days {
      TimeGridShape(tStart + DAY, days - 1);
      assert tStart + days * DAY == (tStart + DAY) + (days - 1) * DAY;
    }
  }

  /** The last instant of a non-empty grid, t_span[-1]. */
  lemma GridEnd(tStart: int, days: int)
    requires 0 < days
    ensures |TimeGrid(tStart, days)| == days
    ensures TimeGrid(tStart, days)[0] == tStart
    ensures TimeGrid(tStart, days)[days - 1] == tStart + (days - 1) * DAY
  {
    TimeGridShape(tStart, days);
  }

  /** The integer grid as the floating-point instants odeint works with. */
  function Reals(grid: seq<int>): (r: seq<real>)
    ensures |r| == |grid|
    ensures forall k :: 0 <= k < |grid| ==> r[k] == grid[k] as real
  {
    seq(|grid|, k requires 0 <= k < |grid| => grid[k] as real)
  }

  /** propagate_orbit_segment: odeint with the N-body right-hand side over the
      daily grid of the segment, together with that grid. */
  function PropagateOrbitSegment(odeint: Odeint, x0: seq<real>, travelDays: int, tStart: int,
                                 dtStart: real, planets: seq<string>): (r: (Propagation, seq<int>))
    requires IsOdeint(odeint)
    ensures r.1 == TimeGrid(tStart, travelDays)
    ensures r.0.Solution? ==> |r.0.rows| == |r.1| && (0 < |r.1| ==> r.0.rows[0] == x0)
    ensures r.0.Solution? ==> forall k :: 0 <= k < |r.0.rows| ==> |r.0.rows[k]| == |x0|
    ensures r.0.Collided? ==> r.0.body in planets
  {
    var grid := TimeGrid(tStart, travelDays);
    var sol := odeint(NBodyModel(dtStart, planets), x0, Reals(grid));
    assert ValidPropagation(NBodyModel(dtStart, planets), x0, Reals(grid), sol);
    (sol, grid)
  }

  /** calculate_initial_velocity: Earth's orbital speed plus v_inf along -x, and
      half of v_inf along +y. For a positive v_inf both components are nonzero,
      the first negative and the second positive. */
  function CalculateInitialVelocity(vInf: real, sqrt: real -> real): (v: (real, real))
    requires IsSqrt(sqrt)
    ensures 0.0 < vInf ==> v.0 < 0.0 && 0.0 < v.1
    ensures v.0 + EarthSpeed(sqrt) == -vInf && v.1 + v.1 == vInf
  {
    var vEarth := EarthSpeed(sqrt);
    (-(vEarth + vInf), vInf * 0.5)
  }

  /** setup_initial_conditions: the spacecraft one Earth radius beyond the Earth
      along +x, at the Earth's y, with the initial velocity. */
  function SetupInitialConditions(eph: Lookup, dtStart: real, vInf: real, sqrt: real -> real): (x0: seq<real>)
    requires IsSqrt(sqrt)
    ensures |x0| == 4
    ensures x0[0] - eph("earth", dtStart).x == RadiusTable()["earth"] && x0[1] == eph("earth", dtStart).y
    ensures (x0[2], x0[3]) == CalculateInitialVelocity(vInf, sqrt)
  {
    var earth := eph("earth", dtStart);
    var v := CalculateInitialVelocity(vInf, sqrt);
    [earth.x + 1.0 * RadiusTable()["earth"], earth.y, v.0, v.1]
  }

  /** The arguments of run_simulation the segment loop reads. */
  datatype Mission = Mission(dtStart: real, travelDays: seq<int>, deltaV: seq<seq<real>>, planets: seq<string>)

  /** The number of segments, the length of zip(travel_days, delta_V). */
  function Zipped(m: Mission): nat
  {
    if |m.travelDays| < |m.deltaV| then |m.travelDays| else |m.deltaV|
  }

  /** Every delta-V the loop applies has an x and a y component. */
  predicate DeltaVsUsable(m: Mission)
  {
    forall i :: 0 < i < Zipped(m) ==> 2 <= |m.deltaV[i]|
  }

  /** What the segment loop needs: odeint as promised, a state of four
      components, and delta-Vs with two components. */
  ghost predicate Runnable(m: Mission, x0: seq<real>, odeint: Odeint)
  {
    IsOdeint(odeint) && |x0| == 4 && DeltaVsUsable(m)
  }

  /** The ways run_simulation stops with an error: a segment's right-hand side
      found the spacecraft inside a body (the program exits); a segment of no
      days has no last instant (t_span[-1]); there is no segment to concatenate;
      the Earth's series and the spacecraft's samples cannot be broadcast
      together. */
  datatype RunError =
    | SegmentCollision(segment: nat, body: string)
    | EmptySegment(segment: nat)
    | NoSegments
    | ShapeMismatch(earthSamples: nat, spacecraftSamples: nat)

  /** The loop's state after some segments: the solutions so far, t_current, and
      the error that stopped the loop, if any. */
  datatype Progress = Progress(solutions: seq<seq<seq<real>>>, tCurrent: int, error: Option<RunError>)

  /** Every row of every solution is a state of four components. */
  predicate RowsOfFour(solutions: seq<seq<seq<real>>>)
  {
    forall j, k :: 0 <= j < |solutions| && 0 <= k < |solutions[j]| ==> |solutions[j][k]| == 4
  }

  /** Every solution has a row. */
  predicate NoneEmpty(solutions: seq<seq<seq<real>>>)
  {
    forall j :: 0 <= j < |solutions| ==> 0 < |solutions[j]|
  }

  /** The last element of a non-empty sequence. */
  function Last<T>(s: seq<T>): T
    requires 0 < |s|
  {
    s[|s| - 1]
  }

  /** The planets segment i feels: none in the first segment, the listed ones
      afterwards. */
  function PlanetsFor(m: Mission, i: nat): seq<string>
  {
    if i == 0 then [] else m.planets
  }

  /** A state with the delta-V dv added to its velocity components. */
  function Kick(row: seq<real>, dv: seq<real>): (x: seq<real>)
    requires |row| == 4 && 2 <= |dv|
    ensures |x| == 4
  {
    [row[0] + 0.0, row[1] + 0.0, row[2] + dv[0], row[3] + dv[1]]
  }

  /** The state segment i starts from: the initial state for the first segment,
      otherwise the last row of the previous solution with deltaV[i] applied. */
  function SegmentStart(m: Mission, x0: seq<real>, solutions: seq<seq<seq<real>>>, i: nat): (x: seq<real>)
    requires |x0| == 4 && DeltaVsUsable(m) && i < Zipped(m)
    requires |solutions| == i && RowsOfFour(solutions) && NoneEmpty(solutions)
    ensures |x| == 4
  {
    if i == 0 then x0 else Kick(Last(Last(solutions)), m.deltaV[i])
  }

  /** One pass of the segment loop, from the state after i segments. */
  function Segment(m: Mission, x0: seq<real>, odeint: Odeint, prev: Progress, i: nat): (r: Progress)
    requires Runnable(m, x0, odeint) && i < Zipped(m)
    requires prev.error.None? && |prev.solutions| == i && RowsOfFour(prev.solutions) && NoneEmpty(prev.solutions)
    ensures RowsOfFour(r.solutions)
    ensures r.error.None? ==> |r.solutions| == i + 1 && NoneEmpty(r.solutions)
  {
    var start := SegmentStart(m, x0, prev.solutions, i);
    var (sol, grid) := PropagateOrbitSegment(odeint, start, m.travelDays[i], prev.tCurrent, m.dtStart, PlanetsFor(m, i));
    match sol
    case Collided(b) => Progress(prev.solutions, prev.tCurrent, Some(SegmentCollision(i, b)))
    case Solution(rows) =>
      if |grid| == 0 then Progress(prev.solutions + [rows], prev.tCurrent, Some(EmptySegment(i)))
      else Progress(prev.solutions + [rows], grid[|grid| - 1], None)
  }

  /** The segment loop of run_simulation over its first n passes, from the
      initial state x0; the first error ends it. */
  function Propagate(m: Mission, x0: seq<real>, odeint: Odeint, n: nat): (r: Progress)
    requires Runnable(m, x0, odeint) && n <= Zipped(m)
    ensures RowsOfFour(r.solutions)
    ensures r.error.None? ==> |r.solutions| == n && NoneEmpty(r.solutions)
  {
    if n == 0 then Progress([], 0, None)
    else
      var prev := Propagate(m, x0, odeint, n - 1);
      if prev.error.Some? then prev else Segment(m, x0, odeint, prev, n - 1)
  }

  /** The number of rows over all solutions. */
  function TotalRows(solutions: seq<seq<seq<real>>>): nat
  {
    if |solutions| == 0 then 0 else TotalRows(solutions[..|solutions| - 1]) + |Last(solutions)|
  }

  /** np.concatenate([sol[:, c] for sol in solutions]): component c of every
      row, solution after solution. */
  function Column(solutions: seq<seq<seq<real>>>, c: nat): (col: seq<real>)
    requires RowsOfFour(solutions) && c < 4
    ensures |col| == TotalRows(solutions)
  {
    if |solutions| == 0 then []
    else
      var front := solutions[..|solutions| - 1];
      var rows := Last(solutions);
      assert RowsOfFour(front);
      Column(front, c) + seq(|rows|, k requires 0 <= k < |rows| => rows[k][c])
  }

  /** pd.date_range(dt_start, dt_start + (days - 1) days, freq="D"): one instant
      per day from the start, none when days is not positive. */
  function DailyInstants(dtStart: real, days: int): (ts: seq<real>)
    ensures |ts| == if 0 < days then days else 0
    ensures forall k :: 0 <= k < |ts| ==> ts[k] == dtStart + (k * DAY) as real
  {
    seq(if 0 < days then days else 0, k => dtStart + (k * DAY) as real)
  }

  /** The length numpy gives to the difference of two arrays of lengths a and
      b, or None when they cannot be broadcast together. */
  function Broadcast(a: nat, b: nat): (r: Option<nat>)
    ensures r.Some? <==> a == b || a == 1 || b == 1
    ensures r.Some? ==> (r.value == a || r.value == b) && (a == b ==> r.value == a)
  {
    if a == b then Some(a) else if a == 1 then Some(b) else if b == 1 then Some(a) else None
  }

  /** Element k of an array under broadcasting: an array of one element stands
      for that element everywhere. */
  function At(s: seq<real>, k: int): real
    requires |s| == 1 || 0 <= k < |s|
  {
    if |s| == 1 then s[0] else s[k]
  }

  /** The distance between the points (ex, ey) and (sx, sy), with sqrt the
      square root. */
  function Gap(ex: real, ey: real, sx: real, sy: real, sqrt: real -> real): real
  {
    sqrt(Square(ex - sx) + Square(ey - sy))
  }

  /** What _calculate_spacecraft_earth_distance computes from the Earth's series
      and the solutions: the element-wise distance between the Earth and the
      spacecraft's concatenated positions. */
  function EarthDistance(earth: Track, solutions: seq<seq<seq<real>>>, sqrt: real -> real): (r: Result<seq<real>, RunError>)
    requires RowsOfFour(solutions) && |earth.x| == |earth.y|
    ensures r == Err(NoSegments) <==> |solutions| == 0
    ensures r.Err? && 0 < |solutions| ==>
              r.error == ShapeMismatch(|earth.x|, TotalRows(solutions)) && Broadcast(|earth.x|, TotalRows(solutions)).None?
    ensures 0 < |solutions| && Broadcast(|earth.x|, TotalRows(solutions)).None? ==>
              r == Err(ShapeMismatch(|earth.x|, TotalRows(solutions)))
    ensures 0 < |solutions| && Broadcast(|earth.x|, TotalRows(solutions)).Some? ==>
              && r.Ok? && |r.value| == Broadcast(|earth.x|, TotalRows(solutions)).value
              && forall k :: 0 <= k < |r.value| ==>
                   r.value[k] == Gap(At(earth.x, k), At(earth.y, k),
                                     At(Column(solutions, 0), k), At(Column(solutions, 1), k), sqrt)
    ensures 0 < |solutions| && |earth.x| == TotalRows(solutions) ==>
              && r.Ok? && |r.value| == |earth.x|
              && forall k :: 0 <= k < |earth.x| ==>
                   r.value[k] == Gap(earth.x[k], earth.y[k], Column(solutions, 0)[k], Column(solutions, 1)[k], sqrt)
  {
    if |solutions| == 0 then Err(NoSegments)
    else
      var scX, scY := Column(solutions, 0), Column(solutions, 1);
      match Broadcast(|earth.x|, |scX|)
      case None => Err(ShapeMismatch(|earth.x|, |scX|))
      case Some(n) =>
        Ok(seq(n, k requires 0 <= k < n =>
                 Gap(At(earth.x, k), At(earth.y, k), At(scX, k), At(scY, k), sqrt)))
  }

  /** The effect of _calculate_spacecraft_earth_distance on the error outcome and
      on spacecraft_earth_distance: nothing unless "earth" is a key of the
      bodies' series, otherwise the distance or the error computing it raises. */
  function DistanceUpdate(coords: map<string, Track>, solutions: seq<seq<seq<real>>>, sqrt: real -> real,
                          previous: Option<seq<real>>): (Option<RunError>, Option<seq<real>>)
    requires RowsOfFour(solutions)
    requires "earth" in coords ==> |coords["earth"].x| == |coords["earth"].y|
  {
    if "earth" !in coords then (None, previous)
    else
      match EarthDistance(coords["earth"], solutions, sqrt)
      case Err(e) => (Some(e), previous)
      case Ok(d) => (None, Some(d))
  }

  /** Every track of get_planet_coord_timeseries has series of equal lengths. */
  lemma TracksAligned(eph: Lookup, ts: seq<real>, planets: seq<string>)
    ensures forall p :: p in CoordTimeseries(eph, ts, planets) ==>
              |CoordTimeseries(eph, ts, planets)[p].x| == |CoordTimeseries(eph, ts, planets)[p].y|
  {
  }

  class OrbitSimulation {
    /** One solution array per propagated segment. */
    var solutions: seq<seq<seq<real>>>
    /** The daily instants of the mission, once run. */
    var timeseries: Option<seq<real>>
    /** The bodies' positions over the timeseries, once run. */
    var planetCoordinates: Option<map<string, Track>>
    /** The spacecraft's distance to the Earth, once computed. */
    var spacecraftEarthDistance: Option<seq<real>>

    /** __init__: no results yet. */
    constructor()
      ensures solutions == [] && timeseries == None && planetCoordinates == None && spacecraftEarthDistance == None
    {
      solutions := [];
      timeseries := None;
      planetCoordinates := None;
      spacecraftEarthDistance := None;
    }

    /** run_simulation: propagate the segments of zip(travel_days, delta_V) in
        order, then build the daily timeseries of sum(travel_days) days, the
        listed bodies' positions over it, and the distance to the Earth. The
        first error stops the run, leaving the fields not yet assigned as they
        were. */
    method RunSimulation(vInf: real, dtStart: real, travelDays: seq<int>, deltaV: seq<seq<real>>,
                         planets: seq<string>, eph: Lookup, sqrt: real -> real, odeint: Odeint)
      returns (err: Option<RunError>)
      requires IsSqrt(sqrt) && IsOdeint(odeint)
      requires DeltaVsUsable(Mission(dtStart, travelDays, deltaV, planets))
      modifies this
      ensures var m := Mission(dtStart, travelDays, deltaV, planets);
              var p := Propagate(m, SetupInitialConditions(eph, dtStart, vInf, sqrt), odeint, Zipped(m));
              && solutions == p.solutions
              && (p.error.Some? ==>
                    && err == p.error
                    && timeseries == old(timeseries)
                    && planetCoordinates == old(planetCoordinates)
                    && spacecraftEarthDistance == old(spacecraftEarthDistance))
              && (p.error.None? ==>
                    && timeseries == Some(DailyInstants(dtStart, Sum(travelDays)))
                    && planetCoordinates == Some(CoordTimeseries(eph, DailyInstants(dtStart, Sum(travelDays)), planets))
                    && (err, spacecraftEarthDistance) ==
                       DistanceUpdate(CoordTimeseries(eph, DailyInstants(dtStart, Sum(travelDays)), planets),
                                      p.solutions, sqrt, old(spacecraftEarthDistance)))
    {
      var x0 := SetupInitialConditions(eph, dtStart, vInf, sqrt);
      err := PropagateSegments(x0, dtStart, travelDays, deltaV, planets, odeint);
      if err.Some? {
        return;
      }
      var days := Sum(travelDays);
      timeseries := Some(DailyInstants(dtStart, days));
      var coords := GetPlanetCoordTimeseries(eph, DailyInstants(dtStart, days), planets);
      planetCoordinates := Some(coords);
      TracksAligned(eph, DailyInstants(dtStart, days), planets);
      err := CalculateSpacecraftEarthDistance(sqrt);
    }

    /** The segment loop of run_simulation: clear the solutions, then for each
        pair of zip(travel_days, delta_V) pick the start state and the bodies,
        propagate the segment, append its solution and move t_current to its
        last instant. */
    method PropagateSegments(x0: seq<real>, dtStart: real, travelDays: seq<int>, deltaV: seq<seq<real>>,
                             planets: seq<string>, odeint: Odeint)
      returns (err: Option<RunError>)
      requires IsOdeint(odeint) && |x0| == 4
      requires DeltaVsUsable(Mission(dtStart, travelDays, deltaV, planets))
      modifies this
      ensures var m := Mission(dtStart, travelDays, deltaV, planets);
              var p := Propagate(m, x0, odeint, Zipped(m));
              solutions == p.solutions && err == p.error
      ensures timeseries == old(timeseries) && planetCoordinates == old(planetCoordinates)
      ensures spacecraftEarthDistance == old(spacecraftEarthDistance)
    {
      solutions := [];
      var done;
      done, err := SegmentLoop(Mission(dtStart, travelDays, deltaV, planets), x0, odeint);
      solutions := done;
    }

    /** _calculate_spacecraft_earth_distance: when "earth" is a key of the
        bodies' series, set spacecraft_earth_distance to the distance between the
        Earth's series and the concatenated spacecraft positions; otherwise
        leave it as it was. */
    method CalculateSpacecraftEarthDistance(sqrt: real -> real) returns (err: Option<RunError>)
      requires planetCoordinates.Some? && RowsOfFour(solutions)
      requires forall p :: p in planetCoordinates.value ==> |planetCoordinates.value[p].x| == |planetCoordinates.value[p].y|
      modifies this
      ensures solutions == old(solutions) && timeseries == old(timeseries) && planetCoordinates == old(planetCoordinates)
      ensures (err, spacecraftEarthDistance) ==
              DistanceUpdate(planetCoordinates.value, solutions, sqrt, old(spacecraftEarthDistance))
    {
      err := None;
      if "earth" in planetCoordinates.value {
        var earth := planetCoordinates.value["earth"];
        var d := EarthDistance(earth, solutions, sqrt);
        if d.Err? {
          err := Some(d.error);
        } else {
          spacecraftEarthDistance := Some(d.value);
        }
      }
    }
  }

  /** The loop body of run_simulation, with the solutions it appends to
      self.solutions collected in `done`. */
  method SegmentLoop(m: Mission, x0: seq<real>, odeint: Odeint)
    returns (done: seq<seq<seq<real>>>, err: Option<RunError>)
    requires Runnable(m, x0, odeint)
    ensures var p := Propagate(m, x0, odeint, Zipped(m));
            done == p.solutions && err == p.error
  {
    done := [];
    var tCurrent := 0;
    var n := Zipped(m);
    var i := 0;
    while i < n
      invariant i <= n == Zipped(m)
      invariant Propagate(m, x0, odeint, i) == Progress(done, tCurrent, None)
    {
      var next := NextSegment(m, x0, odeint, i, done, tCurrent);
      done := next.solutions;
      if next.error.Some? {
        err := next.error;
        StoppedAt(m, x0, odeint, i + 1, next);
        return;
      }
      tCurrent := next.tCurrent;
      i := i + 1;
    }
    err := None;
  }

  /** One pass of the loop of run_simulation after i segments: pick the start
      state and the bodies, propagate the segment, append its solution, and move
      t_current to the segment's last instant. */
  method NextSegment(m: Mission, x0: seq<real>, odeint: Odeint, i: nat, done: seq<seq<seq<real>>>, tCurrent: int)
    returns (next: Progress)
    requires Runnable(m, x0, odeint) && i < Zipped(m)
    requires Propagate(m, x0, odeint, i) == Progress(done, tCurrent, None)
    ensures next == Propagate(m, x0, odeint, i + 1)
  {
    var start := x0;
    var segmentPlanets: seq<string> := [];
    if i != 0 {
      // The delta-V is applied to the previous segment's last state, and the
      // listed planets join the Sun.
      start := Kick(Last(Last(done)), m.deltaV[i]);
      segmentPlanets := m.planets;
    }
    var (solution, tSpan) := PropagateOrbitSegment(odeint, start, m.travelDays[i], tCurrent, m.dtStart, segmentPlanets);
    SegmentStep(m, x0, odeint, i, done, tCurrent, start, solution, tSpan);
    if solution.Collided? {
      // The right-hand side printed an error and exited.
      next := Progress(done, tCurrent, Some(SegmentCollision(i, solution.body)));
    } else if |tSpan| == 0 {
      // The solution is appended before t_span[-1] fails.
      next := Progress(done + [solution.rows], tCurrent, Some(EmptySegment(i)));
    } else {
      next := Progress(done + [solution.rows], tSpan[|tSpan| - 1], None);
    }
  }

  /** One pass of the loop from the state after i segments: a collision stops
      the loop with the solutions as they were; otherwise the solution is
      appended, and an empty grid stops the loop while a non-empty one moves
      t_current to its last instant. */
  lemma SegmentStep(m: Mission, x0: seq<real>, odeint: Odeint, i: nat, solutions: seq<seq<seq<real>>>,
                    tCurrent: int, start: seq<real>, solution: Propagation, tSpan: seq<int>)
    requires Runnable(m, x0, odeint) && i < Zipped(m)
    requires Propagate(m, x0, odeint, i) == Progress(solutions, tCurrent, None)
    requires start == SegmentStart(m, x0, solutions, i)
    requires (solution, tSpan) ==
             PropagateOrbitSegment(odeint, start, m.travelDays[i], tCurrent, m.dtStart, PlanetsFor(m, i))
    ensures solution.Collided? ==>
              Propagate(m, x0, odeint, i + 1) == Progress(solutions, tCurrent, Some(SegmentCollision(i, solution.body)))
    ensures solution.Solution? && |tSpan| == 0 ==>
              Propagate(m, x0, odeint, i + 1) == Progress(solutions + [solution.rows], tCurrent, Some(EmptySegment(i)))
    ensures solution.Solution? && 0 < |tSpan| ==>
              Propagate(m, x0, odeint, i + 1) == Progress(solutions + [solution.rows], tSpan[|tSpan| - 1], None)
  {
  }

  /** Once the loop has stopped with an error, later passes change nothing. */
  lemma {:induction false} StopsThere(m: Mission, x0: seq<real>, odeint: Odeint, k: nat, n: nat)
    requires Runnable(m, x0, odeint) && k < n <= Zipped(m)
    requires Propagate(m, x0, odeint, k).error.Some?
    ensures Propagate(m, x0, odeint, n) == Propagate(m, x0, odeint, k)
    decreases n - k
  {
    if k < n - 1 {
      StopsThere(m, x0, odeint, k, n - 1);
    }
    var before := Propagate(m, x0, odeint, n - 1);
    assert before == Propagate(m, x0, odeint, k);
    Stopped(m, x0, odeint, n);
  }

  /** An error in the first k passes is the outcome of the whole loop. */
  lemma StoppedAt(m: Mission, x0: seq<real>, odeint: Odeint, k: nat, p: Progress)
    requires Runnable(m, x0, odeint) && k <= Zipped(m)
    requires Propagate(m, x0, odeint, k) == p && p.error.Some?
    ensures Propagate(m, x0, odeint, Zipped(m)) == p
  {
    if k < Zipped(m) {
      StopsThere(m, x0, odeint, k, Zipped(m));
    }
  }

  /** A pass after an error changes nothing. */
  lemma Stopped(m: Mission, x0: seq<real>, odeint: Odeint, n: nat)
    requires Runnable(m, x0, odeint) && 0 < n <= Zipped(m)
    requires Propagate(m, x0, odeint, n - 1).error.Some?
    ensures Propagate(m, x0, odeint, n) == Propagate(m, x0, odeint, n - 1)
  {
  }
}
