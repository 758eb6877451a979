/** The legacy mission script (spacecraft_orbit in orbit.py): a closed-form
    escape velocity rotated into the rotating frame at time zero, a two-body
    propagation from Earth's orbit over t_twobody years, then a delta-V kick and
    an N-body propagation up to t_Nbody years. The step counts are truncations of
    the durations divided by the step, and both grids are np.linspace grids.

    The plotting at the end of the script is not modelled. */
module Orbit {
  import opened RealMath
  import opened Constants
  import opened Integrator
  import opened Coordinates
  import opened Simulation

  /** One year of 365 days, in seconds: 365 * 24 * 60 * 60. */
  const YEAR: real := 31536000.0

  /** Python's int() on a float: truncation toward zero. */
  function Trunc(v: real): (n: int)
    ensures 0.0 <= v ==> 0 <= n && n as real <= v < n as real + 1.0
    ensures v < 0.0 ==> n <= 0 && n as real - 1.0 < v <= n as real
  {
    if 0.0 <= v then v.Floor else -((-v).Floor)
  }

  /** Why np.linspace refuses a grid: a negative number of samples. */
  datatype GridError = NegativeSamples(num: int)

  /** Sample k of np.linspace(start, stop, num) for num >= 2: start plus k equal
      steps of (stop - start) / (num - 1). */
  function GridPoint(start: real, stop: real, num: int, k: int): real
    requires 2 <= num
  {
    start + (k as real) * ((stop - start) / ((num - 1) as real))
  }

  /** np.linspace(start, stop, num) with the endpoint included: a ValueError for
      a negative num, no sample for num = 0, the start alone for num = 1, and
      otherwise num equally spaced samples whose last one is set to stop. */
  function Linspace(start: real, stop: real, num: int): (r: Result<seq<real>, GridError>)
    ensures r.Err? <==> num < 0
    ensures r.Err? ==> r.error == NegativeSamples(num)
    ensures r.Ok? ==> |r.value| == num
    ensures r.Ok? && 1 <= num ==> r.value[0] == start
    ensures r.Ok? && 2 <= num ==> r.value[num - 1] == stop
  {
    if num < 0 then Err(NegativeSamples(num))
    else if num < 2 then Ok(seq(num, k => start))
    else Ok(seq(num, k requires 0 <= k < num => if k == num - 1 then stop else GridPoint(start, stop, num, k)))
  }

  /** The samples of a grid of two or more are equally spaced, by
      (stop - start) / (num - 1). */
  lemma LinspaceSpacing(start: real, stop: real, num: int, k: int)
    requires 2 <= num && 0 <= k < num - 1
    ensures var g := Linspace(start, stop, num).value;
            g[k + 1] - g[k] == (stop - start) / ((num - 1) as real)
  {
    var g := Linspace(start, stop, num).value;
    var step := (stop - start) / ((num - 1) as real);
    if k + 1 == num - 1 {
      assert g[k + 1] == stop == start + ((num - 1) as real) * step;
    }
  }

  /** The escape velocity of the script, (v_sc_x, v_sc_y), for Earth's orbital
      speed vEarth and the excess speed vInf. */
  function LegacyVelocity(vEarth: real, vInf: real, sqrt: real -> real): (real, real)
    requires 0.0 < vEarth
  {
    (sqrt(4.0 * Square(vEarth) - Square(vInf)) * vInf / (2.0 * vEarth),
     (2.0 * Square(vEarth) - Square(vInf)) / (2.0 * vEarth))
  }

  /** The closed form puts the spacecraft on a circle of Earth's orbital speed
      whose distance from Earth's velocity (0, vEarth) is vInf: the spacecraft
      moves as fast as the Earth, and vInf faster relative to it. */
  lemma LegacySpeeds(vEarth: real, vInf: real, sqrt: real -> real)
    requires IsSqrt(sqrt) && 0.0 < vEarth
    requires Square(vInf) <= 4.0 * Square(vEarth)
    ensures var (vx, vy) := LegacyVelocity(vEarth, vInf, sqrt);
            && Square(vx) + Square(vy) == Square(vEarth)
            && Square(vx) + Square(vy - vEarth) == Square(vInf)
  {
    var v := LegacyVelocity(vEarth, vInf, sqrt);
    var s := sqrt(4.0 * Square(vEarth) - Square(vInf));
    assert s * s == 4.0 * Square(vEarth) - Square(vInf);
    var d := 2.0 * vEarth;
    SpeedAlgebra(vEarth, vInf, s, d, v.0, v.1);
  }

  /** LegacySpeeds with the square root and the divisions as plain numbers:
      vx * d = s * vInf and vy * d = 2 vEarth^2 - vInf^2 with d = 2 vEarth. */
  lemma SpeedAlgebra(vEarth: real, vInf: real, s: real, d: real, vx: real, vy: real)
    requires 0.0 < vEarth && d == 2.0 * vEarth
    requires s * s == 4.0 * Square(vEarth) - Square(vInf)
    requires vx == s * vInf / d && vy == (2.0 * Square(vEarth) - Square(vInf)) / d
    ensures Square(vx) + Square(vy) == Square(vEarth)
    ensures Square(vx) + Square(vy - vEarth) == Square(vInf)
  {
    var e, i := Square(vEarth), Square(vInf);
    assert vx * d == s * vInf;
    assert vy * d == 2.0 * e - i;
    assert (vy - vEarth) * d == -i;
    assert (Square(vx) + Square(vy)) * (d * d) == s * s * i + (2.0 * e - i) * (2.0 * e - i);
    assert (Square(vx) + Square(vy)) * (d * d) == e * (d * d);
    assert (Square(vx) + Square(vy - vEarth)) * (d * d) == s * s * i + i * i;
    assert (Square(vx) + Square(vy - vEarth)) * (d * d) == i * (d * d);
  }

  /** With no excess speed the spacecraft leaves with the Earth's own velocity. */
  lemma NoExcessSpeed(vEarth: real, sqrt: real -> real)
    requires IsSqrt(sqrt) && 0.0 < vEarth
    ensures LegacyVelocity(vEarth, 0.0, sqrt) == (0.0, vEarth)
  {
    var h := 2.0 * vEarth;
    assert (2.0 * Square(vEarth) - Square(0.0)) / h == vEarth by {
      assert 2.0 * Square(vEarth) == vEarth * h;
    }
  }

  /** Why the script stops: delta_V has no second component, the step is zero, a
      step count is negative, the two-body grid is empty (sol_0to1[-1, :]), or
      the N-body right-hand side finds the spacecraft inside a body. */
  datatype OrbitError =
    | MissingDeltaV
    | ZeroStep
    | NegativeSteps(num: int)
    | EmptyTwoBody
    | Collision(body: string)

  /** The two propagations and their grids. */
  datatype Trajectory = Trajectory(twoBodyGrid: seq<real>, twoBody: seq<seq<real>>,
                                   nBodyGrid: seq<real>, nBody: seq<seq<real>>)

  /** The initial state: on Earth's orbit at (r_earth, 0), with the escape
      velocity mirrored in x. */
  function InitialState(v: (real, real)): (x0: seq<real>)
    ensures |x0| == 4 && x0[0] == R_EARTH && x0[1] == 0.0
    ensures x0[2] == -v.0 && x0[3] == v.1
  {
    [R_EARTH, 0.0, -v.0, v.1]
  }

  /** The angular speed of Earth's orbit, 2 pi / (one year), with a quarter turn
      halfPi standing for pi / 2. */
  function Omega(halfPi: real): real
  {
    4.0 * halfPi / YEAR
  }

  /** spacecraft_orbit up to the plotting: Earth's orbital speed comes from the
      constants (sqrt(GM_SUN / R_EARTH)); dtStart is the mission start instant
      handed to the N-body right-hand side. */
  function SpacecraftOrbit(sqrt: real -> real, cos: real -> real, sin: real -> real, halfPi: real,
                           odeint: Odeint, vInf: real, dtStart: real, tTwoBody: real, tNBody: real,
                           deltaT: real, deltaV: seq<real>, planets: seq<string>): (r: Result<Trajectory, OrbitError>)
    requires IsSqrt(sqrt) && IsOdeint(odeint)
    ensures r.Ok? ==> && 0 < |r.value.twoBody| == |r.value.twoBodyGrid|
                      && |r.value.nBody| == |r.value.nBodyGrid|
  {
    if |deltaV| < 2 then Err(MissingDeltaV)
    else
      var v := LegacyVelocity(EarthSpeed(sqrt), vInf, sqrt);
      var rotated := Rotate(v.0, v.1, Phase(Omega(halfPi), 0.0), cos, sin);
      var x0 := InitialState(rotated);
      if deltaT == 0.0 then Err(ZeroStep)
      else
        match Linspace(0.0, tTwoBody * YEAR, Trunc(tTwoBody / deltaT))
        case Err(e) => Err(NegativeSteps(e.num))
        case Ok(grid0) =>
          NoBodyNoCollision(odeint, TwoBodyModel, x0, grid0);
          assert ValidPropagation(TwoBodyModel, x0, grid0, odeint(TwoBodyModel, x0, grid0));
          var sol0 := odeint(TwoBodyModel, x0, grid0).rows;
          if |sol0| == 0 then Err(EmptyTwoBody)
          else
            var x1 := Kick(Last(sol0), deltaV);
            match Linspace(tTwoBody * YEAR, tNBody * YEAR, Trunc(tNBody / deltaT))
            case Err(e) => Err(NegativeSteps(e.num))
            case Ok(grid1) =>
              var model := NBodyModel(dtStart, planets);
              assert ValidPropagation(model, x1, grid1, odeint(model, x1, grid1));
              match odeint(model, x1, grid1)
              case Collided(body) => Err(Collision(body))
              case Solution(sol1) => Ok(Trajectory(grid0, sol0, grid1, sol1))
  }

  /** Where the script stops, in the order it runs: the missing second delta-V
      component first, then a zero step, then a negative two-body step count,
      then an empty two-body grid; a collision is always at a listed body. */
  lemma Stops(sqrt: real -> real, cos: real -> real, sin: real -> real, halfPi: real,
              odeint: Odeint, vInf: real, dtStart: real, tTwoBody: real, tNBody: real,
              deltaT: real, deltaV: seq<real>, planets: seq<string>)
    requires IsSqrt(sqrt) && IsOdeint(odeint)
    ensures var r := SpacecraftOrbit(sqrt, cos, sin, halfPi, odeint, vInf, dtStart, tTwoBody, tNBody,
                                     deltaT, deltaV, planets);
            && (r == Err(MissingDeltaV) <==> |deltaV| < 2)
            && (2 <= |deltaV| ==> (r == Err(ZeroStep) <==> deltaT == 0.0))
            && (2 <= |deltaV| && deltaT != 0.0 && Trunc(tTwoBody / deltaT) < 0 ==>
                  r == Err(NegativeSteps(Trunc(tTwoBody / deltaT))))
            && (2 <= |deltaV| && deltaT != 0.0 && Trunc(tTwoBody / deltaT) == 0 ==> r == Err(EmptyTwoBody))
            && (r.Err? && r.error.Collision? ==> r.error.body in planets)
  {
    var r := SpacecraftOrbit(sqrt, cos, sin, halfPi, odeint, vInf, dtStart, tTwoBody, tNBody,
                             deltaT, deltaV, planets);
    if 2 <= |deltaV| && deltaT != 0.0 && Trunc(tTwoBody / deltaT) == 0 {
      var x0 := InitialState(Rotate(LegacyVelocity(EarthSpeed(sqrt), vInf, sqrt).0,
                                    LegacyVelocity(EarthSpeed(sqrt), vInf, sqrt).1,
                                    Phase(Omega(halfPi), 0.0), cos, sin));
      assert ValidPropagation(TwoBodyModel, x0, [], odeint(TwoBodyModel, x0, []));
    }
  }

  /** A run that completes starts on Earth's orbit with the closed-form
      velocity unchanged by the rotation at time zero, has truncated step counts
      as its lengths, and starts its N-body phase from the last two-body state
      kicked by delta-V; the N-body grid starts where a two-body grid of two or
      more samples ends, so that instant is sampled twice. */
  lemma Completes(sqrt: real -> real, cos: real -> real, sin: real -> real, halfPi: real,
                  odeint: Odeint, vInf: real, dtStart: real, tTwoBody: real, tNBody: real,
                  deltaT: real, deltaV: seq<real>, planets: seq<string>)
    requires IsSqrt(sqrt) && IsOdeint(odeint) && IsTrig(cos, sin, halfPi)
    requires SpacecraftOrbit(sqrt, cos, sin, halfPi, odeint, vInf, dtStart, tTwoBody, tNBody,
                             deltaT, deltaV, planets).Ok?
    ensures var t := SpacecraftOrbit(sqrt, cos, sin, halfPi, odeint, vInf, dtStart, tTwoBody, tNBody,
                                     deltaT, deltaV, planets).value;
            && 2 <= |deltaV| && deltaT != 0.0
            && |t.twoBody| == Trunc(tTwoBody / deltaT) && |t.nBody| == Trunc(tNBody / deltaT)
            && t.twoBody[0] == InitialState(LegacyVelocity(EarthSpeed(sqrt), vInf, sqrt))
            && (0 < |t.nBody| ==> t.nBody[0] == Kick(Last(t.twoBody), deltaV))
            && (2 <= |t.twoBodyGrid| && 0 < |t.nBodyGrid| ==>
                  t.nBodyGrid[0] == Last(t.twoBodyGrid) == tTwoBody * YEAR)
  {
    var t := SpacecraftOrbit(sqrt, cos, sin, halfPi, odeint, vInf, dtStart, tTwoBody, tNBody,
                             deltaT, deltaV, planets).value;
    var v := LegacyVelocity(EarthSpeed(sqrt), vInf, sqrt);
    assert Phase(Omega(halfPi), 0.0) == 0.0;
    var x0 := InitialState(v);
    RotateByZero(v.0, v.1, cos, sin, halfPi);
    assert ValidPropagation(TwoBodyModel, x0, t.twoBodyGrid, odeint(TwoBodyModel, x0, t.twoBodyGrid));
    var x1 := Kick(Last(t.twoBody), deltaV);
    var model := NBodyModel(dtStart, planets);
    assert ValidPropagation(model, x1, t.nBodyGrid, odeint(model, x1, t.nBodyGrid));
  }

  /** A run that completes starts at Earth's orbital speed, vInf away from the
      Earth's velocity, when the square root of the closed form is defined. */
  lemma StartsAtEarthSpeed(sqrt: real -> real, cos: real -> real, sin: real -> real, halfPi: real,
                           odeint: Odeint, vInf: real, dtStart: real, tTwoBody: real, tNBody: real,
                           deltaT: real, deltaV: seq<real>, planets: seq<string>)
    requires IsSqrt(sqrt) && IsOdeint(odeint) && IsTrig(cos, sin, halfPi)
    requires Square(vInf) <= 4.0 * Square(EarthSpeed(sqrt))
    requires SpacecraftOrbit(sqrt, cos, sin, halfPi, odeint, vInf, dtStart, tTwoBody, tNBody,
                             deltaT, deltaV, planets).Ok?
    ensures var x0 := SpacecraftOrbit(sqrt, cos, sin, halfPi, odeint, vInf, dtStart, tTwoBody, tNBody,
                                      deltaT, deltaV, planets).value.twoBody[0];
            && x0[0] == R_EARTH && x0[1] == 0.0
            && Square(x0[2]) + Square(x0[3]) == Square(EarthSpeed(sqrt))
            && Square(x0[2]) + Square(x0[3] - EarthSpeed(sqrt)) == Square(vInf)
  {
    Completes(sqrt, cos, sin, halfPi, odeint, vInf, dtStart, tTwoBody, tNBody, deltaT, deltaV, planets);
    var x0 := SpacecraftOrbit(sqrt, cos, sin, halfPi, odeint, vInf, dtStart, tTwoBody, tNBody,
                              deltaT, deltaV, planets).value.twoBody[0];
    InitialSpeeds(x0, EarthSpeed(sqrt), vInf, sqrt);
  }

  /** The initial state built from the closed form has Earth's orbital speed,
      and is vInf away from the Earth's velocity (0, vEarth). */
  lemma InitialSpeeds(x0: seq<real>, vEarth: real, vInf: real, sqrt: real -> real)
    requires IsSqrt(sqrt) && 0.0 < vEarth && Square(vInf) <= 4.0 * Square(vEarth)
    requires x0 == InitialState(LegacyVelocity(vEarth, vInf, sqrt))
    ensures |x0| == 4 && x0[0] == R_EARTH && x0[1] == 0.0
    ensures Square(x0[2]) + Square(x0[3]) == Square(vEarth)
    ensures Square(x0[2]) + Square(x0[3] - vEarth) == Square(vInf)
  {
    var v := LegacyVelocity(vEarth, vInf, sqrt);
    LegacySpeeds(vEarth, vInf, sqrt);
    assert Square(-v.0) == Square(v.0);
  }
}
