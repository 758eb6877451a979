/** The spacecraft's equations of motion in the ecliptic plane.

    The state is x = [x, y, vx, vy] (km, km/s) relative to the Sun. The N-body
    right-hand side adds to the Sun's pull the pull of every listed body at the
    current instant, and stops the program when the spacecraft is inside one of
    those bodies; the two-body right-hand side keeps the Sun's pull only. */
module EquationOfMotion {
  import opened RealMath
  import opened Ephemeris

  /** What one evaluation of the N-body right-hand side gives: the derivative
      [vx, vy, ax, ay], or the body whose surface the spacecraft is below, where
      the program prints an error and exits. */
  datatype Outcome = Derivative(dxdt: seq<real>) | Collision(body: string)

  /** v ** 3. */
  function Cube(v: real): real { v * v * v }

  /** A positive number has a positive cube. */
  lemma CubePositive(v: real)
    requires 0.0 < v
    ensures 0.0 < Cube(v)
  {
    assert 0.0 < v * v;
  }

  /** The instant of the step at t seconds after the start dtStart. */
  function StepInstant(dtStart: real, t: real): real
  {
    dtStart + t
  }

  /** The spacecraft's distance to the body whose dictionary entry is c. */
  function Norm(x: seq<real>, c: Coord, sqrt: real -> real): real
    requires |x| == 4
  {
    sqrt(Square(x[0] - c.x) + Square(x[1] - c.y))
  }

  /** The spacecraft's distance to body p at the instant, read from the
      ephemeris. */
  function Distance(x: seq<real>, p: string, instant: real, eph: Lookup, sqrt: real -> real): real
    requires |x| == 4
  {
    Norm(x, Entry(eph(p, instant)), sqrt)
  }

  /** The Sun's distance |r|. */
  function SunDistance(x: seq<real>, sqrt: real -> real): real
    requires |x| == 4
  {
    sqrt(Square(x[0]) + Square(x[1]))
  }

  /** The acceleration a body with GM g and dictionary entry c contributes is
      minus this vector, g * d / |d|^3, d being the spacecraft's position
      relative to the body. */
  function Pull(x: seq<real>, g: real, c: Coord, sqrt: real -> real): (real, real)
    requires |x| == 4 && 0.0 < Norm(x, c, sqrt)
  {
    var d0, d1 := x[0] - c.x, x[1] - c.y;
    var n := sqrt(Square(d0) + Square(d1));
    CubePositive(n);
    (g * d0 / Cube(n), g * d1 / Cube(n))
  }

  /** The Sun's part of the acceleration is minus this vector, gmSun * r / |r|^3,
      r being the spacecraft's position. */
  function SunPull(x: seq<real>, gmSun: real, sqrt: real -> real): (real, real)
    requires |x| == 4 && 0.0 < SunDistance(x, sqrt)
  {
    var rNorm := SunDistance(x, sqrt);
    CubePositive(rNorm);
    (gmSun * x[0] / Cube(rNorm), gmSun * x[1] / Cube(rNorm))
  }

  /** Every body of `order` has an entry, a GM and a positive radius. */
  ghost predicate Known(order: seq<string>, coords: map<string, Coord>, gm: map<string, real>,
                        radius: map<string, real>)
  {
    forall p :: p in order ==> p in coords && p in gm && p in radius && 0.0 < radius[p]
  }

  /** The keys of get_planet_coord's dictionary in iteration order: every name
      at the place of its first occurrence. */
  function Dedup(s: seq<string>): (r: seq<string>)
    ensures forall p :: p in r <==> p in s
  {
    if |s| == 0 then []
    else if s[|s| - 1] in s[..|s| - 1] then Dedup(s[..|s| - 1])
    else Dedup(s[..|s| - 1]) + [s[|s| - 1]]
  }

  /** No name is a key of the dictionary twice. */
  lemma {:induction false} DedupDistinct(s: seq<string>)
    ensures forall i, j :: 0 <= i < j < |Dedup(s)| ==> Dedup(s)[i] != Dedup(s)[j]
  {
    if |s| > 0 {
      DedupDistinct(s[..|s| - 1]);
    }
  }

  /** The position of the first occurrence of `p` in `s`. */
  function FirstIndex(s: seq<string>, p: string): (i: nat)
    requires p in s
    ensures i < |s| && s[i] == p && p !in s[..i]
  {
    var front := s[..|s| - 1];
    if p in front then
      var i := FirstIndex(front, p);
      assert s[..i] == front[..i];
      i
    else
      assert s[..|s| - 1] == front;
      |s| - 1
  }

  /** The dictionary keeps insertion order: its keys come in the order of the
      names' first occurrences. */
  lemma {:induction false} DedupOrder(s: seq<string>)
    ensures forall i, j :: 0 <= i < j < |Dedup(s)| ==> FirstIndex(s, Dedup(s)[i]) < FirstIndex(s, Dedup(s)[j])
  {
    if |s| > 0 {
      var front := s[..|s| - 1];
      DedupOrder(front);
      forall x | x in front
        ensures FirstIndex(s, x) == FirstIndex(front, x)
      {
        FirstAgrees(s, x);
      }
    }
  }

  /** A name met before the last place keeps its first index when the last name is added. */
  lemma FirstAgrees(s: seq<string>, x: string)
    requires 0 < |s| && x in s[..|s| - 1]
    ensures FirstIndex(s, x) == FirstIndex(s[..|s| - 1], x)
  {
    var front := s[..|s| - 1];
    var i := FirstIndex(s, x);
    var k := FirstIndex(front, x);
    assert front[..k] == s[..k];
  }

  /** The first body of `order`, if any, that the spacecraft is strictly closer
      to than its radius. */
  function FirstCollision(x: seq<real>, order: seq<string>, coords: map<string, Coord>,
                          radius: map<string, real>, sqrt: real -> real): (r: Option<string>)
    requires |x| == 4
    requires forall p :: p in order ==> p in coords && p in radius
    ensures r.None? <==> forall p :: p in order ==> radius[p] <= Norm(x, coords[p], sqrt)
    ensures r.Some? ==> r.value in order && Norm(x, coords[r.value], sqrt) < radius[r.value]
  {
    if |order| == 0 then None
    else
      var p := order[|order| - 1];
      var first := FirstCollision(x, order[..|order| - 1], coords, radius, sqrt);
      if first.Some? then first
      else if Norm(x, coords[p], sqrt) < radius[p] then Some(p)
      else None
  }

  /** Every body of `order` has an entry and a GM, and lies at a positive
      distance. */
  ghost predicate PullDefined(x: seq<real>, order: seq<string>, coords: map<string, Coord>,
                              gm: map<string, real>, sqrt: real -> real)
    requires |x| == 4
  {
    forall p :: p in order ==> p in coords && p in gm && 0.0 < Norm(x, coords[p], sqrt)
  }

  /** The planets' part of the acceleration: every body's pull subtracted in
      turn from zero. */
  function PlanetsAccel(x: seq<real>, order: seq<string>, coords: map<string, Coord>,
                        gm: map<string, real>, sqrt: real -> real): (real, real)
    requires |x| == 4 && PullDefined(x, order, coords, gm, sqrt)
  {
    if |order| == 0 then (0.0, 0.0)
    else
      var p := order[|order| - 1];
      var acc := PlanetsAccel(x, order[..|order| - 1], coords, gm, sqrt);
      var pull := Pull(x, gm[p], coords[p], sqrt);
      (acc.0 - pull.0, acc.1 - pull.1)
  }

  /** What orbital_equation_of_motion_nbody demands of its arguments: a state of
      four components away from the Sun, a GM for the Sun, and a GM and a
      positive radius for every listed body. */
  ghost predicate Admissible(x: seq<real>, planets: seq<string>, gm: map<string, real>,
                             radius: map<string, real>, sqrt: real -> real)
  {
    && |x| == 4
    && 0.0 < SunDistance(x, sqrt)
    && "sun" in gm
    && forall p :: p in planets ==> p in gm && p in radius && 0.0 < radius[p]
  }

  /** orbital_equation_of_motion_nbody as a function of its inputs: the
      ephemeris is read at dtStart + t into a dictionary, which is then
      evaluated in key order. */
  function NBody(x: seq<real>, t: real, dtStart: real, planets: seq<string>, gm: map<string, real>,
                 radius: map<string, real>, eph: Lookup, sqrt: real -> real): (r: Outcome)
    requires Admissible(x, planets, gm, radius, sqrt)
    ensures r.Derivative? ==> |r.dxdt| == 4 && r.dxdt[0] == x[2] && r.dxdt[1] == x[3]
  {
    Evaluate(x, Dedup(planets), CoordsAt(eph, StepInstant(dtStart, t), planets), gm, radius, sqrt)
  }

  /** The right-hand side over the dictionary of positions, its keys visited in
      `order`: the first body the spacecraft is inside ends the evaluation;
      otherwise the derivative is the velocity followed by the planets' and the
      Sun's accelerations. */
  function Evaluate(x: seq<real>, order: seq<string>, coords: map<string, Coord>, gm: map<string, real>,
                    radius: map<string, real>, sqrt: real -> real): (r: Outcome)
    requires |x| == 4 && 0.0 < SunDistance(x, sqrt) && "sun" in gm && Known(order, coords, gm, radius)
    ensures r.Derivative? ==> |r.dxdt| == 4 && r.dxdt[0] == x[2] && r.dxdt[1] == x[3]
  {
    match FirstCollision(x, order, coords, radius, sqrt)
    case Some(p) => Collision(p)
    case None =>
      var accel := PlanetsAccel(x, order, coords, gm, sqrt);
      var sun := SunPull(x, gm["sun"], sqrt);
      Derivative([x[2], x[3], accel.0 - sun.0, accel.1 - sun.1])
  }

  /** orbital_equation_of_motion_nbody: zero a four-entry array, subtract every
      body's pull from the acceleration entries after checking the spacecraft is
      not inside it, then store the velocity and subtract the Sun's pull. */
  method OrbitalEquationOfMotionNBody(x: seq<real>, t: real, dtStart: real, planets: seq<string>,
                                      gm: map<string, real>, radius: map<string, real>,
                                      eph: Lookup, sqrt: real -> real)
    returns (r: Outcome)
    requires Admissible(x, planets, gm, radius, sqrt)
    ensures r == NBody(x, t, dtStart, planets, gm, radius, eph, sqrt)
  {
    // t seconds are turned into days, and the days back into seconds.
    var passedDays := t / (24.0 * 60.0 * 60.0);
    var instant := dtStart + passedDays * 86400.0;
    InstantOfStep(dtStart, t, passedDays, instant);
    var coords := GetPlanetCoord(eph, instant, planets);
    // The dictionary's keys, in the order they were inserted.
    var order := Dedup(planets);
    assert Known(order, coords, gm, radius);
    var dxdt := new real[4](_ => 0.0);
    var hit := SubtractPlanetPulls(x, order, coords, gm, radius, sqrt, dxdt);
    if hit.Some? {
      // The program prints an error and exits.
      CollisionOutcome(x, t, dtStart, planets, gm, radius, eph, sqrt, hit.value);
      return Collision(hit.value);
    }
    var sun := SunPull(x, gm["sun"], sqrt);
    dxdt[0] := x[2];
    dxdt[1] := x[3];
    dxdt[2] := dxdt[2] - sun.0;
    dxdt[3] := dxdt[3] - sun.1;
    DerivativeOutcome(x, t, dtStart, planets, gm, radius, eph, sqrt, dxdt[2], dxdt[3]);
    r := Derivative([dxdt[0], dxdt[1], dxdt[2], dxdt[3]]);
  }

  /** Turning t seconds into days and back gives the instant dtStart + t. */
  lemma InstantOfStep(dtStart: real, t: real, passedDays: real, instant: real)
    requires passedDays == t / (24.0 * 60.0 * 60.0) && instant == dtStart + passedDays * 86400.0
    ensures instant == StepInstant(dtStart, t)
  {
  }

  /** A body the dictionary scan stops at is the outcome of the evaluation. */
  lemma CollisionOutcome(x: seq<real>, t: real, dtStart: real, planets: seq<string>,
                         gm: map<string, real>, radius: map<string, real>, eph: Lookup,
                         sqrt: real -> real, p: string)
    requires Admissible(x, planets, gm, radius, sqrt)
    requires forall q :: q in Dedup(planets) ==> q in CoordsAt(eph, StepInstant(dtStart, t), planets) && q in radius
    requires FirstCollision(x, Dedup(planets), CoordsAt(eph, StepInstant(dtStart, t), planets), radius, sqrt) == Some(p)
    ensures NBody(x, t, dtStart, planets, gm, radius, eph, sqrt) == Collision(p)
  {
  }

  /** When the scan finds no collision, the derivative is the velocity followed
      by the planets' acceleration minus the Sun's pull. */
  lemma DerivativeOutcome(x: seq<real>, t: real, dtStart: real, planets: seq<string>,
                          gm: map<string, real>, radius: map<string, real>, eph: Lookup,
                          sqrt: real -> real, a2: real, a3: real)
    requires Admissible(x, planets, gm, radius, sqrt)
    requires forall q :: q in Dedup(planets) ==> q in CoordsAt(eph, StepInstant(dtStart, t), planets) && q in radius
    requires FirstCollision(x, Dedup(planets), CoordsAt(eph, StepInstant(dtStart, t), planets), radius, sqrt).None?
    requires PullDefined(x, Dedup(planets), CoordsAt(eph, StepInstant(dtStart, t), planets), gm, sqrt)
    requires a2 == PlanetsAccel(x, Dedup(planets), CoordsAt(eph, StepInstant(dtStart, t), planets), gm, sqrt).0
                   - SunPull(x, gm["sun"], sqrt).0
    requires a3 == PlanetsAccel(x, Dedup(planets), CoordsAt(eph, StepInstant(dtStart, t), planets), gm, sqrt).1
                   - SunPull(x, gm["sun"], sqrt).1
    ensures NBody(x, t, dtStart, planets, gm, radius, eph, sqrt) == Derivative([x[2], x[3], a2, a3])
  {
  }

  /** The loop of orbital_equation_of_motion_nbody over the dictionary: for
      each body in key order, stop at the first one the spacecraft is inside,
      otherwise subtract its pull from the acceleration entries dxdt[2..4]. */
  method SubtractPlanetPulls(x: seq<real>, order: seq<string>, coords: map<string, Coord>,
                             gm: map<string, real>, radius: map<string, real>, sqrt: real -> real,
                             dxdt: array<real>)
    returns (hit: Option<string>)
    requires |x| == 4 && Known(order, coords, gm, radius)
    requires dxdt.Length == 4 && dxdt[2] == 0.0 && dxdt[3] == 0.0
    modifies dxdt
    ensures hit == FirstCollision(x, order, coords, radius, sqrt)
    ensures hit.None? ==> PullDefined(x, order, coords, gm, sqrt) &&
                          dxdt[2] == PlanetsAccel(x, order, coords, gm, sqrt).0 &&
                          dxdt[3] == PlanetsAccel(x, order, coords, gm, sqrt).1
  {
    var i := 0;
    while i < |order|
      invariant 0 <= i <= |order|
      invariant FirstCollision(x, order[..i], coords, radius, sqrt).None?
      invariant PullDefined(x, order[..i], coords, gm, sqrt)
      invariant dxdt[2] == PlanetsAccel(x, order[..i], coords, gm, sqrt).0
      invariant dxdt[3] == PlanetsAccel(x, order[..i], coords, gm, sqrt).1
    {
      var p := order[i];
      var dNorm := Norm(x, coords[p], sqrt);
      if dNorm < radius[p] {
        CollisionStep(x, order, i, coords, gm, radius, sqrt);
        return Some(p);
      }
      LoopStep(x, order, i, coords, gm, radius, sqrt, dxdt[2], dxdt[3]);
      var pull := Pull(x, gm[p], coords[p], sqrt);
      dxdt[2] := dxdt[2] - pull.0;
      dxdt[3] := dxdt[3] - pull.1;
      i := i + 1;
    }
    assert order[..i] == order;
    return None;
  }

  /** A body the spacecraft is not inside, after bodies it is not inside: the
      scan goes on, and the body's pull is subtracted from the acceleration so
      far. */
  lemma LoopStep(x: seq<real>, order: seq<string>, i: int, coords: map<string, Coord>,
                 gm: map<string, real>, radius: map<string, real>, sqrt: real -> real,
                 a0: real, a1: real)
    requires |x| == 4 && 0 <= i < |order| && Known(order, coords, gm, radius)
    requires FirstCollision(x, order[..i], coords, radius, sqrt).None?
    requires PullDefined(x, order[..i], coords, gm, sqrt)
    requires (a0, a1) == PlanetsAccel(x, order[..i], coords, gm, sqrt)
    requires radius[order[i]] <= Norm(x, coords[order[i]], sqrt)
    ensures 0.0 < Norm(x, coords[order[i]], sqrt)
    ensures FirstCollision(x, order[..i + 1], coords, radius, sqrt).None?
    ensures PullDefined(x, order[..i + 1], coords, gm, sqrt)
    ensures var pull := Pull(x, gm[order[i]], coords[order[i]], sqrt);
            (a0 - pull.0, a1 - pull.1) == PlanetsAccel(x, order[..i + 1], coords, gm, sqrt)
  {
    NoCollisionStep(x, order, i, coords, gm, radius, sqrt);
    PullDefinedStep(x, order, i, coords, gm, sqrt);
    AccelStep(x, order, i, coords, gm, sqrt);
  }

  /** A body the spacecraft is inside, after bodies it is not inside, is the
      first collision of the whole list. */
  lemma CollisionStep(x: seq<real>, order: seq<string>, i: int, coords: map<string, Coord>,
                      gm: map<string, real>, radius: map<string, real>, sqrt: real -> real)
    requires |x| == 4 && 0 <= i < |order| && Known(order, coords, gm, radius)
    requires FirstCollision(x, order[..i], coords, radius, sqrt).None?
    requires Norm(x, coords[order[i]], sqrt) < radius[order[i]]
    ensures FirstCollision(x, order, coords, radius, sqrt) == Some(order[i])
  {
    assert order[..i + 1][..i] == order[..i];
    FirstCollisionPrefix(x, order, i + 1, coords, radius, sqrt);
  }

  /** One body the spacecraft is not inside extends a list of bodies it is not
      inside. */
  lemma NoCollisionStep(x: seq<real>, order: seq<string>, i: int, coords: map<string, Coord>,
                        gm: map<string, real>, radius: map<string, real>, sqrt: real -> real)
    requires |x| == 4 && 0 <= i < |order| && Known(order, coords, gm, radius)
    requires FirstCollision(x, order[..i], coords, radius, sqrt).None?
    requires radius[order[i]] <= Norm(x, coords[order[i]], sqrt)
    ensures FirstCollision(x, order[..i + 1], coords, radius, sqrt).None?
  {
    assert order[..i + 1][..i] == order[..i];
  }

  /** One body at a positive distance extends a list of bodies whose pulls are
      defined. */
  lemma PullDefinedStep(x: seq<real>, order: seq<string>, i: int, coords: map<string, Coord>,
                        gm: map<string, real>, sqrt: real -> real)
    requires |x| == 4 && 0 <= i < |order|
    requires order[i] in coords && order[i] in gm && 0.0 < Norm(x, coords[order[i]], sqrt)
    requires PullDefined(x, order[..i], coords, gm, sqrt)
    ensures PullDefined(x, order[..i + 1], coords, gm, sqrt)
  {
    assert forall p :: p in order[..i + 1] ==> p in order[..i] || p == order[i];
  }

  /** The pull of body i is subtracted from the planets' acceleration over the
      bodies before it. */
  lemma AccelStep(x: seq<real>, order: seq<string>, i: int, coords: map<string, Coord>,
                  gm: map<string, real>, sqrt: real -> real)
    requires |x| == 4 && 0 <= i < |order|
    requires PullDefined(x, order[..i + 1], coords, gm, sqrt)
    ensures PullDefined(x, order[..i], coords, gm, sqrt)
    ensures var pull := Pull(x, gm[order[i]], coords[order[i]], sqrt);
            var acc := PlanetsAccel(x, order[..i], coords, gm, sqrt);
            (acc.0 - pull.0, acc.1 - pull.1) == PlanetsAccel(x, order[..i + 1], coords, gm, sqrt)
  {
    var prefix := order[..i + 1];
    assert prefix[..i] == order[..i];
  }

  /** The pull of a body, written out with the distance components d0, d1 and
      the distance n. */
  lemma PullOf(x: seq<real>, g: real, c: Coord, sqrt: real -> real, d0: real, d1: real, n: real)
    requires |x| == 4 && d0 == x[0] - c.x && d1 == x[1] - c.y
    requires n == sqrt(Square(d0) + Square(d1)) && 0.0 < n
    ensures 0.0 < Norm(x, c, sqrt) && 0.0 < Cube(n)
    ensures Pull(x, g, c, sqrt) == (g * d0 / Cube(n), g * d1 / Cube(n))
  {
    CubePositive(n);
    assert Norm(x, c, sqrt) == n;
    var pull := Pull(x, g, c, sqrt);
    assert pull.0 == g * d0 / Cube(n) && pull.1 == g * d1 / Cube(n);
  }

  /** The planets' acceleration over a list is that over all but its last body,
      minus the last body's pull. */
  lemma AccelSnoc(x: seq<real>, s: seq<string>, coords: map<string, Coord>, gm: map<string, real>,
                  sqrt: real -> real)
    requires |x| == 4 && 0 < |s| && PullDefined(x, s, coords, gm, sqrt)
    ensures var p := s[|s| - 1];
            var pull := Pull(x, gm[p], coords[p], sqrt);
            var acc := PlanetsAccel(x, s[..|s| - 1], coords, gm, sqrt);
            PlanetsAccel(x, s, coords, gm, sqrt) == (acc.0 - pull.0, acc.1 - pull.1)
  {
  }

  /** Once a prefix of `order` holds a collision, the first collision of the
      whole list is that one. */
  lemma {:induction false} FirstCollisionPrefix(x: seq<real>, order: seq<string>, k: int,
                                                coords: map<string, Coord>, radius: map<string, real>,
                                                sqrt: real -> real)
    requires |x| == 4 && 0 <= k <= |order|
    requires forall p :: p in order ==> p in coords && p in radius
    requires FirstCollision(x, order[..k], coords, radius, sqrt).Some?
    ensures FirstCollision(x, order, coords, radius, sqrt) == FirstCollision(x, order[..k], coords, radius, sqrt)
  {
    if k < |order| {
      var prefix := order[..|order| - 1];
      assert prefix[..k] == order[..k];
      FirstCollisionPrefix(x, prefix, k, coords, radius, sqrt);
    } else {
      assert order[..k] == order;
    }
  }

  /** orbital_equation_of_motion_twobody: the Sun's pull alone, with the Sun's GM
      written as the literal 1.327e11. The acceleration is radial and points
      towards the Sun. */
  function TwoBody(x: seq<real>, sqrt: real -> real): (r: seq<real>)
    requires IsSqrt(sqrt) && |x| == 4 && 0.0 < Square(x[0]) + Square(x[1])
    ensures |r| == 4 && r[0] == x[2] && r[1] == x[3]
    ensures r[2] * x[0] + r[3] * x[1] < 0.0
    ensures r[2] * x[1] == r[3] * x[0]
  {
    var gmSun := 1.327e11;
    var rNorm := SunDistance(x, sqrt);
    AwayFromSun(x, sqrt);
    CubePositive(rNorm);
    var r := [x[2], x[3], -gmSun * x[0] / Cube(rNorm), -gmSun * x[1] / Cube(rNorm)];
    CentralPull(x[0], x[1], gmSun, Cube(rNorm), r[2], r[3]);
    r
  }

  /** With a square root, being away from the Sun is having a non-zero
      position. */
  lemma AwayFromSun(x: seq<real>, sqrt: real -> real)
    requires IsSqrt(sqrt) && |x| == 4
    ensures 0.0 < SunDistance(x, sqrt) <==> 0.0 < Square(x[0]) + Square(x[1])
  {
    var v := Square(x[0]) + Square(x[1]);
    assert 0.0 <= v;
    if 0.0 < v {
      SqrtPositive(sqrt, v);
    } else {
      SquaresOrdered(sqrt(v), 0.0);
    }
  }

  /** The vector -gm * (x0, x1) / c, for gm, c > 0 and (x0, x1) not zero, is
      parallel to (x0, x1) and points the other way. */
  lemma CentralPull(x0: real, x1: real, gm: real, c: real, a0: real, a1: real)
    requires 0.0 < gm && 0.0 < c && 0.0 < Square(x0) + Square(x1)
    requires a0 == -gm * x0 / c && a1 == -gm * x1 / c
    ensures a0 * x0 + a1 * x1 < 0.0
    ensures a0 * x1 == a1 * x0
  {
    var k := gm / c;
    assert 0.0 < k;
    assert a0 == -k * x0 && a1 == -k * x1;
    assert a0 * x0 + a1 * x1 == -k * (Square(x0) + Square(x1));
  }
}
