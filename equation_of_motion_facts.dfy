/** What the N-body right-hand side promises as a whole: the reduction to the
    two-body form, the collision test by squared distances, and independence of
    the order and repetition of the listed bodies. */
module EquationOfMotionFacts {
  import opened RealMath
  import opened Constants
  import opened Ephemeris
  import opened EquationOfMotion

  /** The squared distance between the spacecraft and body p at the instant,
      from the ephemeris. */
  function SquaredDistance(x: seq<real>, p: string, instant: real, eph: Lookup): real
    requires |x| == 4
  {
    Square(x[0] - eph(p, instant).x) + Square(x[1] - eph(p, instant).y)
  }

  /** With no bodies listed and the Sun's GM equal to the two-body literal, the
      N-body right-hand side is the two-body one. */
  lemma EmptyListIsTwoBody(x: seq<real>, t: real, dtStart: real, gm: map<string, real>,
                           radius: map<string, real>, eph: Lookup, sqrt: real -> real)
    requires IsSqrt(sqrt) && |x| == 4 && 0.0 < Square(x[0]) + Square(x[1])
    requires "sun" in gm && gm["sun"] == GM_SUN
    ensures Admissible(x, [], gm, radius, sqrt)
    ensures NBody(x, t, dtStart, [], gm, radius, eph, sqrt) == Derivative(TwoBody(x, sqrt))
  {
    AwayFromSun(x, sqrt);
    var r := NBody(x, t, dtStart, [], gm, radius, eph, sqrt);
    var sun := SunPull(x, gm["sun"], sqrt);
    var c := Cube(SunDistance(x, sqrt));
    CubePositive(SunDistance(x, sqrt));
    assert r.dxdt == [x[2], x[3], 0.0 - sun.0, 0.0 - sun.1];
    var two := TwoBody(x, sqrt);
    NegQuotient(GM_SUN, x[0], c, two[2], sun.0);
    NegQuotient(GM_SUN, x[1], c, two[3], sun.1);
    assert r.dxdt == two;
  }

  /** (-g) * v / c is minus g * v / c. */
  lemma NegQuotient(g: real, v: real, c: real, a: real, p: real)
    requires c != 0.0 && a == -g * v / c && p == g * v / c
    ensures a == 0.0 - p
  {
  }

  /** The first example evaluated with the program's tables and no bodies: the
      state (1, 0, 0, 1) gets a four-component derivative. */
  lemma FormatExample(t: real, dtStart: real, eph: Lookup, sqrt: real -> real)
    requires IsSqrt(sqrt)
    ensures Admissible([1.0, 0.0, 0.0, 1.0], [], GravityTable(), RadiusTable(), sqrt)
    ensures var r := NBody([1.0, 0.0, 0.0, 1.0], t, dtStart, [], GravityTable(), RadiusTable(), eph, sqrt);
            r.Derivative? && |r.dxdt| == 4
  {
    TablesAgree();
    EmptyListIsTwoBody([1.0, 0.0, 0.0, 1.0], t, dtStart, GravityTable(), RadiusTable(), eph, sqrt);
  }

  /** The second example: at (1, 0) at rest, with the program's tables and no
      bodies, the acceleration points along -x and has no y component. */
  lemma SunwardExample(t: real, dtStart: real, eph: Lookup, sqrt: real -> real)
    requires IsSqrt(sqrt)
    ensures Admissible([1.0, 0.0, 0.0, 0.0], [], GravityTable(), RadiusTable(), sqrt)
    ensures var r := NBody([1.0, 0.0, 0.0, 0.0], t, dtStart, [], GravityTable(), RadiusTable(), eph, sqrt);
            r.Derivative? && r.dxdt[2] < 0.0 && r.dxdt[3] == 0.0
  {
    TablesAgree();
    Sunward([1.0, 0.0, 0.0, 0.0], t, dtStart, GravityTable(), RadiusTable(), eph, sqrt);
  }

  /** At (1, 0), with no bodies and the two-body GM for the Sun, the
      acceleration points along -x and has no y component. */
  lemma Sunward(x: seq<real>, t: real, dtStart: real, gm: map<string, real>,
                radius: map<string, real>, eph: Lookup, sqrt: real -> real)
    requires IsSqrt(sqrt) && x == [1.0, 0.0, 0.0, 0.0]
    requires "sun" in gm && gm["sun"] == GM_SUN
    ensures Admissible(x, [], gm, radius, sqrt)
    ensures var r := NBody(x, t, dtStart, [], gm, radius, eph, sqrt);
            r.Derivative? && r.dxdt[2] < 0.0 && r.dxdt[3] == 0.0
  {
    EmptyListIsTwoBody(x, t, dtStart, gm, radius, eph, sqrt);
    var a := TwoBody(x, sqrt);
    OnTheXAxis(x[0], x[1], a[2], a[3]);
  }

  /** At (1, 0), a vector pointing against the position and parallel to it
      lies along -x. */
  lemma OnTheXAxis(x0: real, x1: real, a0: real, a1: real)
    requires x0 == 1.0 && x1 == 0.0
    requires a0 * x0 + a1 * x1 < 0.0 && a0 * x1 == a1 * x0
    ensures a0 < 0.0 && a1 == 0.0
  {
  }

  /** The Sun's pull gmSun * r / |r|^3, which the right-hand side subtracts, is
      parallel to the position and points along it (for a position other than
      the Sun's), so the Sun's term in the acceleration points against it. */
  lemma SunTermIsCentral(x: seq<real>, gmSun: real, sqrt: real -> real)
    requires |x| == 4 && 0.0 < SunDistance(x, sqrt) && 0.0 < gmSun
    requires 0.0 < Square(x[0]) + Square(x[1])
    ensures var s := SunPull(x, gmSun, sqrt);
            0.0 < s.0 * x[0] + s.1 * x[1] && s.0 * x[1] == s.1 * x[0]
  {
    var n := SunDistance(x, sqrt);
    CubePositive(n);
    var s := SunPull(x, gmSun, sqrt);
    PullAlong(x[0], x[1], gmSun, Cube(n), s.0, s.1);
  }

  /** The vector gm * (x0, x1) / c, for gm, c > 0 and (x0, x1) not zero, is
      parallel to (x0, x1) and points the same way. */
  lemma PullAlong(x0: real, x1: real, gm: real, c: real, p0: real, p1: real)
    requires 0.0 < gm && 0.0 < c && 0.0 < Square(x0) + Square(x1)
    requires p0 == gm * x0 / c && p1 == gm * x1 / c
    ensures 0.0 < p0 * x0 + p1 * x1
    ensures p0 * x1 == p1 * x0
  {
    var k := gm / c;
    assert 0.0 < k;
    assert p0 == k * x0 && p1 == k * x1;
    assert p0 * x0 + p1 * x1 == k * (Square(x0) + Square(x1));
  }

  /** The body's dictionary entry read at the instant is its ephemeris position,
      so the distance the loop measures is the square root of SquaredDistance. */
  lemma NormIsDistance(x: seq<real>, p: string, instant: real, planets: seq<string>,
                       eph: Lookup, sqrt: real -> real)
    requires |x| == 4 && p in planets
    ensures p in CoordsAt(eph, instant, planets)
    ensures Norm(x, CoordsAt(eph, instant, planets)[p], sqrt) == sqrt(SquaredDistance(x, p, instant, eph))
  {
    var c := CoordsAt(eph, instant, planets)[p];
    assert c.x == eph(p, instant).x && c.y == eph(p, instant).y;
  }

  /** The evaluation stops exactly when the dictionary scan finds a body the
      spacecraft is inside, and reports that body. */
  lemma CollisionIsFirstCollision(x: seq<real>, t: real, dtStart: real, planets: seq<string>,
                                  gm: map<string, real>, radius: map<string, real>, eph: Lookup,
                                  sqrt: real -> real)
    requires Admissible(x, planets, gm, radius, sqrt)
    ensures forall p :: p in Dedup(planets) ==> p in CoordsAt(eph, StepInstant(dtStart, t), planets) && p in radius
    ensures var r := NBody(x, t, dtStart, planets, gm, radius, eph, sqrt);
            var first := FirstCollision(x, Dedup(planets), CoordsAt(eph, StepInstant(dtStart, t), planets), radius, sqrt);
            (r.Collision? <==> first.Some?) && (r.Collision? ==> r.body == first.value)
  {
  }

  /** With a square root, being strictly closer than the radius is having a
      smaller squared distance than the squared radius. */
  lemma DistancesBySquares(x: seq<real>, instant: real, planets: seq<string>,
                           radius: map<string, real>, eph: Lookup, sqrt: real -> real)
    requires IsSqrt(sqrt) && |x| == 4
    requires forall p :: p in planets ==> p in radius && 0.0 < radius[p]
    ensures forall p :: p in planets ==> p in CoordsAt(eph, instant, planets)
    ensures forall p :: p in planets ==>
              (Norm(x, CoordsAt(eph, instant, planets)[p], sqrt) < radius[p] <==>
               SquaredDistance(x, p, instant, eph) < Square(radius[p]))
  {
    forall p | p in planets
      ensures p in CoordsAt(eph, instant, planets)
      ensures Norm(x, CoordsAt(eph, instant, planets)[p], sqrt) < radius[p] <==>
              SquaredDistance(x, p, instant, eph) < Square(radius[p])
    {
      NormIsDistance(x, p, instant, planets, eph, sqrt);
      SqrtBelow(sqrt, SquaredDistance(x, p, instant, eph), radius[p]);
    }
  }

  /** The evaluation stops exactly when some listed body is strictly closer than
      its radius, compared by squares; the body reported is such a body. */
  lemma CollisionIff(x: seq<real>, t: real, dtStart: real, planets: seq<string>,
                     gm: map<string, real>, radius: map<string, real>, eph: Lookup, sqrt: real -> real)
    requires IsSqrt(sqrt) && Admissible(x, planets, gm, radius, sqrt)
    ensures NBody(x, t, dtStart, planets, gm, radius, eph, sqrt).Collision? <==>
            exists p :: p in planets && SquaredDistance(x, p, StepInstant(dtStart, t), eph) < Square(radius[p])
    ensures var r := NBody(x, t, dtStart, planets, gm, radius, eph, sqrt);
            r.Collision? ==> r.body in planets && SquaredDistance(x, r.body, StepInstant(dtStart, t), eph) < Square(radius[r.body])
  {
    CollisionIsFirstCollision(x, t, dtStart, planets, gm, radius, eph, sqrt);
    DistancesBySquares(x, StepInstant(dtStart, t), planets, radius, eph, sqrt);
  }

  /** A spacecraft exactly on the surface of the only listed body is not a
      collision: the comparison is strict. */
  lemma SurfaceIsNotCollision(x: seq<real>, t: real, dtStart: real, p: string,
                              gm: map<string, real>, radius: map<string, real>, eph: Lookup, sqrt: real -> real)
    requires IsSqrt(sqrt) && Admissible(x, [p], gm, radius, sqrt)
    requires SquaredDistance(x, p, StepInstant(dtStart, t), eph) == Square(radius[p])
    ensures NBody(x, t, dtStart, [p], gm, radius, eph, sqrt).Derivative?
  {
    CollisionIff(x, t, dtStart, [p], gm, radius, eph, sqrt);
  }

  /** A spacecraft at the centre of a listed body is a collision. */
  lemma CentreIsCollision(x: seq<real>, t: real, dtStart: real, planets: seq<string>, p: string,
                          gm: map<string, real>, radius: map<string, real>, eph: Lookup, sqrt: real -> real)
    requires IsSqrt(sqrt) && Admissible(x, planets, gm, radius, sqrt) && p in planets
    requires x[0] == eph(p, StepInstant(dtStart, t)).x && x[1] == eph(p, StepInstant(dtStart, t)).y
    ensures NBody(x, t, dtStart, planets, gm, radius, eph, sqrt).Collision?
  {
    var instant := StepInstant(dtStart, t);
    assert SquaredDistance(x, p, instant, eph) == 0.0;
    SquaresOrdered(0.0, radius[p]);
    assert p in planets && SquaredDistance(x, p, instant, eph) < Square(radius[p]);
    CollisionIff(x, t, dtStart, planets, gm, radius, eph, sqrt);
  }

  /** No name occurs twice. */
  predicate Distinct(s: seq<string>)
  {
    forall i, j :: 0 <= i < j < |s| ==> s[i] != s[j]
  }

  /** The list with the entry at index k removed. */
  function Without(s: seq<string>, k: int): (r: seq<string>)
    requires 0 <= k < |s|
    ensures |r| == |s| - 1
  {
    s[..k] + s[k + 1..]
  }

  /** Whatever position a body has in the list, its pull enters the planets'
      acceleration once: removing it adds its pull back. */
  lemma {:induction false} AccelRemove(x: seq<real>, s: seq<string>, k: int, coords: map<string, Coord>,
                                       gm: map<string, real>, sqrt: real -> real)
    requires |x| == 4 && 0 <= k < |s| && PullDefined(x, s, coords, gm, sqrt)
    ensures PullDefined(x, Without(s, k), coords, gm, sqrt)
    ensures var a := PlanetsAccel(x, s, coords, gm, sqrt);
            var b := PlanetsAccel(x, Without(s, k), coords, gm, sqrt);
            var pull := Pull(x, gm[s[k]], coords[s[k]], sqrt);
            a.0 == b.0 - pull.0 && a.1 == b.1 - pull.1
  {
    var n := |s|;
    var front := s[..n - 1];
    WithoutNames(s, k);
    AccelSnoc(x, s, coords, gm, sqrt);
    if k == n - 1 {
      assert Without(s, k) == front;
    } else {
      assert forall p :: p in front ==> p in s;
      AccelRemove(x, front, k, coords, gm, sqrt);
      var w := Without(front, k);
      assert (w + [s[n - 1]])[..|w|] == w;
      AccelSnoc(x, w + [s[n - 1]], coords, gm, sqrt);
    }
  }

  /** Removing an entry keeps only names of the list; removing one before the
      last keeps the last at the end. */
  lemma WithoutNames(s: seq<string>, k: int)
    requires 0 <= k < |s|
    ensures forall p :: p in Without(s, k) ==> p in s
    ensures k < |s| - 1 ==> Without(s, k) == Without(s[..|s| - 1], k) + [s[|s| - 1]]
  {
    var r := Without(s, k);
    forall p | p in r
      ensures p in s
    {
      var j :| 0 <= j < |r| && r[j] == p;
      if j < k { assert s[j] == p; } else { assert s[j + 1] == p; }
    }
  }

  /** Two lists of distinct names holding the same names give the same planets'
      acceleration: the sum does not depend on the order of the bodies. */
  lemma {:induction false} AccelSameNames(x: seq<real>, a: seq<string>, b: seq<string>,
                                          coords: map<string, Coord>, gm: map<string, real>,
                                          sqrt: real -> real)
    requires |x| == 4 && Distinct(a) && Distinct(b) && PullDefined(x, a, coords, gm, sqrt)
    requires forall p :: p in a <==> p in b
    ensures PullDefined(x, b, coords, gm, sqrt)
    ensures PlanetsAccel(x, a, coords, gm, sqrt).0 == PlanetsAccel(x, b, coords, gm, sqrt).0
    ensures PlanetsAccel(x, a, coords, gm, sqrt).1 == PlanetsAccel(x, b, coords, gm, sqrt).1
    decreases |a|
  {
    if |a| == 0 {
      FirstIsListed(b);
    } else {
      var n := |a|;
      var q := a[n - 1];
      assert q in b;
      var k :| 0 <= k < |b| && b[k] == q;
      assert PullDefined(x, b, coords, gm, sqrt);
      AccelRemove(x, b, k, coords, gm, sqrt);
      var front := a[..n - 1];
      var rest := Without(b, k);
      SameNamesAfterRemoval(a, b, k);
      assert forall p :: p in front ==> p in a;
      AccelSameNames(x, front, rest, coords, gm, sqrt);
    }
  }

  /** A non-empty list holds its first entry. */
  lemma FirstIsListed(b: seq<string>)
    ensures |b| > 0 ==> b[0] in b
  {
  }

  /** Dropping the last name of a and the same name from b keeps both lists
      distinct and holding the same names. */
  lemma SameNamesAfterRemoval(a: seq<string>, b: seq<string>, k: int)
    requires Distinct(a) && Distinct(b) && 0 < |a| && 0 <= k < |b| && b[k] == a[|a| - 1]
    requires forall p :: p in a <==> p in b
    ensures Distinct(a[..|a| - 1]) && Distinct(Without(b, k))
    ensures forall p :: p in a[..|a| - 1] <==> p in Without(b, k)
  {
    var front, rest := a[..|a| - 1], Without(b, k);
    forall p
      ensures p in front <==> p in rest
    {
      if p in front {
        var i :| 0 <= i < |front| && front[i] == p;
        assert p in b && p != b[k];
        var j :| 0 <= j < |b| && b[j] == p;
        if j < k { assert rest[j] == p; } else { assert rest[j - 1] == p; }
      }
      if p in rest {
        var j :| 0 <= j < |rest| && rest[j] == p;
        if j < k { assert p == b[j] && j != k; } else { assert p == b[j + 1] && j + 1 != k; }
        assert p in a;
        var i :| 0 <= i < |a| && a[i] == p;
        assert i != |a| - 1;
        assert front[i] == p;
      }
    }
    forall i, j | 0 <= i < j < |rest|
      ensures rest[i] != rest[j]
    {
      var i' := if i < k then i else i + 1;
      var j' := if j < k then j else j + 1;
      assert rest[i] == b[i'] && rest[j] == b[j'] && i' < j';
    }
  }

  /** The dictionary of positions depends only on the names listed. */
  lemma CoordsBySameNames(eph: Lookup, instant: real, planets: seq<string>, others: seq<string>)
    requires forall p :: p in planets <==> p in others
    ensures CoordsAt(eph, instant, planets) == CoordsAt(eph, instant, others)
  {
    var c, d := CoordsAt(eph, instant, planets), CoordsAt(eph, instant, others);
    assert c.Keys == d.Keys;
    forall p | p in c
      ensures c[p] == d[p]
    {
      assert c[p] == Entry(eph(p, instant)) == d[p];
    }
  }

  /** Over one dictionary, two distinct key orders holding the same names
      collide together and otherwise give the same derivative. */
  lemma EvaluateSameNames(x: seq<real>, a: seq<string>, b: seq<string>, coords: map<string, Coord>,
                          gm: map<string, real>, radius: map<string, real>, sqrt: real -> real)
    requires |x| == 4 && 0.0 < SunDistance(x, sqrt) && "sun" in gm && Known(a, coords, gm, radius)
    requires Distinct(a) && Distinct(b) && forall p :: p in a <==> p in b
    ensures Known(b, coords, gm, radius)
    ensures Evaluate(x, a, coords, gm, radius, sqrt).Collision? <==> Evaluate(x, b, coords, gm, radius, sqrt).Collision?
    ensures Evaluate(x, a, coords, gm, radius, sqrt).Derivative? ==>
            Evaluate(x, a, coords, gm, radius, sqrt) == Evaluate(x, b, coords, gm, radius, sqrt)
  {
    assert Known(b, coords, gm, radius);
    if FirstCollision(x, a, coords, radius, sqrt).None? {
      SameDerivative(x, a, b, coords, gm, radius, sqrt);
    }
  }

  /** Without a collision, two distinct key orders holding the same names give
      the same derivative. */
  lemma SameDerivative(x: seq<real>, a: seq<string>, b: seq<string>, coords: map<string, Coord>,
                       gm: map<string, real>, radius: map<string, real>, sqrt: real -> real)
    requires |x| == 4 && 0.0 < SunDistance(x, sqrt) && "sun" in gm
    requires Known(a, coords, gm, radius) && Known(b, coords, gm, radius)
    requires Distinct(a) && Distinct(b) && forall p :: p in a <==> p in b
    requires FirstCollision(x, a, coords, radius, sqrt).None?
    ensures FirstCollision(x, b, coords, radius, sqrt).None?
    ensures Evaluate(x, a, coords, gm, radius, sqrt) == Evaluate(x, b, coords, gm, radius, sqrt)
  {
    assert FirstCollision(x, b, coords, radius, sqrt).None?;
    assert PullDefined(x, a, coords, gm, sqrt);
    AccelSameNames(x, a, b, coords, gm, sqrt);
  }

  /** The right-hand side depends on the set of listed bodies only: two lists
      holding the same names, in any order and with any repetition, are
      admissible together, collide together, and otherwise give the same
      derivative. Only the body a collision reports may differ, being the first
      in list order. */
  lemma OrderIndependent(x: seq<real>, t: real, dtStart: real, planets: seq<string>, others: seq<string>,
                         gm: map<string, real>, radius: map<string, real>, eph: Lookup, sqrt: real -> real)
    requires Admissible(x, planets, gm, radius, sqrt)
    requires forall p :: p in planets <==> p in others
    ensures Admissible(x, others, gm, radius, sqrt)
    ensures NBody(x, t, dtStart, planets, gm, radius, eph, sqrt).Collision? <==>
            NBody(x, t, dtStart, others, gm, radius, eph, sqrt).Collision?
    ensures NBody(x, t, dtStart, planets, gm, radius, eph, sqrt).Derivative? ==>
            NBody(x, t, dtStart, planets, gm, radius, eph, sqrt) == NBody(x, t, dtStart, others, gm, radius, eph, sqrt)
  {
    var instant := StepInstant(dtStart, t);
    CoordsBySameNames(eph, instant, planets, others);
    DedupDistinct(planets);
    DedupDistinct(others);
    EvaluateSameNames(x, Dedup(planets), Dedup(others), CoordsAt(eph, instant, planets), gm, radius, sqrt);
  }

  /** A name listed again counts once: appending a listed body changes nothing,
      not even the body a collision reports. */
  lemma DuplicateCountsOnce(x: seq<real>, t: real, dtStart: real, planets: seq<string>, p: string,
                            gm: map<string, real>, radius: map<string, real>, eph: Lookup, sqrt: real -> real)
    requires Admissible(x, planets, gm, radius, sqrt) && p in planets
    ensures Admissible(x, planets + [p], gm, radius, sqrt)
    ensures NBody(x, t, dtStart, planets + [p], gm, radius, eph, sqrt) == NBody(x, t, dtStart, planets, gm, radius, eph, sqrt)
  {
    DedupListed(planets, p);
    CoordsBySameNames(eph, StepInstant(dtStart, t), planets + [p], planets);
  }

  /** Appending a listed name leaves the dictionary's keys and their order as
      they were. */
  lemma DedupListed(planets: seq<string>, p: string)
    requires p in planets
    ensures Dedup(planets + [p]) == Dedup(planets)
  {
    var longer := planets + [p];
    assert longer[..|planets|] == planets;
  }
}
