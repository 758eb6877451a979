/** transform_to_rotating_coordinate_system: rotate planar vectors (positions or
    velocities) counter-clockwise by the phase omega * t, element by element. */
module Coordinates {
  import opened RealMath

  /** The rotation angle applied at instant t: omega * t. */
  function Phase(omega: real, t: real): real { omega * t }

  /** One vector rotated by `phase` with the standard counter-clockwise matrix
      [cos -sin; sin cos]. */
  function Rotate(x: real, y: real, phase: real, cos: real -> real, sin: real -> real): (real, real)
  {
    (x * cos(phase) - y * sin(phase), x * sin(phase) + y * cos(phase))
  }

  /** The arrays xs, ys rotated element by element, element k by the phase
      omega * times[k]. */
  function TransformToRotatingFrame(xs: seq<real>, ys: seq<real>, omega: real, times: seq<real>,
                                    cos: real -> real, sin: real -> real): (r: (seq<real>, seq<real>))
    requires |xs| == |ys| == |times|
    ensures |r.0| == |r.1| == |xs|
    ensures forall k :: 0 <= k < |xs| ==>
              r.0[k] == Rotate(xs[k], ys[k], Phase(omega, times[k]), cos, sin).0 &&
              r.1[k] == Rotate(xs[k], ys[k], Phase(omega, times[k]), cos, sin).1
  {
    (seq(|xs|, k requires 0 <= k < |xs| => Rotate(xs[k], ys[k], Phase(omega, times[k]), cos, sin).0),
     seq(|xs|, k requires 0 <= k < |xs| => Rotate(xs[k], ys[k], Phase(omega, times[k]), cos, sin).1))
  }

  /** At phase zero the transform is the identity, whatever omega is. */
  lemma ZeroTimeIsIdentity(xs: seq<real>, ys: seq<real>, omega: real, times: seq<real>,
                           cos: real -> real, sin: real -> real, halfPi: real)
    requires IsTrig(cos, sin, halfPi)
    requires |xs| == |ys| == |times|
    requires forall k :: 0 <= k < |times| ==> times[k] == 0.0
    ensures TransformToRotatingFrame(xs, ys, omega, times, cos, sin) == (xs, ys)
  {
    var r := TransformToRotatingFrame(xs, ys, omega, times, cos, sin);
    forall k | 0 <= k < |xs|
      ensures r.0[k] == xs[k] && r.1[k] == ys[k]
    {
      assert Phase(omega, times[k]) == 0.0;
    }
    assert r.0 == xs && r.1 == ys;
  }

  /** A rotation by phase zero leaves a vector as it is. */
  lemma RotateByZero(x: real, y: real, cos: real -> real, sin: real -> real, halfPi: real)
    requires IsTrig(cos, sin, halfPi)
    ensures Rotate(x, y, 0.0, cos, sin) == (x, y)
  {
    var c, s := cos(0.0), sin(0.0);
    assert c == 1.0 && s == 0.0;
    assert x * c - y * s == x && x * s + y * c == y;
  }

  /** A quarter turn takes (1, 0) to (0, 1). */
  lemma QuarterTurn(cos: real -> real, sin: real -> real, halfPi: real)
    requires IsTrig(cos, sin, halfPi)
    ensures TransformToRotatingFrame([1.0], [0.0], 1.0, [halfPi], cos, sin) == ([0.0], [1.0])
  {
    var r := TransformToRotatingFrame([1.0], [0.0], 1.0, [halfPi], cos, sin);
    assert Phase(1.0, halfPi) == halfPi;
    assert r.0[0] == 0.0 && r.1[0] == 1.0;
    assert r.0 == [0.0] && r.1 == [1.0];
  }

  /** A half turn takes (1, 0) to (-1, 0); alongside a zero phase, each element
      is rotated by its own phase. */
  lemma HalfTurnPerElement(cos: real -> real, sin: real -> real, halfPi: real)
    requires IsTrig(cos, sin, halfPi)
    ensures TransformToRotatingFrame([1.0], [0.0], 1.0, [halfPi + halfPi], cos, sin) == ([-1.0], [0.0])
    ensures TransformToRotatingFrame([1.0, 1.0], [0.0, 0.0], 1.0, [0.0, halfPi + halfPi], cos, sin)
            == ([1.0, -1.0], [0.0, 0.0])
  {
    HalfTurn(cos, sin, halfPi);
    var pi := halfPi + halfPi;
    assert Phase(1.0, pi) == pi && Phase(1.0, 0.0) == 0.0;
    var r := TransformToRotatingFrame([1.0], [0.0], 1.0, [pi], cos, sin);
    assert r.0[0] == -1.0 && r.1[0] == 0.0;
    assert r.0 == [-1.0] && r.1 == [0.0];
    var r2 := TransformToRotatingFrame([1.0, 1.0], [0.0, 0.0], 1.0, [0.0, pi], cos, sin);
    assert r2.0[0] == 1.0 && r2.1[0] == 0.0;
    assert r2.0[1] == -1.0 && r2.1[1] == 0.0;
    assert r2.0 == [1.0, -1.0] && r2.1 == [0.0, 0.0];
  }

  /** A rotation preserves the squared length of a vector. */
  lemma RotationPreservesLength(x: real, y: real, phase: real,
                                cos: real -> real, sin: real -> real, halfPi: real)
    requires IsTrig(cos, sin, halfPi)
    ensures var (u, v) := Rotate(x, y, phase, cos, sin); u * u + v * v == x * x + y * y
  {
    var c, s := cos(phase), sin(phase);
    var u, v := x * c - y * s, x * s + y * c;
    assert c * c + s * s == 1.0;
    assert u * u + v * v == (x * x + y * y) * (c * c + s * s);
  }

  /** Rotations compose by adding their phases: the transform is the standard
      counter-clockwise rotation group. */
  lemma RotationsCompose(x: real, y: real, a: real, b: real,
                         cos: real -> real, sin: real -> real, halfPi: real)
    requires IsTrig(cos, sin, halfPi)
    ensures var (u, v) := Rotate(x, y, a, cos, sin);
            Rotate(u, v, b, cos, sin) == Rotate(x, y, Plus(a, b), cos, sin)
  {
    assert cos(Plus(a, b)) == cos(a) * cos(b) - sin(a) * sin(b);
    assert sin(Plus(a, b)) == sin(a) * cos(b) + cos(a) * sin(b);
    ComposeRotations(x, y, a, b, cos, sin);
  }

  /** RotationsCompose from the angle-addition formulas at a and b alone. */
  lemma ComposeRotations(x: real, y: real, a: real, b: real, cos: real -> real, sin: real -> real)
    requires cos(Plus(a, b)) == cos(a) * cos(b) - sin(a) * sin(b)
    requires sin(Plus(a, b)) == sin(a) * cos(b) + cos(a) * sin(b)
    ensures var (u, v) := Rotate(x, y, a, cos, sin);
            Rotate(u, v, b, cos, sin) == Rotate(x, y, Plus(a, b), cos, sin)
  {
    var p := Rotate(x, y, a, cos, sin);
    var q := Rotate(p.0, p.1, b, cos, sin);
    var w := Rotate(x, y, Plus(a, b), cos, sin);
    ComposeMatrices(x, y, cos(a), sin(a), cos(b), sin(b), cos(Plus(a, b)), sin(Plus(a, b)),
                    p.0, p.1, q.0, q.1, w.0, w.1);
  }

  /** The matrix identity behind RotationsCompose, with the sines and cosines as
      plain numbers. */
  lemma ComposeMatrices(x: real, y: real, ca: real, sa: real, cb: real, sb: real, c: real, s: real,
                        p0: real, p1: real, q0: real, q1: real, w0: real, w1: real)
    requires c == ca * cb - sa * sb && s == sa * cb + ca * sb
    requires p0 == x * ca - y * sa && p1 == x * sa + y * ca
    requires q0 == p0 * cb - p1 * sb && q1 == p0 * sb + p1 * cb
    requires w0 == x * c - y * s && w1 == x * s + y * c
    ensures q0 == w0 && q1 == w1
  {
  }
}
