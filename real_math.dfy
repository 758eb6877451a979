/** Real-number stand-ins for the floating-point primitives the program calls
    (np.sqrt, np.cos, np.sin), the Option type the model returns where the
    program has no value to give, and the Result type it returns where the
    program raises an error.

    The primitives are not defined here: every member that needs one takes it as a
    function parameter, and the predicates below state the properties the model
    relies on. Nothing is claimed about rounding. */
module RealMath {

  datatype Option<+T> = None | Some(value: T)

  datatype Result<+T, +E> = Ok(value: T) | Err(error: E)

  function Square(v: real): real { v * v }

  /** `sqrt` is a square root on the non-negative reals. */
  ghost predicate IsSqrt(sqrt: real -> real) {
    forall v :: 0.0 <= v ==> 0.0 <= sqrt(v) && sqrt(v) * sqrt(v) == v
  }

  /** A square root is determined by its square: sqrt(r * r) is r for r >= 0. */
  lemma SqrtOfSquare(sqrt: real -> real, r: real)
    requires IsSqrt(sqrt) && 0.0 <= r
    ensures sqrt(r * r) == r
  {
    SquaresOrdered(sqrt(r * r), r);
  }

  /** Comparing a square root with a positive bound is comparing squares. */
  lemma SqrtBelow(sqrt: real -> real, v: real, bound: real)
    requires IsSqrt(sqrt) && 0.0 <= v && 0.0 < bound
    ensures sqrt(v) < bound <==> v < bound * bound
  {
    SquaresOrdered(sqrt(v), bound);
  }

  /** On the non-negative reals, squaring preserves order. */
  lemma SquaresOrdered(s: real, r: real)
    requires 0.0 <= s && 0.0 <= r
    ensures s < r <==> s * s < r * r
    ensures s == r <==> s * s == r * r
  {
    if s < r {
      SquareBelow(s, r);
    } else if r < s {
      SquareBelow(r, s);
    }
  }

  lemma SquareBelow(s: real, r: real)
    requires 0.0 <= s < r
    ensures s * s < r * r
  {
    var e := r - s;
    assert r * r == s * s + e * (r + s);
    assert e * (r + s) > 0.0;
  }

  /** The square root of a positive number is positive. */
  lemma SqrtPositive(sqrt: real -> real, v: real)
    requires IsSqrt(sqrt) && 0.0 < v
    ensures 0.0 < sqrt(v)
  {
    assert sqrt(v) * sqrt(v) == v;
  }

  /** Angle addition, written as a function so that the trigonometric identities
      below have a term to be instantiated on. */
  function Plus(a: real, b: real): real { a + b }

  /** `cos` and `sin` are cosine and sine, and `halfPi` is a quarter turn: the
      values at 0 and at a quarter turn, the Pythagorean identity and the
      angle-addition formulas. */
  ghost predicate IsTrig(cos: real -> real, sin: real -> real, halfPi: real) {
    && cos(0.0) == 1.0 && sin(0.0) == 0.0
    && cos(halfPi) == 0.0 && sin(halfPi) == 1.0
    && (forall a :: cos(a) * cos(a) + sin(a) * sin(a) == 1.0)
    && (forall a, b {:trigger cos(Plus(a, b))} :: cos(Plus(a, b)) == cos(a) * cos(b) - sin(a) * sin(b))
    && (forall a, b {:trigger sin(Plus(a, b))} :: sin(Plus(a, b)) == sin(a) * cos(b) + cos(a) * sin(b))
  }

  /** A half turn, derived from the quarter turn by angle addition. */
  lemma HalfTurn(cos: real -> real, sin: real -> real, halfPi: real)
    requires IsTrig(cos, sin, halfPi)
    ensures cos(halfPi + halfPi) == -1.0 && sin(halfPi + halfPi) == 0.0
  {
    assert cos(Plus(halfPi, halfPi)) == cos(halfPi) * cos(halfPi) - sin(halfPi) * sin(halfPi);
    assert sin(Plus(halfPi, halfPi)) == sin(halfPi) * cos(halfPi) + cos(halfPi) * sin(halfPi);
  }
}
