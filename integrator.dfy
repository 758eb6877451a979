/** scipy's odeint, which propagates a state over a grid of instants by calling
    one of the right-hand sides of the equations of motion.

    The numerical integration is not modelled: odeint is a parameter, and the
    predicate IsOdeint states what the programs rely on about its result (one
    state per grid instant, the first being the initial state) and that the only
    way it fails is the collision stop of the N-body right-hand side. */
module Integrator {

  /** The right-hand side handed to odeint, with its extra arguments: the
      two-body form, or the N-body form with the mission start instant and the
      listed bodies (the tables dict_GM and dict_planet_radius are fixed). */
  datatype ForceModel =
    | TwoBodyModel
    | NBodyModel(dtStart: real, planets: seq<string>)

  /** What a call of odeint gives: the solution array, one row per grid instant,
      or the body an evaluation of the right-hand side found the spacecraft
      inside, where the program prints an error and exits. */
  datatype Propagation =
    | Solution(rows: seq<seq<real>>)
    | Collided(body: string)

  /** odeint(rhs, x0, grid). */
  type Odeint = (ForceModel, seq<real>, seq<real>) -> Propagation

  /** What the programs rely on about odeint: a solution has one row per grid
      instant, each row has the length of the initial state, and the first row
      is the initial state; only the N-body right-hand side stops the program,
      at one of its listed bodies. */
  ghost predicate IsOdeint(odeint: Odeint)
  {
    forall m, x0, grid :: ValidPropagation(m, x0, grid, odeint(m, x0, grid))
  }

  /** The shape of one call's result. */
  ghost predicate ValidPropagation(m: ForceModel, x0: seq<real>, grid: seq<real>, r: Propagation)
  {
    && (r.Solution? ==>
          && |r.rows| == |grid|
          && (forall k :: 0 <= k < |r.rows| ==> |r.rows[k]| == |x0|)
          && (0 < |grid| ==> r.rows[0] == x0))
    && (r.Collided? ==> m.NBodyModel? && r.body in m.planets)
  }

  /** A call that lists no body cannot stop at one. */
  lemma NoBodyNoCollision(odeint: Odeint, m: ForceModel, x0: seq<real>, grid: seq<real>)
    requires IsOdeint(odeint)
    requires m.TwoBodyModel? || m.planets == []
    ensures odeint(m, x0, grid).Solution?
  {
    assert ValidPropagation(m, x0, grid, odeint(m, x0, grid));
  }

  /** The last row of a solution over a non-empty grid has the length of the
      initial state, and a grid of one instant gives back the initial state. */
  lemma LastRow(odeint: Odeint, m: ForceModel, x0: seq<real>, grid: seq<real>)
    requires IsOdeint(odeint) && 0 < |grid|
    requires odeint(m, x0, grid).Solution?
    ensures var rows := odeint(m, x0, grid).rows;
            0 < |rows| && |rows[|rows| - 1]| == |x0| && (|grid| == 1 ==> rows[|rows| - 1] == x0)
  {
    assert ValidPropagation(m, x0, grid, odeint(m, x0, grid));
  }
}
