/**
 * The continuous state of the pandemic automaton: one health value `x[i]` and one
 * cough timer `t[i]` per agent (2N numbers), and the run parameters that
 * `make_model` receives (decay rate `alpha`, cough period `T`, and the maximal
 * health value `max_health`).
 */
module AgentState {

  /** Parameters of one model. */
  datatype Params = Params(alpha: real, period: real, maxHealth: real)

  /**
   * The model assumes positive rates and a positive ceiling, as every parameter set the
   * visible callers supply has (simulate.py, lines 68-70); `make_model` itself checks nothing.
   */
  predicate ValidParams(p: Params)
  {
    p.alpha > 0.0 && p.period > 0.0 && p.maxHealth > 0.0
  }

  /** The 2N state variables: healths `x0..x{N-1}` and timers `t0..t{N-1}`. */
  datatype State = State(x: seq<real>, t: seq<real>)

  /** Both halves describe the same number of agents. */
  predicate WellFormed(s: State)
  {
    |s.x| == |s.t|
  }

  /** The health range invariant: every health lies in [0, max_health]. */
  predicate HealthInRange(x: seq<real>, maxHealth: real)
  {
    forall k :: 0 <= k < |x| ==> 0.0 <= x[k] <= maxHealth
  }

  /** No timer has crossed below zero. */
  predicate TimersNonNegative(t: seq<real>)
  {
    forall k :: 0 <= k < |t| ==> t[k] >= 0.0
  }

  /** The `min` of the generated C expressions. */
  function Min(a: real, b: real): (r: real)
    ensures r <= a && r <= b
    ensures r == a || r == b
  {
    if a <= b then a else b
  }

  function Max(a: real, b: real): (r: real)
    ensures r >= a && r >= b
    ensures r == a || r == b
  {
    if a >= b then a else b
  }
}
