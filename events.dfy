/**
 * The two global stop detectors (generate_model.py, lines 63-86). Each is the
 * expression `1 - if(x0>95,1,0) * ... * if(x{N-1}>95,1,0)` (and the same with
 * `x_i < 3`), whose zero-crossing the integrator watches. The product of
 * indicators is modelled literally, and each expression is proved to be 0 exactly
 * when the corresponding universally quantified condition holds.
 */
module Events {

  /** Above this health an agent counts as sick for the `all_sick` detector. */
  const SickLevel: real := 95.0

  /** Below this health an agent counts as healthy for the `all_healthy` detector. */
  const HealthyLevel: real := 3.0

  /** The indicator `if(c, 1, 0)`. */
  function Indicator(c: bool): real
  {
    if c then 1.0 else 0.0
  }

  /** The product of `if(x_i > 95, 1, 0)` over all agents: 1 when every agent is sick, else 0. */
  function SickProduct(x: seq<real>): (r: real)
    ensures r == 0.0 || r == 1.0
    ensures r == 1.0 <==> forall k :: 0 <= k < |x| ==> x[k] > SickLevel
  {
    if x == [] then 1.0 else Indicator(x[0] > SickLevel) * SickProduct(x[1..])
  }

  /** The product of `if(x_i < 3, 1, 0)` over all agents: 1 when every agent is healthy, else 0. */
  function HealthyProduct(x: seq<real>): (r: real)
    ensures r == 0.0 || r == 1.0
    ensures r == 1.0 <==> forall k :: 0 <= k < |x| ==> x[k] < HealthyLevel
  {
    if x == [] then 1.0 else Indicator(x[0] < HealthyLevel) * HealthyProduct(x[1..])
  }

  /** The `all_sick` detector expression; it takes only the values 0 and 1. */
  function AllSickExpr(x: seq<real>): (r: real)
    ensures r == 0.0 || r == 1.0
  {
    1.0 - SickProduct(x)
  }

  /** The `all_healthy` detector expression; it takes only the values 0 and 1. */
  function AllHealthyExpr(x: seq<real>): (r: real)
    ensures r == 0.0 || r == 1.0
  {
    1.0 - HealthyProduct(x)
  }

  /** `all_sick` is zero exactly when every agent's health exceeds 95. */
  lemma AllSickIff(x: seq<real>)
    ensures AllSickExpr(x) == 0.0 <==> forall k :: 0 <= k < |x| ==> x[k] > SickLevel
  {
  }

  /** `all_healthy` is zero exactly when every agent's health is below 3. */
  lemma AllHealthyIff(x: seq<real>)
    ensures AllHealthyExpr(x) == 0.0 <==> forall k :: 0 <= k < |x| ==> x[k] < HealthyLevel
  {
  }

  /**
   * The two detectors never both sit at zero for a non-empty population: no health is
   * both above 95 and below 3.
   */
  lemma NotBothZero(x: seq<real>)
    requires |x| > 0
    ensures AllSickExpr(x) == 1.0 || AllHealthyExpr(x) == 1.0
  {
    AllSickIff(x);
    AllHealthyIff(x);
  }
}
