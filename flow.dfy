/**
 * The continuous part of the automaton (generate_model.py, lines 94-96): each
 * health decays at rate alpha while it is positive, and each timer counts down at
 * unit rate. Besides the derivative, this module gives the exact solution of these
 * equations over an interval of length h, which is what the integrator approximates
 * between two events.
 */
module Flow {
  import opened AgentState

  /** The right-hand side `f_xi`: `if(x_i > 0, -alph, 0)`. */
  function HealthRate(xi: real, alpha: real): real
  {
    if xi > 0.0 then -alpha else 0.0
  }

  /** The right-hand side `f_ti`: the constant `-1`. */
  const TimerRate: real := -1.0

  /** The derivative of the whole state, agent by agent. */
  function Derivative(s: State, alpha: real): (d: State)
    ensures |d.x| == |s.x| && |d.t| == |s.t|
    ensures forall k :: 0 <= k < |s.x| ==> (d.x[k] < 0.0 <==> s.x[k] > 0.0 && alpha > 0.0)
    ensures forall k :: 0 <= k < |s.t| ==> d.t[k] < 0.0
  {
    State(seq(|s.x|, k requires 0 <= k < |s.x| => HealthRate(s.x[k], alpha)),
          seq(|s.t|, k requires 0 <= k < |s.t| => TimerRate))
  }

  /**
   * The exact solution for one health after time h: a positive health falls
   * linearly and stops at 0; a health that is not positive has zero derivative and stays.
   */
  function EvolveHealth(xi: real, alpha: real, h: real): real
  {
    if xi > 0.0 then Max(xi - alpha * h, 0.0) else xi
  }

  /** The exact solution of the whole state after time h. */
  function Evolve(s: State, alpha: real, h: real): (s': State)
    ensures |s'.x| == |s.x| && |s'.t| == |s.t|
  {
    State(seq(|s.x|, k requires 0 <= k < |s.x| => EvolveHealth(s.x[k], alpha, h)),
          seq(|s.t|, k requires 0 <= k < |s.t| => s.t[k] - h))
  }

  /**
   * The solution follows the derivative: as long as a positive health has not yet
   * reached 0, it moves by h times its rate, and every timer moves by h times its rate.
   * Once a health reaches 0 it rests there, where the rate is 0.
   */
  lemma EvolveFollowsDerivative(s: State, alpha: real, h: real, k: nat)
    requires alpha >= 0.0 && h >= 0.0
    requires k < |s.x| && k < |s.t|
    ensures s.x[k] <= 0.0 || alpha * h <= s.x[k] ==>
              Evolve(s, alpha, h).x[k] == s.x[k] + h * Derivative(s, alpha).x[k]
    ensures s.x[k] > 0.0 && alpha * h >= s.x[k] ==>
              Evolve(s, alpha, h).x[k] == 0.0 && HealthRate(Evolve(s, alpha, h).x[k], alpha) == 0.0
    ensures Evolve(s, alpha, h).t[k] == s.t[k] + h * Derivative(s, alpha).t[k]
  {
  }

  /**
   * Between events: healths never increase, a non-negative health stays
   * non-negative, and every timer falls by exactly the elapsed time.
   */
  lemma EvolveBounds(s: State, alpha: real, h: real)
    requires alpha >= 0.0 && h >= 0.0
    ensures forall k :: 0 <= k < |s.x| ==> Evolve(s, alpha, h).x[k] <= s.x[k]
    ensures forall k :: 0 <= k < |s.x| && s.x[k] >= 0.0 ==> Evolve(s, alpha, h).x[k] >= 0.0
    ensures forall k :: 0 <= k < |s.t| ==> Evolve(s, alpha, h).t[k] == s.t[k] - h
  {
  }

  /** The health range invariant holds across any interval of the flow. */
  lemma EvolvePreservesRange(s: State, alpha: real, h: real, maxHealth: real)
    requires alpha >= 0.0 && h >= 0.0
    requires HealthInRange(s.x, maxHealth)
    ensures HealthInRange(Evolve(s, alpha, h).x, maxHealth)
  {
    EvolveBounds(s, alpha, h);
  }

  /**
   * The solution is a flow: running for h1 and then for h2 is the same as running
   * for h1 + h2.
   */
  lemma EvolveCompose(s: State, alpha: real, h1: real, h2: real)
    requires alpha >= 0.0 && h1 >= 0.0 && h2 >= 0.0
    ensures Evolve(Evolve(s, alpha, h1), alpha, h2) == Evolve(s, alpha, h1 + h2)
  {
    var a, b := Evolve(Evolve(s, alpha, h1), alpha, h2), Evolve(s, alpha, h1 + h2);
    forall k | 0 <= k < |s.x|
      ensures a.x[k] == b.x[k]
    {
      var xk := s.x[k];
      if xk > 0.0 {
        assert alpha * (h1 + h2) == alpha * h1 + alpha * h2;
        assert alpha * h2 >= 0.0;
      }
    }
    assert a.x == b.x;
  }

  /** Running for no time changes nothing. */
  lemma EvolveZero(s: State, alpha: real)
    ensures Evolve(s, alpha, 0.0) == s
  {
    assert Evolve(s, alpha, 0.0).x == s.x;
    assert Evolve(s, alpha, 0.0).t == s.t;
  }
}
