/**
 * An abstract event step of the hybrid automaton assembled at the end of
 * `make_model` (generate_model.py, lines 139-147): every timer event `timer_i` is
 * associated with the mapping `maps[i]`. One step lets the flow run until the
 * smallest timer reaches zero, then applies the mapping of an agent whose timer
 * is that smallest one. When several timers are equal, any of them may be the one
 * that fires: the source fixes no tie-break, and none is assumed here.
 */
module Hybrid {
  import opened AgentState
  import opened Spatial
  import opened Flow
  import opened Cough
  import opened Initial

  /** Agent i's timer is the smallest, so its zero-crossing is the next event. */
  predicate FiresNext(s: State, i: nat)
  {
    i < |s.t| && forall k :: 0 <= k < |s.t| ==> s.t[i] <= s.t[k]
  }

  /** The state after flowing for t_i and then resolving agent i's cough. */
  function Step(s: State, w: seq<seq<real>>, i: nat, p: Params): (s': State)
    requires WellFormed(s) && ValidWeights(w, |s.x|) && FiresNext(s, i)
    ensures WellFormed(s') && |s'.x| == |s.x|
  {
    CoughMap(Evolve(s, p.alpha, s.t[i]), w, i, p)
  }

  /**
   * One step keeps the invariants: every health stays in [0, max_health], the
   * firing timer is reset to exactly T, every other timer has fallen by the
   * elapsed time t_i and is still non-negative.
   */
  lemma StepInvariant(s: State, w: seq<seq<real>>, i: nat, p: Params)
    requires ValidParams(p)
    requires WellFormed(s) && ValidWeights(w, |s.x|) && FiresNext(s, i)
    requires HealthInRange(s.x, p.maxHealth) && TimersNonNegative(s.t)
    ensures HealthInRange(Step(s, w, i, p).x, p.maxHealth)
    ensures TimersNonNegative(Step(s, w, i, p).t)
    ensures Step(s, w, i, p).t[i] == p.period
    ensures forall k :: 0 <= k < |s.t| && k != i ==> Step(s, w, i, p).t[k] == s.t[k] - s.t[i]
  {
    var h := s.t[i];
    var e := Evolve(s, p.alpha, h);
    EvolvePreservesRange(s, p.alpha, h, p.maxHealth);
    EvolveBounds(s, p.alpha, h);
    CoughPreservesRange(e, w, i, p);
    CoughMapEffect(e, w, i, p);
  }

  /** `fires` lists, in order, agents each of which holds the smallest timer when it fires. */
  predicate IsRun(s: State, w: seq<seq<real>>, fires: seq<nat>, p: Params)
    decreases |fires|
  {
    WellFormed(s) && ValidWeights(w, |s.x|) &&
    (fires != [] ==> FiresNext(s, fires[0]) && IsRun(Step(s, w, fires[0], p), w, fires[1..], p))
  }

  /** The state after the steps of a run. */
  function Run(s: State, w: seq<seq<real>>, fires: seq<nat>, p: Params): (s': State)
    requires IsRun(s, w, fires, p)
    ensures WellFormed(s') && |s'.x| == |s.x|
    decreases |fires|
  {
    if fires == [] then s else Run(Step(s, w, fires[0], p), w, fires[1..], p)
  }

  /** The simulated time a run takes: the sum of the timers at which its events fire. */
  function Elapsed(s: State, w: seq<seq<real>>, fires: seq<nat>, p: Params): real
    requires IsRun(s, w, fires, p)
    decreases |fires|
  {
    if fires == [] then 0.0 else s.t[fires[0]] + Elapsed(Step(s, w, fires[0], p), w, fires[1..], p)
  }

  /** The health range and the non-negative timers hold after any number of events. */
  lemma {:induction false} RunInvariant(s: State, w: seq<seq<real>>, fires: seq<nat>, p: Params)
    requires ValidParams(p) && IsRun(s, w, fires, p)
    requires HealthInRange(s.x, p.maxHealth) && TimersNonNegative(s.t)
    ensures HealthInRange(Run(s, w, fires, p).x, p.maxHealth)
    ensures TimersNonNegative(Run(s, w, fires, p).t)
    ensures Elapsed(s, w, fires, p) >= 0.0
    decreases |fires|
  {
    if fires != [] {
      StepInvariant(s, w, fires[0], p);
      RunInvariant(Step(s, w, fires[0], p), w, fires[1..], p);
    }
  }

  /**
   * From the model's initial conditions, every reachable state keeps every health
   * in [0, max_health] and every timer non-negative.
   */
  lemma ReachableInvariant(n: nat, k: nat, w: seq<seq<real>>, fires: seq<nat>, p: Params)
    requires k >= 1 && ValidParams(p)
    requires IsRun(InitialState(n, k, p), w, fires, p)
    ensures HealthInRange(Run(InitialState(n, k, p), w, fires, p).x, p.maxHealth)
    ensures TimersNonNegative(Run(InitialState(n, k, p), w, fires, p).t)
  {
    InitialStateValid(n, k, p);
    RunInvariant(InitialState(n, k, p), w, fires, p);
  }

  /**
   * From the initial state, where all timers equal T, any agent may fire first,
   * after exactly T: the step is nondeterministic exactly where the source leaves
   * the order open.
   */
  lemma InitialAnyAgentFiresFirst(n: nat, k: nat, w: seq<seq<real>>, i: nat, p: Params)
    requires k >= 1 && i < n && ValidWeights(w, n)
    ensures FiresNext(InitialState(n, k, p), i)
    ensures IsRun(InitialState(n, k, p), w, [i], p)
    ensures Elapsed(InitialState(n, k, p), w, [i], p) == p.period
  {
    var s := InitialState(n, k, p);
    assert FiresNext(s, i);
    assert IsRun(Step(s, w, i, p), w, [i][1..], p);
  }
}
