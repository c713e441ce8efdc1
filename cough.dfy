/**
 * The discrete cough mapping of agent i (generate_model.py, lines 123-131), applied
 * when agent i's timer reaches zero:
 *   - t_i := T;
 *   - every j != i whose weight foos[i][j] exceeds the threshold gets
 *     x_j := min(foos[i][j] * x_i * 0.5 + x_j, max_health);
 *   - every other state variable is unchanged.
 * All right-hand sides read the state from before the event.
 */
module Cough {
  import opened AgentState
  import opened Spatial

  /** The fraction of the coughing agent's health passed on, scaled by the weight. */
  const SpreadFactor: real := 0.5

  /** A weight matrix for n agents. */
  predicate ValidWeights(w: seq<seq<real>>, n: nat)
  {
    IsSquare(w, n)
  }

  /** The set of agents written by agent i's mapping: the keys of `spreads[i]`. */
  function Targets(w: seq<seq<real>>, i: nat): (r: set<nat>)
    requires i < |w| && ValidWeights(w, |w|)
    ensures forall j: int :: j in r <==> 0 <= j < |w| && j != i && w[i][j] > Threshold
  {
    set j: nat | j < |w| && j != i && w[i][j] > Threshold
  }

  /**
   * For weights built from distances, agent j is a key of spreads[i] exactly when it
   * is another agent closer than 10 - Epsilon; with symmetric distances, interaction
   * is symmetric.
   */
  lemma TargetsByDistance(dist: seq<seq<real>>, i: nat, j: nat)
    requires ValidDistances(dist) && Symmetric(dist) && i < |dist| && j < |dist|
    ensures j in Targets(Weights(dist), i) <==> (j != i && dist[i][j] + Epsilon < 10.0)
    ensures j in Targets(Weights(dist), i) <==> i in Targets(Weights(dist), j)
  {
    if i != j {
      InteractsIff(dist[i][j]);
      InteractsIff(dist[j][i]);
    }
  }

  /** The new value of x_j when agent i, with health xi, coughs on it with weight wij. */
  function Infect(wij: real, xi: real, xj: real, maxHealth: real): (r: real)
    ensures r <= maxHealth
    ensures wij >= 0.0 && xi >= 0.0 && xj <= maxHealth ==> xj <= r
  {
    Min(wij * xi * SpreadFactor + xj, maxHealth)
  }

  /** The simultaneous health update of agent i's mapping. */
  function CoughHealth(x: seq<real>, w: seq<seq<real>>, i: nat, maxHealth: real): (x': seq<real>)
    requires i < |x| && ValidWeights(w, |x|)
    ensures |x'| == |x|
  {
    seq(|x|, j requires 0 <= j < |x| =>
      if j != i && w[i][j] > Threshold then Infect(w[i][j], x[i], x[j], maxHealth) else x[j])
  }

  /** The whole mapping `maps[i]`, as a function of the pre-event state. */
  function CoughMap(s: State, w: seq<seq<real>>, i: nat, p: Params): (s': State)
    requires WellFormed(s) && i < |s.x| && ValidWeights(w, |s.x|)
    ensures WellFormed(s')
  {
    State(CoughHealth(s.x, w, i, p.maxHealth), s.t[i := p.period])
  }

  /**
   * What the mapping writes: timer i becomes exactly T, each target j gets the
   * saturating infection, and nothing else changes -- not x_i, not any other timer,
   * not any health whose weight is at or below the threshold.
   */
  lemma CoughMapEffect(s: State, w: seq<seq<real>>, i: nat, p: Params)
    requires WellFormed(s) && i < |s.x| && ValidWeights(w, |s.x|)
    ensures CoughMap(s, w, i, p).t[i] == p.period
    ensures forall k :: 0 <= k < |s.t| && k != i ==> CoughMap(s, w, i, p).t[k] == s.t[k]
    ensures CoughMap(s, w, i, p).x[i] == s.x[i]
    ensures forall j :: j in Targets(w, i) ==>
              CoughMap(s, w, i, p).x[j] == Min(w[i][j] * s.x[i] * SpreadFactor + s.x[j], p.maxHealth)
    ensures forall j :: 0 <= j < |s.x| && j !in Targets(w, i) ==> CoughMap(s, w, i, p).x[j] == s.x[j]
  {
  }

  /** Only keys in {t_i} and spreads[i] can change. */
  lemma CoughMapFrame(s: State, w: seq<seq<real>>, i: nat, p: Params)
    requires WellFormed(s) && i < |s.x| && ValidWeights(w, |s.x|)
    ensures forall j :: 0 <= j < |s.x| && CoughMap(s, w, i, p).x[j] != s.x[j] ==> j in Targets(w, i)
    ensures forall k :: 0 <= k < |s.t| && CoughMap(s, w, i, p).t[k] != s.t[k] ==> k == i
  {
  }

  /**
   * A cough only makes others sicker and never beyond max_health: when x_i >= 0 and
   * every health is at most max_health, each new health lies between the old one and
   * max_health.
   */
  lemma CoughMonotone(x: seq<real>, w: seq<seq<real>>, i: nat, maxHealth: real)
    requires i < |x| && ValidWeights(w, |x|)
    requires x[i] >= 0.0
    requires forall k :: 0 <= k < |x| ==> x[k] <= maxHealth
    ensures forall j :: 0 <= j < |x| ==> x[j] <= CoughHealth(x, w, i, maxHealth)[j] <= maxHealth
  {
  }

  /** The mapping keeps every health in [0, max_health]. */
  lemma CoughPreservesRange(s: State, w: seq<seq<real>>, i: nat, p: Params)
    requires WellFormed(s) && i < |s.x| && ValidWeights(w, |s.x|)
    requires HealthInRange(s.x, p.maxHealth)
    ensures HealthInRange(CoughMap(s, w, i, p).x, p.maxHealth)
  {
    CoughMonotone(s.x, w, i, p.maxHealth);
  }

  /**
   * The weight matrix's diagonal is never read: two matrices that agree off the
   * diagonal give the same mapping.
   */
  lemma CoughIgnoresDiagonal(s: State, w1: seq<seq<real>>, w2: seq<seq<real>>, i: nat, p: Params)
    requires WellFormed(s) && i < |s.x| && ValidWeights(w1, |s.x|) && ValidWeights(w2, |s.x|)
    requires forall a, b :: 0 <= a < |s.x| && 0 <= b < |s.x| && a != b ==> w1[a][b] == w2[a][b]
    ensures CoughMap(s, w1, i, p) == CoughMap(s, w2, i, p)
  {
    assert CoughHealth(s.x, w1, i, p.maxHealth) == CoughHealth(s.x, w2, i, p.maxHealth);
  }

  // ---------------------------------------------------------------------------
  // Order independence: the spreads applied one key at a time.
  // ---------------------------------------------------------------------------

  /** One entry of `spreads[i]` applied on its own: only x_j is written. */
  function SpreadTo(x: seq<real>, w: seq<seq<real>>, i: nat, j: nat, maxHealth: real): (x': seq<real>)
    requires i < |x| && j < |x| && ValidWeights(w, |x|)
    ensures |x'| == |x|
  {
    x[j := Infect(w[i][j], x[i], x[j], maxHealth)]
  }

  /** The entries listed in `order` applied one after the other, each reading the current state. */
  function SpreadInOrder(x: seq<real>, w: seq<seq<real>>, i: nat, order: seq<nat>, maxHealth: real): (x': seq<real>)
    requires i < |x| && ValidWeights(w, |x|)
    requires forall k :: 0 <= k < |order| ==> order[k] < |x|
    ensures |x'| == |x|
    decreases |order|
  {
    if order == [] then x
    else SpreadInOrder(SpreadTo(x, w, i, order[0], maxHealth), w, i, order[1..], maxHealth)
  }

  /** The entries of `order` are distinct agents other than i. */
  predicate DistinctOthers(order: seq<nat>, i: nat, n: nat)
  {
    (forall k :: 0 <= k < |order| ==> order[k] < n && order[k] != i) &&
    (forall a, b :: 0 <= a < b < |order| ==> order[a] != order[b])
  }

  /**
   * Applying the entries one after the other in the listed order gives, for every
   * listed agent, the infection computed from the pre-event values, and leaves the
   * others alone: since x_i is never written and each x_j is written once, no update
   * sees another's result.
   */
  lemma {:induction false} SpreadInOrderIsSimultaneous(x: seq<real>, w: seq<seq<real>>, i: nat, order: seq<nat>, maxHealth: real)
    requires i < |x| && ValidWeights(w, |x|)
    requires DistinctOthers(order, i, |x|)
    ensures forall j :: 0 <= j < |x| && j in order ==>
              SpreadInOrder(x, w, i, order, maxHealth)[j] == Infect(w[i][j], x[i], x[j], maxHealth)
    ensures forall j :: 0 <= j < |x| && j !in order ==> SpreadInOrder(x, w, i, order, maxHealth)[j] == x[j]
    decreases |order|
  {
    if order != [] {
      var j0 := order[0];
      var y := SpreadTo(x, w, i, j0, maxHealth);
      var rest := order[1..];
      assert DistinctOthers(rest, i, |x|);
      SpreadInOrderIsSimultaneous(y, w, i, rest, maxHealth);
      assert y[i] == x[i];
      assert j0 !in rest by {
        forall k | 0 <= k < |rest| ensures rest[k] != j0 {
          assert rest[k] == order[k + 1];
        }
      }
      forall j | 0 <= j < |x| && j in order
        ensures SpreadInOrder(x, w, i, order, maxHealth)[j] == Infect(w[i][j], x[i], x[j], maxHealth)
      {
        if j != j0 {
          assert j in rest;
        }
      }
    }
  }

  /**
   * Order independence: any listing of exactly the targets of agent i, applied one
   * key at a time, gives the simultaneous mapping.
   */
  lemma SpreadAnyOrder(x: seq<real>, w: seq<seq<real>>, i: nat, order: seq<nat>, maxHealth: real)
    requires i < |x| && ValidWeights(w, |x|)
    requires DistinctOthers(order, i, |x|)
    requires forall j :: j in order <==> j in Targets(w, i)
    ensures SpreadInOrder(x, w, i, order, maxHealth) == CoughHealth(x, w, i, maxHealth)
  {
    SpreadInOrderIsSimultaneous(x, w, i, order, maxHealth);
  }

  /** Consequently two such listings, whatever their order, end in the same healths. */
  lemma SpreadOrdersAgree(x: seq<real>, w: seq<seq<real>>, i: nat, o1: seq<nat>, o2: seq<nat>, maxHealth: real)
    requires i < |x| && ValidWeights(w, |x|)
    requires DistinctOthers(o1, i, |x|) && DistinctOthers(o2, i, |x|)
    requires forall j :: j in o1 <==> j in Targets(w, i)
    requires forall j :: j in o2 <==> j in Targets(w, i)
    ensures SpreadInOrder(x, w, i, o1, maxHealth) == SpreadInOrder(x, w, i, o2, maxHealth)
  {
    SpreadAnyOrder(x, w, i, o1, maxHealth);
    SpreadAnyOrder(x, w, i, o2, maxHealth);
  }

  // ---------------------------------------------------------------------------
  // Saturation under repeated coughs.
  // ---------------------------------------------------------------------------

  /** The healths after the agents listed in `coughers` cough one after the other. */
  function CoughAll(x: seq<real>, w: seq<seq<real>>, coughers: seq<nat>, maxHealth: real): (x': seq<real>)
    requires ValidWeights(w, |x|)
    requires forall k :: 0 <= k < |coughers| ==> coughers[k] < |x|
    ensures |x'| == |x|
    decreases |coughers|
  {
    if coughers == [] then x
    else CoughAll(CoughHealth(x, w, coughers[0], maxHealth), w, coughers[1..], maxHealth)
  }

  /**
   * Saturation: starting from healths in [0, max_health], the range is kept by any
   * number of cough mappings, and an agent already at max_health stays there.
   */
  lemma {:induction false} CoughAllSaturates(x: seq<real>, w: seq<seq<real>>, coughers: seq<nat>, maxHealth: real, j: nat)
    requires ValidWeights(w, |x|)
    requires forall k :: 0 <= k < |coughers| ==> coughers[k] < |x|
    requires HealthInRange(x, maxHealth)
    requires j < |x|
    ensures HealthInRange(CoughAll(x, w, coughers, maxHealth), maxHealth)
    ensures x[j] == maxHealth ==> CoughAll(x, w, coughers, maxHealth)[j] == maxHealth
    decreases |coughers|
  {
    if coughers != [] {
      var y := CoughHealth(x, w, coughers[0], maxHealth);
      CoughMonotone(x, w, coughers[0], maxHealth);
      assert HealthInRange(y, maxHealth);
      CoughAllSaturates(y, w, coughers[1..], maxHealth, j);
    }
  }

  /**
   * Two agents at distance 1, the first with health 10: its cough reaches the
   * second (the weight 1 / (1 + Epsilon) exceeds the threshold) and raises that
   * health by the weight times 5, capped at 100.
   */
  lemma TwoAgentScenario(x1: real)
    requires 0.0 <= x1 <= 100.0
    ensures Targets(Weights([[0.0, 1.0], [1.0, 0.0]]), 0) == {1}
    ensures CoughHealth([10.0, x1], Weights([[0.0, 1.0], [1.0, 0.0]]), 0, 100.0)
              == [10.0, Min(Weight(1.0) * 5.0 + x1, 100.0)]
  {
    var dist := [[0.0, 1.0], [1.0, 0.0]];
    var w := Weights(dist);
    assert w[0][1] == Weight(1.0);
    InteractsIff(1.0);
    assert Targets(w, 0) == {1};
    assert Weight(1.0) * 10.0 * SpreadFactor == Weight(1.0) * 5.0;
  }

  // ---------------------------------------------------------------------------
  // The mapping as an in-place update of the state arrays.
  // ---------------------------------------------------------------------------

  /**
   * Agent i's mapping applied in place to the health array `x` and the timer array
   * `t`, visiting the agents in index order and reading x_i from before the event.
   * The result is the simultaneous mapping.
   */
  method ApplyCough(x: array<real>, t: array<real>, w: seq<seq<real>>, i: nat, p: Params)
    requires x != t
    requires x.Length == t.Length && i < x.Length && ValidWeights(w, x.Length)
    modifies x, t
    ensures x[..] == CoughHealth(old(x[..]), w, i, p.maxHealth)
    ensures t[..] == old(t[..])[i := p.period]
    ensures CoughMap(State(old(x[..]), old(t[..])), w, i, p) == State(x[..], t[..])
  {
    ghost var x0 := x[..];
    var xi := x[i];
    var j := 0;
    while j < x.Length
      invariant 0 <= j <= x.Length
      invariant forall k :: 0 <= k < j ==> x[k] == CoughHealth(x0, w, i, p.maxHealth)[k]
      invariant forall k :: j <= k < x.Length ==> x[k] == x0[k]
      invariant xi == x0[i]
      invariant t[..] == old(t[..])
    {
      if j != i && w[i][j] > Threshold {
        x[j] := Infect(w[i][j], xi, x[j], p.maxHealth);
      }
      j := j + 1;
    }
    assert x[..] == CoughHealth(x0, w, i, p.maxHealth);
    t[i] := p.period;
  }
}
