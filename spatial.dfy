/**
 * Proximity weights between agents (generate_model.py, lines 37-44).
 * Agent positions and the Euclidean norm are not modelled: the pairwise
 * distances are an input, non-negative as a norm is.
 */
module Spatial {

  /** The constant added to every distance so that coincident agents do not divide by zero. */
  const Epsilon: real := 0.00000001

  /** The largest weight any pair can have: 1 / Epsilon. */
  const MaxWeight: real := 100000000.0

  /** Weights at or below this value produce no spread (generate_model.py, line 124). */
  const Threshold: real := 0.1

  /** The proximity weight of two distinct agents at distance `d`. */
  function Weight(d: real): (w: real)
    requires d >= 0.0
    ensures w * (d + Epsilon) == 1.0
    ensures 0.0 < w <= MaxWeight
  {
    var den := d + Epsilon;
    var w := 1.0 / den;
    assert w * den == 1.0;
    assert w * Epsilon <= w * den;
    w
  }

  /** A weight is larger for closer agents. */
  lemma WeightAntitone(d1: real, d2: real)
    requires 0.0 <= d1 <= d2
    ensures Weight(d2) <= Weight(d1)
    ensures d1 < d2 ==> Weight(d2) < Weight(d1)
  {
    var w1, w2 := Weight(d1), Weight(d2);
    var c1, c2 := d1 + Epsilon, d2 + Epsilon;
    // w2 = w1 * (w2 * c1), and w2 * c1 <= w2 * c2 = 1
    assert w1 * c1 == 1.0 && w2 * c2 == 1.0;
    var u := w2 * c1;
    assert u <= 1.0 by { assert w2 * c2 - w2 * c1 == w2 * (c2 - c1) >= 0.0; }
    assert w2 == w1 * u by {
      assert w2 * (w1 * c1) == w2 * 1.0;
      assert w2 * (w1 * c1) == w1 * (w2 * c1);
    }
    assert w1 * u <= w1 by { assert w1 - w1 * u == w1 * (1.0 - u) >= 0.0; }
    if d1 < d2 {
      assert u < 1.0 by { assert w2 * c2 - w2 * c1 == w2 * (c2 - c1) > 0.0; }
      assert w1 * u < w1 by { assert w1 - w1 * u == w1 * (1.0 - u) > 0.0; }
    }
  }

  /**
   * Two distinct agents interact (their weight exceeds the threshold) exactly when
   * they are closer than 10 - Epsilon.
   */
  lemma InteractsIff(d: real)
    requires d >= 0.0
    ensures Weight(d) > Threshold <==> d + Epsilon < 10.0
  {
    var w := Weight(d);
    if d + Epsilon < 10.0 {
      assert w * 10.0 > w * (d + Epsilon);
    } else {
      assert w * 10.0 <= w * (d + Epsilon);
    }
  }

  /** `m` is an n×n matrix. */
  predicate IsSquare(m: seq<seq<real>>, n: nat)
  {
    |m| == n && forall i :: 0 <= i < n ==> |m[i]| == n
  }

  /** A distance table as a norm produces it: square, non-negative off the diagonal. */
  predicate ValidDistances(dist: seq<seq<real>>)
  {
    IsSquare(dist, |dist|) &&
    forall i, j :: 0 <= i < |dist| && 0 <= j < |dist| && i != j ==> dist[i][j] >= 0.0
  }

  predicate Symmetric(m: seq<seq<real>>)
    requires IsSquare(m, |m|)
  {
    forall i, j :: 0 <= i < |m| && 0 <= j < |m| ==> m[i][j] == m[j][i]
  }

  /**
   * The weight matrix `foos` filled by the nested loop of `make_model`. Only the
   * off-diagonal entries are written; the diagonal keeps whatever the freshly
   * allocated matrix held (the source allocates it with np.empty) and is never read.
   * The weights are positive, bounded by 1 / Epsilon, and symmetric when the
   * distances are.
   */
  method ComputeWeights(dist: seq<seq<real>>) returns (foos: array2<real>)
    requires ValidDistances(dist)
    ensures fresh(foos)
    ensures foos.Length0 == |dist| && foos.Length1 == |dist|
    ensures forall i, j :: 0 <= i < |dist| && 0 <= j < |dist| && i != j ==>
              foos[i, j] == Weight(dist[i][j])
    ensures forall i, j :: 0 <= i < |dist| && 0 <= j < |dist| && i != j ==>
              0.0 < foos[i, j] <= MaxWeight
    ensures Symmetric(dist) ==>
              forall i, j :: 0 <= i < |dist| && 0 <= j < |dist| && i != j ==> foos[i, j] == foos[j, i]
  {
    var n := |dist|;
    foos := new real[n, n];
    var i := 0;
    while i < n
      invariant 0 <= i <= n
      invariant forall a, b :: 0 <= a < i && 0 <= b < n && a != b ==> foos[a, b] == Weight(dist[a][b])
    {
      var j := 0;
      while j < n
        invariant 0 <= j <= n
        invariant forall a, b :: 0 <= a < i && 0 <= b < n && a != b ==> foos[a, b] == Weight(dist[a][b])
        invariant forall b :: 0 <= b < j && i != b ==> foos[i, b] == Weight(dist[i][b])
      {
        if i != j {
          foos[i, j] := Weight(dist[i][j]);
        }
        j := j + 1;
      }
      i := i + 1;
    }
  }

  /**
   * The weight matrix as a value: the off-diagonal entries are the weights; the
   * diagonal holds 0, a placeholder that no rule reads. Every off-diagonal weight is
   * positive and at most 1 / Epsilon; symmetric distances give symmetric weights.
   */
  function Weights(dist: seq<seq<real>>): (w: seq<seq<real>>)
    requires ValidDistances(dist)
    ensures IsSquare(w, |dist|)
    ensures forall i, j :: 0 <= i < |dist| && 0 <= j < |dist| && i != j ==> w[i][j] == Weight(dist[i][j])
    ensures forall i, j :: 0 <= i < |dist| && 0 <= j < |dist| && i != j ==> 0.0 < w[i][j] <= MaxWeight
    ensures Symmetric(dist) ==> Symmetric(w)
  {
    seq(|dist|, i requires 0 <= i < |dist| =>
      seq(|dist|, j requires 0 <= j < |dist| => if i == j then 0.0 else Weight(dist[i][j])))
  }
}
