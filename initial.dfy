/**
 * The initial conditions built by `make_model` (generate_model.py, lines 98-104):
 * agent i starts with health max_health / 10 when `i % (1 / prop_infected) == 0`
 * and with 0 otherwise, and every cough timer starts at T.
 *
 * The source computes `1 / prop_infected` and the modulo in floating point; here the
 * period is an integer k >= 1, which is what that expression is when 1 / prop_infected
 * is a whole number.
 */
module Initial {
  import opened AgentState

  /** The starting health of an infected agent. */
  function InfectedHealth(maxHealth: real): real
  {
    maxHealth / 10.0
  }

  /** The health initial conditions `ic_xi`. */
  function InitialHealth(n: nat, k: nat, maxHealth: real): (x: seq<real>)
    requires k >= 1
    ensures |x| == n
    ensures forall i :: 0 <= i < n ==> x[i] == InfectedHealth(maxHealth) || x[i] == 0.0
    ensures forall i :: 0 <= i < n && i % k == 0 ==> x[i] == InfectedHealth(maxHealth)
    ensures forall i :: 0 <= i < n && i % k != 0 ==> x[i] == 0.0
  {
    seq(n, i requires 0 <= i < n => if i % k == 0 then InfectedHealth(maxHealth) else 0.0)
  }

  /** The timer initial conditions `ic_ti`: all the same. */
  function InitialTimers(n: nat, period: real): (t: seq<real>)
    ensures |t| == n
    ensures forall i :: 0 <= i < n ==> t[i] == period
  {
    seq(n, i requires 0 <= i < n => period)
  }

  /** The full initial state `ic`. */
  function InitialState(n: nat, k: nat, p: Params): (s: State)
    requires k >= 1
    ensures WellFormed(s) && |s.x| == n
  {
    State(InitialHealth(n, k, p.maxHealth), InitialTimers(n, p.period))
  }

  /**
   * Agent 0 is always infected (0 % k == 0), every health starts in
   * [0, max_health], and no timer starts below zero.
   */
  lemma InitialStateValid(n: nat, k: nat, p: Params)
    requires k >= 1 && ValidParams(p)
    ensures n > 0 ==> InitialState(n, k, p).x[0] == p.maxHealth / 10.0
    ensures HealthInRange(InitialState(n, k, p).x, p.maxHealth)
    ensures TimersNonNegative(InitialState(n, k, p).t)
  {
  }

  /** The number of entries of `x` equal to `v`. */
  function Count(x: seq<real>, v: real): (c: nat)
    ensures c <= |x|
  {
    if x == [] then 0 else Count(x[..|x| - 1], v) + (if x[|x| - 1] == v then 1 else 0)
  }

  lemma MulAtLeast(d: int, k: int)
    requires d >= 1 && k >= 0
    ensures d * k >= k
  {
    if d > 1 {
      MulAtLeast(d - 1, k);
      assert d * k == (d - 1) * k + k;
    }
  }

  /** Euclidean division is determined by quotient and remainder. */
  lemma DivIs(a: int, k: int, q: int, r: int)
    requires k >= 1 && 0 <= r < k && a == q * k + r
    ensures a / k == q
  {
    var q', r' := a / k, a % k;
    assert a == q' * k + r' && 0 <= r' < k;
    assert (q - q') * k == q * k - q' * k;
    assert (q' - q) * k == q' * k - q * k;
    if q > q' {
      MulAtLeast(q - q', k);
    } else if q < q' {
      MulAtLeast(q' - q, k);
    }
  }

  /** Arithmetic step of the count: one more agent adds one infected exactly when its index is a multiple of k. */
  lemma CeilDivStep(n: nat, k: nat)
    requires k >= 1
    ensures (n + k) / k == (n + k - 1) / k + (if n % k == 0 then 1 else 0)
  {
    var q, r := n / k, n % k;
    DivIs(n + k, k, q + 1, r);
    if r == 0 {
      DivIs(n + k - 1, k, q, k - 1);
    } else {
      DivIs(n + k - 1, k, q + 1, r - 1);
    }
  }

  /**
   * With a positive max_health, exactly ceil(n / k) agents start infected: the
   * indices 0, k, 2k, ... below n.
   */
  lemma {:induction false} InfectedCount(n: nat, k: nat, maxHealth: real)
    requires k >= 1 && maxHealth > 0.0
    ensures Count(InitialHealth(n, k, maxHealth), InfectedHealth(maxHealth)) == (n + k - 1) / k
  {
    if n > 0 {
      var x := InitialHealth(n, k, maxHealth);
      assert x[..n - 1] == InitialHealth(n - 1, k, maxHealth);
      InfectedCount(n - 1, k, maxHealth);
      CeilDivStep(n - 1, k);
    } else {
      DivIs(k - 1, k, 0, k - 1);
    }
  }
}
