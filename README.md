# Hybrid disease-spread automaton, modelled in Dafny

This project models the rule set that `make_model` in `generate_model.py` assembles into a
PyDSTool hybrid automaton. N agents each carry a health `x_i` (0 is healthy, `max_health` is
maximally sick) and a cough timer `t_i`. Between events the health of every positive agent decays at
rate `alpha` and every timer counts down at unit rate. When agent i's timer reaches zero, its cough
mapping resets `t_i` to the period `T`. It also raises the health of every other agent whose proximity
weight `1 / (d(i, j) + 1e-8)` exceeds 0.1, by `weight * x_i * 0.5`, capped at `max_health`. Two global
detectors, written as `1 - product of indicators`, watch for "every agent above 95" and "every
agent below 3".

Files, one module each:

- `state.dfy` (`AgentState`): the state of 2N reals, the parameters, and the health-range and timer invariants.
- `spatial.dfy` (`Spatial`): the proximity weight of one pair and the nested loop that fills the weight matrix.
- `flow.dfy` (`Flow`): the derivative, and the exact solution of its equations over an interval.
- `cough.dfy` (`Cough`): the cough mapping. It comes as a pure simultaneous update, as the spreads applied
  one key at a time in any order, and as an in-place update of a health array and a timer array.
- `events.dfy` (`Events`): the `all_sick` and `all_healthy` expressions.
- `initial.dfy` (`Initial`): the initial conditions.
- `hybrid.dfy` (`Hybrid`): an abstract event step. The flow runs until the smallest timer reaches zero,
  then the mapping of an agent holding that smallest timer is applied. A run is a sequence of such steps.

The functions `Flow.Evolve`, `Cough.CoughHealth`, `Cough.CoughMap`, `Cough.SpreadTo`,
`Cough.SpreadInOrder`, `Cough.CoughAll`, `Hybrid.Step` and `Hybrid.Run` are the specification functions. The lemmas in the table state what they mean.

Two behaviours are modelled as the code has them, which differs from a reading of the system as an
integrator with a fixed event order and a stopping `all_sick` event:

- Simultaneous timer events: the code fixes no tie-break between agents whose timers reach zero
  together. `Hybrid.Step` accepts any agent whose timer is minimal; no lowest-index-first rule is assumed.
- The `all_sick` termination entry in the hybrid model is commented out (generate_model.py:141). Both
  global detectors are still created with `term=True`. Whether the integrator stops there is PyDSTool
  behaviour, which is not modelled.

## Model

| member | source | states |
|---|---|---|
| `Spatial.Weight` | generate_model.py:43 | for a distance d >= 0, the weight w satisfies w * (d + 1e-8) = 1 and 0 < w <= 1e8 |
| `Spatial.WeightAntitone` | generate_model.py:43 | closer agents have larger weights; strictly larger for strictly smaller distance |
| `Spatial.InteractsIff` | generate_model.py:123-124 | a pair interacts (weight > 0.1) exactly when d + 1e-8 < 10 |
| `Spatial.ComputeWeights` | generate_model.py:37-44 | the nested loop writes foos[i,j] = 1/(d(i,j)+1e-8) for every i != j into a fresh N×N array; those entries are positive, at most 1e8, and symmetric when the distances are |
| `Spatial.Weights` | generate_model.py:37-44 | the weight matrix as a value: square N×N; each off-diagonal entry is Weight(d(i,j)), the same entry ComputeWeights writes, positive and at most 1e8; symmetric for symmetric distances |
| `Flow.Derivative` | generate_model.py:94-96 | a health's rate is negative exactly when the health is positive (and alpha > 0); every timer rate is negative |
| `Flow.EvolveFollowsDerivative` | generate_model.py:94-95 | the exact solution moves each health by h times its rate until it reaches 0, then rests at 0 where the rate is 0; each timer moves by h times its rate -1 |
| `Flow.EvolveBounds` | generate_model.py:94-95 | between events healths never increase, non-negative healths stay non-negative, and timers fall by exactly the elapsed time |
| `Flow.EvolvePreservesRange` | generate_model.py:94 | the flow keeps every health in [0, max_health] |
| `Flow.EvolveCompose` | generate_model.py:94-95 | the solution is a flow: evolving for h1 then h2 equals evolving for h1 + h2 |
| `Flow.EvolveZero` | generate_model.py:94-95 | evolving for zero time leaves the state unchanged |
| `Cough.TargetsByDistance` | generate_model.py:123-124 | for weights built from distances, j is a key of spreads[i] exactly when j != i and d(i,j) + 1e-8 < 10; with symmetric distances, j is a key of spreads[i] exactly when i is a key of spreads[j] |
| `Cough.Infect` | generate_model.py:123 | the new x_j never exceeds max_health, and for non-negative weight and x_i and x_j <= max_health it is at least x_j |
| `Cough.CoughMapEffect` | generate_model.py:123-128 | the mapping sets t_i to exactly T and x_j = min(w*x_i*0.5 + x_j, max_health) for each target; x_i, other timers and non-targets keep their values |
| `Cough.CoughMapFrame` | generate_model.py:123-128 | only keys in {t_i} and spreads[i] can change value |
| `Cough.CoughMonotone` | generate_model.py:123-124 | with x_i >= 0 and healths at most max_health, every new health lies between its old value and max_health |
| `Cough.CoughPreservesRange` | generate_model.py:123 | the mapping keeps every health in [0, max_health] |
| `Cough.CoughIgnoresDiagonal` | generate_model.py:123-124 | weight matrices that agree off the diagonal give the same mapping; the unwritten diagonal is never read |
| `Cough.SpreadInOrderIsSimultaneous` | generate_model.py:123-124 | applying distinct spread entries (none for i itself) one after another gives each listed agent the infection computed from pre-event values and leaves every other agent unchanged |
| `Cough.SpreadAnyOrder` | generate_model.py:123-124 | applying exactly the targets one key at a time, in any order, equals the simultaneous mapping |
| `Cough.SpreadOrdersAgree` | generate_model.py:123-124 | any two orders of the spread updates end in the same healths |
| `Cough.CoughAllSaturates` | generate_model.py:123 | under any sequence of cough mappings, healths stay in [0, max_health], and an agent at max_health stays at max_health |
| `Cough.TwoAgentScenario` | generate_model.py:123-124 | two agents at distance 1 with the cougher at 10: the other agent is a target and gets min(W*5 + x_1, 100) with W = 1/(1+1e-8); the cougher is unchanged |
| `Cough.ApplyCough` | generate_model.py:123-131 | the in-place loop over the health and timer arrays reads x_i before the event; it yields the simultaneous mapping, with t_i = T and the other timers unchanged |
| `Events.SickProduct` | generate_model.py:65 | the product of if(x_i>95,1,0) is 0 or 1, and is 1 exactly when every health exceeds 95 |
| `Events.HealthyProduct` | generate_model.py:78 | the product of if(x_i<3,1,0) is 0 or 1, and is 1 exactly when every health is below 3 |
| `Events.AllSickExpr` | generate_model.py:63-73 | the all_sick expression takes only the values 0 and 1 |
| `Events.AllHealthyExpr` | generate_model.py:76-86 | the all_healthy expression takes only the values 0 and 1 |
| `Events.AllSickIff` | generate_model.py:65 | all_sick is 0 exactly when every x_i > 95 |
| `Events.AllHealthyIff` | generate_model.py:78 | all_healthy is 0 exactly when every x_i < 3 |
| `Events.NotBothZero` | generate_model.py:65-78 | for a non-empty population (N > 0), the two detectors are never both at zero |
| `Initial.InitialHealth` | generate_model.py:100-101 | every starting health is max_health/10 or 0; it is max_health/10 when i % k == 0, and 0 otherwise |
| `Initial.InitialStateValid` | generate_model.py:100-104 | agent 0 starts infected, healths start in [0, max_health], and timers start non-negative |
| `Initial.InfectedCount` | generate_model.py:100-101 | exactly ceil(N / k) agents start with health max_health/10 |
| `Hybrid.StepInvariant` | generate_model.py:139-142 | one event step keeps healths in [0, max_health] and timers non-negative; the firing timer becomes exactly T, and every other timer falls by the elapsed time |
| `Hybrid.RunInvariant` | generate_model.py:139-147 | after any sequence of event steps, healths stay in [0, max_health], timers stay non-negative, and the elapsed time is non-negative |
| `Hybrid.ReachableInvariant` | generate_model.py:100-142 | every state reachable from the initial conditions keeps healths in [0, max_health] and timers non-negative |
| `Hybrid.InitialAnyAgentFiresFirst` | generate_model.py:100-142 | from the initial state all timers are equal, so any agent may fire first, after exactly T |

## Left out

- Floating point: healths, timers and weights are Dafny's exact `real`, so floating point rounding is not modelled.
- Hybrid.Step: assumes every timer zero-crossing is caught. It also assumes tied timers all fire at the
  same instant, one after another, each cough reading the healths the previous one left.
  `Hybrid.RunInvariant`'s non-negative timers rest on that assumption. How PyDSTool handles
  simultaneous terminal events is not visible in the code.
- PyDSTool numerics (generate_model.py:112-115, 139-150): the Vode integrator, zero-crossing detection
  with `eventtol` and `eventdelay`, C code generation and `HybridModel` assembly. These are foreign library
  code with floating point step control. The model replaces them with the exact inter-event solution
  and the abstract step in `Hybrid`.
- Random positions and the Euclidean norm (generate_model.py:34, 43): they depend on the random number
  generator and `sqrt`. Distances are an input instead: a square table, non-negative off the diagonal.
- The diagonal of `foos` (allocated with `np.empty` and never written): `Spatial.ComputeWeights` says
  nothing about it, and `Cough.CoughIgnoresDiagonal` shows the rules never read it.
- Printing, timing and pickling (generate_model.py:27, 45, 155-166): I/O.
- `params.py` is not part of this model. `alpha`, `T` and `max_health` are parameters. The
  infected proportion is the integer period k = 1 / prop_infected.
- Initial.InitialHealth: the source evaluates `i % (1/prop_infected)` in floating point. The model
  uses an integer period k >= 1, so a proportion whose reciprocal is not a whole number is not modelled.
- Events.AllSickExpr, Events.AllHealthyExpr: for N = 0 the source would build the malformed
  expression "1 - ". The model uses the empty product 1, so both expressions are then 0.
- simulate.py and graphics.py: batch runs, random timers, sound, file output and plotting. The
  health initial-condition rule in simulate.py:42-43 is the same as generate_model.py:100-101.
- Integration failure, and the sampled trajectory output of the integrator: these belong to the
  numerical integrator, which is not modelled.
