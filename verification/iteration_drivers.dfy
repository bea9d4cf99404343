/** The control logic of the two iteration drivers of openmdao.lib:
    IterateUntil's counter, and FixedPointIterator's configuration check
    and iteration bound. The numerics (parameter values, residual norms,
    the tolerance) are abstracted into "has it converged" and "is a stop
    condition satisfied" inputs. */
module IterationDrivers {
  import opened Results

  // ---------------------------------------------------------------------
  // IterateUntil

  /** The driver's counters. `iterations` is the attribute `start_iteration`
      writes, which nothing else reads; None until it has been written. */
  datatype IterateUntil = IterateUntil(
    maxIterations: int,
    iteration: int,
    runAtLeastOnce: bool,
    iterations: Option<int>)

  /** The declared defaults: at most 10 iterations, counter at 0, and the
      first iteration ignores the stop conditions. */
  function NewIterateUntil(): IterateUntil {
    IterateUntil(10, 0, true, None)
  }

  /** `continue_iteration`: whether to run one more iteration, and the
      counters after asking. `stopNow` is what the stop conditions report;
      they are consulted only when the run-at-least-once rule does not
      decide. */
  function ContinueIteration(d: IterateUntil, stopNow: bool): (r: (IterateUntil, bool))
    ensures r.1 ==> r.0 == d.(iteration := d.iteration + 1)
    ensures !r.1 ==> r.0 == d
    ensures d.iteration < 1 && d.runAtLeastOnce ==> r.1
    ensures !(d.iteration < 1 && d.runAtLeastOnce) && stopNow ==> !r.1
    ensures !stopNow ==> (r.1 <==> d.iteration < d.maxIterations || (d.iteration < 1 && d.runAtLeastOnce))
  {
    if d.iteration < 1 && d.runAtLeastOnce then (d.(iteration := d.iteration + 1), true)
    else if stopNow then (d, false)
    else if d.iteration < d.maxIterations then (d.(iteration := d.iteration + 1), true)
    else (d, false)
  }

  /** The most the counter can reach from `d`: no step takes it past the
      iteration limit, past 1 under the run-at-least-once rule, or past
      where it already is. */
  function Ceiling(d: IterateUntil): int {
    var m := if d.maxIterations > d.iteration then d.maxIterations else d.iteration;
    if d.runAtLeastOnce && m < 1 then 1 else m
  }

  lemma ContinueStaysUnderCeiling(d: IterateUntil, stopNow: bool)
    ensures var d' := ContinueIteration(d, stopNow).0;
      d'.iteration <= Ceiling(d) && Ceiling(d') == Ceiling(d)
  {
  }

  /** Repeated asking, as a driver's loop does, with `stopAt(i)` the stop
      conditions' answer when the counter is at `i`; the number of
      iterations granted and the final counters. */
  function Granted(d: IterateUntil, stopAt: int -> bool): (r: (nat, IterateUntil))
    decreases Ceiling(d) - d.iteration
    ensures r.1 == d.(iteration := r.1.iteration)
    ensures r.1.iteration == d.iteration + r.0
  {
    var (d', go) := ContinueIteration(d, stopAt(d.iteration));
    if !go then (0, d)
    else
      ContinueStaysUnderCeiling(d, stopAt(d.iteration));
      var (n, last) := Granted(d', stopAt);
      (n + 1, last)
  }

  /** Counted from any state, no run of asks takes the counter past its
      ceiling. */
  lemma {:induction false} GrantedBounded(d: IterateUntil, stopAt: int -> bool)
    ensures Granted(d, stopAt).1.iteration <= Ceiling(d)
    decreases Ceiling(d) - d.iteration
  {
    var (d', go) := ContinueIteration(d, stopAt(d.iteration));
    if go {
      ContinueStaysUnderCeiling(d, stopAt(d.iteration));
      GrantedBounded(d', stopAt);
    }
  }

  /** From a zero counter with stop conditions that never fire, the driver
      runs exactly `maxIterations` iterations, or one when that is below
      one and the first iteration is forced. */
  lemma {:induction false} GrantedWithoutStops(d: IterateUntil, stopAt: int -> bool)
    requires 0 <= d.iteration
    requires forall i :: !stopAt(i)
    ensures var top := if d.runAtLeastOnce && d.iteration < 1 && d.maxIterations < 1 then 1
      else if d.maxIterations > d.iteration then d.maxIterations else d.iteration;
      Granted(d, stopAt).0 == top - d.iteration
    decreases Ceiling(d) - d.iteration
  {
    var (d', go) := ContinueIteration(d, stopAt(d.iteration));
    if go {
      ContinueStaysUnderCeiling(d, stopAt(d.iteration));
      GrantedWithoutStops(d', stopAt);
    }
  }

  /** A stop condition satisfied at the start ends the loop before any
      iteration, unless the first iteration is forced. */
  lemma StopBeforeFirst(d: IterateUntil, stopAt: int -> bool)
    requires stopAt(d.iteration) && !(d.iteration < 1 && d.runAtLeastOnce)
    ensures Granted(d, stopAt) == (0, d)
  {
  }

  /** `start_iteration` as written: it writes `iterations`, a name nothing
      reads, so the counter keeps the value the last execution left. */
  function StartIteration(d: IterateUntil): (r: IterateUntil)
    ensures r.iteration == d.iteration && r.iterations == Some(0)
  {
    d.(iterations := Some(0))
  }

  /** A second execution of a driver that has used up its ten iterations
      runs no iteration at all. */
  lemma SecondExecutionRunsNothing()
    ensures var first := Granted(StartIteration(NewIterateUntil()), _ => false);
      first.0 == 10 && Granted(StartIteration(first.1), _ => false).0 == 0
  {
    var stopAt: int -> bool := _ => false;
    GrantedWithoutStops(StartIteration(NewIterateUntil()), stopAt);
    var first := Granted(StartIteration(NewIterateUntil()), stopAt);
    assert first.1.iteration == 10;
    var again := StartIteration(first.1);
    assert ContinueIteration(again, false) == (again, false);
  }

  /** `start_iteration` resetting the counter it evidently means: every
      execution starts from zero. */
  function StartIterationFixed(d: IterateUntil): (r: IterateUntil)
    ensures r.iteration == 0
    ensures r.(iteration := d.iteration) == d
  {
    d.(iteration := 0)
  }

  /** With the reset, every execution without stop conditions runs the
      same number of iterations, whatever the previous one left behind. */
  lemma EveryExecutionRunsAgain(d: IterateUntil, stopAt: int -> bool)
    requires forall i :: !stopAt(i)
    ensures Granted(StartIterationFixed(d), stopAt).0 ==
      if d.maxIterations >= 1 then d.maxIterations else if d.runAtLeastOnce then 1 else 0
  {
    GrantedWithoutStops(StartIterationFixed(d), stopAt);
  }

  // ---------------------------------------------------------------------
  // FixedPointIterator

  datatype FixedPointError =
    | Misconfigured(message: string)
    | NoHistory
    | Stopped(message: string)
    | NotConverged(message: string)

  const NeedsConstraint := "FixedPointIterator requires a constraint equation."
  const NeedsParameter := "FixedPointIterator requires an input parameter."
  const CountsDiffer := "The number of input parameters must equal the number of output constraint equations in FixedPointIterator."
  const MaxExceeded := "Max iterations exceeded without convergence."

  /** `_check_config`: one equality constraint per parameter, at least one
      of each; the constraint count is checked first. */
  function CheckConfig(constraints: nat, parameters: nat): (r: Result<(), FixedPointError>)
    ensures r.Ok? <==> constraints == parameters && parameters > 0
    ensures constraints == 0 ==> r == Err(Misconfigured(NeedsConstraint))
    ensures constraints > 0 && parameters == 0 ==> r == Err(Misconfigured(NeedsParameter))
    ensures constraints > 0 && parameters > 0 && constraints != parameters ==> r == Err(Misconfigured(CountsDiffer))
  {
    if constraints == 0 then Err(Misconfigured(NeedsConstraint))
    else if parameters == 0 then Err(Misconfigured(NeedsParameter))
    else if constraints != parameters then Err(Misconfigured(CountsDiffer))
    else Ok(())
  }

  /** The outcome of `execute`: how many times the workflow ran, the final
      iteration counter (the history keeps `counter + 1` rows), and how it
      ended. */
  datatype FixedPointRun = FixedPointRun(workflowRuns: nat, counter: nat, result: Result<(), FixedPointError>)

  /** The iteration skeleton of `execute`. `stopAt(k)` is the stop flag
      when the loop is entered with counter `k`; `converged(k)` is the
      convergence test after the counter has reached `k`. The history is
      `maxIteration` rows long: a negative limit fails when the history is
      allocated, before any run, and a zero limit fails after the initial
      run, when its residuals are stored in the missing first row. */
  method Execute(constraints: nat, parameters: nat, maxIteration: int, stopAt: nat -> bool, converged: nat -> bool)
    returns (r: FixedPointRun)
    ensures CheckConfig(constraints, parameters).Err? ==>
      r == FixedPointRun(0, 0, Err(CheckConfig(constraints, parameters).error))
    ensures CheckConfig(constraints, parameters).Ok? && maxIteration < 1 ==>
      r == FixedPointRun(if maxIteration == 0 then 1 else 0, 0, Err(NoHistory))
    ensures r.result != Err(NoHistory) && CheckConfig(constraints, parameters).Ok? ==>
      && r.workflowRuns == r.counter + 1
      && r.counter < maxIteration
      && (forall k :: 0 <= k < r.counter ==> !stopAt(k))
      && (forall k :: 1 <= k < r.counter ==> !converged(k))
    ensures CheckConfig(constraints, parameters).Ok? && maxIteration >= 1 ==>
      r.result.Ok? || r.result == Err(Stopped("Stop requested")) || r.result == Err(NotConverged(MaxExceeded))
    ensures r.result.Ok? ==> r.counter >= 1 && converged(r.counter)
    ensures r.result.Err? && r.result.error.Stopped? ==> stopAt(r.counter) && r.result.error.message == "Stop requested"
    ensures r.result.Err? && r.result.error.Stopped? ==> r.counter == 0 || !converged(r.counter)
    ensures r.result.Err? && r.result.error.NotConverged? ==>
      r.counter == maxIteration - 1 && !stopAt(r.counter) && (r.counter >= 1 ==> !converged(r.counter))
      && r.result.error.message == MaxExceeded
  {
    var check := CheckConfig(constraints, parameters);
    if check.Err? {
      return FixedPointRun(0, 0, Err(check.error));
    }
    if maxIteration < 0 {
      // A history with a negative number of rows cannot be allocated.
      return FixedPointRun(0, 0, Err(NoHistory));
    }
    if maxIteration == 0 {
      // The initial run happens; its residuals have no row to go to.
      return FixedPointRun(1, 0, Err(NoHistory));
    }
    var runs: nat := 1;
    var counter: nat := 0;
    while true
      invariant runs == counter + 1
      invariant counter < maxIteration
      invariant forall k :: 0 <= k < counter ==> !stopAt(k)
      invariant forall k :: 1 <= k <= counter ==> !converged(k)
      decreases maxIteration - counter
    {
      if stopAt(counter) {
        return FixedPointRun(runs, counter, Err(Stopped("Stop requested")));
      }
      if counter >= maxIteration - 1 {
        return FixedPointRun(runs, counter, Err(NotConverged(MaxExceeded)));
      }
      runs := runs + 1;
      counter := counter + 1;
      if converged(counter) {
        return FixedPointRun(runs, counter, Ok(()));
      }
    }
  }
}
