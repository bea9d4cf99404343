/** The workflow base class of openmdao.main: the member list a driver runs,
    the iterator position `run` and `step` share, the stop flag, and the
    lazily resolved scope that member names are looked up in.

    The base class leaves `add`, `get_names` and iteration to subclasses;
    `Abstract` is the base class itself (those stubs refuse), `Listed` a
    subclass that keeps its members in a list, appends on `add` and iterates
    the list in order. */
module Workflows {
  import opened Results

  datatype Kind = Abstract | Listed

  /** The driver that owns a workflow; `parent` is the assembly holding the
      driver, when it has been placed in one. */
  datatype Driver = Driver(parent: Option<string>)

  /** `cursor` is None when there is no live iterator, else the index of
      the next member it yields; `configChanges` counts the configuration notifications. */
  datatype Workflow = Workflow(
    kind: Kind,
    members: seq<string>,
    cursor: Option<nat>,
    stopRequested: bool,
    driver: Option<Driver>,
    scope: Option<string>,
    configChanges: nat)

  /** A constructor argument: a component name, or some other object. */
  datatype Arg = Name(name: string) | Other

  datatype WfError =
    | TypeError(message: string)
    | NoScope(message: string)
    | NotImplemented(message: string)
    | RunStopped(message: string)
    | StopIteration

  const NotByName := "Components must be added to a workflow by name."
  const NoScopeMessage := "workflow has no scope!"
  const StopMessage := "Stop requested"
  const StepMessage := "Step complete"

  /** The operations the base class leaves to subclasses. */
  datatype Stub = AddStub | RemoveStub | GetNamesStub | IterStub | LenStub

  function StubName(s: Stub): string {
    match s
    case AddStub => "add"
    case RemoveStub => "remove"
    case GetNamesStub => "get_names"
    case IterStub => "__iter__"
    case LenStub => "__len__"
  }

  /** What calling a stub of the base class raises. */
  function StubError(s: Stub): (e: WfError)
    ensures e.NotImplemented?
    ensures e.message == "This Workflow has no '" + StubName(s) + "' function"
  {
    NotImplemented("This Workflow has no '" + StubName(s) + "' function")
  }

  /** Each stub's error names that stub: no two stubs raise the same
      error. */
  lemma StubErrorNamesStub(s: Stub, t: Stub)
    ensures StubError(s) == StubError(t) <==> s == t
  {
    var m := StubError(s).message;
    var n := StubError(t).message;
    assert m[22..|m| - 10] == StubName(s);
    assert n[22..|n| - 10] == StubName(t);
  }

  /** The states the operations below can reach: the base class never holds
      members or a live iterator, and an iterator never runs past the end. */
  predicate Valid(w: Workflow) {
    && (w.kind == Abstract ==> w.members == [] && w.cursor == None)
    && (w.cursor.Some? ==> w.cursor.value <= |w.members|)
  }

  // ---------------------------------------------------------------------
  // Construction

  function Add(w: Workflow, name: string): (r: Result<Workflow, WfError>)
    ensures w.kind == Abstract <==> r.Err?
    ensures r.Err? ==> r.error == StubError(AddStub)
    ensures r.Ok? ==> r.value == w.(members := w.members + [name])
  {
    match w.kind
    case Abstract => Err(StubError(AddStub))
    case Listed => Ok(w.(members := w.members + [name]))
  }

  function AddAll(w: Workflow, args: seq<Arg>): Result<Workflow, WfError>
    decreases |args|
  {
    if |args| == 0 then Ok(w)
    else if args[0].Other? then Err(TypeError(NotByName))
    else
      var w' :- Add(w, args[0].name);
      AddAll(w', args[1..])
  }

  /** A new workflow: no live iterator, no stop request, each member checked
      to be a name and then added, in order. */
  function Create(kind: Kind, driver: Option<Driver>, scope: Option<string>, args: seq<Arg>): Result<Workflow, WfError> {
    AddAll(Workflow(kind, [], None, false, driver, scope, 0), args)
  }

  predicate AllNames(args: seq<Arg>) {
    forall i :: 0 <= i < |args| ==> args[i].Name?
  }

  function NamesOf(args: seq<Arg>): (r: seq<string>)
    requires AllNames(args)
    ensures |r| == |args|
    ensures forall i :: 0 <= i < |args| ==> r[i] == args[i].name
  {
    if |args| == 0 then [] else [args[0].name] + NamesOf(args[1..])
  }

  /** Adding to a list workflow succeeds exactly when every argument is a
      name; it then appends the names in order and changes nothing else. */
  lemma {:induction false} AddAllListed(w: Workflow, args: seq<Arg>)
    requires w.kind == Listed
    ensures AddAll(w, args).Ok? <==> AllNames(args)
    ensures AllNames(args) ==> AddAll(w, args) == Ok(w.(members := w.members + NamesOf(args)))
    ensures !AllNames(args) ==> AddAll(w, args) == Err(TypeError(NotByName))
    decreases |args|
  {
    if |args| == 0 {
      assert w.members + NamesOf(args) == w.members;
    } else if args[0].Name? {
      var w' := w.(members := w.members + [args[0].name]);
      AddAllListed(w', args[1..]);
      if AllNames(args) {
        assert NamesOf(args) == [args[0].name] + NamesOf(args[1..]);
        assert w.members + [args[0].name] + NamesOf(args[1..]) == w.members + NamesOf(args);
      } else {
        var i :| 0 <= i < |args| && !args[i].Name?;
        assert !args[1..][i - 1].Name?;
      }
    }
  }

  /** The outcome of construction: the base class accepts no members at
      all (a name reaches the `add` stub, anything else the type check
      first); a list workflow takes any sequence of names. */
  lemma CreateOutcome(kind: Kind, driver: Option<Driver>, scope: Option<string>, args: seq<Arg>)
    ensures var r := Create(kind, driver, scope, args);
      && (|args| == 0 ==> r == Ok(Workflow(kind, [], None, false, driver, scope, 0)))
      && (kind == Abstract && |args| > 0 ==>
            r == Err(if args[0].Name? then StubError(AddStub) else TypeError(NotByName)))
      && (kind == Listed && AllNames(args) ==> r == Ok(Workflow(kind, NamesOf(args), None, false, driver, scope, 0)))
      && (kind == Listed && !AllNames(args) ==> r == Err(TypeError(NotByName)))
      && (r.Ok? ==> Valid(r.value))
  {
    var w := Workflow(kind, [], None, false, driver, scope, 0);
    if kind == Listed {
      AddAllListed(w, args);
      if AllNames(args) {
        assert [] + NamesOf(args) == NamesOf(args);
      }
    }
  }

  // ---------------------------------------------------------------------
  // Scope

  /** Reading `scope`: an unset scope is taken from the driver's parent and
      kept; still unset, it is an error. Returns the workflow as the read
      leaves it. */
  function GetScope(w: Workflow): (r: (Workflow, Result<string, WfError>))
    ensures r.0 == w.(scope := r.0.scope)
    ensures r.1.Ok? <==> w.scope.Some? || (w.driver.Some? && w.driver.value.parent.Some?)
    ensures w.scope.Some? ==> r == (w, Ok(w.scope.value))
    ensures w.scope.None? && w.driver.Some? ==> r.0.scope == w.driver.value.parent
    ensures w.scope.None? && w.driver.None? ==> r == (w, Err(NoScope(NoScopeMessage)))
    ensures r.1.Ok? ==> r.0.scope == Some(r.1.value)
    ensures r.1.Err? ==> r.1.error == NoScope(NoScopeMessage)
  {
    var w1 := if w.scope.None? && w.driver.Some? then w.(scope := w.driver.value.parent) else w;
    if w1.scope.None? then (w1, Err(NoScope(NoScopeMessage))) else (w1, Ok(w1.scope.value))
  }

  /** Once found, the scope is cached: reading it again returns the same
      scope and leaves the workflow as it is, even if the driver is later
      moved to another assembly. */
  lemma ScopeCached(w: Workflow, d: Option<Driver>)
    requires GetScope(w).1.Ok?
    ensures var w1 := GetScope(w).0;
      GetScope(w1.(driver := d)) == (w1.(driver := d), GetScope(w).1)
  {
  }

  /** Assigning `scope` stores it and notifies a configuration change. */
  function SetScope(w: Workflow, s: string): (r: Workflow)
    ensures r.configChanges == w.configChanges + 1
    ensures GetScope(r) == (r, Ok(s))
    ensures r.(scope := w.scope, configChanges := w.configChanges) == w
  {
    w.(scope := Some(s), configChanges := w.configChanges + 1)
  }

  // ---------------------------------------------------------------------
  // run

  /** The first position below `n`, from `i` on, at which a stop request
      has arrived by the time that member's run returns. */
  function FirstStopFrom(stopAfter: nat -> bool, i: nat, n: nat): (r: Option<nat>)
    decreases n - i
    ensures r.Some? ==> i <= r.value < n && stopAfter(r.value)
    ensures r.Some? ==> forall j :: i <= j < r.value ==> !stopAfter(j)
    ensures r.None? ==> forall j :: i <= j < n ==> !stopAfter(j)
  {
    if i >= n then None
    else if stopAfter(i) then Some(i)
    else FirstStopFrom(stopAfter, i + 1, n)
  }

  /** The outcome of one call of `run`: the workflow after it, the members
      that ran, and what it raised. */
  datatype RunOutcome = RunOutcome(after: Workflow, ran: seq<string>, result: Result<(), WfError>)

  /** Running members from position `i`; `stopAfter(k)` says whether the
      stop flag is set when member `k` returns (by that member, or by
      another caller of `stop`). */
  function RunFrom(w: Workflow, i: nat, stopAfter: nat -> bool): (r: RunOutcome)
    requires w.kind == Listed && i <= |w.members|
    decreases |w.members| - i
    ensures r.after.members == w.members && r.after.kind == Listed && Valid(r.after)
    ensures r.after.(cursor := w.cursor, stopRequested := w.stopRequested) == w
    ensures match FirstStopFrom(stopAfter, i, |w.members|)
      case None => r == RunOutcome(w.(cursor := None), w.members[i..], Ok(()))
      case Some(k) =>
        r == RunOutcome(w.(cursor := Some(k + 1), stopRequested := true), w.members[i..k + 1],
          Err(RunStopped(StopMessage)))
  {
    if i == |w.members| then RunOutcome(w.(cursor := None), [], Ok(()))
    else if stopAfter(i) then
      RunOutcome(w.(cursor := Some(i + 1), stopRequested := true), [w.members[i]], Err(RunStopped(StopMessage)))
    else
      var rest := RunFrom(w.(cursor := Some(i + 1)), i + 1, stopAfter);
      RunOutcome(rest.after, [w.members[i]] + rest.ran, rest.result)
  }

  /** `run`: clear the stop flag, start a fresh iterator and run the members
      in order, raising RunStopped after the member during which a stop was
      requested; a complete run drops the iterator. */
  function Run(w: Workflow, stopAfter: nat -> bool): (r: RunOutcome)
    requires Valid(w)
    ensures Valid(r.after) && r.after.members == w.members
    ensures w.kind == Abstract ==> r == RunOutcome(w.(stopRequested := false), [], Err(StubError(IterStub)))
    ensures w.kind == Listed ==>
      match FirstStopFrom(stopAfter, 0, |w.members|)
      case None => r == RunOutcome(w.(cursor := None, stopRequested := false), w.members, Ok(()))
      case Some(k) =>
        r == RunOutcome(w.(cursor := Some(k + 1), stopRequested := true), w.members[..k + 1],
          Err(RunStopped(StopMessage)))
  {
    var cleared := w.(stopRequested := false);
    match w.kind
    case Abstract => RunOutcome(cleared, [], Err(StubError(IterStub)))
    case Listed => RunFrom(cleared.(cursor := Some(0)), 0, stopAfter)
  }

  /** A stop requested before `run` is forgotten: with no request during
      the run, every member runs and the run completes. */
  lemma RunForgetsEarlierStop(w: Workflow)
    requires Valid(w) && w.kind == Listed && w.stopRequested
    ensures Run(w, _ => false) == RunOutcome(w.(cursor := None, stopRequested := false), w.members, Ok(()))
  {
    assert FirstStopFrom(_ => false, 0, |w.members|) == None;
  }

  // ---------------------------------------------------------------------
  // step

  /** `step`: run the next member (starting a fresh iterator if there is
      none) and raise RunStopped. An exhausted iterator raises
      StopIteration and is kept; a member whose run raises StopIteration
      drops the iterator and passes the exception on. */
  function Step(w: Workflow, memberRaisesStop: bool): (r: RunOutcome)
    requires Valid(w)
    ensures Valid(r.after) && r.after.members == w.members
    ensures r.result.Err?
    ensures r.after.(cursor := w.cursor) == w
    ensures |r.ran| <= 1
  {
    match w.kind
    case Abstract => RunOutcome(w, [], Err(StubError(IterStub)))
    case Listed =>
      var pos := if w.cursor.Some? then w.cursor.value else 0;
      if pos == |w.members| then RunOutcome(w.(cursor := Some(pos)), [], Err(StopIteration))
      else if memberRaisesStop then RunOutcome(w.(cursor := None), [w.members[pos]], Err(StopIteration))
      else RunOutcome(w.(cursor := Some(pos + 1)), [w.members[pos]], Err(RunStopped(StepMessage)))
  }

  /** Once the iterator is exhausted, `step` keeps raising StopIteration
      and changes nothing: only `run` starts the members over. */
  lemma StepExhaustedSticks(w: Workflow, raises: bool)
    requires Valid(w) && w.kind == Listed && w.cursor == Some(|w.members|)
    ensures Step(w, raises) == RunOutcome(w, [], Err(StopIteration))
  {
  }

  /** `k` steps in a row, none of whose members raises StopIteration. */
  function Steps(w: Workflow, k: nat): (r: RunOutcome)
    requires Valid(w)
    ensures Valid(r.after) && r.after.members == w.members
    decreases k
  {
    if k == 0 then RunOutcome(w, [], Ok(()))
    else
      var first := Step(w, false);
      var rest := Steps(first.after, k - 1);
      RunOutcome(rest.after, first.ran + rest.ran, if k == 1 then first.result else rest.result)
  }

  /** One `step` before the end runs the member under the cursor and moves
      the cursor past it. */
  lemma StepAdvances(w: Workflow, p: nat)
    requires Valid(w) && w.kind == Listed
    requires (w.cursor == Some(p) || (w.cursor == None && p == 0)) && p < |w.members|
    ensures Step(w, false) == RunOutcome(w.(cursor := Some(p + 1)), [w.members[p]], Err(RunStopped(StepMessage)))
  {
  }

  /** Stepping runs the same members, in the same order, as `run`: from a
      position `p`, `k` steps run the next `k` members and leave the
      iterator `k` further on; the last step raises RunStopped. */
  lemma {:induction false} StepsFollowRun(w: Workflow, p: nat, k: nat)
    requires Valid(w) && w.kind == Listed
    requires (w.cursor == Some(p) || (w.cursor == None && p == 0)) && p + k <= |w.members|
    ensures Steps(w, k).ran == w.members[p..p + k]
    ensures k > 0 ==> Steps(w, k).after == w.(cursor := Some(p + k))
    ensures k > 0 ==> Steps(w, k).result == Err(RunStopped(StepMessage))
    decreases k
  {
    if k > 0 {
      assert [w.members[p]] + w.members[p + 1..p + k] == w.members[p..p + k];
      StepAdvances(w, p);
      StepsFollowRun(w.(cursor := Some(p + 1)), p + 1, k - 1);
    }
  }

  /** Stepping a fresh workflow once per member runs what an uninterrupted
      `run` runs, in the same order, and leaves the iterator exhausted. */
  lemma StepsMatchRun(w: Workflow)
    requires Valid(w) && w.kind == Listed && w.cursor == None
    ensures Steps(w, |w.members|).ran == Run(w, _ => false).ran
    ensures |w.members| > 0 ==> Steps(w, |w.members|).after.cursor == Some(|w.members|)
  {
    StepsFromStart(w);
    RunWithoutStopRunsAll(w, _ => false);
  }

  /** Stepping a fresh workflow once per member runs all of them and
      leaves the cursor at the end. */
  lemma StepsFromStart(w: Workflow)
    requires Valid(w) && w.kind == Listed && w.cursor == None
    ensures Steps(w, |w.members|).ran == w.members
    ensures |w.members| > 0 ==> Steps(w, |w.members|).after.cursor == Some(|w.members|)
  {
    var n := |w.members|;
    assert w.members[0..n] == w.members;
    StepsFollowRun(w, 0, n);
  }

  /** A run in which no member sets the stop flag runs every member. */
  lemma RunWithoutStopRunsAll(w: Workflow, stopAfter: nat -> bool)
    requires Valid(w) && w.kind == Listed
    requires forall j: nat :: !stopAfter(j)
    ensures Run(w, stopAfter).ran == w.members
  {
    assert FirstStopFrom(stopAfter, 0, |w.members|) == None;
  }

  /** After a complete run the iterator is gone, so the next `step` starts
      again from the first member. */
  lemma StepAfterCompleteRun(w: Workflow, stopAfter: nat -> bool)
    requires Valid(w) && w.kind == Listed && |w.members| > 0
    requires Run(w, stopAfter).result.Ok?
    ensures Step(Run(w, stopAfter).after, false).ran == [w.members[0]]
  {
  }

  // ---------------------------------------------------------------------
  // stop

  /** `stop`: look up the scope and the member names, stop every member and
      set the flag. A missing scope or the `get_names` stub raises before
      the flag is set; a scope found on the way is cached all the same. */
  function Stop(w: Workflow): (r: RunOutcome)
    requires Valid(w)
    ensures Valid(r.after) && r.after.members == w.members
    ensures r.result.Ok? <==> w.kind == Listed && GetScope(w).1.Ok?
    ensures r.result.Ok? ==> r.after == GetScope(w).0.(stopRequested := true) && r.ran == w.members
    ensures r.result.Err? ==> r.after == GetScope(w).0 && r.ran == []
    ensures GetScope(w).1.Err? ==> r.result == Err(NoScope(NoScopeMessage))
  {
    var (w1, s) := GetScope(w);
    if s.Err? then RunOutcome(w1, [], Err(s.error))
    else match w.kind
      case Abstract => RunOutcome(w1, [], Err(StubError(GetNamesStub)))
      case Listed => RunOutcome(w1.(stopRequested := true), w1.members, Ok(()))
  }

  /** A stop that reaches the flag during a run makes that run raise
      RunStopped right after the member that was running, and no later
      member runs. */
  lemma StopDuringRun(w: Workflow, k: nat)
    requires Valid(w) && w.kind == Listed && k < |w.members|
    ensures var r := Run(w, j => j == k);
      r.result == Err(RunStopped(StopMessage)) && r.ran == w.members[..k + 1] && r.after.stopRequested
  {
    var stopAt: nat -> bool := j => j == k;
    assert stopAt(k);
    assert FirstStopFrom(stopAt, 0, |w.members|) == Some(k);
  }
}
