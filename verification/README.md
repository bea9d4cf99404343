# OpenMDAO dataflow core, NPSS argument lists, workflows and iteration drivers

A Dafny model of the parts of the OpenMDAO framework that decide *what runs
and when*, together with the small pure routines around them:

- **Assembly dataflow** (modules `Dataflow`, `Connections`, `Execution`, with
  graph facts in `Digraph`). An assembly holds child components with typed
  input and output variables, each carrying a value and a valid bit, plus the
  assembly's own boundary (passthrough) variables. Connections run from an
  output to an input, with at most one source per input. A connection that
  would close a cycle among the children is refused. Setting an input makes
  everything downstream of it stale, and `run` executes the workflow members
  that are out of date, in order. The test components `Multiplier`, `Simple`
  and `DummyComp` are modelled with their `execute` bodies. Floats are exact
  reals.
- **Assembly test scenarios** (module `AssemblyScenarios`). States what each
  test component's `execute` stores in its outputs. Replays the lazy
  evaluation test end to end through `add`, `set`, `connect`, `run` and
  `get`, with the values and execution counts the test expects.
- **NPSS command line** (module `NpssArgs`). The NPSS wrapper component
  parses its argument list with eight "value expected next" flags. The model
  also covers:
  - the generator that writes the option fields back out as an argument
    list, with a proof that parsing the generated list gives back the
    fields;
  - the metadata merge helper;
  - the output guard of an NPSS trait.
- **Workflows** (module `Workflows`). Covers the workflow base class: the
  type check on member names, the lazily resolved and cached scope, and
  `run`, `step` and `stop`. `run` and `step` share an iterator position and
  a stop flag. The stubs that subclasses override are also modelled.
- **Iteration drivers** (module `IterationDrivers`). Covers `IterateUntil`'s
  counter and `FixedPointIterator`'s configuration check. It also covers
  `FixedPointIterator`'s iteration bound. Convergence and stop conditions
  are abstract inputs.
- **Dotted pathnames** (module `PathNames`). Models the GUI helpers
  `getPath` and `getName`.

`Results` holds `Option` and `Result`. `Strings` holds the searching,
splitting and joining the other modules need, including JavaScript `split`
and Python `str.split()`.

Things the model takes as inputs instead of computing:

- The file-system check `_check_path` is the `pathOk` predicate.
- The iteration order of a Python dictionary is a `keys`/`order` sequence.
- The NPSS engine's metadata and validation are parameters.
- A stop request from another thread is a `stopAfter` function: for each
  member position, it says whether the flag is set when that member
  returns.

The component-validity rule follows the assembly tests. A child is up to
date when it has executed and all of its variables are valid. Otherwise
`run` executes it. The rule comes from the lazy evaluation test: after
`set('comp2.mult', 3.0)`, `comp2` reruns although every one of its inputs
is valid, while `comp1`, upstream of it, keeps its counter
(openmdao.main/src/openmdao/main/test/test_assembly.py:184-192).

## Model

| member | source | states |
|---|---|---|
| PathNames.GetPath | openmdao.gui/src/openmdao/gui/static/js/openmdao/Util.js:234-243 | an absent or empty pathname has path `''`; otherwise the path is the text before the last dot when that dot is past index 0, and `''` when there is no dot or it leads |
| PathNames.GetName | openmdao.gui/src/openmdao/gui/static/js/openmdao/Util.js:246-253 | `getName` fails exactly on an undefined pathname, where calling `split` on it throws; every defined pathname has a name |
| PathNames.NameIsLastSegment | openmdao.gui/src/openmdao/gui/static/js/openmdao/Util.js:246-253 | the name of a defined pathname is the text after its last dot (the whole pathname when there is none) and contains no dot |
| PathNames.PathDotName | openmdao.gui/src/openmdao/gui/static/js/openmdao/Util.js:234-253 | when the last dot is past the first character, path + "." + name rebuilds the pathname |
| PathNames.LeadingDotLosesPath | openmdao.gui/src/openmdao/gui/static/js/openmdao/Util.js:234-253 | for ".x" the path is empty but the name is "x", so the two do not rebuild the pathname |
| Strings.SplitWhitespaceWords | contrib/npsscomponent/npsscomponent/npsscomponent.py:207-208 | splitting a string argument list on whitespace yields non-empty, whitespace-free tokens whose concatenation is the text without its whitespace |
| Strings.SplitWhitespaceJoin | contrib/npsscomponent/npsscomponent/npsscomponent.py:207-208 | whitespace-free, non-empty words joined by single spaces split back into exactly those words, in order |
| Strings.JoinSplit | contrib/npsscomponent/npsscomponent/npsscomponent.py:228 | the pieces of a split on `=` joined back with `=` give the original token |
| Digraph.ReachIff | openmdao.main/src/openmdao/main/test/test_assembly.py:397-405 | the downstream set computed by the fixpoint is exactly the set of nodes some path reaches from a root |
| Digraph.AddEdgeKeepsAcyclic | openmdao.main/src/openmdao/main/test/test_assembly.py:397-405 | adding edge s→d to an acyclic graph keeps it acyclic when s is not reachable from d |
| Digraph.AddEdgeClosesCycle | openmdao.main/src/openmdao/main/test/test_assembly.py:397-405 | adding edge s→d when s is reachable from d closes a cycle |
| Dataflow.Resolve | openmdao.main/src/openmdao/main/test/test_assembly.py:367-374 | a dotted name resolves only to an existing variable of a child or of the boundary whose pathname is exactly that name; anything else, such as `comp1.rout.units`, is a not-found error naming the path |
| Dataflow.ResolvePathOf | openmdao.main/src/openmdao/main/test/test_assembly.py:486-491 | resolving the pathname that `list_connections` prints for a variable gives back that variable |
| Dataflow.ResolveExact | openmdao.main/src/openmdao/main/test/test_assembly.py:367-374 | a pathname resolves if and only if an existing variable with dot-free names is spelled that way, and then to that variable |
| Dataflow.InvalidateKeepsWf | openmdao.main/src/openmdao/main/test/test_assembly.py:441-454 | clearing valid bits preserves the assembly invariant (one source per input, output-to-input across owners, acyclic, valid inputs hold their source's value) |
| Connections.ConnectPorts | openmdao.main/src/openmdao/main/test/test_assembly.py:342-405 | connect checks, in order: the source is an output, the destination an input, the owners differ, the destination has no source yet, no cycle among children; each failure has its error, success adds exactly that connection and leaves the destination invalid |
| Connections.Connect | openmdao.main/src/openmdao/main/test/test_assembly.py:342-374 | connect locates the source and then the destination, failing with not-found for the first that cannot be located, and otherwise makes the checks of ConnectPorts on the two variables |
| Connections.ConnectListed | openmdao.main/src/openmdao/main/test/test_assembly.py:482-488 | after a successful connect(src, dst), list_connections reports exactly what it reported before plus the pair (src, dst) |
| Connections.ConnectRejectsExactlyCycles | openmdao.main/src/openmdao/main/test/test_assembly.py:397-405 | once the direction, owner and single-source checks pass, connect fails if and only if the new child-to-child edge would close a cycle |
| Connections.ConnectKeepsWf | openmdao.main/src/openmdao/main/test/test_assembly.py:461-472 | a successful connect keeps every invariant, including a single source per input, and adds exactly the one connection |
| Connections.Disconnect | openmdao.main/src/openmdao/main/test/test_assembly.py:407-426 | disconnect(path) drops exactly the connections into or out of path; disconnect(src, dst) drops exactly that connection; all else is kept; it succeeds exactly when every name given resolves, and otherwise reports not-found for the first name that does not |
| Connections.DisconnectUnconnectedIsNoOp | openmdao.main/src/openmdao/main/test/test_assembly.py:475-480 | disconnecting a variable no connection touches succeeds and changes nothing |
| Connections.DisconnectKeepsWf | openmdao.main/src/openmdao/main/test/test_assembly.py:407-426 | disconnect preserves the assembly invariant |
| Connections.Remove | openmdao.main/src/openmdao/main/test/test_assembly.py:482-492 | removing a child drops it and every connection touching it; the other children, the boundary and the sources of the kept connections are unchanged; the workflow loses every entry of that name and keeps the rest in order; an unknown name is an error |
| Connections.RemoveListed | openmdao.main/src/openmdao/main/test/test_assembly.py:482-492 | after remove(name), list_connections reports exactly the earlier pairs whose source and destination both lie outside the removed child |
| Connections.RemoveKeepsWf | openmdao.main/src/openmdao/main/test/test_assembly.py:482-492 | remove preserves the assembly invariant |
| Connections.Add | openmdao.main/src/openmdao/main/test/test_assembly.py:157-163 | adding a child gives it its class's declared variables and a zero counter, replaces any child of that name together with its connections, and leaves other children alone |
| Connections.AddKeepsWf | openmdao.main/src/openmdao/main/test/test_assembly.py:482-485 | adding (or re-adding) a child preserves the assembly invariant |
| Connections.CreatePassthrough | openmdao.main/src/openmdao/main/test/test_assembly.py:273-337 | a passthrough creates a boundary variable (named by the alias or the last path segment) with the inner variable's value and direction, valid for an input and invalid for an output, connected to it in the data's direction; an input passthrough leaves its inner input invalid; the workflow, the other boundary variables and every other variable are unchanged; an unknown path is not-found, an existing boundary name is a duplicate-name error, and an inner input that already has a source is refused, naming that source |
| Connections.CreatePassthroughKeepsWf | openmdao.main/src/openmdao/main/test/test_assembly.py:273-337 | creating a passthrough preserves the assembly invariant |
| Execution.StalePorts | openmdao.main/src/openmdao/main/test/test_assembly.py:441-454 | the ports made stale by a set of children are exactly their outputs and every input one of them feeds |
| Execution.Set | openmdao.main/src/openmdao/main/test/test_assembly.py:195-261 | set fails exactly on unknown names, connected inputs (naming the source, value unchanged), outputs and type mismatches; otherwise it stores the value, makes it valid, changes no other value, and invalidates every input the variable feeds |
| Execution.SetConnectedThenDisconnected | openmdao.main/src/openmdao/main/test/test_assembly.py:239-261 | a connected input refuses a direct set, and after disconnecting that connection the same set succeeds and get returns the value |
| Execution.Get | openmdao.main/src/openmdao/main/test/test_assembly.py:195-205 | get succeeds exactly on resolvable names and returns the variable's current value |
| Execution.GetValid | openmdao.main/src/openmdao/main/test/test_assembly.py:441-454 | get_valid answers, in order, each variable's valid bit, and fails if any name is unknown |
| Execution.Compute | openmdao.main/src/openmdao/main/test/test_assembly.py:14-82 | a test component's execute keeps its variable names and directions and changes only the outputs its class assigns |
| Execution.ExecuteCleans | openmdao.main/src/openmdao/main/test/test_assembly.py:166-192 | executing a child increments its counter by one and leaves it up to date |
| Execution.ExecuteInputs | openmdao.main/src/openmdao/main/test/test_assembly.py:195-232 | after executing, each connected input of the child holds its source's value, and each unconnected input keeps its own |
| Execution.ExecuteKeepsWf | openmdao.main/src/openmdao/main/test/test_assembly.py:166-192 | executing a child preserves the assembly invariant |
| Execution.PullBoundary | openmdao.main/src/openmdao/main/test/test_assembly.py:273-280 | after a run, each connected boundary output takes its source's value and becomes valid; other boundary variables are unchanged |
| Execution.SetKeepsWf | openmdao.main/src/openmdao/main/test/test_assembly.py:195-237 | a successful set preserves the assembly invariant and the assembly's shape |
| Execution.RunBringsMembersUpToDate | openmdao.main/src/openmdao/main/test/test_assembly.py:166-192 | run with a dependency-ordered workflow leaves every member up to date, runs each out-of-date member exactly once, never runs a child outside the workflow, and keeps the invariant |
| Execution.RunSkipsUpToDate | openmdao.main/src/openmdao/main/test/test_assembly.py:184-192 | run leaves untouched every child that is neither out of date nor downstream of one that is |
| Execution.SetChildInputDirties | openmdao.main/src/openmdao/main/test/test_assembly.py:184-192 | writing a child's input leaves that child and everything downstream of it out of date |
| Execution.SetChildInputFrame | openmdao.main/src/openmdao/main/test/test_assembly.py:184-192 | writing a child's input leaves every child outside its downstream set unchanged |
| Execution.LazyEvaluation | openmdao.main/src/openmdao/main/test/test_assembly.py:166-192 | from an up-to-date assembly, set then run re-executes exactly the downstream workflow members, each once, and no other child |
| Execution.BoundaryInputWriteThenRun | openmdao.main/src/openmdao/main/test/test_assembly.py:428-459 | writing an input passthrough leaves the inputs it feeds invalid with their old values until a run, which makes them valid with the written value |
| Execution.OutputPassthroughAfterRun | openmdao.main/src/openmdao/main/test/test_assembly.py:273-280 | after run, an output passthrough is valid and holds its inner output's value |
| AssemblyScenarios.MultiplierRan | openmdao.main/src/openmdao/main/test/test_assembly.py:25-26 | an executed Multiplier stores in `rval_out` the product of the input and the factor it reads, a connected input reading its source's value |
| AssemblyScenarios.SimpleRan | openmdao.main/src/openmdao/main/test/test_assembly.py:43-45 | an executed Simple stores the sum of its inputs in `c` and their difference in `d` |
| AssemblyScenarios.DummyRan | openmdao.main/src/openmdao/main/test/test_assembly.py:77-80 | an executed DummyComp stores `r * 1.5` in `rout`, `r2 + 10` in `r2out` and the reversed `s` in `sout` |
| AssemblyScenarios.LazyTopFresh | openmdao.main/src/openmdao/main/test/test_assembly.py:167-171 | adding two Multipliers to an empty assembly and listing them in the workflow gives two unconnected, never-run children holding their constructors' defaults (input 4, factor 1.5) |
| AssemblyScenarios.LazyEvalSetUpState | openmdao.main/src/openmdao/main/test/test_assembly.py:173-176 | both factor assignments, the connection and the input assignment succeed; the pair is connected, never run, with input 5 and factors 2 and 4 |
| AssemblyScenarios.LazyEvalFirstRun | openmdao.main/src/openmdao/main/test/test_assembly.py:177-182 | after the first run, `get` reads 10 from `comp1.rval_out`, 10 from `comp2.rval_in` and 40 from `comp2.rval_out`, and each child has executed once |
| AssemblyScenarios.LazyEvalResetState | openmdao.main/src/openmdao/main/test/test_assembly.py:184-186 | `set('comp2.mult', 3.0)` succeeds, leaves comp1 up to date with output 10 and one execution, and leaves comp2 out of date with factor 3 |
| AssemblyScenarios.LazyEvalSecondRun | openmdao.main/src/openmdao/main/test/test_assembly.py:186-192 | after the set and a second run, `get` reads 10, 10 and 30, comp1 has still executed once and comp2 twice |
| AssemblyScenarios.LazyEval | openmdao.main/src/openmdao/main/test/test_assembly.py:166-192 | the whole lazy evaluation test, on the assembly it builds: 40 with counters 1 and 1 after the first run, 30 with counters 1 and 2 after the second |
| AssemblyScenarios.RerunComp2 | openmdao.main/src/openmdao/main/test/test_assembly.py:184-192 | a run with comp1 up to date and comp2 out of date skips comp1, leaving it unchanged, and reruns comp2 once on comp1's output and its own factor |
| AssemblyScenarios.ConnectPair | openmdao.main/src/openmdao/main/test/test_assembly.py:175 | connecting `comp1.rval_out` to `comp2.rval_in` on the unconnected pair succeeds, records exactly that connection, and changes no value or counter |
| NpssArgs.DefineOf | contrib/npsscomponent/npsscomponent/npsscomponent.py:227-235 | a definition's name is the text before the first `=`; its value is the text between the first and a second `=`, or `"1"` when there is no `=` |
| NpssArgs.WordOf | contrib/npsscomponent/npsscomponent/npsscomponent.py:215-300 | a token is recognised as an option word exactly when it is one of the seventeen words, and the word read is the token |
| NpssArgs.TakenAsValueIff | contrib/npsscomponent/npsscomponent/npsscomponent.py:215-300 | while one option's value is pending, a token is taken as that value exactly when it is not one of the option words tested before that option's pending branch |
| NpssArgs.Store | contrib/npsscomponent/npsscomponent/npsscomponent.py:218-297 | a pending value is stored only if it passes its check (existing path, valid access type); a refusal names the token, and a path refusal means the path check failed |
| NpssArgs.Step | contrib/npsscomponent/npsscomponent/npsscomponent.py:215-307 | every parse error names the offending token; path errors happen only when the path check fails; the output file name is never touched |
| NpssArgs.AcceptedPathsExist | contrib/npsscomponent/npsscomponent/npsscomponent.py:218-307 | a token is appended to a path list or stored as a path only when it passes the existence check |
| NpssArgs.AccessAlwaysValid | contrib/npsscomponent/npsscomponent/npsscomponent.py:255-263 | the access field only ever receives PRIV, RO or RW |
| NpssArgs.Finish | contrib/npsscomponent/npsscomponent/npsscomponent.py:309-324 | the list may end only with no value pending; otherwise the first pending flag in the fixed order picks the error |
| NpssArgs.PendingObjectSwallows | contrib/npsscomponent/npsscomponent/npsscomponent.py:216-224 | after `-C`, any next token other than `-C` (even an option word) is taken as an object path, stored if it exists and an error otherwise |
| NpssArgs.DefineRecords | contrib/npsscomponent/npsscomponent/npsscomponent.py:225-235 | after `-D`, the next token's name/value pair is recorded (value `"1"` when it has no `=`) and the flag cleared |
| NpssArgs.AccessValidated | contrib/npsscomponent/npsscomponent/npsscomponent.py:255-263 | after `-a`, the next token is accepted exactly when it is PRIV, RO or RW, and is an invalid-access error otherwise |
| NpssArgs.UnknownOptionIllegal | contrib/npsscomponent/npsscomponent/npsscomponent.py:300-301 | with nothing pending, a token starting with `-` that is no option word is an illegal-option error |
| NpssArgs.PositionalIsModelFile | contrib/npsscomponent/npsscomponent/npsscomponent.py:302-307 | with nothing pending, any other token becomes the model file name if it exists and is an error otherwise |
| NpssArgs.DefineKeepsSecondPiece | contrib/npsscomponent/npsscomponent/npsscomponent.py:228-233 | `a=b=c` defines `a` as `b`, and a bare `NAME` defines it as `"1"` |
| NpssArgs.ObjectSwallowsDefine | contrib/npsscomponent/npsscomponent/npsscomponent.py:216-226 | parsing `-C -D` loads an object named `-D` and starts no definition |
| NpssArgs.EndOfListOrder | contrib/npsscomponent/npsscomponent/npsscomponent.py:309-324 | a list ending with both an access type and an object path pending reports the access type |
| NpssArgs.UnitsReadBack | contrib/npsscomponent/npsscomponent/npsscomponent.py:215-307 | parsing the tokens the generator emits for a sequence of options applies those options' effects in order and leaves nothing pending |
| NpssArgs.GeneratedMeaning | contrib/npsscomponent/npsscomponent/npsscomponent.py:333-378 | the options the generator emits, applied to the defaults, rebuild every field except the model and output file names |
| NpssArgs.RoundTrip | contrib/npsscomponent/npsscomponent/npsscomponent.py:333-378 | parsing the generated argument list into a fresh component gives back every field the generator writes, and the defaults for the model and output file names |
| NpssArgs.LaterWordReadsBack | contrib/npsscomponent/npsscomponent/npsscomponent.py:215-244 | an executive type spelled `-trace`, an option word tested after the pending executive branch, is generated and read back unchanged |
| NpssArgs.EarlierWordRefused | contrib/npsscomponent/npsscomponent/npsscomponent.py:215-244 | an executive type spelled `-C` is generated as `-E -C`, which the parser reads as two options and refuses with the missing-executive error |
| NpssArgs.TextParsesAsList | contrib/npsscomponent/npsscomponent/npsscomponent.py:207-215 | a string argument list parses exactly as the list of its space-separated words |
| NpssArgs.Augment | contrib/npsscomponent/npsscomponent/npsscomponent.py:19-21 | merging never changes an entry the destination already has |
| NpssArgs.AugmentIs | contrib/npsscomponent/npsscomponent/npsscomponent.py:19-21 | the merge adds exactly the iterated source keys the destination lacks, with the source's values, so the order of iteration does not matter |
| NpssArgs.AugmentIdempotent | contrib/npsscomponent/npsscomponent/npsscomponent.py:19-21 | merging twice gives the same dictionary as merging once |
| NpssArgs.SetTrait | contrib/npsscomponent/npsscomponent/npsscomponent.py:42-55 | on first use the engine's metadata is merged in, adding only missing keys; the write is refused as an output exactly when the merged metadata says the trait is an output, refused as invalid when the engine rejects it, and accepted otherwise; the trait is mapped afterwards and never merges again |
| NpssArgs.EngineOutputRefused | contrib/npsscomponent/npsscomponent/npsscomponent.py:43-50 | an unmapped trait whose engine variable is an output refuses the first write, because the merged metadata marks it as an output |
| NpssArgs.EngineInputAccepted | contrib/npsscomponent/npsscomponent/npsscomponent.py:42-55 | an unmapped trait whose engine variable is an input accepts exactly the writes the engine validates, and a later write keeps its metadata |
| Workflows.StubErrorNamesStub | openmdao.main/src/openmdao/main/workflow.py:109-141 | each stub of the base class raises its own NotImplemented error: two stubs raise the same error only if they are the same stub |
| Workflows.Add | openmdao.main/src/openmdao/main/workflow.py:109-111 | the base class refuses add; a list workflow appends the name and changes nothing else |
| Workflows.AddAllListed | openmdao.main/src/openmdao/main/workflow.py:35-39 | adding members succeeds exactly when every one is a name, appending them in order; any other object raises the type error |
| Workflows.CreateOutcome | openmdao.main/src/openmdao/main/workflow.py:14-39 | a new workflow has no iterator and no stop request; the base class refuses any member (the type check first, then the add stub); a list workflow takes exactly sequences of names |
| Workflows.GetScope | openmdao.main/src/openmdao/main/workflow.py:41-50 | the scope is the explicit one, else the driver's parent, which is then kept; without either it is the no-scope error |
| Workflows.ScopeCached | openmdao.main/src/openmdao/main/workflow.py:46-47 | once found, the scope stays the same on later reads even if the driver is moved |
| Workflows.SetScope | openmdao.main/src/openmdao/main/workflow.py:52-55 | assigning the scope makes later reads return it and notifies one configuration change |
| Workflows.Run | openmdao.main/src/openmdao/main/workflow.py:57-65 | run clears the stop flag and runs members in order; if a stop arrives during member k it raises RunStopped after exactly members 0..k, otherwise it runs all of them and drops the iterator |
| Workflows.RunForgetsEarlierStop | openmdao.main/src/openmdao/main/workflow.py:59-65 | a stop requested before run is forgotten: with no new request every member runs |
| Workflows.StopDuringRun | openmdao.main/src/openmdao/main/workflow.py:61-64 | a stop requested while member k runs ends the run with RunStopped after member k, and no later member runs |
| Workflows.Step | openmdao.main/src/openmdao/main/workflow.py:67-78 | step runs at most one member and always raises; it changes only the iterator position |
| Workflows.StepExhaustedSticks | openmdao.main/src/openmdao/main/workflow.py:69-72 | with an exhausted iterator, step raises StopIteration and changes nothing, so it repeats forever until a run |
| Workflows.StepsFollowRun | openmdao.main/src/openmdao/main/workflow.py:67-78 | k steps from position p run members p..p+k-1 in order, move the iterator k on, and raise RunStopped |
| Workflows.StepsMatchRun | openmdao.main/src/openmdao/main/workflow.py:57-78 | stepping a fresh workflow once per member runs exactly what an uninterrupted run runs |
| Workflows.StepAfterCompleteRun | openmdao.main/src/openmdao/main/workflow.py:65-70 | after a complete run, the next step starts again from the first member |
| Workflows.Stop | openmdao.main/src/openmdao/main/workflow.py:100-107 | stop stops every member and sets the flag; a missing scope or the base class's get_names stub raises before the flag is set |
| IterationDrivers.ContinueIteration | openmdao.lib/src/openmdao/lib/drivers/iterate.py:168-179 | answering yes increments the counter by one and no leaves it unchanged; the first iteration is forced when run_at_least_once holds; otherwise a satisfied stop condition says no, and without one the answer is yes exactly below the limit |
| IterationDrivers.ContinueStaysUnderCeiling | openmdao.lib/src/openmdao/lib/drivers/iterate.py:168-179 | the counter never rises above the largest of its prior value, the limit, and 1 under run_at_least_once |
| IterationDrivers.GrantedBounded | openmdao.lib/src/openmdao/lib/drivers/iterate.py:168-179 | however many times a driver loop asks, the counter stays under that ceiling |
| IterationDrivers.GrantedWithoutStops | openmdao.lib/src/openmdao/lib/drivers/iterate.py:160-179 | with no stop condition firing, the loop runs up to the limit, or once when the limit is below one and the first iteration is forced |
| IterationDrivers.StopBeforeFirst | openmdao.lib/src/openmdao/lib/drivers/iterate.py:173-174 | a stop condition holding at the start ends the loop before any iteration unless the first one is forced |
| IterationDrivers.StartIteration | openmdao.lib/src/openmdao/lib/drivers/iterate.py:164-166 | start_iteration as written leaves the counter as it was |
| IterationDrivers.SecondExecutionRunsNothing | openmdao.lib/src/openmdao/lib/drivers/iterate.py:164-179 | a default driver runs ten iterations once; executed again, it runs none |
| IterationDrivers.StartIterationFixed | openmdao.lib/src/openmdao/lib/drivers/iterate.py:164-166 | the corrected start resets the counter to zero and changes nothing else |
| IterationDrivers.EveryExecutionRunsAgain | openmdao.lib/src/openmdao/lib/drivers/iterate.py:160-179 | with the corrected start, every execution runs the same number of iterations, whatever the previous one left |
| IterationDrivers.CheckConfig | openmdao.lib/src/openmdao/lib/drivers/iterate.py:135-154 | the configuration is accepted exactly with equal, positive constraint and parameter counts; zero constraints, then zero parameters, then unequal counts pick the error |
| IterationDrivers.Execute | openmdao.lib/src/openmdao/lib/drivers/iterate.py:55-133 | a valid configuration with max_iteration >= 1 ends in convergence, the stop error or the limit error and nothing else; the workflow runs once plus once per iteration, the counter stays below max_iteration, success means the last iteration converged and no earlier one did, a stop is honoured at the loop head after no converged iteration, and the limit error comes exactly at counter max_iteration-1; a limit below one fails after one run (zero) or none (negative) |

## Left out

- NPSS engine sessions are not modelled: `reload`, `execute`, `parseString`, the `-singleStream` option added when an output file is set, and the other engine calls. They are foreign calls into the engine.
- `_check_path` is not modelled. It is the `pathOk` parameter, because it asks the file system.
- NpssArgs.Parse: `_parse_arglist` parses into the component in place, so the fields set before a failing token keep their new values. The model returns only the error, not the partly changed fields.
- An argument list that is neither a string nor iterable raises TypeError in `_parse_arglist`. This is not modelled; `ArgList` admits only a string or a list.
- The option fields `run_command`, `reload_flag`, `other_opts` and `reload_model` are not modelled. The parser and the generator never touch them.
- `_trait_mapping_info`, `make_public` and the trait getter are not modelled. They introspect the engine at run time.
- NpssArgs.SetTrait: the engine's `validate` is a boolean parameter. The write into the engine is not modelled. The `trait` and `ref_name` metadata entries are not modelled, because they hold engine objects rather than strings.
- NpssArgs.RoundTrip: it holds only for fields the parser can read back (see `Emittable`). Excluded are: a value spelled like an option word that `_parse_arglist` tests before that option's pending branch (`-E -C`, see EarlierWordRefused); a path that fails the check; a definition containing `=`; and an access type other than PRIV, RO or RW. Each exclusion keeps the parser from taking the value back. The lemma does not prove that every excluded field fails to round trip.
- The containers and Slot and List variables of the assembly tests are not modelled, nor the copy-versus-identity behaviour of container connections. Only float and string variables are modelled.
- Nested assemblies and automatic passthroughs across them are not modelled. Every model is one assembly.
- `get_metadata` and the metadata copied onto passthroughs are not modelled, because they are trait introspection.
- Egg save/load, `FloatProxy` and `get_trait_typenames` are not modelled. They concern persistence and reflection.
- The type error raised when a value of the wrong kind is set is modelled as `TypeMismatch`. Its message text is not modelled.
- Error message texts of the assembly are not modelled, apart from the names they carry.
- An exception raised by a component's `execute` is not modelled. Execution always succeeds.
- Execution.RunBringsMembersUpToDate, Execution.LazyEvaluation, Execution.BoundaryInputWriteThenRun: they assume a duplicate-free workflow in which no member depends on a later one, as in every test. For other orders, the model's `Run` is still defined and `Execution.RunSkipsUpToDate` still holds.
- Workflows: `calc_derivatives` and `check_derivatives` are not modelled, because derivatives are out of scope.
- A list workflow's `remove` is not modelled. The base class only declares it.
- `Listed` stands for a subclass whose iteration yields the member names in list order. Looking members up in the scope during iteration is not modelled.
- Workflows.Step: a member run that raises an exception other than StopIteration is not modelled.
- `config_changed` is a no-op in the base class. It is modelled as a counter of notifications.
- The calls to each component's `stop` are modelled as the list of members stopped.
- IterationDrivers: the driver loop that calls `start_iteration` and `continue_iteration` is not modelled. It belongs to the Driver base class, which is not part of this model; `Granted` stands for a loop that keeps asking.
- The `should_stop` conditions are not modelled. They are the `stopAt` input.
- IterationDrivers.Execute: parameter values, residuals, norms, the tolerance, the history's contents and case recording are not modelled. Convergence after iteration k is the `converged(k)` input. A `max_iteration` below zero fails at the history allocation, and zero fails after the initial run when the first residual row is stored; both are `NoHistory`, and the exception kinds are not distinguished.

## Findings

| source | as written | input that shows it | evidently intended | confidence | as-written member | corrected member |
|---|---|---|---|---|---|---|
| openmdao.lib/src/openmdao/lib/drivers/iterate.py:164-166 | `start_iteration` assigns `self.iterations = 0`, a name nothing reads, so `iteration` is not reset | a default `IterateUntil` with no stop condition, executed twice: the first execution runs 10 iterations and leaves `iteration == 10`, so the second execution's first `continue_iteration` returns False and it runs none | reset `iteration` to 0 so every execution runs its iterations again | medium (not executed; the loop that calls these lives in the Driver base class) | IterationDrivers.SecondExecutionRunsNothing | IterationDrivers.EveryExecutionRunsAgain |
