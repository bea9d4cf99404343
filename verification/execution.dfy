/** Reading, writing and running an Assembly: `get`, `get_valid`, `set`,
    one component's execution, and the workflow `run` that executes only
    the members that are not up to date. */
module Execution {
  import opened Results
  import opened Dataflow
  import Strings
  import Digraph
  import Connections

  /** Children downstream of `roots` in the component graph, the roots
      included. */
  function Affected(a: Asm, roots: set<string>): set<string> {
    Digraph.Reach(CompGraph(a), roots)
  }

  /** Ports made stale when the children in `dirty` may produce new
      outputs: their outputs, and every destination one of them feeds. */
  function StalePorts(a: Asm, dirty: set<string>): (r: set<Port>)
    ensures forall p :: p in r <==>
      || (p.Child? && p.comp in dirty && VarAt(a, p).Some? && VarAt(a, p).value.dir == Out)
      || (p in a.links && a.links[p].Child? && a.links[p].comp in dirty)
  {
    var outs := set c, x | c in dirty && c in a.comps && x in a.comps[c].vars && a.comps[c].vars[x].dir == Out :: Child(c, x);
    var fed := set d | d in a.links && a.links[d].Child? && a.links[d].comp in dirty;
    outs + fed
  }

  /** Destinations connected to `p`. */
  function FedBy(a: Asm, p: Port): set<Port> {
    set d | d in a.links && a.links[d] == p
  }

  /** Children owning a destination connected to `p`. */
  function FedComps(a: Asm, p: Port): set<string> {
    set d | d in a.links && a.links[d] == p && d.Child? :: d.comp
  }

  /** A child is up to date when it has executed and all its variables are
      valid; otherwise the next run executes it. */
  predicate Clean(a: Asm, c: string) {
    && c in a.comps
    && a.comps[c].execCount > 0
    && forall x :: x in a.comps[c].vars ==> a.comps[c].vars[x].valid
  }

  /** The store of one variable, written and marked valid. */
  function Write(a: Asm, p: Port, v: Value): (r: Asm)
    requires VarAt(a, p).Some?
    ensures r.links == a.links && r.workflow == a.workflow
    ensures SameShape(a, r)
    ensures VarAt(r, p) == Some(VarAt(a, p).value.(value := v, valid := true))
    ensures forall q :: q != p ==> VarAt(r, q) == VarAt(a, q)
  {
    match p
    case Child(c, x) =>
      var comp := a.comps[c];
      a.(comps := a.comps[c := comp.(vars := comp.vars[x := comp.vars[x].(value := v, valid := true)])])
    case Boundary(x) =>
      a.(boundary := a.boundary[x := a.boundary[x].(value := v, valid := true)])
  }

  /** Both values are floats or both are strings. */
  predicate SameType(u: Value, v: Value) {
    u.Num? == v.Num?
  }

  /** `set(path, value)`. A connected destination cannot be set directly,
      nor can an output; the value must have the variable's type. A child
      input written becomes valid and its child's outputs, and everything
      downstream of that child, become stale. A boundary input written
      becomes valid and the inputs it feeds, with everything downstream of
      their children, become stale; their values are kept until a run. */
  function Set(a: Asm, path: string, v: Value): (r: Result<Asm, AsmError>)
    ensures Resolve(a, path).Err? ==> r == Err(NotFound(path))
    ensures Resolve(a, path).Ok? && Resolve(a, path).value in a.links ==>
      r == Err(ConnectedInput(path, PathOf(a.links[Resolve(a, path).value])))
    ensures r.Ok? <==>
      && Resolve(a, path).Ok?
      && Resolve(a, path).value !in a.links
      && VarAt(a, Resolve(a, path).value).value.dir == In
      && SameType(VarAt(a, Resolve(a, path).value).value.value, v)
    ensures r.Ok? ==> r.value == Store(a, Resolve(a, path).value, v)
    ensures r.Ok? ==>
      var p := Resolve(a, path).value;
      && ValueAt(r.value, p) == v && ValidAt(r.value, p)
      && (forall q :: q != p ==> ValueAt(r.value, q) == ValueAt(a, q))
      && (forall d :: d in a.links && a.links[d] == p ==> !ValidAt(r.value, d))
  {
    var p :- Resolve(a, path);
    var cur := VarAt(a, p).value;
    if p in a.links then Err(ConnectedInput(path, PathOf(a.links[p])))
    else if cur.dir != In then Err(OutputNotSettable(path))
    else if !SameType(cur.value, v) then Err(TypeMismatch(path))
    else Ok(Store(a, p, v))
  }

  /** Children whose outputs a write to `p` makes stale: the owner of a
      child input, the children fed by a boundary input. */
  function WriteRoots(a: Asm, p: Port): set<string> {
    if p.Child? then {p.comp} else FedComps(a, p)
  }

  /** The state change of a successful `set`. */
  function Store(a: Asm, p: Port, v: Value): Asm
    requires VarAt(a, p).Some?
  {
    Invalidate(Write(a, p, v), FedBy(a, p) + StalePorts(a, Affected(a, WriteRoots(a, p))))
  }

  /** `get(path)`. */
  function Get(a: Asm, path: string): (r: Result<Value, AsmError>)
    ensures r.Ok? <==> Resolve(a, path).Ok?
    ensures r.Ok? ==> r.value == VarAt(a, Resolve(a, path).value).value.value
  {
    var p :- Resolve(a, path);
    Ok(ValueAt(a, p))
  }

  /** `get_valid(paths)`: the valid bit of each path, in order. */
  function GetValid(a: Asm, paths: seq<string>): (r: Result<seq<bool>, AsmError>)
    ensures r.Ok? <==> forall i :: 0 <= i < |paths| ==> Resolve(a, paths[i]).Ok?
    ensures r.Ok? ==>
      && |r.value| == |paths|
      && forall i :: 0 <= i < |paths| ==> r.value[i] == ValidAt(a, Resolve(a, paths[i]).value)
  {
    if |paths| == 0 then Ok([])
    else
      var p :- Resolve(a, paths[0]);
      var rest :- GetValid(a, paths[1..]);
      Ok([ValidAt(a, p)] + rest)
  }

  function NumOf(v: Value): real {
    if v.Num? then v.x else 0.0
  }

  function TextOf(v: Value): string {
    if v.Text? then v.s else ""
  }

  function Lookup(vars: map<string, Var>, x: string): Value {
    if x in vars then vars[x].value else Num(0.0)
  }

  function Put(vars: map<string, Var>, x: string, v: Value): map<string, Var> {
    if x in vars then vars[x := vars[x].(value := v)] else vars
  }

  /** Variables each test component's `execute` assigns. */
  function OutNames(kind: Kind): set<string> {
    match kind
    case Multiplier => {"rval_out"}
    case Simple => {"c", "d"}
    case Dummy => {"rout", "r2out", "sout"}
  }

  /** The `execute` bodies of `Multiplier`, `Simple` and `DummyComp`. */
  function Compute(kind: Kind, vars: map<string, Var>): (r: map<string, Var>)
    ensures r.Keys == vars.Keys
    ensures forall x :: x in vars && x !in OutNames(kind) ==> r[x] == vars[x]
    ensures forall x :: x in vars ==> r[x].dir == vars[x].dir
  {
    match kind
    case Multiplier =>
      Put(vars, "rval_out", Num(NumOf(Lookup(vars, "rval_in")) * NumOf(Lookup(vars, "mult"))))
    case Simple =>
      var a := NumOf(Lookup(vars, "a"));
      var b := NumOf(Lookup(vars, "b"));
      Put(Put(vars, "c", Num(a + b)), "d", Num(a - b))
    case Dummy =>
      var v1 := Put(vars, "rout", Num(NumOf(Lookup(vars, "r")) * 1.5));
      var v2 := Put(v1, "r2out", Num(NumOf(Lookup(vars, "r2")) + 10.0));
      Put(v2, "sout", Text(Strings.Reverse(TextOf(Lookup(vars, "s")))))
  }

  /** Every name a class's `execute` assigns is one of its outputs. */
  lemma OutNamesAreOutputs(kind: Kind)
    ensures forall x :: x in OutNames(kind) ==> x in Declared(kind) && Declared(kind)[x].dir == Out
  {
  }

  /** Child `c`'s variables with each connected input replaced by its
      source's value. */
  function Pull(a: Asm, c: string): (r: map<string, Var>)
    requires c in a.comps
    ensures r.Keys == a.comps[c].vars.Keys
    ensures forall x :: x in r ==>
      r[x] == if Child(c, x) in a.links then a.comps[c].vars[x].(value := ValueAt(a, a.links[Child(c, x)]))
              else a.comps[c].vars[x]
  {
    map x | x in a.comps[c].vars ::
      if Child(c, x) in a.links then a.comps[c].vars[x].(value := ValueAt(a, a.links[Child(c, x)]))
      else a.comps[c].vars[x]
  }

  function MarkValid(vars: map<string, Var>): (r: map<string, Var>)
    ensures r.Keys == vars.Keys
    ensures forall x :: x in vars ==> r[x] == vars[x].(valid := true)
  {
    map x | x in vars :: vars[x].(valid := true)
  }

  /** One execution of child `c`: pull its connected inputs, run its
      class's `execute`, count it, make everything downstream stale, and
      mark all of `c`'s own variables valid. */
  function Execute(a: Asm, c: string): (r: Asm)
    requires c in a.comps
    ensures SameShape(a, r)
  {
    var S := StalePorts(a, Affected(a, {c}));
    ExecutedVars(a, c);
    InvalidateReplaceShape(a, S, c, Ran(a, c));
    var st := Invalidate(a, S);
    st.(comps := st.comps[c := Ran(a, c)])
  }

  /** Child `c` after running its class's `execute` on its pulled inputs. */
  function Ran(a: Asm, c: string): Comp
    requires c in a.comps
  {
    Comp(a.comps[c].kind, MarkValid(Compute(a.comps[c].kind, Pull(a, c))), a.comps[c].execCount + 1)
  }

  /** Replacing one child by one of the same class and variable
      directions keeps the shape. */
  lemma ReplaceShape(a: Asm, b: Asm, c: string, comp: Comp)
    requires SameShape(a, b) && c in b.comps
    requires comp.kind == b.comps[c].kind && comp.vars.Keys == b.comps[c].vars.Keys
    requires forall x :: x in comp.vars ==> comp.vars[x].dir == b.comps[c].vars[x].dir
    ensures SameShape(a, b.(comps := b.comps[c := comp]))
  {
  }

  /** The variables `c` ends an execution with: same names and directions. */
  lemma ExecutedVars(a: Asm, c: string)
    requires c in a.comps
    ensures var vs := MarkValid(Compute(a.comps[c].kind, Pull(a, c)));
      && vs.Keys == a.comps[c].vars.Keys
      && forall x :: x in vs ==> vs[x].dir == a.comps[c].vars[x].dir && vs[x].valid
  {
  }

  /** Executing counts the execution and leaves the child up to date. */
  lemma ExecuteCleans(a: Asm, c: string)
    requires c in a.comps
    ensures Execute(a, c).comps[c].execCount == a.comps[c].execCount + 1
    ensures Clean(Execute(a, c), c)
  {
    ExecutedVars(a, c);
  }

  lemma InvalidateReplaceShape(a: Asm, S: set<Port>, c: string, comp: Comp)
    requires c in a.comps
    requires comp.kind == a.comps[c].kind && comp.vars.Keys == a.comps[c].vars.Keys
    requires forall x :: x in comp.vars ==> comp.vars[x].dir == a.comps[c].vars[x].dir
    ensures var st := Invalidate(a, S); SameShape(a, st.(comps := st.comps[c := comp]))
  {
    InvalidateSameShape(a, S);
    ReplaceShape(a, Invalidate(a, S), c, comp);
  }

  /** Every other child keeps its counter and values; its variables lose
      their valid bit exactly when they are stale. The boundary likewise. */
  lemma ExecuteOthers(a: Asm, c: string)
    requires c in a.comps
    ensures Execute(a, c).boundary.Keys == a.boundary.Keys
    ensures forall c' :: c' in a.comps && c' != c ==>
      Execute(a, c).comps[c'].execCount == a.comps[c'].execCount && Execute(a, c).comps[c'].kind == a.comps[c'].kind
    ensures forall p :: VarAt(a, p).Some? && !(p.Child? && p.comp == c) ==>
      VarAt(Execute(a, c), p) == Some(VarAt(a, p).value.(valid := VarAt(a, p).value.valid && p !in StalePorts(a, Affected(a, {c}))))
  {
    ReplaceOthers(a, StalePorts(a, Affected(a, {c})), c, Ran(a, c));
  }

  /** Invalidating `S` and then replacing child `c` leaves every other
      child's counter and class alone, and every other port's variable as
      the invalidation left it. */
  lemma ReplaceOthers(a: Asm, S: set<Port>, c: string, comp: Comp)
    requires c in a.comps
    ensures Invalidate(a, S).(comps := Invalidate(a, S).comps[c := comp]).boundary.Keys == a.boundary.Keys
    ensures forall c' :: c' in a.comps && c' != c ==>
      Invalidate(a, S).(comps := Invalidate(a, S).comps[c := comp]).comps[c'].execCount == a.comps[c'].execCount &&
      Invalidate(a, S).(comps := Invalidate(a, S).comps[c := comp]).comps[c'].kind == a.comps[c'].kind
    ensures forall p :: VarAt(a, p).Some? && !(p.Child? && p.comp == c) ==>
      VarAt(Invalidate(a, S).(comps := Invalidate(a, S).comps[c := comp]), p) ==
        Some(VarAt(a, p).value.(valid := VarAt(a, p).value.valid && p !in S))
  {
    var st := Invalidate(a, S);
    var r := st.(comps := st.comps[c := comp]);
    forall p | VarAt(a, p).Some? && !(p.Child? && p.comp == c)
      ensures VarAt(r, p) == Some(VarAt(a, p).value.(valid := VarAt(a, p).value.valid && p !in S))
    {
      assert VarAt(r, p) == VarAt(st, p);
    }
  }

  /** No port of a child outside a downstream-closed set is stale. */
  lemma NotStale(a: Asm, D: set<string>, c': string, x: string)
    requires Digraph.Succ(CompGraph(a), D) <= D && c' !in D
    ensures Child(c', x) !in StalePorts(a, D)
  {
    forall d | d in a.links && d.Child? && a.links[d].Child? && a.links[d].comp in D
      ensures d.comp in D
    {
      assert (a.links[d].comp, d.comp) in CompGraph(a);
    }
  }

  /** A child outside the downstream set of `c` is untouched. */
  lemma ExecuteFrame(a: Asm, c: string, c': string)
    requires c in a.comps && c' in a.comps && c' !in Affected(a, {c})
    ensures Execute(a, c).comps[c'] == a.comps[c']
  {
    var r := Execute(a, c);
    ExecuteOthers(a, c);
    forall x | x in a.comps[c'].vars
      ensures r.comps[c'].vars[x] == a.comps[c'].vars[x]
    {
      NotStale(a, Affected(a, {c}), c', x);
      assert VarAt(r, Child(c', x)) == VarAt(a, Child(c', x));
    }
    assert r.comps[c'].vars == a.comps[c'].vars;
  }

  /** A child that needed to run still does after another executes. */
  lemma ExecuteKeepsDirty(a: Asm, c: string, c': string)
    requires c in a.comps && c' in a.comps && c' != c && !Clean(a, c')
    ensures !Clean(Execute(a, c), c')
  {
    ExecuteOthers(a, c);
    if a.comps[c'].execCount > 0 {
      var x :| x in a.comps[c'].vars && !a.comps[c'].vars[x].valid;
      assert VarAt(a, Child(c', x)).Some?;
    }
  }

  /** An executed child's inputs end up holding what it read: its
      connected inputs their sources' values, the others their own. */
  lemma ExecuteInputs(a: Asm, c: string, x: string)
    requires Declarations(a) && c in a.comps && x in a.comps[c].vars && a.comps[c].vars[x].dir == In
    ensures ValueAt(Execute(a, c), Child(c, x)) ==
      if Child(c, x) in a.links then ValueAt(a, a.links[Child(c, x)]) else ValueAt(a, Child(c, x))
  {
    OutNamesAreOutputs(a.comps[c].kind);
    assert x !in OutNames(a.comps[c].kind);
  }

  /** Executing a child keeps the whole invariant. */
  lemma ExecuteKeepsWf(a: Asm, c: string)
    requires Wf(a) && c in a.comps
    ensures Wf(Execute(a, c))
  {
    var r := Execute(a, c);
    var st := StalePorts(a, Affected(a, {c}));
    SameShapeKeepsStructure(a, r);
    ExecuteOthers(a, c);
    forall d | d in r.links && ValidAt(r, d)
      ensures ValueAt(r, d) == ValueAt(r, r.links[d])
    {
      var src := a.links[d];
      assert IsSink(a, d) && IsSource(a, src) && !SameOwner(src, d);
      if d.Child? && d.comp == c {
        ExecuteInputs(a, c, d.name);
        assert ValueAt(r, src) == ValueAt(a, src);
      } else {
        assert ValidAt(a, d) && d !in st;
        assert !(src.Child? && src.comp == c);
        assert ValueAt(r, src) == ValueAt(a, src);
      }
    }
  }

  /** One workflow member's turn: execute it when it is not up to date. */
  function Step(a: Asm, c: string): Asm {
    if c in a.comps && !Clean(a, c) then Execute(a, c) else a
  }

  /** The members of `w`, first to last, each taking its turn. */
  function RunMembers(a: Asm, w: seq<string>): Asm
    decreases |w|
  {
    if |w| == 0 then a else Step(RunMembers(a, w[..|w| - 1]), w[|w| - 1])
  }

  /** Boundary outputs take their sources' values. */
  function PullBoundary(a: Asm): (r: Asm)
    ensures r.comps == a.comps && r.links == a.links && r.workflow == a.workflow
    ensures r.boundary.Keys == a.boundary.Keys
    ensures forall x :: x in a.boundary ==> r.boundary[x].dir == a.boundary[x].dir
    ensures forall x :: x in a.boundary && Boundary(x) !in a.links ==> r.boundary[x] == a.boundary[x]
    ensures forall x :: x in a.boundary && Boundary(x) in a.links ==>
      r.boundary[x].value == ValueAt(a, a.links[Boundary(x)]) && r.boundary[x].valid
  {
    a.(boundary := map x | x in a.boundary ::
         if Boundary(x) in a.links then a.boundary[x].(value := ValueAt(a, a.links[Boundary(x)]), valid := true)
         else a.boundary[x])
  }

  /** `run()`: the workflow in order, then the boundary outputs. */
  function Run(a: Asm): Asm {
    PullBoundary(RunMembers(a, a.workflow))
  }

  /** `set` keeps the whole invariant. */
  lemma SetKeepsWf(a: Asm, path: string, v: Value)
    requires Wf(a) && Set(a, path, v).Ok?
    ensures Wf(Set(a, path, v).value)
    ensures SameShape(a, Set(a, path, v).value)
  {
    var p := Resolve(a, path).value;
    var S := FedBy(a, p) + StalePorts(a, Affected(a, WriteRoots(a, p)));
    var w := Write(a, p, v);
    var r := Invalidate(w, S);
    assert r == Store(a, p, v);
    SameShapeKeepsStructure(a, w);
    InvalidateSameShape(w, S);
    SameShapeKeepsStructure(w, r);
    SameShapeTrans(a, w, r);
    forall d | d in r.links && ValidAt(r, d)
      ensures ValueAt(r, d) == ValueAt(r, r.links[d])
    {
      assert d != p;
      assert VarAt(a, a.links[d]).Some?;
      assert a.links[d] != p;
      assert ValidAt(a, d);
    }
  }

  lemma SameShapeTrans(a: Asm, b: Asm, c: Asm)
    requires SameShape(a, b) && SameShape(b, c)
    ensures SameShape(a, c)
  {
  }

  /** Writing a variable that is not connected keeps every counter. */
  lemma SetKeepsCounts(a: Asm, path: string, v: Value)
    requires Set(a, path, v).Ok?
    ensures forall c :: c in a.comps ==> Set(a, path, v).value.comps[c].execCount == a.comps[c].execCount
  {
  }

  /** A connected input cannot be set and keeps its value; once
      `disconnect(src, dst)` has removed its connection, the same `set`
      succeeds and stores the value. */
  lemma SetConnectedThenDisconnected(a: Asm, src: string, dst: string, v: Value)
    requires Resolve(a, src).Ok? && Resolve(a, dst).Ok?
    requires Resolve(a, dst).value in a.links && a.links[Resolve(a, dst).value] == Resolve(a, src).value
    requires VarAt(a, Resolve(a, dst).value).value.dir == In
    requires SameType(ValueAt(a, Resolve(a, dst).value), v)
    ensures Set(a, dst, v) == Err(ConnectedInput(dst, PathOf(Resolve(a, src).value)))
    ensures Connections.Disconnect(a, src, Some(dst)).Ok?
    ensures var b := Connections.Disconnect(a, src, Some(dst)).value;
      Set(b, dst, v).Ok? && Get(Set(b, dst, v).value, dst) == Ok(v)
  {
    var b := Connections.Disconnect(a, src, Some(dst)).value;
    ResolveDependsOnNames(a, b, dst);
    var p := Resolve(a, dst).value;
    assert VarAt(b, p) == VarAt(a, p);
    ResolveDependsOnNames(b, Set(b, dst, v).value, dst);
  }

  /** Resolution only looks at component, variable and boundary names. */
  lemma ResolveDependsOnNames(a: Asm, b: Asm, path: string)
    requires a.comps.Keys == b.comps.Keys && a.boundary.Keys == b.boundary.Keys
    requires forall c :: c in a.comps ==> a.comps[c].vars.Keys == b.comps[c].vars.Keys
    ensures Resolve(a, path) == Resolve(b, path)
  {
  }

  lemma CompGraphOfLinks(a: Asm, b: Asm)
    requires a.links == b.links
    ensures CompGraph(a) == CompGraph(b)
  {
  }

  /** Running members never touches a child outside a downstream-closed
      set `R` when every child outside `R` starts up to date. */
  lemma {:induction false} RunMembersFrame(a: Asm, w: seq<string>, R: set<string>)
    requires Digraph.Succ(CompGraph(a), R) <= R
    requires forall c :: c in a.comps && c !in R ==> Clean(a, c)
    ensures SameShape(a, RunMembers(a, w))
    ensures forall c :: c in a.comps && c !in R ==> RunMembers(a, w).comps[c] == a.comps[c]
    decreases |w|
  {
    if |w| > 0 {
      RunMembersFrame(a, w[..|w| - 1], R);
      StepFrame(a, RunMembers(a, w[..|w| - 1]), w[|w| - 1], R);
    }
  }

  /** One turn of a member, seen from a child outside a downstream-closed
      set `R` whose members outside start up to date. */
  lemma StepFrame(a: Asm, s: Asm, c: string, R: set<string>)
    requires Digraph.Succ(CompGraph(a), R) <= R
    requires forall c :: c in a.comps && c !in R ==> Clean(a, c)
    requires SameShape(a, s)
    requires forall c :: c in a.comps && c !in R ==> s.comps[c] == a.comps[c]
    ensures SameShape(a, Step(s, c))
    ensures forall c' :: c' in a.comps && c' !in R ==> Step(s, c).comps[c'] == a.comps[c']
  {
    if c in s.comps && !Clean(s, c) {
      assert c in R;
      CompGraphOfLinks(a, s);
      Digraph.ReachWithin(CompGraph(s), {c}, R);
      forall c' | c' in a.comps && c' !in R
        ensures Execute(s, c).comps[c'] == a.comps[c']
      {
        ExecuteFrame(s, c, c');
      }
      SameShapeTrans(a, s, Execute(s, c));
    }
  }

  ghost predicate Distinct(w: seq<string>) {
    forall i, j :: 0 <= i < j < |w| ==> w[i] != w[j]
  }

  /** No workflow member depends, directly or through other children, on
      a member after it. */
  ghost predicate DependencyOrdered(g: set<(string, string)>, w: seq<string>) {
    forall i, j :: 0 <= i < |w| && 0 <= j < |w| && i != j && Digraph.Reachable(g, w[i], w[j]) ==> i < j
  }

  /** Members before position `n` are up to date in `s`. */
  ghost predicate EarlierClean(a: Asm, w: seq<string>, n: nat, s: Asm)
    requires n <= |w|
  {
    forall k :: 0 <= k < n && w[k] in a.comps ==> Clean(s, w[k])
  }

  /** Members before position `n` that started out of date ran once. */
  ghost predicate EarlierRanOnce(a: Asm, w: seq<string>, n: nat, s: Asm)
    requires n <= |w|
  {
    && s.comps.Keys == a.comps.Keys
    && forall k :: 0 <= k < n && w[k] in a.comps && !Clean(a, w[k]) ==>
      s.comps[w[k]].execCount == a.comps[w[k]].execCount + 1
  }

  /** Children without a turn so far have not run, and are still out of
      date if they started so. */
  ghost predicate RestWaiting(a: Asm, w: seq<string>, n: nat, s: Asm)
    requires n <= |w|
  {
    && s.comps.Keys == a.comps.Keys
    && forall c :: c in a.comps && c !in w[..n] ==>
      s.comps[c].execCount == a.comps[c].execCount && (!Clean(a, c) ==> !Clean(s, c))
  }

  /** What the first `n` turns of a run guarantee. */
  ghost predicate PrefixDone(a: Asm, w: seq<string>, n: nat, s: Asm)
    requires n <= |w|
  {
    Wf(s) && SameShape(a, s) && EarlierClean(a, w, n, s) && EarlierRanOnce(a, w, n, s) && RestWaiting(a, w, n, s)
  }

  /** A member's turn leaves earlier members alone: none of them is
      downstream of it. */
  lemma EarlierNotAffected(s: Asm, w: seq<string>, n: nat, k: nat)
    requires n < |w| && k < n && Distinct(w) && DependencyOrdered(CompGraph(s), w)
    ensures w[k] !in Affected(s, {w[n]})
  {
    if w[k] in Affected(s, {w[n]}) {
      Digraph.ReachSound(CompGraph(s), {w[n]}, w[k]);
    }
  }

  /** Earlier members keep their state through `w[n]`'s execution. */
  lemma ExecuteSparesEarlier(a: Asm, w: seq<string>, n: nat, s: Asm)
    requires n < |w| && Distinct(w) && DependencyOrdered(CompGraph(a), w)
    requires s.links == a.links && w[n] in s.comps
    ensures forall k :: 0 <= k < n && w[k] in s.comps ==> Execute(s, w[n]).comps[w[k]] == s.comps[w[k]]
  {
    CompGraphOfLinks(a, s);
    forall k | 0 <= k < n && w[k] in s.comps
      ensures Execute(s, w[n]).comps[w[k]] == s.comps[w[k]]
    {
      EarlierNotAffected(s, w, n, k);
      ExecuteFrame(s, w[n], w[k]);
    }
  }

  /** Later members and non-members keep their counters and stay out of
      date through `w[n]`'s execution. */
  lemma ExecuteSparesLater(a: Asm, w: seq<string>, n: nat, s: Asm)
    requires n < |w| && Distinct(w) && w[n] in s.comps
    requires RestWaiting(a, w, n, s)
    ensures RestWaiting(a, w, n + 1, Execute(s, w[n]))
  {
    assert Execute(s, w[n]).comps.Keys == s.comps.Keys;
    var c := w[n];
    ExecuteOthers(s, c);
    forall c' | c' in a.comps && c' !in w[..n + 1]
      ensures Execute(s, c).comps[c'].execCount == a.comps[c'].execCount
      ensures !Clean(a, c') ==> !Clean(Execute(s, c), c')
    {
      assert c' != c && c' !in w[..n];
      if !Clean(a, c') {
        ExecuteKeepsDirty(s, c, c');
      }
    }
  }

  lemma ExecuteKeepsEarlierClean(a: Asm, w: seq<string>, n: nat, s: Asm)
    requires n < |w| && Distinct(w) && DependencyOrdered(CompGraph(a), w)
    requires s.links == a.links && s.comps.Keys == a.comps.Keys && w[n] in s.comps
    requires EarlierClean(a, w, n, s)
    ensures EarlierClean(a, w, n + 1, Execute(s, w[n]))
  {
    var r := Execute(s, w[n]);
    ExecuteCleans(s, w[n]);
    ExecuteSparesEarlier(a, w, n, s);
    forall k | 0 <= k < n + 1 && w[k] in a.comps
      ensures Clean(r, w[k])
    {
      if k < n {
        assert Clean(s, w[k]);
        assert r.comps[w[k]] == s.comps[w[k]];
      }
    }
  }

  lemma ExecuteCountsOnce(a: Asm, w: seq<string>, n: nat, s: Asm)
    requires n < |w| && Distinct(w) && DependencyOrdered(CompGraph(a), w)
    requires s.links == a.links && w[n] in s.comps
    requires EarlierRanOnce(a, w, n, s) && RestWaiting(a, w, n, s)
    ensures EarlierRanOnce(a, w, n + 1, Execute(s, w[n]))
  {
    var c := w[n];
    var r := Execute(s, c);
    ExecuteCleans(s, c);
    ExecuteSparesEarlier(a, w, n, s);
    assert c !in w[..n];
    assert r.comps.Keys == s.comps.Keys;
    forall k | 0 <= k < n + 1 && w[k] in a.comps && !Clean(a, w[k])
      ensures r.comps[w[k]].execCount == a.comps[w[k]].execCount + 1
    {
      if k < n {
        assert s.comps[w[k]].execCount == a.comps[w[k]].execCount + 1;
        assert r.comps[w[k]] == s.comps[w[k]];
      } else {
        assert s.comps[c].execCount == a.comps[c].execCount;
      }
    }
  }

  /** The turn of member `w[n]` when it must run. */
  lemma RunStepExecutes(a: Asm, w: seq<string>, n: nat, s: Asm)
    requires n < |w| && Distinct(w) && DependencyOrdered(CompGraph(a), w)
    requires PrefixDone(a, w, n, s)
    requires w[n] in s.comps && !Clean(s, w[n])
    ensures PrefixDone(a, w, n + 1, Execute(s, w[n]))
  {
    var r := Execute(s, w[n]);
    ExecuteKeepsWf(s, w[n]);
    SameShapeTrans(a, s, r);
    ExecuteKeepsEarlierClean(a, w, n, s);
    ExecuteCountsOnce(a, w, n, s);
    ExecuteSparesLater(a, w, n, s);
  }

  /** The turn of member `w[n]` when it is up to date or not a child. */
  lemma RunStepSkips(a: Asm, w: seq<string>, n: nat, s: Asm)
    requires n < |w| && Distinct(w)
    requires PrefixDone(a, w, n, s)
    requires !(w[n] in s.comps && !Clean(s, w[n]))
    ensures PrefixDone(a, w, n + 1, s)
  {
    assert w[n] !in w[..n];
    forall c' | c' in a.comps && c' !in w[..n + 1]
      ensures c' !in w[..n]
    {
    }
  }

  lemma {:induction false} RunPrefix(a: Asm, w: seq<string>, n: nat)
    requires Wf(a) && Distinct(w) && DependencyOrdered(CompGraph(a), w) && n <= |w|
    ensures PrefixDone(a, w, n, RunMembers(a, w[..n]))
    decreases n
  {
    if n == 0 {
      assert RunMembers(a, w[..0]) == a;
    } else {
      var s := RunMembers(a, w[..n - 1]);
      RunPrefix(a, w, n - 1);
      assert w[..n][..n - 1] == w[..n - 1];
      assert RunMembers(a, w[..n]) == Step(s, w[n - 1]);
      if w[n - 1] in s.comps && !Clean(s, w[n - 1]) {
        RunStepExecutes(a, w, n - 1, s);
      } else {
        RunStepSkips(a, w, n - 1, s);
      }
    }
  }

  /** Execution never changes a boundary variable's value. */
  lemma {:induction false} RunMembersKeepsBoundary(a: Asm, w: seq<string>)
    ensures RunMembers(a, w).boundary.Keys == a.boundary.Keys
    ensures RunMembers(a, w).links == a.links
    ensures forall x :: x in a.boundary ==> RunMembers(a, w).boundary[x].value == a.boundary[x].value
    decreases |w|
  {
    if |w| > 0 {
      RunMembersKeepsBoundary(a, w[..|w| - 1]);
      StepKeepsBoundary(RunMembers(a, w[..|w| - 1]), w[|w| - 1]);
    }
  }

  /** One turn of a member keeps the boundary's values and the links. */
  lemma StepKeepsBoundary(s: Asm, c: string)
    ensures Step(s, c).boundary.Keys == s.boundary.Keys
    ensures Step(s, c).links == s.links
    ensures forall x :: x in s.boundary ==> Step(s, c).boundary[x].value == s.boundary[x].value
  {
    if c in s.comps && !Clean(s, c) {
      ExecuteOthers(s, c);
      forall x | x in s.boundary
        ensures Execute(s, c).boundary[x].value == s.boundary[x].value
      {
        assert VarAt(s, Boundary(x)).Some?;
      }
    }
  }

  lemma PullBoundaryKeepsWf(a: Asm)
    requires Wf(a)
    ensures Wf(PullBoundary(a))
  {
    var r := PullBoundary(a);
    assert SameShape(a, r);
    SameShapeKeepsStructure(a, r);
    forall d | d in r.links && ValidAt(r, d)
      ensures ValueAt(r, d) == ValueAt(r, r.links[d])
    {
      var src := a.links[d];
      assert IsSink(a, d) && IsSource(a, src) && !SameOwner(src, d);
      if src.Boundary? {
        assert Boundary(src.name) !in a.links;
      }
      assert ValueAt(r, src) == ValueAt(a, src);
      if d.Child? {
        assert ValidAt(a, d);
      }
    }
  }

  /** `run()` with a duplicate-free workflow in dependency order: the
      invariant holds after it, every member is up to date, each member
      that needed to run ran exactly once, and no other child ran. */
  lemma RunBringsMembersUpToDate(a: Asm)
    requires Wf(a) && Distinct(a.workflow) && DependencyOrdered(CompGraph(a), a.workflow)
    ensures Wf(Run(a)) && SameShape(a, Run(a))
    ensures forall c :: c in a.workflow && c in a.comps ==> Clean(Run(a), c)
    ensures forall c :: c in a.workflow && c in a.comps && !Clean(a, c) ==>
      Run(a).comps[c].execCount == a.comps[c].execCount + 1
    ensures forall c :: c in a.comps && c !in a.workflow ==> Run(a).comps[c].execCount == a.comps[c].execCount
  {
    var w := a.workflow;
    RunPrefix(a, w, |w|);
    assert w[..|w|] == w;
    var s := RunMembers(a, w);
    PullBoundaryKeepsWf(s);
    assert SameShape(s, Run(a));
    SameShapeTrans(a, s, Run(a));
    forall c | c in w && c in a.comps
      ensures Clean(Run(a), c)
    {
      var k :| 0 <= k < |w| && w[k] == c;
    }
    forall c | c in w && c in a.comps && !Clean(a, c)
      ensures Run(a).comps[c].execCount == a.comps[c].execCount + 1
    {
      var k :| 0 <= k < |w| && w[k] == c;
    }
  }

  /** Minimal re-execution: a run leaves every child alone that is
      neither out of date nor downstream of one that is. */
  lemma RunSkipsUpToDate(a: Asm)
    ensures Run(a).comps.Keys == a.comps.Keys
    ensures var dirty := set c | c in a.comps && !Clean(a, c);
      forall c :: c in a.comps && c !in Digraph.Reach(CompGraph(a), dirty) ==> Run(a).comps[c] == a.comps[c]
  {
    var dirty := set c | c in a.comps && !Clean(a, c);
    RunMembersFrame(a, a.workflow, Digraph.Reach(CompGraph(a), dirty));
  }

  /** Every test component class has an output. */
  lemma KindHasOutput(kind: Kind) returns (o: string)
    ensures o in Declared(kind) && Declared(kind)[o].dir == Out
  {
    match kind
    case Multiplier => o := "rval_out";
    case Simple => o := "c";
    case Dummy => o := "rout";
  }

  /** A child's input feeds no connection. */
  lemma ChildInputFeedsNothing(a: Asm, p: Port)
    requires LinksWellFormed(a) && p.Child? && VarAt(a, p).Some? && VarAt(a, p).value.dir == In
    ensures FedBy(a, p) == {}
  {
    forall d | d in a.links
      ensures a.links[d] != p
    {
      assert IsSource(a, a.links[d]);
    }
  }

  lemma WriteInvalidateFrame(a: Asm, p: Port, v: Value, S: set<Port>, d: string)
    requires VarAt(a, p).Some? && d in a.comps && !(p.Child? && p.comp == d)
    requires forall y :: Child(d, y) !in S
    ensures Invalidate(Write(a, p, v), S).comps[d] == a.comps[d]
  {
    var b := Invalidate(Write(a, p, v), S);
    forall y | y in a.comps[d].vars
      ensures b.comps[d].vars[y] == a.comps[d].vars[y]
    {
      assert VarAt(b, Child(d, y)) == VarAt(a, Child(d, y));
    }
  }

  lemma StoreChildFrame(a: Asm, p: Port, v: Value, d: string)
    requires LinksWellFormed(a) && p.Child? && VarAt(a, p).Some? && VarAt(a, p).value.dir == In
    requires d in a.comps && d !in Affected(a, {p.comp})
    ensures Store(a, p, v).comps[d] == a.comps[d]
  {
    var D := Affected(a, {p.comp});
    ChildInputFeedsNothing(a, p);
    var S := StalePorts(a, D);
    assert WriteRoots(a, p) == {p.comp};
    assert FedBy(a, p) + S == S;
    assert Store(a, p, v) == Invalidate(Write(a, p, v), S);
    forall y
      ensures Child(d, y) !in S
    {
      NotStale(a, D, d, y);
    }
    WriteInvalidateFrame(a, p, v, S, d);
  }

  /** Writing child `c`'s input leaves every child outside the downstream
      set of `c` untouched. */
  lemma SetChildInputFrame(a: Asm, path: string, v: Value)
    requires Wf(a) && Set(a, path, v).Ok? && Resolve(a, path).value.Child?
    ensures var b := Set(a, path, v).value; var D := Affected(a, {Resolve(a, path).value.comp});
      forall d :: d in a.comps && d !in D ==> b.comps[d] == a.comps[d]
  {
    var p := Resolve(a, path).value;
    forall d | d in a.comps && d !in Affected(a, {p.comp})
      ensures Store(a, p, v).comps[d] == a.comps[d]
    {
      StoreChildFrame(a, p, v, d);
    }
  }

  /** ...and every child in that downstream set out of date. */
  lemma SetChildInputDirties(a: Asm, path: string, v: Value)
    requires Wf(a) && Set(a, path, v).Ok? && Resolve(a, path).value.Child?
    ensures var b := Set(a, path, v).value; var D := Affected(a, {Resolve(a, path).value.comp});
      forall d :: d in a.comps && d in D ==> !Clean(b, d)
  {
    var p := Resolve(a, path).value;
    var D := Affected(a, {p.comp});
    var b := Set(a, path, v).value;
    var S := FedBy(a, p) + StalePorts(a, D);
    var w := Write(a, p, v);
    assert Store(a, p, v) == Invalidate(w, S);
    forall d | d in a.comps && d in D
      ensures !Clean(b, d)
    {
      var o := KindHasOutput(a.comps[d].kind);
      assert Child(d, o) in S;
      assert VarAt(w, Child(d, o)).Some?;
    }
  }

  /** Lazy evaluation: starting with every child up to date, writing one
      child's input and running re-executes exactly the workflow members
      downstream of that child (itself included), each once; every other
      child keeps its counter. */
  lemma LazyEvaluation(a: Asm, path: string, v: Value)
    requires Wf(a) && Distinct(a.workflow) && DependencyOrdered(CompGraph(a), a.workflow)
    requires forall c :: c in a.comps ==> Clean(a, c)
    requires Set(a, path, v).Ok? && Resolve(a, path).value.Child?
    ensures var r := Run(Set(a, path, v).value); var D := Affected(a, {Resolve(a, path).value.comp});
      && r.comps.Keys == a.comps.Keys
      && (forall d :: d in a.comps && d !in D ==> r.comps[d].execCount == a.comps[d].execCount)
      && (forall d :: d in a.comps && d in D && d in a.workflow ==> r.comps[d].execCount == a.comps[d].execCount + 1)
  {
    var b := Set(a, path, v).value;
    var D := Affected(a, {Resolve(a, path).value.comp});
    SetKeepsWf(a, path, v);
    SetKeepsCounts(a, path, v);
    SetChildInputFrame(a, path, v);
    SetChildInputDirties(a, path, v);
    CompGraphOfLinks(a, b);
    RunMembersFrame(b, b.workflow, D);
    RunBringsMembersUpToDate(b);
  }

  /** With no connection leaving child `c`, nothing is downstream of it. */
  lemma NothingDownstream(a: Asm, c: string)
    requires forall d :: d in a.links ==> !(a.links[d].Child? && a.links[d].comp == c)
    ensures Affected(a, {c}) == {c}
  {
    assert Digraph.Succ(CompGraph(a), {c}) == {};
    Digraph.ReachWithin(CompGraph(a), {c}, {c});
  }

  /** Writing an assembly input passthrough leaves each input it feeds
      invalid with its old value; a run then leaves each such input of a
      workflow member valid and holding the written value. */
  lemma BoundaryInputWriteThenRun(a: Asm, path: string, v: Value)
    requires Wf(a) && Distinct(a.workflow) && DependencyOrdered(CompGraph(a), a.workflow)
    requires Set(a, path, v).Ok? && Resolve(a, path).value.Boundary?
    ensures var p := Resolve(a, path).value; var b := Set(a, path, v).value;
      forall d :: d in a.links && a.links[d] == p ==> !ValidAt(b, d) && ValueAt(b, d) == ValueAt(a, d)
    ensures var p := Resolve(a, path).value; var r := Run(Set(a, path, v).value);
      forall d :: d in a.links && a.links[d] == p && d.Child? && d.comp in a.workflow ==>
        ValidAt(r, d) && ValueAt(r, d) == v
  {
    var p := Resolve(a, path).value;
    var b := Set(a, path, v).value;
    SetKeepsWf(a, path, v);
    CompGraphOfLinks(a, b);
    RunBringsMembersUpToDate(b);
    var s := RunMembers(b, b.workflow);
    RunMembersKeepsBoundary(b, b.workflow);
    var r := Run(b);
    assert ValueAt(r, p) == v;
    forall d | d in a.links && a.links[d] == p && d.Child? && d.comp in a.workflow
      ensures ValidAt(r, d) && ValueAt(r, d) == v
    {
      assert IsSink(a, d);
      assert Clean(r, d.comp);
    }
  }

  /** An output passthrough holds its source's value, valid, after `run`. */
  lemma OutputPassthroughAfterRun(a: Asm, x: string)
    requires x in a.boundary && Boundary(x) in a.links && a.links[Boundary(x)].Child?
    ensures RunMembers(a, a.workflow).boundary.Keys == a.boundary.Keys
    ensures ValidAt(Run(a), Boundary(x)) && ValueAt(Run(a), Boundary(x)) == ValueAt(Run(a), a.links[Boundary(x)])
  {
    RunMembersKeepsBoundary(a, a.workflow);
  }
}
