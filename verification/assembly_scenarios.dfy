/** Whole scenarios of the assembly tests replayed on the model: an
    assembly is built with `add`, `set` and `connect`, run, and read back
    with `get`, and the values and execution counters the tests expect are
    proved. */
module AssemblyScenarios {
  import opened Results
  import opened Dataflow
  import opened Execution
  import Connections
  import Digraph
  import Strings

  // ---------------------------------------------------------------------
  // Executing one child

  /** What child `c` reads for input `x` when it executes: its source's
      value when connected, its own value otherwise. */
  function Seen(a: Asm, c: string, x: string): Value {
    if Child(c, x) in a.links then ValueAt(a, a.links[Child(c, x)]) else ValueAt(a, Child(c, x))
  }

  /** What `Multiplier.execute` stores in `rval_out`. */
  function Product(u: Value, w: Value): Value {
    Num(NumOf(u) * NumOf(w))
  }

  /** After child `c` executes, each of its variables holds what its
      class's `execute` left there. */
  lemma ExecutedValue(a: Asm, c: string, x: string)
    requires c in a.comps && x in a.comps[c].vars
    ensures ValueAt(Execute(a, c), Child(c, x)) == Ran(a, c).vars[x].value
  {
    assert Execute(a, c).comps[c] == Ran(a, c);
  }

  /** The value `c` pulls for input `x` is the one it reads. */
  lemma PulledValue(a: Asm, c: string, x: string)
    requires c in a.comps && x in a.comps[c].vars
    ensures Lookup(Pull(a, c), x) == Seen(a, c, x)
  {
  }

  /** Variable `x` of the executed child holds what `execute` computed. */
  lemma RanValue(a: Asm, c: string, x: string)
    requires c in a.comps && x in a.comps[c].vars
    ensures x in Ran(a, c).vars && Ran(a, c).vars[x].value == Compute(a.comps[c].kind, Pull(a, c))[x].value
  {
  }

  /** `Multiplier.execute` on a map of variables whose input and factor
      read `u` and `w`. */
  lemma ComputeMultiplier(vars: map<string, Var>, u: Value, w: Value)
    requires "rval_out" in vars && Lookup(vars, "rval_in") == u && Lookup(vars, "mult") == w
    ensures Compute(Multiplier, vars)["rval_out"].value == Product(u, w)
  {
    ComputeMultiplierOut(vars);
  }

  lemma ComputeMultiplierOut(vars: map<string, Var>)
    requires "rval_out" in vars
    ensures Compute(Multiplier, vars)["rval_out"].value == Product(Lookup(vars, "rval_in"), Lookup(vars, "mult"))
  {
  }

  /** `Simple.execute` on a map of variables whose inputs read `u` and `w`. */
  lemma ComputeSimple(vars: map<string, Var>, u: Value, w: Value)
    requires "c" in vars && "d" in vars && Lookup(vars, "a") == u && Lookup(vars, "b") == w
    ensures Compute(Simple, vars)["c"].value == Num(NumOf(u) + NumOf(w))
    ensures Compute(Simple, vars)["d"].value == Num(NumOf(u) - NumOf(w))
  {
  }

  /** `DummyComp.execute` on a map of variables whose inputs read `u`, `w`
      and `t`. */
  lemma ComputeDummy(vars: map<string, Var>, u: Value, w: Value, t: Value)
    requires "rout" in vars && "r2out" in vars && "sout" in vars
    requires Lookup(vars, "r") == u && Lookup(vars, "r2") == w && Lookup(vars, "s") == t
    ensures Compute(Dummy, vars)["rout"].value == Num(NumOf(u) * 1.5)
    ensures Compute(Dummy, vars)["r2out"].value == Num(NumOf(w) + 10.0)
    ensures Compute(Dummy, vars)["sout"].value == Text(Strings.Reverse(TextOf(t)))
  {
  }

  /** An executed `Multiplier` holds in `rval_out` the product of the
      input and the factor it read. */
  lemma MultiplierRan(a: Asm, c: string, u: Value, w: Value)
    requires c in a.comps && a.comps[c].kind == Multiplier
    requires "rval_in" in a.comps[c].vars && "mult" in a.comps[c].vars && "rval_out" in a.comps[c].vars
    requires Seen(a, c, "rval_in") == u && Seen(a, c, "mult") == w
    ensures "rval_out" in Ran(a, c).vars
    ensures Ran(a, c).vars["rval_out"].value == Product(u, w)
  {
    PulledValue(a, c, "rval_in");
    PulledValue(a, c, "mult");
    ComputeMultiplier(Pull(a, c), u, w);
    RanValue(a, c, "rval_out");
  }

  /** ...and so does its `rval_out` port once the execution is stored. */
  lemma MultiplierExecutes(a: Asm, c: string, u: Value, w: Value)
    requires c in a.comps && a.comps[c].kind == Multiplier
    requires "rval_in" in a.comps[c].vars && "mult" in a.comps[c].vars && "rval_out" in a.comps[c].vars
    requires Seen(a, c, "rval_in") == u && Seen(a, c, "mult") == w
    ensures ValueAt(Execute(a, c), Child(c, "rval_out")) == Product(u, w)
  {
    MultiplierRan(a, c, u, w);
    ExecutedValue(a, c, "rval_out");
  }

  /** An executed `Simple` holds the sum of its inputs in `c` and their
      difference in `d`. */
  lemma SimpleRan(a: Asm, c: string)
    requires c in a.comps && a.comps[c].kind == Simple
    requires "a" in a.comps[c].vars && "b" in a.comps[c].vars && "c" in a.comps[c].vars && "d" in a.comps[c].vars
    ensures "c" in Ran(a, c).vars && "d" in Ran(a, c).vars
    ensures Ran(a, c).vars["c"].value == Num(NumOf(Seen(a, c, "a")) + NumOf(Seen(a, c, "b")))
    ensures Ran(a, c).vars["d"].value == Num(NumOf(Seen(a, c, "a")) - NumOf(Seen(a, c, "b")))
  {
    PulledValue(a, c, "a");
    PulledValue(a, c, "b");
    ComputeSimple(Pull(a, c), Seen(a, c, "a"), Seen(a, c, "b"));
    RanValue(a, c, "c");
    RanValue(a, c, "d");
  }

  /** An executed `DummyComp` holds one and a half times `r` in `rout`,
      `r2` plus ten in `r2out`, and `s` reversed in `sout`. */
  lemma DummyRan(a: Asm, c: string)
    requires c in a.comps && a.comps[c].kind == Dummy
    requires "r" in a.comps[c].vars && "r2" in a.comps[c].vars && "s" in a.comps[c].vars
    requires "rout" in a.comps[c].vars && "r2out" in a.comps[c].vars && "sout" in a.comps[c].vars
    ensures "rout" in Ran(a, c).vars && "r2out" in Ran(a, c).vars && "sout" in Ran(a, c).vars
    ensures Ran(a, c).vars["rout"].value == Num(NumOf(Seen(a, c, "r")) * 1.5)
    ensures Ran(a, c).vars["r2out"].value == Num(NumOf(Seen(a, c, "r2")) + 10.0)
    ensures Ran(a, c).vars["sout"].value == Text(Strings.Reverse(TextOf(Seen(a, c, "s"))))
  {
    PulledValue(a, c, "r");
    PulledValue(a, c, "r2");
    PulledValue(a, c, "s");
    ComputeDummy(Pull(a, c), Seen(a, c, "r"), Seen(a, c, "r2"), Seen(a, c, "s"));
    RanValue(a, c, "rout");
    RanValue(a, c, "r2out");
    RanValue(a, c, "sout");
  }

  /** An executed child's input holds what it read. */
  lemma RanInput(a: Asm, c: string, x: string)
    requires c in a.comps && x in a.comps[c].vars && x !in OutNames(a.comps[c].kind)
    ensures x in Ran(a, c).vars && Ran(a, c).vars[x].value == Seen(a, c, x)
  {
    RanValue(a, c, x);
  }

  // ---------------------------------------------------------------------
  // Steps shared by the scenarios

  /** Writing an unconnected input with a value of its type succeeds,
      keeps the assembly well formed and its shape, changes that one value
      and no counter. */
  lemma SetInput(a: Asm, path: string, p: Port, v: Value)
    requires Wf(a) && Resolve(a, path) == Ok(p) && p !in a.links
    requires VarAt(a, p).value.dir == In && SameType(ValueAt(a, p), v)
    ensures Set(a, path, v).Ok?
    ensures Wf(Set(a, path, v).value) && SameShape(a, Set(a, path, v).value)
    ensures ValueAt(Set(a, path, v).value, p) == v
    ensures forall q :: q != p ==> ValueAt(Set(a, path, v).value, q) == ValueAt(a, q)
    ensures forall c :: c in a.comps ==> Set(a, path, v).value.comps[c].execCount == a.comps[c].execCount
  {
    SetKeepsWf(a, path, v);
    SetKeepsCounts(a, path, v);
  }

  /** A workflow of two members runs the first, then the second. */
  lemma RunPair(a: Asm, c1: string, c2: string)
    ensures RunMembers(a, [c1, c2]) == Step(Step(a, c1), c2)
  {
    assert [c1, c2][..1] == [c1];
    assert [c1][..0] == [];
    assert RunMembers(a, [c1]) == Step(a, c1);
  }

  /** A run of a two-member workflow is its two steps followed by the
      final pass over the boundary, which keeps the invariant and every
      child. */
  lemma RunOfPair(a: Asm, c1: string, c2: string)
    requires a.workflow == [c1, c2] && Wf(Step(Step(a, c1), c2))
    ensures Wf(Run(a))
    ensures Run(a).comps == Step(Step(a, c1), c2).comps
    ensures Run(a).links == Step(Step(a, c1), c2).links
    ensures Run(a).workflow == Step(Step(a, c1), c2).workflow
    ensures Run(a).boundary.Keys == Step(Step(a, c1), c2).boundary.Keys
    ensures forall c :: Clean(Run(a), c) == Clean(Step(Step(a, c1), c2), c)
    ensures forall c, x :: ValueAt(Run(a), Child(c, x)) == ValueAt(Step(Step(a, c1), c2), Child(c, x))
  {
    RunPair(a, c1, c2);
    PullBoundaryKeepsWf(Step(Step(a, c1), c2));
  }

  // ---------------------------------------------------------------------
  // test_lazy_eval: two Multipliers, comp1 feeding comp2

  const Comp1In: Port := Child("comp1", "rval_in")
  const Comp1Out: Port := Child("comp1", "rval_out")
  const Comp1Mult: Port := Child("comp1", "mult")
  const Comp2In: Port := Child("comp2", "rval_in")
  const Comp2Out: Port := Child("comp2", "rval_out")
  const Comp2Mult: Port := Child("comp2", "mult")

  /** No name of those ports holds a dot. */
  lemma PortsDotFree()
    ensures PortDotFree(Comp1In) && PortDotFree(Comp1Out) && PortDotFree(Comp1Mult)
    ensures PortDotFree(Comp2In) && PortDotFree(Comp2Out) && PortDotFree(Comp2Mult)
  {
  }

  /** The dotted pathnames of those ports, as the test spells them. */
  lemma PortPaths()
    ensures PathOf(Comp1In) == "comp1.rval_in" && PathOf(Comp1Out) == "comp1.rval_out"
    ensures PathOf(Comp1Mult) == "comp1.mult" && PathOf(Comp2In) == "comp2.rval_in"
    ensures PathOf(Comp2Out) == "comp2.rval_out" && PathOf(Comp2Mult) == "comp2.mult"
  {
  }

  /** Child `c` is a Multiplier with the variables its class declares. */
  predicate HasMultiplier(a: Asm, c: string) {
    && c in a.comps && a.comps[c].kind == Multiplier
    && a.comps[c].vars.Keys == {"rval_in", "rval_out", "mult"}
    && a.comps[c].vars["rval_in"].dir == In
    && a.comps[c].vars["mult"].dir == In
    && a.comps[c].vars["rval_out"].dir == Out
  }

  /** Two Multipliers `comp1` and `comp2` in a well-formed assembly with
      nothing on its boundary, run in that order. */
  ghost predicate TwoMultipliers(a: Asm) {
    && Wf(a)
    && a.comps.Keys == {"comp1", "comp2"}
    && HasMultiplier(a, "comp1") && HasMultiplier(a, "comp2")
    && a.boundary.Keys == {}
    && a.workflow == ["comp1", "comp2"]
  }

  /** comp1 executed: it is up to date and counted once more; comp2, which
      it feeds, still needs to run and keeps its counter. */
  lemma ExecuteComp1(s: Asm)
    requires TwoMultipliers(s) && s.links == map[Comp2In := Comp1Out] && !Clean(s, "comp2")
    ensures TwoMultipliers(Execute(s, "comp1")) && Execute(s, "comp1").links == s.links
    ensures Clean(Execute(s, "comp1"), "comp1") && !Clean(Execute(s, "comp1"), "comp2")
    ensures Execute(s, "comp1").comps["comp1"].execCount == s.comps["comp1"].execCount + 1
    ensures Execute(s, "comp1").comps["comp2"].execCount == s.comps["comp2"].execCount
  {
    ExecuteKeepsWf(s, "comp1");
    ExecuteCleans(s, "comp1");
    ExecuteKeepsDirty(s, "comp1", "comp2");
    ExecuteOthers(s, "comp1");
  }

  /** ...with its output the product of the input `u` and factor `w` it
      read, and comp2's factor `m` kept. */
  lemma ExecuteComp1Values(s: Asm, u: Value, w: Value, m: Value)
    requires HasMultiplier(s, "comp1") && HasMultiplier(s, "comp2") && s.links == map[Comp2In := Comp1Out]
    requires ValueAt(s, Comp1In) == u && ValueAt(s, Comp1Mult) == w && ValueAt(s, Comp2Mult) == m
    ensures ValueAt(Execute(s, "comp1"), Comp1Out) == Product(u, w)
    ensures ValueAt(Execute(s, "comp1"), Comp2Mult) == m
  {
    ExecuteOthers(s, "comp1");
    assert VarAt(s, Comp2Mult).Some?;
    MultiplierExecutes(s, "comp1", u, w);
  }

  /** comp2 executed: nothing is downstream of it, so comp1 is left
      alone. */
  lemma ExecuteComp2Frame(e: Asm)
    requires HasMultiplier(e, "comp1") && HasMultiplier(e, "comp2") && e.links == map[Comp2In := Comp1Out]
    ensures Execute(e, "comp2").comps["comp1"] == e.comps["comp1"]
  {
    NothingDownstream(e, "comp2");
    ExecuteFrame(e, "comp2", "comp1");
  }

  /** comp2 executed after comp1 is up to date: both are up to date and
      comp2 is counted once more. */
  lemma ExecuteComp2(e: Asm)
    requires TwoMultipliers(e) && e.links == map[Comp2In := Comp1Out] && Clean(e, "comp1")
    ensures TwoMultipliers(Execute(e, "comp2")) && Execute(e, "comp2").links == e.links
    ensures Execute(e, "comp2").comps["comp1"] == e.comps["comp1"]
    ensures Clean(Execute(e, "comp2"), "comp1") && Clean(Execute(e, "comp2"), "comp2")
    ensures Execute(e, "comp2").comps["comp2"].execCount == e.comps["comp2"].execCount + 1
  {
    ExecuteKeepsWf(e, "comp2");
    ExecuteCleans(e, "comp2");
    ExecuteComp2Frame(e);
  }

  /** ...having read comp1's output `u` and its own factor `w`, and
      holding their product. */
  lemma ExecuteComp2Values(e: Asm, u: Value, w: Value)
    requires HasMultiplier(e, "comp1") && HasMultiplier(e, "comp2") && e.links == map[Comp2In := Comp1Out]
    requires ValueAt(e, Comp1Out) == u && ValueAt(e, Comp2Mult) == w
    ensures ValueAt(Execute(e, "comp2"), Comp2In) == u
    ensures ValueAt(Execute(e, "comp2"), Comp2Mult) == w
    ensures ValueAt(Execute(e, "comp2"), Comp2Out) == Product(u, w)
  {
    assert Seen(e, "comp2", "rval_in") == u;
    assert Seen(e, "comp2", "mult") == w;
    RanInput(e, "comp2", "rval_in");
    ExecutedValue(e, "comp2", "rval_in");
    RanInput(e, "comp2", "mult");
    ExecutedValue(e, "comp2", "mult");
    MultiplierExecutes(e, "comp2", u, w);
  }

  /** Same components, variables, boundary, connections and workflow, and
      still well formed: still the two Multipliers. */
  lemma ShapeKeepsPair(a: Asm, b: Asm)
    requires TwoMultipliers(a) && SameShape(a, b) && Wf(b)
    ensures TwoMultipliers(b) && b.links == a.links
  {
  }

  /** comp1's turn when it needs to run: it executes on its input `u` and
      factor `w`; comp2 still needs to run and keeps its factor `m`. */
  lemma StepComp1(s: Asm, u: Value, w: Value, m: Value)
    requires TwoMultipliers(s) && s.links == map[Comp2In := Comp1Out]
    requires !Clean(s, "comp1") && !Clean(s, "comp2")
    requires ValueAt(s, Comp1In) == u && ValueAt(s, Comp1Mult) == w && ValueAt(s, Comp2Mult) == m
    ensures TwoMultipliers(Step(s, "comp1")) && Step(s, "comp1").links == s.links
    ensures Clean(Step(s, "comp1"), "comp1") && !Clean(Step(s, "comp1"), "comp2")
    ensures Step(s, "comp1").comps["comp1"].execCount == s.comps["comp1"].execCount + 1
    ensures Step(s, "comp1").comps["comp2"].execCount == s.comps["comp2"].execCount
    ensures ValueAt(Step(s, "comp1"), Comp1Out) == Product(u, w)
    ensures ValueAt(Step(s, "comp1"), Comp2Mult) == m
  {
    assert Step(s, "comp1") == Execute(s, "comp1");
    ExecuteComp1(s);
    ExecuteComp1Values(s, u, w, m);
  }

  /** comp2's turn when comp1 is up to date and comp2 is not: it executes
      on comp1's output `o` and its factor `m`, leaving comp1 alone. */
  lemma StepComp2(e: Asm, o: Value, m: Value)
    requires TwoMultipliers(e) && e.links == map[Comp2In := Comp1Out]
    requires Clean(e, "comp1") && !Clean(e, "comp2")
    requires ValueAt(e, Comp1Out) == o && ValueAt(e, Comp2Mult) == m
    ensures TwoMultipliers(Step(e, "comp2")) && Step(e, "comp2").links == e.links
    ensures Clean(Step(e, "comp2"), "comp1") && Clean(Step(e, "comp2"), "comp2")
    ensures Step(e, "comp2").comps["comp1"] == e.comps["comp1"]
    ensures Step(e, "comp2").comps["comp2"].execCount == e.comps["comp2"].execCount + 1
    ensures ValueAt(Step(e, "comp2"), Comp1Out) == o
    ensures ValueAt(Step(e, "comp2"), Comp2In) == o
    ensures ValueAt(Step(e, "comp2"), Comp2Mult) == m
    ensures ValueAt(Step(e, "comp2"), Comp2Out) == Product(o, m)
  {
    assert Step(e, "comp2") == Execute(e, "comp2");
    ExecuteComp2(e);
    ExecuteComp2Values(e, o, m);
  }

  /** The first `run()`, neither child having executed: both execute once
      and end up to date. */
  lemma FirstRun(s: Asm)
    requires TwoMultipliers(s) && s.links == map[Comp2In := Comp1Out]
    requires s.comps["comp1"].execCount == 0 && s.comps["comp2"].execCount == 0
    ensures TwoMultipliers(Run(s)) && Run(s).links == s.links
    ensures Clean(Run(s), "comp1") && Clean(Run(s), "comp2")
    ensures Run(s).comps["comp1"].execCount == 1 && Run(s).comps["comp2"].execCount == 1
  {
    var u, w, m := ValueAt(s, Comp1In), ValueAt(s, Comp1Mult), ValueAt(s, Comp2Mult);
    var e := Step(s, "comp1");
    StepComp1(s, u, w, m);
    assert e.comps["comp1"].execCount == 1 && e.comps["comp2"].execCount == 0;
    var f := Step(e, "comp2");
    StepComp2(e, Product(u, w), m);
    assert f.comps["comp1"].execCount == 1 && f.comps["comp2"].execCount == 1;
    RunOfPair(s, "comp1", "comp2");
  }

  /** ...comp1 having run on its input `u` and factor `w`, then comp2 on
      comp1's fresh output and its factor `m`. */
  lemma FirstRunValues(s: Asm, u: Value, w: Value, m: Value)
    requires TwoMultipliers(s) && s.links == map[Comp2In := Comp1Out]
    requires s.comps["comp1"].execCount == 0 && s.comps["comp2"].execCount == 0
    requires ValueAt(s, Comp1In) == u && ValueAt(s, Comp1Mult) == w && ValueAt(s, Comp2Mult) == m
    ensures ValueAt(Run(s), Comp1Out) == Product(u, w)
    ensures ValueAt(Run(s), Comp2In) == Product(u, w)
    ensures ValueAt(Run(s), Comp2Mult) == m
    ensures ValueAt(Run(s), Comp2Out) == Product(Product(u, w), m)
  {
    StepComp1(s, u, w, m);
    StepComp2(Step(s, "comp1"), Product(u, w), m);
    RunOfPair(s, "comp1", "comp2");
  }

  /** A later `run()` with comp1 up to date and comp2 not: comp1 is
      skipped and keeps its output `o`; comp2 reruns on `o` and its factor
      `m`. */
  lemma RerunComp2(s: Asm, o: Value, m: Value)
    requires TwoMultipliers(s) && s.links == map[Comp2In := Comp1Out]
    requires Clean(s, "comp1") && !Clean(s, "comp2")
    requires ValueAt(s, Comp1Out) == o && ValueAt(s, Comp2Mult) == m
    ensures TwoMultipliers(Run(s)) && Run(s).links == s.links
    ensures Clean(Run(s), "comp1") && Clean(Run(s), "comp2")
    ensures Run(s).comps["comp1"] == s.comps["comp1"]
    ensures Run(s).comps["comp2"].execCount == s.comps["comp2"].execCount + 1
    ensures ValueAt(Run(s), Comp1Out) == o
    ensures ValueAt(Run(s), Comp2In) == o
    ensures ValueAt(Run(s), Comp2Out) == Product(o, m)
  {
    assert Step(s, "comp1") == s;
    StepComp2(s, o, m);
    RunOfPair(s, "comp1", "comp2");
    ShapeKeepsPair(Step(Step(s, "comp1"), "comp2"), Run(s));
  }

  /** `set(path, v)` of an unconnected input of the pair, with a value of
      its type: it succeeds, writes that input and nothing else, and keeps
      the pair, its connections and the counters. */
  lemma SetPairInput(a: Asm, path: string, p: Port, v: Value)
    requires TwoMultipliers(a) && Resolve(a, path) == Ok(p) && p !in a.links
    requires VarAt(a, p).value.dir == In && SameType(ValueAt(a, p), v)
    ensures Set(a, path, v).Ok?
    ensures TwoMultipliers(Set(a, path, v).value) && Set(a, path, v).value.links == a.links
    ensures ValueAt(Set(a, path, v).value, p) == v
    ensures forall q :: q != p ==> ValueAt(Set(a, path, v).value, q) == ValueAt(a, q)
    ensures Set(a, path, v).value.comps["comp1"].execCount == a.comps["comp1"].execCount
    ensures Set(a, path, v).value.comps["comp2"].execCount == a.comps["comp2"].execCount
  {
    SetInput(a, path, p, v);
    ShapeKeepsPair(a, Set(a, path, v).value);
  }

  /** ...and, nothing being downstream of comp2, leaves comp1 untouched. */
  lemma SetComp2MultFrame(r: Asm, path: string, v: Value)
    requires TwoMultipliers(r) && r.links == map[Comp2In := Comp1Out]
    requires Resolve(r, path) == Ok(Comp2Mult) && SameType(ValueAt(r, Comp2Mult), v)
    ensures Set(r, path, v).Ok?
    ensures "comp1" in Set(r, path, v).value.comps
    ensures Set(r, path, v).value.comps["comp1"] == r.comps["comp1"]
  {
    assert Set(r, path, v).value == Store(r, Comp2Mult, v);
    StoreComp2MultFrame(r, v);
  }

  lemma StoreComp2MultFrame(r: Asm, v: Value)
    requires TwoMultipliers(r) && r.links == map[Comp2In := Comp1Out]
    ensures "comp1" in Store(r, Comp2Mult, v).comps
    ensures Store(r, Comp2Mult, v).comps["comp1"] == r.comps["comp1"]
  {
    NothingDownstream(r, "comp2");
    StoreChildFrame(r, Comp2Mult, v, "comp1");
  }

  /** ...while comp2 must run again: its output is stale. */
  lemma SetComp2MultDirties(r: Asm, path: string, v: Value)
    requires TwoMultipliers(r) && r.links == map[Comp2In := Comp1Out]
    requires Resolve(r, path) == Ok(Comp2Mult) && SameType(ValueAt(r, Comp2Mult), v)
    ensures Set(r, path, v).Ok?
    ensures !Clean(Set(r, path, v).value, "comp2")
  {
    assert Set(r, path, v).value == Store(r, Comp2Mult, v);
    assert "comp2" in Affected(r, WriteRoots(r, Comp2Mult));
    assert Comp2Out in StalePorts(r, Affected(r, WriteRoots(r, Comp2Mult)));
    assert VarAt(Write(r, Comp2Mult, v), Comp2Out).Some?;
    assert !ValidAt(Store(r, Comp2Mult, v), Comp2Out);
  }

  /** The test's pathnames resolve, in any assembly holding the two
      Multipliers, to the ports they name. */
  lemma PairPaths(a: Asm)
    requires HasMultiplier(a, "comp1") && HasMultiplier(a, "comp2")
    ensures Resolve(a, "comp1.rval_in") == Ok(Comp1In) && Resolve(a, "comp1.rval_out") == Ok(Comp1Out)
    ensures Resolve(a, "comp1.mult") == Ok(Comp1Mult) && Resolve(a, "comp2.rval_in") == Ok(Comp2In)
    ensures Resolve(a, "comp2.rval_out") == Ok(Comp2Out) && Resolve(a, "comp2.mult") == Ok(Comp2Mult)
  {
    PortsDotFree();
    PortPaths();
    ResolvePathOf(a, Comp1In);
    ResolvePathOf(a, Comp1Out);
    ResolvePathOf(a, Comp1Mult);
    ResolvePathOf(a, Comp2In);
    ResolvePathOf(a, Comp2Out);
    ResolvePathOf(a, Comp2Mult);
  }

  /** Connecting comp1's output to comp2's input on the unconnected pair
      passes every check: no cycle can arise. */
  lemma LinkPairOk(a: Asm)
    requires TwoMultipliers(a) && a.links == map[]
    ensures Connections.ConnectPorts(a, Comp1Out, Comp2In).Ok?
  {
    assert CompGraph(a) == {};
    assert Digraph.Succ<string>({}, {"comp2"}) == {};
    Digraph.ReachWithin<string>({}, {"comp2"}, {"comp2"});
  }

  /** The connection is recorded and the pair kept. */
  lemma LinkPair(a: Asm)
    requires TwoMultipliers(a) && a.links == map[] && Connections.ConnectPorts(a, Comp1Out, Comp2In).Ok?
    ensures TwoMultipliers(Connections.ConnectPorts(a, Comp1Out, Comp2In).value)
    ensures Connections.ConnectPorts(a, Comp1Out, Comp2In).value.links == map[Comp2In := Comp1Out]
  {
    Connections.ConnectKeepsWf(a, Comp1Out, Comp2In);
    var b := Connections.ConnectPorts(a, Comp1Out, Comp2In).value;
    assert VarAt(b, Comp1In).value.dir == In && VarAt(b, Comp1Mult).value.dir == In && VarAt(b, Comp1Out).value.dir == Out;
    assert VarAt(b, Comp2In).value.dir == In && VarAt(b, Comp2Mult).value.dir == In && VarAt(b, Comp2Out).value.dir == Out;
  }

  /** Clearing valid bits, and replacing the connections, change no value. */
  lemma RelinkKeepsValues(a: Asm, links: map<Port, Port>, ports: set<Port>)
    ensures forall q :: ValueAt(Invalidate(a.(links := links), ports), q) == ValueAt(a, q)
  {
    forall q
      ensures ValueAt(Invalidate(a.(links := links), ports), q) == ValueAt(a, q)
    {
      assert VarAt(a.(links := links), q) == VarAt(a, q);
    }
  }

  /** `connect('comp1.rval_out', 'comp2.rval_in')` on the unconnected pair
      succeeds, records the one connection and changes no value or
      counter. */
  lemma ConnectPair(a: Asm, src: string, dst: string)
    requires TwoMultipliers(a) && a.links == map[]
    requires Resolve(a, src) == Ok(Comp1Out) && Resolve(a, dst) == Ok(Comp2In)
    ensures Connections.Connect(a, src, dst).Ok?
    ensures TwoMultipliers(Connections.Connect(a, src, dst).value)
    ensures Connections.Connect(a, src, dst).value.links == map[Comp2In := Comp1Out]
    ensures forall q :: ValueAt(Connections.Connect(a, src, dst).value, q) == ValueAt(a, q)
    ensures Connections.Connect(a, src, dst).value.comps["comp1"].execCount == a.comps["comp1"].execCount
    ensures Connections.Connect(a, src, dst).value.comps["comp2"].execCount == a.comps["comp2"].execCount
  {
    LinkPairOk(a);
    LinkPair(a);
    RelinkKeepsValues(a, a.links[Comp2In := Comp1Out], {Comp2In});
  }

  // ---------------------------------------------------------------------
  // test_lazy_eval from start to end

  /** The assembly right after the two Multipliers are added and listed
      in the workflow: declared defaults, never run, nothing connected. */
  ghost predicate FreshPair(a: Asm) {
    && TwoMultipliers(a) && a.links == map[]
    && a.comps["comp1"] == Comp(Multiplier, Declared(Multiplier), 0)
    && a.comps["comp2"] == Comp(Multiplier, Declared(Multiplier), 0)
  }

  /** `top.add('comp1', Multiplier())`, `top.add('comp2', Multiplier())`,
      then `top.driver.workflow.add(['comp1', 'comp2'])`. */
  function LazyTop(): Asm {
    Connections.Add(Connections.Add(Empty(), "comp1", Multiplier), "comp2", Multiplier).(workflow := ["comp1", "comp2"])
  }

  /** The workflow plays no part in the invariant. */
  lemma WorkflowKeepsWf(a: Asm, w: seq<string>)
    requires Wf(a)
    ensures Wf(a.(workflow := w))
  {
    var b := a.(workflow := w);
    assert CompGraph(b) == CompGraph(a);
    forall p
      ensures VarAt(b, p) == VarAt(a, p)
    {
    }
  }

  /** Building the top assembly gives the fresh pair. */
  lemma LazyTopFresh()
    ensures FreshPair(LazyTop())
  {
    var a0 := Empty();
    var a1 := Connections.Add(a0, "comp1", Multiplier);
    Connections.AddKeepsWf(a0, "comp1", Multiplier);
    var a2 := Connections.Add(a1, "comp2", Multiplier);
    Connections.AddKeepsWf(a1, "comp2", Multiplier);
    assert a1.links == map[];
    assert a2.links == map[];
    WorkflowKeepsWf(a2, ["comp1", "comp2"]);
  }

  /** The first statements of the test: comp1's and comp2's factors.
      An attribute assignment such as `top.comp1.mult = 2.0` passes the
      same checks as `set`. */
  function LazyEvalFactors(top: Asm): Result<Asm, AsmError> {
    var s1 :- Set(top, "comp1.mult", Num(2.0));
    Set(s1, "comp2.mult", Num(4.0))
  }

  /** ...then the connection from comp1's output to comp2's input... */
  function LazyEvalLinked(top: Asm): Result<Asm, AsmError> {
    var s2 :- LazyEvalFactors(top);
    Connections.Connect(s2, "comp1.rval_out", "comp2.rval_in")
  }

  /** ...and comp1's input: all that comes before the first `run()`. */
  function LazyEvalSetUp(top: Asm): Result<Asm, AsmError> {
    var s3 :- LazyEvalLinked(top);
    Set(s3, "comp1.rval_in", Num(5.0))
  }

  /** ...followed by the first `run()`. */
  function LazyEvalFirst(top: Asm): Result<Asm, AsmError> {
    var s :- LazyEvalSetUp(top);
    Ok(Run(s))
  }

  /** ...then `set('comp2.mult', 3.0)`... */
  function LazyEvalReset(top: Asm): Result<Asm, AsmError> {
    var r :- LazyEvalFirst(top);
    Set(r, "comp2.mult", Num(3.0))
  }

  /** ...and the second `run()`. */
  function LazyEvalSecond(top: Asm): Result<Asm, AsmError> {
    var b :- LazyEvalReset(top);
    Ok(Run(b))
  }

  /** The test's `get` of each pathname reads that port's value. */
  lemma PairGets(a: Asm)
    requires HasMultiplier(a, "comp1") && HasMultiplier(a, "comp2")
    ensures Get(a, "comp1.rval_out") == Ok(ValueAt(a, Comp1Out))
    ensures Get(a, "comp2.rval_in") == Ok(ValueAt(a, Comp2In))
    ensures Get(a, "comp2.rval_out") == Ok(ValueAt(a, Comp2Out))
  {
    PairPaths(a);
  }

  /** A fresh Multiplier holds its constructor's defaults: input 4,
      factor 1.5. */
  lemma FreshValues(a: Asm)
    requires FreshPair(a)
    ensures ValueAt(a, Comp1In) == Num(4.0) && ValueAt(a, Comp1Mult) == Num(1.5)
    ensures ValueAt(a, Comp2Mult) == Num(1.5)
  {
    assert a.comps["comp1"].vars == Declared(Multiplier);
    assert a.comps["comp2"].vars == Declared(Multiplier);
  }

  /** Setting the two factors succeeds, keeps the pair unconnected and
      never run, and leaves comp1's input at its default 4. */
  lemma LazyEvalFactorsState(top: Asm)
    requires FreshPair(top)
    ensures LazyEvalFactors(top).Ok?
    ensures TwoMultipliers(LazyEvalFactors(top).value) && LazyEvalFactors(top).value.links == map[]
    ensures LazyEvalFactors(top).value.comps["comp1"].execCount == 0
    ensures LazyEvalFactors(top).value.comps["comp2"].execCount == 0
    ensures ValueAt(LazyEvalFactors(top).value, Comp1In) == Num(4.0)
    ensures ValueAt(LazyEvalFactors(top).value, Comp1Mult) == Num(2.0)
    ensures ValueAt(LazyEvalFactors(top).value, Comp2Mult) == Num(4.0)
  {
    FreshValues(top);
    PairPaths(top);
    SetPairInput(top, "comp1.mult", Comp1Mult, Num(2.0));
    var s1 := Set(top, "comp1.mult", Num(2.0)).value;
    assert ValueAt(s1, Comp1In) == Num(4.0);
    PairPaths(s1);
    SetPairInput(s1, "comp2.mult", Comp2Mult, Num(4.0));
    assert LazyEvalFactors(top) == Set(s1, "comp2.mult", Num(4.0));
  }

  /** The connection succeeds and changes no value or counter. */
  lemma LazyEvalLinkedState(top: Asm)
    requires FreshPair(top)
    ensures LazyEvalLinked(top).Ok?
    ensures TwoMultipliers(LazyEvalLinked(top).value)
    ensures LazyEvalLinked(top).value.links == map[Comp2In := Comp1Out]
    ensures LazyEvalLinked(top).value.comps["comp1"].execCount == 0
    ensures LazyEvalLinked(top).value.comps["comp2"].execCount == 0
    ensures ValueAt(LazyEvalLinked(top).value, Comp1In) == Num(4.0)
    ensures ValueAt(LazyEvalLinked(top).value, Comp1Mult) == Num(2.0)
    ensures ValueAt(LazyEvalLinked(top).value, Comp2Mult) == Num(4.0)
  {
    LazyEvalFactorsState(top);
    var s2 := LazyEvalFactors(top).value;
    PairPaths(s2);
    ConnectPair(s2, "comp1.rval_out", "comp2.rval_in");
    assert LazyEvalLinked(top) == Connections.Connect(s2, "comp1.rval_out", "comp2.rval_in");
  }

  /** Every statement before the first `run()` succeeds; the pair ends up
      connected, never run, with input 5 and factors 2 and 4. */
  lemma LazyEvalSetUpState(top: Asm)
    requires FreshPair(top)
    ensures LazyEvalSetUp(top).Ok?
    ensures TwoMultipliers(LazyEvalSetUp(top).value)
    ensures LazyEvalSetUp(top).value.links == map[Comp2In := Comp1Out]
    ensures LazyEvalSetUp(top).value.comps["comp1"].execCount == 0
    ensures LazyEvalSetUp(top).value.comps["comp2"].execCount == 0
    ensures ValueAt(LazyEvalSetUp(top).value, Comp1In) == Num(5.0)
    ensures ValueAt(LazyEvalSetUp(top).value, Comp1Mult) == Num(2.0)
    ensures ValueAt(LazyEvalSetUp(top).value, Comp2Mult) == Num(4.0)
  {
    LazyEvalLinkedState(top);
    var s3 := LazyEvalLinked(top).value;
    PairPaths(s3);
    SetPairInput(s3, "comp1.rval_in", Comp1In, Num(5.0));
    assert LazyEvalSetUp(top) == Set(s3, "comp1.rval_in", Num(5.0));
  }

  /** After the first `run()` both children are up to date, each has run
      once, comp1 holds 5 * 2 and comp2 holds 10 * 4. */
  lemma LazyEvalFirstState(top: Asm)
    requires FreshPair(top)
    ensures LazyEvalFirst(top).Ok?
    ensures TwoMultipliers(LazyEvalFirst(top).value)
    ensures LazyEvalFirst(top).value.links == map[Comp2In := Comp1Out]
    ensures Clean(LazyEvalFirst(top).value, "comp1") && Clean(LazyEvalFirst(top).value, "comp2")
    ensures LazyEvalFirst(top).value.comps["comp1"].execCount == 1
    ensures LazyEvalFirst(top).value.comps["comp2"].execCount == 1
    ensures ValueAt(LazyEvalFirst(top).value, Comp1Out) == Num(10.0)
    ensures ValueAt(LazyEvalFirst(top).value, Comp2In) == Num(10.0)
    ensures ValueAt(LazyEvalFirst(top).value, Comp2Mult) == Num(4.0)
    ensures ValueAt(LazyEvalFirst(top).value, Comp2Out) == Num(40.0)
  {
    LazyEvalSetUpState(top);
    var s := LazyEvalSetUp(top).value;
    FirstRun(s);
    FirstRunValues(s, Num(5.0), Num(2.0), Num(4.0));
    assert Product(Num(5.0), Num(2.0)) == Num(10.0);
    assert Product(Num(10.0), Num(4.0)) == Num(40.0);
    assert LazyEvalFirst(top) == Ok(Run(s));
  }

  /** `test_lazy_eval`, first half: after the first `run()`, `get` reads
      10, 10 and 40, and each child has executed once. */
  lemma LazyEvalFirstRun(top: Asm)
    requires FreshPair(top)
    ensures LazyEvalFirst(top).Ok?
    ensures Get(LazyEvalFirst(top).value, "comp1.rval_out") == Ok(Num(10.0))
    ensures Get(LazyEvalFirst(top).value, "comp2.rval_in") == Ok(Num(10.0))
    ensures Get(LazyEvalFirst(top).value, "comp2.rval_out") == Ok(Num(40.0))
    ensures "comp1" in LazyEvalFirst(top).value.comps && "comp2" in LazyEvalFirst(top).value.comps
    ensures LazyEvalFirst(top).value.comps["comp1"].execCount == 1
    ensures LazyEvalFirst(top).value.comps["comp2"].execCount == 1
  {
    LazyEvalFirstState(top);
    PairGets(LazyEvalFirst(top).value);
  }

  /** Setting comp2's factor, named by `path`, to 3 after the first run
      succeeds, keeps the pair, its connection and comp2's counter, and
      writes the factor alone: comp1's output keeps its value. */
  lemma LazyEvalResetValues(r: Asm, path: string)
    requires TwoMultipliers(r) && r.links == map[Comp2In := Comp1Out] && ValueAt(r, Comp2Mult) == Num(4.0)
    requires Resolve(r, path) == Ok(Comp2Mult)
    ensures Set(r, path, Num(3.0)).Ok?
    ensures TwoMultipliers(Set(r, path, Num(3.0)).value)
    ensures Set(r, path, Num(3.0)).value.links == r.links
    ensures Set(r, path, Num(3.0)).value.comps["comp2"].execCount == r.comps["comp2"].execCount
    ensures ValueAt(Set(r, path, Num(3.0)).value, Comp1Out) == ValueAt(r, Comp1Out)
    ensures ValueAt(Set(r, path, Num(3.0)).value, Comp2Mult) == Num(3.0)
  {
    SetPairInput(r, path, Comp2Mult, Num(3.0));
  }

  /** ...leaves comp1 untouched, hence still up to date, and makes comp2
      run again. */
  lemma LazyEvalResetValidity(r: Asm)
    requires TwoMultipliers(r) && r.links == map[Comp2In := Comp1Out] && ValueAt(r, Comp2Mult) == Num(4.0)
    requires Clean(r, "comp1")
    ensures Set(r, "comp2.mult", Num(3.0)).Ok?
    ensures "comp1" in Set(r, "comp2.mult", Num(3.0)).value.comps
    ensures Set(r, "comp2.mult", Num(3.0)).value.comps["comp1"] == r.comps["comp1"]
    ensures Clean(Set(r, "comp2.mult", Num(3.0)).value, "comp1")
    ensures !Clean(Set(r, "comp2.mult", Num(3.0)).value, "comp2")
  {
    PairPaths(r);
    SetComp2MultFrame(r, "comp2.mult", Num(3.0));
    SetComp2MultDirties(r, "comp2.mult", Num(3.0));
  }

  /** After `set('comp2.mult', 3.0)` comp1 is still up to date with
      output 10 and one execution; comp2 has to run again, with factor 3
      and one execution so far. */
  lemma LazyEvalResetState(top: Asm)
    requires FreshPair(top)
    ensures LazyEvalReset(top).Ok?
    ensures TwoMultipliers(LazyEvalReset(top).value)
    ensures LazyEvalReset(top).value.links == map[Comp2In := Comp1Out]
    ensures Clean(LazyEvalReset(top).value, "comp1") && !Clean(LazyEvalReset(top).value, "comp2")
    ensures LazyEvalReset(top).value.comps["comp1"].execCount == 1
    ensures LazyEvalReset(top).value.comps["comp2"].execCount == 1
    ensures ValueAt(LazyEvalReset(top).value, Comp1Out) == Num(10.0)
    ensures ValueAt(LazyEvalReset(top).value, Comp2Mult) == Num(3.0)
  {
    LazyEvalFirstState(top);
    var r := LazyEvalFirst(top).value;
    PairPaths(r);
    LazyEvalResetValues(r, "comp2.mult");
    LazyEvalResetValidity(r);
    assert LazyEvalReset(top) == Set(r, "comp2.mult", Num(3.0));
  }

  /** The second `run()` from that state: only comp2 runs again. */
  lemma LazyEvalRerun(b: Asm)
    requires TwoMultipliers(b) && b.links == map[Comp2In := Comp1Out]
    requires Clean(b, "comp1") && !Clean(b, "comp2")
    requires b.comps["comp1"].execCount == 1 && b.comps["comp2"].execCount == 1
    requires ValueAt(b, Comp1Out) == Num(10.0) && ValueAt(b, Comp2Mult) == Num(3.0)
    ensures HasMultiplier(Run(b), "comp1") && HasMultiplier(Run(b), "comp2")
    ensures Run(b).comps["comp1"].execCount == 1 && Run(b).comps["comp2"].execCount == 2
    ensures ValueAt(Run(b), Comp1Out) == Num(10.0)
    ensures ValueAt(Run(b), Comp2In) == Num(10.0)
    ensures ValueAt(Run(b), Comp2Out) == Num(30.0)
  {
    RerunComp2(b, Num(10.0), Num(3.0));
    assert Product(Num(10.0), Num(3.0)) == Num(30.0);
  }

  /** After the second `run()` only comp2 has run again: both are up to
      date, the counters are 1 and 2, and comp2 holds 10 * 3. */
  lemma LazyEvalSecondState(top: Asm)
    requires FreshPair(top)
    ensures LazyEvalSecond(top).Ok?
    ensures HasMultiplier(LazyEvalSecond(top).value, "comp1")
    ensures HasMultiplier(LazyEvalSecond(top).value, "comp2")
    ensures LazyEvalSecond(top).value.comps["comp1"].execCount == 1
    ensures LazyEvalSecond(top).value.comps["comp2"].execCount == 2
    ensures ValueAt(LazyEvalSecond(top).value, Comp1Out) == Num(10.0)
    ensures ValueAt(LazyEvalSecond(top).value, Comp2In) == Num(10.0)
    ensures ValueAt(LazyEvalSecond(top).value, Comp2Out) == Num(30.0)
  {
    LazyEvalResetState(top);
    var b := LazyEvalReset(top).value;
    LazyEvalRerun(b);
    assert LazyEvalSecond(top) == Ok(Run(b));
  }

  /** `test_lazy_eval`, second half: after `set('comp2.mult', 3.0)` and
      another `run()`, `get` reads 10, 10 and 30; comp1 has still executed
      once and comp2 twice. */
  lemma LazyEvalSecondRun(top: Asm)
    requires FreshPair(top)
    ensures LazyEvalSecond(top).Ok?
    ensures Get(LazyEvalSecond(top).value, "comp1.rval_out") == Ok(Num(10.0))
    ensures Get(LazyEvalSecond(top).value, "comp2.rval_in") == Ok(Num(10.0))
    ensures Get(LazyEvalSecond(top).value, "comp2.rval_out") == Ok(Num(30.0))
    ensures "comp1" in LazyEvalSecond(top).value.comps && "comp2" in LazyEvalSecond(top).value.comps
    ensures LazyEvalSecond(top).value.comps["comp1"].execCount == 1
    ensures LazyEvalSecond(top).value.comps["comp2"].execCount == 2
  {
    LazyEvalSecondState(top);
    PairGets(LazyEvalSecond(top).value);
  }

  /** The whole test on the assembly it builds. */
  lemma LazyEval()
    ensures LazyEvalFirst(LazyTop()).Ok?
    ensures Get(LazyEvalFirst(LazyTop()).value, "comp2.rval_out") == Ok(Num(40.0))
    ensures "comp1" in LazyEvalFirst(LazyTop()).value.comps && "comp2" in LazyEvalFirst(LazyTop()).value.comps
    ensures LazyEvalFirst(LazyTop()).value.comps["comp1"].execCount == 1
    ensures LazyEvalFirst(LazyTop()).value.comps["comp2"].execCount == 1
    ensures LazyEvalSecond(LazyTop()).Ok?
    ensures Get(LazyEvalSecond(LazyTop()).value, "comp2.rval_out") == Ok(Num(30.0))
    ensures "comp1" in LazyEvalSecond(LazyTop()).value.comps && "comp2" in LazyEvalSecond(LazyTop()).value.comps
    ensures LazyEvalSecond(LazyTop()).value.comps["comp1"].execCount == 1
    ensures LazyEvalSecond(LazyTop()).value.comps["comp2"].execCount == 2
  {
    LazyTopFresh();
    LazyEvalFirstRun(LazyTop());
    LazyEvalSecondRun(LazyTop());
  }
}
