/** State of one Assembly's dataflow: its child components with their
    variables (direction, value, valid bit) and execution counters, the
    assembly's own boundary (passthrough) variables, the connections, and
    the workflow order. Operations live in the Connections and Execution
    modules; this module holds the data model, path resolution, the
    validity-bit primitive and the well-formedness invariant. */
module Dataflow {
  import opened Results
  import Strings
  import Digraph

  datatype Dir = In | Out

  /** Float variables carry reals (exact, so no rounding is modelled);
      Str variables carry strings. */
  datatype Value = Num(x: real) | Text(s: string)

  datatype Var = Var(dir: Dir, value: Value, valid: bool)

  /** The component classes whose behaviour the assembly tests exercise. */
  datatype Kind = Multiplier | Simple | Dummy

  datatype Comp = Comp(kind: Kind, vars: map<string, Var>, execCount: nat)

  /** A variable as seen from inside the assembly: one of a child's, or one
      of the assembly's own boundary variables. */
  datatype Port = Child(comp: string, name: string) | Boundary(name: string)

  /** `links` maps each connected destination to its single source. */
  datatype Asm = Asm(
    comps: map<string, Comp>,
    boundary: map<string, Var>,
    links: map<Port, Port>,
    workflow: seq<string>)

  datatype AsmError =
    | NotFound(path: string)
    | NotAnOutput(path: string)
    | NotAnInput(path: string)
    | SameComponent(src: string, dst: string)
    | AlreadyConnected(dst: string, existingSrc: string)
    | CircularDependency(srcComp: string, dstComp: string)
    | ConnectedInput(path: string, src: string)
    | OutputNotSettable(path: string)
    | TypeMismatch(path: string)
    | DuplicateName(name: string)
    | NoSuchComponent(name: string)

  /** Variables declared by each component class, with the values its
      constructor assigns; nothing is valid before the first execution. */
  function Declared(kind: Kind): map<string, Var> {
    match kind
    case Multiplier =>
      map["rval_in" := Var(In, Num(4.0), false),
          "rval_out" := Var(Out, Num(7.0), false),
          "mult" := Var(In, Num(1.5), false)]
    case Simple =>
      map["a" := Var(In, Num(4.0), false),
          "b" := Var(In, Num(5.0), false),
          "c" := Var(Out, Num(7.0), false),
          "d" := Var(Out, Num(1.5), false)]
    case Dummy =>
      map["r" := Var(In, Num(1.0), false),
          "r2" := Var(In, Num(-1.0), false),
          "r3" := Var(In, Num(0.0), false),
          "s" := Var(In, Text("a string"), false),
          "rout" := Var(Out, Num(0.0), false),
          "r2out" := Var(Out, Num(0.0), false),
          "sout" := Var(Out, Text(""), false)]
  }

  function VarAt(a: Asm, p: Port): Option<Var> {
    match p
    case Child(c, x) =>
      if c in a.comps && x in a.comps[c].vars then Some(a.comps[c].vars[x]) else None
    case Boundary(x) =>
      if x in a.boundary then Some(a.boundary[x]) else None
  }

  function ValueAt(a: Asm, p: Port): Value {
    match VarAt(a, p)
    case Some(v) => v.value
    case None => Num(0.0)
  }

  predicate ValidAt(a: Asm, p: Port) {
    VarAt(a, p).Some? && VarAt(a, p).value.valid
  }

  /** Ports that can feed a connection from inside the assembly: a child's
      output, or a boundary input. */
  predicate IsSource(a: Asm, p: Port) {
    match VarAt(a, p)
    case Some(v) => (p.Child? && v.dir == Out) || (p.Boundary? && v.dir == In)
    case None => false
  }

  /** Ports that can receive a connection: a child's input, or a boundary
      output. */
  predicate IsSink(a: Asm, p: Port) {
    match VarAt(a, p)
    case Some(v) => (p.Child? && v.dir == In) || (p.Boundary? && v.dir == Out)
    case None => false
  }

  /** Both ports belong to one component; the boundary belongs to the
      assembly itself. */
  predicate SameOwner(p: Port, q: Port) {
    (p.Child? && q.Child? && p.comp == q.comp) || (p.Boundary? && q.Boundary?)
  }

  /** Component-level dependency graph: `(u, v)` when an output of child
      `u` feeds an input of child `v`. */
  function CompGraph(a: Asm): set<(string, string)> {
    set d | d in a.links && d.Child? && a.links[d].Child? :: (a.links[d].comp, d.comp)
  }

  /** Dotted pathname of a port, as `list_connections` reports it. */
  function PathOf(p: Port): string {
    match p
    case Child(c, x) => c + "." + x
    case Boundary(x) => x
  }

  predicate DotFree(s: string) {
    '.' !in s
  }

  /** The names making up a port's pathname hold no dot. */
  predicate PortDotFree(p: Port) {
    match p
    case Child(c, x) => DotFree(c) && DotFree(x)
    case Boundary(x) => DotFree(x)
  }

  /** Resolve a dotted pathname: one segment names a boundary variable, two
      name a child's variable; anything else cannot be located. The port
      found is an existing one whose pathname is exactly `path`. */
  function Resolve(a: Asm, path: string): (r: Result<Port, AsmError>)
    ensures r.Ok? ==> VarAt(a, r.value).Some? && PathOf(r.value) == path && PortDotFree(r.value)
    ensures r.Err? ==> r.error == NotFound(path)
  {
    var tok := Strings.Split(path, '.');
    Strings.JoinSplit(path, '.');
    Strings.SplitShape(path, '.');
    if |tok| == 1 && tok[0] in a.boundary then Ok(Boundary(tok[0]))
    else if |tok| == 2 && tok[0] in a.comps && tok[1] in a.comps[tok[0]].vars then
      assert tok[1..] == [tok[1]];
      Ok(Child(tok[0], tok[1]))
    else Err(NotFound(path))
  }

  /** Resolution inverts `PathOf` for every existing port whose names are
      free of dots. */
  lemma ResolvePathOf(a: Asm, p: Port)
    requires VarAt(a, p).Some?
    requires PortDotFree(p)
    ensures Resolve(a, PathOf(p)) == Ok(p)
  {
    match p
    case Child(c, x) =>
      Strings.SplitJoin([c, x], '.');
      assert Strings.Join([c, x], '.') == c + "." + x;
    case Boundary(x) =>
      Strings.SplitJoin([x], '.');
  }

  /** A pathname resolves exactly when some existing port with dot-free
      names is spelled that way; it then resolves to that port. */
  lemma ResolveExact(a: Asm, path: string)
    ensures Resolve(a, path).Ok? <==> exists p :: VarAt(a, p).Some? && PortDotFree(p) && PathOf(p) == path
    ensures forall p :: VarAt(a, p).Some? && PortDotFree(p) && PathOf(p) == path ==> Resolve(a, path) == Ok(p)
  {
    forall p | VarAt(a, p).Some? && PortDotFree(p) && PathOf(p) == path
      ensures Resolve(a, path) == Ok(p)
    {
      ResolvePathOf(a, p);
    }
  }

  /** Clear the valid bit of every listed port; nothing else changes. */
  function Invalidate(a: Asm, ports: set<Port>): (r: Asm)
    ensures r.links == a.links && r.workflow == a.workflow
    ensures r.comps.Keys == a.comps.Keys && r.boundary.Keys == a.boundary.Keys
    ensures forall c :: c in a.comps ==>
      r.comps[c].kind == a.comps[c].kind && r.comps[c].execCount == a.comps[c].execCount &&
      r.comps[c].vars.Keys == a.comps[c].vars.Keys
    ensures forall p :: VarAt(r, p).Some? == VarAt(a, p).Some?
    ensures forall p :: VarAt(a, p).Some? ==>
      VarAt(r, p).value == VarAt(a, p).value.(valid := VarAt(a, p).value.valid && p !in ports)
  {
    a.(comps := map c | c in a.comps ::
         a.comps[c].(vars := map x | x in a.comps[c].vars ::
           a.comps[c].vars[x].(valid := a.comps[c].vars[x].valid && Child(c, x) !in ports)),
       boundary := map b | b in a.boundary ::
         a.boundary[b].(valid := a.boundary[b].valid && Boundary(b) !in ports))
  }

  /** Every connection joins a source to a sink of two different owners. */
  ghost predicate LinksWellFormed(a: Asm) {
    forall d :: d in a.links ==>
      IsSink(a, d) && IsSource(a, a.links[d]) && !SameOwner(a.links[d], d)
  }

  /** Each child has exactly the variables its class declares. */
  ghost predicate Declarations(a: Asm) {
    forall c :: c in a.comps ==>
      a.comps[c].vars.Keys == Declared(a.comps[c].kind).Keys &&
      forall x :: x in a.comps[c].vars ==> a.comps[c].vars[x].dir == Declared(a.comps[c].kind)[x].dir
  }

  /** A valid destination holds its source's current value. */
  ghost predicate Coherent(a: Asm) {
    forall d :: d in a.links && ValidAt(a, d) ==> ValueAt(a, d) == ValueAt(a, a.links[d])
  }

  ghost predicate Wf(a: Asm) {
    && Declarations(a)
    && LinksWellFormed(a)
    && Digraph.Acyclic(CompGraph(a))
    && Coherent(a)
  }

  /** Same components, classes, variables and directions, same boundary,
      connections and workflow; values, valid bits and counters may differ. */
  ghost predicate SameShape(a: Asm, b: Asm) {
    && a.comps.Keys == b.comps.Keys
    && a.boundary.Keys == b.boundary.Keys
    && a.links == b.links
    && a.workflow == b.workflow
    && (forall c :: c in a.comps ==>
          b.comps[c].kind == a.comps[c].kind && b.comps[c].vars.Keys == a.comps[c].vars.Keys &&
          forall x :: x in a.comps[c].vars ==> b.comps[c].vars[x].dir == a.comps[c].vars[x].dir)
    && (forall x :: x in a.boundary ==> b.boundary[x].dir == a.boundary[x].dir)
  }

  lemma SameShapeVarAt(a: Asm, b: Asm, p: Port)
    requires SameShape(a, b)
    ensures VarAt(b, p).Some? == VarAt(a, p).Some?
    ensures VarAt(a, p).Some? ==> VarAt(b, p).value.dir == VarAt(a, p).value.dir
    ensures IsSource(b, p) == IsSource(a, p) && IsSink(b, p) == IsSink(a, p)
  {
  }

  /** Only values, valid bits and counters changed, so the structural
      parts of the invariant carry over. */
  lemma SameShapeKeepsStructure(a: Asm, b: Asm)
    requires SameShape(a, b)
    requires Declarations(a) && LinksWellFormed(a) && Digraph.Acyclic(CompGraph(a))
    ensures Declarations(b) && LinksWellFormed(b) && Digraph.Acyclic(CompGraph(b))
  {
    forall d | d in b.links
      ensures IsSink(b, d) && IsSource(b, b.links[d])
    {
      SameShapeVarAt(a, b, d);
      SameShapeVarAt(a, b, a.links[d]);
    }
    assert CompGraph(b) == CompGraph(a);
  }

  lemma InvalidateSameShape(a: Asm, ports: set<Port>)
    ensures SameShape(a, Invalidate(a, ports))
  {
    var r := Invalidate(a, ports);
    forall c | c in a.comps
      ensures forall x :: x in a.comps[c].vars ==> r.comps[c].vars[x].dir == a.comps[c].vars[x].dir
    {
      forall x | x in a.comps[c].vars
        ensures r.comps[c].vars[x].dir == a.comps[c].vars[x].dir
      {
        assert VarAt(r, Child(c, x)).Some?;
      }
    }
    forall x | x in a.boundary
      ensures r.boundary[x].dir == a.boundary[x].dir
    {
      assert VarAt(r, Boundary(x)).Some?;
    }
  }

  /** Clearing valid bits keeps the whole invariant. */
  lemma InvalidateKeepsWf(a: Asm, ports: set<Port>)
    requires Wf(a)
    ensures Wf(Invalidate(a, ports))
  {
    var r := Invalidate(a, ports);
    InvalidateSameShape(a, ports);
    SameShapeKeepsStructure(a, r);
    forall d | d in r.links && ValidAt(r, d)
      ensures ValueAt(r, d) == ValueAt(r, r.links[d])
    {
      assert VarAt(a, a.links[d]).Some?;
    }
  }

  /** A port's variable depends only on its own owner's entry. */
  lemma VarAtFrame(a: Asm, b: Asm, p: Port)
    requires p.Boundary? ==> (p.name in a.boundary <==> p.name in b.boundary)
    requires p.Boundary? && p.name in a.boundary ==> a.boundary[p.name] == b.boundary[p.name]
    requires p.Child? ==> (p.comp in a.comps <==> p.comp in b.comps)
    requires p.Child? && p.comp in a.comps ==> a.comps[p.comp].vars == b.comps[p.comp].vars
    ensures VarAt(a, p) == VarAt(b, p)
  {
  }

  /** A new connection adds a component edge only between two children. */
  lemma CompGraphAddLink(a: Asm, b: Asm, s: Port, d: Port)
    requires d !in a.links && b.links == a.links[d := s]
    ensures CompGraph(b) == CompGraph(a) + (if s.Child? && d.Child? then {(s.comp, d.comp)} else {})
  {
    var extra: set<(string, string)> := if s.Child? && d.Child? then {(s.comp, d.comp)} else {};
    forall e | e in CompGraph(b)
      ensures e in CompGraph(a) + extra
    {
      var k :| k in b.links && k.Child? && b.links[k].Child? && e == (b.links[k].comp, k.comp);
      if k != d {
        assert k in a.links && a.links[k] == b.links[k];
      }
    }
    forall e | e in CompGraph(a)
      ensures e in CompGraph(b)
    {
      var k :| k in a.links && k.Child? && a.links[k].Child? && e == (a.links[k].comp, k.comp);
      assert k in b.links && b.links[k] == a.links[k];
    }
    if s.Child? && d.Child? {
      assert d in b.links && b.links[d] == s;
    }
  }

  /** Invalidating a set of destinations restores coherence that only
      those destinations lacked. */
  lemma InvalidateRestoresCoherent(a: Asm, ports: set<Port>)
    requires forall d :: d in a.links && d !in ports && ValidAt(a, d) ==> ValueAt(a, d) == ValueAt(a, a.links[d])
    ensures Coherent(Invalidate(a, ports))
  {
    var r := Invalidate(a, ports);
    forall d | d in r.links && ValidAt(r, d)
      ensures ValueAt(r, d) == ValueAt(r, r.links[d])
    {
      assert VarAt(a, d).Some?;
      assert ValidAt(a, d) && d !in ports;
      assert VarAt(a, a.links[d]).Some? ==> ValueAt(r, a.links[d]) == ValueAt(a, a.links[d]);
    }
  }

  /** Dropping connections, while every port a kept connection touches
      keeps its variable, keeps the invariant. */
  lemma SubLinksKeepWf(a: Asm, b: Asm)
    requires Wf(a) && Declarations(b)
    requires forall d :: d in b.links ==>
      d in a.links && b.links[d] == a.links[d] &&
      VarAt(b, d) == VarAt(a, d) && VarAt(b, a.links[d]) == VarAt(a, a.links[d])
    ensures Wf(b)
  {
    assert LinksWellFormed(b) by {
      forall d | d in b.links
        ensures IsSink(b, d) && IsSource(b, b.links[d]) && !SameOwner(b.links[d], d)
      {
        assert IsSink(a, d) && IsSource(a, a.links[d]);
      }
    }
    assert CompGraph(b) <= CompGraph(a) by {
      forall e | e in CompGraph(b)
        ensures e in CompGraph(a)
      {
        var d :| d in b.links && d.Child? && b.links[d].Child? && e == (b.links[d].comp, d.comp);
        assert d in a.links;
      }
    }
    Digraph.SubgraphAcyclic(CompGraph(b), CompGraph(a));
    assert Coherent(b) by {
      forall d | d in b.links && ValidAt(b, d)
        ensures ValueAt(b, d) == ValueAt(b, b.links[d])
      {
        assert ValidAt(a, d);
      }
    }
  }

  /** The empty assembly of a fresh `Assembly()`. */
  function Empty(): (a: Asm)
    ensures Wf(a)
  {
    var a := Asm(map[], map[], map[], []);
    assert CompGraph(a) == {};
    Digraph.EmptyAcyclic<string>();
    a
  }
}
