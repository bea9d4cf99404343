/** Graph-editing operations of an Assembly: `connect`, `disconnect`,
    `add`, `remove`, `create_passthrough` and `list_connections`. Every
    check runs before anything changes, so a rejected edit returns only
    its error and the caller keeps the assembly it had. */
module Connections {
  import opened Results
  import opened Dataflow
  import Digraph
  import PathNames

  /** `connect` on resolved ports, checks in the order the assembly makes
      them: direction of the source, direction of the destination, same
      owner, an existing source for the destination, then a cycle among
      child components. Success records the connection and leaves the
      destination invalid until its value is pulled. */
  function ConnectPorts(a: Asm, s: Port, d: Port): (r: Result<Asm, AsmError>)
    ensures !IsSource(a, s) ==> r == Err(NotAnOutput(PathOf(s)))
    ensures IsSource(a, s) && !IsSink(a, d) ==> r == Err(NotAnInput(PathOf(d)))
    ensures IsSource(a, s) && IsSink(a, d) && SameOwner(s, d) ==> r == Err(SameComponent(PathOf(s), PathOf(d)))
    ensures IsSource(a, s) && IsSink(a, d) && !SameOwner(s, d) && d in a.links ==>
      r == Err(AlreadyConnected(PathOf(d), PathOf(a.links[d])))
    ensures r.Ok? ==> d !in a.links && r.value == Invalidate(a.(links := a.links[d := s]), {d})
    ensures r.Err? && r.error.CircularDependency? ==>
      s.Child? && d.Child? && s.comp in Digraph.Reach(CompGraph(a), {d.comp})
  {
    if !IsSource(a, s) then Err(NotAnOutput(PathOf(s)))
    else if !IsSink(a, d) then Err(NotAnInput(PathOf(d)))
    else if SameOwner(s, d) then Err(SameComponent(PathOf(s), PathOf(d)))
    else if d in a.links then Err(AlreadyConnected(PathOf(d), PathOf(a.links[d])))
    else if s.Child? && d.Child? && s.comp in Digraph.Reach(CompGraph(a), {d.comp}) then
      Err(CircularDependency(s.comp, d.comp))
    else Ok(Invalidate(a.(links := a.links[d := s]), {d}))
  }

  /** `connect(src, dst)` on dotted pathnames: the source is located
      first, then the destination, then the checks of `ConnectPorts` run. */
  function Connect(a: Asm, src: string, dst: string): (r: Result<Asm, AsmError>)
    ensures Resolve(a, src).Err? ==> r == Err(NotFound(src))
    ensures Resolve(a, src).Ok? && Resolve(a, dst).Err? ==> r == Err(NotFound(dst))
    ensures Resolve(a, src).Ok? && Resolve(a, dst).Ok? ==>
      r == ConnectPorts(a, Resolve(a, src).value, Resolve(a, dst).value)
  {
    var s :- Resolve(a, src);
    var d :- Resolve(a, dst);
    ConnectPorts(a, s, d)
  }

  /** After a successful `connect(src, dst)`, `list_connections` reports
      the pair `(src, dst)` in addition to what it reported before. */
  lemma ConnectListed(a: Asm, src: string, dst: string)
    requires Connect(a, src, dst).Ok?
    ensures ListConnections(Connect(a, src, dst).value) == ListConnections(a) + {(src, dst)}
  {
    var s := Resolve(a, src).value;
    var d := Resolve(a, dst).value;
    var r := Connect(a, src, dst).value;
    assert r.links == a.links[d := s];
    forall pr | pr in ListConnections(r)
      ensures pr in ListConnections(a) + {(src, dst)}
    {
      var e :| e in r.links && pr == (PathOf(r.links[e]), PathOf(e));
      if e != d {
        assert e in a.links && r.links[e] == a.links[e];
      }
    }
    forall pr | pr in ListConnections(a)
      ensures pr in ListConnections(r)
    {
      var e :| e in a.links && pr == (PathOf(a.links[e]), PathOf(e));
      assert e in r.links && r.links[e] == a.links[e];
    }
    assert d in r.links && r.links[d] == s;
  }

  /** Past the direction, owner and single-source checks, `connect` is
      refused exactly when the new component edge would close a cycle. */
  lemma ConnectRejectsExactlyCycles(a: Asm, s: Port, d: Port)
    requires IsSource(a, s) && IsSink(a, d) && !SameOwner(s, d) && d !in a.links
    requires Digraph.Acyclic(CompGraph(a))
    ensures ConnectPorts(a, s, d).Err? <==>
      s.Child? && d.Child? && !Digraph.Acyclic(CompGraph(a) + {(s.comp, d.comp)})
  {
    if s.Child? && d.Child? {
      if s.comp in Digraph.Reach(CompGraph(a), {d.comp}) {
        Digraph.AddEdgeClosesCycle(CompGraph(a), s.comp, d.comp);
      } else {
        Digraph.AddEdgeKeepsAcyclic(CompGraph(a), s.comp, d.comp);
      }
    }
  }

  lemma LinkedPortsExist(a: Asm, d: Port)
    requires LinksWellFormed(a) && d in a.links
    ensures VarAt(a, d).Some? && VarAt(a, a.links[d]).Some?
  {
  }

  lemma AddLinkWellFormed(a: Asm, s: Port, d: Port)
    requires LinksWellFormed(a) && IsSource(a, s) && IsSink(a, d) && !SameOwner(s, d)
    ensures LinksWellFormed(a.(links := a.links[d := s]))
  {
    var b := a.(links := a.links[d := s]);
    forall e | e in b.links
      ensures IsSink(b, e) && IsSource(b, b.links[e]) && !SameOwner(b.links[e], e)
    {
      VarAtFrame(a, b, e);
      VarAtFrame(a, b, b.links[e]);
      if e != d {
        assert IsSink(a, e) && IsSource(a, a.links[e]);
      }
    }
  }

  /** When the checks of `connect` pass, the component graph with the
      new connection is still acyclic. */
  lemma AddLinkAcyclic(a: Asm, s: Port, d: Port)
    requires Digraph.Acyclic(CompGraph(a)) && ConnectPorts(a, s, d).Ok?
    ensures Digraph.Acyclic(CompGraph(a.(links := a.links[d := s])))
  {
    var b := a.(links := a.links[d := s]);
    CompGraphAddLink(a, b, s, d);
    if s.Child? && d.Child? {
      Digraph.AddEdgeKeepsAcyclic(CompGraph(a), s.comp, d.comp);
    }
  }

  /** A successful `connect` adds exactly the one connection and keeps
      every invariant: one source per input, no same-owner connection, no
      cycle, and valid inputs hold their sources' values. */
  lemma ConnectKeepsWf(a: Asm, s: Port, d: Port)
    requires Wf(a) && ConnectPorts(a, s, d).Ok?
    ensures Wf(ConnectPorts(a, s, d).value)
    ensures ConnectPorts(a, s, d).value.links == a.links[d := s]
  {
    var b := a.(links := a.links[d := s]);
    var r := ConnectPorts(a, s, d).value;
    AddLinkWellFormed(a, s, d);
    AddLinkAcyclic(a, s, d);
    InvalidateSameShape(b, {d});
    SameShapeKeepsStructure(b, r);
    forall e | e in b.links && e !in {d} && ValidAt(b, e)
      ensures ValueAt(b, e) == ValueAt(b, b.links[e])
    {
      VarAtFrame(a, b, e);
      VarAtFrame(a, b, b.links[e]);
      assert ValidAt(a, e);
    }
    InvalidateRestoresCoherent(b, {d});
  }

  /** Keep only the connections whose destination is in `keep`. */
  function KeepLinks(a: Asm, keep: set<Port>): (r: Asm)
    ensures r.links.Keys == a.links.Keys * keep
    ensures forall d :: d in r.links ==> r.links[d] == a.links[d]
    ensures r.comps == a.comps && r.boundary == a.boundary && r.workflow == a.workflow
  {
    a.(links := map d | d in a.links && d in keep :: a.links[d])
  }

  lemma KeepLinksKeepsWf(a: Asm, keep: set<Port>)
    requires Wf(a)
    ensures Wf(KeepLinks(a, keep))
  {
    var b := KeepLinks(a, keep);
    forall d | d in b.links
      ensures d in a.links && b.links[d] == a.links[d]
      ensures VarAt(b, d) == VarAt(a, d) && VarAt(b, a.links[d]) == VarAt(a, a.links[d])
    {
      VarAtFrame(a, b, d);
      VarAtFrame(a, b, a.links[d]);
    }
    assert Declarations(b) by {
      assert b.comps == a.comps;
    }
    SubLinksKeepWf(a, b);
  }

  /** `disconnect(path)` drops every connection into or out of `path`;
      `disconnect(src, dst)` drops that one connection if it exists.
      Neither complains when nothing matches. */
  function Disconnect(a: Asm, path: string, other: Option<string>): (r: Result<Asm, AsmError>)
    ensures r.Ok? ==> r.value.comps == a.comps && r.value.boundary == a.boundary && r.value.workflow == a.workflow
    ensures r.Ok? ==>
      && r.value.links.Keys <= a.links.Keys
      && forall d :: d in r.value.links ==> r.value.links[d] == a.links[d]
    ensures r.Ok? && other.None? ==>
      && Resolve(a, path).Ok?
      && forall d :: d in a.links ==>
           (d in r.value.links <==> d != Resolve(a, path).value && a.links[d] != Resolve(a, path).value)
    ensures r.Ok? && other.Some? ==>
      && Resolve(a, path).Ok?
      && Resolve(a, other.value).Ok?
      && forall d :: d in a.links ==>
           (d in r.value.links <==> !(d == Resolve(a, other.value).value && a.links[d] == Resolve(a, path).value))
    ensures r.Err? ==> r.error == NotFound(path) || (other.Some? && r.error == NotFound(other.value))
    ensures r.Ok? <==> Resolve(a, path).Ok? && (other.None? || Resolve(a, other.value).Ok?)
    ensures Resolve(a, path).Err? ==> r == Err(NotFound(path))
    ensures Resolve(a, path).Ok? && other.Some? && Resolve(a, other.value).Err? ==> r == Err(NotFound(other.value))
  {
    var p :- Resolve(a, path);
    match other
    case None =>
      Ok(KeepLinks(a, set d | d in a.links && d != p && a.links[d] != p))
    case Some(q) =>
      var dq :- Resolve(a, q);
      Ok(KeepLinks(a, set d | d in a.links && !(d == dq && a.links[d] == p)))
  }

  /** Disconnecting a path that no connection touches changes nothing. */
  lemma DisconnectUnconnectedIsNoOp(a: Asm, path: string)
    requires Resolve(a, path).Ok?
    requires forall d :: d in a.links ==> d != Resolve(a, path).value && a.links[d] != Resolve(a, path).value
    ensures Disconnect(a, path, None) == Ok(a)
  {
    var r := Disconnect(a, path, None).value;
    assert r.links == a.links;
  }

  lemma DisconnectKeepsWf(a: Asm, path: string, other: Option<string>)
    requires Wf(a) && Disconnect(a, path, other).Ok?
    ensures Wf(Disconnect(a, path, other).value)
  {
    var p := Resolve(a, path).value;
    match other
    case None =>
      KeepLinksKeepsWf(a, set d | d in a.links && d != p && a.links[d] != p);
    case Some(q) =>
      var dq := Resolve(a, q).value;
      KeepLinksKeepsWf(a, set d | d in a.links && !(d == dq && a.links[d] == p));
  }

  predicate OwnedBy(p: Port, name: string) {
    p.Child? && p.comp == name
  }

  /** `ws` without any occurrence of `name`, order kept. */
  function Without(ws: seq<string>, name: string): (r: seq<string>)
    ensures name !in r
    ensures forall x :: x in r <==> x in ws && x != name
  {
    if |ws| == 0 then []
    else if ws[0] == name then Without(ws[1..], name)
    else [ws[0]] + Without(ws[1..], name)
  }

  /** Drop the connections touching child `name`. */
  function Unlink(a: Asm, name: string): (r: Asm)
    ensures r == KeepLinks(a, set d | d in a.links && !OwnedBy(d, name) && !OwnedBy(a.links[d], name))
  {
    KeepLinks(a, set d | d in a.links && !OwnedBy(d, name) && !OwnedBy(a.links[d], name))
  }

  /** `remove(name)`: the child goes, with every connection touching it
      and its workflow entries; an unknown name is an error. */
  function Remove(a: Asm, name: string): (r: Result<Asm, AsmError>)
    ensures r.Err? <==> name !in a.comps
    ensures r.Err? ==> r.error == NoSuchComponent(name)
    ensures r.Ok? ==> r.value.comps.Keys == a.comps.Keys - {name}
    ensures r.Ok? ==> r.value.comps == a.comps - {name} && r.value.boundary == a.boundary
    ensures r.Ok? ==> forall d :: d in r.value.links <==>
      d in a.links && !OwnedBy(d, name) && !OwnedBy(a.links[d], name)
    ensures r.Ok? ==> forall d :: d in r.value.links ==> r.value.links[d] == a.links[d]
    ensures r.Ok? ==> name !in r.value.workflow && r.value.workflow == Without(a.workflow, name)
  {
    if name !in a.comps then Err(NoSuchComponent(name))
    else
      var u := Unlink(a, name);
      Ok(u.(comps := a.comps - {name}, workflow := Without(a.workflow, name)))
  }

  lemma RemoveKeepsWf(a: Asm, name: string)
    requires Wf(a) && name in a.comps
    ensures Wf(Remove(a, name).value)
  {
    var r := Remove(a, name).value;
    forall d | d in r.links
      ensures d in a.links && r.links[d] == a.links[d]
      ensures VarAt(r, d) == VarAt(a, d) && VarAt(r, a.links[d]) == VarAt(a, a.links[d])
    {
      VarAtFrame(r, a, d);
      VarAtFrame(r, a, a.links[d]);
    }
    SubLinksKeepWf(a, r);
  }

  /** `add(name, comp)`: a fresh child of class `kind` (replacing any child
      of that name, whose connections go with it). */
  function Add(a: Asm, name: string, kind: Kind): (r: Asm)
    ensures r.comps.Keys == a.comps.Keys + {name}
    ensures r.comps[name] == Comp(kind, Declared(kind), 0)
    ensures forall c :: c in a.comps && c != name ==> r.comps[c] == a.comps[c]
    ensures forall d :: d in r.links <==> d in a.links && !OwnedBy(d, name) && !OwnedBy(a.links[d], name)
    ensures r.workflow == a.workflow
  {
    var u := Unlink(a, name);
    u.(comps := a.comps[name := Comp(kind, Declared(kind), 0)])
  }

  lemma AddDeclarations(a: Asm, name: string, kind: Kind)
    requires Declarations(a)
    ensures Declarations(Add(a, name, kind))
  {
    var r := Add(a, name, kind);
    forall c | c in r.comps
      ensures r.comps[c].vars.Keys == Declared(r.comps[c].kind).Keys
      ensures forall x :: x in r.comps[c].vars ==> r.comps[c].vars[x].dir == Declared(r.comps[c].kind)[x].dir
    {
      if c != name {
        assert r.comps[c] == a.comps[c];
      }
    }
  }

  lemma AddFrame(a: Asm, name: string, kind: Kind)
    ensures var r := Add(a, name, kind);
      forall d :: d in r.links ==>
        d in a.links && r.links[d] == a.links[d] &&
        VarAt(r, d) == VarAt(a, d) && VarAt(r, a.links[d]) == VarAt(a, a.links[d])
  {
    var r := Add(a, name, kind);
    forall d | d in r.links
      ensures d in a.links && r.links[d] == a.links[d]
      ensures VarAt(r, d) == VarAt(a, d) && VarAt(r, a.links[d]) == VarAt(a, a.links[d])
    {
      VarAtFrame(r, a, d);
      VarAtFrame(r, a, a.links[d]);
    }
  }

  lemma AddKeepsWf(a: Asm, name: string, kind: Kind)
    requires Wf(a)
    ensures Wf(Add(a, name, kind))
  {
    AddDeclarations(a, name, kind);
    AddFrame(a, name, kind);
    SubLinksKeepWf(a, Add(a, name, kind));
  }

  /** `create_passthrough(path, alias)`: expose a child's variable on the
      assembly boundary under `alias` (default: the last path segment).
      The boundary variable copies the inner value and is connected to
      it: an input passthrough feeds the inner input, an output
      passthrough is fed by the inner output. */
  function CreatePassthrough(a: Asm, path: string, alias: Option<string>): (r: Result<Asm, AsmError>)
    ensures r.Ok? ==> Resolve(a, path).Ok?
    ensures r.Ok? ==>
      var p := Resolve(a, path).value;
      var name := alias.GetOr(PathNames.LastSegment(path));
      && p.Child? && name !in a.boundary
      && r.value.boundary.Keys == a.boundary.Keys + {name}
      && r.value.boundary[name].value == VarAt(a, p).value.value
      && r.value.boundary[name].dir == VarAt(a, p).value.dir
      && (VarAt(a, p).value.dir == In ==> p !in a.links && r.value.links == a.links[p := Boundary(name)])
      && (VarAt(a, p).value.dir == Out ==> r.value.links == a.links[Boundary(name) := p])
    ensures r.Ok? ==> r.value.workflow == a.workflow
    ensures r.Ok? ==> forall x :: x in a.boundary ==> r.value.boundary[x] == a.boundary[x]
    ensures r.Ok? ==>
      r.value.boundary[alias.GetOr(PathNames.LastSegment(path))].valid == (VarAt(a, Resolve(a, path).value).value.dir == In)
    ensures r.Ok? ==> r.value.comps.Keys == a.comps.Keys
    ensures r.Ok? ==> forall c :: c in a.comps ==>
      r.value.comps[c].kind == a.comps[c].kind && r.value.comps[c].execCount == a.comps[c].execCount
    ensures r.Ok? ==> forall q: Port :: q.Child? ==> VarAt(r.value, q).Some? == VarAt(a, q).Some?
    ensures r.Ok? ==> forall q: Port :: q.Child? && VarAt(a, q).Some? ==>
      VarAt(r.value, q).value == VarAt(a, q).value.(valid := VarAt(a, q).value.valid &&
        !(q == Resolve(a, path).value && VarAt(a, q).value.dir == In))
    ensures Resolve(a, path).Err? || Resolve(a, path).value.Boundary? ==> r == Err(NotFound(path))
    ensures Resolve(a, path).Ok? && Resolve(a, path).value.Child? && alias.GetOr(PathNames.LastSegment(path)) in a.boundary ==>
      r == Err(DuplicateName(alias.GetOr(PathNames.LastSegment(path))))
    ensures (r.Err? && Resolve(a, path).Ok? && Resolve(a, path).value.Child? &&
             alias.GetOr(PathNames.LastSegment(path)) !in a.boundary) ==>
      var p := Resolve(a, path).value;
      VarAt(a, p).value.dir == In && p in a.links && r.error == AlreadyConnected(path, PathOf(a.links[p]))
  {
    var p :- Resolve(a, path);
    if p.Boundary? then Err(NotFound(path))
    else
      var name := alias.GetOr(PathNames.LastSegment(path));
      if name in a.boundary then Err(DuplicateName(name))
      else
        var v := VarAt(a, p).value;
        if v.dir == In then
          if p in a.links then Err(AlreadyConnected(path, PathOf(a.links[p])))
          else Ok(PassIn(a, p, name, v))
        else Ok(PassOut(a, p, name, v))
  }

  /** An input passthrough: the new boundary input feeds `p`, which waits
      for its value. */
  function PassIn(a: Asm, p: Port, name: string, v: Var): (r: Asm)
    requires p.Child?
    ensures r.workflow == a.workflow && r.links == a.links[p := Boundary(name)]
    ensures r.boundary.Keys == a.boundary.Keys + {name} && r.boundary[name] == Var(In, v.value, true)
    ensures forall x :: x in a.boundary && x != name ==> r.boundary[x] == a.boundary[x]
    ensures r.comps.Keys == a.comps.Keys
    ensures forall c :: c in a.comps ==>
      r.comps[c].kind == a.comps[c].kind && r.comps[c].execCount == a.comps[c].execCount
    ensures forall q: Port :: q.Child? ==> VarAt(r, q).Some? == VarAt(a, q).Some?
    ensures forall q: Port :: q.Child? && VarAt(a, q).Some? ==>
      VarAt(r, q).value == VarAt(a, q).value.(valid := VarAt(a, q).value.valid && q != p)
  {
    var b := a.(boundary := a.boundary[name := Var(In, v.value, true)], links := a.links[p := Boundary(name)]);
    assert VarAt(b, Boundary(name)).Some?;
    Invalidate(b, {p})
  }

  /** An output passthrough: `p` feeds the new boundary output, which is
      not valid until the assembly pulls it. */
  function PassOut(a: Asm, p: Port, name: string, v: Var): (r: Asm)
    ensures r.workflow == a.workflow && r.links == a.links[Boundary(name) := p]
    ensures r.boundary == a.boundary[name := Var(Out, v.value, false)]
    ensures r.comps == a.comps
  {
    a.(boundary := a.boundary[name := Var(Out, v.value, false)], links := a.links[Boundary(name) := p])
  }

  /** Old connections never touch a fresh boundary name and keep their
      variables when one is added. */
  lemma FreshBoundaryFrame(a: Asm, b: Asm, name: string)
    requires LinksWellFormed(a) && name !in a.boundary
    requires b.comps == a.comps && name in b.boundary && b.boundary == a.boundary[name := b.boundary[name]]
    ensures forall e :: e in a.links ==>
      e != Boundary(name) && a.links[e] != Boundary(name) &&
      VarAt(b, e) == VarAt(a, e) && VarAt(b, a.links[e]) == VarAt(a, a.links[e])
  {
    forall e | e in a.links
      ensures e != Boundary(name) && a.links[e] != Boundary(name)
      ensures VarAt(b, e) == VarAt(a, e) && VarAt(b, a.links[e]) == VarAt(a, a.links[e])
    {
      assert IsSink(a, e) && IsSource(a, a.links[e]);
      VarAtFrame(a, b, e);
      VarAtFrame(a, b, a.links[e]);
    }
  }

  /** Structure and coherence of an assembly that gained one boundary
      variable and one connection touching it. */
  lemma NewBoundaryLinkStructure(a: Asm, b: Asm, name: string, s: Port, d: Port)
    requires Wf(a) && name !in a.boundary && d !in a.links
    requires b.comps == a.comps && name in b.boundary && b.boundary == a.boundary[name := b.boundary[name]]
    requires b.links == a.links[d := s] && b.workflow == a.workflow
    requires IsSource(b, s) && IsSink(b, d) && !SameOwner(s, d)
    requires s == Boundary(name) || d == Boundary(name)
    ensures Declarations(b) && LinksWellFormed(b) && Digraph.Acyclic(CompGraph(b))
    ensures forall e :: e in b.links && e != d && ValidAt(b, e) ==> ValueAt(b, e) == ValueAt(b, b.links[e])
  {
    FreshBoundaryFrame(a, b, name);
    forall e | e in b.links
      ensures IsSink(b, e) && IsSource(b, b.links[e]) && !SameOwner(b.links[e], e)
    {
      if e != d {
        assert IsSink(a, e) && IsSource(a, a.links[e]);
      }
    }
    CompGraphAddLink(a, b, s, d);
    forall e | e in b.links && e != d && ValidAt(b, e)
      ensures ValueAt(b, e) == ValueAt(b, b.links[e])
    {
      assert ValidAt(a, e);
    }
  }

  lemma CreatePassthroughKeepsWf(a: Asm, path: string, alias: Option<string>)
    requires Wf(a) && CreatePassthrough(a, path, alias).Ok?
    ensures Wf(CreatePassthrough(a, path, alias).value)
  {
    var p := Resolve(a, path).value;
    var name := alias.GetOr(PathNames.LastSegment(path));
    var v := VarAt(a, p).value;
    var nb := Boundary(name);
    if v.dir == In {
      var b := a.(boundary := a.boundary[name := Var(In, v.value, true)], links := a.links[p := nb]);
      NewBoundaryLinkStructure(a, b, name, nb, p);
      InvalidateSameShape(b, {p});
      SameShapeKeepsStructure(b, Invalidate(b, {p}));
      InvalidateRestoresCoherent(b, {p});
    } else {
      var b := a.(boundary := a.boundary[name := Var(Out, v.value, false)], links := a.links[nb := p]);
      NewBoundaryLinkStructure(a, b, name, p, nb);
    }
  }

  /** `list_connections()`: (source, destination) pathname pairs, one
      per connection. */
  function ListConnections(a: Asm): set<(string, string)> {
    set d | d in a.links :: (PathOf(a.links[d]), PathOf(d))
  }

  /** The child a pathname's first segment names, when it has two
      segments. */
  function PathOwner(path: string): Option<string> {
    var tok := Strings.Split(path, '.');
    if |tok| == 2 then Some(tok[0]) else None
  }

  lemma PathOwnerOf(p: Port)
    requires PortDotFree(p)
    ensures PathOwner(PathOf(p)) == if p.Child? then Some(p.comp) else None
  {
    match p
    case Child(c, x) =>
      assert Strings.Join([c, x], '.') == c + "." + x by {
        assert [c, x][1..] == [x];
      }
      Strings.SplitJoin([c, x], '.');
    case Boundary(x) =>
      Strings.SplitJoin([x], '.');
  }

  /** Every connected port has dot-free names, as every port `connect`
      locates does. */
  ghost predicate LinkedNamesDotFree(a: Asm) {
    forall d :: d in a.links ==> PortDotFree(d) && PortDotFree(a.links[d])
  }

  /** After `remove(name)`, `list_connections` reports exactly the pairs it
      reported before whose source and destination lie outside `name`. */
  lemma RemoveListed(a: Asm, name: string)
    requires name in a.comps && LinkedNamesDotFree(a)
    ensures ListConnections(Remove(a, name).value) ==
      set pr | pr in ListConnections(a) && PathOwner(pr.0) != Some(name) && PathOwner(pr.1) != Some(name)
  {
    UnlinkListed(a, Remove(a, name).value, name);
  }

  /** Listing an assembly whose connections are those of `a` not touching
      child `name`. */
  lemma UnlinkListed(a: Asm, r: Asm, name: string)
    requires LinkedNamesDotFree(a)
    requires forall d :: d in r.links <==> d in a.links && !OwnedBy(d, name) && !OwnedBy(a.links[d], name)
    requires forall d :: d in r.links ==> r.links[d] == a.links[d]
    ensures ListConnections(r) ==
      set pr | pr in ListConnections(a) && PathOwner(pr.0) != Some(name) && PathOwner(pr.1) != Some(name)
  {
    var kept := set pr | pr in ListConnections(a) && PathOwner(pr.0) != Some(name) && PathOwner(pr.1) != Some(name);
    forall pr | pr in ListConnections(r)
      ensures pr in kept
    {
      var d :| d in r.links && pr == (PathOf(r.links[d]), PathOf(d));
      PathOwnerOf(d);
      PathOwnerOf(a.links[d]);
    }
    forall pr | pr in kept
      ensures pr in ListConnections(r)
    {
      var d :| d in a.links && pr == (PathOf(a.links[d]), PathOf(d));
      PathOwnerOf(d);
      PathOwnerOf(a.links[d]);
      assert d in r.links;
    }
  }

  /** A successful `connect` keeps every connected name free of dots. */
  lemma ConnectKeepsDotFree(a: Asm, src: string, dst: string)
    requires LinkedNamesDotFree(a) && Connect(a, src, dst).Ok?
    ensures LinkedNamesDotFree(Connect(a, src, dst).value)
  {
    assert Connect(a, src, dst).value.links == a.links[Resolve(a, dst).value := Resolve(a, src).value];
  }
}
