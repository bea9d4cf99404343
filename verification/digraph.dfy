/** Finite directed graphs given as edge sets: reachability computed as a
    fixpoint, paths, and acyclicity. The assembly's cycle check and its
    staleness propagation are both reachability questions on such a graph. */
module Digraph {

  /** Endpoints of the edges leaving any node of `from`. */
  function Succ<N>(edges: set<(N, N)>, from: set<N>): set<N> {
    set e | e in edges && e.0 in from :: e.1
  }

  function Nodes<N>(edges: set<(N, N)>): set<N> {
    (set e | e in edges :: e.0) + (set e | e in edges :: e.1)
  }

  /** Grow `visited` by successors until nothing new appears. */
  function Closure<N>(edges: set<(N, N)>, visited: set<N>, universe: set<N>): (r: set<N>)
    requires visited <= universe
    requires Nodes(edges) <= universe
    ensures visited <= r <= universe
    ensures Succ(edges, r) <= r
    decreases |universe - visited|
  {
    var next := visited + Succ(edges, visited);
    if next <= visited then visited
    else
      assert |universe - next| < |universe - visited| by {
        ProperSubsetSmaller(universe - next, universe - visited);
      }
      Closure(edges, next, universe)
  }

  /** Every node reachable from some root (the roots included). */
  function Reach<N>(edges: set<(N, N)>, roots: set<N>): (r: set<N>)
    ensures roots <= r
    ensures Succ(edges, r) <= r
  {
    Closure(edges, roots, roots + Nodes(edges))
  }

  /** A non-empty node sequence whose consecutive pairs are edges. */
  ghost predicate IsPath<N>(edges: set<(N, N)>, p: seq<N>) {
    |p| >= 1 && forall k :: 0 <= k < |p| - 1 ==> (p[k], p[k + 1]) in edges
  }

  ghost predicate Reachable<N(!new)>(edges: set<(N, N)>, x: N, y: N) {
    exists p :: IsPath(edges, p) && p[0] == x && p[|p| - 1] == y
  }

  /** No path of one or more edges returns to its start. */
  ghost predicate Acyclic<N(!new)>(edges: set<(N, N)>) {
    forall p :: IsPath(edges, p) && |p| > 1 ==> p[0] != p[|p| - 1]
  }

  lemma PathExtend<N>(edges: set<(N, N)>, p: seq<N>, y: N)
    requires IsPath(edges, p) && (p[|p| - 1], y) in edges
    ensures IsPath(edges, p + [y])
  {
  }

  lemma PathJoin<N>(edges: set<(N, N)>, p: seq<N>, q: seq<N>)
    requires IsPath(edges, p) && IsPath(edges, q) && p[|p| - 1] == q[0]
    ensures IsPath(edges, p + q[1..])
  {
    var r := p + q[1..];
    forall k | 0 <= k < |r| - 1
      ensures (r[k], r[k + 1]) in edges
    {
      if k < |p| - 1 {
        assert r[k] == p[k] && r[k + 1] == p[k + 1];
      } else {
        assert r[k] == q[k - |p| + 1] && r[k + 1] == q[k - |p| + 2];
      }
    }
  }

  /** A closed set containing the start of a path contains all of it. */
  lemma {:induction false} ClosedContainsPath<N>(edges: set<(N, N)>, s: set<N>, p: seq<N>)
    requires Succ(edges, s) <= s
    requires IsPath(edges, p) && p[0] in s
    ensures p[|p| - 1] in s
    decreases |p|
  {
    if |p| > 1 {
      assert (p[0], p[1]) in edges;
      assert p[1] in Succ(edges, s);
      assert IsPath(edges, p[1..]);
      ClosedContainsPath(edges, s, p[1..]);
    }
  }

  /** Everything the fixpoint adds is reachable from a root. */
  lemma {:induction false} ClosureSound<N(!new)>(edges: set<(N, N)>, roots: set<N>, visited: set<N>, universe: set<N>)
    requires visited <= universe && Nodes(edges) <= universe
    requires forall v :: v in visited ==> exists x :: x in roots && Reachable(edges, x, v)
    ensures forall v :: v in Closure(edges, visited, universe) ==> exists x :: x in roots && Reachable(edges, x, v)
    decreases |universe - visited|
  {
    var next := visited + Succ(edges, visited);
    if !(next <= visited) {
      forall w | w in next
        ensures exists x :: x in roots && Reachable(edges, x, w)
      {
        if w !in visited {
          var e :| e in edges && e.0 in visited && e.1 == w;
          var x :| x in roots && Reachable(edges, x, e.0);
          var p :| IsPath(edges, p) && p[0] == x && p[|p| - 1] == e.0;
          PathExtend(edges, p, w);
          assert (p + [w])[0] == x;
        }
      }
      assert |universe - next| < |universe - visited| by {
        ProperSubsetSmaller(universe - next, universe - visited);
      }
      ClosureSound(edges, roots, next, universe);
    }
  }

  /** `Reach` adds nothing that no path leads to. */
  lemma ReachSound<N(!new)>(edges: set<(N, N)>, roots: set<N>, y: N)
    requires y in Reach(edges, roots)
    ensures exists x :: x in roots && Reachable(edges, x, y)
  {
    forall v | v in roots
      ensures exists x :: x in roots && Reachable(edges, x, v)
    {
      assert IsPath(edges, [v]);
    }
    ClosureSound(edges, roots, roots, roots + Nodes(edges));
  }

  /** `Reach` misses nothing a path leads to. */
  lemma ReachComplete<N(!new)>(edges: set<(N, N)>, roots: set<N>, p: seq<N>)
    requires IsPath(edges, p) && p[0] in roots
    ensures p[|p| - 1] in Reach(edges, roots)
  {
    ClosedContainsPath(edges, Reach(edges, roots), p);
  }

  /** A closed set holding the roots holds everything reachable from them. */
  lemma ReachWithin<N(!new)>(edges: set<(N, N)>, roots: set<N>, s: set<N>)
    requires roots <= s && Succ(edges, s) <= s
    ensures Reach(edges, roots) <= s
  {
    forall y | y in Reach(edges, roots)
      ensures y in s
    {
      ReachSound(edges, roots, y);
      var x :| x in roots && Reachable(edges, x, y);
      var p :| IsPath(edges, p) && p[0] == x && p[|p| - 1] == y;
      ClosedContainsPath(edges, s, p);
    }
  }

  /** `Reach` is exactly the set of nodes some path leads to from a root. */
  lemma ReachIff<N(!new)>(edges: set<(N, N)>, roots: set<N>, y: N)
    ensures y in Reach(edges, roots) <==> exists x :: x in roots && Reachable(edges, x, y)
  {
    if y in Reach(edges, roots) {
      ReachSound(edges, roots, y);
    } else if exists x :: x in roots && Reachable(edges, x, y) {
      var x :| x in roots && Reachable(edges, x, y);
      var p :| IsPath(edges, p) && p[0] == x && p[|p| - 1] == y;
      ReachComplete(edges, roots, p);
    }
  }

  lemma SubsetSmaller<T>(a: set<T>, b: set<T>)
    requires a <= b
    ensures |a| <= |b|
    decreases a
  {
    if a != {} {
      var x :| x in a;
      SubsetSmaller(a - {x}, b - {x});
    }
  }

  lemma ProperSubsetSmaller<T>(a: set<T>, b: set<T>)
    requires a < b
    ensures |a| < |b|
  {
    var x :| x in b && x !in a;
    SubsetSmaller(a, b - {x});
  }

  /** A path over `edges + {(s, d)}` either avoids the new edge (`i < 0`)
      or has a prefix over `edges` ending where the new edge is first taken. */
  lemma {:induction false} FirstUse<N>(edges: set<(N, N)>, s: N, d: N, p: seq<N>) returns (i: int)
    requires IsPath(edges + {(s, d)}, p)
    ensures i < 0 ==> IsPath(edges, p)
    ensures i >= 0 ==> i < |p| - 1 && p[i] == s && p[i + 1] == d && IsPath(edges, p[..i + 1])
    decreases |p|
  {
    i := -1;
    if |p| > 1 {
      if p[0] == s && p[1] == d {
        i := 0;
        assert IsPath(edges, p[..1]);
      } else {
        assert IsPath(edges + {(s, d)}, p[1..]);
        var k := FirstUse(edges, s, d, p[1..]);
        if k < 0 {
          assert IsPath(edges, p);
        } else {
          i := k + 1;
          assert p[..i + 1] == [p[0]] + p[1..][..k + 1];
          assert IsPath(edges, p[..i + 1]);
        }
      }
    }
  }

  /** Dually, a path taking the new edge has a suffix over `edges` that
      starts where the new edge is last taken. */
  lemma {:induction false} LastUse<N>(edges: set<(N, N)>, s: N, d: N, p: seq<N>) returns (j: int)
    requires IsPath(edges + {(s, d)}, p)
    ensures j < 0 ==> IsPath(edges, p)
    ensures j >= 0 ==> j < |p| - 1 && p[j] == s && p[j + 1] == d && IsPath(edges, p[j + 1..])
    decreases |p|
  {
    j := -1;
    if |p| > 1 {
      var n := |p|;
      if p[n - 2] == s && p[n - 1] == d {
        j := n - 2;
        assert IsPath(edges, p[n - 1..]);
      } else {
        var q := p[..n - 1];
        assert IsPath(edges + {(s, d)}, q);
        var k := LastUse(edges, s, d, q);
        if k < 0 {
          assert IsPath(edges, p);
        } else {
          j := k;
          assert p[j + 1..] == q[j + 1..] + [p[n - 1]];
          assert IsPath(edges, p[j + 1..]);
        }
      }
    }
  }

  /** A cycle over `edges + {(s, d)}` that is not a cycle over `edges`
      yields a path from `d` back to `s` over `edges`. */
  lemma CycleThroughNewEdge<N(!new)>(edges: set<(N, N)>, s: N, d: N, p: seq<N>)
    requires IsPath(edges + {(s, d)}, p) && |p| > 1 && p[0] == p[|p| - 1]
    requires !IsPath(edges, p)
    ensures Reachable(edges, d, s)
  {
    var i := FirstUse(edges, s, d, p);
    var j := LastUse(edges, s, d, p);
    var tail := p[j + 1..];
    var head := p[..i + 1];
    PathJoin(edges, tail, head);
    var loop := tail + head[1..];
    assert loop[0] == d;
    assert loop[|loop| - 1] == s;
  }

  /** Adding an edge `s -> d` keeps a graph acyclic exactly when `s` is not
      reachable from `d`; this direction: unreachable keeps it acyclic. */
  lemma AddEdgeKeepsAcyclic<N(!new)>(edges: set<(N, N)>, s: N, d: N)
    requires Acyclic(edges)
    requires s !in Reach(edges, {d})
    ensures Acyclic(edges + {(s, d)})
  {
    var big := edges + {(s, d)};
    forall p | IsPath(big, p) && |p| > 1
      ensures p[0] != p[|p| - 1]
    {
      if p[0] == p[|p| - 1] {
        CycleThroughNewEdge(edges, s, d, p);
        ReachIff(edges, {d}, s);
      }
    }
  }

  /** ...and reachable closes a cycle. */
  lemma AddEdgeClosesCycle<N(!new)>(edges: set<(N, N)>, s: N, d: N)
    requires s in Reach(edges, {d})
    ensures !Acyclic(edges + {(s, d)})
  {
    ReachIff(edges, {d}, s);
    var p :| IsPath(edges, p) && p[0] == d && p[|p| - 1] == s;
    var big := edges + {(s, d)};
    forall k | 0 <= k < |p| - 1
      ensures (p[k], p[k + 1]) in big
    {
    }
    PathExtend(big, p, d);
    var c := p + [d];
    assert IsPath(big, c) && |c| > 1 && c[0] == c[|c| - 1];
  }

  lemma EmptyAcyclic<N(!new)>()
    ensures Acyclic<N>({})
  {
    var none: set<(N, N)> := {};
    assert forall p: seq<N> :: IsPath(none, p) && |p| > 1 ==> (p[0], p[1]) in none;
  }

  /** Removing edges cannot create a cycle. */
  lemma SubgraphAcyclic<N(!new)>(small: set<(N, N)>, big: set<(N, N)>)
    requires small <= big && Acyclic(big)
    ensures Acyclic(small)
  {
    forall p | IsPath(small, p) && |p| > 1
      ensures p[0] != p[|p| - 1]
    {
      assert IsPath(big, p);
    }
  }
}
