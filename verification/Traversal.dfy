/** The traversal engine of HepMC/GenVertex.h: the edge iterator over one
    vertex's particles, the vertex iterator over the vertices a range
    reaches, and the particle iterator built on it. Each iterator is modelled
    as a function returning the whole sequence it would yield. */
module Traversal {
  import opened Wrappers
  import opened Sequences
  import opened IteratorRanges
  import opened Arena
  import GenVertex

  // ---------------------------------------------------------------------
  // Edge iterator

  /** `edge_iterator`: the particles attached to one vertex, for the three
      one-step ranges the iterator accepts (`family` when no range is
      given): the incoming list, in its order, when the range follows
      parents, then the outgoing list when it follows children. */
  function Edges(g: Graph, v: VId, range: IteratorRange := Family): (r: seq<PId>)
    requires v in g.vertices && range.IsOneStep()
    ensures r == (if range.FollowsParents() then g.vertices[v].particlesIn else [])
               + (if range.FollowsChildren() then g.vertices[v].particlesOut else [])
    ensures Wf(g) ==> forall p :: p in r <==>
      (p in g.particles &&
       ((range.FollowsParents() && g.particles[p].endVertex == Some(v)) ||
        (range.FollowsChildren() && g.particles[p].productionVertex == Some(v))))
    ensures Wf(g) && !range.Family? ==> NoDup(r)
  {
    EdgesLinked(g, v);
    match range
    case Parents => g.vertices[v].particlesIn
    case Children => g.vertices[v].particlesOut
    case Family => g.vertices[v].particlesIn + g.vertices[v].particlesOut
  }

  /** In a well-formed graph the lists of `v` hold exactly the particles
      linked back to `v`. */
  lemma EdgesLinked(g: Graph, v: VId)
    requires v in g.vertices
    ensures Wf(g) ==> forall p :: p in g.vertices[v].particlesIn <==>
      (p in g.particles && g.particles[p].endVertex == Some(v))
    ensures Wf(g) ==> forall p :: p in g.vertices[v].particlesOut <==>
      (p in g.particles && g.particles[p].productionVertex == Some(v))
  {
    if Wf(g) {
      forall p | p in g.particles
        ensures p in g.vertices[v].particlesIn <==> g.particles[p].endVertex == Some(v)
        ensures p in g.vertices[v].particlesOut <==> g.particles[p].productionVertex == Some(v)
      {
        WfLinksAgree(g, v, p);
      }
    }
  }

  /** `edges_size`: how many particles the edge iterator yields (`family`
      when no range is given). In a well-formed graph that is the number of
      particles linked to `v` on the sides the range follows. */
  function EdgesSize(g: Graph, v: VId, range: IteratorRange := Family): (n: int)
    requires v in g.vertices && range.IsOneStep()
    ensures n == (if range.FollowsParents() then |g.vertices[v].particlesIn| else 0)
               + (if range.FollowsChildren() then |g.vertices[v].particlesOut| else 0)
    ensures Wf(g) ==> n == (if range.FollowsParents() then |GenVertex.EndingAt(g, v)| else 0)
                         + (if range.FollowsChildren() then |GenVertex.ProducedAt(g, v)| else 0)
  {
    GenVertex.SizesCount(g, v);
    |Edges(g, v, range)|
  }

  // ---------------------------------------------------------------------
  // One step through the graph

  /** Reference definition of one step of a range: `w` is the production
      vertex of an incoming particle of `u` (when the range follows parents)
      or the end vertex of an outgoing particle of `u` (when it follows
      children). */
  ghost predicate Edge(g: Graph, range: IteratorRange, u: VId, w: VId)
  {
    u in g.vertices &&
    ((range.FollowsParents() && ParentStep(g, u, w)) || (range.FollowsChildren() && ChildStep(g, u, w)))
  }

  /** Some incoming particle of `u` was produced at `w`. */
  ghost predicate ParentStep(g: Graph, u: VId, w: VId)
    requires u in g.vertices
  {
    exists p :: p in g.vertices[u].particlesIn && p in g.particles && g.particles[p].productionVertex == Some(w)
  }

  /** Some outgoing particle of `u` ends at `w`. */
  ghost predicate ChildStep(g: Graph, u: VId, w: VId)
    requires u in g.vertices
  {
    exists p :: p in g.vertices[u].particlesOut && p in g.particles && g.particles[p].endVertex == Some(w)
  }

  /** In a well-formed graph a step always lands on a vertex of the graph. */
  lemma EdgeStaysInGraph(g: Graph, range: IteratorRange, u: VId, w: VId)
    requires Wf(g) && Edge(g, range, u, w)
    ensures w in g.vertices
  {
    if range.FollowsParents() && ParentStep(g, u, w) {
      var p :| p in g.vertices[u].particlesIn && p in g.particles && g.particles[p].productionVertex == Some(w);
    } else {
      var p :| p in g.vertices[u].particlesOut && p in g.particles && g.particles[p].endVertex == Some(w);
    }
  }

  /** The production vertices of the listed particles, in list order. */
  function ProductionVertices(g: Graph, ps: seq<PId>): (r: seq<VId>)
    ensures forall w :: w in r <==>
      exists p :: p in ps && p in g.particles && g.particles[p].productionVertex == Some(w)
  {
    if |ps| == 0 then []
    else
      var rest := ProductionVertices(g, ps[1..]);
      assert forall p :: p in ps <==> p == ps[0] || p in ps[1..];
      if ps[0] in g.particles && g.particles[ps[0]].productionVertex.Some?
      then [g.particles[ps[0]].productionVertex.value] + rest
      else rest
  }

  /** The end vertices of the listed particles, in list order. */
  function EndVertices(g: Graph, ps: seq<PId>): (r: seq<VId>)
    ensures forall w :: w in r <==>
      exists p :: p in ps && p in g.particles && g.particles[p].endVertex == Some(w)
  {
    if |ps| == 0 then []
    else
      var rest := EndVertices(g, ps[1..]);
      assert forall p :: p in ps <==> p == ps[0] || p in ps[1..];
      if ps[0] in g.particles && g.particles[ps[0]].endVertex.Some?
      then [g.particles[ps[0]].endVertex.value] + rest
      else rest
  }

  /** The vertices the vertex iterator tries to descend into from `v`, one
      per edge that has a vertex at its far end, in edge-iterator order. */
  function Neighbours(g: Graph, v: VId, range: IteratorRange): (r: seq<VId>)
    requires v in g.vertices
    ensures forall w :: w in r <==> Edge(g, range, v, w)
    ensures Wf(g) ==> forall i :: 0 <= i < |r| ==> r[i] in g.vertices
  {
    var r :=
    (if range.FollowsParents() then ProductionVertices(g, g.vertices[v].particlesIn) else []) +
    (if range.FollowsChildren() then EndVertices(g, g.vertices[v].particlesOut) else []);
    assert forall w :: w in r <==> Edge(g, range, v, w);
    NeighboursInGraph(g, range, v, r);
    r
  }

  lemma NeighboursInGraph(g: Graph, range: IteratorRange, v: VId, r: seq<VId>)
    requires forall w :: w in r ==> Edge(g, range, v, w)
    ensures Wf(g) ==> forall i :: 0 <= i < |r| ==> r[i] in g.vertices
  {
    if Wf(g) {
      forall i | 0 <= i < |r|
        ensures r[i] in g.vertices
      {
        EdgeStaysInGraph(g, range, v, r[i]);
      }
    }
  }

  // ---------------------------------------------------------------------
  // Vertex iterator

  lemma FewerUnvisited(all: set<VId>, visited: set<VId>, w: VId)
    requires w in all && w !in visited
    ensures |all - (visited + {w})| < |all - visited|
  {
    assert all - (visited + {w}) == (all - visited) - {w};
  }

  lemma NoMoreUnvisited(all: set<VId>, visited: set<VId>, more: set<VId>)
    requires visited <= more
    ensures |all - more| <= |all - visited|
  {
    var a := all - more;
    var b := all - visited;
    assert b == a + (b - a);
    assert a * (b - a) == {};
  }

  /** The walk from `v`, which the caller has already marked visited: every
      not-yet-visited neighbour is marked and walked in turn (recursive
      ranges) or yielded as it is (one-step ranges); `v` comes last. Returns
      the yielded vertices and the grown visited set, which is shared along
      the whole walk. */
  function Walk(g: Graph, v: VId, range: IteratorRange, visited: set<VId>): (r: (seq<VId>, set<VId>))
    requires Wf(g) && v in visited && visited <= g.vertices.Keys
    ensures visited <= r.1 <= g.vertices.Keys
    decreases |g.vertices.Keys - visited|, 1, 0
  {
    var (s, vis) := Visit(g, Neighbours(g, v, range), range, visited);
    (s + [v], vis)
  }

  /** Walks the listed neighbours in order, skipping those already visited
      (the edges into them are "chopped"). */
  function Visit(g: Graph, ns: seq<VId>, range: IteratorRange, visited: set<VId>): (r: (seq<VId>, set<VId>))
    requires Wf(g) && visited <= g.vertices.Keys
    requires forall i :: 0 <= i < |ns| ==> ns[i] in g.vertices
    ensures visited <= r.1 <= g.vertices.Keys
    decreases |g.vertices.Keys - visited|, 0, |ns|
  {
    if |ns| == 0 then ([], visited)
    else if ns[0] in visited then Visit(g, ns[1..], range, visited)
    else
      var w := ns[0];
      FewerUnvisited(g.vertices.Keys, visited, w);
      var (s1, vis1) :=
        if range.IsRecursive() then Walk(g, w, range, visited + {w})
        else ([w], visited + {w});
      NoMoreUnvisited(g.vertices.Keys, visited, vis1);
      var (s2, vis2) := Visit(g, ns[1..], range, vis1);
      (s1 + s2, vis2)
  }

  /** `vertex_iterator` from `root` over `range` (`relatives` when no range
      is given): every vertex the range reaches, each exactly once, with
      `root` last. For a recursive range the yielded vertices are exactly
      those reachable from `root` by repeated steps (the root included), even
      on a cyclic graph, and they come in post order; for a one-step range
      they are `root` and its direct neighbours. */
  function VertexRange(g: Graph, root: VId, range: IteratorRange := Relatives): (r: seq<VId>)
    requires Wf(g) && root in g.vertices
    ensures NoDup(r) && |r| > 0 && r[|r| - 1] == root
    ensures forall i :: 0 <= i < |r| ==> r[i] in g.vertices
    ensures range.IsRecursive() ==> forall w :: w in r <==> Reachable(g, range, root, w)
    ensures range.IsRecursive() ==> PostOrdered(g, range, r)
    ensures range.IsOneStep() ==> forall w :: w in r <==> w == root || Edge(g, range, root, w)
  {
    RootWalk(g, root, range);
    Walk(g, root, range, {root}).0
  }

  /** The facts `VertexRange` promises, proved about the walk from `root`. */
  lemma RootWalk(g: Graph, root: VId, range: IteratorRange)
    requires Wf(g) && root in g.vertices
    ensures var r := Walk(g, root, range, {root}).0;
      NoDup(r) && |r| > 0 && r[|r| - 1] == root &&
      (forall i :: 0 <= i < |r| ==> r[i] in g.vertices) &&
      (range.IsRecursive() ==> forall w :: w in r <==> Reachable(g, range, root, w)) &&
      (range.IsRecursive() ==> PostOrdered(g, range, r)) &&
      (range.IsOneStep() ==> forall w :: w in r <==> w == root || Edge(g, range, root, w))
  {
    var (s, vis) := Walk(g, root, range, {root});
    WalkYields(g, root, range, {root});
    assert forall w :: w in s <==> w in vis;
    if range.IsRecursive() {
      WalkCloses(g, root, range, {root});
      ReachableSelf(g, range, root);
      WalkReach(g, root, range, {root}, root);
      RootPostOrder(g, root, range);
      forall w | Reachable(g, range, root, w)
        ensures w in vis
      {
        ReachableInClosed(g, range, vis, root, w);
      }
    } else {
      WalkOneStep(g, root, range, {root});
    }
  }

  // ---------------------------------------------------------------------
  // Reachability, the reference the vertex iterator is measured against

  /** A chain of steps of `range`. */
  ghost predicate IsPath(g: Graph, range: IteratorRange, path: seq<VId>)
  {
    |path| >= 1 && forall i :: 0 <= i < |path| - 1 ==> Edge(g, range, path[i], path[i + 1])
  }

  /** `b` can be reached from `a` by zero or more steps of `range`. */
  ghost predicate Reachable(g: Graph, range: IteratorRange, a: VId, b: VId)
  {
    exists path :: IsPath(g, range, path) && path[0] == a && path[|path| - 1] == b
  }

  lemma ReachableStep(g: Graph, range: IteratorRange, a: VId, u: VId, w: VId)
    requires Reachable(g, range, a, u) && Edge(g, range, u, w)
    ensures Reachable(g, range, a, w)
  {
    var path :| IsPath(g, range, path) && path[0] == a && path[|path| - 1] == u;
    var path' := path + [w];
    assert IsPath(g, range, path');
  }

  /** Every step out of `from` lands in `within`. */
  ghost predicate ClosedFrom(g: Graph, range: IteratorRange, from: set<VId>, within: set<VId>)
  {
    forall u, w :: u in from && Edge(g, range, u, w) ==> w in within
  }

  lemma {:induction false} ReachableInClosed(g: Graph, range: IteratorRange, vs: set<VId>, a: VId, b: VId)
    requires ClosedFrom(g, range, vs, vs) && a in vs && Reachable(g, range, a, b)
    ensures b in vs
  {
    var path :| IsPath(g, range, path) && path[0] == a && path[|path| - 1] == b;
    var i := 0;
    while i < |path| - 1
      invariant 0 <= i < |path|
      invariant path[i] in vs
    {
      assert Edge(g, range, path[i], path[i + 1]);
      i := i + 1;
    }
  }

  // ---------------------------------------------------------------------
  // Proofs about the walk

  /** The walk yields the vertices it newly marks, plus `v`, each once,
      with `v` last. */
  lemma {:induction false} WalkYields(g: Graph, v: VId, range: IteratorRange, visited: set<VId>)
    requires Wf(g) && v in visited && visited <= g.vertices.Keys
    ensures var (s, vis) := Walk(g, v, range, visited);
      NoDup(s) && |s| > 0 && s[|s| - 1] == v &&
      forall x :: x in s <==> x in vis - visited || x == v
    decreases |g.vertices.Keys - visited|, 1, 0
  {
    var ns := Neighbours(g, v, range);
    VisitYields(g, ns, range, visited);
    var (s, vis) := Visit(g, ns, range, visited);
    assert Walk(g, v, range, visited) == (s + [v], vis);
    AppendNoDup(s, v);
  }

  lemma {:induction false} VisitYields(g: Graph, ns: seq<VId>, range: IteratorRange, visited: set<VId>)
    requires Wf(g) && visited <= g.vertices.Keys
    requires forall i :: 0 <= i < |ns| ==> ns[i] in g.vertices
    ensures var (s, vis) := Visit(g, ns, range, visited);
      NoDup(s) && forall x :: x in s <==> x in vis - visited
    decreases |g.vertices.Keys - visited|, 0, |ns|
  {
    if |ns| == 0 {
    } else if ns[0] in visited {
      VisitYields(g, ns[1..], range, visited);
    } else {
      var w := ns[0];
      FewerUnvisited(g.vertices.Keys, visited, w);
      var (s1, vis1) :=
        if range.IsRecursive() then Walk(g, w, range, visited + {w})
        else ([w], visited + {w});
      if range.IsRecursive() {
        WalkYields(g, w, range, visited + {w});
      }
      assert NoDup(s1) && forall x :: x in s1 <==> x in vis1 - visited;
      NoMoreUnvisited(g.vertices.Keys, visited, vis1);
      VisitYields(g, ns[1..], range, vis1);
      var (s2, vis2) := Visit(g, ns[1..], range, vis1);
      assert Visit(g, ns, range, visited) == (s1 + s2, vis2);
      ConcatNoDup(s1, s2);
    }
  }

  /** For a recursive range, once the walk from `v` is over, every step out
      of `v` or out of a vertex it marked lands on a visited vertex. */
  lemma {:induction false} WalkCloses(g: Graph, v: VId, range: IteratorRange, visited: set<VId>)
    requires Wf(g) && v in visited && visited <= g.vertices.Keys && range.IsRecursive()
    ensures var (s, vis) := Walk(g, v, range, visited);
      ClosedFrom(g, range, (vis - visited) + {v}, vis)
    decreases |g.vertices.Keys - visited|, 1, 0, 0
  {
    var ns := Neighbours(g, v, range);
    VisitCloses(g, ns, range, visited);
  }

  lemma {:induction false} VisitCloses(g: Graph, ns: seq<VId>, range: IteratorRange, visited: set<VId>)
    requires Wf(g) && visited <= g.vertices.Keys && range.IsRecursive()
    requires forall i :: 0 <= i < |ns| ==> ns[i] in g.vertices
    ensures var (s, vis) := Visit(g, ns, range, visited);
      (forall i :: 0 <= i < |ns| ==> ns[i] in vis) && ClosedFrom(g, range, vis - visited, vis)
    decreases |g.vertices.Keys - visited|, 0, |ns|, 1
  {
    if |ns| == 0 {
    } else if ns[0] in visited {
      VisitCloses(g, ns[1..], range, visited);
      var (s, vis) := Visit(g, ns[1..], range, visited);
      assert forall i :: 1 <= i < |ns| ==> ns[i] == ns[1..][i - 1];
    } else {
      VisitClosesFresh(g, ns, range, visited);
    }
  }

  lemma {:induction false} VisitClosesFresh(g: Graph, ns: seq<VId>, range: IteratorRange, visited: set<VId>)
    requires Wf(g) && visited <= g.vertices.Keys && range.IsRecursive()
    requires forall i :: 0 <= i < |ns| ==> ns[i] in g.vertices
    requires |ns| > 0 && ns[0] !in visited
    ensures var (s, vis) := Visit(g, ns, range, visited);
      (forall i :: 0 <= i < |ns| ==> ns[i] in vis) && ClosedFrom(g, range, vis - visited, vis)
    decreases |g.vertices.Keys - visited|, 0, |ns|, 0
  {
    var w := ns[0];
    FewerUnvisited(g.vertices.Keys, visited, w);
    WalkCloses(g, w, range, visited + {w});
    var vis1 := Walk(g, w, range, visited + {w}).1;
    NoMoreUnvisited(g.vertices.Keys, visited, vis1);
    VisitCloses(g, ns[1..], range, vis1);
    var vis2 := Visit(g, ns[1..], range, vis1).1;
    assert Visit(g, ns, range, visited).1 == vis2;
    assert forall i :: 1 <= i < |ns| ==> ns[i] == ns[1..][i - 1];
    ClosedGrow(g, range, visited, w, vis1, vis2);
  }

  lemma ClosedGrow(g: Graph, range: IteratorRange, visited: set<VId>, w: VId, vis1: set<VId>, vis2: set<VId>)
    requires w !in visited && visited + {w} <= vis1 && vis1 <= vis2
    requires ClosedFrom(g, range, (vis1 - (visited + {w})) + {w}, vis1)
    requires ClosedFrom(g, range, vis2 - vis1, vis2)
    ensures ClosedFrom(g, range, vis2 - visited, vis2)
  {
    assert (vis1 - (visited + {w})) + {w} == vis1 - visited;
    assert vis2 - visited == (vis1 - visited) + (vis2 - vis1);
    ClosedUnion(g, range, vis1 - visited, vis1, vis2 - vis1, vis2);
  }

  lemma ClosedUnion(g: Graph, range: IteratorRange, a: set<VId>, x: set<VId>, b: set<VId>, y: set<VId>)
    requires ClosedFrom(g, range, a, x) && ClosedFrom(g, range, b, y) && x <= y
    ensures ClosedFrom(g, range, a + b, y)
  {
  }

  /** For a recursive range, everything the walk from `v` yields is
      reachable from any `a` that reaches `v`. */
  lemma {:induction false} WalkReach(g: Graph, v: VId, range: IteratorRange, visited: set<VId>, a: VId)
    requires Wf(g) && v in visited && visited <= g.vertices.Keys && range.IsRecursive()
    requires Reachable(g, range, a, v)
    ensures var (s, vis) := Walk(g, v, range, visited);
      forall x :: x in s ==> Reachable(g, range, a, x)
    decreases |g.vertices.Keys - visited|, 1, 0
  {
    var ns := Neighbours(g, v, range);
    forall i | 0 <= i < |ns|
      ensures Reachable(g, range, a, ns[i])
    {
      ReachableStep(g, range, a, v, ns[i]);
    }
    VisitReach(g, ns, range, visited, a);
  }

  lemma {:induction false} VisitReach(g: Graph, ns: seq<VId>, range: IteratorRange, visited: set<VId>, a: VId)
    requires Wf(g) && visited <= g.vertices.Keys && range.IsRecursive()
    requires forall i :: 0 <= i < |ns| ==> ns[i] in g.vertices
    requires forall i :: 0 <= i < |ns| ==> Reachable(g, range, a, ns[i])
    ensures var (s, vis) := Visit(g, ns, range, visited);
      forall x :: x in s ==> Reachable(g, range, a, x)
    decreases |g.vertices.Keys - visited|, 0, |ns|
  {
    if |ns| == 0 {
    } else if ns[0] in visited {
      VisitReach(g, ns[1..], range, visited, a);
    } else {
      var w := ns[0];
      FewerUnvisited(g.vertices.Keys, visited, w);
      WalkReach(g, w, range, visited + {w}, a);
      var (s1, vis1) := Walk(g, w, range, visited + {w});
      NoMoreUnvisited(g.vertices.Keys, visited, vis1);
      VisitReach(g, ns[1..], range, vis1, a);
    }
  }

  /** A vertex reaches itself by the path of length zero. */
  lemma ReachableSelf(g: Graph, range: IteratorRange, a: VId)
    ensures Reachable(g, range, a, a)
  {
    assert IsPath(g, range, [a]);
  }

  // ---------------------------------------------------------------------
  // Post order

  /** `s` is yielded in post order relative to the vertices marked before
      it: every step out of `s[i]` lands on a vertex marked before `s`
      began, on a vertex yielded before `s[i]`, or on a vertex that reaches
      `s[i]` back (an edge into a vertex still being walked, which the
      iterator chops). */
  ghost predicate Finished(g: Graph, range: IteratorRange, s: seq<VId>, before: set<VId>)
  {
    forall i, w {:trigger Edge(g, range, s[i], w)} :: 0 <= i < |s| && Edge(g, range, s[i], w) ==>
      w in before || w in s[..i] || Reachable(g, range, w, s[i])
  }

  /** A vertex that reaches everything in `s` may be dropped from `before`:
      a step into it reaches back. */
  lemma FinishedDrop(g: Graph, range: IteratorRange, s: seq<VId>, before: set<VId>, a: VId)
    requires Finished(g, range, s, before + {a})
    requires forall x :: x in s ==> Reachable(g, range, a, x)
    ensures Finished(g, range, s, before)
  {
    forall i, w | 0 <= i < |s| && Edge(g, range, s[i], w)
      ensures w in before || w in s[..i] || Reachable(g, range, w, s[i])
    {
      assert s[i] in s;
      assert w in before + {a} || w in s[..i] || Reachable(g, range, w, s[i]);
    }
  }

  /** Two finished runs, the second started once the first was marked. */
  lemma FinishedConcat(g: Graph, range: IteratorRange, s1: seq<VId>, s2: seq<VId>, a: set<VId>, b: set<VId>)
    requires Finished(g, range, s1, a) && Finished(g, range, s2, b)
    requires forall x :: x in b ==> x in a || x in s1
    ensures Finished(g, range, s1 + s2, a)
  {
    var s := s1 + s2;
    forall i, w | 0 <= i < |s| && Edge(g, range, s[i], w)
      ensures w in a || w in s[..i] || Reachable(g, range, w, s[i])
    {
      if i < |s1| {
        assert s[i] == s1[i] && s[..i] == s1[..i];
      } else {
        var k := i - |s1|;
        assert s[i] == s2[k];
        assert s[..i] == s1 + s2[..k];
        assert Edge(g, range, s2[k], w);
      }
    }
  }

  /** Appending `v` keeps a run finished when every step out of `v` lands
      on a vertex marked before or yielded in the run. */
  lemma FinishedSnoc(g: Graph, range: IteratorRange, s: seq<VId>, a: set<VId>, v: VId)
    requires Finished(g, range, s, a)
    requires forall w :: Edge(g, range, v, w) ==> w in a || w in s
    ensures Finished(g, range, s + [v], a)
  {
    var t := s + [v];
    forall i, w | 0 <= i < |t| && Edge(g, range, t[i], w)
      ensures w in a || w in t[..i] || Reachable(g, range, w, t[i])
    {
      if i < |s| {
        assert t[i] == s[i] && t[..i] == s[..i];
      } else {
        assert t[..i] == s;
      }
    }
  }

  /** For a recursive range the walk from `v` yields its vertices in post
      order relative to what was marked before it. */
  lemma {:induction false} WalkFinished(g: Graph, v: VId, range: IteratorRange, visited: set<VId>)
    requires Wf(g) && v in visited && visited <= g.vertices.Keys && range.IsRecursive()
    ensures Finished(g, range, Walk(g, v, range, visited).0, visited)
    decreases |g.vertices.Keys - visited|, 1, 0
  {
    var ns := Neighbours(g, v, range);
    VisitFinished(g, ns, range, visited);
    VisitCloses(g, ns, range, visited);
    VisitYields(g, ns, range, visited);
    var (s, vis) := Visit(g, ns, range, visited);
    assert Walk(g, v, range, visited).0 == s + [v];
    forall w | Edge(g, range, v, w)
      ensures w in visited || w in s
    {
      assert w in ns;
    }
    FinishedSnoc(g, range, s, visited, v);
  }

  lemma {:induction false} VisitFinished(g: Graph, ns: seq<VId>, range: IteratorRange, visited: set<VId>)
    requires Wf(g) && visited <= g.vertices.Keys && range.IsRecursive()
    requires forall i :: 0 <= i < |ns| ==> ns[i] in g.vertices
    ensures Finished(g, range, Visit(g, ns, range, visited).0, visited)
    decreases |g.vertices.Keys - visited|, 0, |ns|
  {
    if |ns| == 0 {
    } else if ns[0] in visited {
      VisitFinished(g, ns[1..], range, visited);
    } else {
      var w := ns[0];
      FewerUnvisited(g.vertices.Keys, visited, w);
      var (s1, vis1) := Walk(g, w, range, visited + {w});
      WalkFinished(g, w, range, visited + {w});
      ReachableSelf(g, range, w);
      WalkReach(g, w, range, visited + {w}, w);
      FinishedDrop(g, range, s1, visited, w);
      WalkYields(g, w, range, visited + {w});
      NoMoreUnvisited(g.vertices.Keys, visited, vis1);
      VisitFinished(g, ns[1..], range, vis1);
      var (s2, vis2) := Visit(g, ns[1..], range, vis1);
      assert Visit(g, ns, range, visited).0 == s1 + s2;
      FinishedConcat(g, range, s1, s2, visited, vis1);
    }
  }

  /** The post-order promise of `vertex_iterator` for a recursive range: a
      step from one yielded vertex to another that does not lead back puts
      the target first. */
  ghost predicate PostOrdered(g: Graph, range: IteratorRange, r: seq<VId>)
  {
    forall i, j ::
      0 <= i < |r| && 0 <= j < |r| && Edge(g, range, r[i], r[j]) && !Reachable(g, range, r[j], r[i])
      ==> j < i
  }

  lemma RootPostOrder(g: Graph, root: VId, range: IteratorRange)
    requires Wf(g) && root in g.vertices && range.IsRecursive()
    ensures PostOrdered(g, range, Walk(g, root, range, {root}).0)
  {
    var r := Walk(g, root, range, {root}).0;
    WalkFinished(g, root, range, {root});
    WalkYields(g, root, range, {root});
    ReachableSelf(g, range, root);
    WalkReach(g, root, range, {root}, root);
    FinishedFromRoot(g, range, r, root);
  }

  /** A finished run with nothing marked before it but a root that reaches
      all of it, and no repeats, is in post order. */
  lemma FinishedFromRoot(g: Graph, range: IteratorRange, r: seq<VId>, root: VId)
    requires Finished(g, range, r, {root}) && NoDup(r)
    requires forall x :: x in r ==> Reachable(g, range, root, x)
    ensures PostOrdered(g, range, r)
  {
    forall i, j | 0 <= i < |r| && 0 <= j < |r| && Edge(g, range, r[i], r[j]) && !Reachable(g, range, r[j], r[i])
      ensures j < i
    {
      assert r[i] in r;
      assert r[j] == root || r[j] in r[..i];
      if r[j] != root {
        var k :| 0 <= k < i && r[..i][k] == r[j];
        assert r[k] == r[j];
      }
    }
  }


  /** For a one-step range the walk marks exactly the root's neighbours. */
  lemma WalkOneStep(g: Graph, v: VId, range: IteratorRange, visited: set<VId>)
    requires Wf(g) && v in visited && visited <= g.vertices.Keys && range.IsOneStep()
    ensures var (s, vis) := Walk(g, v, range, visited);
      forall x :: x in vis <==> x in visited || Edge(g, range, v, x)
  {
    VisitOneStep(g, Neighbours(g, v, range), range, visited);
  }

  lemma {:induction false} VisitOneStep(g: Graph, ns: seq<VId>, range: IteratorRange, visited: set<VId>)
    requires Wf(g) && visited <= g.vertices.Keys && range.IsOneStep()
    requires forall i :: 0 <= i < |ns| ==> ns[i] in g.vertices
    ensures var (s, vis) := Visit(g, ns, range, visited);
      forall x :: x in vis <==> x in visited || x in ns
    decreases |ns|
  {
    if |ns| > 0 {
      var w := ns[0];
      if w in visited {
        VisitOneStep(g, ns[1..], range, visited);
      } else {
        FewerUnvisited(g.vertices.Keys, visited, w);
        NoMoreUnvisited(g.vertices.Keys, visited, visited + {w});
        VisitOneStep(g, ns[1..], range, visited + {w});
      }
      assert forall x :: x in ns <==> x == w || x in ns[1..];
    }
  }

  // ---------------------------------------------------------------------
  // Particle iterator

  /** The vertex a particle is attributed to by the particle iterator: its
      production vertex, or its end vertex when it has none. */
  function Owner(g: Graph, p: PId): (r: Option<VId>)
    requires p in g.particles
    ensures r.None? <==> g.particles[p].productionVertex.None? && g.particles[p].endVertex.None?
  {
    if g.particles[p].productionVertex.Some? then g.particles[p].productionVertex
    else g.particles[p].endVertex
  }

  /** The particles of `ps` that have no production vertex, in order. */
  function OrphanParents(g: Graph, ps: seq<PId>): (r: seq<PId>)
    ensures forall p :: p in r <==> p in ps && p in g.particles && g.particles[p].productionVertex.None?
    ensures NoDup(ps) ==> NoDup(r)
    decreases |ps|
  {
    if |ps| == 0 then []
    else
      var rest := OrphanParents(g, ps[1..]);
      var head := if ps[0] in g.particles && g.particles[ps[0]].productionVertex.None? then [ps[0]] else [];
      assert forall p :: p in ps <==> p == ps[0] || p in ps[1..];
      if NoDup(ps) then
        ConcatNoDup(head, rest);
        head + rest
      else
        head + rest
  }


  /** `OrphanParents` keeps the order of its input: filtering a
      concatenation is concatenating the filtered parts. */
  lemma {:induction false} OrphanParentsAppend(g: Graph, ps: seq<PId>, qs: seq<PId>)
    ensures OrphanParents(g, ps + qs) == OrphanParents(g, ps) + OrphanParents(g, qs)
    decreases |ps|
  {
    if |ps| > 0 {
      assert (ps + qs)[0] == ps[0] && (ps + qs)[1..] == ps[1..] + qs;
      OrphanParentsAppend(g, ps[1..], qs);
    } else {
      assert ps + qs == qs;
    }
  }


  /** What the particle iterator yields while it stands on `v`: the orphaned
      incoming particles, then the outgoing ones. These are exactly the
      particles attributed to `v`. */
  function VertexParticles(g: Graph, v: VId): (r: seq<PId>)
    requires Wf(g) && v in g.vertices
    ensures r == OrphanParents(g, g.vertices[v].particlesIn) + g.vertices[v].particlesOut
    ensures NoDup(r)
    ensures forall p :: p in r <==> p in g.particles && Owner(g, p) == Some(v)
  {
    var vx := g.vertices[v];
    var orphans := OrphanParents(g, vx.particlesIn);
    assert forall x :: x in orphans ==> x !in vx.particlesOut;
    forall p | p in g.particles
      ensures p in orphans + vx.particlesOut <==> Owner(g, p) == Some(v)
    {
      WfLinksAgree(g, v, p);
    }
    ConcatNoDup(orphans, vx.particlesOut);
    orphans + vx.particlesOut
  }

  /** The particles attributed to the vertices of `vs`, vertex by vertex. */
  function ParticlesOf(g: Graph, vs: seq<VId>): (r: seq<PId>)
    requires Wf(g) && forall i :: 0 <= i < |vs| ==> vs[i] in g.vertices
    ensures forall p :: p in r <==> p in g.particles && Owner(g, p).Some? && Owner(g, p).value in vs
    ensures NoDup(vs) ==> NoDup(r)
    decreases |vs|
  {
    if |vs| == 0 then []
    else
      var here := VertexParticles(g, vs[0]);
      var rest := ParticlesOf(g, vs[1..]);
      assert forall v :: v in vs <==> v == vs[0] || v in vs[1..];
      if NoDup(vs) then
        NoDupHead(vs);
        forall x | x in here
          ensures x !in rest
        {
          assert Owner(g, x) == Some(vs[0]);
        }
        ConcatNoDup(here, rest);
        here + rest
      else
        here + rest
  }

  /** The particles of one vertex are those the iterator yields there. */
  lemma ParticlesOfSingle(g: Graph, v: VId)
    requires Wf(g) && v in g.vertices
    ensures ParticlesOf(g, [v]) == VertexParticles(g, v)
  {
    assert [v][1..] == [];
  }

  /** The particles of a concatenation of vertex sequences are the particles
      of the first part followed by those of the second: the iterator works
      through the vertices one at a time, in their order. */
  lemma {:induction false} ParticlesOfAppend(g: Graph, a: seq<VId>, b: seq<VId>)
    requires Wf(g)
    requires forall i :: 0 <= i < |a| ==> a[i] in g.vertices
    requires forall i :: 0 <= i < |b| ==> b[i] in g.vertices
    ensures ParticlesOf(g, a + b) == ParticlesOf(g, a) + ParticlesOf(g, b)
    decreases |a|
  {
    if |a| == 0 {
      assert a + b == b;
    } else {
      assert (a + b)[0] == a[0] && (a + b)[1..] == a[1..] + b;
      ParticlesOfAppend(g, a[1..], b);
    }
  }

  /** `particle_iterator` from `root` over `range`. For a one-step range it
      is the edge iterator of `root` for that range. For a recursive range it
      yields, vertex by vertex along the vertex iterator, the particles
      attributed to each vertex: every particle whose owner is reachable from
      `root`, each exactly once. */
  function ParticleRange(g: Graph, root: VId, range: IteratorRange): (r: seq<PId>)
    requires Wf(g) && root in g.vertices
    ensures range.IsOneStep() ==> r == Edges(g, root, range)
    ensures range.IsRecursive() ==> NoDup(r)
    ensures range.IsRecursive() ==> forall p :: p in r <==>
      p in g.particles && Owner(g, p).Some? && Owner(g, p).value in VertexRange(g, root, range)
    ensures range.IsRecursive() ==> forall p :: p in r <==>
      p in g.particles && Owner(g, p).Some? && Reachable(g, range, root, Owner(g, p).value)
  {
    if range.IsOneStep() then Edges(g, root, range)
    else ParticlesOf(g, VertexRange(g, root, range))
  }


  /** The order of a recursive particle range: the particles yielded at the
      i-th vertex of the vertex range (its orphaned parents, then its
      children) form one block, preceded by the particles of the vertices
      visited before it and followed by those of the vertices after it. The
      root comes last in the vertex range, so its particles close the range. */
  lemma ParticleRangeBlocks(g: Graph, root: VId, range: IteratorRange, i: nat)
    requires Wf(g) && root in g.vertices && range.IsRecursive()
    requires i < |VertexRange(g, root, range)|
    ensures var vs := VertexRange(g, root, range);
      ParticleRange(g, root, range) ==
        ParticlesOf(g, vs[..i]) + VertexParticles(g, vs[i]) + ParticlesOf(g, vs[i + 1..])
  {
    ParticlesOfBlock(g, VertexRange(g, root, range), i);
  }

  /** The particles of `vs` split around its i-th vertex. */
  lemma ParticlesOfBlock(g: Graph, vs: seq<VId>, i: nat)
    requires Wf(g) && forall j :: 0 <= j < |vs| ==> vs[j] in g.vertices
    requires i < |vs|
    ensures ParticlesOf(g, vs) ==
      ParticlesOf(g, vs[..i]) + VertexParticles(g, vs[i]) + ParticlesOf(g, vs[i + 1..])
  {
    assert vs == vs[..i] + ([vs[i]] + vs[i + 1..]);
    ParticlesOfAppend(g, vs[..i], [vs[i]] + vs[i + 1..]);
    ParticlesOfAppend(g, [vs[i]], vs[i + 1..]);
    ParticlesOfSingle(g, vs[i]);
  }

  // ---------------------------------------------------------------------
  // The smallest cycle

  /** Two vertices feeding each other: vertex 1 produces particle 10, which
      ends at vertex 2, and vertex 2 produces particle 20, which ends at
      vertex 1. Nothing in the graph layout forbids this. */
  function TwoCycle(): (g: Graph)
    ensures Wf(g)
    ensures g.vertices.Keys == {1, 2}
  {
    var m := FourVector(0.0, 0.0, 0.0, 0.0);
    Graph(
      map[1 := Vertex(m, 0, -1, true, [20], [10]),
          2 := Vertex(m, 0, -2, true, [10], [20])],
      map[10 := Particle(m, 22, 2, 0.0, 10, Some(1), Some(2)),
          20 := Particle(m, 22, 2, 0.0, 20, Some(2), Some(1))])
  }

  /** On the cycle every recursive walk from vertex 1 stops at the edge back
      into 1 and yields vertex 2 once, then the root. */
  lemma TwoCycleWalks()
    ensures VertexRange(TwoCycle(), 1, Descendants) == [2, 1]
    ensures VertexRange(TwoCycle(), 1, Ancestors) == [2, 1]
    ensures ParticleRange(TwoCycle(), 1, Descendants) == [20, 10]
  {
    TwoCycleWalk(Descendants);
    TwoCycleWalk(Ancestors);
    TwoCycleParticles();
  }

  /** Each vertex of the cycle owns the particle it produces. */
  lemma TwoCycleParticles()
    ensures ParticlesOf(TwoCycle(), [2, 1]) == [20, 10]
  {
    var g := TwoCycle();
    TwoCycleOwns();
    assert ParticlesOf(g, [1]) == [10];
  }

  lemma TwoCycleOwns()
    ensures VertexParticles(TwoCycle(), 2) == [20]
    ensures VertexParticles(TwoCycle(), 1) == [10]
  {
    var g := TwoCycle();
    assert OrphanParents(g, [10]) == [] && OrphanParents(g, [20]) == [];
  }

  lemma TwoCycleWalk(range: IteratorRange)
    requires range == Descendants || range == Ancestors
    ensures VertexRange(TwoCycle(), 1, range) == [2, 1]
  {
    var g := TwoCycle();
    TwoCycleInner(range);
    assert Neighbours(g, 1, range) == [2];
    assert {1} + {2} == {1, 2} && [2][1..] == [] && [2] + [] == [2];
    assert Visit(g, [2], range, {1}) == ([2], {1, 2});
    assert [2] + [1] == [2, 1];
  }

  /** From vertex 2, with both vertices marked, the walk yields only 2. */
  lemma TwoCycleInner(range: IteratorRange)
    requires range == Descendants || range == Ancestors
    ensures Walk(TwoCycle(), 2, range, {1, 2}) == ([2], {1, 2})
  {
    var g := TwoCycle();
    assert Neighbours(g, 2, range) == [1];
    assert Visit(g, [1], range, {1, 2}) == Visit(g, [], range, {1, 2}) == ([], {1, 2});
    assert Walk(g, 2, range, {1, 2}).0 == [] + [2] == [2];
  }
}
