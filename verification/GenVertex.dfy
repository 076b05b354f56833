/** Edge maintenance on a vertex (HepMC/GenVertex.h): attaching particles as
    incoming or outgoing, removing them, list sizes and barcode suggestion.
    Every operation takes and returns a whole graph, since attaching a
    particle also edits the particle's back-reference and the list of the
    vertex it is taken from. */
module GenVertex {
  import opened Wrappers
  import opened Sequences
  import opened SearchVector
  import opened Arena

  /** A particle is listed only as incoming to its own end vertex and only
      as outgoing from its own production vertex, so erasing it from any
      other list leaves that list as it is. */
  lemma ListedOnlyAtLinks(g: Graph, p: PId)
    requires Wf(g) && p in g.particles
    ensures forall u :: u in g.vertices && Some(u) != g.particles[p].endVertex ==>
      EraseFirst(g.vertices[u].particlesIn, p) == g.vertices[u].particlesIn
    ensures forall u :: u in g.vertices && Some(u) != g.particles[p].productionVertex ==>
      EraseFirst(g.vertices[u].particlesOut, p) == g.vertices[u].particlesOut
  {
    forall u | u in g.vertices && Some(u) != g.particles[p].endVertex
      ensures EraseFirst(g.vertices[u].particlesIn, p) == g.vertices[u].particlesIn
    {
      WfLinksAgree(g, u, p);
    }
    forall u | u in g.vertices && Some(u) != g.particles[p].productionVertex
      ensures EraseFirst(g.vertices[u].particlesOut, p) == g.vertices[u].particlesOut
    {
      WfLinksAgree(g, u, p);
    }
  }

  /** Takes `p` off the incoming list of its end vertex and clears its end
      vertex (`remove_particle_in` on that vertex, with the back-reference
      reset by `set_end_vertex_(0)`). Every incoming list loses `p` and
      keeps the order of its other entries; nothing else changes. */
  function DetachIn(g: Graph, p: PId): (r: Graph)
    requires Wf(g) && p in g.particles
    ensures Wf(r)
    ensures r.vertices.Keys == g.vertices.Keys
    ensures r.particles == g.particles[p := g.particles[p].(endVertex := None)]
    ensures forall u :: u in g.vertices ==>
      r.vertices[u] == g.vertices[u].(particlesIn := EraseFirst(g.vertices[u].particlesIn, p))
  {
    ListedOnlyAtLinks(g, p);
    match g.particles[p].endVertex
    case None => g
    case Some(w) =>
      var vw := g.vertices[w];
      var r := Graph(g.vertices[w := vw.(particlesIn := EraseFirst(vw.particlesIn, p))],
                     g.particles[p := g.particles[p].(endVertex := None)]);
      DetachInWf(g, p, w, r);
      r
  }

  /** Takes `p` off the outgoing list of its production vertex and clears
      its production vertex (`remove_particle_out` with
      `set_production_vertex_(0)`). */
  function DetachOut(g: Graph, p: PId): (r: Graph)
    requires Wf(g) && p in g.particles
    ensures Wf(r)
    ensures r.vertices.Keys == g.vertices.Keys
    ensures r.particles == g.particles[p := g.particles[p].(productionVertex := None)]
    ensures forall u :: u in g.vertices ==>
      r.vertices[u] == g.vertices[u].(particlesOut := EraseFirst(g.vertices[u].particlesOut, p))
  {
    ListedOnlyAtLinks(g, p);
    match g.particles[p].productionVertex
    case None => g
    case Some(w) =>
      var vw := g.vertices[w];
      var r := Graph(g.vertices[w := vw.(particlesOut := EraseFirst(vw.particlesOut, p))],
                     g.particles[p := g.particles[p].(productionVertex := None)]);
      DetachOutWf(g, p, w, r);
      r
  }

  /** Appends a particle without an end vertex to the incoming list of `v`
      and makes `v` its end vertex. */
  function AttachIn(d: Graph, v: VId, p: PId): (r: Graph)
    requires Wf(d) && v in d.vertices && p in d.particles && d.particles[p].endVertex == None
    ensures Wf(r)
    ensures r.particles == d.particles[p := d.particles[p].(endVertex := Some(v))]
    ensures r.vertices == d.vertices[v := d.vertices[v].(particlesIn := d.vertices[v].particlesIn + [p])]
  {
    var r := Graph(
      d.vertices[v := d.vertices[v].(particlesIn := d.vertices[v].particlesIn + [p])],
      d.particles[p := d.particles[p].(endVertex := Some(v))]);
    AttachInWf(d, v, p, r);
    r
  }

  /** Appends a particle without a production vertex to the outgoing list
      of `v` and makes `v` its production vertex. */
  function AttachOut(d: Graph, v: VId, p: PId): (r: Graph)
    requires Wf(d) && v in d.vertices && p in d.particles && d.particles[p].productionVertex == None
    ensures Wf(r)
    ensures r.particles == d.particles[p := d.particles[p].(productionVertex := Some(v))]
    ensures r.vertices == d.vertices[v := d.vertices[v].(particlesOut := d.vertices[v].particlesOut + [p])]
  {
    var r := Graph(
      d.vertices[v := d.vertices[v].(particlesOut := d.vertices[v].particlesOut + [p])],
      d.particles[p := d.particles[p].(productionVertex := Some(v))]);
    AttachOutWf(d, v, p, r);
    r
  }

  /** The vertex table after `add_particle_in(p)` on `v`: `p` is erased
      from every incoming list, the others keeping their order, and then
      appended to the list of `v`; a vertex that did not list `p` is unchanged,
      and the size of `v`'s list grows by one unless `p` was already there. */
  ghost predicate AddedIn(g: Graph, r: Graph, v: VId, p: PId)
    requires v in g.vertices && p in g.particles
  {
    && r.vertices.Keys == g.vertices.Keys
    && r.vertices[v] == g.vertices[v].(particlesIn := EraseFirst(g.vertices[v].particlesIn, p) + [p])
    && (g.particles[p].endVertex != Some(v) ==> r.vertices[v].particlesIn == g.vertices[v].particlesIn + [p])
    && (forall u :: u in g.vertices && u != v ==>
          r.vertices[u] == g.vertices[u].(particlesIn := EraseFirst(g.vertices[u].particlesIn, p)))
    && (forall u :: u in g.vertices && u != v && Some(u) != g.particles[p].endVertex ==>
          r.vertices[u] == g.vertices[u])
    && |r.vertices[v].particlesIn| ==
         |g.vertices[v].particlesIn| + (if g.particles[p].endVertex == Some(v) then 0 else 1)
  }

  /** `add_particle_in(p)`: if `p` already ends at some vertex it is first
      taken off that vertex's incoming list; then it is appended to this
      vertex's incoming list and its end vertex becomes this vertex. */
  function AddParticleIn(g: Graph, v: VId, p: PId): (r: Graph)
    requires Wf(g) && v in g.vertices && p in g.particles
    ensures Wf(r)
    ensures r.particles == g.particles[p := g.particles[p].(endVertex := Some(v))]
    ensures AddedIn(g, r, v, p)
  {
    AddInLists(g, v, p);
    AttachIn(DetachIn(g, p), v, p)
  }


  lemma AddInLists(g: Graph, v: VId, p: PId)
    requires Wf(g) && v in g.vertices && p in g.particles
    ensures AddedIn(g, AttachIn(DetachIn(g, p), v, p), v, p)
    ensures AttachIn(DetachIn(g, p), v, p).particles == g.particles[p := g.particles[p].(endVertex := Some(v))]
  {
    var d := DetachIn(g, p);
    var r := AttachIn(d, v, p);
    ListedOnlyAtLinks(g, p);
    SizeAfterDetach(g, v, p, d);
    AddedInFromParts(g, d.vertices, r, v, p);
    RelinkTwice(g.particles, p, g.particles[p].(endVertex := None), g.particles[p].(endVertex := Some(v)));
  }

  lemma AddedInFromParts(g: Graph, dv: map<VId, Vertex>, r: Graph, v: VId, p: PId)
    requires v in g.vertices && p in g.particles && dv.Keys == g.vertices.Keys
    requires forall u :: u in g.vertices ==> dv[u] == g.vertices[u].(particlesIn := EraseFirst(g.vertices[u].particlesIn, p))
    requires forall u :: u in g.vertices && Some(u) != g.particles[p].endVertex ==>
      EraseFirst(g.vertices[u].particlesIn, p) == g.vertices[u].particlesIn
    requires |dv[v].particlesIn| == |g.vertices[v].particlesIn| - (if g.particles[p].endVertex == Some(v) then 1 else 0)
    requires r.vertices == dv[v := dv[v].(particlesIn := dv[v].particlesIn + [p])]
    ensures AddedIn(g, r, v, p)
  {
    AppendInAt(g.vertices, dv, r.vertices, v, p, g.particles[p].endVertex);
  }

  /** Two successive updates of one particle's entry leave only the second. */
  lemma RelinkTwice(m: map<PId, Particle>, p: PId, a: Particle, b: Particle)
    ensures m[p := a][p := b] == m[p := b]
  {
  }

  /** The list bookkeeping of `add_particle_in`, on the vertex table
      alone: erase `p` everywhere, then append it at `v`. */
  lemma AppendInAt(gv: map<VId, Vertex>, dv: map<VId, Vertex>, rv: map<VId, Vertex>, v: VId, p: PId, link: Option<VId>)
    requires v in gv && dv.Keys == gv.Keys
    requires forall u :: u in gv ==> dv[u] == gv[u].(particlesIn := EraseFirst(gv[u].particlesIn, p))
    requires forall u :: u in gv && Some(u) != link ==> EraseFirst(gv[u].particlesIn, p) == gv[u].particlesIn
    requires rv == dv[v := dv[v].(particlesIn := dv[v].particlesIn + [p])]
    ensures rv[v] == gv[v].(particlesIn := EraseFirst(gv[v].particlesIn, p) + [p])
    ensures forall u :: u in gv && u != v ==> rv[u] == gv[u].(particlesIn := EraseFirst(gv[u].particlesIn, p))
    ensures forall u :: u in gv && u != v && Some(u) != link ==> rv[u] == gv[u]
  {
    forall u | u in gv && u != v
      ensures rv[u] == gv[u].(particlesIn := EraseFirst(gv[u].particlesIn, p))
    {
      assert rv[u] == dv[u];
    }
    forall u | u in gv && u != v && Some(u) != link
      ensures rv[u] == gv[u]
    {
      assert rv[u] == dv[u] == gv[u].(particlesIn := gv[u].particlesIn);
    }
  }


  /** The vertex table after `add_particle_out(p)` on `v`: `p` is erased
      from every outgoing list, the others keeping their order, and then
      appended to the list of `v`; a vertex that did not list `p` is unchanged,
      and the size of `v`'s list grows by one unless `p` was already there. */
  ghost predicate AddedOut(g: Graph, r: Graph, v: VId, p: PId)
    requires v in g.vertices && p in g.particles
  {
    && r.vertices.Keys == g.vertices.Keys
    && r.vertices[v] == g.vertices[v].(particlesOut := EraseFirst(g.vertices[v].particlesOut, p) + [p])
    && (g.particles[p].productionVertex != Some(v) ==> r.vertices[v].particlesOut == g.vertices[v].particlesOut + [p])
    && (forall u :: u in g.vertices && u != v ==>
          r.vertices[u] == g.vertices[u].(particlesOut := EraseFirst(g.vertices[u].particlesOut, p)))
    && (forall u :: u in g.vertices && u != v && Some(u) != g.particles[p].productionVertex ==>
          r.vertices[u] == g.vertices[u])
    && |r.vertices[v].particlesOut| ==
         |g.vertices[v].particlesOut| + (if g.particles[p].productionVertex == Some(v) then 0 else 1)
  }

  /** `add_particle_out(p)`: if `p` already has a production vertex it is
      first taken off that vertex's outgoing list; then it is appended to
      this vertex's outgoing list and its production vertex becomes this
      vertex. */
  function AddParticleOut(g: Graph, v: VId, p: PId): (r: Graph)
    requires Wf(g) && v in g.vertices && p in g.particles
    ensures Wf(r)
    ensures r.particles == g.particles[p := g.particles[p].(productionVertex := Some(v))]
    ensures AddedOut(g, r, v, p)
  {
    AddOutLists(g, v, p);
    AttachOut(DetachOut(g, p), v, p)
  }


  lemma AddOutLists(g: Graph, v: VId, p: PId)
    requires Wf(g) && v in g.vertices && p in g.particles
    ensures AddedOut(g, AttachOut(DetachOut(g, p), v, p), v, p)
    ensures AttachOut(DetachOut(g, p), v, p).particles == g.particles[p := g.particles[p].(productionVertex := Some(v))]
  {
    var d := DetachOut(g, p);
    var r := AttachOut(d, v, p);
    ListedOnlyAtLinks(g, p);
    SizeAfterDetachOut(g, v, p, d);
    AddedOutFromParts(g, d.vertices, r, v, p);
    RelinkTwice(g.particles, p, g.particles[p].(productionVertex := None), g.particles[p].(productionVertex := Some(v)));
  }

  lemma AddedOutFromParts(g: Graph, dv: map<VId, Vertex>, r: Graph, v: VId, p: PId)
    requires v in g.vertices && p in g.particles && dv.Keys == g.vertices.Keys
    requires forall u :: u in g.vertices ==> dv[u] == g.vertices[u].(particlesOut := EraseFirst(g.vertices[u].particlesOut, p))
    requires forall u :: u in g.vertices && Some(u) != g.particles[p].productionVertex ==>
      EraseFirst(g.vertices[u].particlesOut, p) == g.vertices[u].particlesOut
    requires |dv[v].particlesOut| == |g.vertices[v].particlesOut| - (if g.particles[p].productionVertex == Some(v) then 1 else 0)
    requires r.vertices == dv[v := dv[v].(particlesOut := dv[v].particlesOut + [p])]
    ensures AddedOut(g, r, v, p)
  {
    AppendOutAt(g.vertices, dv, r.vertices, v, p, g.particles[p].productionVertex);
  }

  /** The list bookkeeping of `add_particle_out`, on the vertex table
      alone: erase `p` everywhere, then append it at `v`. */
  lemma AppendOutAt(gv: map<VId, Vertex>, dv: map<VId, Vertex>, rv: map<VId, Vertex>, v: VId, p: PId, link: Option<VId>)
    requires v in gv && dv.Keys == gv.Keys
    requires forall u :: u in gv ==> dv[u] == gv[u].(particlesOut := EraseFirst(gv[u].particlesOut, p))
    requires forall u :: u in gv && Some(u) != link ==> EraseFirst(gv[u].particlesOut, p) == gv[u].particlesOut
    requires rv == dv[v := dv[v].(particlesOut := dv[v].particlesOut + [p])]
    ensures rv[v] == gv[v].(particlesOut := EraseFirst(gv[v].particlesOut, p) + [p])
    ensures forall u :: u in gv && u != v ==> rv[u] == gv[u].(particlesOut := EraseFirst(gv[u].particlesOut, p))
    ensures forall u :: u in gv && u != v && Some(u) != link ==> rv[u] == gv[u]
  {
    forall u | u in gv && u != v
      ensures rv[u] == gv[u].(particlesOut := EraseFirst(gv[u].particlesOut, p))
    {
      assert rv[u] == dv[u];
    }
    forall u | u in gv && u != v && Some(u) != link
      ensures rv[u] == gv[u]
    {
      assert rv[u] == dv[u] == gv[u].(particlesOut := gv[u].particlesOut);
    }
  }


  lemma SizeAfterDetach(g: Graph, v: VId, p: PId, d: Graph)
    requires Wf(g) && v in g.vertices && p in g.particles
    requires d == DetachIn(g, p)
    ensures |d.vertices[v].particlesIn| ==
      |g.vertices[v].particlesIn| - (if g.particles[p].endVertex == Some(v) then 1 else 0)
  {
    if g.particles[p].endVertex == Some(v) {
      var ins := g.vertices[v].particlesIn;
      assert d.vertices[v].particlesIn == EraseFirst(ins, p);
      assert p in multiset(ins);
      assert |multiset(EraseFirst(ins, p))| == |multiset(ins)| - 1;
    }
  }

  lemma SizeAfterDetachOut(g: Graph, v: VId, p: PId, d: Graph)
    requires Wf(g) && v in g.vertices && p in g.particles
    requires d == DetachOut(g, p)
    ensures |d.vertices[v].particlesOut| ==
      |g.vertices[v].particlesOut| - (if g.particles[p].productionVertex == Some(v) then 1 else 0)
  {
    if g.particles[p].productionVertex == Some(v) {
      var outs := g.vertices[v].particlesOut;
      assert d.vertices[v].particlesOut == EraseFirst(outs, p);
      assert p in multiset(outs);
      assert |multiset(EraseFirst(outs, p))| == |multiset(outs)| - 1;
    }
  }

  lemma DetachInWf(g: Graph, p: PId, w: VId, r: Graph)
    requires Wf(g) && p in g.particles && g.particles[p].endVertex == Some(w)
    requires w in g.vertices
    requires r == Graph(
      g.vertices[w := g.vertices[w].(particlesIn := EraseFirst(g.vertices[w].particlesIn, p))],
      g.particles[p := g.particles[p].(endVertex := None)])
    ensures Wf(r)
  {
    var ins := g.vertices[w].particlesIn;
    var ins' := EraseFirst(ins, p);
    assert NoDup(ins') && p !in ins';
    forall u | u in r.vertices
      ensures NoDup(r.vertices[u].particlesIn) && NoDup(r.vertices[u].particlesOut)
    {
    }
    forall u, q | u in r.vertices && q in r.vertices[u].particlesIn
      ensures q in r.particles && r.particles[q].endVertex == Some(u)
    {
      if u == w {
        assert q in ins && q != p;
      } else {
        assert q in g.vertices[u].particlesIn;
      }
    }
    forall u, q | u in r.vertices && q in r.vertices[u].particlesOut
      ensures q in r.particles && r.particles[q].productionVertex == Some(u)
    {
      assert q in g.vertices[u].particlesOut;
    }
    forall q | q in r.particles && r.particles[q].endVertex.Some?
      ensures r.particles[q].endVertex.value in r.vertices
      ensures q in r.vertices[r.particles[q].endVertex.value].particlesIn
    {
      assert q != p;
      var u := g.particles[q].endVertex.value;
      assert q in g.vertices[u].particlesIn;
      if u == w {
        assert q in ins';
      }
    }
    forall q | q in r.particles && r.particles[q].productionVertex.Some?
      ensures r.particles[q].productionVertex.value in r.vertices
      ensures q in r.vertices[r.particles[q].productionVertex.value].particlesOut
    {
      assert r.particles[q].productionVertex == g.particles[q].productionVertex;
    }
  }

  lemma DetachOutWf(g: Graph, p: PId, w: VId, r: Graph)
    requires Wf(g) && p in g.particles && g.particles[p].productionVertex == Some(w)
    requires w in g.vertices
    requires r == Graph(
      g.vertices[w := g.vertices[w].(particlesOut := EraseFirst(g.vertices[w].particlesOut, p))],
      g.particles[p := g.particles[p].(productionVertex := None)])
    ensures Wf(r)
  {
    var outs := g.vertices[w].particlesOut;
    var outs' := EraseFirst(outs, p);
    assert NoDup(outs') && p !in outs';
    forall u | u in r.vertices
      ensures NoDup(r.vertices[u].particlesIn) && NoDup(r.vertices[u].particlesOut)
    {
    }
    forall u, q | u in r.vertices && q in r.vertices[u].particlesOut
      ensures q in r.particles && r.particles[q].productionVertex == Some(u)
    {
      if u == w {
        assert q in outs && q != p;
      } else {
        assert q in g.vertices[u].particlesOut;
      }
    }
    forall u, q | u in r.vertices && q in r.vertices[u].particlesIn
      ensures q in r.particles && r.particles[q].endVertex == Some(u)
    {
      assert q in g.vertices[u].particlesIn;
    }
    forall q | q in r.particles && r.particles[q].productionVertex.Some?
      ensures r.particles[q].productionVertex.value in r.vertices
      ensures q in r.vertices[r.particles[q].productionVertex.value].particlesOut
    {
      assert q != p;
      var u := g.particles[q].productionVertex.value;
      assert q in g.vertices[u].particlesOut;
      if u == w {
        assert q in outs';
      }
    }
    forall q | q in r.particles && r.particles[q].endVertex.Some?
      ensures r.particles[q].endVertex.value in r.vertices
      ensures q in r.vertices[r.particles[q].endVertex.value].particlesIn
    {
      assert r.particles[q].endVertex == g.particles[q].endVertex;
    }
  }

  lemma AttachInWf(d: Graph, v: VId, p: PId, r: Graph)
    requires Wf(d) && v in d.vertices && p in d.particles && d.particles[p].endVertex == None
    requires r == Graph(
      d.vertices[v := d.vertices[v].(particlesIn := d.vertices[v].particlesIn + [p])],
      d.particles[p := d.particles[p].(endVertex := Some(v))])
    ensures Wf(r)
  {
    var ins := d.vertices[v].particlesIn;
    assert p !in ins;
    AppendNoDup(ins, p);
    forall u | u in r.vertices
      ensures NoDup(r.vertices[u].particlesIn) && NoDup(r.vertices[u].particlesOut)
    {
    }
    forall u, q | u in r.vertices && q in r.vertices[u].particlesIn
      ensures q in r.particles && r.particles[q].endVertex == Some(u)
    {
      if u == v && q != p {
        assert q in ins;
      } else if u != v {
        assert q in d.vertices[u].particlesIn;
        assert q != p;
      }
    }
    forall u, q | u in r.vertices && q in r.vertices[u].particlesOut
      ensures q in r.particles && r.particles[q].productionVertex == Some(u)
    {
      assert q in d.vertices[u].particlesOut;
    }
    forall q | q in r.particles && r.particles[q].endVertex.Some?
      ensures r.particles[q].endVertex.value in r.vertices
      ensures q in r.vertices[r.particles[q].endVertex.value].particlesIn
    {
      if q != p {
        var u := d.particles[q].endVertex.value;
        assert q in d.vertices[u].particlesIn;
      }
    }
    forall q | q in r.particles && r.particles[q].productionVertex.Some?
      ensures r.particles[q].productionVertex.value in r.vertices
      ensures q in r.vertices[r.particles[q].productionVertex.value].particlesOut
    {
      assert r.particles[q].productionVertex == d.particles[q].productionVertex;
    }
  }

  lemma AttachOutWf(d: Graph, v: VId, p: PId, r: Graph)
    requires Wf(d) && v in d.vertices && p in d.particles && d.particles[p].productionVertex == None
    requires r == Graph(
      d.vertices[v := d.vertices[v].(particlesOut := d.vertices[v].particlesOut + [p])],
      d.particles[p := d.particles[p].(productionVertex := Some(v))])
    ensures Wf(r)
  {
    var outs := d.vertices[v].particlesOut;
    assert p !in outs;
    AppendNoDup(outs, p);
    forall u | u in r.vertices
      ensures NoDup(r.vertices[u].particlesIn) && NoDup(r.vertices[u].particlesOut)
    {
    }
    forall u, q | u in r.vertices && q in r.vertices[u].particlesOut
      ensures q in r.particles && r.particles[q].productionVertex == Some(u)
    {
      if u == v && q != p {
        assert q in outs;
      } else if u != v {
        assert q in d.vertices[u].particlesOut;
        assert q != p;
      }
    }
    forall u, q | u in r.vertices && q in r.vertices[u].particlesIn
      ensures q in r.particles && r.particles[q].endVertex == Some(u)
    {
      assert q in d.vertices[u].particlesIn;
    }
    forall q | q in r.particles && r.particles[q].productionVertex.Some?
      ensures r.particles[q].productionVertex.value in r.vertices
      ensures q in r.vertices[r.particles[q].productionVertex.value].particlesOut
    {
      if q != p {
        var u := d.particles[q].productionVertex.value;
        assert q in d.vertices[u].particlesOut;
      }
    }
    forall q | q in r.particles && r.particles[q].endVertex.Some?
      ensures r.particles[q].endVertex.value in r.vertices
      ensures q in r.vertices[r.particles[q].endVertex.value].particlesIn
    {
      assert r.particles[q].endVertex == d.particles[q].endVertex;
    }
  }

  /** The vertex table after `remove_particle(p)` on `v`: `v`'s two lists
      lose `p`, keeping the order of their other entries, `v`'s other fields
      stay, and every other vertex is unchanged. */
  ghost predicate Removed(g: Graph, r: Graph, v: VId, p: PId)
    requires v in g.vertices
  {
    && r.vertices.Keys == g.vertices.Keys
    && r.vertices[v] == g.vertices[v].(
         particlesIn := EraseFirst(g.vertices[v].particlesIn, p),
         particlesOut := EraseFirst(g.vertices[v].particlesOut, p))
    && p !in r.vertices[v].particlesIn && p !in r.vertices[v].particlesOut
    && (forall u :: u in g.vertices && u != v ==> r.vertices[u] == g.vertices[u])
  }

  /** `remove_particle(p)`: takes `p` off this vertex's incoming list if it
      ends here and off its outgoing list if it was produced here, clearing
      the matching back-reference, and returns `p`. The particle itself stays
      in the arena (it is not deleted). */
  function RemoveParticle(g: Graph, v: VId, p: PId): (r: (Graph, PId))
    requires Wf(g) && v in g.vertices && p in g.particles
    ensures r.1 == p
    ensures Wf(r.0)
    ensures Removed(g, r.0, v, p)
    ensures var old_p := g.particles[p];
      r.0.particles == g.particles[p := old_p.(
        endVertex := if old_p.endVertex == Some(v) then None else old_p.endVertex,
        productionVertex := if old_p.productionVertex == Some(v) then None else old_p.productionVertex)]
  {
    RemoveLists(g, v, p);
    (DetachAt(g, v, p), p)
  }

  /** Detaches `p` from `v` on whichever sides it is attached there. */
  function DetachAt(g: Graph, v: VId, p: PId): (r: Graph)
    requires Wf(g) && v in g.vertices && p in g.particles
    ensures Wf(r)
  {
    var pr := g.particles[p];
    var g1 := if pr.endVertex == Some(v) then DetachIn(g, p) else g;
    if pr.productionVertex == Some(v) then DetachOut(g1, p) else g1
  }

  lemma RemoveLists(g: Graph, v: VId, p: PId)
    requires Wf(g) && v in g.vertices && p in g.particles
    ensures Removed(g, DetachAt(g, v, p), v, p)
    ensures var old_p := g.particles[p];
      DetachAt(g, v, p).particles == g.particles[p := old_p.(
        endVertex := if old_p.endVertex == Some(v) then None else old_p.endVertex,
        productionVertex := if old_p.productionVertex == Some(v) then None else old_p.productionVertex)]
  {
    var pr := g.particles[p];
    ListedOnlyAtLinks(g, p);
    var g1 := if pr.endVertex == Some(v) then DetachIn(g, p) else g;
    if pr.endVertex == Some(v) {
      KeepOthersIn(g.vertices, g1.vertices, v, p);
    }
    var pr1 := pr.(endVertex := if pr.endVertex == Some(v) then None else pr.endVertex);
    assert g1.particles == g.particles[p := pr1] by {
      if pr.endVertex == Some(v) {
        assert g1.particles == g.particles[p := pr.(endVertex := None)];
      }
    }
    var g2 := DetachAt(g, v, p);
    assert g2 == if pr.productionVertex == Some(v) then DetachOut(g1, p) else g1;
    ListedOnlyAtLinks(g1, p);
    if pr.productionVertex == Some(v) {
      KeepOthersOut(g1.vertices, g2.vertices, v, p);
      RelinkTwice(g.particles, p, pr1, pr1.(productionVertex := None));
    }
    assert NoDup(g.vertices[v].particlesIn) && NoDup(g.vertices[v].particlesOut);
  }

  /** Erasing `p` from every incoming list changes only `v` when `v` is the
      one vertex that lists it. */
  lemma KeepOthersIn(gv: map<VId, Vertex>, rv: map<VId, Vertex>, v: VId, p: PId)
    requires rv.Keys == gv.Keys
    requires forall u :: u in gv ==> rv[u] == gv[u].(particlesIn := EraseFirst(gv[u].particlesIn, p))
    requires forall u :: u in gv && Some(u) != Some(v) ==> EraseFirst(gv[u].particlesIn, p) == gv[u].particlesIn
    ensures forall u :: u in gv && u != v ==> rv[u] == gv[u]
  {
  }

  /** Erasing `p` from every outgoing list changes only `v` when `v` is the
      one vertex that lists it. */
  lemma KeepOthersOut(gv: map<VId, Vertex>, rv: map<VId, Vertex>, v: VId, p: PId)
    requires rv.Keys == gv.Keys
    requires forall u :: u in gv ==> rv[u] == gv[u].(particlesOut := EraseFirst(gv[u].particlesOut, p))
    requires forall u :: u in gv && Some(u) != Some(v) ==> EraseFirst(gv[u].particlesOut, p) == gv[u].particlesOut
    ensures forall u :: u in gv && u != v ==> rv[u] == gv[u]
  {
  }

  /** Restoring a particle's old record restores the particle table. */
  lemma RestoreParticle(m: map<PId, Particle>, p: PId, a: Particle)
    requires p in m
    ensures m[p := a][p := m[p]] == m
  {
  }

  /** On the vertex table: appending `p` at `v` (where it was not listed and
      nowhere else changes), then erasing it from `v`, gives the table back. */
  lemma AppendThenErase(gv: map<VId, Vertex>, av: map<VId, Vertex>, rv: map<VId, Vertex>, v: VId, x: Vertex)
    requires v in gv && av.Keys == gv.Keys && rv.Keys == av.Keys
    requires av[v] == x && rv[v] == gv[v]
    requires forall u :: u in gv && u != v ==> av[u] == gv[u]
    requires forall u :: u in gv && u != v ==> rv[u] == av[u]
    ensures rv == gv
  {
  }

  /** Removing a freshly added outgoing particle undoes the addition: the
      graph is the one before `add_particle_out`. */
  lemma AddOutThenRemove(g: Graph, v: VId, p: PId)
    requires Wf(g) && v in g.vertices && p in g.particles
    requires g.particles[p].productionVertex.None? && g.particles[p].endVertex != Some(v)
    ensures RemoveParticle(AddParticleOut(g, v, p), v, p).0 == g
  {
    var a := AddParticleOut(g, v, p);
    var r := RemoveParticle(a, v, p).0;
    var pr := g.particles[p];
    ListedOnlyAtLinks(g, p);
    ListedOnlyAtLinks(a, p);
    assert a.particles[p] == pr.(productionVertex := Some(v));
    EraseAppended(g.vertices[v].particlesOut, p);
    assert r.vertices[v] == g.vertices[v];
    AppendThenErase(g.vertices, a.vertices, r.vertices, v, a.vertices[v]);
    RelinkTwice(g.particles, p, pr.(productionVertex := Some(v)), pr);
    RestoreParticle(g.particles, p, pr);
  }

  /** Removing a freshly added incoming particle undoes the addition. */
  lemma AddInThenRemove(g: Graph, v: VId, p: PId)
    requires Wf(g) && v in g.vertices && p in g.particles
    requires g.particles[p].endVertex.None? && g.particles[p].productionVertex != Some(v)
    ensures RemoveParticle(AddParticleIn(g, v, p), v, p).0 == g
  {
    var a := AddParticleIn(g, v, p);
    var r := RemoveParticle(a, v, p).0;
    var pr := g.particles[p];
    ListedOnlyAtLinks(g, p);
    ListedOnlyAtLinks(a, p);
    assert a.particles[p] == pr.(endVertex := Some(v));
    EraseAppended(g.vertices[v].particlesIn, p);
    assert r.vertices[v] == g.vertices[v];
    AppendThenErase(g.vertices, a.vertices, r.vertices, v, a.vertices[v]);
    RelinkTwice(g.particles, p, pr.(endVertex := Some(v)), pr);
    RestoreParticle(g.particles, p, pr);
  }

  /** `particles_in_size()`: the length of the incoming list. The source
      converts the vector size to `int`; lists longer than `INT_MAX` are not
      modelled. */
  function ParticlesInSize(g: Graph, v: VId): (n: int)
    requires v in g.vertices
    ensures n >= 0
    ensures n == 0 <==> g.vertices[v].particlesIn == []
    ensures Wf(g) ==> n == |EndingAt(g, v)|
  {
    SizesCount(g, v);
    |g.vertices[v].particlesIn|
  }

  /** `particles_out_size()`: the length of the outgoing list. */
  function ParticlesOutSize(g: Graph, v: VId): (n: int)
    requires v in g.vertices
    ensures n >= 0
    ensures n == 0 <==> g.vertices[v].particlesOut == []
    ensures Wf(g) ==> n == |ProducedAt(g, v)|
  {
    SizesCount(g, v);
    |g.vertices[v].particlesOut|
  }

  lemma SizesCount(g: Graph, v: VId)
    requires v in g.vertices
    ensures Wf(g) ==> |g.vertices[v].particlesIn| == |EndingAt(g, v)|
    ensures Wf(g) ==> |g.vertices[v].particlesOut| == |ProducedAt(g, v)|
  {
    if Wf(g) {
      var ins := g.vertices[v].particlesIn;
      var outs := g.vertices[v].particlesOut;
      forall p
        ensures p in EndingAt(g, v) <==> p in Elements(ins)
        ensures p in ProducedAt(g, v) <==> p in Elements(outs)
      {
        if p in g.particles {
          WfLinksAgree(g, v, p);
        }
      }
      assert EndingAt(g, v) == Elements(ins);
      assert ProducedAt(g, v) == Elements(outs);
      ElementsOfNoDup(ins);
      ElementsOfNoDup(outs);
    }
  }

  /** The particles whose end vertex is `v`. */
  function EndingAt(g: Graph, v: VId): set<PId>
  {
    set p | p in g.particles && g.particles[p].endVertex == Some(v)
  }

  /** The particles whose production vertex is `v`. */
  function ProducedAt(g: Graph, v: VId): set<PId>
  {
    set p | p in g.particles && g.particles[p].productionVertex == Some(v)
  }

  /** Whether another vertex of the event already carries barcode `n`. */
  predicate VertexBarcodeTaken(g: Graph, v: VId, n: int)
  {
    exists u :: u in g.vertices && u != v && g.vertices[u].inEvent && g.vertices[u].barcode == n
  }

  /** `suggest_barcode(n)` on a vertex: accepted only when the vertex belongs
      to an event, `n` is negative and no other vertex of the event uses it;
      a rejected suggestion changes nothing. */
  function SuggestVertexBarcode(g: Graph, v: VId, n: int): (r: (Graph, bool))
    requires v in g.vertices
    ensures r.1 <==> g.vertices[v].inEvent && n < 0 && !VertexBarcodeTaken(g, v, n)
    ensures !r.1 ==> r.0 == g
    ensures r.1 ==> r.0 == g.(vertices := g.vertices[v := g.vertices[v].(barcode := n)])
    ensures BarcodesOk(g) ==> BarcodesOk(r.0)
  {
    var vx := g.vertices[v];
    if vx.inEvent && n < 0 && !VertexBarcodeTaken(g, v, n) then
      var r := g.(vertices := g.vertices[v := vx.(barcode := n)]);
      assert forall p :: p in g.particles ==> (ParticleInEvent(r, p) <==> ParticleInEvent(g, p));
      (r, true)
    else (g, false)
  }
}
