/** The range adaptors of HepMC/GenRanges.h and src/GenRanges.cc: small
    records naming a starting point and an `IteratorRange`, whose
    `begin()`/`end()` hand out the particle iterator of a vertex. Iterating
    an adaptor is modelled as the sequence of particles it yields; the
    `std::range_error` a production or end range throws for a particle
    without that vertex is the `Err` of a `Result`. */
module GenRanges {
  import opened Wrappers
  import opened Sequences
  import opened IteratorRanges
  import opened Arena
  import opened Traversal

  /** `GenVertexParticleRange`: a vertex and the range to walk from it. */
  datatype VertexParticleRange = VertexParticleRange(vertex: VId, range: IteratorRange)

  /** Which vertex of the particle a particle range starts from, and whether
      it is the const flavour (which differs only in its error message). */
  datatype Anchor = Production | End
  datatype ParticleVertexRange = ParticleVertexRange(anchor: Anchor, particle: PId, range: IteratorRange, isConst: bool)

  /** The `std::range_error` a particle range raises. */
  datatype RangeError = RangeError(message: string)

  /** `GenVertex::particles(range)`; the constructor's range defaults to
      `relatives`. */
  function Particles(v: VId, range: IteratorRange := Relatives): (r: VertexParticleRange)
    ensures r.vertex == v && r.range == range
  {
    VertexParticleRange(v, range)
  }

  /** `GenParticle::particles_in(range)` and its const overload: the range
      over the particle's production vertex. */
  function ParticlesIn(p: PId, range: IteratorRange := Relatives, isConst: bool := false): (r: ParticleVertexRange)
    ensures r.anchor == Production && r.particle == p && r.range == range && r.isConst == isConst
  {
    ParticleVertexRange(Production, p, range, isConst)
  }

  /** `GenParticle::particles_out(range)` and its const overload: the range
      over the particle's end vertex. */
  function ParticlesOut(p: PId, range: IteratorRange := Relatives, isConst: bool := false): (r: ParticleVertexRange)
    ensures r.anchor == End && r.particle == p && r.range == range && r.isConst == isConst
  {
    ParticleVertexRange(End, p, range, isConst)
  }

  /** `GenVertex::particles_in(p, range)`: the vertex it is called on plays
      no part, the result is the particle's own production range. */
  function VertexParticlesIn(v: VId, p: PId, range: IteratorRange := Relatives, isConst: bool := false): (r: ParticleVertexRange)
    ensures r.anchor == Production && r.particle == p && r.range == range && r.isConst == isConst
  {
    ParticlesIn(p, range, isConst)
  }

  /** `GenVertex::particles_out(p, range)`, likewise independent of the
      vertex it is called on. */
  function VertexParticlesOut(v: VId, p: PId, range: IteratorRange := Relatives, isConst: bool := false): (r: ParticleVertexRange)
    ensures r.anchor == End && r.particle == p && r.range == range && r.isConst == isConst
  {
    ParticlesOut(p, range, isConst)
  }

  /** What iterating a `GenVertexParticleRange` yields: the vertex's
      particle iterator for the stored range. For a recursive range that is
      the particles of the vertex range's vertices, vertex by vertex
      (`Traversal.ParticlesOfAppend` splits it into per-vertex blocks). */
  function VertexRangeItems(g: Graph, r: VertexParticleRange): (ps: seq<PId>)
    requires Wf(g) && r.vertex in g.vertices
    ensures r.range.IsOneStep() ==> ps == Edges(g, r.vertex, r.range)
    ensures r.range.IsRecursive() ==> ps == ParticlesOf(g, VertexRange(g, r.vertex, r.range))
    ensures r.range.IsRecursive() ==> NoDup(ps)
    ensures r.range.IsRecursive() ==> forall p :: p in ps <==>
      p in g.particles && Owner(g, p).Some? && Owner(g, p).value in VertexRange(g, r.vertex, r.range)
  {
    ParticleRange(g, r.vertex, r.range)
  }

  /** The vertex a particle range starts from, if the particle has it. */
  function AnchorVertex(g: Graph, r: ParticleVertexRange): (v: Option<VId>)
    requires r.particle in g.particles
    ensures r.anchor == Production ==> v == g.particles[r.particle].productionVertex
    ensures r.anchor == End ==> v == g.particles[r.particle].endVertex
  {
    match r.anchor
    case Production => g.particles[r.particle].productionVertex
    case End => g.particles[r.particle].endVertex
  }

  /** The message each adaptor throws with. */
  function ErrorMessage(r: ParticleVertexRange): string
  {
    (if r.isConst then "Const" else "") +
    (match r.anchor
     case Production => "GenParticleProductionRange: GenParticle has no production_vertex"
     case End => "GenParticleEndRange: GenParticle has no end_vertex")
  }

  /** What iterating a production or end range yields: `range_error` when
      the particle lacks that vertex (both `begin()` and `end()` check),
      otherwise that vertex's particle iterator for the stored range. */
  function ParticleRangeItems(g: Graph, r: ParticleVertexRange): (res: Result<seq<PId>, RangeError>)
    requires Wf(g) && r.particle in g.particles
    ensures res.Err? <==> AnchorVertex(g, r).None?
    ensures res.Err? ==> res.error == RangeError(ErrorMessage(r))
    ensures res.Ok? ==> AnchorVertex(g, r).value in g.vertices
    ensures res.Ok? ==> res.value == VertexRangeItems(g, Particles(AnchorVertex(g, r).value, r.range))
  {
    match AnchorVertex(g, r)
    case None => Err(RangeError(ErrorMessage(r)))
    case Some(v) =>
      assert v in g.vertices by {
        assert EndLinksListed(g) && ProductionLinksListed(g);
      }
      Ok(VertexRangeItems(g, Particles(v, r.range)))
  }

  /** A particle with a production vertex appears in its own production
      range whenever the range follows children or is recursive: for
      `children` and `family` it is on the vertex's outgoing list, and for a
      recursive range it is attributed to that vertex, which every walk from
      it yields. */
  lemma ProductionRangeHoldsParticle(g: Graph, p: PId, range: IteratorRange)
    requires Wf(g) && p in g.particles && g.particles[p].productionVertex.Some?
    requires range.FollowsChildren() || range.IsRecursive()
    ensures var res := ParticleRangeItems(g, ParticlesIn(p, range));
      res.Ok? && p in res.value
  {
    var v := g.particles[p].productionVertex.value;
    WfLinksAgree(g, v, p);
    if range.IsRecursive() {
      var vs := VertexRange(g, v, range);
      assert vs[|vs| - 1] == v;
    }
  }

  /** For `parents` the production range of a particle is the incoming list
      of its production vertex, which holds the particle only if it also
      ends there. */
  lemma ProductionParentsRange(g: Graph, p: PId)
    requires Wf(g) && p in g.particles && g.particles[p].productionVertex.Some?
    ensures var res := ParticleRangeItems(g, ParticlesIn(p, Parents));
      res.Ok? && (p in res.value <==> g.particles[p].endVertex == g.particles[p].productionVertex)
  {
    var v := g.particles[p].productionVertex.value;
    WfLinksAgree(g, v, p);
  }

  /** A particle with an end vertex appears in its end range whenever the
      range follows parents: for `parents` and `family` it is on the
      vertex's incoming list, and for a recursive range its owner is either
      that end vertex itself or its production vertex, one parent step
      away. */
  lemma EndRangeHoldsParticle(g: Graph, p: PId, range: IteratorRange)
    requires Wf(g) && p in g.particles && g.particles[p].endVertex.Some? && range.FollowsParents()
    ensures var res := ParticleRangeItems(g, ParticlesOut(p, range));
      res.Ok? && p in res.value
  {
    var w := g.particles[p].endVertex.value;
    assert w in g.vertices && p in g.vertices[w].particlesIn;
    if range.IsRecursive() {
      var vs := VertexRange(g, w, range);
      assert vs[|vs| - 1] == w;
      match g.particles[p].productionVertex
      case None =>
      case Some(u) =>
        assert ParentStep(g, w, u);
        assert Edge(g, range, w, u);
        assert IsPath(g, range, [w, u]);
    }
  }

  /** Without the anchoring vertex both flavours of both adaptors fail, and
      they fail with the flavour's message. */
  lemma MissingVertexFails(g: Graph, p: PId, range: IteratorRange, isConst: bool)
    requires Wf(g) && p in g.particles
    ensures g.particles[p].productionVertex.None? ==>
      ParticleRangeItems(g, ParticlesIn(p, range, isConst)) ==
      Err(RangeError((if isConst then "Const" else "") + "GenParticleProductionRange: GenParticle has no production_vertex"))
    ensures g.particles[p].endVertex.None? ==>
      ParticleRangeItems(g, ParticlesOut(p, range, isConst)) ==
      Err(RangeError((if isConst then "Const" else "") + "GenParticleEndRange: GenParticle has no end_vertex"))
  {
  }
}
