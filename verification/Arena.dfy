/** The event graph as an arena: vertices and particles live in two tables
    keyed by handle, and the pointers of the source (a vertex's particle
    lists, a particle's production and end vertex) become handles into those
    tables (HepMC/GenVertex.h, HepMC/GenParticle.h). */
module Arena {
  import opened Wrappers
  import opened Sequences

  /** Handle of a vertex, standing for `GenVertex*`. */
  type VId = int
  /** Handle of a particle, standing for `GenParticle*`. */
  type PId = int

  /** Momentum or position; the components are stored, never computed with. */
  datatype FourVector = FourVector(x: real, y: real, z: real, t: real)

  /** A particle: the edge of the graph. Its production and end vertex are
      back-references that only the vertex operations change. */
  datatype Particle = Particle(
    momentum: FourVector,
    pid: int,
    status: int,
    generatedMass: real,
    barcode: int,
    productionVertex: Option<VId>,   // None: vacuum or beam
    endVertex: Option<VId>           // None: not decayed
  )

  /** A vertex: the node of the graph, with its ordered incoming and outgoing
      particle lists. `inEvent` says whether the vertex belongs to an event
      (a non-null `parent_event()`). */
  datatype Vertex = Vertex(
    position: FourVector,
    status: int,
    barcode: int,
    inEvent: bool,
    particlesIn: seq<PId>,
    particlesOut: seq<PId>
  )

  datatype Graph = Graph(vertices: map<VId, Vertex>, particles: map<PId, Particle>)

  /** No particle is listed twice in one list of a vertex. */
  predicate ListsDistinct(g: Graph)
  {
    forall v :: v in g.vertices ==>
      NoDup(g.vertices[v].particlesIn) && NoDup(g.vertices[v].particlesOut)
  }

  /** Every incoming particle of `v` has `v` as its end vertex. */
  predicate InListsLinked(g: Graph)
  {
    forall v, p :: v in g.vertices && p in g.vertices[v].particlesIn ==>
      p in g.particles && g.particles[p].endVertex == Some(v)
  }

  /** Every outgoing particle of `v` has `v` as its production vertex. */
  predicate OutListsLinked(g: Graph)
  {
    forall v, p :: v in g.vertices && p in g.vertices[v].particlesOut ==>
      p in g.particles && g.particles[p].productionVertex == Some(v)
  }

  /** A particle's end vertex exists and lists it as incoming. */
  predicate EndLinksListed(g: Graph)
  {
    forall p :: p in g.particles && g.particles[p].endVertex.Some? ==>
      g.particles[p].endVertex.value in g.vertices &&
      p in g.vertices[g.particles[p].endVertex.value].particlesIn
  }

  /** A particle's production vertex exists and lists it as outgoing. */
  predicate ProductionLinksListed(g: Graph)
  {
    forall p :: p in g.particles && g.particles[p].productionVertex.Some? ==>
      g.particles[p].productionVertex.value in g.vertices &&
      p in g.vertices[g.particles[p].productionVertex.value].particlesOut
  }

  /** The graph invariant the vertex operations maintain: the lists and the
      back-references describe the same edges. */
  predicate Wf(g: Graph)
  {
    && ListsDistinct(g)
    && InListsLinked(g)
    && OutListsLinked(g)
    && EndLinksListed(g)
    && ProductionLinksListed(g)
  }

  /** In a well-formed graph, list membership and back-references agree in
      both directions: `p` is outgoing from `v` exactly when `v` produced it,
      and incoming to `v` exactly when `v` ends it. */
  lemma WfLinksAgree(g: Graph, v: VId, p: PId)
    requires Wf(g) && v in g.vertices && p in g.particles
    ensures p in g.vertices[v].particlesOut <==> g.particles[p].productionVertex == Some(v)
    ensures p in g.vertices[v].particlesIn <==> g.particles[p].endVertex == Some(v)
  {
  }

  /** Whether a particle belongs to an event: through its production vertex
      when it has one, otherwise through its end vertex. */
  predicate ParticleInEvent(g: Graph, p: PId)
    requires p in g.particles
  {
    match g.particles[p].productionVertex
    case Some(v) => v in g.vertices && g.vertices[v].inEvent
    case None =>
      match g.particles[p].endVertex
      case Some(w) => w in g.vertices && g.vertices[w].inEvent
      case None => false
  }

  /** The barcode rule of an event: vertex barcodes are negative and
      particle barcodes positive, each unique among the event's vertices,
      respectively particles. */
  predicate BarcodesOk(g: Graph)
  {
    && (forall v :: v in g.vertices && g.vertices[v].inEvent ==> g.vertices[v].barcode < 0)
    && (forall v, w ::
          (v in g.vertices && w in g.vertices && v != w && g.vertices[v].inEvent && g.vertices[w].inEvent) ==>
          g.vertices[v].barcode != g.vertices[w].barcode)
    && (forall p :: p in g.particles && ParticleInEvent(g, p) ==> g.particles[p].barcode > 0)
    && (forall p, q ::
          (p in g.particles && q in g.particles && p != q && ParticleInEvent(g, p) && ParticleInEvent(g, q)) ==>
          g.particles[p].barcode != g.particles[q].barcode)
  }
}
