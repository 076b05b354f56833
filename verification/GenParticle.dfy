/** Particle accessors and mutators (HepMC/GenParticle.h). The production
    and end vertex of a particle are not among the mutators: only the vertex
    operations of module GenVertex change them. */
module GenParticle {
  import opened Wrappers
  import opened Arena
  import GenVertex

  /** `pid()`, the PDG particle code; `pdg_id()` is the same value. */
  function Pid(p: Particle): (r: int)
    ensures p.(pid := r) == p
  {
    p.pid
  }

  function PdgId(p: Particle): (r: int)
    ensures r == Pid(p)
  {
    Pid(p)
  }

  /** `abspid()`: the magnitude of the particle code, sign dropped. The
      source's `std::abs` is undefined for `INT_MIN`; unbounded integers do
      not model that. */
  function AbsPid(p: Particle): (r: int)
    ensures r >= 0
    ensures r == Pid(p) || r == -Pid(p)
  {
    if Pid(p) < 0 then -Pid(p) else Pid(p)
  }

  /** `abs_pdg_id()`, the same value as `abspid()`. */
  function AbsPdgId(p: Particle): (r: int)
    ensures r == AbsPid(p)
  {
    AbsPid(p)
  }

  /** `is_undecayed()`: the status code is 1; the end vertex is not looked at. */
  function IsUndecayed(p: Particle): (r: bool)
    ensures r <==> p.status == 1
  {
    p.status == 1
  }

  /** `has_decayed()`: the status code is 2; the end vertex is not looked at. */
  function HasDecayed(p: Particle): (r: bool)
    ensures r <==> p.status == 2
  {
    p.status == 2
  }

  /** `is_beam()`: the status code is 4; the production vertex is not looked at. */
  function IsBeam(p: Particle): (r: bool)
    ensures r <==> p.status == 4
  {
    p.status == 4
  }

  /** The graph-relevant part of a particle: what a setter must not touch. */
  predicate SameLinks(a: Particle, b: Particle)
  {
    a.productionVertex == b.productionVertex && a.endVertex == b.endVertex && a.barcode == b.barcode
  }

  /** `set_momentum`: stores the momentum, changes nothing else. */
  function SetMomentum(p: Particle, m: FourVector): (r: Particle)
    ensures r.momentum == m && r.(momentum := p.momentum) == p
    ensures SameLinks(r, p)
  {
    p.(momentum := m)
  }

  /** `set_pid`: stores the particle code, changes nothing else. */
  function SetPid(p: Particle, id: int): (r: Particle)
    ensures Pid(r) == id && r.(pid := p.pid) == p
    ensures SameLinks(r, p)
  {
    p.(pid := id)
  }

  /** `set_pdg_id`: the same mutator under its longer name. */
  function SetPdgId(p: Particle, id: int): (r: Particle)
    ensures r == SetPid(p, id)
  {
    p.(pid := id)
  }

  /** `set_status(status = 0)`: stores the status, zero when omitted. */
  function SetStatus(p: Particle, status: int := 0): (r: Particle)
    ensures r.status == status && r.(status := p.status) == p
    ensures SameLinks(r, p)
  {
    p.(status := status)
  }

  /** `set_generated_mass`: stores the generated mass, changes nothing else. */
  function SetGeneratedMass(p: Particle, m: real): (r: Particle)
    ensures r.generatedMass == m && r.(generatedMass := p.generatedMass) == p
    ensures SameLinks(r, p)
  {
    p.(generatedMass := m)
  }

  /** `pid()` and `set_pid` are a getter/setter pair: the code read back is
      the one stored, and storing the code just read changes nothing. */
  lemma PidSetPid(p: Particle, id: int)
    ensures Pid(SetPid(p, id)) == id && PdgId(SetPdgId(p, id)) == id
    ensures SetPid(p, Pid(p)) == p
  {
  }

  /** After `set_status(s)` a particle is undecayed, decayed or a beam
      exactly when s is 1, 2 or 4; the three classes are decided by the
      status code alone. */
  lemma StatusClassesAfterSet(p: Particle, s: int)
    ensures IsUndecayed(SetStatus(p, s)) <==> s == 1
    ensures HasDecayed(SetStatus(p, s)) <==> s == 2
    ensures IsBeam(SetStatus(p, s)) <==> s == 4
  {
  }

  /** Replacing a particle record by one with the same links keeps the
      graph well-formed: no setter can break the vertex/particle links. */
  lemma SetterKeepsWf(g: Graph, id: PId, p': Particle)
    requires Wf(g) && id in g.particles && SameLinks(p', g.particles[id])
    ensures Wf(g.(particles := g.particles[id := p']))
  {
    var r := g.(particles := g.particles[id := p']);
    assert forall q :: q in g.particles ==>
      r.particles[q].endVertex == g.particles[q].endVertex &&
      r.particles[q].productionVertex == g.particles[q].productionVertex;
  }

  /** `parents()`: the incoming particles of the production vertex, or no
      particles when there is none. In a well-formed graph these are exactly
      the particles ending where this one was produced. */
  function Parents(g: Graph, p: PId): (r: seq<PId>)
    requires p in g.particles
    ensures g.particles[p].productionVertex.None? ==> r == []
    ensures Wf(g) ==> forall q :: q in r <==>
      q in g.particles && g.particles[q].endVertex.Some? &&
      g.particles[q].endVertex == g.particles[p].productionVertex
  {
    match g.particles[p].productionVertex
    case None => []
    case Some(v) => if v in g.vertices then g.vertices[v].particlesIn else []
  }

  /** `children()`: the outgoing particles of the end vertex, or no
      particles when there is none. In a well-formed graph these are exactly
      the particles produced where this one ends. */
  function Children(g: Graph, p: PId): (r: seq<PId>)
    requires p in g.particles
    ensures g.particles[p].endVertex.None? ==> r == []
    ensures Wf(g) ==> forall q :: q in r <==>
      q in g.particles && g.particles[q].productionVertex.Some? &&
      g.particles[q].productionVertex == g.particles[p].endVertex
  {
    match g.particles[p].endVertex
    case None => []
    case Some(v) => if v in g.vertices then g.vertices[v].particlesOut else []
  }

  /** After `v.add_particle_out(p)`, the parents of `p` are the incoming
      particles of `v`, and `p` is among the children of each of them. */
  lemma AddOutLinksFamily(g: Graph, v: VId, p: PId)
    requires Wf(g) && v in g.vertices && p in g.particles
    ensures var r := GenVertex.AddParticleOut(g, v, p);
      Parents(r, p) == r.vertices[v].particlesIn &&
      forall q :: q in r.vertices[v].particlesIn ==> p in Children(r, q)
  {
    var r := GenVertex.AddParticleOut(g, v, p);
    forall q | q in r.vertices[v].particlesIn
      ensures p in Children(r, q)
    {
      assert r.particles[q].endVertex == Some(v);
      var outs := r.vertices[v].particlesOut;
      assert outs[|outs| - 1] == p;
    }
  }

  /** After `v.add_particle_in(p)`, the children of `p` are the outgoing
      particles of `v`, and `p` is among the parents of each of them. */
  lemma AddInLinksFamily(g: Graph, v: VId, p: PId)
    requires Wf(g) && v in g.vertices && p in g.particles
    ensures var r := GenVertex.AddParticleIn(g, v, p);
      Children(r, p) == r.vertices[v].particlesOut &&
      forall q :: q in r.vertices[v].particlesOut ==> p in Parents(r, q)
  {
    var r := GenVertex.AddParticleIn(g, v, p);
    forall q | q in r.vertices[v].particlesOut
      ensures p in Parents(r, q)
    {
      assert r.particles[q].productionVertex == Some(v);
      var ins := r.vertices[v].particlesIn;
      assert ins[|ins| - 1] == p;
    }
  }

  /** Whether another particle of the event already carries barcode `n`. */
  predicate ParticleBarcodeTaken(g: Graph, p: PId, n: int)
  {
    exists q :: q in g.particles && q != p && ParticleInEvent(g, q) && g.particles[q].barcode == n
  }

  /** `suggest_barcode(n)`: accepted only when the particle belongs to an
      event, `n` is positive and no other particle of the event uses it;
      a rejected suggestion changes nothing. */
  function SuggestBarcode(g: Graph, p: PId, n: int): (r: (Graph, bool))
    requires p in g.particles
    ensures r.1 <==> ParticleInEvent(g, p) && n > 0 && !ParticleBarcodeTaken(g, p, n)
    ensures !r.1 ==> r.0 == g
    ensures r.1 ==> r.0 == g.(particles := g.particles[p := g.particles[p].(barcode := n)])
    ensures BarcodesOk(g) ==> BarcodesOk(r.0)
  {
    if ParticleInEvent(g, p) && n > 0 && !ParticleBarcodeTaken(g, p, n) then
      var r := g.(particles := g.particles[p := g.particles[p].(barcode := n)]);
      assert forall q :: q in g.particles ==> (ParticleInEvent(r, q) <==> ParticleInEvent(g, q));
      (r, true)
    else (g, false)
  }
}
