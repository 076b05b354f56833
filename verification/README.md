# HepMC event graph: a Dafny model

HepMC stores a collision event as a directed graph. Particles are the edges
and vertices are the nodes. A vertex keeps an ordered list of incoming and
of outgoing particles. A particle points back at its production vertex and
at its end vertex; either may be absent. This project models that core:

- the graph as an arena, with the link invariant (`Arena.Wf`);
- the edge operations of `GenVertex`: `add_particle_in`,
  `add_particle_out`, `remove_particle`, the list sizes, and barcode
  suggestion;
- the particle accessors and setters of `GenParticle`;
- the three iterators of `GenVertex.h`:
  - the edge iterator;
  - the depth-first, post-order vertex iterator, which cuts edges into
    vertices it has already visited;
  - the particle iterator built on the vertex iterator;
- the range adaptors of `GenRanges`;
- the `SearchVector` helpers;
- the forward-reference table `TempParticleMap` of the ASCII reader;
- the `detail::output` field writers of `StreamHelpers.h`;
- the `PdfInfo` record.

Pointers become integer handles into two maps (`Graph.vertices` and
`Graph.particles`). Iterators become pure functions that return the whole
sequence the iterator would yield. Mutating member functions become
functions from the old graph (or record) to the new one. Termination of the
vertex walk on cyclic graphs is part of the proof: the walk's measure is the
number of vertices not yet visited.

Main results:

- `Traversal.VertexRange` yields every vertex at most once, always yields
  the root last, and for a recursive range (ancestors, descendants,
  relatives) yields exactly the vertices reachable from the root, in post
  order. For a one-step range it yields exactly the root and its direct
  neighbours. `Traversal.TwoCycleWalks` runs it on a two-vertex cycle.
- `Traversal.ParticleRange` is the edge iterator for a one-step range. For
  a recursive range it yields every particle at most once: exactly the
  particles whose owning vertex the vertex range visits. The owning vertex
  is the production vertex, or the end vertex for a particle without one.
  The particles come vertex by vertex, in the order of the vertex range;
  at each vertex the orphaned incoming particles come first, then the
  outgoing ones (`Traversal.ParticleRangeBlocks`).
- `GenVertex.AddParticleOut` and `GenVertex.AddParticleIn` keep the link
  invariant and keep the order of the other list entries. For a particle
  that had no link on that side, `GenVertex.RemoveParticle` undoes them.
- `StreamHelpers.OutputIntsRoundTrip`: integer fields written by
  `detail::output` read back exactly.

## Model

| member | source | states |
|---|---|---|
| IteratorRanges.Value | HepMC/IteratorRange.h:16-21 | every range has a value in 0..5; the value is below 3 exactly for the one-step ranges parents, children, family |
| IteratorRanges.FromValue | HepMC/IteratorRange.h:16-21 | exactly the integers 0..5 name a range, and the range named has that value |
| IteratorRanges.ValueRoundTrip | HepMC/IteratorRange.h:16-21 | reading back a range's value gives the range, so the six values are pairwise distinct |
| IteratorRanges.AliasValues | HepMC/IteratorRange.h:16-21 | the upper-case aliases PARENTS..RELATIVES have the values 0..5 of their lower-case names |
| SearchVector.NotInVector | HepMC/SearchVector.h:18-19 | true exactly when the particle does not occur in the vector |
| SearchVector.AlreadyInVector | HepMC/SearchVector.h:21-24 | returns the position of the first occurrence when there is one; returns not-found exactly when NotInVector holds |
| SearchVector.EraseFirst | HepMC/GenVertex.h:84-88 | removing a particle from a list drops its first occurrence, the entries before and after it keeping their order; a list without it is unchanged; a duplicate-free list stays duplicate-free and loses the particle |
| SearchVector.EraseAppended | HepMC/GenVertex.h:80-88 | erasing a particle that was just appended to a list without it gives the list back |
| Sequences.ElementsOfNoDup | HepMC/GenVertex.h:177-180 | a duplicate-free list has as many entries as distinct elements |
| Arena.WfLinksAgree | HepMC/GenParticle.h:18-20 | in a well-formed graph, p is in v's outgoing list exactly when v is p's production vertex, and in v's incoming list exactly when v is p's end vertex |
| GenVertex.DetachIn | HepMC/GenVertex.h:418 | taking a particle off its end vertex clears its end vertex and keeps the graph well-formed; every incoming list loses the particle's first occurrence, its other entries keeping their order, and nothing else changes |
| GenVertex.DetachOut | HepMC/GenVertex.h:420 | the same for the production vertex and the outgoing lists |
| GenVertex.AttachIn | HepMC/GenVertex.h:80-81 | appending a particle that has no end vertex to v's incoming list makes v its end vertex and keeps the graph well-formed |
| GenVertex.AttachOut | HepMC/GenVertex.h:82-83 | the same for the outgoing list and the production vertex |
| GenVertex.AddParticleIn | HepMC/GenVertex.h:80-81 | after add_particle_in(p), p ends at v; v's incoming list is the old list with p's entry taken out and p appended, the other entries in their old order (old list + [p] when p did not end at v); the previous end vertex loses p the same way; every other vertex is unchanged; the graph stays well-formed; the in-size grows by one unless p already ended at v |
| GenVertex.AddParticleOut | HepMC/GenVertex.h:82-83 | after add_particle_out(p), p is produced at v; v's outgoing list is the old list with p's entry taken out and p appended, the other entries in their old order (old list + [p] when p was not produced at v); the previous production vertex loses p the same way; every other vertex is unchanged; the graph stays well-formed; the out-size grows by one unless p was already produced at v |
| GenVertex.RemoveParticle | HepMC/GenVertex.h:84-88 | remove_particle returns p; v's two lists lose p and keep their other entries in order; v's other fields and every other vertex are unchanged; only the back-references pointing at v are cleared; p stays in the graph; the graph stays well-formed |
| GenVertex.AddOutThenRemove | HepMC/GenVertex.h:82-88 | for a particle without a production vertex, adding it as outgoing and then removing it restores the graph exactly |
| GenVertex.AddInThenRemove | HepMC/GenVertex.h:80-88 | for a particle without an end vertex, adding it as incoming and then removing it restores the graph exactly |
| GenVertex.ParticlesInSize | HepMC/GenVertex.h:177-178 | in a well-formed graph, particles_in_size counts the particles whose end vertex is v; it is zero exactly for an empty list |
| GenVertex.ParticlesOutSize | HepMC/GenVertex.h:179-180 | in a well-formed graph, particles_out_size counts the particles whose production vertex is v; it is zero exactly for an empty list |
| GenVertex.SizesCount | HepMC/GenVertex.h:177-180 | the list lengths equal the number of particles linked back to the vertex |
| GenVertex.SuggestVertexBarcode | HepMC/GenVertex.h:122-135 | a suggested barcode is accepted exactly when the vertex is in an event, the barcode is negative and no other event vertex has it; a rejection changes nothing; barcode uniqueness and sign are preserved |
| GenParticle.Pid | HepMC/GenParticle.h:100 | pid is the stored particle code: the record with that code written back is the same record |
| GenParticle.PidSetPid | HepMC/GenParticle.h:100-103 | pid reads back the code set_pid or set_pdg_id stored, and setting the code just read changes nothing |
| GenParticle.PdgId | HepMC/GenParticle.h:101-103 | pdg_id is pid |
| GenParticle.AbsPid | HepMC/GenParticle.h:106 | abspid is non-negative and equals pid or its negation |
| GenParticle.AbsPdgId | HepMC/GenParticle.h:108 | abs_pdg_id is abspid |
| GenParticle.IsUndecayed | HepMC/GenParticle.h:178-180 | is_undecayed holds exactly when the status is 1, whatever the end vertex |
| GenParticle.HasDecayed | HepMC/GenParticle.h:182-184 | has_decayed holds exactly when the status is 2, whatever the end vertex |
| GenParticle.IsBeam | HepMC/GenParticle.h:186-192 | is_beam holds exactly when the status is 4, whatever the production vertex |
| GenParticle.StatusClassesAfterSet | HepMC/GenParticle.h:178-192 | after set_status(s) the particle is undecayed, decayed or a beam exactly when s is 1, 2 or 4 |
| GenParticle.SetMomentum | HepMC/GenParticle.h:223 | set_momentum stores the momentum and changes no other field |
| GenParticle.SetPid | HepMC/GenParticle.h:226 | set_pid stores the code and changes no other field |
| GenParticle.SetPdgId | HepMC/GenParticle.h:228 | set_pdg_id is set_pid |
| GenParticle.SetStatus | HepMC/GenParticle.h:231 | set_status stores the status, 0 by default, and changes no other field |
| GenParticle.SetGeneratedMass | HepMC/GenParticle.h:255 | set_generated_mass stores the mass and changes no other field |
| GenParticle.SetterKeepsWf | HepMC/GenParticle.h:18-20 | a record change that keeps the vertex links cannot break the graph's link invariant |
| GenParticle.Parents | HepMC/GenParticle.h:138-143 | parents() is empty without a production vertex; in a well-formed graph it holds exactly the particles ending at this particle's production vertex |
| GenParticle.Children | HepMC/GenParticle.h:145-150 | children() is empty without an end vertex; in a well-formed graph it holds exactly the particles produced at this particle's end vertex |
| GenParticle.AddOutLinksFamily | HepMC/GenParticle.h:18-20 | after v.add_particle_out(p), p's parents are v's incoming particles, and p is a child of each of them |
| GenParticle.AddInLinksFamily | HepMC/GenParticle.h:18-20 | after v.add_particle_in(p), p's children are v's outgoing particles, and p is a parent of each of them |
| GenParticle.SuggestBarcode | HepMC/GenParticle.h:208-220 | a suggested barcode is accepted exactly when the particle is in an event, the barcode is positive and unused by the event's other particles; otherwise nothing changes; barcode invariants are preserved |
| Traversal.Edges | HepMC/GenVertex.h:231-236 | the edge iterator (family when no range is given) yields the incoming list, in order, when the range follows parents, then the outgoing list when it follows children; in a well-formed graph that is exactly the particles ending at v (parents side) or produced at v (children side), none twice for parents or children alone |
| Traversal.EdgesSize | HepMC/GenVertex.h:277 | edges_size, family by default, is the length of the lists the range follows; in a well-formed graph the number of particles ending at v plus the number produced at v, on the sides the range follows |
| Traversal.Neighbours | HepMC/GenVertex.h:291-301 | the vertices one step of the range reaches from v, one per edge with a vertex at its far end; they are vertices of the graph |
| Traversal.VertexRange | HepMC/GenVertex.h:291-305 | the vertex iterator (relatives when no range is given) yields no vertex twice and the root last; for a recursive range it yields exactly the vertices reachable from the root, in post order (a step from one yielded vertex to another that cannot lead back puts the target first); for a one-step range the root and its direct neighbours |
| Traversal.RootWalk | HepMC/GenVertex.h:291-305 | the facts of VertexRange, post order included, proved about the walk from the root |
| Traversal.WalkYields | HepMC/GenVertex.h:302-304 | a walk yields each newly visited vertex once, and its start vertex last |
| Traversal.VisitYields | HepMC/GenVertex.h:302-304 | walking a list of neighbours yields exactly the newly visited vertices, none twice; edges into visited vertices are cut |
| Traversal.WalkCloses | HepMC/GenVertex.h:296-301 | after a recursive walk every step out of a vertex it visited lands on a visited vertex |
| Traversal.VisitCloses | HepMC/GenVertex.h:296-301 | the same for a list of neighbours, each of which ends up visited |
| Traversal.WalkReach | HepMC/GenVertex.h:296-301 | for a recursive range everything a walk yields is reachable from any vertex that reaches its start |
| Traversal.VisitReach | HepMC/GenVertex.h:296-301 | the same for a walk over a list of neighbours each reachable from that vertex |
| Traversal.WalkFinished | HepMC/GenVertex.h:302-304 | for a recursive range a walk yields in post order: each step out of a yielded vertex lands on a vertex visited before the walk, on one yielded earlier, or on one that leads back to it (an edge the iterator cuts) |
| Traversal.VisitFinished | HepMC/GenVertex.h:302-304 | the same for a walk over a list of neighbours |
| Traversal.FinishedConcat | HepMC/GenVertex.h:302-304 | two runs in post order, the second started after the first, form a run in post order |
| Traversal.RootPostOrder | HepMC/GenVertex.h:302-304 | the walk from the root is in post order: a non-returning step between two yielded vertices points to an earlier one |
| Traversal.WalkOneStep | HepMC/GenVertex.h:292-295 | for a one-step range the walk visits exactly the root's direct neighbours |
| Traversal.VisitOneStep | HepMC/GenVertex.h:292-295 | for a one-step range, walking a list of neighbours marks exactly those neighbours |
| Traversal.ReachableInClosed | HepMC/GenVertex.h:296-301 | a set closed under steps contains every vertex reachable from its members |
| Traversal.ReachableStep | HepMC/GenVertex.h:296-299 | a step from a reachable vertex lands on a reachable vertex |
| Traversal.ClosedGrow | HepMC/GenVertex.h:302-304 | closure of the two halves of a walk gives closure of the whole |
| Traversal.EdgeStaysInGraph | HepMC/GenVertex.h:296-299 | in a well-formed graph a step lands on a vertex of the graph |
| Traversal.Owner | HepMC/GenVertex.h:369-376 | the vertex a particle is attributed to is absent only for a particle with neither vertex |
| Traversal.OrphanParents | HepMC/GenVertex.h:371-373 | exactly the listed particles without a production vertex, none twice when the list has no repeats |
| Traversal.OrphanParentsAppend | HepMC/GenVertex.h:371-373 | the orphan filter keeps list order: the orphans of a concatenation are the orphans of each part, concatenated |
| Traversal.VertexParticles | HepMC/GenVertex.h:369-376 | at one vertex the particle iterator yields the orphaned incoming particles, in list order, then the outgoing list; these are exactly the particles owned by that vertex, none twice |
| Traversal.ParticlesOf | HepMC/GenVertex.h:369-376 | over distinct vertices, the particles owned by them, each exactly once |
| Traversal.ParticlesOfSingle | HepMC/GenVertex.h:369-376 | over a single vertex, the particles are what the iterator yields at that vertex: orphaned parents, then children |
| Traversal.ParticlesOfAppend | HepMC/GenVertex.h:369-376 | the iterator goes vertex by vertex: the particles of two vertex sequences joined are those of the first followed by those of the second |
| Traversal.ParticlesOfBlock | HepMC/GenVertex.h:369-376 | the particles yielded at the i-th vertex form one block, after those of the earlier vertices and before those of the later ones |
| Traversal.ParticleRange | HepMC/GenVertex.h:369-376 | for a one-step range the particle iterator is the root's edge iterator for that range; for a recursive range it yields no particle twice, and exactly the particles whose owner the vertex range visits, that is whose owner is reachable from the root; the order is given by ParticleRangeBlocks |
| Traversal.ParticleRangeBlocks | HepMC/GenVertex.h:369-376 | for a recursive range the particles come vertex by vertex along the vertex range: the block of the i-th vertex (its orphaned parents, then its children) follows those of the vertices before it and precedes those after it |
| Traversal.TwoCycle | HepMC/GenVertex.h:302-304 | a well-formed graph of two vertices feeding each other |
| Traversal.TwoCycleWalks | HepMC/GenVertex.h:296-304 | on that cycle the descendants and ancestors walks from vertex 1 yield [2, 1] and the particle walk yields each particle once |
| GenRanges.Particles | src/GenRanges.cc:20 | GenVertex::particles(range) ranges over that vertex with that range, relatives by default |
| GenRanges.ParticlesIn | src/GenRanges.cc:27-28 | GenParticle::particles_in stores the particle and range, relatives by default |
| GenRanges.ParticlesOut | src/GenRanges.cc:29-30 | GenParticle::particles_out stores the particle and range, relatives by default |
| GenRanges.VertexParticlesIn | src/GenRanges.cc:21-22 | GenVertex::particles_in(p, range) is p's production range, whatever vertex it is called on |
| GenRanges.VertexParticlesOut | src/GenRanges.cc:23-24 | GenVertex::particles_out(p, range) is p's end range, whatever vertex it is called on |
| GenRanges.VertexRangeItems | src/GenRanges.cc:47-48 | a vertex particle range yields that vertex's particle iterator: its edge iterator for a one-step range; for a recursive range the particles of the vertex range's vertices, vertex by vertex in that order (orphaned parents, then children, at each), no particle twice, exactly the particles owned by the visited vertices |
| GenRanges.AnchorVertex | HepMC/GenRanges.h:78-131 | a production range starts from the production vertex, an end range from the end vertex |
| GenRanges.ParticleRangeItems | src/GenRanges.cc:55-89 | a production or end range raises range_error exactly when the particle lacks that vertex, with the adaptor's message; otherwise it yields that vertex's particle iterator for the stored range |
| GenRanges.ProductionRangeHoldsParticle | src/GenRanges.cc:55-62 | a particle with a production vertex is among the particles of its own production range whenever the range follows children or is recursive |
| GenRanges.ProductionParentsRange | src/GenRanges.cc:55-62 | with the parents range, a production range holds its particle exactly when the particle also ends at its production vertex |
| GenRanges.EndRangeHoldsParticle | src/GenRanges.cc:73-80 | a particle with an end vertex is among the particles of its end range whenever the range follows parents |
| GenRanges.MissingVertexFails | src/GenRanges.cc:55-89 | without the vertex every flavour of adaptor fails, with the message of its flavour |
| TempParticles.Empty | HepMC/TempParticleMap.h:30-32 | a fresh table reports 0 for every particle and has an empty order |
| TempParticles.EndVertex | HepMC/TempParticleMap.h:39-41 | end_vertex returns the recorded code, or 0 for a particle never added |
| TempParticles.AddEndParticle | HepMC/TempParticleMap.h:44-47 | addEndParticle records the code for p and files p under its barcode, overwriting earlier entries, leaving every other entry unchanged |
| TempParticles.Order | HepMC/TempParticleMap.h:26-37 | order iteration visits every filed (barcode, particle) pair once, in strictly ascending barcode |
| TempParticles.SortedKeys | HepMC/TempParticleMap.h:26 | the keys of the int-keyed map in strictly ascending order |
| TempParticles.AddThenFind | HepMC/TempParticleMap.h:39-47 | after addEndParticle the particle's code is found and its barcode entry is in the order |
| StreamHelpers.OutputReal | HepMC/StreamHelpers.h:36-57 | a double or float is written as a space then its text: exact zero as " 0", any other value as the stream's rendering of it; a failed stream is left untouched |
| StreamHelpers.OutputInt | HepMC/StreamHelpers.h:60-81 | an int or long is written as a space then its decimal form; a failed stream is left untouched |
| StreamHelpers.OutputChar | HepMC/StreamHelpers.h:84-93 | a char is written as itself with no separator, NUL as a space; a failed stream is left untouched |
| StreamHelpers.OutputCharInjective | HepMC/StreamHelpers.h:84-93 | two chars give the same output exactly when they are equal or are NUL and space |
| StreamHelpers.DecimalString | HepMC/StreamHelpers.h:60-81 | the decimal text of an integer is non-empty and holds no space |
| StreamHelpers.OutputRealRoundTrip | HepMC/StreamHelpers.h:36-57 | the field written for a real reads back as that real, leaving the text after it, when the rendering of non-zero values reads back and the token "0" reads as zero |
| StreamHelpers.OutputRealInjective | HepMC/StreamHelpers.h:36-57 | with such a rendering, the text written for a real determines the real |
| StreamHelpers.DecimalRoundTrip | HepMC/StreamHelpers.h:60-81 | parsing the decimal text of an integer gives the integer back |
| StreamHelpers.OutputInts | HepMC/StreamHelpers.h:60-81 | integer fields written one after another leave a good stream good with the text extended by a space and the decimal form of each integer in turn; a failed stream stays failed |
| StreamHelpers.OutputIntsRoundTrip | HepMC/StreamHelpers.h:60-81 | a sequence of integers written one after another on a good stream is read back exactly |
| Pdf.Default | HepMC/PdfInfo.h:37-47 | the default record is not valid, and agrees field by field with exactly the records that are not valid |
| Pdf.Make | HepMC/PdfInfo.h:164-176 | the valued constructor stores its arguments, with pdf_id1 and pdf_id2 defaulting to 0 |
| Pdf.IsValid | HepMC/PdfInfo.h:224-236 | is_valid holds exactly when the record is not the all-zero record |
| Pdf.IsValidIffNotDefault | HepMC/PdfInfo.h:224-236 | is_valid holds exactly when some field is non-zero, that is when the record differs from the default |
| Pdf.Equal | HepMC/PdfInfo.h:210-222 | == holds exactly when all nine fields agree |
| Pdf.NotEqual | HepMC/PdfInfo.h:72 | != is the negation of == |
| Pdf.Swap | HepMC/PdfInfo.h:197-208 | swap exchanges all nine fields |
| Pdf.SwapTwice | HepMC/PdfInfo.h:197-208 | swapping twice restores both records |
| Pdf.Copy | HepMC/PdfInfo.h:178-188 | the copy constructor copies all nine fields |
| Pdf.Assign | HepMC/PdfInfo.h:190-195 | after a = b, a == b |
| Pdf.SetId1 | HepMC/PdfInfo.h:106 | set_id1 changes exactly the id1 field |
| Pdf.SetId2 | HepMC/PdfInfo.h:109 | set_id2 changes exactly the id2 field |
| Pdf.SetPdfId1 | HepMC/PdfInfo.h:112 | set_pdf_id1 changes exactly the pdf_id1 field |
| Pdf.SetPdfId2 | HepMC/PdfInfo.h:115 | set_pdf_id2 changes exactly the pdf_id2 field |
| Pdf.SetX1 | HepMC/PdfInfo.h:118 | set_x1 changes exactly the x1 field |
| Pdf.SetX2 | HepMC/PdfInfo.h:121 | set_x2 changes exactly the x2 field |
| Pdf.SetScalePdf | HepMC/PdfInfo.h:124 | set_scalePDF changes exactly the scale field |
| Pdf.SetPdf1 | HepMC/PdfInfo.h:127 | set_pdf1 changes exactly the pdf1 field |
| Pdf.SetPdf2 | HepMC/PdfInfo.h:130 | set_pdf2 changes exactly the pdf2 field |

## Left out

- The bodies of `GenVertex.cc`, `GenParticle.cc` and `GenEvent.cc` are not part of this model. The vertex operations and the particle iterator follow the documented behaviour in the headers. For example, `add_particle_out` first detaches the particle from its old production vertex, and the particle iterator yields orphaned parents then children at every visited vertex of a recursive range, vertex by vertex (`Traversal.ParticleRangeBlocks`). For a one-step range it is the edge iterator, as the note at `HepMC/GenVertex.h:222-226` says.
- Traversal.Neighbours: for a one-step range the neighbours the walk does not yet know are yielded as leaves before the root. The header fixes post order and "root last" but not the order of siblings; the model takes edge-iterator order.
- Null pointers: every handle passed to an operation is assumed to name a record of the graph. Null pointers are absent; a missing production or end vertex is `None`.
- GenVertex.ParticlesInSize: the source converts the vector size to `int`; a list longer than `INT_MAX` is not modelled. The same holds for GenVertex.ParticlesOutSize and Traversal.EdgesSize.
- GenParticle.AbsPid: `std::abs(INT_MIN)` is undefined behaviour in the source; unbounded integers do not model it.
- GenParticle.SuggestBarcode: the event's automatic barcode allocation and its bookkeeping maps live in `GenEvent`, which is not part of this model. Acceptance is stated over a minimal event made of the vertices and particles whose `inEvent` flag holds. The same holds for GenVertex.SuggestVertexBarcode.
- The event-wide ranges (`GenEvent::vertex_range`, `vertices`, `particle_range`, `particles`, `src/GenRanges.cc:10-18` and `src/GenRanges.cc:34-44`) iterate over `GenEvent`'s containers, which are not part of this model. `vertices()` and `particles()` are plain aliases of `vertex_range()` and `particle_range()`.
- Floating point: doubles and floats are `real`. NaN, infinities, negative zero and the double/float distinction are not modelled. `PdfInfo` only compares and copies them.
- StreamHelpers.OutputReal: the text of a non-zero value depends on the stream's precision and format flags. It is a parameter (`render`) and is not computed.
- Flow, polarization, weights, units and momentum-conservation checks are not modelled. Their setters (`set_flow`, `set_polarization`) are left out with them.
- Printing (`print`, `operator<<`), `IO_AsciiParticles`, `StreamInfo`, `read_vertex`, `read_particle` and `find_event_end` are left out. They are stream I/O or only declared.
- Iterator objects are left out: copying, shared versus owned visited sets, recursive sub-iterators and memory management. Each traversal is one pure function.
- TempParticles.Order: the `std::map` keyed by particle pointer has an address order that is not observable in the model, so only the barcode-ordered table is given an order.
