/** Parton-distribution information attached to an event (HepMC/PdfInfo.h).
    The double-precision members are plain reals: they are only stored,
    copied and compared, never computed with. */
module Pdf {

  datatype PdfInfo = PdfInfo(
    id1: int,         // flavour code of the first parton
    id2: int,         // flavour code of the second parton
    pdfId1: int,      // LHAPDF set id of the first parton
    pdfId2: int,      // LHAPDF set id of the second parton
    x1: real,         // beam momentum fraction of the first parton
    x2: real,         // beam momentum fraction of the second parton
    scalePdf: real,   // Q-scale of the evaluation
    pdf1: real,       // x*f(x) for (id1, x1, Q)
    pdf2: real        // x*f(x) for (id2, x2, Q)
  )

  /** The nine data members, used to say which of them differ. */
  datatype Field = Id1 | Id2 | PdfId1 | PdfId2 | X1 | X2 | ScalePdf | Pdf1 | Pdf2

  /** The members on which two records disagree. */
  function Differ(a: PdfInfo, b: PdfInfo): set<Field>
  {
    (if a.id1 != b.id1 then {Id1} else {}) +
    (if a.id2 != b.id2 then {Id2} else {}) +
    (if a.pdfId1 != b.pdfId1 then {PdfId1} else {}) +
    (if a.pdfId2 != b.pdfId2 then {PdfId2} else {}) +
    (if a.x1 != b.x1 then {X1} else {}) +
    (if a.x2 != b.x2 then {X2} else {}) +
    (if a.scalePdf != b.scalePdf then {ScalePdf} else {}) +
    (if a.pdf1 != b.pdf1 then {Pdf1} else {}) +
    (if a.pdf2 != b.pdf2 then {Pdf2} else {})
  }

  /** The default constructor: every member zero, hence not valid. */
  function Default(): (r: PdfInfo)
    ensures !IsValid(r)
    ensures forall b :: Differ(r, b) == {} <==> !IsValid(b)
  {
    PdfInfo(0, 0, 0, 0, 0.0, 0.0, 0.0, 0.0, 0.0)
  }

  /** The valued constructor; the two LHAPDF set ids default to zero. */
  function Make(i1: int, i2: int, x1: real, x2: real, q: real, p1: real, p2: real,
                pid1: int := 0, pid2: int := 0): (r: PdfInfo)
    ensures r.id1 == i1 && r.id2 == i2 && r.pdfId1 == pid1 && r.pdfId2 == pid2
    ensures r.x1 == x1 && r.x2 == x2 && r.scalePdf == q && r.pdf1 == p1 && r.pdf2 == p2
  {
    PdfInfo(i1, i2, pid1, pid2, x1, x2, q, p1, p2)
  }

  /** `is_valid`: the record carries some information, i.e. it is not the
      all-zero record the default constructor builds. */
  function IsValid(a: PdfInfo): (r: bool)
    ensures r <==> a != PdfInfo(0, 0, 0, 0, 0.0, 0.0, 0.0, 0.0, 0.0)
  {
    if a.id1 != 0 then true
    else if a.id2 != 0 then true
    else if a.pdfId1 != 0 then true
    else if a.pdfId2 != 0 then true
    else if a.x1 != 0.0 then true
    else if a.x2 != 0.0 then true
    else if a.scalePdf != 0.0 then true
    else if a.pdf1 != 0.0 then true
    else if a.pdf2 != 0.0 then true
    else false
  }

  /** `is_valid` holds exactly when the record differs from the default one. */
  lemma IsValidIffNotDefault(a: PdfInfo)
    ensures IsValid(a) <==> a != Default()
  {
  }

  /** `operator==`: member-wise comparison, which is exactly equality of
      records. */
  function Equal(a: PdfInfo, b: PdfInfo): (r: bool)
    ensures r <==> a == b
    ensures r <==> Differ(a, b) == {}
  {
    && b.id1 == a.id1 && b.id2 == a.id2
    && b.pdfId1 == a.pdfId1 && b.pdfId2 == a.pdfId2
    && b.x1 == a.x1 && b.x2 == a.x2
    && b.scalePdf == a.scalePdf && b.pdf1 == a.pdf1 && b.pdf2 == a.pdf2
  }

  /** `operator!=`: the negation of `operator==` with the operands swapped. */
  function NotEqual(a: PdfInfo, b: PdfInfo): (r: bool)
    ensures r <==> a != b
  {
    !Equal(b, a)
  }

  /** `swap`: exchanges every member of the two records. */
  function Swap(a: PdfInfo, b: PdfInfo): (r: (PdfInfo, PdfInfo))
    ensures Equal(r.0, b) && Equal(r.1, a)
  {
    (PdfInfo(b.id1, b.id2, b.pdfId1, b.pdfId2, b.x1, b.x2, b.scalePdf, b.pdf1, b.pdf2),
     PdfInfo(a.id1, a.id2, a.pdfId1, a.pdfId2, a.x1, a.x2, a.scalePdf, a.pdf1, a.pdf2))
  }

  /** Swapping twice restores both records. */
  lemma SwapTwice(a: PdfInfo, b: PdfInfo)
    ensures var (b', a') := Swap(a, b); Swap(b', a') == (a, b)
  {
  }

  /** The copy constructor. */
  function Copy(orig: PdfInfo): (r: PdfInfo)
    ensures Differ(r, orig) == {}
  {
    PdfInfo(orig.id1, orig.id2, orig.pdfId1, orig.pdfId2, orig.x1, orig.x2,
            orig.scalePdf, orig.pdf1, orig.pdf2)
  }

  /** Copy assignment `a = rhs`, written as copy-then-swap: the new value of
      `a` compares equal to `rhs`. */
  function Assign(a: PdfInfo, rhs: PdfInfo): (r: PdfInfo)
    ensures Equal(r, rhs)
  {
    var temp := Copy(rhs);
    Swap(a, temp).0
  }

  /** The setters: each stores its argument and leaves the other eight
      members alone. */
  function SetId1(a: PdfInfo, i: int): (r: PdfInfo)
    ensures r.id1 == i && Differ(a, r) <= {Id1}
  { a.(id1 := i) }

  function SetId2(a: PdfInfo, i: int): (r: PdfInfo)
    ensures r.id2 == i && Differ(a, r) <= {Id2}
  { a.(id2 := i) }

  function SetPdfId1(a: PdfInfo, i: int): (r: PdfInfo)
    ensures r.pdfId1 == i && Differ(a, r) <= {PdfId1}
  { a.(pdfId1 := i) }

  function SetPdfId2(a: PdfInfo, i: int): (r: PdfInfo)
    ensures r.pdfId2 == i && Differ(a, r) <= {PdfId2}
  { a.(pdfId2 := i) }

  function SetX1(a: PdfInfo, f: real): (r: PdfInfo)
    ensures r.x1 == f && Differ(a, r) <= {X1}
  { a.(x1 := f) }

  function SetX2(a: PdfInfo, f: real): (r: PdfInfo)
    ensures r.x2 == f && Differ(a, r) <= {X2}
  { a.(x2 := f) }

  function SetScalePdf(a: PdfInfo, f: real): (r: PdfInfo)
    ensures r.scalePdf == f && Differ(a, r) <= {ScalePdf}
  { a.(scalePdf := f) }

  function SetPdf1(a: PdfInfo, f: real): (r: PdfInfo)
    ensures r.pdf1 == f && Differ(a, r) <= {Pdf1}
  { a.(pdf1 := f) }

  function SetPdf2(a: PdfInfo, f: real): (r: PdfInfo)
    ensures r.pdf2 == f && Differ(a, r) <= {Pdf2}
  { a.(pdf2 := f) }
}
