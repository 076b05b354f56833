/** The six kinds of particle relationship a traversal can follow
    (HepMC/IteratorRange.h). */
module IteratorRanges {
  import opened Wrappers

  datatype IteratorRange = Parents | Children | Family | Ancestors | Descendants | Relatives
  {
    /** One-step ranges look only at the root vertex's own edges. */
    predicate IsOneStep()
    {
      Parents? || Children? || Family?
    }

    /** Recursive ranges keep following edges from every vertex reached. */
    predicate IsRecursive()
    {
      !IsOneStep()
    }

    /** Whether the range follows incoming edges (towards production vertices). */
    predicate FollowsParents()
    {
      Parents? || Family? || Ancestors? || Relatives?
    }

    /** Whether the range follows outgoing edges (towards end vertices). */
    predicate FollowsChildren()
    {
      Children? || Family? || Descendants? || Relatives?
    }

    /** The one-step range whose edges a recursive range follows at every
        vertex: ancestors through parents, descendants through children,
        relatives through the whole family. */
    function Step(): (r: IteratorRange)
      ensures r.IsOneStep()
      ensures r.FollowsParents() == FollowsParents()
      ensures r.FollowsChildren() == FollowsChildren()
    {
      match this
      case Parents | Ancestors => Parents
      case Children | Descendants => Children
      case Family | Relatives => Family
    }
  }

  /** The upper-case spellings are the same enumerators. */
  const PARENTS: IteratorRange := Parents
  const CHILDREN: IteratorRange := Children
  const FAMILY: IteratorRange := Family
  const ANCESTORS: IteratorRange := Ancestors
  const DESCENDANTS: IteratorRange := Descendants
  const RELATIVES: IteratorRange := Relatives

  /** The integer value of each enumerator. */
  function Value(r: IteratorRange): (n: int)
    ensures 0 <= n < 6
    ensures n < 3 <==> r.IsOneStep()
  {
    match r
    case Parents => 0
    case Children => 1
    case Family => 2
    case Ancestors => 3
    case Descendants => 4
    case Relatives => 5
  }

  /** The enumerator with a given integer value, if there is one. */
  function FromValue(n: int): (r: Option<IteratorRange>)
    ensures r.Some? <==> 0 <= n < 6
    ensures r.Some? ==> Value(r.value) == n
  {
    if n == 0 then Some(Parents)
    else if n == 1 then Some(Children)
    else if n == 2 then Some(Family)
    else if n == 3 then Some(Ancestors)
    else if n == 4 then Some(Descendants)
    else if n == 5 then Some(Relatives)
    else None
  }

  /** Decoding a value gives back the enumerator: values are pairwise
      distinct, so the six names denote six different ranges. */
  lemma ValueRoundTrip(r: IteratorRange)
    ensures FromValue(Value(r)) == Some(r)
  {
    match r
    case Parents =>
    case Children =>
    case Family =>
    case Ancestors =>
    case Descendants =>
    case Relatives =>
  }

  /** Each alias has the value of its lower-case name. */
  lemma AliasValues()
    ensures Value(PARENTS) == 0 && Value(CHILDREN) == 1 && Value(FAMILY) == 2
    ensures Value(ANCESTORS) == 3 && Value(DESCENDANTS) == 4 && Value(RELATIVES) == 5
  {
  }
}
