/** Searching a particle vector (HepMC/SearchVector.h), plus the erase
    that the vertex's private removal helpers perform with its result. */
module SearchVector {
  import opened Wrappers
  import opened Sequences

  /** `not_in_vector`: true exactly when `p` does not occur in `v`. */
  function NotInVector<T(==)>(v: seq<T>, p: T): (r: bool)
    ensures r <==> p !in v
  {
    if |v| == 0 then true
    else v[0] != p && NotInVector(v[1..], p)
  }

  /** `already_in_vector`: the position of the first occurrence of `p`,
      or `None` (the end iterator) when `p` is absent. */
  function AlreadyInVector<T(==)>(v: seq<T>, p: T): (r: Option<nat>)
    ensures r.Some? ==> r.value < |v| && v[r.value] == p && p !in v[..r.value]
    ensures r.None? <==> NotInVector(v, p)
  {
    if |v| == 0 then None
    else if v[0] == p then Some(0)
    else
      match AlreadyInVector(v[1..], p)
      case None => None
      case Some(i) =>
        assert v[1..][..i] == v[1..i + 1];
        Some(i + 1)
  }

  /** Erases the first occurrence of `p`, as `erase(already_in_vector(v, p))`
      does; a vector without `p` is left as it is. */
  function EraseFirst<T(==,!new)>(v: seq<T>, p: T): (r: seq<T>)
    ensures p !in v ==> r == v
    ensures p in v ==> exists i :: 0 <= i < |v| && v[i] == p && p !in v[..i] && r == v[..i] + v[i + 1..]
    ensures multiset(r) == multiset(v) - multiset{p}
    ensures forall x :: x != p ==> (x in r <==> x in v)
    ensures NoDup(v) ==> NoDup(r) && p !in r
  {
    match AlreadyInVector(v, p)
    case None =>
      assert multiset(v) - multiset{p} == multiset(v) by {
        assert p !in multiset(v);
      }
      v
    case Some(i) =>
      EraseAtFacts(v, i);
      v[..i] + v[i + 1..]
  }

  /** Erasing an element that was appended to a list without it gives the
      list back. */
  lemma EraseAppended<T(!new)>(s: seq<T>, p: T)
    requires p !in s
    ensures EraseFirst(s + [p], p) == s
  {
    var v := s + [p];
    assert v[|s|] == p;
    assert v[..|s|] + v[|s| + 1..] == s;
  }

  lemma EraseAtFacts<T>(v: seq<T>, i: nat)
    requires i < |v|
    ensures multiset(v[..i] + v[i + 1..]) == multiset(v) - multiset{v[i]}
    ensures NoDup(v) ==> NoDup(v[..i] + v[i + 1..]) && v[i] !in v[..i] + v[i + 1..]
    ensures forall x :: x != v[i] ==> (x in v[..i] + v[i + 1..] <==> x in v)
  {
    EraseAtMultiset(v, i);
    if NoDup(v) {
      EraseAtNoDup(v, i);
    }
  }

  lemma EraseAtMultiset<T>(v: seq<T>, i: nat)
    requires i < |v|
    ensures multiset(v[..i] + v[i + 1..]) == multiset(v) - multiset{v[i]}
    ensures forall x :: x != v[i] ==> (x in v[..i] + v[i + 1..] <==> x in v)
  {
    assert v == v[..i] + [v[i]] + v[i + 1..];
    calc {
      multiset(v);
      multiset(v[..i] + [v[i]] + v[i + 1..]);
      multiset(v[..i]) + multiset{v[i]} + multiset(v[i + 1..]);
    }
    forall x | x != v[i]
      ensures x in v[..i] + v[i + 1..] <==> x in v
    {
      assert x in v <==> x in multiset(v);
      assert x in v[..i] + v[i + 1..] <==> x in multiset(v[..i] + v[i + 1..]);
    }
  }

  lemma EraseAtNoDup<T>(v: seq<T>, i: nat)
    requires i < |v| && NoDup(v)
    ensures NoDup(v[..i] + v[i + 1..]) && v[i] !in v[..i] + v[i + 1..]
  {
    var r := v[..i] + v[i + 1..];
    forall a, b | 0 <= a < b < |r|
      ensures r[a] != r[b]
    {
      var a' := if a < i then a else a + 1;
      var b' := if b < i then b else b + 1;
      assert r[a] == v[a'] && r[b] == v[b'];
    }
    forall k | 0 <= k < |r|
      ensures r[k] != v[i]
    {
      var k' := if k < i then k else k + 1;
      assert r[k] == v[k'];
    }
  }
}
