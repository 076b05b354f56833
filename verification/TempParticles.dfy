/** The reader's forward-reference table (HepMC/TempParticleMap.h): for each
    particle read so far, the end-vertex code its line named, and the
    particles keyed by barcode so they can be revisited in barcode order.
    Particles are identified by handle, as the source keys them by pointer. */
module TempParticles {

  /** Handle of a particle, standing for the source's `GenParticle*`. */
  type ParticleRef = int

  datatype TempParticleMap = TempParticleMap(
    endVertexOf: map<ParticleRef, int>,   // particle -> pending end-vertex code
    order: map<int, ParticleRef>          // barcode -> particle
  )

  /** The constructor: both tables start empty. */
  function Empty(): (m: TempParticleMap)
    ensures forall p :: EndVertex(m, p) == 0
    ensures |Order(m)| == 0
  {
    TempParticleMap(map[], map[])
  }

  /** `end_vertex(p)`: the code recorded for `p`, or 0 when `p` was never
      added. The lookup happens only after `find` succeeds, so a query never
      inserts an entry (the function leaves the table as it was). */
  function EndVertex(m: TempParticleMap, p: ParticleRef): (code: int)
    ensures p !in m.endVertexOf ==> code == 0
    ensures p in m.endVertexOf ==> code == m.endVertexOf[p]
  {
    if p in m.endVertexOf then m.endVertexOf[p] else 0
  }

  /** `addEndParticle(p, code)`: files `p` under its barcode and records its
      end-vertex code; a repeated call overwrites both entries. */
  function AddEndParticle(m: TempParticleMap, p: ParticleRef, barcode: int, code: int): (r: TempParticleMap)
    ensures forall q :: EndVertex(r, q) == (if q == p then code else EndVertex(m, q))
    ensures r.endVertexOf.Keys == m.endVertexOf.Keys + {p}
    ensures r.order.Keys == m.order.Keys + {barcode}
    ensures forall b :: b in r.order ==> r.order[b] == (if b == barcode then p else m.order[b])
  {
    TempParticleMap(m.endVertexOf[p := code], m.order[barcode := p])
  }

  /** `k` is the least element of `s`. */
  predicate IsLeast(s: set<int>, k: int)
  {
    k in s && forall j :: j in s ==> k <= j
  }

  /** The least element of a non-empty set of integers. */
  function Min(s: set<int>): (k: int)
    requires s != {}
    ensures k in s && forall j :: j in s ==> k <= j
  {
    MinExists(s);
    var k :| IsLeast(s, k);
    k
  }

  lemma {:induction false} MinExists(s: set<int>)
    requires s != {}
    ensures exists k :: IsLeast(s, k)
  {
    NonEmptyHasMember(s);
    var x :| x in s;
    if s == {x} {
      assert IsLeast(s, x);
    } else {
      var rest := s - {x};
      MinExists(rest);
      var m :| IsLeast(rest, m);
      if x < m {
        assert IsLeast(s, x) by {
          forall j | j in s
            ensures x <= j
          {
            if j != x {
              assert j in rest;
            }
          }
        }
      } else {
        assert IsLeast(s, m) by {
          forall j | j in s
            ensures m <= j
          {
            if j != x {
              assert j in rest;
            }
          }
        }
      }
    }
  }

  lemma NonEmptyHasMember(s: set<int>)
    requires s != {}
    ensures exists x :: x in s
  {
    if forall x :: x !in s {
      assert false;
    }
  }

  /** The keys of a set of integers in ascending order, the order in which a
      `std::map<int, ...>` is iterated. */
  function SortedKeys(s: set<int>): (r: seq<int>)
    ensures forall k :: k in r <==> k in s
    ensures forall i, j :: 0 <= i < j < |r| ==> r[i] < r[j]
    ensures |r| == |s|
    decreases s
  {
    if s == {} then []
    else
      var k := Min(s);
      var rest := SortedKeys(s - {k});
      PrependLeast(s, k, rest);
      [k] + rest
  }

  /** Putting the least element in front of the ascending listing of the
      others lists the whole set in ascending order. */
  lemma PrependLeast(s: set<int>, k: int, rest: seq<int>)
    requires IsLeast(s, k)
    requires forall x :: x in rest <==> x in s - {k}
    requires forall i, j :: 0 <= i < j < |rest| ==> rest[i] < rest[j]
    requires |rest| == |s - {k}|
    ensures forall x :: x in [k] + rest <==> x in s
    ensures forall i, j :: 0 <= i < j < |[k] + rest| ==> ([k] + rest)[i] < ([k] + rest)[j]
    ensures |[k] + rest| == |s|
  {
    var r := [k] + rest;
    assert forall i :: 1 <= i < |r| ==> r[i] == rest[i - 1];
    forall i | 0 <= i < |rest|
      ensures k < rest[i]
    {
      assert rest[i] in rest;
    }
  }

  /** Iteration from `order_begin()` to `order_end()`: the (barcode,
      particle) entries, by strictly ascending barcode, each entry once. */
  function Order(m: TempParticleMap): (r: seq<(int, ParticleRef)>)
    ensures |r| == |m.order|
    ensures forall i, j :: 0 <= i < j < |r| ==> r[i].0 < r[j].0
    ensures forall b, p :: (b, p) in r <==> b in m.order && m.order[b] == p
  {
    var keys := SortedKeys(m.order.Keys);
    var r := Entries(m.order, keys);
    forall b, p | b in m.order && m.order[b] == p
      ensures (b, p) in r
    {
      var i :| 0 <= i < |keys| && keys[i] == b;
      assert r[i] == (b, p);
    }
    r
  }

  /** The entries of `mp` for the listed keys, in list order. */
  function Entries(mp: map<int, ParticleRef>, keys: seq<int>): (r: seq<(int, ParticleRef)>)
    requires forall i :: 0 <= i < |keys| ==> keys[i] in mp
    ensures |r| == |keys|
    ensures forall i :: 0 <= i < |r| ==> r[i] == (keys[i], mp[keys[i]])
    ensures forall b, p :: (b, p) in r ==> b in mp && mp[b] == p
  {
    if |keys| == 0 then [] else [(keys[0], mp[keys[0]])] + Entries(mp, keys[1..])
  }

  /** After the reader has added a particle it is found both by its handle
      and, when iteration reaches its barcode, in the order table. */
  lemma AddThenFind(m: TempParticleMap, p: ParticleRef, barcode: int, code: int)
    ensures var r := AddEndParticle(m, p, barcode, code);
      EndVertex(r, p) == code && (barcode, p) in Order(r)
  {
  }
}
