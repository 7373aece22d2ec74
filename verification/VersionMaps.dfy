/**
 Version maps with the "greater than" comparison (engine/version_map.h,
 engine/max_version_map.h): per peer, the highest transaction id known. The
 lemmas show that they form a join-semilattice whose order is coverage.
 */
module VersionMaps {
  import opened TransactionIds

  /** A canonical peer; the engine interns peer ids, so a peer is compared by identity. */
  type Peer = nat

  type VersionMap = map<Peer, Id>

  /** HasPeerTransactionId. */
  predicate Has(v: VersionMap, p: Peer, t: Id) {
    p in v && t <= v[p]
  }

  /** The map after AddPeerTransactionId. */
  function Added(v: VersionMap, p: Peer, t: Id): VersionMap {
    if p in v && !(t > v[p]) then v else v[p := t]
  }

  /** VersionMapIsLessThanOrEqual. */
  predicate Leq(a: VersionMap, b: VersionMap) {
    forall p | p in a :: p in b && a[p] <= b[p]
  }

  /** The pointwise maximum; a missing peer is below every id. */
  function Union(a: VersionMap, b: VersionMap): VersionMap {
    map p | p in a.Keys + b.Keys ::
      if p !in b || (p in a && a[p] > b[p]) then a[p] else b[p]
  }

  /** The order is coverage: a is below b when b has every transaction that a has. */
  lemma LeqIsCoverage(a: VersionMap, b: VersionMap)
    ensures Leq(a, b) <==> forall p, t | Has(a, p, t) :: Has(b, p, t)
  {
    if forall p, t | Has(a, p, t) :: Has(b, p, t) {
      forall p | p in a
        ensures p in b && a[p] <= b[p]
      {
        assert Has(a, p, a[p]);
      }
    }
  }

  lemma LeqAntisymmetric(a: VersionMap, b: VersionMap)
    requires Leq(a, b) && Leq(b, a)
    ensures a == b
  {
    assert a.Keys == b.Keys;
    assert forall p | p in a :: a[p] == b[p];
  }

  /** Union is the least upper bound. */
  lemma UnionIsLeastUpperBound(a: VersionMap, b: VersionMap, c: VersionMap)
    ensures Leq(a, Union(a, b)) && Leq(b, Union(a, b))
    ensures Leq(Union(a, b), c) <==> Leq(a, c) && Leq(b, c)
  {
    var u := Union(a, b);
    if Leq(u, c) {
      assert forall p | p in a :: p in u && a[p] <= u[p];
      assert forall p | p in b :: p in u && b[p] <= u[p];
    }
  }

  /** Adding one transaction joins the one-entry map, so it is monotone and idempotent. */
  lemma AddedIsUnion(v: VersionMap, p: Peer, t: Id)
    ensures Added(v, p, t) == Union(v, map[p := t])
    ensures Has(v, p, t) <==> Added(v, p, t) == v
    ensures Has(Added(v, p, t), p, t)
    ensures forall q: Peer, s: Id :: Has(Added(v, p, t), q, s) <==> Has(v, q, s) || (q == p && s <= t)
  {
    assert Added(v, p, t).Keys == Union(v, map[p := t]).Keys;
  }

  lemma LeqTransitive(a: VersionMap, b: VersionMap, c: VersionMap)
    requires Leq(a, b) && Leq(b, c)
    ensures Leq(a, c)
  {
  }

  lemma UnionExtends(a: VersionMap, b: VersionMap, p: Peer, t: Id)
    requires p !in b
    ensures Union(Union(a, b), map[p := t]) == Union(a, b[p := t])
  {
    var left, right := Union(Union(a, b), map[p := t]), Union(a, b[p := t]);
    assert left.Keys == right.Keys;
    assert forall q | q in left :: left[q] == right[q];
  }

  class MaxVersionMap {
    var peerTransactionIds: VersionMap

    constructor ()
      ensures peerTransactionIds == map[]
    {
      peerTransactionIds := map[];
    }

    method HasPeerTransactionId(p: Peer, t: Id) returns (has: bool)
      ensures has <==> Leq(map[p := t], peerTransactionIds)
    {
      if p !in peerTransactionIds {
        return false;
      }
      has := !(t > peerTransactionIds[p]);
    }

    method AddPeerTransactionId(p: Peer, t: Id)
      requires ValidId(t)
      modifies this
      ensures peerTransactionIds == Union(old(peerTransactionIds), map[p := t])
    {
      AddedIsUnion(peerTransactionIds, p, t);
      if p !in peerTransactionIds {
        peerTransactionIds := peerTransactionIds[p := t];
      } else if t > peerTransactionIds[p] {
        peerTransactionIds := peerTransactionIds[p := t];
      }
    }
  }

  method VersionMapIsLessThanOrEqual(a: VersionMap, b: VersionMap) returns (leq: bool)
    ensures leq <==> forall p, t | Has(a, p, t) :: Has(b, p, t)
  {
    LeqIsCoverage(a, b);
    var rest := a.Keys;
    while rest != {}
      invariant rest <= a.Keys
      invariant forall p | p in a.Keys - rest :: p in b && a[p] <= b[p]
      decreases rest
    {
      var p :| p in rest;
      if p !in b || a[p] > b[p] {
        assert !Leq(a, b);
        return false;
      }
      rest := rest - {p};
    }
    return true;
  }

  method GetVersionMapUnion(a: VersionMap, b: VersionMap) returns (out: VersionMap)
    requires forall p | p in b :: ValidId(b[p])
    ensures out == Union(a, b)
  {
    var result := new MaxVersionMap();
    result.peerTransactionIds := a;
    var rest := b.Keys;
    ghost var done: VersionMap := map[];
    assert a == Union(a, done);
    while rest != {}
      invariant rest <= b.Keys
      invariant done.Keys == b.Keys - rest
      invariant forall p | p in done :: done[p] == b[p]
      invariant result.peerTransactionIds == Union(a, done)
      decreases rest
    {
      var p :| p in rest;
      result.AddPeerTransactionId(p, b[p]);
      UnionExtends(a, done, p, b[p]);
      done := done[p := b[p]];
      rest := rest - {p};
    }
    assert done == b;
    out := result.peerTransactionIds;
  }
}
