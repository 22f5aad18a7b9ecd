/** Hash keys and the candidate pool, said without their code. */
module LshFacts {
  import opened Prelude
  import opened CanonicalSpec
  import opened FlatMatrix
  import opened ProbeKeys
  import opened Buckets
  import opened SemanticDomain
  import opened SemanticSearch
  import opened LshIndex

  /** The row is on the non-negative side of the plane with these weights. */
  ghost predicate OnSide(planes: seq<real>, dim: nat, row: Row, b: nat) {
    dim * b + dim <= |planes| && Product(planes[dim * b..dim * b + dim], row) >= 0.0
  }

  lemma {:induction false} SpanTimes(i: nat, dim: nat)
    ensures Span(i, dim) == dim * i
  {
    if i > 0 { SpanTimes(i - 1, dim); }
  }

  lemma PlaneAt(planes: seq<real>, dim: nat, row: Row, b: nat)
    ensures SignBit(planes, dim, row, b) <==> OnSide(planes, dim, row, b)
  {
    SpanTimes(b, dim);
    SpanTimes(b + 1, dim);
  }

  /** Bit `b` of a hash key says on which side of plane `b` the row is. */
  lemma {:induction false} HashBits(planes: seq<real>, dim: nat, row: Row, bits: nat, b: nat)
    ensures b in HashTo(planes, dim, row, bits) <==> b < bits && OnSide(planes, dim, row, b)
  {
    if bits > 0 {
      HashBits(planes, dim, row, bits - 1, b);
      PlaneAt(planes, dim, row, bits - 1);
    }
  }

  /** The planes that have the two rows on different sides. */
  ghost function Between(planes: seq<real>, dim: nat, bits: nat, x: Row, y: Row): set<nat> {
    set b: nat | b < bits && OnSide(planes, dim, x, b) != OnSide(planes, dim, y, b)
  }

  /** An entry is near when at most `probes` planes run between it and the query. */
  lemma NearIff(
      p: Provider, planes: seq<real>, dim: nat, bits: nat, entries: seq<Term>, q: Row, probes: nat, i: nat)
    ensures Near(p, Hasher(planes, dim, bits), entries, q, probes)(i) <==>
      i < |entries| && |Between(planes, dim, bits, VectorOf(p, entries[i]), q)| <= probes
  {
    if i < |entries| {
      var x := VectorOf(p, entries[i]);
      var kx, kq := HashTo(planes, dim, x, bits), HashTo(planes, dim, q, bits);
      forall b: nat
        ensures b in kx <==> b < bits && OnSide(planes, dim, x, b)
        ensures b in kq <==> b < bits && OnSide(planes, dim, q, b)
      {
        HashBits(planes, dim, x, bits, b);
        HashBits(planes, dim, q, bits, b);
      }
      assert Differ(kx, kq) == Between(planes, dim, bits, x, q);
    }
  }

  function NearBelow(n: nat, near: nat -> bool): set<nat> { set i: nat | i < n && near(i) }

  /** Only the near entries are scored when the index is not small and at least `k` are near, and otherwise all. */
  lemma PoolIff(n: nat, near: nat -> bool, exactBelow: nat, k: nat, i: nat)
    ensures i in Pool(n, near, exactBelow, k) <==>
      i < n && (n <= exactBelow || |NearBelow(n, near)| < k || near(i))
  {
    var candidates := Filter(Upto(n), near);
    FilterIn(Upto(n), near);
    FilterNoDup(Upto(n), near);
    NearCount(candidates, n, near);
    assert i < n ==> Upto(n)[i] == i;
  }

  lemma NearCount(candidates: seq<nat>, n: nat, near: nat -> bool)
    requires NoDup(candidates) && forall i: nat :: i in candidates <==> i in Upto(n) && near(i)
    ensures |candidates| == |NearBelow(n, near)|
  {
    forall i: nat ensures i in candidates <==> i in NearBelow(n, near) { assert i < n ==> Upto(n)[i] == i; }
    SizeOfList(candidates, NearBelow(n, near));
  }

  lemma {:induction false} SizeOfList(xs: seq<nat>, s: set<nat>)
    requires NoDup(xs) && forall x: nat :: x in xs <==> x in s
    ensures |xs| == |s|
  {
    if xs == [] {
      assert s == {};
    } else {
      var n := |xs| - 1;
      assert xs == xs[..n] + [xs[n]];
      assert xs[n] !in xs[..n];
      SizeOfList(xs[..n], s - {xs[n]});
    }
  }
}
