/** Multi-probe bucket enumeration. A bucket key is the set of positions of its 1 bits. */
module ProbeKeys {
  import opened Prelude

  type Key = set<nat>

  /** `k ^ (1 << p)`. */
  function Flip(k: Key, p: nat): Key { if p in k then k - {p} else k + {p} }

  /** The positions where two keys differ; their Hamming distance is the number of them. */
  function Differ(a: Key, b: Key): Key { set p | p in a + b && !(p in a && p in b) }

  function Distance(a: Key, b: Key): nat { |Differ(a, b)| }

  /** `k & ((1 << bits) - 1)`. */
  function Masked(k: Key, bits: nat): Key { set p | p in k && p < bits }

  predicate Fits(k: Key, bits: nat) { forall p :: p in k ==> p < bits }

  /** `k` with the chosen positions flipped, one after the other. */
  function FlipAll(k: Key, combo: seq<nat>): Key {
    if combo == [] then k else Flip(FlipAll(k, combo[..|combo| - 1]), combo[|combo| - 1])
  }

  /** Every key that differs from `key` in exactly `r` positions of `[start, n)`, in order of enumeration. */
  function KeysFrom(key: Key, n: nat, start: nat, r: nat): seq<Key>
    decreases n - start
  {
    if r == 0 then [key]
    else if start >= n then []
    else KeysFrom(Flip(key, start), n, start + 1, r - 1) + KeysFrom(key, n, start + 1, r)
  }

  /** The keys to probe: distance 0, then 1, up to `probes`. */
  function Ball(base: Key, n: nat, probes: nat): seq<Key> {
    if probes == 0 then [base] else Ball(base, n, probes - 1) + KeysFrom(base, n, 0, probes)
  }

  /** The enumeration in progress: the current combination and the keys emitted so far. */
  class ProbeWalk {
    const base: Key
    const bits: nat
    var combo: seq<nat>
    var keys: seq<Key>

    ghost predicate Valid()
      reads this
    {
      Fits(base, bits) && forall i :: 0 <= i < |combo| ==> combo[i] < bits
    }

    constructor (base: Key, bits: nat)
      requires Fits(base, bits)
      ensures Valid() && this.base == base && this.bits == bits && combo == [] && keys == [base]
    {
      this.base := base;
      this.bits := bits;
      combo := [];
      keys := [base];
    }

    method Emit()
      requires Valid()
      modifies this`keys
      ensures keys == old(keys) + [FlipAll(base, combo)]
    {
      var k := base;
      for i := 0 to |combo|
        invariant k == FlipAll(base, combo[..i])
      {
        assert combo[..i + 1][..i] == combo[..i];
        k := Flip(k, combo[i]);
      }
      assert combo[..|combo|] == combo;
      FlipAllMasked(base, combo, bits);
      assert Masked(k, bits) == k;
      keys := keys + [Masked(k, bits)];
    }

    method Combos(depth: nat, start: nat)
      requires Valid() && |combo| <= depth && start <= bits
      modifies this
      ensures Valid() && combo == old(combo)
      ensures keys == old(keys) + KeysFrom(FlipAll(base, combo), bits, start, depth - |combo|)
      decreases depth - |combo|, 1
    {
      if |combo| == depth {
        Emit();
        return;
      }
      ghost var key, r := FlipAll(base, combo), depth - |combo|;
      for i := start to bits
        invariant Valid() && combo == old(combo)
        invariant keys + KeysFrom(key, bits, i, r) == old(keys) + KeysFrom(key, bits, start, r)
      {
        Regroup(keys, KeysFrom(Flip(key, i), bits, i + 1, r - 1), KeysFrom(key, bits, i + 1, r));
        Extend(depth, i);
      }
    }

    /** Push one position, go on, and take it off again. */
    method Extend(depth: nat, i: nat)
      requires Valid() && |combo| < depth && i < bits
      modifies this
      ensures Valid() && combo == old(combo)
      ensures keys == old(keys) + KeysFrom(Flip(FlipAll(base, combo), i), bits, i + 1, depth - |combo| - 1)
      decreases depth - |combo|, 0
    {
      combo := combo + [i];
      assert combo[..|combo| - 1] == old(combo);
      Combos(depth, i + 1);
      combo := combo[..|combo| - 1];
    }
  }

  lemma Regroup(a: seq<Key>, b: seq<Key>, c: seq<Key>)
    ensures (a + b) + c == a + (b + c)
  {
  }

  method Probe(key: Key, bits: nat, probes: nat) returns (keys: seq<Key>)
    ensures keys == Ball(Masked(key, bits), bits, probes)
  {
    var base := Masked(key, bits);
    var walk := new ProbeWalk(base, bits);
    if probes == 0 { return walk.keys; }
    for depth := 1 to probes + 1
      invariant walk.Valid() && walk.base == base && walk.bits == bits && walk.combo == []
      invariant walk.keys == Ball(base, bits, depth - 1)
    {
      walk.Combos(depth, 0);
    }
    keys := walk.keys;
  }

  lemma {:induction false} FlipAllMasked(k: Key, combo: seq<nat>, bits: nat)
    requires Fits(k, bits) && forall i :: 0 <= i < |combo| ==> combo[i] < bits
    ensures Fits(FlipAll(k, combo), bits)
  {
    if combo != [] { FlipAllMasked(k, combo[..|combo| - 1], bits); }
  }

  // ---------- What is enumerated ----------

  /** `d` has exactly `r` positions, all in `[start, n)`. */
  ghost predicate Spread(d: Key, n: nat, start: nat, r: nat) {
    |d| == r && forall p :: p in d ==> start <= p < n
  }

  lemma DifferFlip(k: Key, key: Key, p: nat)
    ensures Differ(k, Flip(key, p)) == Flip(Differ(k, key), p)
  {
  }

  lemma DifferNothing(k: Key, key: Key)
    ensures Differ(k, key) == {} <==> k == key
  {
    if Differ(k, key) == {} {
      forall x ensures x in k <==> x in key {
        assert x !in Differ(k, key);
      }
    }
  }

  lemma SpreadStep(d: Key, n: nat, start: nat, r: nat)
    requires start < n && r > 0
    ensures Spread(d, n, start, r) <==>
      (if start in d then Spread(d - {start}, n, start + 1, r - 1) else Spread(d, n, start + 1, r))
  {
    if start in d {
      assert d == (d - {start}) + {start};
    }
  }

  /** With or without `start`: one of the two cases, never both. */
  lemma SpreadSplit(d: Key, n: nat, start: nat, r: nat)
    requires start < n && r > 0
    ensures Spread(d, n, start, r) <==> Spread(Flip(d, start), n, start + 1, r - 1) || Spread(d, n, start + 1, r)
    ensures !(Spread(Flip(d, start), n, start + 1, r - 1) && Spread(d, n, start + 1, r))
  {
    SpreadStep(d, n, start, r);
    assert start in d || start in Flip(d, start);
  }

  /** `k` differs from `key` in exactly `r` positions of `[start, n)`. */
  ghost predicate Reached(k: Key, key: Key, n: nat, start: nat, r: nat) { Spread(Differ(k, key), n, start, r) }

  lemma ReachedSplit(k: Key, key: Key, n: nat, start: nat, r: nat)
    requires start < n && r > 0
    ensures Reached(k, key, n, start, r) <==>
      Reached(k, Flip(key, start), n, start + 1, r - 1) || Reached(k, key, n, start + 1, r)
    ensures !(Reached(k, Flip(key, start), n, start + 1, r - 1) && Reached(k, key, n, start + 1, r))
  {
    DifferFlip(k, key, start);
    SpreadSplit(Differ(k, key), n, start, r);
  }

  lemma ReachedEnd(k: Key, key: Key, n: nat, start: nat, r: nat)
    requires r == 0 || start >= n
    ensures Reached(k, key, n, start, r) <==> r == 0 && k == key
  {
    DifferNothing(k, key);
    assert Differ(k, key) != {} ==> exists p :: p in Differ(k, key);
  }

  ghost predicate Emitted(k: Key, key: Key, n: nat, start: nat, r: nat) { k in KeysFrom(key, n, start, r) }

  lemma ListedSplit(k: Key, key: Key, n: nat, start: nat, r: nat)
    requires start < n && r > 0
    ensures Emitted(k, key, n, start, r) <==>
      Emitted(k, Flip(key, start), n, start + 1, r - 1) || Emitted(k, key, n, start + 1, r)
  {
  }

  lemma ListedEnd(k: Key, key: Key, n: nat, start: nat, r: nat)
    requires r == 0 || start >= n
    ensures Emitted(k, key, n, start, r) <==> r == 0 && k == key
  {
  }

  lemma {:induction false} KeysFromIff(key: Key, n: nat, start: nat, r: nat, k: Key)
    ensures Emitted(k, key, n, start, r) <==> Reached(k, key, n, start, r)
    decreases n - start
  {
    if r == 0 || start >= n {
      ReachedEnd(k, key, n, start, r);
      ListedEnd(k, key, n, start, r);
    } else {
      KeysFromIff(Flip(key, start), n, start + 1, r - 1, k);
      KeysFromIff(key, n, start + 1, r, k);
      ReachedSplit(k, key, n, start, r);
      ListedSplit(k, key, n, start, r);
    }
  }

  lemma JoinNoDup<T>(a: seq<T>, b: seq<T>)
    requires NoDup(a) && NoDup(b) && forall x :: x in a ==> x !in b
    ensures NoDup(a + b)
  {
    forall i, j | 0 <= i < j < |a + b| ensures (a + b)[i] != (a + b)[j] {
      if i < |a| <= j { assert a[i] in a && b[j - |a|] in b; }
    }
  }

  lemma BranchesApart(key: Key, n: nat, start: nat, r: nat, k: Key)
    requires r > 0 && start < n && k in KeysFrom(Flip(key, start), n, start + 1, r - 1)
    ensures k !in KeysFrom(key, n, start + 1, r)
  {
    KeysFromIff(Flip(key, start), n, start + 1, r - 1, k);
    KeysFromIff(key, n, start + 1, r, k);
    ReachedSplit(k, key, n, start, r);
  }

  lemma {:induction false} KeysFromNoDup(key: Key, n: nat, start: nat, r: nat)
    ensures NoDup(KeysFrom(key, n, start, r))
    decreases n - start
  {
    if r > 0 && start < n {
      var a, b := KeysFrom(Flip(key, start), n, start + 1, r - 1), KeysFrom(key, n, start + 1, r);
      KeysFromNoDup(Flip(key, start), n, start + 1, r - 1);
      KeysFromNoDup(key, n, start + 1, r);
      forall k | k in a ensures k !in b { BranchesApart(key, n, start, r, k); }
      JoinNoDup(a, b);
    }
  }

  /** Binomial coefficient. */
  function Choose(n: nat, k: nat): nat {
    if k == 0 then 1 else if n == 0 then 0 else Choose(n - 1, k - 1) + Choose(n - 1, k)
  }

  lemma {:induction false} KeysFromCount(key: Key, n: nat, start: nat, r: nat)
    ensures |KeysFrom(key, n, start, r)| == Choose(Monus(n, start), r)
    decreases n - start
  {
    if r > 0 && start < n {
      KeysFromCount(Flip(key, start), n, start + 1, r - 1);
      KeysFromCount(key, n, start + 1, r);
    }
  }

  function BallSize(n: nat, probes: nat): nat {
    Choose(n, probes) + (if probes == 0 then 0 else BallSize(n, probes - 1))
  }

  /** The probe list holds exactly the keys of `n` bits within the given distance, and nothing else. */
  lemma {:induction false} BallIff(base: Key, n: nat, probes: nat, k: Key)
    requires Fits(base, n)
    ensures k in Ball(base, n, probes) <==> Fits(k, n) && Distance(k, base) <= probes
  {
    InsideMask(base, n, k);
    if probes == 0 {
      DifferNothing(k, base);
    } else {
      BallIff(base, n, probes - 1, k);
      KeysFromIff(base, n, 0, probes, k);
    }
  }

  lemma InsideMask(base: Key, n: nat, k: Key)
    requires Fits(base, n)
    ensures Fits(k, n) <==> Fits(Differ(k, base), n)
  {
    if Fits(Differ(k, base), n) {
      forall p | p in k ensures p < n {
        if p !in base { assert p in Differ(k, base); }
      }
    }
  }

  /** Each key is probed once. */
  lemma {:induction false} BallNoDup(base: Key, n: nat, probes: nat)
    requires Fits(base, n)
    ensures NoDup(Ball(base, n, probes))
  {
    if probes > 0 {
      BallNoDup(base, n, probes - 1);
      KeysFromNoDup(base, n, 0, probes);
      forall k | k in Ball(base, n, probes - 1) ensures k !in KeysFrom(base, n, 0, probes) {
        BallIff(base, n, probes - 1, k);
        KeysFromIff(base, n, 0, probes, k);
      }
      JoinNoDup(Ball(base, n, probes - 1), KeysFrom(base, n, 0, probes));
    }
  }

  /** The number of probes is the sum of C(n, d) for d up to the radius. */
  lemma {:induction false} BallCount(base: Key, n: nat, probes: nat)
    ensures |Ball(base, n, probes)| == BallSize(n, probes)
  {
    if probes > 0 {
      BallCount(base, n, probes - 1);
      KeysFromCount(base, n, 0, probes);
    }
  }
}
