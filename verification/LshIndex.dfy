/** The approximate index: hyperplane hashing into buckets, multi-probe candidates, exact scores. */
module LshIndex {
  import opened Prelude
  import opened Ranking
  import opened CanonicalSpec
  import opened TermEquality
  import opened FlatMatrix
  import opened ProbeKeys
  import opened Buckets
  import opened SemanticDomain
  import opened SemanticSearch
  import Vectors

  /** The row lies on the non-negative side of plane `b`. */
  predicate SignBit(planes: seq<real>, dim: nat, row: Row, b: nat) {
    var plane := RowAt(planes, dim, b);
    plane.Some? && Product(plane.value, row) >= 0.0
  }

  /** The first `b` sign bits of a row. */
  function HashTo(planes: seq<real>, dim: nat, row: Row, b: nat): Key {
    if b == 0 then {}
    else HashTo(planes, dim, row, b - 1) + (if SignBit(planes, dim, row, b - 1) then {b - 1} else {})
  }

  function Hasher(planes: seq<real>, dim: nat, bits: nat): Row -> Key { row => HashTo(planes, dim, row, bits) }

  lemma {:induction false} HashFits(planes: seq<real>, dim: nat, row: Row, b: nat)
    ensures Fits(HashTo(planes, dim, row, b), b)
  {
    if b > 0 { HashFits(planes, dim, row, b - 1); }
  }

  // ---------- The candidate pool ----------

  /** Positions whose bucket lies within `probes` bits of the query's. */
  function Near(p: Provider, h: Row -> Key, entries: seq<Term>, qv: Row, probes: nat): nat -> bool {
    (i: nat) => i < |entries| && Distance(h(VectorOf(p, entries[i])), h(qv)) <= probes
  }

  /** Of `n` positions those that are scored: the probed buckets, or all when the index is small or the pool too thin. */
  function Pool(n: nat, near: nat -> bool, exactBelow: nat, k: nat): seq<nat> {
    if n <= exactBelow then Upto(n)
    else
      var candidates := Filter(Upto(n), near);
      if |candidates| < k then Upto(n) else candidates
  }

  lemma PoolOk(n: nat, near: nat -> bool, exactBelow: nat, k: nat)
    ensures NoDup(Pool(n, near, exactBelow, k)) && Within(Pool(n, near, exactBelow, k), Upto(n))
    ensures Min(k, |Pool(n, near, exactBelow, k)|) == Min(k, n)
  {
    FilterNoDup(Upto(n), near);
    FilterIn(Upto(n), near);
    PoolIsSmaller(Pool(n, near, exactBelow, k), Upto(n));
  }

  /** Rank by rank the pool's results never beat the exact ones, and there are as many. */
  lemma LshNeverBeatsExact(score: nat -> real, n: nat, near: nat -> bool, exactBelow: nat, k: nat)
    ensures var lsh, exact := TopScores(score, Pool(n, near, exactBelow, k), k), TopScores(score, Upto(n), k);
      |lsh| == |exact| == Min(k, n) && forall r :: 0 <= r < |lsh| ==> lsh[r] <= exact[r]
  {
    var pool := Pool(n, near, exactBelow, k);
    PoolOk(n, near, exactBelow, k);
    forall r | 0 <= r < Min(k, n) ensures TopScores(score, pool, k)[r] <= TopScores(score, Upto(n), k)[r] {
      PoolNeverBeats(score, Upto(n), pool, r);
    }
  }

  /** The results are the exact ones exactly when the pool covers them. */
  lemma LshIsExactIff(score: nat -> real, n: nat, near: nat -> bool, exactBelow: nat, k: nat)
    requires n > 0 && k >= 1
    ensures var pool := Pool(n, near, exactBelow, k);
      TopScores(score, pool, k) == TopScores(score, Upto(n), k) <==> Covers(score, Upto(n), pool, Min(k, n))
  {
    var pool := Pool(n, near, exactBelow, k);
    PoolOk(n, near, exactBelow, k);
    PoolIsSmaller(pool, Upto(n));
    PoolMatchesIff(score, Upto(n), pool, Min(k, n));
  }

  /** A small index, a thin pool, or a pool that holds some exact best-`k` choice gives the exact results. */
  lemma LshExactCases(score: nat -> real, n: nat, near: nat -> bool, exactBelow: nat, k: nat, best: seq<nat>)
    requires k >= 1
    requires
      || n <= exactBelow
      || |Filter(Upto(n), near)| < k
      || (NoDup(best) && Within(best, Filter(Upto(n), near)) && Ranked(score, best) == TopScores(score, Upto(n), k))
    ensures TopScores(score, Pool(n, near, exactBelow, k), k) == TopScores(score, Upto(n), k)
  {
    var pool := Pool(n, near, exactBelow, k);
    PoolOk(n, near, exactBelow, k);
    if pool != Upto(n) {
      PoolHoldsTopSet(score, Upto(n), pool, best, k);
    }
  }

  lemma NeverBeats(hits: seq<SemanticHit>, score: nat -> real, n: nat, pool: seq<nat>)
    requires NoDup(pool) && Within(pool, Upto(n)) && |hits| <= |pool|
    requires forall j :: 0 <= j < |hits| ==> hits[j].score == Ranked(score, pool)[j]
    ensures |pool| <= n && forall j :: 0 <= j < |hits| ==> hits[j].score <= Ranked(score, Upto(n))[j]
  {
    PoolIsSmaller(pool, Upto(n));
    forall j | 0 <= j < |hits| ensures hits[j].score <= Ranked(score, Upto(n))[j] {
      PoolNeverBeats(score, Upto(n), pool, j);
    }
  }

  // ---------- The index ----------

  /** No two entries equal, row `i` is the embedding of entry `i`, and each row is in the bucket of its hash. */
  ghost predicate Stored(
      p: Provider, h: Row -> Key, entries: seq<Term>, values: seq<real>, table: Table)
  {
    && EntriesOk(p, entries) && RowMajor(values, p.dim, RowsOf(p, entries))
    && Bucketed(table, h, RowsOf(p, entries), |entries|)
  }

  lemma StoredPush(
      p: Provider, h: Row -> Key, entries: seq<Term>, values: seq<real>, table: Table, t: Term, v: Embedding)
    requires Stored(p, h, entries, values, table)
    requires EntriesOk(p, entries + [t]) && p.embedTerm(t) == Ok(v) && |v| == p.dim
    ensures Stored(p, h, entries + [t], values + v, Put(table, h(v), |entries|))
  {
    var rows := RowsOf(p, entries);
    HoldsPush(values, p.dim, rows, v);
    RowsPush(p, entries, t);
    BucketedPush(table, h, rows, v);
  }

  /** In any stored state a row index is in exactly one bucket, that of its hash, once. */
  lemma StoredRowOnce(
      p: Provider, h: Row -> Key, entries: seq<Term>, values: seq<real>, table: Table, k: Key, i: nat)
    requires Stored(p, h, entries, values, table)
    ensures i in BucketOf(table, k) <==> i < |entries| && h(VectorOf(p, entries[i])) == k
    ensures NoDup(BucketOf(table, k))
    ensures i < |entries| ==> RowAt(values, p.dim, i) == Some(VectorOf(p, entries[i]))
  {
    EachRowOnce(table, h, RowsOf(p, entries), k, i);
  }

  class LshSemanticIndex {
    const provider: Provider
    const dim: nat
    const bits: nat
    const probes: nat
    const exactBelow: nat
    /** Plane `b` at `[b * dim, (b + 1) * dim)`. */
    const planes: seq<real>
    var entries: seq<Term>
    var values: seq<real>
    var buckets: Table

    ghost predicate Settings() {
      && dim == provider.dim && KeepsDim(provider)
      && 1 <= bits <= 32 && probes <= Min(bits, 4) && |planes| == Span(bits, dim)
    }

    ghost predicate Valid()
      reads this
    {
      Settings() && Stored(provider, Hash(), entries, values, buckets)
    }

    function Hash(): Row -> Key { Hasher(planes, dim, bits) }

    /** The configured bits and probes are clamped; the plane weights are whatever the seed gives. */
    constructor (provider: Provider, bits: nat, probes: nat, exactBelow: nat, planes: seq<real>)
      requires KeepsDim(provider)
      requires |planes| == Span(Max(1, Min(bits, 32)), provider.dim)
      ensures Valid() && this.provider == provider && entries == []
      ensures this.bits == Max(1, Min(bits, 32)) && this.probes == Min(Min(probes, this.bits), 4)
      ensures this.exactBelow == exactBelow && this.planes == planes
    {
      this.provider := provider;
      dim := provider.dim;
      this.bits := Max(1, Min(bits, 32));
      this.probes := Min(Min(probes, Max(1, Min(bits, 32))), 4);
      this.exactBelow := exactBelow;
      this.planes := planes;
      entries := [];
      values := [];
      buckets := map[];
    }

    method HashRow(row: Row) returns (key: Key)
      requires Settings() && |row| == dim
      ensures key == Hash()(row)
    {
      key := {};
      for b := 0 to bits
        invariant key == HashTo(planes, dim, row, b)
      {
        SpanIs(b, dim);
        SpanIs(b + 1, dim);
        SpanGrows(b + 1, bits, dim);
        var plane := planes[b * dim..(b + 1) * dim];
        assert RowAt(planes, dim, b) == Some(plane);
        var dot := Vectors.DotSequential(plane, row);
        if dot >= 0.0 { key := key + {b}; }
      }
    }

    /** The table after hashing every stored row afresh. */
    method RebuildBuckets()
      requires Settings() && dim > 0 && RowMajor(values, dim, RowsOf(provider, entries))
      modifies this`buckets
      ensures Bucketed(buckets, Hash(), RowsOf(provider, entries), |entries|)
    {
      ghost var rows := RowsOf(provider, entries);
      buckets := map[];
      BucketedNothing(Hash(), rows);
      var start, i := 0, 0;
      while start + dim <= |values|
        invariant i <= |rows| && start == Span(i, dim)
        invariant Bucketed(buckets, Hash(), rows, i)
        decreases |values| - start
      {
        RowFits(rows, dim, i);
        BucketRow(start, i);
        start, i := start + dim, i + 1;
      }
      AllRowsSeen(rows, dim, i);
    }

    method BucketRow(start: nat, i: nat)
      requires Settings() && RowMajor(values, dim, RowsOf(provider, entries))
      requires i < |entries| && start == Span(i, dim) && start + dim <= |values|
      requires Bucketed(buckets, Hash(), RowsOf(provider, entries), i)
      modifies this`buckets
      ensures Bucketed(buckets, Hash(), RowsOf(provider, entries), i + 1)
    {
      ghost var rows := RowsOf(provider, entries);
      assert RowAt(values, dim, i) == Some(rows[i]);
      var key := HashRow(values[start..start + dim]);
      BucketedPut(buckets, Hash(), rows, i, key);
      buckets := Put(buckets, key, i);
    }

    method Upsert(term: Term) returns (r: Result<(), AiError>)
      requires Valid()
      modifies this
      ensures Valid()
      ensures entries == AfterUpsert(provider, old(entries), term)
      ensures r == UpsertResult(provider, old(entries), term)
    {
      if Has(entries, term) { return Ok(()); }
      var embedding :- provider.embedTerm(term);
      if |embedding| != dim { return Err(UpsertDimension); }
      Push(term, embedding);
      r := Ok(());
    }

    method Push(term: Term, embedding: Embedding)
      requires Valid() && !Has(entries, term) && provider.embedTerm(term) == Ok(embedding) && |embedding| == dim
      modifies this
      ensures Valid() && entries == old(entries) + [term]
    {
      PushKeepsOk(provider, entries, term);
      StoredPush(provider, Hash(), entries, values, buckets, term, embedding);
      var idx := |entries|;
      entries := entries + [term];
      values := values + embedding;
      var key := HashRow(embedding);
      buckets := Put(buckets, key, idx);
    }

    method Remove(term: Term)
      requires Valid()
      modifies this
      ensures Valid()
      ensures entries == AfterRemove(old(entries), term)
    {
      if Has(entries, term) {
        var idx := FirstEqual(entries, term);
        DropRow(idx);
        SwapRemoveKeepsOk(provider, old(entries), idx);
        RebuildBuckets();
      }
    }

    method DropRow(idx: nat)
      requires Valid() && idx < |entries|
      modifies this`entries, this`values
      ensures dim > 0 && entries == SwapRemove(old(entries), idx)
      ensures RowMajor(values, dim, RowsOf(provider, entries))
    {
      assert Embeds(provider, entries[idx]);
      RowsDrop(provider, entries, values, idx);
      var start, len := idx * dim, |values|;
      var moved := CopyLast(values, dim, start);
      entries, values := SwapRemove(entries, idx), moved[..len - dim];
    }

    // ---------- Search ----------

    /** The best `k` of the candidate pool, `k` clamped into `[1, 100]`. */
    method Search(query: Embedding, k: nat) returns (r: Result<seq<SemanticHit>, AiError>)
      requires Valid()
      ensures entries == [] ==> r == Ok([])
      ensures entries != [] && |query| != dim ==> r == Err(SearchDimension)
      ensures entries != [] && |query| == dim ==>
        match provider.normalize(query)
        case Err(e) => r == Err(e)
        case Ok(q) =>
          r.Ok? && BestOf(r.value, entries, ScoreAgainst(provider, entries, q), PoolFor(q, ClampK(k)), ClampK(k))
      ensures r.Ok? && entries != [] ==>
        |r.value| == if k == 0 then 1 else if k <= 100 then Min(k, |entries|) else Min(100, |entries|)
      ensures r.Ok? && entries != [] ==>
        var q := provider.normalize(query).value;
        var c := if k == 0 then 1 else if k <= 100 then k else 100;
        forall j :: 0 <= j < |r.value| ==>
          && j < |PoolFor(q, c)| && r.value[j].score == Ranked(ScoreAgainst(provider, entries, q), PoolFor(q, c))[j]
          && r.value[j].score <= Ranked(ScoreAgainst(provider, entries, q), Upto(|entries|))[j]
    {
      var k := ClampK(k);
      if entries == [] { return Ok([]); }
      if |query| != dim { return Err(SearchDimension); }
      var q :- provider.normalize(query);
      var hits := Answer(q, k);
      BestRanks(hits, entries, ScoreAgainst(provider, entries, q), PoolFor(q, k), k);
      PoolOk(|entries|, Near(provider, Hash(), entries, q, probes), exactBelow, k);
      NeverBeats(hits, ScoreAgainst(provider, entries, q), |entries|, PoolFor(q, k));
      r := Ok(hits);
    }

    method Answer(q: Embedding, k: nat) returns (hits: seq<SemanticHit>)
      requires Valid() && entries != [] && |q| == dim && k >= 1
      ensures BestOf(hits, entries, ScoreAgainst(provider, entries, q), PoolFor(q, k), k)
    {
      if |entries| <= exactBelow {
        hits := ScanAll(q, k);
      } else {
        var candidates := Gather(q);
        CandidatesAreNear(provider, Hash(), entries, candidates, q, probes);
        if |candidates| < k {
          hits := ScanAll(q, k);
        } else {
          hits := ScanSome(q, k, candidates);
        }
      }
    }

    function PoolFor(q: Embedding, k: nat): seq<nat>
      reads this
    {
      Pool(|entries|, Near(provider, Hash(), entries, q, probes), exactBelow, k)
    }

    method ScanAll(q: Embedding, k: nat) returns (hits: seq<SemanticHit>)
      requires Valid() && entries != [] && |q| == dim && k >= 1
      ensures BestOf(hits, entries, ScoreAgainst(provider, entries, q), Upto(|entries|), k)
    {
      var scored := ScoreAll(values, dim, q, false, RowsOf(provider, entries));
      hits := Finish(provider, entries, scored, k, Upto(|entries|), q);
    }

    method ScanSome(q: Embedding, k: nat, candidates: seq<nat>) returns (hits: seq<SemanticHit>)
      requires Valid() && |q| == dim && 1 <= k <= |candidates|
      requires Gathered(candidates, provider, Hash(), entries, q, probes)
      ensures BestOf(hits, entries, ScoreAgainst(provider, entries, q),
                     Filter(Upto(|entries|), Near(provider, Hash(), entries, q, probes)), k)
    {
      CandidatesAreNear(provider, Hash(), entries, candidates, q, probes);
      var scored := ScoreRows(values, dim, q, candidates, RowsOf(provider, entries));
      hits := Finish(provider, entries, scored, k, candidates, q);
      BestOfSameSet(hits, entries, ScoreAgainst(provider, entries, q), candidates,
                    Filter(Upto(|entries|), Near(provider, Hash(), entries, q, probes)), k);
    }

    /** Add the bucket of one more key. */
    method Visit(candidates: seq<nat>, seen: set<nat>, keys: seq<Key>, j: nat) returns (c: seq<nat>, s: set<nat>)
      requires Valid() && j < |keys| && Collected(candidates, seen, Hash(), RowsOf(provider, entries), keys[..j])
      ensures Collected(c, s, Hash(), RowsOf(provider, entries), keys[..j + 1])
    {
      c, s := candidates, seen;
      if keys[j] in buckets {
        c, s := AddUnseen(candidates, seen, buckets[keys[j]]);
      }
      assert Extended(c, s, candidates, BucketOf(buckets, keys[j]));
      CollectStep(candidates, seen, c, s, Hash(), RowsOf(provider, entries), keys, j, buckets);
    }

    /** The indices in the probed buckets, each once. */
    method Gather(qv: Row) returns (candidates: seq<nat>)
      requires Valid() && |qv| == dim
      ensures Gathered(candidates, provider, Hash(), entries, qv, probes)
    {
      var key := HashRow(qv);
      var keys := Probe(key, bits, probes);
      var seen: set<nat> := {};
      candidates := [];
      for j := 0 to |keys|
        invariant Collected(candidates, seen, Hash(), RowsOf(provider, entries), keys[..j])
      {
        candidates, seen := Visit(candidates, seen, keys, j);
      }
      assert keys[..|keys|] == keys;
      GatheredAll(candidates, seen, provider, planes, dim, bits, entries, qv, probes, keys);
    }
  }

  /** `candidates` lists, once each, the entries whose bucket is within `probes` bits of the query's. */
  ghost predicate Gathered(
      candidates: seq<nat>, p: Provider, h: Row -> Key, entries: seq<Term>, qv: Row, probes: nat)
  {
    && NoDup(candidates)
    && forall i: nat :: i in candidates <==> Near(p, h, entries, qv, probes)(i)
  }

  lemma CandidatesAreNear(
      p: Provider, h: Row -> Key, entries: seq<Term>, candidates: seq<nat>, qv: Row, probes: nat)
    requires Gathered(candidates, p, h, entries, qv, probes)
    ensures InRange(candidates, |entries|)
    ensures var near := Filter(Upto(|entries|), Near(p, h, entries, qv, probes));
      NoDup(near) && Within(candidates, near) && Within(near, candidates) && |near| == |candidates|
  {
    var near := Filter(Upto(|entries|), Near(p, h, entries, qv, probes));
    FilterIn(Upto(|entries|), Near(p, h, entries, qv, probes));
    FilterNoDup(Upto(|entries|), Near(p, h, entries, qv, probes));
    forall j | 0 <= j < |candidates| ensures candidates[j] < |entries| { assert candidates[j] in candidates; }
    forall i | i in candidates ensures i in near { assert Upto(|entries|)[i] == i; }
    PoolIsSmaller(candidates, near);
    PoolIsSmaller(near, candidates);
  }

  /** The candidates so far are the rows that hash to one of `keys`. */
  ghost predicate Collected(candidates: seq<nat>, seen: set<nat>, h: Row -> Key, rows: seq<Row>, keys: seq<Key>) {
    && NoDup(candidates) && (forall i: nat :: i in seen <==> i in candidates)
    && forall i: nat :: i in candidates <==> i < |rows| && h(rows[i]) in keys
  }

  /** Adding the bucket of the next key collects that key. */
  lemma CollectStep(candidates: seq<nat>, seen: set<nat>, c: seq<nat>, s: set<nat>,
                    h: Row -> Key, rows: seq<Row>, keys: seq<Key>, j: nat, t: Table)
    requires j < |keys| && Collected(candidates, seen, h, rows, keys[..j]) && Bucketed(t, h, rows, |rows|)
    requires Extended(c, s, candidates, BucketOf(t, keys[j]))
    ensures Collected(c, s, h, rows, keys[..j + 1])
  {
    assert keys[..j + 1] == keys[..j] + [keys[j]];
    forall i: nat ensures i in BucketOf(t, keys[j]) <==> i < |rows| && h(rows[i]) == keys[j] {
      EachRowOnce(t, h, rows, keys[j], i);
    }
  }

  /** `c` is `candidates` and the indices in `more`, once each, and `s` its set. */
  ghost predicate Extended(c: seq<nat>, s: set<nat>, candidates: seq<nat>, more: seq<nat>) {
    && NoDup(c) && (forall i: nat :: i in s <==> i in c)
    && forall i: nat :: i in c <==> i in candidates || i in more
  }

  method AddUnseen(candidates: seq<nat>, seen: set<nat>, bucket: seq<nat>) returns (c: seq<nat>, s: set<nat>)
    requires NoDup(candidates) && forall i: nat :: i in seen <==> i in candidates
    ensures Extended(c, s, candidates, bucket)
  {
    c, s := candidates, seen;
    for m := 0 to |bucket|
      invariant Extended(c, s, candidates, bucket[..m])
    {
      assert bucket[..m + 1] == bucket[..m] + [bucket[m]];
      if bucket[m] !in s {
        c, s := c + [bucket[m]], s + {bucket[m]};
      }
    }
    assert bucket[..|bucket|] == bucket;
  }

  lemma GatheredAll(
      candidates: seq<nat>, seen: set<nat>, p: Provider, planes: seq<real>, dim: nat, bits: nat,
      entries: seq<Term>, qv: Row, probes: nat, keys: seq<Key>)
    requires var h := Hasher(planes, dim, bits);
      Collected(candidates, seen, h, RowsOf(p, entries), keys) && keys == Ball(Masked(h(qv), bits), bits, probes)
    ensures Gathered(candidates, p, Hasher(planes, dim, bits), entries, qv, probes)
  {
    var h, rows := Hasher(planes, dim, bits), RowsOf(p, entries);
    HashFits(planes, dim, qv, bits);
    assert Masked(h(qv), bits) == h(qv);
    forall i | 0 <= i < |rows| ensures h(rows[i]) in keys <==> Near(p, h, entries, qv, probes)(i) {
      HashFits(planes, dim, rows[i], bits);
      BallIff(h(qv), bits, probes, h(rows[i]));
    }
  }
}
