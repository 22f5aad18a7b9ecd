/** The part of a search that the exact and the approximate index share: scoring rows and picking the best. */
module SemanticSearch {
  import opened Prelude
  import opened Ranking
  import opened CanonicalSpec
  import opened TermEquality
  import opened FlatMatrix
  import opened SemanticDomain
  import Vectors

  function HitScores(hits: seq<SemanticHit>): (r: seq<real>)
    ensures |r| == |hits| && forall i :: 0 <= i < |hits| ==> r[i] == hits[i].score
  {
    seq(|hits|, i requires 0 <= i < |hits| => hits[i].score)
  }

  function HitTerms(hits: seq<SemanticHit>): (r: seq<Term>)
    ensures |r| == |hits| && forall i :: 0 <= i < |hits| ==> r[i] == hits[i].term
  {
    seq(|hits|, i requires 0 <= i < |hits| => hits[i].term)
  }

  /** Hit `j` is the entry at position `chosen[j]` of the pool, with its own score; no position is chosen twice. */
  ghost predicate Chosen(
      hits: seq<SemanticHit>, entries: seq<Term>, score: nat -> real, pool: seq<nat>, chosen: seq<nat>)
  {
    && |chosen| == |hits| && NoDup(chosen)
    && forall j :: 0 <= j < |hits| ==>
         chosen[j] in pool && chosen[j] < |entries| && hits[j] == SemanticHit(entries[chosen[j]], score(chosen[j]))
  }

  /** The best `k` of the pool of positions: different entries, each with its own score, best first. */
  ghost predicate BestOf(hits: seq<SemanticHit>, entries: seq<Term>, score: nat -> real, pool: seq<nat>, k: nat) {
    && HitScores(hits) == TopScores(score, pool, k)
    && exists chosen: seq<nat> :: Chosen(hits, entries, score, pool, chosen)
  }

  lemma BestDescends(hits: seq<SemanticHit>, entries: seq<Term>, score: nat -> real, pool: seq<nat>, k: nat)
    requires BestOf(hits, entries, score, pool, k)
    ensures |hits| == Min(k, |pool|)
    ensures forall i, j :: 0 <= i <= j < |hits| ==> hits[i].score >= hits[j].score
  {
    forall i, j | 0 <= i <= j < |hits| ensures hits[i].score >= hits[j].score {
      RanksDescend(score, pool, i, j);
      assert HitScores(hits)[i] == Ranked(score, pool)[i] && HitScores(hits)[j] == Ranked(score, pool)[j];
    }
  }

  /** Rank by rank the hits score like the pool in descending order. */
  lemma BestRanks(hits: seq<SemanticHit>, entries: seq<Term>, score: nat -> real, pool: seq<nat>, k: nat)
    requires BestOf(hits, entries, score, pool, k)
    ensures |hits| == Min(k, |pool|)
    ensures forall j :: 0 <= j < |hits| ==> hits[j].score == Ranked(score, pool)[j]
  {
    forall j | 0 <= j < |hits| ensures hits[j].score == Ranked(score, pool)[j] {
      assert HitScores(hits)[j] == Ranked(score, pool)[j];
    }
  }

  /** Hits of an index are pairwise unequal terms. */
  lemma HitsApart(
      p: Provider, hits: seq<SemanticHit>, entries: seq<Term>, score: nat -> real, pool: seq<nat>, k: nat)
    requires BestOf(hits, entries, score, pool, k) && EntriesOk(p, entries)
    ensures Apart(HitTerms(hits))
  {
    var chosen: seq<nat> :| Chosen(hits, entries, score, pool, chosen);
    forall i, j | 0 <= i < j < |hits| ensures !Same(hits[i].term, hits[j].term) {
      assert chosen[i] != chosen[j] && !Same(entries[chosen[i]], entries[chosen[j]]);
    }
  }

  /** A duplicate-free list of `n` numbers below `n` has them all. */
  lemma AllChosen(chosen: seq<nat>, n: nat)
    requires NoDup(chosen) && |chosen| == n && InRange(chosen, n)
    ensures forall i: nat :: i < n ==> i in chosen
  {
    forall i: nat | i < n ensures i in chosen {
      if i !in chosen {
        forall x: nat | x in chosen + [i] ensures x in Upto(n) { assert Upto(n)[x] == x; }
        PoolIsSmaller(chosen + [i], Upto(n));
      }
    }
  }

  /** Positions that hold the same bits are two hits of the same bits. */
  lemma TwinsAreHits(
      hits: seq<SemanticHit>, entries: seq<Term>, score: nat -> real, pool: seq<nat>, chosen: seq<nat>, i: nat, j: nat)
    requires Chosen(hits, entries, score, pool, chosen)
    requires i in chosen && j in chosen && i < j < |entries| && entries[i] == entries[j]
    ensures !NoDup(HitTerms(hits))
  {
    var a :| 0 <= a < |chosen| && chosen[a] == i;
    var b :| 0 <= b < |chosen| && chosen[b] == j;
    assert HitTerms(hits)[a] == HitTerms(hits)[b];
  }

  /** Hits of different bits come from an index without repetition. */
  lemma HitsNoDup(hits: seq<SemanticHit>, entries: seq<Term>, score: nat -> real, pool: seq<nat>, k: nat)
    requires BestOf(hits, entries, score, pool, k) && NoDup(entries)
    ensures NoDup(HitTerms(hits))
  {
    var chosen: seq<nat> :| Chosen(hits, entries, score, pool, chosen);
    forall i, j | 0 <= i < j < |hits| ensures hits[i].term != hits[j].term {
      assert chosen[i] != chosen[j] && entries[chosen[i]] != entries[chosen[j]];
    }
  }

  /** A search for everything repeats a term exactly when the index does. */
  lemma HitsRepeatIff(hits: seq<SemanticHit>, entries: seq<Term>, score: nat -> real, k: nat)
    requires BestOf(hits, entries, score, Upto(|entries|), k) && k >= |entries|
    ensures NoDup(HitTerms(hits)) <==> NoDup(entries)
  {
    if NoDup(entries) { HitsNoDup(hits, entries, score, Upto(|entries|), k); }
    var chosen: seq<nat> :| Chosen(hits, entries, score, Upto(|entries|), chosen);
    AllChosen(chosen, |entries|);
    if i, j :| 0 <= i < j < |entries| && entries[i] == entries[j] {
      TwinsAreHits(hits, entries, score, Upto(|entries|), chosen, i, j);
    }
  }

  // ---------- Scored rows ----------

  ghost predicate InRange(idx: seq<nat>, n: nat) { forall j :: 0 <= j < |idx| ==> idx[j] < n }

  /** `scored` pairs each listed row with its product with the query. */
  ghost predicate ScoredRows(scored: seq<Scored<nat>>, idx: seq<nat>, rows: seq<seq<real>>, qv: seq<real>) {
    && |scored| == |idx| && InRange(idx, |rows|)
    && forall j :: 0 <= j < |idx| ==> scored[j] == Scored(Product(qv, rows[idx[j]]), idx[j])
  }

  method ScoreRows(values: seq<real>, dim: nat, qv: seq<real>, idx: seq<nat>, ghost rows: seq<seq<real>>)
    returns (scored: seq<Scored<nat>>)
    requires RowMajor(values, dim, rows) && |qv| == dim && InRange(idx, |rows|)
    ensures ScoredRows(scored, idx, rows, qv)
  {
    scored := [];
    for j := 0 to |idx|
      invariant ScoredRows(scored, idx[..j], rows, qv)
    {
      var i := idx[j];
      Inside(rows, dim, i);
      SpanIs(i, dim);
      SpanIs(i + 1, dim);
      assert RowAt(values, dim, i) == Some(rows[i]);
      var score := Vectors.DotRuntime(qv, values[i * dim..(i + 1) * dim]);
      scored := scored + [Scored(score, i)];
    }
    assert idx[..|idx|] == idx;
  }

  /** The row indices below `n`, in order. */
  function Upto(n: nat): (r: seq<nat>)
    ensures |r| == n && forall i :: 0 <= i < n ==> r[i] == i
  {
    seq(n, i => i)
  }

  /** Score every row in storage order; `fixed` picks the fixed-dimension product. */
  method ScoreAll(values: seq<real>, dim: nat, qv: seq<real>, fixed: bool, ghost rows: seq<seq<real>>)
    returns (scored: seq<Scored<nat>>)
    requires RowMajor(values, dim, rows) && |qv| == dim && dim > 0
    ensures ScoredRows(scored, Upto(|rows|), rows, qv)
  {
    scored := [];
    var start := 0;
    while start + dim <= |values|
      invariant |scored| <= |rows| && start == Span(|scored|, dim)
      invariant ScoredRows(scored, Upto(|scored|), rows, qv)
      decreases |values| - start
    {
      ghost var i := |scored|;
      RowFits(rows, dim, i);
      var row := values[start..start + dim];
      assert RowAt(values, dim, i) == Some(rows[i]);
      var score;
      if fixed { score := Vectors.DotConst(qv, row, dim); } else { score := Vectors.DotRuntime(qv, row); }
      scored := scored + [Scored(score, |scored|)];
      start := start + dim;
    }
    AllRowsSeen(rows, dim, |scored|);
  }

  lemma RowFits(rows: seq<seq<real>>, dim: nat, i: nat)
    requires i <= |rows| && Span(i, dim) + dim <= Span(|rows|, dim) && dim > 0
    ensures i < |rows| && Span(i + 1, dim) == Span(i, dim) + dim
  {
  }

  lemma AllRowsSeen(rows: seq<seq<real>>, dim: nat, i: nat)
    requires i <= |rows| && Span(i, dim) + dim > Span(|rows|, dim)
    ensures i == |rows|
  {
    SpanGrows(i, |rows|, dim);
  }

  // ---------- Picking the best ----------

  lemma SubBag<T>(top: seq<T>, s: seq<T>)
    requires NoDup(s) && multiset(top) <= multiset(s)
    ensures NoDup(top) && forall x :: x in top ==> x in s
  {
    forall i, j | 0 <= i < j < |top| ensures top[i] != top[j] {
      if top[i] == top[j] {
        CountedOnce(s, top[i]);
        CountedTwice(top, i, j);
      }
    }
    forall x | x in top ensures x in s { assert x in multiset(top); }
  }

  lemma ScoredNoDup(scored: seq<Scored<nat>>, idx: seq<nat>, rows: seq<seq<real>>, qv: seq<real>)
    requires ScoredRows(scored, idx, rows, qv) && NoDup(idx)
    ensures NoDup(scored)
  {
    forall i, j | 0 <= i < j < |scored| ensures scored[i] != scored[j] { assert scored[i].item != scored[j].item; }
  }

  lemma PointsAreScores(p: Provider, entries: seq<Term>, scored: seq<Scored<nat>>, idx: seq<nat>, qv: seq<real>)
    requires ScoredRows(scored, idx, RowsOf(p, entries), qv)
    ensures Points(scored) == ScoresOf(ScoreAgainst(p, entries, qv), idx)
  {
  }

  /** What the winners are: rows of the list, each once, with its own score. */
  ghost predicate Winners(top: seq<Scored<nat>>, idx: seq<nat>, rows: seq<seq<real>>, qv: seq<real>) {
    && (forall i :: 0 <= i < |top| ==>
          top[i].item in idx && top[i].item < |rows| && top[i].score == Product(qv, rows[top[i].item]))
    && forall i, j :: 0 <= i < j < |top| ==> top[i].item != top[j].item
  }

  lemma WinnersOf(top: seq<Scored<nat>>, scored: seq<Scored<nat>>, idx: seq<nat>, rows: seq<seq<real>>, qv: seq<real>)
    requires ScoredRows(scored, idx, rows, qv) && NoDup(idx) && multiset(top) <= multiset(scored)
    ensures Winners(top, idx, rows, qv)
  {
    ScoredNoDup(scored, idx, rows, qv);
    SubBag(top, scored);
    forall i | 0 <= i < |top|
      ensures top[i].item in idx && top[i].item < |rows| && top[i].score == Product(qv, rows[top[i].item])
    {
      assert top[i] in scored;
      var j :| 0 <= j < |scored| && scored[j] == top[i];
      assert idx[j] == top[i].item;
    }
    forall i, j | 0 <= i < j < |top| ensures top[i].item != top[j].item {
      assert top[i] != top[j];
    }
  }

  method ToHits(p: Provider, entries: seq<Term>, top: seq<Scored<nat>>, ghost idx: seq<nat>, ghost qv: seq<real>)
    returns (hits: seq<SemanticHit>)
    requires Winners(top, idx, RowsOf(p, entries), qv)
    ensures HitScores(hits) == Points(top)
    ensures exists chosen: seq<nat> :: Chosen(hits, entries, ScoreAgainst(p, entries, qv), idx, chosen)
  {
    hits := [];
    for i := 0 to |top|
      invariant |hits| == i
      invariant forall j :: 0 <= j < i ==> hits[j] == SemanticHit(entries[top[j].item], top[j].score)
    {
      hits := hits + [SemanticHit(entries[top[i].item], top[i].score)];
    }
    ghost var chosen: seq<nat> := seq(|top|, j requires 0 <= j < |top| => top[j].item);
    assert Chosen(hits, entries, ScoreAgainst(p, entries, qv), idx, chosen);
  }

  /** Keep the best `k` of the scored rows. */
  method Finish(p: Provider, entries: seq<Term>, scored: seq<Scored<nat>>, k: nat, ghost idx: seq<nat>, ghost qv: seq<real>)
    returns (hits: seq<SemanticHit>)
    requires ScoredRows(scored, idx, RowsOf(p, entries), qv) && NoDup(idx)
    requires 1 <= k && idx != []
    ensures BestOf(hits, entries, ScoreAgainst(p, entries, qv), idx, k)
  {
    var take := Min(k, |scored|);
    var top := TakeBest(scored, take);
    WinnersOf(top, scored, idx, RowsOf(p, entries), qv);
    hits := ToHits(p, entries, top, idx, qv);
    PointsAreScores(p, entries, scored, idx, qv);
  }

  /** A result over a pool is a result over any listing of the same positions. */
  lemma BestOfSameSet(
      hits: seq<SemanticHit>, entries: seq<Term>, score: nat -> real, pool: seq<nat>, other: seq<nat>, k: nat)
    requires BestOf(hits, entries, score, pool, k)
    requires NoDup(pool) && NoDup(other) && Within(pool, other) && Within(other, pool)
    ensures BestOf(hits, entries, score, other, k)
  {
    RankedSameSet(score, pool, other);
    PoolIsSmaller(pool, other);
    PoolIsSmaller(other, pool);
    var chosen: seq<nat> :| Chosen(hits, entries, score, pool, chosen);
    assert Chosen(hits, entries, score, other, chosen);
  }
}
