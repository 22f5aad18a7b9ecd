/** The exact in-memory index: one flat matrix, scanned in full. */
module ExactIndex {
  import opened Prelude
  import opened Ranking
  import opened CanonicalSpec
  import opened TermEquality
  import opened FlatMatrix
  import opened SemanticDomain
  import opened SemanticSearch

  const DEFAULT_EMBEDDING_DIM: nat := 256

  class InMemorySemanticIndex {
    const provider: Provider
    const dim: nat
    var entries: seq<Term>
    /** Row-major: row `i` at `[i * dim, (i + 1) * dim)`. */
    var values: seq<real>

    ghost predicate Valid()
      reads this
    {
      && dim == provider.dim && KeepsDim(provider) && EntriesOk(provider, entries)
      && RowMajor(values, dim, RowsOf(provider, entries))
    }

    constructor (provider: Provider)
      requires KeepsDim(provider)
      ensures Valid() && this.provider == provider && entries == []
    {
      this.provider := provider;
      dim := provider.dim;
      entries := [];
      values := [];
    }

    method Upsert(term: Term) returns (r: Result<(), AiError>)
      requires Valid()
      modifies this
      ensures Valid()
      ensures entries == AfterUpsert(provider, old(entries), term)
      ensures r == UpsertResult(provider, old(entries), term)
    {
      if Has(entries, term) { return Ok(()); }
      var embedding :- provider.embedTerm(term);
      if |embedding| != dim { return Err(UpsertDimension); }
      HoldsPush(values, dim, RowsOf(provider, entries), embedding);
      RowsPush(provider, entries, term);
      UpsertKeepsOk(provider, entries, term);
      entries := entries + [term];
      values := values + embedding;
      r := Ok(());
    }

    method Remove(term: Term)
      requires Valid()
      modifies this
      ensures Valid()
      ensures entries == AfterRemove(old(entries), term)
    {
      if Has(entries, term) {
        var idx := FirstEqual(entries, term);
        RowsDrop(provider, entries, values, idx);
        SwapRemoveKeepsOk(provider, entries, idx);
        var start, len := idx * dim, |values|;
        var moved := CopyLast(values, dim, start);
        entries, values := SwapRemove(entries, idx), moved[..len - dim];
      }
    }

    method Contains(term: Term) returns (r: bool)
      ensures r == Has(entries, term)
    {
      r := Has(entries, term);
    }

    /** The best `k` of everything indexed, `k` clamped into `[1, 100]`. */
    method Search(query: Embedding, k: nat) returns (r: Result<seq<SemanticHit>, AiError>)
      requires Valid()
      ensures entries == [] ==> r == Ok([])
      ensures entries != [] && |query| != dim ==> r == Err(SearchDimension)
      ensures entries != [] && |query| == dim ==>
        match provider.normalize(query)
        case Err(e) => r == Err(e)
        case Ok(q) => r.Ok? && BestOf(r.value, entries, ScoreAgainst(provider, entries, q), Upto(|entries|), ClampK(k))
      ensures r.Ok? && entries != [] ==>
        |r.value| == if k == 0 then 1 else if k <= 100 then Min(k, |entries|) else Min(100, |entries|)
      ensures r.Ok? && entries != [] ==>
        var q := provider.normalize(query).value;
        forall j :: 0 <= j < |r.value| ==>
          r.value[j].score == Ranked(ScoreAgainst(provider, entries, q), Upto(|entries|))[j]
    {
      var k := ClampK(k);
      if entries == [] { return Ok([]); }
      if |query| != dim { return Err(SearchDimension); }
      var q :- provider.normalize(query);
      var hits := Scan(q, k);
      BestRanks(hits, entries, ScoreAgainst(provider, entries, q), Upto(|entries|), k);
      r := Ok(hits);
    }

    method Scan(q: Embedding, k: nat) returns (hits: seq<SemanticHit>)
      requires Valid() && entries != [] && |q| == dim && k >= 1
      ensures BestOf(hits, entries, ScoreAgainst(provider, entries, q), Upto(|entries|), k)
    {
      var scored := ScoreAll(values, dim, q, dim == DEFAULT_EMBEDDING_DIM, RowsOf(provider, entries));
      hits := Finish(provider, entries, scored, k, Upto(|entries|), q);
    }
  }
}
