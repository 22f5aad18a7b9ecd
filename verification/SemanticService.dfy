/** The search service: batches of terms indexed under a cap, and removed again. */
module SemanticService {
  import opened Prelude
  import opened CanonicalSpec
  import opened TermEquality
  import opened SemanticDomain
  import opened ExactIndex

  // ---------- Batches ----------

  function UpsertAll(p: Provider, entries: seq<Term>, terms: seq<Term>): seq<Term> {
    if terms == [] then entries
    else
      var n := |terms| - 1;
      AfterUpsert(p, UpsertAll(p, entries, terms[..n]), terms[n])
  }

  function RemoveAll(entries: seq<Term>, terms: seq<Term>): seq<Term> {
    if terms == [] then entries
    else
      var n := |terms| - 1;
      AfterRemove(RemoveAll(entries, terms[..n]), terms[n])
  }

  /** The terms before the first that is neither held by then nor embeddable: a batch stops there. */
  function UntilFailure(p: Provider, entries: seq<Term>, terms: seq<Term>): (r: seq<Term>)
    ensures r <= terms
    ensures |r| < |terms| ==> UpsertResult(p, UpsertAll(p, entries, r), terms[|r|]).Err?
  {
    if terms == [] then []
    else
      var n := |terms| - 1;
      var before := UntilFailure(p, entries, terms[..n]);
      if |before| == n && UpsertResult(p, UpsertAll(p, entries, before), terms[n]).Ok? then terms else before
  }

  /** How many terms a batch added, or the error it stopped at. */
  function ManyResult(p: Provider, entries: seq<Term>, terms: seq<Term>): Result<nat, AiError> {
    var go := UntilFailure(p, entries, terms);
    var after := UpsertAll(p, entries, go);
    if |go| == |terms| then Ok(Monus(|after|, |entries|)) else Err(UpsertResult(p, after, terms[|go|]).error)
  }

  predicate Goes(p: Provider, entries: seq<Term>, terms: seq<Term>) { UntilFailure(p, entries, terms) == terms }

  function Absent(entries: seq<Term>): Term -> bool { t => !Has(entries, t) }

  /** What `index_terms` tries to add: the absent terms, repeats included, cut off where the cap is reached. */
  function Allowed(cap: nat, entries: seq<Term>, terms: seq<Term>): seq<Term> {
    var missing := Filter(terms, Absent(entries));
    missing[..Min(Monus(cap, |entries|), |missing|)]
  }

  /** What it adds. */
  function Batch(p: Provider, cap: nat, entries: seq<Term>, terms: seq<Term>): seq<Term> {
    UntilFailure(p, entries, Allowed(cap, entries, terms))
  }

  lemma GoesSnoc(p: Provider, entries: seq<Term>, terms: seq<Term>)
    requires terms != []
    ensures Goes(p, entries, terms) <==>
      Goes(p, entries, terms[..|terms| - 1])
      && UpsertResult(p, UpsertAll(p, entries, terms[..|terms| - 1]), terms[|terms| - 1]).Ok?
  {
    assert |terms[..|terms| - 1]| < |terms|;
  }

  /** What goes without a failure goes again: stopping is final. */
  lemma {:induction false} UntilFailureGoes(p: Provider, entries: seq<Term>, terms: seq<Term>)
    ensures Goes(p, entries, UntilFailure(p, entries, terms))
  {
    if terms != [] && UntilFailure(p, entries, terms) != terms {
      UntilFailureGoes(p, entries, terms[..|terms| - 1]);
    }
  }

  /** One upsert that does not fail lists the term and nothing else. */
  lemma UpsertLists(p: Provider, entries: seq<Term>, t: Term, x: Term)
    requires UpsertResult(p, entries, t).Ok?
    ensures Listed(AfterUpsert(p, entries, t), x) <==> Listed(entries, x) || Norm(t) == Norm(x)
  {
    ListedJoin(entries, [t], x);
    if Norm(t) == Norm(x) { assert [t][0] == t; }
  }

  lemma ListedSnoc(ts: seq<Term>, x: Term)
    requires ts != []
    ensures Listed(ts, x) <==> Listed(ts[..|ts| - 1], x) || Norm(ts[|ts| - 1]) == Norm(x)
  {
    var n := |ts| - 1;
    assert ts == ts[..n] + [ts[n]];
    ListedJoin(ts[..n], [ts[n]], x);
    assert [ts[n]][0] == ts[n];
  }

  lemma {:induction false} UpsertAllKeeps(p: Provider, entries: seq<Term>, terms: seq<Term>)
    requires EntriesOk(p, entries)
    ensures EntriesOk(p, UpsertAll(p, entries, terms))
    ensures |entries| <= |UpsertAll(p, entries, terms)| <= |entries| + |terms|
    ensures forall x :: x in entries ==> x in UpsertAll(p, entries, terms)
    ensures forall x :: x in UpsertAll(p, entries, terms) ==> x in entries || x in terms
  {
    if terms != [] {
      var n := |terms| - 1;
      UpsertAllKeeps(p, entries, terms[..n]);
      UpsertKeepsOk(p, UpsertAll(p, entries, terms[..n]), terms[n]);
      assert terms == terms[..n] + [terms[n]];
    }
  }

  /** A batch without a failure lists its terms beside the old ones. */
  lemma {:induction false} UpsertAllIs(p: Provider, entries: seq<Term>, terms: seq<Term>, x: Term)
    requires Goes(p, entries, terms)
    ensures Listed(UpsertAll(p, entries, terms), x) <==> Listed(entries, x) || Listed(terms, x)
  {
    if terms != [] {
      var n := |terms| - 1;
      GoesSnoc(p, entries, terms);
      UpsertAllIs(p, entries, terms[..n], x);
      UpsertLists(p, UpsertAll(p, entries, terms[..n]), terms[n], x);
      ListedSnoc(terms, x);
    }
  }

  lemma HasSnoc(ts: seq<Term>, x: Term)
    requires ts != []
    ensures Has(ts, x) <==> Has(ts[..|ts| - 1], x) || Same(ts[|ts| - 1], x)
  {
    ListedSnoc(ts, x);
  }

  /** Removing a batch leaves exactly the entries that equal none of its terms. */
  lemma {:induction false} RemoveAllIs(p: Provider, entries: seq<Term>, terms: seq<Term>)
    requires EntriesOk(p, entries)
    ensures EntriesOk(p, RemoveAll(entries, terms))
    ensures forall x :: x in RemoveAll(entries, terms) <==> x in entries && !Has(terms, x)
    ensures |RemoveAll(entries, terms)| <= |entries|
  {
    if terms != [] {
      var n := |terms| - 1;
      RemoveAllIs(p, entries, terms[..n]);
      RemoveTakesOne(p, RemoveAll(entries, terms[..n]), terms[n]);
      forall x ensures Has(terms, x) <==> Has(terms[..n], x) || Same(terms[n], x) { HasSnoc(terms, x); }
    }
  }

  lemma ListedAfterRemoves(p: Provider, entries: seq<Term>, terms: seq<Term>, x: Term)
    requires EntriesOk(p, entries)
    ensures Listed(RemoveAll(entries, terms), x) <==> Listed(entries, x) && !Has(terms, x)
  {
    RemoveAllIs(p, entries, terms);
    var left := RemoveAll(entries, terms);
    if Listed(left, x) {
      var i :| 0 <= i < |left| && Norm(left[i]) == Norm(x);
      assert left[i] in left;
      ListedIn(entries, left[i]);
    }
    if Listed(entries, x) && !Has(terms, x) {
      var i :| 0 <= i < |entries| && Norm(entries[i]) == Norm(x);
      assert entries[i] in entries && !Has(terms, entries[i]);
      ListedIn(left, entries[i]);
    }
  }

  lemma BatchIs(p: Provider, cap: nat, entries: seq<Term>, terms: seq<Term>)
    ensures Goes(p, entries, Batch(p, cap, entries, terms))
    ensures forall t :: t in Batch(p, cap, entries, terms) ==> t in terms && !Has(entries, t)
    ensures |Batch(p, cap, entries, terms)| <= Monus(cap, |entries|)
  {
    var missing := Filter(terms, Absent(entries));
    FilterIn(terms, Absent(entries));
    UntilFailureGoes(p, entries, Allowed(cap, entries, terms));
    var b := Batch(p, cap, entries, terms);
    forall t | t in b ensures t in missing {
      var i :| 0 <= i < |b| && b[i] == t;
      assert missing[i] == t;
    }
  }

  /** The cap holds through indexing and removal, and indexing keeps everything that was there. */
  lemma CapHolds(p: Provider, cap: nat, entries: seq<Term>, toIndex: seq<Term>, toEvict: seq<Term>)
    requires EntriesOk(p, entries) && |entries| <= cap
    ensures var added := UpsertAll(p, entries, Batch(p, cap, entries, toIndex));
      |RemoveAll(added, toEvict)| <= |added| <= cap && forall t :: t in entries ==> t in added
  {
    BatchIs(p, cap, entries, toIndex);
    UpsertAllKeeps(p, entries, Batch(p, cap, entries, toIndex));
    RemoveAllIs(p, UpsertAll(p, entries, Batch(p, cap, entries, toIndex)), toEvict);
  }

  lemma {:induction false} NoFailure(p: Provider, entries: seq<Term>, terms: seq<Term>)
    requires forall t :: t in terms ==> Embeds(p, t)
    ensures Goes(p, entries, terms)
  {
    if terms != [] {
      assert terms[|terms| - 1] in terms;
      NoFailure(p, entries, terms[..|terms| - 1]);
    }
  }

  /** With room for every absent term, repeats counted, and a provider that embeds them all, nothing is cut off. */
  lemma RoomForAll(p: Provider, cap: nat, entries: seq<Term>, terms: seq<Term>)
    requires |entries| + |Filter(terms, Absent(entries))| <= cap
    requires forall t :: t in terms ==> Embeds(p, t)
    ensures Batch(p, cap, entries, terms) == Filter(terms, Absent(entries))
    ensures forall t :: t in terms ==> Listed(entries, t) || t in Batch(p, cap, entries, terms)
  {
    var missing := Filter(terms, Absent(entries));
    FilterIn(terms, Absent(entries));
    assert Allowed(cap, entries, terms) == missing;
    NoFailure(p, entries, missing);
  }

  // ---------- The service ----------

  /** Stops at the first failure and returns it; the terms before it stay. */
  method UpsertMany(index: InMemorySemanticIndex, terms: seq<Term>) returns (r: Result<nat, AiError>)
    requires index.Valid()
    modifies index
    ensures index.Valid()
    ensures index.entries ==
      UpsertAll(index.provider, old(index.entries), UntilFailure(index.provider, old(index.entries), terms))
    ensures r == ManyResult(index.provider, old(index.entries), terms)
  {
    ghost var p, before := index.provider, index.entries;
    var added := 0;
    for i := 0 to |terms|
      invariant index.Valid() && Goes(p, before, terms[..i])
      invariant index.entries == UpsertAll(p, before, terms[..i])
      invariant added == |index.entries| - |before|
    {
      assert terms[..i + 1][..i] == terms[..i];
      GoesSnoc(p, before, terms[..i + 1]);
      StopsAt(p, before, terms, i);
      var present := index.Contains(terms[i]);
      if !present {
        var _ :- index.Upsert(terms[i]);
        added := added + 1;
      }
    }
    assert terms[..|terms|] == terms;
    r := Ok(added);
  }

  /** A batch that has gone to position `i` and fails there ends there. */
  lemma {:induction false} StopsAt(p: Provider, entries: seq<Term>, terms: seq<Term>, i: nat)
    requires i < |terms| && Goes(p, entries, terms[..i])
    ensures UpsertResult(p, UpsertAll(p, entries, terms[..i]), terms[i]).Err? ==>
      UntilFailure(p, entries, terms) == terms[..i]
  {
    var n := |terms| - 1;
    if i < n {
      assert terms[..n][..i] == terms[..i];
      StopsAt(p, entries, terms[..n], i);
    }
  }

  lemma RemoveAllStep(entries: seq<Term>, terms: seq<Term>, i: nat)
    requires i < |terms|
    ensures var before := RemoveAll(entries, terms[..i]);
      && RemoveAll(entries, terms[..i + 1]) == AfterRemove(before, terms[i])
      && |AfterRemove(before, terms[i])| == |before| - (if Has(before, terms[i]) then 1 else 0)
  {
    assert terms[..i + 1][..i] == terms[..i];
  }

  method RemoveMany(index: InMemorySemanticIndex, terms: seq<Term>) returns (removed: nat)
    requires index.Valid()
    modifies index
    ensures index.Valid()
    ensures index.entries == RemoveAll(old(index.entries), terms)
    ensures removed == old(|index.entries|) - |index.entries|
  {
    removed := 0;
    for i := 0 to |terms|
      invariant index.Valid() && index.entries == RemoveAll(old(index.entries), terms[..i])
      invariant removed == old(|index.entries|) - |index.entries|
    {
      RemoveAllStep(old(index.entries), terms, i);
      var present := index.Contains(terms[i]);
      if present {
        index.Remove(terms[i]);
        removed := removed + 1;
      }
    }
    assert terms[..|terms|] == terms;
  }

  class SemanticSearchService {
    const index: InMemorySemanticIndex
    const cap: nat

    constructor (provider: Provider, cap: nat)
      requires KeepsDim(provider)
      ensures index.Valid() && fresh(index) && index.provider == provider && index.entries == [] && this.cap == cap
    {
      index := new InMemorySemanticIndex(provider);
      this.cap := cap;
    }

    method Index(term: Term) returns (r: Result<(), AiError>)
      requires index.Valid()
      modifies index
      ensures index.Valid()
      ensures index.entries ==
        if old(|index.entries|) >= cap then old(index.entries) else AfterUpsert(index.provider, old(index.entries), term)
      ensures r ==
        if old(|index.entries|) >= cap then Ok(()) else UpsertResult(index.provider, old(index.entries), term)
    {
      if |index.entries| >= cap { return Ok(()); }
      r := index.Upsert(term);
    }

    method IndexTerms(terms: seq<Term>) returns (r: Result<nat, AiError>)
      requires index.Valid()
      modifies index
      ensures index.Valid()
      ensures index.entries ==
        UpsertAll(index.provider, old(index.entries), Batch(index.provider, cap, old(index.entries), terms))
      ensures r == ManyResult(index.provider, old(index.entries), Allowed(cap, old(index.entries), terms))
    {
      if |index.entries| >= cap || terms == [] {
        assert Allowed(cap, index.entries, terms) == [];
        return Ok(0);
      }
      var remaining := Monus(cap, |index.entries|);
      var missing := TermsAbsent(terms);
      r := UpsertMany(index, missing[..Min(remaining, |missing|)]);
    }

    method TermsAbsent(terms: seq<Term>) returns (missing: seq<Term>)
      ensures missing == Filter(terms, Absent(index.entries))
    {
      missing := [];
      for i := 0 to |terms|
        invariant missing == Filter(terms[..i], Absent(index.entries))
      {
        FilterStep(terms, Absent(index.entries), i);
        if !Has(index.entries, terms[i]) { missing := missing + [terms[i]]; }
      }
      assert terms[..|terms|] == terms;
    }

    method RemoveTerms(terms: seq<Term>) returns (removed: nat)
      requires index.Valid()
      modifies index
      ensures index.Valid()
      ensures index.entries == RemoveAll(old(index.entries), terms)
      ensures removed == old(|index.entries|) - |index.entries|
    {
      removed := RemoveMany(index, terms);
    }
  }
}
