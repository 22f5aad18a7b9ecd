/** Blank nodes when the index is reconciled: a text is one when it starts with the bytes of `_:`, whatever follows. */
module ReconcileBlank {
  import opened Prelude
  import opened Text
  import opened CanonicalSpec
  import opened TermEquality
  import opened SemanticDomain
  import opened Reconcile
  import opened ReconcileIndex
  import opened ReconcileFull
  import opened ReconcileRuns

  // ---------- Statements ----------

  /** A blank subject is skipped, for every name. */
  lemma BlankSubjectIsSkipped(dict: Dictionary, t: Triple, name: Bytes)
    requires t.subject in dict && dict[t.subject] == [95, 58] + name
    ensures TripleTerms(dict, t) == [IriTerm(t.verb), t.obj]
  {
    assert BLANK_PREFIX <= dict[t.subject];
  }

  /** Every other decoded subject is a term of its statement. */
  lemma OtherSubjectIsTerm(dict: Dictionary, t: Triple)
    requires t.subject in dict && var text := dict[t.subject]; |text| < 2 || text[0] != 95 || text[1] != 58
    ensures TripleTerms(dict, t) == [IriTerm(dict[t.subject]), IriTerm(t.verb), t.obj]
  {
  }

  lemma UnknownSubjectIsSkipped(dict: Dictionary, t: Triple)
    requires t.subject !in dict
    ensures TripleTerms(dict, t) == [IriTerm(t.verb), t.obj]
  {
  }

  // ---------- The store ----------

  ghost predicate IsVerbOrObject(s: Store, iri: Str) {
    exists t :: Holds(s, t) && (t.verb == iri || t.obj == IriTerm(iri))
  }

  ghost predicate IsDecodedSubject(dict: Dictionary, s: Store, iri: Str) {
    exists t :: Holds(s, t) && t.subject in dict && dict[t.subject] == iri
  }

  lemma BlankInStatement(dict: Dictionary, t: Triple, iri: Str, name: Bytes)
    requires iri == [95, 58] + name
    ensures Listed(TripleTerms(dict, t), IriTerm(iri)) <==> t.verb == iri || t.obj == IriTerm(iri)
  {
    TripleTermsAre(dict, t, IriTerm(iri));
    if t.subject in dict && dict[t.subject] == iri { BlankSubjectIsSkipped(dict, t, name); }
  }

  lemma OtherInStatement(dict: Dictionary, t: Triple, iri: Str)
    requires |iri| < 2 || iri[0] != 95 || iri[1] != 58
    ensures Listed(TripleTerms(dict, t), IriTerm(iri)) <==>
      (t.subject in dict && dict[t.subject] == iri) || t.verb == iri || t.obj == IriTerm(iri)
  {
    TripleTermsAre(dict, t, IriTerm(iri));
    if t.subject in dict && dict[t.subject] == iri { OtherSubjectIsTerm(dict, t); }
  }

  lemma BlankWantedIff(dict: Dictionary, s: Store, iri: Str, name: Bytes)
    requires iri == [95, 58] + name
    ensures Wanted(dict, s, IriTerm(iri)) <==> IsVerbOrObject(s, iri)
  {
    forall t ensures Listed(TripleTerms(dict, t), IriTerm(iri)) <==> t.verb == iri || t.obj == IriTerm(iri) {
      BlankInStatement(dict, t, iri, name);
    }
  }

  lemma OtherWantedIff(dict: Dictionary, s: Store, iri: Str)
    requires |iri| < 2 || iri[0] != 95 || iri[1] != 58
    ensures Wanted(dict, s, IriTerm(iri)) <==> IsDecodedSubject(dict, s, iri) || IsVerbOrObject(s, iri)
  {
    forall t
      ensures Listed(TripleTerms(dict, t), IriTerm(iri)) <==>
        (t.subject in dict && dict[t.subject] == iri) || t.verb == iri || t.obj == IriTerm(iri)
    {
      OtherInStatement(dict, t, iri);
    }
  }

  // ---------- Both reconcile paths ----------

  lemma ListedIri(entries: seq<Term>, iri: Str)
    ensures Listed(entries, IriTerm(iri)) <==> IriTerm(iri) in entries
  {
    if Listed(entries, IriTerm(iri)) { var y := ListedBits(entries, IriTerm(iri)); }
    if IriTerm(iri) in entries { ListedIn(entries, IriTerm(iri)); }
  }

  /** After a write that goes right a blank-looking IRI is indexed exactly when a statement has it as verb or object. */
  lemma BlankIndexedIff(
      p: Provider, cap: nat, entries: seq<Term>, dict: Dictionary, s: Store, c: Change, iri: Str, name: Bytes)
    requires EntriesOk(p, entries) && Known(dict, s) && Grows(dict, c) && InSync(dict, s, entries)
    requires GoesRight(p, cap, entries, s, c) && iri == [95, 58] + name
    ensures IriTerm(iri) in AfterChange(p, cap, entries, s, c) <==> IsVerbOrObject(Commit(s, c.ops), iri)
  {
    ChangeInSyncIff(p, cap, entries, dict, s, c);
    ListedIri(AfterChange(p, cap, entries, s, c), iri);
    BlankWantedIff(c.dict, Commit(s, c.ops), iri, name);
  }

  /** And any other IRI exactly when a statement has it as decoded subject, verb or object. */
  lemma OtherIndexedIff(
      p: Provider, cap: nat, entries: seq<Term>, dict: Dictionary, s: Store, c: Change, iri: Str)
    requires EntriesOk(p, entries) && Known(dict, s) && Grows(dict, c) && InSync(dict, s, entries)
    requires GoesRight(p, cap, entries, s, c) && (|iri| < 2 || iri[0] != 95 || iri[1] != 58)
    ensures IriTerm(iri) in AfterChange(p, cap, entries, s, c) <==>
      IsDecodedSubject(c.dict, Commit(s, c.ops), iri) || IsVerbOrObject(Commit(s, c.ops), iri)
  {
    ChangeInSyncIff(p, cap, entries, dict, s, c);
    ListedIri(AfterChange(p, cap, entries, s, c), iri);
    OtherWantedIff(c.dict, Commit(s, c.ops), iri);
  }

  /** The same from any index, in step or not, when the write is reconciled from the store and that goes right. */
  lemma IndexedFromStoreIff(
      p: Provider, cap: nat, entries: seq<Term>, s: Store, c: Change, iri: Str, name: Bytes)
    requires EntriesOk(p, entries) && (!c.told || HasDeleteKey(c.ops)) && GoesRight(p, cap, entries, s, c)
    ensures iri == [95, 58] + name ==>
      (IriTerm(iri) in AfterChange(p, cap, entries, s, c) <==> IsVerbOrObject(Commit(s, c.ops), iri))
    ensures |iri| < 2 || iri[0] != 95 || iri[1] != 58 ==>
      (IriTerm(iri) in AfterChange(p, cap, entries, s, c) <==>
        IsDecodedSubject(c.dict, Commit(s, c.ops), iri) || IsVerbOrObject(Commit(s, c.ops), iri))
  {
    FromStoreInSyncIff(p, cap, entries, c.dict, Commit(s, c.ops));
    ListedIri(AfterChange(p, cap, entries, s, c), iri);
    if iri == [95, 58] + name {
      BlankWantedIff(c.dict, Commit(s, c.ops), iri, name);
    } else if |iri| < 2 || iri[0] != 95 || iri[1] != 58 {
      OtherWantedIff(c.dict, Commit(s, c.ops), iri);
    }
  }

  // ---------- Whatever goes wrong ----------

  /** A blank-looking IRI never enters the index as a subject, cap and provider notwithstanding. */
  lemma BlankEntersOnlyAsVerbOrObject(
      p: Provider, cap: nat, entries: seq<Term>, s: Store, c: Change, iri: Str, name: Bytes)
    requires EntriesOk(p, entries) && iri == [95, 58] + name && IriTerm(iri) !in entries
    requires IriTerm(iri) in AfterChange(p, cap, entries, s, c)
    ensures if c.told && !HasDeleteKey(c.ops)
      then exists t :: t in Puts(c.ops) && (t.verb == iri || t.obj == IriTerm(iri))
      else IsVerbOrObject(Commit(s, c.ops), iri)
  {
    var x, after := IriTerm(iri), Commit(s, c.ops);
    ListedIri(entries, iri);
    ListedIri(AfterChange(p, cap, entries, s, c), iri);
    if c.told && !HasDeleteKey(c.ops) {
      IncrementalHas(p, cap, entries, c.dict, after, c.ops, x);
      BatchListed(p, cap, entries, ToIndex(c.dict, c.ops), x);
      ListedTermsOf(c.dict, Puts(c.ops), x);
      var t :| t in Puts(c.ops) && Listed(TripleTerms(c.dict, t), x);
      BlankInStatement(c.dict, t, iri, name);
    } else {
      UnlistedIsAdded(p, cap, entries, c.dict, after, x);
      StoreTerms(c.dict, after, x);
      BlankWantedIff(c.dict, after, iri, name);
    }
  }
}
