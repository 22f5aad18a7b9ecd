/** Inputs on which the index falls out of step with the store. */
module ReconcileGaps {
  import opened Prelude
  import opened Text
  import opened CanonicalSpec
  import opened TermEquality
  import opened SemanticDomain
  import opened SemanticService
  import opened Reconcile
  import opened ReconcileIndex
  import opened ReconcileFull

  function Letter(letter: U8): (s: Str)
    requires letter < 128
  {
    AsciiIsText([letter, 58, 98]);
    [letter, 58, 98]
  }

  /** Two texts, one of which looks blank. */
  lemma TwoLetters() returns (blank: Str, a: Str, b: Str)
    ensures blank != a && a != b && LooksBlank(blank) && !LooksBlank(a) && !LooksBlank(b)
  {
    blank, a, b := Letter(95), Letter(97), Letter(98);
    assert blank[0] == BLANK_PREFIX[0] && a[0] != blank[0] && b[0] != blank[0] && a[0] != b[0];
  }

  /** A statement whose three terms are all the one IRI. */
  function Plain(node: U64, iri: Str): Triple { Triple(node, iri, IriTerm(iri)) }

  /** The store that holds just these statements, in the default graph. */
  function Just(ts: seq<Triple>): Store { Store(ts, []) }

  lemma JustHolds(ts: seq<Triple>, t: Triple)
    ensures Holds(Just(ts), t) <==> t in ts
  {
  }

  lemma PlainTerms(dict: Dictionary, node: U64, iri: Str, x: Term)
    requires node in dict && (LooksBlank(dict[node]) || dict[node] == iri)
    ensures Listed(TripleTerms(dict, Plain(node, iri)), x) <==> x == IriTerm(iri)
  {
    TripleTermsAre(dict, Plain(node, iri), x);
  }

  lemma ListedIris(entries: seq<Term>, x: Term)
    requires forall i :: 0 <= i < |entries| ==> entries[i].IriTerm?
    ensures Listed(entries, x) <==> x in entries
  {
    if Listed(entries, x) { var y := ListedBits(entries, x); }
    if x in entries { ListedIn(entries, x); }
  }

  /** Statements made of one IRI each put the index in step when it lists those IRIs. */
  lemma OnlyTerms(dict: Dictionary, ts: seq<Triple>, entries: seq<Term>)
    requires |entries| == |ts|
    requires forall i :: 0 <= i < |ts| ==> entries[i].IriTerm? && ts[i] == Plain(ts[i].subject, entries[i].iri)
    requires forall i :: 0 <= i < |ts| ==>
      ts[i].subject in dict && (LooksBlank(dict[ts[i].subject]) || dict[ts[i].subject] == ts[i].verb)
    ensures InSync(dict, Just(ts), entries)
    ensures forall x :: Occurs(dict, Just(ts), x) <==> x in entries
  {
    forall x ensures (Occurs(dict, Just(ts), x) <==> x in entries) && (Listed(entries, x) <==> x in entries) {
      ListedIris(entries, x);
      if x in entries {
        var i :| 0 <= i < |ts| && entries[i] == x;
        JustHolds(ts, ts[i]);
        PlainTerms(dict, ts[i].subject, entries[i].iri, x);
      }
      if Occurs(dict, Just(ts), x) {
        var t :| Holds(Just(ts), t) && Listed(TripleTerms(dict, t), x);
        JustHolds(ts, t);
        var i :| 0 <= i < |ts| && ts[i] == t;
        PlainTerms(dict, ts[i].subject, entries[i].iri, x);
      }
    }
  }

  // ---------- Blank-looking IRIs ----------

  /** Deleting one of two statements leaves the other. */
  lemma DeleteOne(gone: Triple, stays: Triple)
    requires SameTriple(gone, gone) && !SameTriple(stays, gone)
    ensures Commit(Just([gone, stays]), [DeleteTriple(gone)]) == Just([stays])
  {
    var ts := [gone, stays];
    assert ts[..1] == [gone] && [gone][..0] == [];
    assert Filter([gone], IsNot(gone)) == [];
    assert Filter(ts, IsNot(gone)) == [stays];
    assert [DeleteTriple(gone)][..0] == [];
  }

  lemma IsPhantom(dict: Dictionary, blank: Str, other: Str)
    requires 1 in dict && dict[1] == blank && LooksBlank(blank) && blank != other
    ensures Phantom(dict, Just([Plain(1, other)]), IriTerm(blank))
  {
    var stays := Plain(1, other);
    OnlyTerms(dict, [stays], [IriTerm(other)]);
    assert Statements(Just([stays]))[0] == stays;
    assert IriTerm(blank) !in [IriTerm(other)];
  }

  /** An indexed phantom leaves the index out of step. */
  lemma PhantomStays(
      p: Provider, cap: nat, entries: seq<Term>, dict: Dictionary, s0: Store, ops: seq<WriteOperation>, x: Term)
    requires EntriesOk(p, entries) && InSync(dict, s0, entries) && !HasDeleteKey(ops)
    requires x in entries && Phantom(dict, Commit(s0, ops), x)
    ensures !InSync(dict, Commit(s0, ops), Incremental(p, cap, entries, dict, Commit(s0, ops), ops))
  {
    ListedIn(entries, x);
    IncrementalInSyncIff(p, cap, entries, dict, s0, ops);
  }

  /** A blank-looking IRI is kept by a blank subject of the same text after its last statement is deleted. */
  lemma PhantomLingers() returns (p: Provider, dict: Dictionary, s0: Store, entries: seq<Term>, ops: seq<WriteOperation>)
    ensures EntriesOk(p, entries) && InSync(dict, s0, entries) && !HasDeleteKey(ops)
    ensures !InSync(dict, Commit(s0, ops), Incremental(p, 9, entries, dict, Commit(s0, ops), ops))
  {
    var blank, other, _ := TwoLetters();
    UnitEmbeds();
    var gone, stays := Plain(1, blank), Plain(1, other);
    p, dict, s0 := Unit(), map[1 := blank], Just([gone, stays]);
    entries, ops := [IriTerm(blank), IriTerm(other)], [DeleteTriple(gone)];
    DeleteOne(gone, stays);
    OnlyTerms(dict, [gone, stays], entries);
    IsPhantom(dict, blank, other);
    PhantomStays(p, 9, entries, dict, s0, ops, entries[0]);
  }

  // ---------- The cap ----------

  lemma PutOne(dict: Dictionary, t: Triple)
    ensures Commit(Just([]), [PutTriple(t)]) == Just([t]) && !HasDeleteKey([PutTriple(t)])
    ensures ToIndex(dict, [PutTriple(t)]) == TripleTerms(dict, t)
  {
    var ops := [PutTriple(t)];
    assert ops[..0] == [] && [t][..0] == [];
    assert Puts(ops) == Puts([]) + [t];
    assert TermsOf(dict, [t]) == TermsOf(dict, []) + TripleTerms(dict, t);
  }

  lemma {:induction false} AllAbsent(terms: seq<Term>)
    ensures Filter(terms, Absent([])) == terms
  {
    if terms != [] {
      var n := |terms| - 1;
      AllAbsent(terms[..n]);
      assert terms == terms[..n] + [terms[n]];
    }
  }

  lemma RepeatedTerms(dict: Dictionary, a: Str, b: Str)
    requires 1 in dict && dict[1] == a && !LooksBlank(a) && a != b
    ensures var t := Triple(1, a, IriTerm(b));
      && TripleTerms(dict, t) == [IriTerm(a), IriTerm(a), IriTerm(b)]
      && Allowed(2, [], TripleTerms(dict, t)) == [IriTerm(a), IriTerm(a)]
  {
    var terms := [IriTerm(a), IriTerm(a), IriTerm(b)];
    assert TripleTerms(dict, Triple(1, a, IriTerm(b))) == terms;
    AllAbsent(terms);
  }

  lemma ObjectIsWanted(dict: Dictionary, t: Triple)
    requires !t.obj.BlankTerm?
    ensures Wanted(dict, Just([t]), t.obj)
  {
    JustHolds([t], t);
    TripleTermsAre(dict, t, t.obj);
  }

  lemma TwoOfThree(x: Term, y: Term)
    requires x != y
    ensures |set z | z in [x, x, y]| == 2
  {
    assert (set z | z in [x, x, y]) == {x, y};
  }

  lemma NotInBatch(p: Provider, cap: nat, entries: seq<Term>, terms: seq<Term>, x: Term)
    requires x.IriTerm? && x !in Allowed(cap, entries, terms)
    ensures !Listed(Batch(p, cap, entries, terms), x)
  {
    var batch, allowed := Batch(p, cap, entries, terms), Allowed(cap, entries, terms);
    forall i | 0 <= i < |batch| ensures Norm(batch[i]) != Norm(x) { assert batch[i] == allowed[i]; }
  }

  lemma CutOff(p: Provider, dict: Dictionary, t: Triple, x: Term)
    requires x.IriTerm? && x in TripleTerms(dict, t) && Wanted(dict, Just([t]), x)
    requires x !in Allowed(2, [], TripleTerms(dict, t)) && InSync(dict, Just([]), [])
    ensures var ops := [PutTriple(t)];
      !InSync(dict, Commit(Just([]), ops), Incremental(p, 2, [], dict, Commit(Just([]), ops), ops))
  {
    PutOne(dict, t);
    ListedIn(TripleTerms(dict, t), x);
    NotInBatch(p, 2, [], TripleTerms(dict, t), x);
    IncrementalInSyncIff(p, 2, [], dict, Just([]), [PutTriple(t)]);
  }

  /** Room for two and two distinct terms, but the first one repeats and uses the room up. */
  lemma RepeatsUseUpTheCap() returns (p: Provider, dict: Dictionary, t: Triple)
    ensures InSync(dict, Just([]), []) && |set x | x in TripleTerms(dict, t)| == 2
    ensures var ops := [PutTriple(t)];
      !InSync(dict, Commit(Just([]), ops), Incremental(p, 2, [], dict, Commit(Just([]), ops), ops))
  {
    var _, a, b := TwoLetters();
    p, dict, t := Unit(), map[1 := a], Triple(1, a, IriTerm(b));
    OnlyTerms(dict, [], []);
    RepeatedTerms(dict, a, b);
    ObjectIsWanted(dict, t);
    TwoOfThree(IriTerm(a), IriTerm(b));
    CutOff(p, dict, t, t.obj);
  }

  lemma ReplaceOne(gone: Triple, next: Triple)
    requires SameTriple(gone, gone)
    ensures var ops := [DeleteTriple(gone), PutTriple(next)];
      Commit(Just([gone]), ops) == Just([next]) && Deletes(ops) == [gone] && !HasDeleteKey(ops)
  {
    var first, ops := [DeleteTriple(gone)], [DeleteTriple(gone), PutTriple(next)];
    assert ops[..1] == first && first[..0] == [] && [gone][..0] == [];
    assert Filter([gone], IsNot(gone)) == [];
    assert Commit(Just([gone]), first) == Just([]);
    assert Deletes(first) == Deletes([]) + [gone];
    assert Deletes(ops) == Deletes(first) + [];
  }

  /** What the provider knows does not matter once the index is full: only evictions happen. */
  lemma FullIndexOnlyEvicts(
      p: Provider, entries: seq<Term>, dict: Dictionary, s: Store, ops: seq<WriteOperation>, x: Term)
    requires EntriesOk(p, entries)
    ensures Listed(Incremental(p, |entries|, entries, dict, s, ops), x) <==>
      Listed(entries, x) && (Has(TermsOf(dict, Deletes(ops)), x) ==> Referenced(dict, s, x))
  {
    BatchIs(p, |entries|, entries, ToIndex(dict, ops));
    IncrementalHas(p, |entries|, entries, dict, s, ops, x);
  }

  lemma ReplacedTerms(dict: Dictionary, a: Str, b: Str)
    requires dict == map[1 := a, 2 := b] && a != b && !LooksBlank(a)
    ensures var s := Just([Plain(2, b)]);
      Wanted(dict, s, IriTerm(b)) && !Referenced(dict, s, IriTerm(a))
    ensures Has(TermsOf(dict, [Plain(1, a)]), IriTerm(a))
  {
    var gone, s := Plain(1, a), Just([Plain(2, b)]);
    OnlyTerms(dict, [Plain(2, b)], [IriTerm(b)]);
    assert IriTerm(b) in [IriTerm(b)] && IriTerm(a) !in [IriTerm(b)];
    ReferencedIff(dict, s, IriTerm(a));
    PlainTerms(dict, 1, a, IriTerm(a));
    assert gone in [gone];
    ListedTermsOf(dict, [gone], IriTerm(a));
  }

  /** A full index takes nothing new, although the very same batch then evicts what filled it. */
  lemma EvictionComesTooLate()
    returns (p: Provider, dict: Dictionary, gone: Triple, next: Triple, x: Term, y: Term)
    ensures EntriesOk(p, [x]) && InSync(dict, Just([gone]), [x])
    ensures var ops := [DeleteTriple(gone), PutTriple(next)];
      var s := Commit(Just([gone]), ops);
      var after := Incremental(p, 1, [x], dict, s, ops);
      Wanted(dict, s, y) && !Listed(after, y) && !Listed(after, x)
  {
    var _, a, b := TwoLetters();
    UnitEmbeds();
    gone, next, x, y := Plain(1, a), Plain(2, b), IriTerm(a), IriTerm(b);
    p, dict := Unit(), map[1 := a, 2 := b];
    var ops, s := [DeleteTriple(gone), PutTriple(next)], Just([next]);
    OnlyTerms(dict, [gone], [x]);
    ReplaceOne(gone, next);
    ReplacedTerms(dict, a, b);
    ListedIris([x], y);
    FullIndexOnlyEvicts(p, [x], dict, s, ops, x);
    FullIndexOnlyEvicts(p, [x], dict, s, ops, y);
  }

  // ---------- Floating point ----------

  const ZERO: Term := LiteralTerm(DoubleValue(0))
  const MINUS_ZERO: Term := LiteralTerm(DoubleValue(0x8000_0000_0000_0000))

  /** An indexed NaN outlives even the full difference with an empty store. */
  lemma NaNOutlivesItsStore(p: Provider, cap: nat, dict: Dictionary)
    ensures NAN in FromStore(p, cap, [NAN], dict, Just([])) && !Occurs(dict, Just([]), NAN)
  {
    assert [NAN][0] == NAN;
    assert Listed([], NAN) <==> false;
    StoreTerms(dict, Just([]), NAN);
    StuckNaN(p, cap, [NAN], dict, Just([]), NAN);
  }

  lemma ZeroAlone(p: Provider)
    requires Embeds(p, ZERO)
    ensures EntriesOk(p, [ZERO]) && AllShort([ZERO]) && Norm(MINUS_ZERO) == ZERO == Norm(ZERO) && !IsNaN(ZERO)
  {
  }

  /** One zero is indexed and the store has the other: the full difference takes the one out and leaves the other out. */
  lemma WrongZeroIsDropped(p: Provider, cap: nat, dict: Dictionary, verb: Str)
    requires Embeds(p, ZERO) && dict == map[]
    ensures var s := Just([Triple(1, verb, MINUS_ZERO)]);
      !Listed(FromStore(p, cap, [ZERO], dict, s), ZERO) && Occurs(dict, s, ZERO)
  {
    var t := Triple(1, verb, MINUS_ZERO);
    ZeroAlone(p);
    OneStatement(dict, t);
    StoreTerms(dict, Just([t]), ZERO);
    assert Norm(Present(dict, Just([t]))[1]) == Norm(ZERO);
    AmongIff(Present(dict, Just([t])), ZERO);
    ListedStays(p, cap, [ZERO], dict, Just([t]), ZERO, ZERO);
  }

  /** Put beside an indexed zero, the other zero stays out: in step, but not to the bit. */
  lemma OtherZeroStaysOut(
      p: Provider, cap: nat, entries: seq<Term>, dict: Dictionary, s: Store, ops: seq<WriteOperation>)
    requires EntriesOk(p, entries) && ZERO in entries && MINUS_ZERO in Present(dict, s)
    ensures MINUS_ZERO !in Incremental(p, cap, entries, dict, s, ops)
    ensures !InSyncInBits(dict, s, Incremental(p, cap, entries, dict, s, ops))
  {
    var batch := Batch(p, cap, entries, ToIndex(dict, ops));
    assert Norm(MINUS_ZERO) == Norm(ZERO);
    ListedIn(entries, ZERO);
    if MINUS_ZERO in entries { ApartZeros(entries, ZERO, MINUS_ZERO); }
    BatchIs(p, cap, entries, ToIndex(dict, ops));
    UpsertAllKeeps(p, entries, batch);
    RemoveAllIs(p, UpsertAll(p, entries, batch), ToEvict(dict, s, ops));
  }

  lemma OneStatement(dict: Dictionary, t: Triple)
    requires t.subject !in dict
    ensures Present(dict, Just([t])) == [IriTerm(t.verb), t.obj]
  {
    assert Statements(Just([t])) == [t];
    assert [t][..0] == [];
    assert TermsOf(dict, []) + TripleTerms(dict, t) == TripleTerms(dict, t);
  }
}
