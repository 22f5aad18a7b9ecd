/** What incremental reconciling leaves in the index. */
module ReconcileIndex {
  import opened Prelude
  import opened CanonicalSpec
  import opened TermEquality
  import opened SemanticDomain
  import opened SemanticService
  import opened Reconcile

  // ---------- A batch of writes ----------

  function PutsOf(op: WriteOperation): seq<Triple> {
    match op
    case PutTriple(t) => [t]
    case PutQuad(q) => [q.triple]
    case _ => []
  }

  function DeletesOf(op: WriteOperation): seq<Triple> {
    match op
    case DeleteTriple(t) => [t]
    case DeleteQuad(q) => [q.triple]
    case _ => []
  }

  function Puts(ops: seq<WriteOperation>): seq<Triple> {
    if ops == [] then [] else Puts(ops[..|ops| - 1]) + PutsOf(ops[|ops| - 1])
  }

  function Deletes(ops: seq<WriteOperation>): seq<Triple> {
    if ops == [] then [] else Deletes(ops[..|ops| - 1]) + DeletesOf(ops[|ops| - 1])
  }

  predicate HasDeleteKey(ops: seq<WriteOperation>) { exists i :: 0 <= i < |ops| && ops[i].DeleteKey? }

  lemma AlikeIsEquality(t: Triple, u: Triple, v: Triple)
    ensures AlikeTriples(t, u) && AlikeTriples(u, v) ==> AlikeTriples(t, v)
    ensures AlikeTriples(t, u) <==> AlikeTriples(u, t)
    ensures SameTriple(t, u) ==> AlikeTriples(t, u)
    ensures AlikeTriples(t, u) && SameTriple(t, v) ==> SameTriple(u, v) && SameTriple(v, u)
  {
  }

  lemma PutHeld(s: Store, op: WriteOperation, t: Triple)
    requires AlikeIn(PutsOf(op), t)
    ensures HoldsAlike(Committed(s, op), t)
  {
    var u := PutsOf(op)[0];
    if op.PutTriple? {
      if HasTriple(s.triples, u) {
        var i :| 0 <= i < |s.triples| && SameTriple(s.triples[i], u);
        assert Holds(s, s.triples[i]) && AlikeTriples(s.triples[i], t);
      } else {
        assert u in Committed(s, op).triples && Holds(Committed(s, op), u);
      }
    } else {
      if HasQuad(s.quads, op.quad) {
        var i :| 0 <= i < |s.quads| && SameQuad(s.quads[i], op.quad);
        assert s.quads[i] in s.quads;
        assert Holds(s, s.quads[i].triple) && AlikeTriples(s.quads[i].triple, t);
      } else {
        assert op.quad in Committed(s, op).quads && Holds(Committed(s, op), u);
      }
    }
  }

  /** One operation adds only what it puts. */
  lemma CommittedAdds(s: Store, op: WriteOperation, t: Triple)
    requires Holds(Committed(s, op), t)
    ensures Holds(s, t) || t in PutsOf(op)
  {
    match op
    case PutTriple(u) =>
    case PutQuad(q) =>
    case DeleteTriple(u) => FilterIn(s.triples, IsNot(u));
    case DeleteQuad(q) => FilterIn(s.quads, IsNotQuad(q));
    case DeleteKey(components) =>
      if components != [] {
        FilterIn(s.triples, OtherSubject(components[0]));
        FilterIn(s.quads, OtherQuadSubject(components[0]));
      }
  }

  lemma PutKeeps(s: Store, op: WriteOperation, t: Triple)
    requires (op.PutTriple? || op.PutQuad?) && Holds(s, t)
    ensures Holds(Committed(s, op), t)
  {
    assert forall x :: x in s.triples ==> x in Committed(s, op).triples;
    assert forall x :: x in s.quads ==> x in Committed(s, op).quads;
  }

  /** And loses only what equals something it deletes. */
  lemma CommittedLoses(s: Store, op: WriteOperation, t: Triple)
    requires !op.DeleteKey? && Holds(s, t) && !Holds(Committed(s, op), t)
    ensures exists u :: u in DeletesOf(op) && SameTriple(t, u)
  {
    match op
    case PutTriple(_) => PutKeeps(s, op, t);
    case PutQuad(_) => PutKeeps(s, op, t);
    case DeleteTriple(u) =>
      FilterIn(s.triples, IsNot(u));
      assert u in DeletesOf(op);
    case DeleteQuad(gone) =>
      FilterIn(s.quads, IsNotQuad(gone));
      var q :| q in s.quads && q.triple == t;
      assert SameQuad(q, gone) && gone.triple in DeletesOf(op);
  }

  lemma CommittedStep(s: Store, op: WriteOperation, t: Triple)
    requires !op.DeleteKey?
    ensures HoldsAlike(Committed(s, op), t) ==> HoldsAlike(s, t) || AlikeIn(PutsOf(op), t)
    ensures (HoldsAlike(s, t) || AlikeIn(PutsOf(op), t)) && !HoldsAlike(Committed(s, op), t) ==>
      exists u :: u in DeletesOf(op) && SameTriple(t, u)
  {
    if HoldsAlike(Committed(s, op), t) {
      var w :| Holds(Committed(s, op), w) && AlikeTriples(w, t);
      CommittedAdds(s, op, w);
    }
    if AlikeIn(PutsOf(op), t) { PutHeld(s, op, t); }
    if HoldsAlike(s, t) && !HoldsAlike(Committed(s, op), t) {
      var w :| Holds(s, w) && AlikeTriples(w, t);
      CommittedLoses(s, op, w);
      var u :| u in DeletesOf(op) && SameTriple(w, u);
      AlikeIsEquality(w, t, u);
    }
  }

  /**
   * Up to the sign of zeros, a statement gained by a batch was put, and one lost equals one deleted. So a statement
   * about a NaN is never lost.
   */
  lemma {:induction false} CommitSteps(s: Store, ops: seq<WriteOperation>, t: Triple)
    requires !HasDeleteKey(ops)
    ensures HoldsAlike(Commit(s, ops), t) ==> HoldsAlike(s, t) || AlikeIn(Puts(ops), t)
    ensures (HoldsAlike(s, t) || AlikeIn(Puts(ops), t)) && !HoldsAlike(Commit(s, ops), t) ==>
      exists u :: u in Deletes(ops) && SameTriple(t, u)
  {
    if ops != [] {
      var n := |ops| - 1;
      assert forall i :: 0 <= i < n ==> ops[..n][i] == ops[i];
      CommitSteps(s, ops[..n], t);
      CommittedStep(Commit(s, ops[..n]), ops[n], t);
    }
  }

  // ---------- The incremental path ----------

  function Unreferenced(dict: Dictionary, s: Store): Term -> bool { x => !Referenced(dict, s, x) }

  function ToIndex(dict: Dictionary, ops: seq<WriteOperation>): seq<Term> { TermsOf(dict, Puts(ops)) }

  function ToEvict(dict: Dictionary, s: Store, ops: seq<WriteOperation>): seq<Term> {
    Filter(TermsOf(dict, Deletes(ops)), Unreferenced(dict, s))
  }

  /** The index after a batch; `s` is the store after it. */
  function Incremental(
      p: Provider, cap: nat, entries: seq<Term>, dict: Dictionary, s: Store, ops: seq<WriteOperation>): seq<Term>
  {
    RemoveAll(UpsertAll(p, entries, Batch(p, cap, entries, ToIndex(dict, ops))), ToEvict(dict, s, ops))
  }

  // ---------- Agreement with the store ----------

  /** The index holds the store's non-blank terms, no more and no fewer, up to the sign of zero. */
  ghost predicate InSync(dict: Dictionary, s: Store, entries: seq<Term>) {
    forall x: Term :: !x.BlankTerm? ==> (Listed(entries, x) <==> Wanted(dict, s, x))
  }

  /** Every put term that the store still wants was indexed already or made it into the batch. */
  ghost predicate NothingMissed(dict: Dictionary, s: Store, entries: seq<Term>, toIndex: seq<Term>, batch: seq<Term>) {
    forall x :: Listed(toIndex, x) && Wanted(dict, s, x) ==> Listed(entries, x) || Listed(batch, x)
  }

  ghost predicate NoPhantoms(dict: Dictionary, s: Store, entries: seq<Term>, batch: seq<Term>) {
    forall x :: Listed(entries, x) || Listed(batch, x) ==> !Phantom(dict, s, x)
  }

  lemma OccursNorm(dict: Dictionary, s: Store, x: Term, y: Term)
    requires Norm(x) == Norm(y)
    ensures Occurs(dict, s, x) <==> Occurs(dict, s, y)
  {
    forall t ensures Listed(TripleTerms(dict, t), x) <==> Listed(TripleTerms(dict, t), y) { }
  }

  /** Equal terms are held back alike. */
  lemma ReferencedSame(dict: Dictionary, s: Store, x: Term, y: Term)
    requires Same(x, y)
    ensures Referenced(dict, s, x) <==> Referenced(dict, s, y)
  {
    ReferencedIff(dict, s, x);
    ReferencedIff(dict, s, y);
    OccursNorm(dict, s, x, y);
  }

  lemma EvictedIff(dict: Dictionary, s: Store, ops: seq<WriteOperation>, x: Term)
    ensures Has(ToEvict(dict, s, ops), x) <==> Has(TermsOf(dict, Deletes(ops)), x) && !Referenced(dict, s, x)
  {
    var named, gone := TermsOf(dict, Deletes(ops)), ToEvict(dict, s, ops);
    FilterIn(named, Unreferenced(dict, s));
    if Has(gone, x) {
      var i :| 0 <= i < |gone| && Same(gone[i], x);
      assert gone[i] in gone;
      ListedIn(named, gone[i]);
      ReferencedSame(dict, s, gone[i], x);
    }
    if Has(named, x) && !Referenced(dict, s, x) {
      var i :| 0 <= i < |named| && Same(named[i], x);
      ReferencedSame(dict, s, named[i], x);
      assert named[i] in named;
      ListedIn(gone, named[i]);
    }
  }

  /** A term is indexed afterwards when it was or came with the batch, unless an equal one is named by a delete and let go. */
  lemma IncrementalHas(
      p: Provider, cap: nat, entries: seq<Term>, dict: Dictionary, s: Store, ops: seq<WriteOperation>, x: Term)
    requires EntriesOk(p, entries)
    ensures Listed(Incremental(p, cap, entries, dict, s, ops), x) <==>
      (Listed(entries, x) || Listed(Batch(p, cap, entries, ToIndex(dict, ops)), x))
      && (Has(TermsOf(dict, Deletes(ops)), x) ==> Referenced(dict, s, x))
  {
    var batch := Batch(p, cap, entries, ToIndex(dict, ops));
    BatchIs(p, cap, entries, ToIndex(dict, ops));
    UpsertAllKeeps(p, entries, batch);
    UpsertAllIs(p, entries, batch, x);
    ListedAfterRemoves(p, UpsertAll(p, entries, batch), ToEvict(dict, s, ops), x);
    EvictedIff(dict, s, ops, x);
  }

  lemma BatchListed(p: Provider, cap: nat, entries: seq<Term>, terms: seq<Term>, x: Term)
    requires Listed(Batch(p, cap, entries, terms), x)
    ensures Listed(terms, x)
  {
    var batch := Batch(p, cap, entries, terms);
    BatchIs(p, cap, entries, terms);
    var i :| 0 <= i < |batch| && Norm(batch[i]) == Norm(x);
    assert batch[i] in batch;
    ListedIn(terms, batch[i]);
  }

  /** A term of statements is one of an alike statement. */
  lemma AlikeListed(dict: Dictionary, ts: seq<Triple>, t: Triple, x: Term)
    requires AlikeIn(ts, t) && Listed(TripleTerms(dict, t), x)
    ensures Listed(TermsOf(dict, ts), x)
  {
    var u :| u in ts && AlikeTriples(u, t);
    AlikeTerms(dict, u, t, x);
    ListedTermsOf(dict, ts, x);
  }

  lemma AlikeOccurs(dict: Dictionary, s: Store, t: Triple, x: Term)
    requires HoldsAlike(s, t) && Listed(TripleTerms(dict, t), x)
    ensures Occurs(dict, s, x)
  {
    var u :| Holds(s, u) && AlikeTriples(u, t);
    AlikeTerms(dict, u, t, x);
  }

  /** A term the new store wants was in the old store or is put by the batch. */
  lemma WantedComesFrom(dict: Dictionary, s0: Store, ops: seq<WriteOperation>, x: Term)
    requires !HasDeleteKey(ops) && Wanted(dict, Commit(s0, ops), x)
    ensures Wanted(dict, s0, x) || Listed(ToIndex(dict, ops), x)
  {
    var t :| Holds(Commit(s0, ops), t) && Listed(TripleTerms(dict, t), x);
    assert AlikeTriples(t, t);
    CommitSteps(s0, ops, t);
    if HoldsAlike(s0, t) { AlikeOccurs(dict, s0, t, x); } else { AlikeListed(dict, Puts(ops), t, x); }
  }

  lemma DeletedHas(dict: Dictionary, ts: seq<Triple>, t: Triple, u: Triple, x: Term)
    requires u in ts && SameTriple(t, u) && Listed(TripleTerms(dict, t), x)
    ensures Has(TermsOf(dict, ts), x)
  {
    AlikeListed(dict, ts, t, x);
    TripleTermsAre(dict, t, x);
  }

  /** A term of the old store or the batch that the new store no longer wants equals one named by a delete. */
  lemma UnwantedWasDeleted(dict: Dictionary, s0: Store, ops: seq<WriteOperation>, x: Term)
    requires !HasDeleteKey(ops) && !x.BlankTerm? && !Wanted(dict, Commit(s0, ops), x)
    requires Wanted(dict, s0, x) || Listed(ToIndex(dict, ops), x)
    ensures Has(TermsOf(dict, Deletes(ops)), x)
  {
    ListedTermsOf(dict, Puts(ops), x);
    var t :| (Holds(s0, t) || t in Puts(ops)) && Listed(TripleTerms(dict, t), x);
    assert AlikeTriples(t, t);
    CommitSteps(s0, ops, t);
    if HoldsAlike(Commit(s0, ops), t) { AlikeOccurs(dict, Commit(s0, ops), t, x); }
    var u :| u in Deletes(ops) && SameTriple(t, u);
    DeletedHas(dict, Deletes(ops), t, u, x);
  }

  /** One term ends up right exactly when it is neither missed nor a phantom. */
  lemma TermInSyncIff(
      p: Provider, cap: nat, entries: seq<Term>, dict: Dictionary, s0: Store, ops: seq<WriteOperation>, x: Term)
    requires EntriesOk(p, entries) && InSync(dict, s0, entries) && !HasDeleteKey(ops) && !x.BlankTerm?
    ensures var s, batch := Commit(s0, ops), Batch(p, cap, entries, ToIndex(dict, ops));
      (Listed(Incremental(p, cap, entries, dict, s, ops), x) <==> Wanted(dict, s, x)) <==>
      (Listed(ToIndex(dict, ops), x) && Wanted(dict, s, x) ==> Listed(entries, x) || Listed(batch, x))
      && (Listed(entries, x) || Listed(batch, x) ==> !Phantom(dict, s, x))
  {
    var s := Commit(s0, ops);
    IncrementalHas(p, cap, entries, dict, s, ops, x);
    ReferencedIff(dict, s, x);
    if Listed(Batch(p, cap, entries, ToIndex(dict, ops)), x) { BatchListed(p, cap, entries, ToIndex(dict, ops), x); }
    if Wanted(dict, s, x) {
      WantedComesFrom(dict, s0, ops, x);
    } else if Wanted(dict, s0, x) || Listed(ToIndex(dict, ops), x) {
      UnwantedWasDeleted(dict, s0, ops, x);
    }
  }

  lemma BlanksAreNoPhantoms(dict: Dictionary, s: Store, x: Term)
    requires x.BlankTerm?
    ensures !Wanted(dict, s, x) && !Phantom(dict, s, x)
  {
  }

  /**
   * From an index in step with the store, a batch without key deletes leaves it in step with the new store exactly
   * when no wanted term is cut off by the cap or a failing provider, and no phantom is indexed.
   */
  lemma IncrementalInSyncIff(
      p: Provider, cap: nat, entries: seq<Term>, dict: Dictionary, s0: Store, ops: seq<WriteOperation>)
    requires EntriesOk(p, entries) && InSync(dict, s0, entries) && !HasDeleteKey(ops)
    ensures var s, batch := Commit(s0, ops), Batch(p, cap, entries, ToIndex(dict, ops));
      InSync(dict, s, Incremental(p, cap, entries, dict, s, ops)) <==>
      NothingMissed(dict, s, entries, ToIndex(dict, ops), batch) && NoPhantoms(dict, s, entries, batch)
  {
    var s := Commit(s0, ops);
    forall x: Term {:trigger Listed(Incremental(p, cap, entries, dict, s, ops), x)} | !x.BlankTerm?
      ensures
        (Listed(Incremental(p, cap, entries, dict, s, ops), x) <==> Wanted(dict, s, x)) <==>
        (Listed(ToIndex(dict, ops), x) && Wanted(dict, s, x) ==>
          Listed(entries, x) || Listed(Batch(p, cap, entries, ToIndex(dict, ops)), x))
        && (Listed(entries, x) || Listed(Batch(p, cap, entries, ToIndex(dict, ops)), x) ==> !Phantom(dict, s, x))
    {
      TermInSyncIff(p, cap, entries, dict, s0, ops, x);
    }
    forall x: Term | x.BlankTerm? ensures !Wanted(dict, s, x) && !Phantom(dict, s, x) {
      BlanksAreNoPhantoms(dict, s, x);
    }
  }

  /** With room for the batch, a provider that embeds it, and no blank-looking IRIs about, the index stays in step. */
  lemma IncrementalInSync(
      p: Provider, cap: nat, entries: seq<Term>, dict: Dictionary, s0: Store, ops: seq<WriteOperation>)
    requires EntriesOk(p, entries) && InSync(dict, s0, entries) && !HasDeleteKey(ops)
    requires |entries| + |Filter(ToIndex(dict, ops), Absent(entries))| <= cap
    requires forall x :: x in ToIndex(dict, ops) ==> Embeds(p, x)
    requires forall x :: x in entries || x in ToIndex(dict, ops) ==> x.IriTerm? ==> !LooksBlank(x.iri)
    ensures InSync(dict, Commit(s0, ops), Incremental(p, cap, entries, dict, Commit(s0, ops), ops))
  {
    var toIndex := ToIndex(dict, ops);
    var batch := Batch(p, cap, entries, toIndex);
    RoomForAll(p, cap, entries, toIndex);
    forall x | Listed(toIndex, x) ensures Listed(entries, x) || Listed(batch, x) {
      var i :| 0 <= i < |toIndex| && Norm(toIndex[i]) == Norm(x);
      assert toIndex[i] in toIndex;
      if toIndex[i] in batch { ListedIn(batch, toIndex[i]); }
    }
    forall x | Listed(entries, x) || Listed(batch, x) ensures !Phantom(dict, Commit(s0, ops), x) {
      if Listed(batch, x) { BatchListed(p, cap, entries, toIndex, x); }
      NotBlankLooking(entries, toIndex, x);
    }
    IncrementalInSyncIff(p, cap, entries, dict, s0, ops);
  }

  lemma NotBlankLooking(entries: seq<Term>, toIndex: seq<Term>, x: Term)
    requires forall y :: y in entries || y in toIndex ==> y.IriTerm? ==> !LooksBlank(y.iri)
    requires Listed(entries, x) || Listed(toIndex, x)
    ensures x.IriTerm? ==> !LooksBlank(x.iri)
  {
    var all := entries + toIndex;
    ListedJoin(entries, toIndex, x);
    var i :| 0 <= i < |all| && Norm(all[i]) == Norm(x);
    assert all[i] in all;
  }

  /** A blank node named by a delete leaves the index, even if other statements of the store still have it. */
  lemma BlankAlwaysEvicted(
      p: Provider, cap: nat, entries: seq<Term>, dict: Dictionary, s: Store, ops: seq<WriteOperation>, x: Term)
    requires EntriesOk(p, entries) && x.BlankTerm? && x in TermsOf(dict, Deletes(ops))
    ensures !Listed(Incremental(p, cap, entries, dict, s, ops), x)
  {
    IncrementalHas(p, cap, entries, dict, s, ops, x);
    ListedIn(TermsOf(dict, Deletes(ops)), x);
  }

  // ---------- In step to the bit ----------

  function Present(dict: Dictionary, s: Store): seq<Term> { TermsOf(dict, Statements(s)) }

  ghost predicate InSyncInBits(dict: Dictionary, s: Store, entries: seq<Term>) {
    forall x: Term :: !x.BlankTerm? ==> (x in entries <==> x in Present(dict, s))
  }

  /** No indexed term has another zero of the store beside it. */
  ghost predicate OneZero(dict: Dictionary, s: Store, entries: seq<Term>) {
    forall x, y :: x in entries && y in Present(dict, s) && Norm(x) == Norm(y) ==> x == y
  }

  lemma ListedBits(ts: seq<Term>, x: Term) returns (y: Term)
    requires Listed(ts, x)
    ensures y in ts && Norm(y) == Norm(x)
  {
    var i :| 0 <= i < |ts| && Norm(ts[i]) == Norm(x);
    y := ts[i];
  }

  /** Being in step to the bit is being in step, with no zero of the other sign in the store. */
  lemma InSyncInBitsIff(p: Provider, dict: Dictionary, s: Store, entries: seq<Term>)
    requires EntriesOk(p, entries)
    ensures InSyncInBits(dict, s, entries) <==> InSync(dict, s, entries) && OneZero(dict, s, entries)
  {
    if InSyncInBits(dict, s, entries) {
      BitsMeanSync(dict, s, entries);
      BitsMeanOneZero(p, dict, s, entries);
    }
    if InSync(dict, s, entries) && OneZero(dict, s, entries) {
      forall x: Term | !x.BlankTerm? ensures x in entries <==> x in Present(dict, s) {
        StoreTerms(dict, s, x);
        if x in entries {
          ListedIn(entries, x);
          var y := ListedBits(Present(dict, s), x);
        }
        if x in Present(dict, s) {
          ListedIn(Present(dict, s), x);
          var y := ListedBits(entries, x);
        }
      }
    }
  }

  lemma BitsMeanSync(dict: Dictionary, s: Store, entries: seq<Term>)
    requires InSyncInBits(dict, s, entries)
    ensures InSync(dict, s, entries)
  {
    var present := Present(dict, s);
    forall x: Term | !x.BlankTerm? ensures Listed(entries, x) <==> Wanted(dict, s, x) {
      StoreTerms(dict, s, x);
      if Listed(entries, x) {
        var y := ListedBits(entries, x);
        ListedIn(present, y);
      }
      if Listed(present, x) {
        var y := ListedBits(present, x);
        ListedIn(entries, y);
      }
    }
  }

  lemma BitsMeanOneZero(p: Provider, dict: Dictionary, s: Store, entries: seq<Term>)
    requires EntriesOk(p, entries) && InSyncInBits(dict, s, entries)
    ensures OneZero(dict, s, entries)
  {
    forall x, y | x in entries && y in Present(dict, s) && Norm(x) == Norm(y) ensures x == y {
      ApartZeros(entries, x, y);
    }
  }
}
