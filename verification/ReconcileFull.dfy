/** What reconciling from the whole store leaves in the index. */
module ReconcileFull {
  import opened Prelude
  import opened CanonicalSpec
  import opened TermEquality
  import opened SemanticDomain
  import opened SemanticService
  import opened Reconcile
  import opened ReconcileIndex

  // ---------- The full difference ----------

  function BytesOf(ts: seq<Term>): set<Bytes> { set x | x in ts :: TermBytes(x) }

  function NotAmong(ts: seq<Term>): Term -> bool { x => TermBytes(x) !in BytesOf(ts) }

  function ToAdd(dict: Dictionary, s: Store, entries: seq<Term>): seq<Term> {
    Filter(Present(dict, s), NotAmong(entries))
  }

  function ToDrop(dict: Dictionary, s: Store, entries: seq<Term>): seq<Term> {
    Filter(entries, NotAmong(Present(dict, s)))
  }

  function FromStore(p: Provider, cap: nat, entries: seq<Term>, dict: Dictionary, s: Store): seq<Term> {
    RemoveAll(UpsertAll(p, entries, Batch(p, cap, entries, ToAdd(dict, s, entries))), ToDrop(dict, s, entries))
  }

  /** The index after a committed write; `ops` is `None` when the applied operations are not known. */
  function Reconciled(
      p: Provider, cap: nat, entries: seq<Term>, dict: Dictionary, s: Store, ops: Option<seq<WriteOperation>>)
    : seq<Term>
  {
    if ops.Some? && !HasDeleteKey(ops.value) then Incremental(p, cap, entries, dict, s, ops.value)
    else FromStore(p, cap, entries, dict, s)
  }

  // ---------- What the full difference leaves ----------

  /** What is to be added and dropped is decided on bytes, unlike what then happens. */
  lemma DifferenceIs(dict: Dictionary, s: Store, entries: seq<Term>)
    ensures forall x :: x in ToAdd(dict, s, entries) <==>
      x in Present(dict, s) && TermBytes(x) !in BytesOf(entries)
    ensures forall x :: x in ToDrop(dict, s, entries) <==>
      x in entries && TermBytes(x) !in BytesOf(Present(dict, s))
  {
    FilterIn(Present(dict, s), NotAmong(entries));
    FilterIn(entries, NotAmong(Present(dict, s)));
  }

  function AddedBatch(p: Provider, cap: nat, entries: seq<Term>, dict: Dictionary, s: Store): seq<Term> {
    Batch(p, cap, entries, ToAdd(dict, s, entries))
  }

  lemma AddedIsNew(p: Provider, cap: nat, entries: seq<Term>, dict: Dictionary, s: Store)
    ensures forall x :: x in AddedBatch(p, cap, entries, dict, s) ==> x in Present(dict, s) && !Has(entries, x)
  {
    BatchIs(p, cap, entries, ToAdd(dict, s, entries));
    DifferenceIs(dict, s, entries);
  }

  /** Bit by bit: what stays was there or was added, and equals nothing dropped. */
  lemma FromStoreIn(p: Provider, cap: nat, entries: seq<Term>, dict: Dictionary, s: Store, x: Term)
    requires EntriesOk(p, entries)
    ensures x in FromStore(p, cap, entries, dict, s) ==>
      (x in entries || x in AddedBatch(p, cap, entries, dict, s)) && !Has(ToDrop(dict, s, entries), x)
    ensures x in entries && !Has(ToDrop(dict, s, entries), x) ==> x in FromStore(p, cap, entries, dict, s)
  {
    var batch := AddedBatch(p, cap, entries, dict, s);
    UpsertAllKeeps(p, entries, batch);
    RemoveAllIs(p, UpsertAll(p, entries, batch), ToDrop(dict, s, entries));
  }

  lemma FromStoreKeepsOk(p: Provider, cap: nat, entries: seq<Term>, dict: Dictionary, s: Store)
    requires EntriesOk(p, entries)
    ensures EntriesOk(p, FromStore(p, cap, entries, dict, s))
  {
    UpsertAllKeeps(p, entries, AddedBatch(p, cap, entries, dict, s));
    RemoveAllIs(p, UpsertAll(p, entries, AddedBatch(p, cap, entries, dict, s)), ToDrop(dict, s, entries));
  }

  /** An indexed term that is left alone: some term of the store has its bytes, or it cannot be removed. */
  predicate LeftAlone(present: seq<Term>, x: Term) { IsNaN(x) || TermBytes(x) in BytesOf(present) }

  /** The dropped terms are those not left alone, NaN aside. */
  lemma DroppedIff(p: Provider, dict: Dictionary, s: Store, entries: seq<Term>, x: Term, y: Term)
    requires EntriesOk(p, entries) && y in entries && Norm(y) == Norm(x)
    ensures Has(ToDrop(dict, s, entries), x) <==> !LeftAlone(Present(dict, s), y)
  {
    var drop := ToDrop(dict, s, entries);
    DifferenceIs(dict, s, entries);
    if Has(drop, x) {
      var z := ListedBits(drop, x);
      ApartZeros(entries, y, z);
    }
    if !LeftAlone(Present(dict, s), y) { ListedIn(drop, y); }
  }

  /** Every indexed term that is left alone is in the store. */
  ghost predicate NoneStuck(present: seq<Term>, entries: seq<Term>) {
    forall x :: x in entries && LeftAlone(present, x) ==> x in present
  }

  /** Reconciling from the store leaves only terms of the store, whatever the cap does, exactly when none is stuck. */
  lemma FromStoreNoStrangerIff(p: Provider, cap: nat, entries: seq<Term>, dict: Dictionary, s: Store)
    requires EntriesOk(p, entries)
    ensures (forall x :: x in FromStore(p, cap, entries, dict, s) ==> x in Present(dict, s)) <==>
      NoneStuck(Present(dict, s), entries)
  {
    var after, present := FromStore(p, cap, entries, dict, s), Present(dict, s);
    AddedIsNew(p, cap, entries, dict, s);
    forall x | x in after || x in entries
      ensures x in after && x in entries ==> LeftAlone(present, x)
      ensures x in entries && LeftAlone(present, x) ==> x in after
      ensures x in after ==> x in entries || x in present
    {
      FromStoreIn(p, cap, entries, dict, s, x);
      if x in entries { DroppedIff(p, dict, s, entries, x, x); }
    }
  }

  /** No full difference drops a NaN. */
  lemma StuckNaN(p: Provider, cap: nat, entries: seq<Term>, dict: Dictionary, s: Store, x: Term)
    requires IsNaN(x) && x in entries
    ensures x in FromStore(p, cap, entries, dict, s)
  {
    UpsertAllHolds(p, entries, AddedBatch(p, cap, entries, dict, s), x);
    RemoveAllKeeps(UpsertAll(p, entries, AddedBatch(p, cap, entries, dict, s)), ToDrop(dict, s, entries), x);
  }

  lemma {:induction false} UpsertAllHolds(p: Provider, entries: seq<Term>, terms: seq<Term>, x: Term)
    requires x in entries
    ensures x in UpsertAll(p, entries, terms)
  {
    if terms != [] { UpsertAllHolds(p, entries, terms[..|terms| - 1], x); }
  }

  lemma {:induction false} RemoveAllKeeps(entries: seq<Term>, terms: seq<Term>, x: Term)
    requires IsNaN(x) && x in entries
    ensures x in RemoveAll(entries, terms)
  {
    if terms != [] {
      RemoveAllKeeps(entries, terms[..|terms| - 1], x);
      RemoveKeepsNaNs(RemoveAll(entries, terms[..|terms| - 1]), terms[|terms| - 1], x);
    }
  }

  /** The index lists exactly the store's terms, blank nodes included. */
  ghost predicate Mirrors(dict: Dictionary, s: Store, entries: seq<Term>) {
    forall x: Term :: Listed(entries, x) <==> Occurs(dict, s, x)
  }

  lemma FromStoreListed(p: Provider, cap: nat, entries: seq<Term>, dict: Dictionary, s: Store, x: Term)
    requires EntriesOk(p, entries)
    ensures Listed(FromStore(p, cap, entries, dict, s), x) <==>
      (Listed(entries, x) || Listed(AddedBatch(p, cap, entries, dict, s), x)) && !Has(ToDrop(dict, s, entries), x)
  {
    var batch := AddedBatch(p, cap, entries, dict, s);
    BatchIs(p, cap, entries, ToAdd(dict, s, entries));
    UpsertAllKeeps(p, entries, batch);
    UpsertAllIs(p, entries, batch, x);
    ListedAfterRemoves(p, UpsertAll(p, entries, batch), ToDrop(dict, s, entries), x);
  }

  /** The one indexed term that stands for `x` decides. */
  lemma ListedStays(p: Provider, cap: nat, entries: seq<Term>, dict: Dictionary, s: Store, x: Term, y: Term)
    requires EntriesOk(p, entries) && y in entries && Norm(y) == Norm(x)
    ensures Listed(FromStore(p, cap, entries, dict, s), x) <==> LeftAlone(Present(dict, s), y)
  {
    FromStoreListed(p, cap, entries, dict, s, x);
    ListedIn(entries, y);
    DroppedIff(p, dict, s, entries, x, y);
  }

  lemma UnlistedIsAdded(p: Provider, cap: nat, entries: seq<Term>, dict: Dictionary, s: Store, x: Term)
    requires EntriesOk(p, entries) && !Listed(entries, x)
    ensures Listed(FromStore(p, cap, entries, dict, s), x) <==> Listed(AddedBatch(p, cap, entries, dict, s), x)
    ensures Listed(AddedBatch(p, cap, entries, dict, s), x) ==> Listed(Present(dict, s), x)
  {
    var drop, batch := ToDrop(dict, s, entries), AddedBatch(p, cap, entries, dict, s);
    FromStoreListed(p, cap, entries, dict, s, x);
    DifferenceIs(dict, s, entries);
    AddedIsNew(p, cap, entries, dict, s);
    if Has(drop, x) {
      var z := ListedBits(drop, x);
      ListedIn(entries, z);
    }
    if Listed(batch, x) {
      var z := ListedBits(batch, x);
      ListedIn(Present(dict, s), z);
    }
  }

  /** `x` comes out right: it is taken if unlisted, and the indexed term that stands for it is judged right. */
  ghost predicate GetsRight(present: seq<Term>, entries: seq<Term>, batch: seq<Term>, x: Term) {
    && (Listed(present, x) && !Listed(entries, x) ==> Listed(batch, x))
    && forall y :: y in entries && Norm(y) == Norm(x) ==> (LeftAlone(present, y) <==> Listed(present, y))
  }

  lemma TermRightIff(p: Provider, cap: nat, entries: seq<Term>, dict: Dictionary, s: Store, x: Term)
    requires EntriesOk(p, entries)
    ensures (Listed(FromStore(p, cap, entries, dict, s), x) <==> Occurs(dict, s, x)) <==>
      GetsRight(Present(dict, s), entries, AddedBatch(p, cap, entries, dict, s), x)
  {
    var present := Present(dict, s);
    StoreTerms(dict, s, x);
    if Listed(entries, x) {
      var y := ListedBits(entries, x);
      ListedStays(p, cap, entries, dict, s, x, y);
      forall z | z in entries && Norm(z) == Norm(x) ensures z == y { ApartZeros(entries, y, z); }
      assert Listed(present, x) <==> Listed(present, y);
    } else {
      UnlistedIsAdded(p, cap, entries, dict, s, x);
      forall z | z in entries ensures Norm(z) != Norm(x) {
        if Norm(z) == Norm(x) { ListedIn(entries, z); }
      }
    }
  }

  /** Every term of the store that is not listed is in the batch. */
  ghost predicate AllTaken(present: seq<Term>, entries: seq<Term>, batch: seq<Term>) {
    forall x: Term :: Listed(present, x) && !Listed(entries, x) ==> Listed(batch, x)
  }

  /** An indexed term is left alone exactly when the store lists it. */
  ghost predicate JudgedRight(present: seq<Term>, entries: seq<Term>) {
    forall y :: y in entries ==> (LeftAlone(present, y) <==> Listed(present, y))
  }

  /** The result mirrors the store exactly when no unlisted term is cut off and every indexed one is judged right. */
  lemma FromStoreCompleteIff(p: Provider, cap: nat, entries: seq<Term>, dict: Dictionary, s: Store)
    requires EntriesOk(p, entries)
    ensures Mirrors(dict, s, FromStore(p, cap, entries, dict, s)) <==>
      && AllTaken(Present(dict, s), entries, AddedBatch(p, cap, entries, dict, s))
      && JudgedRight(Present(dict, s), entries)
  {
    var present, batch := Present(dict, s), AddedBatch(p, cap, entries, dict, s);
    AllRightIff(present, entries, batch);
    if Mirrors(dict, s, FromStore(p, cap, entries, dict, s)) {
      forall x ensures GetsRight(present, entries, batch, x) { TermRightIff(p, cap, entries, dict, s, x); }
    }
    if forall x :: GetsRight(present, entries, batch, x) {
      forall x: Term ensures Listed(FromStore(p, cap, entries, dict, s), x) <==> Occurs(dict, s, x) {
        TermRightIff(p, cap, entries, dict, s, x);
      }
    }
  }

  lemma AllRightIff(present: seq<Term>, entries: seq<Term>, batch: seq<Term>)
    ensures (forall x :: GetsRight(present, entries, batch, x)) <==>
      AllTaken(present, entries, batch) && JudgedRight(present, entries)
  {
    if forall x :: GetsRight(present, entries, batch, x) {
      forall x: Term | Listed(present, x) && !Listed(entries, x) ensures Listed(batch, x) {
        assert GetsRight(present, entries, batch, x);
      }
      forall y | y in entries ensures LeftAlone(present, y) <==> Listed(present, y) {
        assert GetsRight(present, entries, batch, y);
      }
    }
  }

  // ---------- Where bytes tell terms apart ----------

  ghost predicate AllShort(ts: seq<Term>) { forall x :: x in ts ==> ShortTerm(x) }

  /** Bytes tell the terms of the index and of the store apart. */
  ghost predicate BytesTell(dict: Dictionary, s: Store, entries: seq<Term>) {
    AllShort(entries) && AllShort(Present(dict, s))
  }

  lemma AmongIff(ts: seq<Term>, x: Term)
    requires AllShort(ts) && ShortTerm(x)
    ensures TermBytes(x) in BytesOf(ts) <==> x in ts
  {
    if TermBytes(x) in BytesOf(ts) {
      var y :| y in ts && TermBytes(x) == TermBytes(y);
      TermBytesIff(x, y);
    }
  }

  /** Every indexed NaN is in the store. */
  ghost predicate NoStuckNaN(present: seq<Term>, entries: seq<Term>) {
    forall x :: x in entries && IsNaN(x) ==> x in present
  }

  /** No indexed zero stands for another zero of the store only. */
  ghost predicate NoOtherZero(present: seq<Term>, entries: seq<Term>) {
    forall x :: x in entries && Listed(present, x) ==> x in present
  }

  /** Without fields of 2^32 bytes only a NaN gets stuck, and only a NaN or a zero is judged wrong. */
  lemma OnlyFloatsGoWrong(dict: Dictionary, s: Store, entries: seq<Term>)
    requires BytesTell(dict, s, entries)
    ensures var present := Present(dict, s);
      && (NoneStuck(present, entries) <==> NoStuckNaN(present, entries))
      && (JudgedRight(present, entries) <==> NoStuckNaN(present, entries) && NoOtherZero(present, entries))
  {
    var present := Present(dict, s);
    forall x | x in entries
      ensures LeftAlone(present, x) <==> IsNaN(x) || x in present
      ensures x in present ==> Listed(present, x)
      ensures IsNaN(x) && Listed(present, x) ==> x in present
    {
      AmongIff(present, x);
      if x in present { ListedIn(present, x); }
      if Listed(present, x) { var y := ListedBits(present, x); }
    }
  }

  // ---------- In step again ----------

  /** What the full difference needs to leave the non-blank terms right. */
  ghost predicate NamedRight(present: seq<Term>, entries: seq<Term>, batch: seq<Term>) {
    forall x: Term :: !x.BlankTerm? ==> GetsRight(present, entries, batch, x)
  }

  /** From any index the full difference leaves one in step exactly when it gets every non-blank term right. */
  lemma FromStoreInSyncIff(p: Provider, cap: nat, entries: seq<Term>, dict: Dictionary, s: Store)
    requires EntriesOk(p, entries)
    ensures InSync(dict, s, FromStore(p, cap, entries, dict, s)) <==>
      NamedRight(Present(dict, s), entries, AddedBatch(p, cap, entries, dict, s))
  {
    var present, batch := Present(dict, s), AddedBatch(p, cap, entries, dict, s);
    if InSync(dict, s, FromStore(p, cap, entries, dict, s)) {
      forall x: Term | !x.BlankTerm? ensures GetsRight(present, entries, batch, x) {
        TermRightIff(p, cap, entries, dict, s, x);
      }
    }
    if NamedRight(present, entries, batch) {
      forall x: Term | !x.BlankTerm? ensures Listed(FromStore(p, cap, entries, dict, s), x) <==> Wanted(dict, s, x) {
        TermRightIff(p, cap, entries, dict, s, x);
      }
    }
  }

  /** When neither path loses a term, both leave the same non-blank terms. */
  lemma PathsAgree(
      p: Provider, cap: nat, entries: seq<Term>, dict: Dictionary, s0: Store, ops: seq<WriteOperation>, x: Term)
    requires EntriesOk(p, entries) && InSync(dict, s0, entries) && !HasDeleteKey(ops) && !x.BlankTerm?
    requires var s := Commit(s0, ops);
      && NothingMissed(dict, s, entries, ToIndex(dict, ops), Batch(p, cap, entries, ToIndex(dict, ops)))
      && NoPhantoms(dict, s, entries, Batch(p, cap, entries, ToIndex(dict, ops)))
      && NamedRight(Present(dict, s), entries, AddedBatch(p, cap, entries, dict, s))
    ensures var s := Commit(s0, ops);
      Listed(Incremental(p, cap, entries, dict, s, ops), x) <==> Listed(FromStore(p, cap, entries, dict, s), x)
  {
    IncrementalInSyncIff(p, cap, entries, dict, s0, ops);
    FromStoreInSyncIff(p, cap, entries, dict, Commit(s0, ops));
  }
}
