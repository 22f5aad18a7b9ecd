/** Index and store over whole runs of committed writes. */
module ReconcileRuns {
  import opened Prelude
  import opened CanonicalSpec
  import opened SemanticDomain
  import opened SemanticService
  import opened Reconcile
  import opened ReconcileIndex
  import opened ReconcileFull

  /** One committed write: the dictionary by then, the operations, and whether reconciling is told them. */
  datatype Change = Change(dict: Dictionary, ops: seq<WriteOperation>, told: bool)

  function AfterChange(p: Provider, cap: nat, entries: seq<Term>, s: Store, c: Change): seq<Term> {
    Reconciled(p, cap, entries, c.dict, Commit(s, c.ops), if c.told then Some(c.ops) else None)
  }

  function StoreAfter(s: Store, cs: seq<Change>): Store {
    if cs == [] then s else Commit(StoreAfter(s, cs[..|cs| - 1]), cs[|cs| - 1].ops)
  }

  function IndexAfter(p: Provider, cap: nat, entries: seq<Term>, s: Store, cs: seq<Change>): seq<Term> {
    if cs == [] then entries
    else
      var n := |cs| - 1;
      AfterChange(p, cap, IndexAfter(p, cap, entries, s, cs[..n]), StoreAfter(s, cs[..n]), cs[n])
  }

  function DictAfter(dict: Dictionary, cs: seq<Change>): Dictionary {
    if cs == [] then dict else cs[|cs| - 1].dict
  }

  // ---------- A growing dictionary ----------

  /** The subjects of the store are in the dictionary. */
  ghost predicate Known(dict: Dictionary, s: Store) {
    forall t :: Holds(s, t) ==> t.subject in dict
  }

  /** The dictionary only gains nodes, and has the subjects of what is put before it is put. */
  ghost predicate Grows(dict: Dictionary, c: Change) {
    && (forall k :: k in dict ==> k in c.dict && c.dict[k] == dict[k])
    && forall t :: t in Puts(c.ops) ==> t.subject in c.dict
  }

  ghost predicate Growing(dict: Dictionary, cs: seq<Change>) {
    cs == [] || (Growing(dict, cs[..|cs| - 1]) && Grows(DictAfter(dict, cs[..|cs| - 1]), cs[|cs| - 1]))
  }

  /** A store that is known means the same to a larger dictionary. */
  lemma SameTerms(dict: Dictionary, dict': Dictionary, s: Store, x: Term)
    requires Known(dict, s) && forall k :: k in dict ==> k in dict' && dict'[k] == dict[k]
    ensures Occurs(dict, s, x) <==> Occurs(dict', s, x)
  {
    forall t | Holds(s, t) ensures TripleTerms(dict, t) == TripleTerms(dict', t) { }
  }

  lemma {:induction false} CommitAdds(s: Store, ops: seq<WriteOperation>, t: Triple)
    requires Holds(Commit(s, ops), t)
    ensures Holds(s, t) || t in Puts(ops)
  {
    if ops != [] {
      var n := |ops| - 1;
      CommittedAdds(Commit(s, ops[..n]), ops[n], t);
      if Holds(Commit(s, ops[..n]), t) { CommitAdds(s, ops[..n], t); }
    }
  }

  lemma CommitKnown(dict: Dictionary, s: Store, c: Change)
    requires Known(dict, s) && Grows(dict, c)
    ensures Known(c.dict, Commit(s, c.ops))
  {
    forall t | Holds(Commit(s, c.ops), t) ensures t.subject in c.dict { CommitAdds(s, c.ops, t); }
  }

  lemma {:induction false} StaysKnown(dict: Dictionary, s: Store, cs: seq<Change>)
    requires Known(dict, s) && Growing(dict, cs)
    ensures Known(DictAfter(dict, cs), StoreAfter(s, cs))
  {
    if cs != [] {
      var n := |cs| - 1;
      StaysKnown(dict, s, cs[..n]);
      CommitKnown(DictAfter(dict, cs[..n]), StoreAfter(s, cs[..n]), cs[n]);
    }
  }

  // ---------- Runs ----------

  /** One write needs nothing cut off and no phantom, or a full difference that gets every non-blank term right. */
  ghost predicate GoesRight(p: Provider, cap: nat, entries: seq<Term>, s: Store, c: Change) {
    var after := Commit(s, c.ops);
    if c.told && !HasDeleteKey(c.ops) then
      var toIndex := ToIndex(c.dict, c.ops);
      && NothingMissed(c.dict, after, entries, toIndex, Batch(p, cap, entries, toIndex))
      && NoPhantoms(c.dict, after, entries, Batch(p, cap, entries, toIndex))
    else NamedRight(Present(c.dict, after), entries, AddedBatch(p, cap, entries, c.dict, after))
  }

  lemma IncrementalKeepsOk(
      p: Provider, cap: nat, entries: seq<Term>, dict: Dictionary, s: Store, ops: seq<WriteOperation>)
    requires EntriesOk(p, entries)
    ensures EntriesOk(p, Incremental(p, cap, entries, dict, s, ops))
  {
    var batch := Batch(p, cap, entries, ToIndex(dict, ops));
    UpsertAllKeeps(p, entries, batch);
    RemoveAllIs(p, UpsertAll(p, entries, batch), ToEvict(dict, s, ops));
  }

  lemma AfterKeepsOk(p: Provider, cap: nat, entries: seq<Term>, s: Store, c: Change)
    requires EntriesOk(p, entries)
    ensures EntriesOk(p, AfterChange(p, cap, entries, s, c))
  {
    IncrementalKeepsOk(p, cap, entries, c.dict, Commit(s, c.ops), c.ops);
    FromStoreKeepsOk(p, cap, entries, c.dict, Commit(s, c.ops));
  }

  lemma {:induction false} RunKeepsOk(p: Provider, cap: nat, entries: seq<Term>, s: Store, cs: seq<Change>)
    requires EntriesOk(p, entries)
    ensures EntriesOk(p, IndexAfter(p, cap, entries, s, cs))
  {
    if cs != [] {
      var n := |cs| - 1;
      RunKeepsOk(p, cap, entries, s, cs[..n]);
      AfterKeepsOk(p, cap, IndexAfter(p, cap, entries, s, cs[..n]), StoreAfter(s, cs[..n]), cs[n]);
    }
  }

  /** From an index in step one write leaves it in step exactly when it goes right. */
  lemma ChangeInSyncIff(p: Provider, cap: nat, entries: seq<Term>, dict: Dictionary, s: Store, c: Change)
    requires EntriesOk(p, entries) && Known(dict, s) && Grows(dict, c) && InSync(dict, s, entries)
    ensures InSync(c.dict, Commit(s, c.ops), AfterChange(p, cap, entries, s, c)) <==> GoesRight(p, cap, entries, s, c)
  {
    forall x ensures Occurs(dict, s, x) <==> Occurs(c.dict, s, x) { SameTerms(dict, c.dict, s, x); }
    assert InSync(c.dict, s, entries);
    if c.told && !HasDeleteKey(c.ops) {
      IncrementalInSyncIff(p, cap, entries, c.dict, s, c.ops);
    } else {
      FromStoreInSyncIff(p, cap, entries, c.dict, Commit(s, c.ops));
    }
  }

  /** In step after every write of the run. */
  ghost predicate StaysInSync(
      p: Provider, cap: nat, entries: seq<Term>, dict: Dictionary, s: Store, cs: seq<Change>)
  {
    && InSync(DictAfter(dict, cs), StoreAfter(s, cs), IndexAfter(p, cap, entries, s, cs))
    && (cs != [] ==> StaysInSync(p, cap, entries, dict, s, cs[..|cs| - 1]))
  }

  /** Every write of the run goes right. */
  ghost predicate AllGoRight(p: Provider, cap: nat, entries: seq<Term>, s: Store, cs: seq<Change>) {
    cs == [] ||
    (var n := |cs| - 1;
     && AllGoRight(p, cap, entries, s, cs[..n])
     && GoesRight(p, cap, IndexAfter(p, cap, entries, s, cs[..n]), StoreAfter(s, cs[..n]), cs[n]))
  }

  /**
   * Over any run of writes, told or not and with key deletes or not, an index in step at the start is in step after
   * every write exactly when every write goes right.
   */
  lemma {:induction false} RunInSyncIff(
      p: Provider, cap: nat, entries: seq<Term>, dict: Dictionary, s: Store, cs: seq<Change>)
    requires EntriesOk(p, entries) && Known(dict, s) && Growing(dict, cs) && InSync(dict, s, entries)
    ensures StaysInSync(p, cap, entries, dict, s, cs) <==> AllGoRight(p, cap, entries, s, cs)
  {
    if cs != [] {
      var n := |cs| - 1;
      var before, at := IndexAfter(p, cap, entries, s, cs[..n]), StoreAfter(s, cs[..n]);
      RunInSyncIff(p, cap, entries, dict, s, cs[..n]);
      RunKeepsOk(p, cap, entries, s, cs[..n]);
      StaysKnown(dict, s, cs[..n]);
      if InSync(DictAfter(dict, cs[..n]), at, before) {
        ChangeInSyncIff(p, cap, before, DictAfter(dict, cs[..n]), at, cs[n]);
      }
    }
  }

  /** Whatever went wrong before, a write reconciled from the store repairs the index exactly when it goes right. */
  lemma FullDifferenceRepairs(
      p: Provider, cap: nat, entries: seq<Term>, s: Store, cs: seq<Change>, last: Change)
    requires EntriesOk(p, entries) && (!last.told || HasDeleteKey(last.ops))
    ensures InSync(last.dict, StoreAfter(s, cs + [last]), IndexAfter(p, cap, entries, s, cs + [last])) <==>
      GoesRight(p, cap, IndexAfter(p, cap, entries, s, cs), StoreAfter(s, cs), last)
  {
    assert (cs + [last])[..|cs|] == cs;
    RunKeepsOk(p, cap, entries, s, cs);
    FromStoreInSyncIff(p, cap, IndexAfter(p, cap, entries, s, cs), last.dict, Commit(StoreAfter(s, cs), last.ops));
  }
}
