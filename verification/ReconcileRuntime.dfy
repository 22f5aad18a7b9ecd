/** The reconciling methods. */
module ReconcileRuntime {
  import opened Prelude
  import opened CanonicalSpec
  import opened SemanticService
  import opened Reconcile
  import opened ReconcileIndex
  import opened ReconcileFull

  /** After a committed write. `ops` is `None` when the applied operations are not known. */
  method ReconcileSemantic(
      svc: SemanticSearchService, dict: Dictionary, s: Store, ops: Option<seq<WriteOperation>>)
    requires svc.index.Valid()
    modifies svc.index
    ensures svc.index.Valid()
    ensures svc.index.entries == Reconciled(svc.index.provider, svc.cap, old(svc.index.entries), dict, s, ops)
  {
    match ops
    case None => ReconcileFromStore(svc, dict, s);
    case Some(ops) =>
      var wholesale := exists i :: 0 <= i < |ops| && ops[i].DeleteKey?;
      if wholesale {
        ReconcileFromStore(svc, dict, s);
        return;
      }
      var toIndex, candidates := CollectTerms(dict, ops);
      var toEvict := NotReferenced(dict, s, candidates);
      var _ := svc.IndexTerms(toIndex);
      var _ := svc.RemoveTerms(toEvict);
  }

  method CollectTerms(dict: Dictionary, ops: seq<WriteOperation>) returns (toIndex: seq<Term>, candidates: seq<Term>)
    ensures toIndex == ToIndex(dict, ops) && candidates == TermsOf(dict, Deletes(ops))
  {
    toIndex, candidates := [], [];
    for i := 0 to |ops|
      invariant toIndex == ToIndex(dict, ops[..i]) && candidates == TermsOf(dict, Deletes(ops[..i]))
    {
      CollectStep(dict, ops, i);
      match ops[i] {
        case PutTriple(t) => toIndex := toIndex + TripleTerms(dict, t);
        case PutQuad(q) => toIndex := toIndex + TripleTerms(dict, q.triple);
        case DeleteTriple(t) => candidates := candidates + TripleTerms(dict, t);
        case DeleteQuad(q) => candidates := candidates + TripleTerms(dict, q.triple);
        case DeleteKey(_) =>
      }
    }
    assert ops[..|ops|] == ops;
  }

  /** The terms of the at most one statement an operation puts or deletes. */
  function OneTerms(dict: Dictionary, ts: seq<Triple>): seq<Term> {
    if ts == [] then [] else TripleTerms(dict, ts[0])
  }

  lemma CollectStep(dict: Dictionary, ops: seq<WriteOperation>, i: nat)
    requires i < |ops|
    ensures ToIndex(dict, ops[..i + 1]) == ToIndex(dict, ops[..i]) + OneTerms(dict, PutsOf(ops[i]))
    ensures TermsOf(dict, Deletes(ops[..i + 1])) ==
      TermsOf(dict, Deletes(ops[..i])) + OneTerms(dict, DeletesOf(ops[i]))
  {
    assert ops[..i + 1][..i] == ops[..i];
    TermsSnoc(dict, Puts(ops[..i]), PutsOf(ops[i]));
    TermsSnoc(dict, Deletes(ops[..i]), DeletesOf(ops[i]));
  }

  lemma TermsSnoc(dict: Dictionary, ts: seq<Triple>, more: seq<Triple>)
    requires |more| <= 1
    ensures TermsOf(dict, ts + more) == TermsOf(dict, ts) + OneTerms(dict, more)
  {
    if more == [] {
      assert ts + more == ts;
    } else {
      assert (ts + more)[..|ts|] == ts;
    }
  }

  method NotReferenced(dict: Dictionary, s: Store, candidates: seq<Term>) returns (toEvict: seq<Term>)
    ensures toEvict == Filter(candidates, Unreferenced(dict, s))
  {
    toEvict := [];
    for i := 0 to |candidates|
      invariant toEvict == Filter(candidates[..i], Unreferenced(dict, s))
    {
      FilterStep(candidates, Unreferenced(dict, s), i);
      if !Referenced(dict, s, candidates[i]) { toEvict := toEvict + [candidates[i]]; }
    }
    assert candidates[..|candidates|] == candidates;
  }

  method ReconcileFromStore(svc: SemanticSearchService, dict: Dictionary, s: Store)
    requires svc.index.Valid()
    modifies svc.index
    ensures svc.index.Valid()
    ensures svc.index.entries == FromStore(svc.index.provider, svc.cap, old(svc.index.entries), dict, s)
  {
    var present := AllTerms(dict, Statements(s));
    var indexed := svc.index.entries;
    var toIndex := Missing(present, indexed);
    var toEvict := Missing(indexed, present);
    var _ := svc.IndexTerms(toIndex);
    var _ := svc.RemoveTerms(toEvict);
  }

  method AllTerms(dict: Dictionary, ts: seq<Triple>) returns (present: seq<Term>)
    ensures present == TermsOf(dict, ts)
  {
    present := [];
    for i := 0 to |ts|
      invariant present == TermsOf(dict, ts[..i])
    {
      assert ts[..i + 1][..i] == ts[..i];
      present := present + TripleTerms(dict, ts[i]);
    }
    assert ts[..|ts|] == ts;
  }

  /** The terms of `ts` whose canonical bytes are not among those of `others`. */
  method Missing(ts: seq<Term>, others: seq<Term>) returns (r: seq<Term>)
    ensures r == Filter(ts, NotAmong(others))
  {
    var known: set<Bytes> := {};
    for i := 0 to |others|
      invariant known == BytesOf(others[..i])
    {
      assert others[..i + 1] == others[..i] + [others[i]];
      known := known + {TermBytes(others[i])};
    }
    assert others[..|others|] == others;
    r := [];
    for i := 0 to |ts|
      invariant r == Filter(ts[..i], NotAmong(others))
    {
      FilterStep(ts, NotAmong(others), i);
      if TermBytes(ts[i]) !in known { r := r + [ts[i]]; }
    }
    assert ts[..|ts|] == ts;
  }
}
