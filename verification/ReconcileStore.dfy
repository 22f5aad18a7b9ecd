/** What each committed operation leaves in the store, and what it makes the index do. */
module ReconcileStore {
  import opened Prelude
  import opened Text
  import opened CanonicalSpec
  import opened SemanticDomain
  import opened SemanticService
  import opened Reconcile
  import opened ReconcileIndex
  import opened ReconcileFull

  lemma OneCommit(s: Store, op: WriteOperation)
    ensures Commit(s, [op]) == Committed(s, op)
  {
    assert [op][..0] == [];
  }

  /** Operations are committed in order. */
  lemma {:induction false} CommitsInOrder(s: Store, a: seq<WriteOperation>, b: seq<WriteOperation>)
    ensures Commit(s, a + b) == Commit(Commit(s, a), b)
  {
    if b == [] {
      assert a + b == a;
    } else {
      var n := |b| - 1;
      CommitsInOrder(s, a, b[..n]);
      assert (a + b)[..|a + b| - 1] == a + b[..n];
    }
  }

  /** A put goes to the end of its own list, unless an equal statement is there. */
  lemma PutTripleIs(s: Store, t: Triple)
    ensures var after := Commit(s, [PutTriple(t)]);
      && after.quads == s.quads
      && ((exists i :: 0 <= i < |s.triples| && SameTriple(s.triples[i], t)) ==> after.triples == s.triples)
      && ((forall i :: 0 <= i < |s.triples| ==> !SameTriple(s.triples[i], t)) ==> after.triples == s.triples + [t])
  {
    OneCommit(s, PutTriple(t));
  }

  lemma PutQuadIs(s: Store, q: Quad)
    ensures var after := Commit(s, [PutQuad(q)]);
      && after.triples == s.triples
      && ((exists i :: 0 <= i < |s.quads| && s.quads[i].graph == q.graph && SameTriple(s.quads[i].triple, q.triple)) ==>
            after.quads == s.quads)
      && ((forall i :: 0 <= i < |s.quads| ==>
             s.quads[i].graph != q.graph || !SameTriple(s.quads[i].triple, q.triple)) ==>
            after.quads == s.quads + [q])
  {
    OneCommit(s, PutQuad(q));
  }

  /** A delete takes every equal statement out of its own list. */
  lemma DeleteTripleIs(s: Store, t: Triple, x: Triple)
    ensures var after := Commit(s, [DeleteTriple(t)]);
      after.quads == s.quads && (x in after.triples <==> x in s.triples && !SameTriple(x, t))
  {
    OneCommit(s, DeleteTriple(t));
    FilterIn(s.triples, IsNot(t));
  }

  lemma DeleteQuadIs(s: Store, q: Quad, x: Quad)
    ensures var after := Commit(s, [DeleteQuad(q)]);
      && after.triples == s.triples
      && (x in after.quads <==> x in s.quads && (x.graph != q.graph || !SameTriple(x.triple, q.triple)))
  {
    OneCommit(s, DeleteQuad(q));
    FilterIn(s.quads, IsNotQuad(q));
  }

  /** Deleting a key takes out every statement with its first component as subject, in every graph, and no other. */
  lemma DeleteKeyIs(s: Store, subject: U64, others: seq<U64>, t: Triple, q: Quad)
    ensures var after := Commit(s, [DeleteKey([subject] + others)]);
      && (t in after.triples <==> t in s.triples && t.subject != subject)
      && (q in after.quads <==> q in s.quads && q.triple.subject != subject)
  {
    OneCommit(s, DeleteKey([subject] + others));
    FilterIn(s.triples, OtherSubject(subject));
    FilterIn(s.quads, OtherQuadSubject(subject));
  }

  lemma DeleteNoKeyIs(s: Store)
    ensures Commit(s, [DeleteKey([])]) == s
  {
    OneCommit(s, DeleteKey([]));
  }

  lemma NoSubjectAfterDeleteKey(s: Store, ops: seq<WriteOperation>, subject: U64, others: seq<U64>, t: Triple)
    requires Holds(Commit(s, ops + [DeleteKey([subject] + others)]), t)
    ensures t.subject != subject && Holds(Commit(s, ops), t)
  {
    CommitsInOrder(s, ops, [DeleteKey([subject] + others)]);
    var before := Commit(s, ops);
    DeleteKeyIs(before, subject, others, t, Quad(None, t));
    forall q: Quad
      ensures q in Commit(before, [DeleteKey([subject] + others)]).quads <==>
        q in before.quads && q.triple.subject != subject
    {
      DeleteKeyIs(before, subject, others, t, q);
    }
  }

  // ---------- What reconciling is asked to do ----------

  /** Without the operations, or with a key delete among them, everything is compared with the store. */
  lemma WhenWholesale(
      p: Provider, cap: nat, entries: seq<Term>, dict: Dictionary, s: Store, ops: seq<WriteOperation>, i: nat)
    requires i < |ops| && ops[i].DeleteKey?
    ensures Reconciled(p, cap, entries, dict, s, Some(ops)) == Reconciled(p, cap, entries, dict, s, None)
  {
  }

  /** Without one only what the operations name is looked at. */
  lemma WhenIncremental(
      p: Provider, cap: nat, entries: seq<Term>, dict: Dictionary, s: Store, ops: seq<WriteOperation>)
    requires forall i :: 0 <= i < |ops| ==> !ops[i].DeleteKey?
    ensures Reconciled(p, cap, entries, dict, s, Some(ops)) ==
      RemoveAll(UpsertAll(p, entries, Batch(p, cap, entries, ToIndex(dict, ops))), ToEvict(dict, s, ops))
  {
  }

  ghost predicate PutsIt(op: WriteOperation, t: Triple) {
    op == PutTriple(t) || (op.PutQuad? && op.quad.triple == t)
  }

  ghost predicate DeletesIt(op: WriteOperation, t: Triple) {
    op == DeleteTriple(t) || (op.DeleteQuad? && op.quad.triple == t)
  }

  ghost predicate IsPut(ops: seq<WriteOperation>, t: Triple) { exists i :: 0 <= i < |ops| && PutsIt(ops[i], t) }

  ghost predicate IsDeleted(ops: seq<WriteOperation>, t: Triple) { exists i :: 0 <= i < |ops| && DeletesIt(ops[i], t) }

  /** Otherwise terms are added for what is put and looked at for what is deleted, and for nothing else. */
  lemma PutsAndDeletes(dict: Dictionary, s: Store, ops: seq<WriteOperation>, x: Term)
    ensures x in ToIndex(dict, ops) <==> exists t :: IsPut(ops, t) && x in TripleTerms(dict, t)
    ensures x in ToEvict(dict, s, ops) <==>
      !Referenced(dict, s, x) && exists t :: IsDeleted(ops, t) && x in TripleTerms(dict, t)
  {
    TermsOfIs(dict, Puts(ops), x);
    TermsOfIs(dict, Deletes(ops), x);
    FilterIn(TermsOf(dict, Deletes(ops)), Unreferenced(dict, s));
    PutsAre(ops);
    DeletesAre(ops);
  }

  lemma {:induction false} PutsAre(ops: seq<WriteOperation>)
    ensures forall t :: t in Puts(ops) <==> IsPut(ops, t)
  {
    if ops != [] {
      var n := |ops| - 1;
      PutsAre(ops[..n]);
      forall t | t in Puts(ops) ensures IsPut(ops, t) {
        if t in Puts(ops[..n]) {
          var i :| 0 <= i < n && PutsIt(ops[..n][i], t);
          assert PutsIt(ops[i], t);
        } else {
          assert PutsIt(ops[n], t);
        }
      }
      forall t, i | 0 <= i < |ops| && PutsIt(ops[i], t) ensures t in Puts(ops) {
        if i < n { assert PutsIt(ops[..n][i], t); }
      }
    }
  }

  lemma {:induction false} DeletesAre(ops: seq<WriteOperation>)
    ensures forall t :: t in Deletes(ops) <==> IsDeleted(ops, t)
  {
    if ops != [] {
      var n := |ops| - 1;
      DeletesAre(ops[..n]);
      forall t | t in Deletes(ops) ensures IsDeleted(ops, t) {
        if t in Deletes(ops[..n]) {
          var i :| 0 <= i < n && DeletesIt(ops[..n][i], t);
          assert DeletesIt(ops[i], t);
        } else {
          assert DeletesIt(ops[n], t);
        }
      }
      forall t, i | 0 <= i < |ops| && DeletesIt(ops[i], t) ensures t in Deletes(ops) {
        if i < n { assert DeletesIt(ops[..n][i], t); }
      }
    }
  }
}
