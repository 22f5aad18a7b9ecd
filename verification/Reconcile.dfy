/** Keeping the semantic index aligned with the store after a committed write. */
module Reconcile {
  import opened Prelude
  import opened Text
  import opened CanonicalSpec
  import opened TermEquality

  datatype Triple = Triple(subject: U64, verb: Str, obj: Term)

  datatype Quad = Quad(graph: Option<Str>, triple: Triple)

  datatype Store = Store(triples: seq<Triple>, quads: seq<Quad>)

  /** The node dictionary: which text each node id stands for. */
  type Dictionary = map<U64, Str>

  datatype WriteOperation =
    | PutTriple(triple: Triple)
    | PutQuad(quad: Quad)
    | DeleteTriple(triple: Triple)
    | DeleteQuad(quad: Quad)
    | DeleteKey(components: seq<U64>)

  // ---------- The store ----------

  /** Statements are compared like terms. */
  predicate SameTriple(t: Triple, u: Triple): (r: bool)
    ensures r <==> t.subject == u.subject && t.verb == u.verb && Same(t.obj, u.obj)
  {
    t.subject == u.subject && t.verb == u.verb && Same(t.obj, u.obj)
  }

  predicate SameQuad(q: Quad, r: Quad) { q.graph == r.graph && SameTriple(q.triple, r.triple) }

  predicate HasTriple(ts: seq<Triple>, t: Triple) { exists i :: 0 <= i < |ts| && SameTriple(ts[i], t) }

  predicate HasQuad(qs: seq<Quad>, q: Quad) { exists i :: 0 <= i < |qs| && SameQuad(qs[i], q) }

  function IsNot(t: Triple): Triple -> bool { (x: Triple) => !SameTriple(x, t) }

  function IsNotQuad(q: Quad): Quad -> bool { (x: Quad) => !SameQuad(x, q) }

  function OtherSubject(subject: U64): Triple -> bool { (t: Triple) => t.subject != subject }

  function OtherQuadSubject(subject: U64): Quad -> bool { (q: Quad) => q.triple.subject != subject }

  function Committed(s: Store, op: WriteOperation): Store {
    match op
    case PutTriple(t) => if HasTriple(s.triples, t) then s else s.(triples := s.triples + [t])
    case PutQuad(q) => if HasQuad(s.quads, q) then s else s.(quads := s.quads + [q])
    case DeleteTriple(t) => s.(triples := Filter(s.triples, IsNot(t)))
    case DeleteQuad(q) => s.(quads := Filter(s.quads, IsNotQuad(q)))
    case DeleteKey(components) =>
      if components == [] then s
      else Store(Filter(s.triples, OtherSubject(components[0])), Filter(s.quads, OtherQuadSubject(components[0])))
  }

  function Commit(s: Store, ops: seq<WriteOperation>): Store {
    if ops == [] then s else Committed(Commit(s, ops[..|ops| - 1]), ops[|ops| - 1])
  }

  /** The statement is in some graph, with these bits. */
  ghost predicate Holds(s: Store, t: Triple) {
    t in s.triples || exists q :: q in s.quads && q.triple == t
  }

  /** Statements that differ at most in the sign of a zero. */
  ghost predicate AlikeTriples(t: Triple, u: Triple) {
    t.subject == u.subject && t.verb == u.verb && Norm(t.obj) == Norm(u.obj)
  }

  ghost predicate HoldsAlike(s: Store, t: Triple) { exists u :: Holds(s, u) && AlikeTriples(u, t) }

  ghost predicate AlikeIn(ts: seq<Triple>, t: Triple) { exists u :: u in ts && AlikeTriples(u, t) }

  function QuadTriples(quads: seq<Quad>): (r: seq<Triple>)
    ensures |r| == |quads| && forall i :: 0 <= i < |r| ==> r[i] == quads[i].triple
  {
    seq(|quads|, i requires 0 <= i < |quads| => quads[i].triple)
  }

  function Statements(s: Store): seq<Triple> { s.triples + QuadTriples(s.quads) }

  lemma StatementsAre(s: Store, t: Triple)
    ensures t in Statements(s) <==> Holds(s, t)
  {
    if q :| q in s.quads && q.triple == t {
      var i :| 0 <= i < |s.quads| && s.quads[i] == q;
      assert QuadTriples(s.quads)[i] == t;
    }
    if t in QuadTriples(s.quads) {
      var i :| 0 <= i < |s.quads| && QuadTriples(s.quads)[i] == t;
      assert s.quads[i] in s.quads;
    }
  }

  // ---------- Terms of statements ----------

  const BLANK_PREFIX: Bytes := [95, 58]

  predicate LooksBlank(text: Bytes) { BLANK_PREFIX <= text }

  function SubjectTerms(dict: Dictionary, node: U64): seq<Term> {
    if node in dict && !LooksBlank(dict[node]) then [IriTerm(dict[node])] else []
  }

  function TripleTerms(dict: Dictionary, t: Triple): seq<Term> {
    SubjectTerms(dict, t.subject) + [IriTerm(t.verb), t.obj]
  }

  function TermsOf(dict: Dictionary, ts: seq<Triple>): seq<Term> {
    if ts == [] then [] else TermsOf(dict, ts[..|ts| - 1]) + TripleTerms(dict, ts[|ts| - 1])
  }

  lemma {:induction false} TermsOfIs(dict: Dictionary, ts: seq<Triple>, x: Term)
    ensures x in TermsOf(dict, ts) <==> exists t :: t in ts && x in TripleTerms(dict, t)
  {
    if ts != [] {
      var n := |ts| - 1;
      TermsOfIs(dict, ts[..n], x);
      assert ts == ts[..n] + [ts[n]];
      if t :| t in ts && x in TripleTerms(dict, t) { assert t in ts[..n] || t == ts[n]; }
    }
  }

  /** A term of some listed statement, up to the sign of zero. */
  lemma ListedTermsOf(dict: Dictionary, ts: seq<Triple>, x: Term)
    ensures Listed(TermsOf(dict, ts), x) <==> exists t :: t in ts && Listed(TripleTerms(dict, t), x)
  {
    var all := TermsOf(dict, ts);
    if Listed(all, x) {
      var i :| 0 <= i < |all| && Norm(all[i]) == Norm(x);
      TermsOfIs(dict, ts, all[i]);
      var t :| t in ts && all[i] in TripleTerms(dict, t);
      ListedIn(TripleTerms(dict, t), all[i]);
    }
    if t :| t in ts && Listed(TripleTerms(dict, t), x) {
      var i :| 0 <= i < |TripleTerms(dict, t)| && Norm(TripleTerms(dict, t)[i]) == Norm(x);
      TermsOfIs(dict, ts, TripleTerms(dict, t)[i]);
      ListedIn(all, TripleTerms(dict, t)[i]);
    }
  }

  /** The term is the subject, the verb or the object, the object up to the sign of zero. */
  lemma TripleTermsAre(dict: Dictionary, t: Triple, x: Term)
    ensures Listed(TripleTerms(dict, t), x) <==>
      x in SubjectTerms(dict, t.subject) || x == IriTerm(t.verb) || Norm(t.obj) == Norm(x)
  {
    var front := SubjectTerms(dict, t.subject) + [IriTerm(t.verb)];
    assert TripleTerms(dict, t) == front + [t.obj];
    ListedJoin(front, [t.obj], x);
    ListedJoin(SubjectTerms(dict, t.subject), [IriTerm(t.verb)], x);
    assert [t.obj][0] == t.obj && [IriTerm(t.verb)][0] == IriTerm(t.verb);
    if Listed(front, x) { assert x == Norm(x); }
    if x in SubjectTerms(dict, t.subject) { ListedIn(SubjectTerms(dict, t.subject), x); }
  }

  lemma AlikeTerms(dict: Dictionary, t: Triple, u: Triple, x: Term)
    requires AlikeTriples(t, u)
    ensures Listed(TripleTerms(dict, t), x) <==> Listed(TripleTerms(dict, u), x)
  {
    TripleTermsAre(dict, t, x);
    TripleTermsAre(dict, u, x);
  }

  /** The term occurs in some statement of the store, up to the sign of zero. */
  ghost predicate Occurs(dict: Dictionary, s: Store, x: Term) {
    exists t :: Holds(s, t) && Listed(TripleTerms(dict, t), x)
  }

  /** The store's non-blank terms. */
  ghost predicate Wanted(dict: Dictionary, s: Store, x: Term) { !x.BlankTerm? && Occurs(dict, s, x) }

  lemma StoreTerms(dict: Dictionary, s: Store, x: Term)
    ensures Listed(TermsOf(dict, Statements(s)), x) <==> Occurs(dict, s, x)
  {
    ListedTermsOf(dict, Statements(s), x);
    forall t ensures t in Statements(s) <==> Holds(s, t) { StatementsAre(s, t); }
  }

  /** An IRI looked up in subject position. Unlike when terms are collected, the text may look blank. */
  predicate IsSubject(dict: Dictionary, s: Store, iri: Str) {
    exists i :: 0 <= i < |Statements(s)| &&
      var node := Statements(s)[i].subject; node in dict && dict[node] == iri
  }

  /** Whether deleting a term from the index is held back. */
  predicate Referenced(dict: Dictionary, s: Store, x: Term) {
    var ts := Statements(s);
    match x
    case IriTerm(iri) =>
      || (exists i :: 0 <= i < |ts| && (ts[i].verb == iri || Same(ts[i].obj, x)))
      || IsSubject(dict, s, iri)
    case LiteralTerm(_) => exists i :: 0 <= i < |ts| && Same(ts[i].obj, x)
    case BlankTerm(_) => false
  }

  /** A blank-looking IRI that only a blank subject keeps. */
  ghost predicate Phantom(dict: Dictionary, s: Store, x: Term) {
    x.IriTerm? && LooksBlank(x.iri) && IsSubject(dict, s, x.iri) && !Occurs(dict, s, x)
  }

  lemma OccursAt(dict: Dictionary, s: Store, i: nat, x: Term)
    requires i < |Statements(s)| && Listed(TripleTerms(dict, Statements(s)[i]), x)
    ensures Occurs(dict, s, x)
  {
    assert Statements(s)[i] in Statements(s);
    StatementsAre(s, Statements(s)[i]);
  }

  lemma WantedIsReferenced(dict: Dictionary, s: Store, x: Term)
    requires Wanted(dict, s, x) && !IsNaN(x)
    ensures Referenced(dict, s, x)
  {
    var t :| Holds(s, t) && Listed(TripleTerms(dict, t), x);
    StatementsAre(s, t);
    TripleTermsAre(dict, t, x);
    var i :| 0 <= i < |Statements(s)| && Statements(s)[i] == t;
    assert x in SubjectTerms(dict, t.subject) || x == IriTerm(t.verb) || Same(Statements(s)[i].obj, x);
  }

  lemma ReferencedOccurs(dict: Dictionary, s: Store, x: Term)
    requires Referenced(dict, s, x)
    ensures !IsNaN(x) && (Wanted(dict, s, x) || Phantom(dict, s, x))
  {
    var ts := Statements(s);
    if i :| 0 <= i < |ts| && (x == IriTerm(ts[i].verb) || Same(ts[i].obj, x)) {
      TripleTermsAre(dict, ts[i], x);
      OccursAt(dict, s, i, x);
    } else {
      var i :| 0 <= i < |ts| && var node := ts[i].subject; node in dict && dict[node] == x.iri;
      TripleTermsAre(dict, ts[i], x);
      if !LooksBlank(x.iri) { OccursAt(dict, s, i, x); }
    }
  }

  /** A term is held back exactly when it is a phantom or a non-blank term of the store that is not NaN. */
  lemma ReferencedIff(dict: Dictionary, s: Store, x: Term)
    ensures Referenced(dict, s, x) <==> !IsNaN(x) && (Wanted(dict, s, x) || Phantom(dict, s, x))
  {
    if Referenced(dict, s, x) { ReferencedOccurs(dict, s, x); }
    if Wanted(dict, s, x) && !IsNaN(x) { WantedIsReferenced(dict, s, x); }
  }
}
