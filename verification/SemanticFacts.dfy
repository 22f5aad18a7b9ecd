/** Scores, single updates and batches, said without their code. */
module SemanticFacts {
  import opened Prelude
  import opened CanonicalSpec
  import opened TermEquality
  import opened SemanticDomain
  import opened SemanticService
  import Vectors

  // ---------- Scores ----------

  /** 1 at position `k` and 0 elsewhere. */
  function Axis(n: nat, k: nat): (r: seq<real>)
    ensures |r| == n && forall i :: 0 <= i < n ==> r[i] == if i == k then 1.0 else 0.0
  {
    seq(n, i => if i == k then 1.0 else 0.0)
  }

  /** `x + c * y`, position by position. */
  ghost predicate IsCombination(z: seq<real>, x: seq<real>, c: real, y: seq<real>) {
    |z| == |x| == |y| && forall i :: 0 <= i < |z| ==> z[i] == x[i] + c * y[i]
  }

  lemma {:induction false} SumIsLinear(a: seq<real>, z: seq<real>, x: seq<real>, c: real, y: seq<real>, i: nat)
    requires IsCombination(z, x, c, y) && i <= |a| && i <= |z|
    ensures Vectors.DotTo(a, z, i) == Vectors.DotTo(a, x, i) + c * Vectors.DotTo(a, y, i)
  {
    if i > 0 {
      SumIsLinear(a, z, x, c, y, i - 1);
      Distributes(a[i - 1], x[i - 1], c, y[i - 1], Vectors.DotTo(a, y, i - 1));
    }
  }

  lemma Distributes(a: real, x: real, c: real, y: real, d: real)
    ensures a * (x + c * y) == a * x + c * (a * y) && c * (d + a * y) == c * d + c * (a * y)
  {
  }

  lemma {:induction false} SumAlongAxis(a: seq<real>, n: nat, k: nat, i: nat)
    requires i <= |a| && i <= n
    ensures Vectors.DotTo(a, Axis(n, k), i) == if k < i then a[k] else 0.0
  {
    if i > 0 { SumAlongAxis(a, n, k, i - 1); }
  }

  /** Scores are the dot product: linear in the row, and along an axis the query's own coordinate. */
  lemma ScoreIsLinear(q: seq<real>, z: seq<real>, x: seq<real>, c: real, y: seq<real>)
    requires IsCombination(z, x, c, y) && |q| == |z|
    ensures Product(q, z) == Product(q, x) + c * Product(q, y)
  {
    SumIsLinear(q, z, x, c, y, |q|);
  }

  lemma ScoreAlongAxis(q: seq<real>, k: nat)
    requires k < |q|
    ensures Product(q, Axis(|q|, k)) == q[k]
  {
    SumAlongAxis(q, |q|, k, |q|);
  }

  /** An entry is scored by the product of the query with the entry's own embedding. */
  lemma EntryScore(p: Provider, entries: seq<Term>, q: seq<real>, i: nat)
    requires i < |entries| && p.embedTerm(entries[i]).Ok?
    ensures ScoreAgainst(p, entries, q)(i) == Product(q, p.embedTerm(entries[i]).value)
  {
  }

  // ---------- Single updates ----------

  /** An equal term that is there already makes an upsert a success that changes nothing. */
  lemma UpsertPresent(p: Provider, entries: seq<Term>, t: Term, i: nat)
    requires i < |entries| && Same(entries[i], t)
    ensures AfterUpsert(p, entries, t) == entries && UpsertResult(p, entries, t) == Ok(())
  {
    assert Has(entries, t);
  }

  /** Otherwise the provider decides, and a term that is taken goes to the end. */
  lemma UpsertAbsent(p: Provider, entries: seq<Term>, t: Term)
    requires forall i :: 0 <= i < |entries| ==> !Same(entries[i], t)
    ensures match p.embedTerm(t)
      case Err(e) => AfterUpsert(p, entries, t) == entries && UpsertResult(p, entries, t) == Err(e)
      case Ok(v) =>
        if |v| == p.dim then AfterUpsert(p, entries, t) == entries + [t] && UpsertResult(p, entries, t) == Ok(())
        else AfterUpsert(p, entries, t) == entries && UpsertResult(p, entries, t) == Err(UpsertDimension)
  {
    assert !Has(entries, t);
  }

  /** Removing puts the last entry in the place of the one equal to the term. */
  lemma RemovePresent(entries: seq<Term>, t: Term, i: nat)
    requires i < |entries| && Same(entries[i], t) && forall j :: 0 <= j < i ==> !Same(entries[j], t)
    ensures var after, n := AfterRemove(entries, t), |entries| - 1;
      && |after| == n
      && forall j :: 0 <= j < n ==> after[j] == if j == i then entries[n] else entries[j]
  {
    assert Has(entries, t);
    var k := FirstEqual(entries, t);
    assert k == i;
  }

  lemma RemoveAbsent(entries: seq<Term>, t: Term)
    requires forall i :: 0 <= i < |entries| ==> !Same(entries[i], t)
    ensures AfterRemove(entries, t) == entries
  {
    assert !Has(entries, t);
  }

  // ---------- Batches ----------

  /** The positions below `i` of terms that no entry equals. */
  function AbsentBelow(entries: seq<Term>, terms: seq<Term>, i: nat): (r: set<nat>)
    requires i <= |terms|
  {
    set j: nat | j < i && !Has(entries, terms[j])
  }

  lemma {:induction false} AbsentCount(entries: seq<Term>, terms: seq<Term>, i: nat)
    requires i <= |terms|
    ensures |AbsentBelow(entries, terms, i)| == |Filter(terms[..i], Absent(entries))| <= i
  {
    if i > 0 {
      AbsentCount(entries, terms, i - 1);
      FilterStep(terms, Absent(entries), i - 1);
      var before := AbsentBelow(entries, terms, i - 1);
      if Has(entries, terms[i - 1]) {
        assert AbsentBelow(entries, terms, i) == before;
      } else {
        assert AbsentBelow(entries, terms, i) == before + {i - 1};
      }
    }
  }

  /** What is kept of the front stays where it is. */
  lemma {:induction false} FilterPrefix(terms: seq<Term>, p: Term -> bool, i: nat)
    requires i <= |terms|
    ensures Filter(terms[..i], p) <= Filter(terms, p)
    decreases |terms|
  {
    if i < |terms| {
      var n := |terms| - 1;
      FilterPrefix(terms[..n], p, i);
      assert terms[..n][..i] == terms[..i];
    } else {
      assert terms[..i] == terms;
    }
  }

  /** An absent term with fewer absent terms before it than there is room is tried, in order. */
  lemma TriedInOrder(cap: nat, entries: seq<Term>, terms: seq<Term>, i: nat)
    requires i < |terms| && !Has(entries, terms[i])
    requires |entries| + |AbsentBelow(entries, terms, i)| < cap
    ensures var k := |AbsentBelow(entries, terms, i)|;
      k < |Allowed(cap, entries, terms)| && Allowed(cap, entries, terms)[k] == terms[i]
  {
    var k := |AbsentBelow(entries, terms, i)|;
    AbsentCount(entries, terms, i);
    FilterStep(terms, Absent(entries), i);
    FilterPrefix(terms, Absent(entries), i + 1);
    assert Filter(terms[..i + 1], Absent(entries))[k] == terms[i];
  }

  /** As many terms are tried as are absent, repeats counted, or as there is room for. */
  lemma TriedCount(cap: nat, entries: seq<Term>, terms: seq<Term>)
    ensures var absent := |AbsentBelow(entries, terms, |terms|)|;
      |Allowed(cap, entries, terms)| ==
        if |entries| >= cap then 0 else if absent <= cap - |entries| then absent else cap - |entries|
  {
    AbsentCount(entries, terms, |terms|);
    assert terms[..|terms|] == terms;
  }

  /** Position `j` of the batch is neither there by then nor embeddable in the index's dimension. */
  ghost predicate FailsAt(p: Provider, entries: seq<Term>, terms: seq<Term>, j: int) {
    && 0 <= j < |terms| && UpsertResult(p, UpsertAll(p, entries, terms[..j]), terms[j]).Err?
  }

  /** A batch stops right before its first failure. */
  lemma {:induction false} StopsAtFirstFailure(p: Provider, entries: seq<Term>, terms: seq<Term>)
    ensures var go := UntilFailure(p, entries, terms);
      && go == terms[..|go|]
      && (forall j :: 0 <= j < |go| ==> !FailsAt(p, entries, terms, j))
      && (|go| < |terms| ==> FailsAt(p, entries, terms, |go|))
  {
    var go := UntilFailure(p, entries, terms);
    if terms != [] {
      var n := |terms| - 1;
      var before := UntilFailure(p, entries, terms[..n]);
      StopsAtFirstFailure(p, entries, terms[..n]);
      forall j | 0 <= j < |go| ensures !FailsAt(p, entries, terms, j) {
        if j < n {
          assert terms[..n][..j] == terms[..j];
          assert !FailsAt(p, entries, terms[..n], j);
        }
      }
    }
  }

  /** It returns how many entries there are more than before, or the error of the first failure. */
  lemma BatchResult(p: Provider, entries: seq<Term>, terms: seq<Term>, j: nat)
    ensures (forall i :: !FailsAt(p, entries, terms, i)) ==>
      ManyResult(p, entries, terms) == Ok(Added(entries, UpsertAll(p, entries, terms)))
    ensures FailsAt(p, entries, terms, j) && (forall i :: 0 <= i < j ==> !FailsAt(p, entries, terms, i)) ==>
      ManyResult(p, entries, terms) == Err(UpsertResult(p, UpsertAll(p, entries, terms[..j]), terms[j]).error)
  {
    var go := UntilFailure(p, entries, terms);
    StopsAtFirstFailure(p, entries, terms);
    UpsertAllGrows(p, entries, terms);
    if FailsAt(p, entries, terms, j) && forall i :: 0 <= i < j ==> !FailsAt(p, entries, terms, i) {
      assert |go| == j;
    }
  }

  function Added(before: seq<Term>, after: seq<Term>): nat {
    if |after| >= |before| then |after| - |before| else 0
  }

  lemma {:induction false} UpsertAllGrows(p: Provider, entries: seq<Term>, terms: seq<Term>)
    ensures entries <= UpsertAll(p, entries, terms)
  {
    if terms != [] { UpsertAllGrows(p, entries, terms[..|terms| - 1]); }
  }
}
