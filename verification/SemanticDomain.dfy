/** Embeddings, providers and what an index holds after a run of updates. */
module SemanticDomain {
  import opened Prelude
  import opened CanonicalSpec
  import opened TermEquality
  import opened FlatMatrix
  import Vectors

  type Embedding = v: seq<real> | v != [] witness [0.0]

  datatype AiError = EmbedFailed | UpsertDimension | SearchDimension | NormalizeFailed

  /** A deterministic provider of term embeddings, and the normalization applied to queries. */
  datatype Provider = Provider(
    dim: nat,
    embedTerm: Term -> Result<Embedding, AiError>,
    normalize: Embedding -> Result<Embedding, AiError>)

  /** Normalizing rescales, so it keeps the dimension. */
  ghost predicate KeepsDim(p: Provider) {
    forall e :: p.normalize(e).Ok? ==> |p.normalize(e).value| == |e|
  }

  /** A provider that embeds everything alike. */
  function Unit(): Provider { Provider(1, (t: Term) => Ok([1.0]), (e: Embedding) => Ok(e)) }

  lemma UnitEmbeds()
    ensures KeepsDim(Unit()) && forall x :: Embeds(Unit(), x)
  {
  }

  datatype SemanticHit = SemanticHit(term: Term, score: real)

  const MAX_TOP_K: nat := 100

  function ClampK(k: nat): nat { if k < 1 then 1 else if k > MAX_TOP_K then MAX_TOP_K else k }

  // ---------- Rows and scores ----------

  function VectorOf(p: Provider, t: Term): seq<real> {
    var e := p.embedTerm(t);
    if e.Ok? then e.value else []
  }

  /** The provider embeds `t` in the index's dimension. */
  predicate Embeds(p: Provider, t: Term) {
    p.embedTerm(t).Ok? && |p.embedTerm(t).value| == p.dim
  }

  function RowsOf(p: Provider, entries: seq<Term>): (r: seq<seq<real>>)
    ensures |r| == |entries| && forall i :: 0 <= i < |r| ==> r[i] == VectorOf(p, entries[i])
  {
    seq(|entries|, i requires 0 <= i < |entries| => VectorOf(p, entries[i]))
  }

  /** Every entry embeds, and no two are equal as the program compares terms. */
  ghost predicate EntriesOk(p: Provider, entries: seq<Term>) {
    Apart(entries) && forall i :: 0 <= i < |entries| ==> Embeds(p, entries[i])
  }

  /** Sum of products over the shorter length. */
  function Product(a: seq<real>, b: seq<real>): real { Vectors.DotTo(a, b, Min(|a|, |b|)) }

  /** The score of the entry at a position. */
  function ScoreAgainst(p: Provider, entries: seq<Term>, qv: seq<real>): nat -> real {
    (i: nat) => if i < |entries| then Product(qv, VectorOf(p, entries[i])) else 0.0
  }

  // ---------- Updates ----------

  function AfterUpsert(p: Provider, entries: seq<Term>, t: Term): seq<Term> {
    if Has(entries, t) || !Embeds(p, t) then entries else entries + [t]
  }

  function UpsertResult(p: Provider, entries: seq<Term>, t: Term): Result<(), AiError> {
    if Has(entries, t) then Ok(())
    else if p.embedTerm(t).Err? then Err(p.embedTerm(t).error)
    else if |p.embedTerm(t).value| != p.dim then Err(UpsertDimension)
    else Ok(())
  }

  /** The first position of an equal term. */
  function FirstEqual(entries: seq<Term>, t: Term): (i: nat)
    requires Has(entries, t)
    ensures i < |entries| && Same(entries[i], t)
    ensures forall j :: 0 <= j < i ==> !Same(entries[j], t)
  {
    if Same(entries[0], t) then 0
    else
      assert entries == [entries[0]] + entries[1..];
      assert Has(entries[1..], t) by { HasRest(entries, t); }
      1 + FirstEqual(entries[1..], t)
  }

  lemma HasRest(entries: seq<Term>, t: Term)
    requires Has(entries, t) && !Same(entries[0], t)
    ensures Has(entries[1..], t)
  {
    var i :| 0 <= i < |entries| && Same(entries[i], t);
    assert entries[1..][i - 1] == entries[i];
  }

  function AfterRemove(entries: seq<Term>, t: Term): seq<Term> {
    if Has(entries, t) then SwapRemove(entries, FirstEqual(entries, t)) else entries
  }

  lemma RowsSwapRemove(p: Provider, entries: seq<Term>, idx: nat)
    requires idx < |entries|
    ensures RowsOf(p, SwapRemove(entries, idx)) == SwapRemove(RowsOf(p, entries), idx)
  {
  }

  /** Copying the last row over row `idx` and cutting the tail leaves the rows of the swap-removed entries. */
  lemma RowsDrop(p: Provider, entries: seq<Term>, values: seq<real>, idx: nat)
    requires RowMajor(values, p.dim, RowsOf(p, entries)) && idx < |entries|
    ensures 0 <= idx * p.dim && idx * p.dim + p.dim <= |values|
    ensures RowMajor(CopyLast(values, p.dim, idx * p.dim)[..|values| - p.dim], p.dim, RowsOf(p, SwapRemove(entries, idx)))
  {
    SpanIs(idx, p.dim);
    HoldsSwapRemove(values, p.dim, RowsOf(p, entries), idx);
    RowsSwapRemove(p, entries, idx);
  }

  lemma RowsPush(p: Provider, entries: seq<Term>, t: Term)
    ensures RowsOf(p, entries + [t]) == RowsOf(p, entries) + [VectorOf(p, t)]
  {
  }

  lemma PushKeepsOk(p: Provider, entries: seq<Term>, t: Term)
    requires EntriesOk(p, entries) && !Has(entries, t) && Embeds(p, t)
    ensures EntriesOk(p, entries + [t])
  {
  }

  lemma UpsertKeepsOk(p: Provider, entries: seq<Term>, t: Term)
    requires EntriesOk(p, entries)
    ensures EntriesOk(p, AfterUpsert(p, entries, t))
  {
    if !Has(entries, t) && Embeds(p, t) { PushKeepsOk(p, entries, t); }
  }

  lemma SwapRemoveKeepsOk(p: Provider, entries: seq<Term>, idx: nat)
    requires EntriesOk(p, entries) && idx < |entries|
    ensures EntriesOk(p, SwapRemove(entries, idx))
  {
    var left, n := SwapRemove(entries, idx), |entries| - 1;
    forall i, j | 0 <= i < j < |left| ensures !Same(left[i], left[j]) {
      assert left[j] == entries[j] || left[j] == entries[n];
    }
  }

  lemma SwapRemoveIn(entries: seq<Term>, idx: nat, x: Term)
    requires idx < |entries|
    ensures x in SwapRemove(entries, idx) <==> exists i :: 0 <= i < |entries| && i != idx && entries[i] == x
  {
    var left, n := SwapRemove(entries, idx), |entries| - 1;
    if i :| 0 <= i < |entries| && i != idx && entries[i] == x {
      assert left[if i == n then idx else i] == x;
    }
    if i :| 0 <= i < |left| && left[i] == x {
      assert entries[if i == idx then n else i] == x;
    }
  }

  /** The first equal entry is the only one. */
  lemma OneEqual(entries: seq<Term>, t: Term, i: nat)
    requires Apart(entries) && Has(entries, t) && i < |entries|
    ensures Same(t, entries[i]) <==> i == FirstEqual(entries, t)
  {
    var idx := FirstEqual(entries, t);
    if idx < i { assert !Same(entries[idx], entries[i]); }
    if i < idx { assert !Same(entries[i], entries[idx]); }
  }

  /** Removing takes out exactly the one equal entry, whichever entry fills its place; a NaN takes out nothing. */
  lemma RemoveTakesOne(p: Provider, entries: seq<Term>, t: Term)
    requires EntriesOk(p, entries)
    ensures EntriesOk(p, AfterRemove(entries, t))
    ensures forall x :: x in AfterRemove(entries, t) <==> x in entries && !Same(t, x)
    ensures |AfterRemove(entries, t)| == |entries| - (if Has(entries, t) then 1 else 0)
  {
    if Has(entries, t) {
      var idx := FirstEqual(entries, t);
      SwapRemoveKeepsOk(p, entries, idx);
      forall x ensures x in SwapRemove(entries, idx) <==> x in entries && !Same(t, x) {
        SwapRemoveIn(entries, idx, x);
        forall i | 0 <= i < |entries| ensures Same(t, entries[i]) <==> i == idx { OneEqual(entries, t, i); }
      }
    } else {
      forall x | x in entries ensures !Same(t, x) { ListedIn(entries, x); }
    }
  }

  /** No removal touches a NaN. */
  lemma RemoveKeepsNaNs(entries: seq<Term>, t: Term, x: Term)
    requires IsNaN(x)
    ensures multiset(AfterRemove(entries, t))[x] == multiset(entries)[x]
  {
    if Has(entries, t) { SwapRemoveBag(entries, FirstEqual(entries, t)); }
  }

  lemma SwapRemoveBag(entries: seq<Term>, idx: nat)
    requires idx < |entries|
    ensures multiset(SwapRemove(entries, idx)) == multiset(entries) - multiset{entries[idx]}
  {
    var n := |entries| - 1;
    assert entries == entries[..n] + [entries[n]];
    if idx < n {
      assert entries[..n] == entries[..idx] + [entries[idx]] + entries[idx + 1..n];
      assert SwapRemove(entries, idx) == entries[..idx] + [entries[n]] + entries[idx + 1..n];
    } else {
      assert SwapRemove(entries, idx) == entries[..n];
    }
  }

  datatype Update = Upsert(term: Term) | Remove(term: Term)

  function Updated(p: Provider, entries: seq<Term>, u: Update): seq<Term> {
    match u
    case Upsert(t) => AfterUpsert(p, entries, t)
    case Remove(t) => AfterRemove(entries, t)
  }

  /** The entries after a run of updates on an empty index. */
  function Replay(p: Provider, us: seq<Update>): seq<Term> {
    if us == [] then [] else Updated(p, Replay(p, us[..|us| - 1]), us[|us| - 1])
  }

  /** What a run leaves, ignoring how it is laid out: which bits stand for each term. NaNs are never taken out. */
  function ReplayMap(p: Provider, us: seq<Update>): map<Term, Term> {
    if us == [] then map[]
    else
      var before, u := ReplayMap(p, us[..|us| - 1]), us[|us| - 1];
      match u
      case Upsert(t) => if Embeds(p, t) && Norm(t) !in before then before[Norm(t) := t] else before
      case Remove(t) => if IsNaN(t) then before else before - {Norm(t)}
  }

  function Upserts(us: seq<Update>, t: Term): nat {
    if us == [] then 0 else Upserts(us[..|us| - 1], t) + (if us[|us| - 1] == Upsert(t) then 1 else 0)
  }

  /** `m` says which bits stand for each listed term. */
  ghost predicate MapOf(m: map<Term, Term>, entries: seq<Term>) {
    && (forall t :: t in entries <==> Norm(t) in m && m[Norm(t)] == t)
    && forall t :: t in m ==> Norm(m[t]) == t
  }

  lemma HasByMap(m: map<Term, Term>, entries: seq<Term>, t: Term)
    requires MapOf(m, entries)
    ensures Listed(entries, t) <==> Norm(t) in m
  {
    if Norm(t) in m {
      var x := m[Norm(t)];
      assert Norm(x) == Norm(t) && x in entries;
      var i :| 0 <= i < |entries| && entries[i] == x;
    }
    if Listed(entries, t) {
      var i :| 0 <= i < |entries| && Norm(entries[i]) == Norm(t);
      assert entries[i] in entries;
    }
  }

  lemma MapPut(m: map<Term, Term>, entries: seq<Term>, t: Term)
    requires MapOf(m, entries) && Norm(t) !in m
    ensures MapOf(m[Norm(t) := t], entries + [t])
  {
    forall x ensures x in entries + [t] <==> Norm(x) in m[Norm(t) := t] && m[Norm(t) := t][Norm(x)] == x {
      assert x in entries + [t] <==> x in entries || x == t;
    }
  }

  lemma MapDrop(m: map<Term, Term>, entries: seq<Term>, after: seq<Term>, t: Term)
    requires MapOf(m, entries) && forall x :: x in after <==> x in entries && !Same(t, x)
    ensures MapOf(if IsNaN(t) then m else m - {Norm(t)}, after)
  {
  }

  /**
   * Over any run: the entries are pairwise unequal, and a term is held with the bits it was first upserted with since
   * an equal one was last removed.
   */
  lemma {:induction false} ReplayIsMap(p: Provider, us: seq<Update>)
    ensures EntriesOk(p, Replay(p, us))
    ensures MapOf(ReplayMap(p, us), Replay(p, us))
  {
    if us != [] {
      var before, m := Replay(p, us[..|us| - 1]), ReplayMap(p, us[..|us| - 1]);
      ReplayIsMap(p, us[..|us| - 1]);
      match us[|us| - 1]
      case Upsert(t) =>
        UpsertKeepsOk(p, before, t);
        HasByMap(m, before, t);
        if Norm(t) !in m { MapPut(m, before, t); }
      case Remove(t) =>
        RemoveTakesOne(p, before, t);
        MapDrop(m, before, AfterRemove(before, t), t);
    }
  }

  /** A NaN is held as often as it was upserted, whatever was removed. */
  lemma {:induction false} NaNsPileUp(p: Provider, us: seq<Update>, t: Term)
    requires IsNaN(t) && Embeds(p, t)
    ensures multiset(Replay(p, us))[t] == Upserts(us, t)
  {
    if us != [] {
      var before := Replay(p, us[..|us| - 1]);
      NaNsPileUp(p, us[..|us| - 1], t);
      if us[|us| - 1].Remove? { RemoveKeepsNaNs(before, us[|us| - 1].term, t); }
    }
  }

  /** The entries have no repetition exactly when no NaN was upserted twice. */
  lemma ReplayNoDupIff(p: Provider, us: seq<Update>)
    ensures NoDup(Replay(p, us)) <==> forall t :: IsNaN(t) && Embeds(p, t) ==> Upserts(us, t) <= 1
  {
    var r := Replay(p, us);
    ReplayIsMap(p, us);
    if NoDup(r) {
      forall t | IsNaN(t) && Embeds(p, t) ensures Upserts(us, t) <= 1 {
        NaNsPileUp(p, us, t);
        CountedOnce(r, t);
      }
    }
    if forall t :: IsNaN(t) && Embeds(p, t) ==> Upserts(us, t) <= 1 {
      forall i, j | 0 <= i < j < |r| ensures r[i] != r[j] {
        if r[i] == r[j] {
          assert !Same(r[i], r[j]);
          NaNsPileUp(p, us, r[i]);
          CountedTwice(r, i, j);
          assert false;
        }
      }
    }
  }

  const NAN: Term := LiteralTerm(DoubleValue(0x7FF8_0000_0000_0000))

  /** Upserting one NaN literal twice leaves two entries, and removing it leaves both. */
  lemma NaNTwice(p: Provider)
    requires Embeds(p, NAN)
    ensures Replay(p, [Upsert(NAN), Upsert(NAN), Remove(NAN)]) == [NAN, NAN]
  {
    var one, two, us := [Upsert(NAN)], [Upsert(NAN), Upsert(NAN)], [Upsert(NAN), Upsert(NAN), Remove(NAN)];
    assert us[..2] == two && two[..1] == one && one[..0] == [];
    assert IsNaN(NAN);
    assert Replay(p, one) == [NAN];
    assert Replay(p, two) == [NAN, NAN];
  }
}
