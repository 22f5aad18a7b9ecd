/**
 * For every container: reading what was written gives the value back and stops right after it (`...Read`), and
 * whatever is read is exactly what the writer writes for it (`...Exact`).
 */
module KoLaws {
  import opened Prelude
  import opened Text
  import opened KoTypes
  import opened KoGrammar

  /** Reading succeeds with `v` and `rest` when `ok`, and fails otherwise. */
  ghost predicate Reads<T(!new)>(p: Parsed<T>, ok: bool, v: T, rest: Bytes) {
    if ok then p == Ok((v, rest)) else p.Err?
  }

  // ---------- Primitives ----------

  lemma U64Read(n: U64, rest: Bytes)
    ensures ParseU64(RawU64(n) + rest) == Ok((n, rest))
  {
    EightBytes();
    FromLEOfLE(n, 8);
    CutParts(RawU64(n), rest);
  }

  lemma U64Exact(b: Bytes)
    requires ParseU64(b).Ok?
    ensures b == RawU64(ParseU64(b).value.0) + ParseU64(b).value.1
  {
    LEOfFromLE(Cut(b, 0, 8));
    CutJoins(b, 8);
  }

  lemma TagRead(t: U8, rest: Bytes)
    ensures ParseTag([t] + rest) == Ok((t, rest))
  {
    CutParts([t], rest);
  }

  lemma TagExact(b: Bytes)
    requires ParseTag(b).Ok?
    ensures b == [ParseTag(b).value.0] + ParseTag(b).value.1
  {
    CutJoins(b, 1);
  }

  lemma StrRead(s: Str, rest: Bytes)
    ensures ParseStr(RawStr(s) + rest) == Ok((s, rest))
  {
    Assoc(RawU64(|s|), s, rest);
    U64Read(|s|, s + rest);
    CutParts(s, rest);
  }

  lemma StrExact(b: Bytes)
    requires ParseStr(b).Ok?
    ensures b == RawStr(ParseStr(b).value.0) + ParseStr(b).value.1
  {
    U64Exact(b);
    var (len, b1) := ParseU64(b).value;
    CutJoins(b1, len);
    Assoc(RawU64(len), Cut(b1, 0, len), Cut(b1, len, |b1|));
  }

  lemma IdRead(id: Str, rest: Bytes, strict: bool)
    ensures Reads(ParseId(RawStr(id) + rest, strict), strict ==> IdOk(id), id, rest)
  {
    StrRead(id, rest);
  }

  lemma IdExact(b: Bytes, strict: bool)
    requires ParseId(b, strict).Ok?
    ensures var (id, rest) := ParseId(b, strict).value; b == RawStr(id) + rest && (strict ==> IdOk(id))
  {
    StrExact(b);
  }

  lemma IriRead(iri: Str, rest: Bytes, strict: bool)
    ensures Reads(ParseIri(RawStr(iri) + rest, strict), strict ==> IriOk(iri), iri, rest)
  {
    StrRead(iri, rest);
  }

  lemma IriExact(b: Bytes, strict: bool)
    requires ParseIri(b, strict).Ok?
    ensures var (iri, rest) := ParseIri(b, strict).value; b == RawStr(iri) + rest && (strict ==> IriOk(iri))
  {
    StrExact(b);
  }

  lemma TypeRead(t: ObjectType, rest: Bytes)
    ensures ParseType([TypeTag(t)] + rest) == Ok((t, rest))
  {
    TagRead(TypeTag(t), rest);
  }

  lemma TypeExact(b: Bytes)
    requires ParseType(b).Ok?
    ensures b == [TypeTag(ParseType(b).value.0)] + ParseType(b).value.1
  {
    TagExact(b);
  }

  lemma StateRead(s: ObjectState, rest: Bytes)
    ensures ParseState([StateTag(s)] + rest) == Ok((s, rest))
  {
    TagRead(StateTag(s), rest);
  }

  lemma StateExact(b: Bytes)
    requires ParseState(b).Ok?
    ensures b == [StateTag(ParseState(b).value.0)] + ParseState(b).value.1
  {
    TagExact(b);
  }

  // ---------- Counted lists ----------

  /** One element is read back wherever it was written, and only what would be written for it is read. */
  ghost predicate Element<T(!new)>(raw: T -> Bytes, one: Bytes -> Parsed<T>, ok: T -> bool) {
    && (forall x: T, rest: Bytes :: Reads(one(raw(x) + rest), ok(x), x, rest))
    && (forall b: Bytes :: one(b).Ok? ==> b == raw(one(b).value.0) + one(b).value.1 && ok(one(b).value.0))
  }

  ghost predicate AllOk<T>(ok: T -> bool, xs: seq<T>) { forall i :: 0 <= i < |xs| ==> ok(xs[i]) }

  lemma ListCons<T>(raw: T -> Bytes, ok: T -> bool, x: T, xs: seq<T>)
    ensures RawList(raw, [x] + xs) == raw(x) + RawList(raw, xs)
    ensures AllOk(ok, [x] + xs) <==> ok(x) && AllOk(ok, xs)
  {
    assert ([x] + xs)[1..] == xs;
    forall i | 0 <= i < |xs| ensures ([x] + xs)[i + 1] == xs[i] { }
  }

  lemma {:induction false} ListRead<T(!new)>(
      raw: T -> Bytes, one: Bytes -> Parsed<T>, ok: T -> bool, xs: seq<T>, rest: Bytes)
    requires Element(raw, one, ok)
    ensures Reads(ParseList(one, RawList(raw, xs) + rest, |xs|), AllOk(ok, xs), xs, rest)
  {
    if xs == [] {
      assert RawList(raw, xs) + rest == rest;
    } else {
      var tail := RawList(raw, xs[1..]);
      Assoc(raw(xs[0]), tail, rest);
      assert Reads(one(raw(xs[0]) + (tail + rest)), ok(xs[0]), xs[0], tail + rest);
      ListRead(raw, one, ok, xs[1..], rest);
      ListCons(raw, ok, xs[0], xs[1..]);
      assert xs == [xs[0]] + xs[1..];
    }
  }

  lemma {:induction false} ListExact<T(!new)>(
      raw: T -> Bytes, one: Bytes -> Parsed<T>, ok: T -> bool, b: Bytes, count: nat)
    requires Element(raw, one, ok) && ParseList(one, b, count).Ok?
    ensures var (xs, rest) := ParseList(one, b, count).value; b == RawList(raw, xs) + rest && AllOk(ok, xs)
    decreases count
  {
    if count == 0 {
      assert b == [] + b;
    } else {
      var (x, b1) := one(b).value;
      ListExact(raw, one, ok, b1, count - 1);
      var (xs, rest) := ParseList(one, b1, count - 1).value;
      ListCons(raw, ok, x, xs);
      Assoc(raw(x), RawList(raw, xs), rest);
    }
  }

  /** Every element takes at least one byte, so the count guard cannot reject what was written. */
  lemma {:induction false} ListIsLong<T(!new)>(raw: T -> Bytes, xs: seq<T>)
    requires forall x: T :: |raw(x)| >= 1
    ensures |RawList(raw, xs)| >= |xs|
  {
    if xs != [] { ListIsLong(raw, xs[1..]); }
  }

  lemma {:induction false} ListSnoc<T>(raw: T -> Bytes, xs: seq<T>, x: T)
    ensures RawList(raw, xs + [x]) == RawList(raw, xs) + raw(x)
  {
    if xs == [] {
      assert xs + [x] == [x];
      assert raw(x) + RawList(raw, [x][1..]) == raw(x);
      assert RawList(raw, xs) + raw(x) == raw(x);
    } else {
      ListSnoc(raw, xs[1..], x);
      assert (xs + [x])[1..] == xs[1..] + [x];
      Assoc(raw(xs[0]), RawList(raw, xs[1..]), raw(x));
    }
  }

  // ---------- Header ----------

  lemma HeaderRead(h: Header, rest: Bytes, strict: bool)
    ensures Reads(ParseHeader(RawHeader(h) + rest, strict), strict ==> HeaderOk(h), h, rest)
  {
    var f := [StateTag(h.state)];
    var e := RawU64(h.updatedAt) + f;
    var d := RawU64(h.createdAt) + e;
    var c := RawU64(h.version) + d;
    var b := [TypeTag(h.objectType)] + c;
    Assoc(RawStr(h.id), b, rest);
    IdRead(h.id, b + rest, strict);
    Assoc([TypeTag(h.objectType)], c, rest);
    TypeRead(h.objectType, c + rest);
    Assoc(RawU64(h.version), d, rest);
    U64Read(h.version, d + rest);
    Assoc(RawU64(h.createdAt), e, rest);
    U64Read(h.createdAt, e + rest);
    Assoc(RawU64(h.updatedAt), f, rest);
    U64Read(h.updatedAt, f + rest);
    StateRead(h.state, rest);
  }

  lemma HeaderExact(b: Bytes, strict: bool)
    requires ParseHeader(b, strict).Ok?
    ensures var (h, rest) := ParseHeader(b, strict).value; b == RawHeader(h) + rest && (strict ==> HeaderOk(h))
  {
    IdExact(b, strict);
    var (id, b1) := ParseId(b, strict).value;
    TypeExact(b1);
    var (t, b2) := ParseType(b1).value;
    U64Exact(b2);
    var (n1, b3) := ParseU64(b2).value;
    U64Exact(b3);
    var (n2, b4) := ParseU64(b3).value;
    U64Exact(b4);
    var (n3, b5) := ParseU64(b4).value;
    StateExact(b5);
    var (s, b6) := ParseState(b5).value;
    Assoc(RawU64(n3), [StateTag(s)], b6);
    Assoc(RawU64(n2), RawU64(n3) + [StateTag(s)], b6);
    Assoc(RawU64(n1), RawU64(n2) + (RawU64(n3) + [StateTag(s)]), b6);
    Assoc([TypeTag(t)], RawU64(n1) + (RawU64(n2) + (RawU64(n3) + [StateTag(s)])), b6);
    Assoc(RawStr(id), [TypeTag(t)] + (RawU64(n1) + (RawU64(n2) + (RawU64(n3) + [StateTag(s)]))), b6);
  }

  // ---------- Metadata ----------

  lemma LabelElement()
    ensures Element(RawLabel, ParseLabel, (l: Label) => true)
  {
    forall l: Label, rest: Bytes ensures ParseLabel(RawLabel(l) + rest) == Ok((l, rest)) { LabelRead(l, rest); }
    forall b: Bytes | ParseLabel(b).Ok? ensures b == RawLabel(ParseLabel(b).value.0) + ParseLabel(b).value.1 {
      LabelExact(b);
    }
  }

  lemma LabelRead(l: Label, rest: Bytes)
    ensures ParseLabel(RawLabel(l) + rest) == Ok((l, rest))
  {
    Assoc(RawStr(l.key), RawStr(l.value), rest);
    StrRead(l.key, RawStr(l.value) + rest);
    StrRead(l.value, rest);
  }

  lemma LabelExact(b: Bytes)
    requires ParseLabel(b).Ok?
    ensures b == RawLabel(ParseLabel(b).value.0) + ParseLabel(b).value.1
  {
    StrExact(b);
    var (key, b1) := ParseStr(b).value;
    StrExact(b1);
    var (value, b2) := ParseStr(b1).value;
    Assoc(RawStr(key), RawStr(value), b2);
  }

  lemma LabelsRead(ls: Labels, rest: Bytes)
    ensures ParseLabels(RawLabels(ls) + rest) == Ok((ls, rest))
  {
    var pairs := RawList(RawLabel, ls);
    Assoc(RawU64(|ls|), pairs, rest);
    U64Read(|ls|, pairs + rest);
    LabelElement();
    ListIsLong(RawLabel, ls);
    ListRead(RawLabel, ParseLabel, (l: Label) => true, ls, rest);
  }

  lemma LabelsExact(b: Bytes)
    requires ParseLabels(b).Ok?
    ensures b == RawLabels(ParseLabels(b).value.0) + ParseLabels(b).value.1
  {
    U64Exact(b);
    var (count, b1) := ParseU64(b).value;
    LabelElement();
    ListExact(RawLabel, ParseLabel, (l: Label) => true, b1, count);
    var (ls, b2) := ParseList(ParseLabel, b1, count).value;
    Assoc(RawU64(count), RawList(RawLabel, ls), b2);
  }

  // ---------- Graphs ----------

  lemma GraphIdRead(g: GraphId, rest: Bytes, strict: bool)
    ensures Reads(ParseGraphId(RawGraphId(g) + rest, strict), strict ==> GraphIdOk(g), g, rest)
  {
    match g
    case DefaultGraph => TagRead(0, rest);
    case Named(iri) =>
      Assoc([1], RawStr(iri), rest);
      TagRead(1, RawStr(iri) + rest);
      IriRead(iri, rest, strict);
  }

  lemma GraphIdExact(b: Bytes, strict: bool)
    requires ParseGraphId(b, strict).Ok?
    ensures var (g, rest) := ParseGraphId(b, strict).value; b == RawGraphId(g) + rest && (strict ==> GraphIdOk(g))
  {
    TagExact(b);
    var (tag, b1) := ParseTag(b).value;
    if tag == 1 {
      IriExact(b1, strict);
      var (iri, b2) := ParseIri(b1, strict).value;
      Assoc([1], RawStr(iri), b2);
    }
  }

  lemma StatisticsRead(s: Statistics, rest: Bytes)
    ensures ParseStatistics(RawStatistics(s) + rest) == Ok((s, rest))
  {
    var d := RawU64(s.objects);
    var c := RawU64(s.predicates) + d;
    var b := RawU64(s.subjects) + c;
    Assoc(RawU64(s.tripleCount), b, rest);
    U64Read(s.tripleCount, b + rest);
    Assoc(RawU64(s.subjects), c, rest);
    U64Read(s.subjects, c + rest);
    Assoc(RawU64(s.predicates), d, rest);
    U64Read(s.predicates, d + rest);
    U64Read(s.objects, rest);
  }

  lemma StatisticsExact(b: Bytes)
    requires ParseStatistics(b).Ok?
    ensures b == RawStatistics(ParseStatistics(b).value.0) + ParseStatistics(b).value.1
  {
    U64Exact(b);
    var (n1, b1) := ParseU64(b).value;
    U64Exact(b1);
    var (n2, b2) := ParseU64(b1).value;
    U64Exact(b2);
    var (n3, b3) := ParseU64(b2).value;
    U64Exact(b3);
    var (n4, b4) := ParseU64(b3).value;
    Assoc(RawU64(n3), RawU64(n4), b4);
    Assoc(RawU64(n2), RawU64(n3) + RawU64(n4), b4);
    Assoc(RawU64(n1), RawU64(n2) + (RawU64(n3) + RawU64(n4)), b4);
  }

  lemma GraphRead(g: GraphObject, rest: Bytes, strict: bool)
    ensures Reads(ParseGraph(RawGraph(g) + rest, strict), strict ==> GraphOk(g), g, rest)
  {
    var d := RawStatistics(g.statistics);
    var c := RawLabels(g.metadata) + d;
    var b := RawGraphId(g.graphId) + c;
    Assoc(RawHeader(g.header), b, rest);
    HeaderRead(g.header, b + rest, strict);
    Assoc(RawGraphId(g.graphId), c, rest);
    GraphIdRead(g.graphId, c + rest, strict);
    Assoc(RawLabels(g.metadata), d, rest);
    LabelsRead(g.metadata, d + rest);
    StatisticsRead(g.statistics, rest);
  }

  lemma GraphExact(b: Bytes, strict: bool)
    requires ParseGraph(b, strict).Ok?
    ensures var (g, rest) := ParseGraph(b, strict).value; b == RawGraph(g) + rest && (strict ==> GraphOk(g))
  {
    HeaderExact(b, strict);
    var (h, b1) := ParseHeader(b, strict).value;
    GraphIdExact(b1, strict);
    var (id, b2) := ParseGraphId(b1, strict).value;
    LabelsExact(b2);
    var (ls, b3) := ParseLabels(b2).value;
    StatisticsExact(b3);
    var (s, b4) := ParseStatistics(b3).value;
    Assoc(RawLabels(ls), RawStatistics(s), b4);
    Assoc(RawGraphId(id), RawLabels(ls) + RawStatistics(s), b4);
    Assoc(RawHeader(h), RawGraphId(id) + (RawLabels(ls) + RawStatistics(s)), b4);
  }

  // ---------- Datasets ----------

  function OkGraph(strict: bool): GraphObject -> bool { g => strict ==> GraphOk(g) }

  lemma GraphElement(strict: bool)
    ensures Element(RawGraph, GraphParser(strict), OkGraph(strict))
  {
    forall g: GraphObject, rest: Bytes
      ensures Reads(GraphParser(strict)(RawGraph(g) + rest), OkGraph(strict)(g), g, rest)
    {
      GraphRead(g, rest, strict);
    }
    forall b: Bytes | ParseGraph(b, strict).Ok?
      ensures var (g, rest) := ParseGraph(b, strict).value; b == RawGraph(g) + rest && (strict ==> GraphOk(g))
    {
      GraphExact(b, strict);
    }
  }

  lemma NamedGraphsRead(gs: Graphs, rest: Bytes, strict: bool)
    ensures Reads(ParseList(GraphParser(strict), RawList(RawGraph, gs) + rest, |gs|), strict ==> GraphsOk(gs), gs, rest)
    ensures |RawList(RawGraph, gs)| >= |gs|
  {
    GraphElement(strict);
    ListRead(RawGraph, GraphParser(strict), OkGraph(strict), gs, rest);
    assert AllOk(OkGraph(strict), gs) <==> (strict ==> GraphsOk(gs));
    ListIsLong(RawGraph, gs);
  }

  lemma NamedGraphsExact(b: Bytes, count: nat, strict: bool)
    requires ParseList(GraphParser(strict), b, count).Ok?
    ensures var (gs, rest) := ParseList(GraphParser(strict), b, count).value;
      b == RawList(RawGraph, gs) + rest && (strict ==> GraphsOk(gs))
  {
    GraphElement(strict);
    ListExact(RawGraph, GraphParser(strict), OkGraph(strict), b, count);
  }

  lemma CountRead(n: U64, z: Bytes, rest: Bytes)
    ensures ParseU64((RawU64(n) + z) + rest) == Ok((n, z + rest))
  {
    Assoc(RawU64(n), z, rest);
    U64Read(n, z + rest);
  }

  lemma DatasetRead(d: DatasetObject, rest: Bytes, strict: bool)
    ensures Reads(ParseDataset(RawDataset(d) + rest, strict), strict ==> DatasetOk(d), d, rest)
  {
    var z := RawList(RawGraph, d.namedGraphs);
    var y := RawU64(|d.namedGraphs|) + z;
    CountRead(|d.namedGraphs|, z, rest);
    var x := RawLabels(d.metadata) + y;
    var w := RawGraph(d.defaultGraph) + x;
    Assoc(RawHeader(d.header), w, rest);
    HeaderRead(d.header, w + rest, strict);
    Assoc(RawGraph(d.defaultGraph), x, rest);
    GraphRead(d.defaultGraph, x + rest, strict);
    Assoc(RawLabels(d.metadata), y, rest);
    LabelsRead(d.metadata, y + rest);
    NamedGraphsRead(d.namedGraphs, rest, strict);
  }

  lemma DatasetExact(b: Bytes, strict: bool)
    requires ParseDataset(b, strict).Ok?
    ensures var (d, rest) := ParseDataset(b, strict).value; b == RawDataset(d) + rest && (strict ==> DatasetOk(d))
  {
    HeaderExact(b, strict);
    var (h, b1) := ParseHeader(b, strict).value;
    GraphExact(b1, strict);
    var (g, b2) := ParseGraph(b1, strict).value;
    LabelsExact(b2);
    var (ls, b3) := ParseLabels(b2).value;
    U64Exact(b3);
    var (n, b4) := ParseU64(b3).value;
    NamedGraphsExact(b4, n, strict);
    var (gs, b5) := ParseList(GraphParser(strict), b4, n).value;
    var z := RawList(RawGraph, gs);
    Assoc(RawU64(n), z, b5);
    Assoc(RawLabels(ls), RawU64(n) + z, b5);
    Assoc(RawGraph(g), RawLabels(ls) + (RawU64(n) + z), b5);
    Assoc(RawHeader(h), RawGraph(g) + (RawLabels(ls) + (RawU64(n) + z)), b5);
  }

  // ---------- Ontologies, rules, versions ----------

  lemma MaybeGraphRead(g: Option<GraphId>, rest: Bytes, strict: bool)
    ensures Reads(ParseMaybeGraph(RawMaybeGraph(g) + rest, strict), strict ==> MaybeGraphOk(g), g, rest)
  {
    if g.Some? {
      Assoc([1], RawGraphId(g.value), rest);
      TagRead(1, RawGraphId(g.value) + rest);
      GraphIdRead(g.value, rest, strict);
    } else {
      TagRead(0, rest);
    }
  }

  lemma MaybeGraphExact(b: Bytes, strict: bool)
    requires ParseMaybeGraph(b, strict).Ok?
    ensures var (g, rest) := ParseMaybeGraph(b, strict).value;
      b == RawMaybeGraph(g) + rest && (strict ==> MaybeGraphOk(g))
  {
    TagExact(b);
    var (tag, b1) := ParseTag(b).value;
    if tag == 1 {
      GraphIdExact(b1, strict);
      var (g, b2) := ParseGraphId(b1, strict).value;
      Assoc([1], RawGraphId(g), b2);
    }
  }

  lemma OntologyRead(o: OntologyObject, rest: Bytes, strict: bool)
    ensures Reads(ParseOntology(RawOntology(o) + rest, strict), strict ==> OntologyOk(o), o, rest)
  {
    var e := RawMaybeGraph(o.provenance);
    var d := RawMaybeGraph(o.rules) + e;
    var c := RawMaybeGraph(o.annotation) + d;
    var b := RawMaybeGraph(o.abox) + c;
    var a := RawMaybeGraph(o.tbox) + b;
    Assoc(RawDataset(o.dataset), a, rest);
    DatasetRead(o.dataset, a + rest, strict);
    Assoc(RawMaybeGraph(o.tbox), b, rest);
    MaybeGraphRead(o.tbox, b + rest, strict);
    Assoc(RawMaybeGraph(o.abox), c, rest);
    MaybeGraphRead(o.abox, c + rest, strict);
    Assoc(RawMaybeGraph(o.annotation), d, rest);
    MaybeGraphRead(o.annotation, d + rest, strict);
    Assoc(RawMaybeGraph(o.rules), e, rest);
    MaybeGraphRead(o.rules, e + rest, strict);
    MaybeGraphRead(o.provenance, rest, strict);
  }

  lemma OntologyExact(b: Bytes, strict: bool)
    requires ParseOntology(b, strict).Ok?
    ensures var (o, rest) := ParseOntology(b, strict).value; b == RawOntology(o) + rest && (strict ==> OntologyOk(o))
  {
    DatasetExact(b, strict);
    var (d, b1) := ParseDataset(b, strict).value;
    MaybeGraphExact(b1, strict);
    var (g1, b2) := ParseMaybeGraph(b1, strict).value;
    MaybeGraphExact(b2, strict);
    var (g2, b3) := ParseMaybeGraph(b2, strict).value;
    MaybeGraphExact(b3, strict);
    var (g3, b4) := ParseMaybeGraph(b3, strict).value;
    MaybeGraphExact(b4, strict);
    var (g4, b5) := ParseMaybeGraph(b4, strict).value;
    MaybeGraphExact(b5, strict);
    var (g5, b6) := ParseMaybeGraph(b5, strict).value;
    var t5 := RawMaybeGraph(g5);
    var t4 := RawMaybeGraph(g4) + t5;
    var t3 := RawMaybeGraph(g3) + t4;
    var t2 := RawMaybeGraph(g2) + t3;
    Assoc(RawMaybeGraph(g4), t5, b6);
    Assoc(RawMaybeGraph(g3), t4, b6);
    Assoc(RawMaybeGraph(g2), t3, b6);
    Assoc(RawMaybeGraph(g1), t2, b6);
    Assoc(RawDataset(d), RawMaybeGraph(g1) + t2, b6);
  }

  lemma MaybeIriRead(iri: Option<Str>, rest: Bytes, strict: bool)
    ensures Reads(ParseMaybeIri(RawMaybeIri(iri) + rest, strict),
                  strict && iri.Some? ==> IriOk(iri.value), iri, rest)
  {
    if iri.Some? {
      Assoc([1], RawStr(iri.value), rest);
      TagRead(1, RawStr(iri.value) + rest);
      IriRead(iri.value, rest, strict);
    } else {
      TagRead(0, rest);
    }
  }

  lemma MaybeIriExact(b: Bytes, strict: bool)
    requires ParseMaybeIri(b, strict).Ok?
    ensures var (iri, rest) := ParseMaybeIri(b, strict).value;
      b == RawMaybeIri(iri) + rest && (strict && iri.Some? ==> IriOk(iri.value))
  {
    TagExact(b);
    var (tag, b1) := ParseTag(b).value;
    if tag == 1 {
      IriExact(b1, strict);
      var (iri, b2) := ParseIri(b1, strict).value;
      Assoc([1], RawStr(iri), b2);
    }
  }

  lemma RuleRead(r: RuleObject, rest: Bytes, strict: bool)
    ensures Reads(ParseRule(RawRule(r) + rest, strict), strict ==> RuleOk(r), r, rest)
  {
    var c := RawStr(r.name);
    var b := RawMaybeIri(r.ruleIri) + c;
    Assoc(RawHeader(r.header), b, rest);
    HeaderRead(r.header, b + rest, strict);
    Assoc(RawMaybeIri(r.ruleIri), c, rest);
    MaybeIriRead(r.ruleIri, c + rest, strict);
    StrRead(r.name, rest);
  }

  lemma RuleExact(b: Bytes, strict: bool)
    requires ParseRule(b, strict).Ok?
    ensures var (r, rest) := ParseRule(b, strict).value; b == RawRule(r) + rest && (strict ==> RuleOk(r))
  {
    HeaderExact(b, strict);
    var (h, b1) := ParseHeader(b, strict).value;
    MaybeIriExact(b1, strict);
    var (iri, b2) := ParseMaybeIri(b1, strict).value;
    StrExact(b2);
    var (name, b3) := ParseStr(b2).value;
    Assoc(RawMaybeIri(iri), RawStr(name), b3);
    Assoc(RawHeader(h), RawMaybeIri(iri) + RawStr(name), b3);
  }

  lemma MaybeU64Read(n: Option<U64>, rest: Bytes)
    ensures ParseMaybeU64(RawMaybeU64(n) + rest) == Ok((n, rest))
  {
    if n.Some? {
      Assoc([1], RawU64(n.value), rest);
      TagRead(1, RawU64(n.value) + rest);
      U64Read(n.value, rest);
    } else {
      TagRead(0, rest);
    }
  }

  lemma MaybeU64Exact(b: Bytes)
    requires ParseMaybeU64(b).Ok?
    ensures b == RawMaybeU64(ParseMaybeU64(b).value.0) + ParseMaybeU64(b).value.1
  {
    TagExact(b);
    var (tag, b1) := ParseTag(b).value;
    if tag == 1 {
      U64Exact(b1);
      var (n, b2) := ParseU64(b1).value;
      Assoc([1], RawU64(n), b2);
    }
  }

  lemma VersionRead(v: VersionObject, rest: Bytes, strict: bool)
    ensures Reads(ParseVersion(RawVersion(v) + rest, strict), strict ==> VersionOk(v), v, rest)
  {
    var d := RawMaybeU64(v.parentVersion);
    var c := RawU64(v.targetVersion) + d;
    var b := RawStr(v.targetId) + c;
    Assoc(RawHeader(v.header), b, rest);
    HeaderRead(v.header, b + rest, strict);
    Assoc(RawStr(v.targetId), c, rest);
    IdRead(v.targetId, c + rest, strict);
    Assoc(RawU64(v.targetVersion), d, rest);
    U64Read(v.targetVersion, d + rest);
    MaybeU64Read(v.parentVersion, rest);
  }

  lemma VersionExact(b: Bytes, strict: bool)
    requires ParseVersion(b, strict).Ok?
    ensures var (v, rest) := ParseVersion(b, strict).value; b == RawVersion(v) + rest && (strict ==> VersionOk(v))
  {
    HeaderExact(b, strict);
    var (h, b1) := ParseHeader(b, strict).value;
    IdExact(b1, strict);
    var (id, b2) := ParseId(b1, strict).value;
    U64Exact(b2);
    var (n, b3) := ParseU64(b2).value;
    MaybeU64Exact(b3);
    var (p, b4) := ParseMaybeU64(b3).value;
    Assoc(RawU64(n), RawMaybeU64(p), b4);
    Assoc(RawStr(id), RawU64(n) + RawMaybeU64(p), b4);
    Assoc(RawHeader(h), RawStr(id) + (RawU64(n) + RawMaybeU64(p)), b4);
  }
}
