/** Where every byte of an encoded Knowledge Object stands, and which error each kind of bad input gives. */
module KoLayout {
  import opened Prelude
  import opened Text
  import opened KoTypes
  import opened KoGrammar

  // ---------- Numbers and texts ----------

  /** Little-endian: byte `i` counts 256 to the power `i`. */
  lemma NumberBytes(a: U8, b: U8, c: U8, d: U8, e: U8, f: U8, g: U8, h: U8)
    ensures var n := a + 0x100 * b + 0x1_0000 * c + 0x100_0000 * d + 0x1_0000_0000 * e + 0x100_0000_0000 * f
        + 0x1_0000_0000_0000 * g + 0x100_0000_0000_0000 * h;
      RawU64(n) == [a, b, c, d, e, f, g, h]
  {
    var bytes := [a, b, c, d, e, f, g, h];
    var n := a + 0x100 * (b + 0x100 * (c + 0x100 * (d + 0x100 * (e + 0x100 * (f + 0x100 * (g + 0x100 * h))))));
    SevenSteps(a, b, c, d, e, f, g, h);
    assert FromLE(bytes) == n;
    LEOfFromLE(bytes);
  }

  lemma SevenSteps(a: U8, b: U8, c: U8, d: U8, e: U8, f: U8, g: U8, h: U8)
    ensures FromLE([a, b, c, d, e, f, g, h]) ==
      a + 0x100 * (b + 0x100 * (c + 0x100 * (d + 0x100 * (e + 0x100 * (f + 0x100 * (g + 0x100 * h))))))
  {
    FirstByte(a, [b, c, d, e, f, g, h]);
    FirstByte(b, [c, d, e, f, g, h]);
    FirstByte(c, [d, e, f, g, h]);
    FirstByte(d, [e, f, g, h]);
    FirstByte(e, [f, g, h]);
    FirstByte(f, [g, h]);
    FirstByte(g, [h]);
    FirstByte(h, []);
  }

  lemma FirstByte(b: U8, rest: Bytes)
    ensures FromLE([b] + rest) == b + 256 * FromLE(rest)
  {
    assert ([b] + rest)[1..] == rest;
  }

  lemma SmallNumber(n: U8)
    ensures RawU64(n) == [n, 0, 0, 0, 0, 0, 0, 0]
  {
    NumberBytes(n, 0, 0, 0, 0, 0, 0, 0);
  }

  /** A text of fewer than 256 bytes, behind its length. */
  lemma ShortText(s: Str)
    requires |s| < 256
    ensures RawStr(s) == [|s|, 0, 0, 0, 0, 0, 0, 0] + s
  {
    SmallNumber(|s|);
  }

  // ---------- Layout ----------

  function Types(): seq<ObjectType> {
    [Resource, Statement, ObjectType.Graph, ObjectType.Dataset, ObjectType.Ontology, ObjectType.Rule,
     ObjectType.Version, ObjectType.Metadata]
  }

  function States(): seq<ObjectState> {
    [Created, Persisted, Indexed, Replicated, Versioned, Archived, Deleted]
  }

  lemma TagsAre(t: U8, rest: Bytes)
    ensures t < 8 ==> TypeTag(Types()[t]) == t && ParseType([t] + rest) == Ok((Types()[t], rest))
    ensures t < 7 ==> StateTag(States()[t]) == t && ParseState([t] + rest) == Ok((States()[t], rest))
    ensures t >= 8 ==> ParseType([t] + rest) == Err(UnknownTag)
    ensures t >= 7 ==> ParseState([t] + rest) == Err(UnknownTag)
  {
    CutParts([t], rest);
    assert |[t] + rest| >= 1 && ([t] + rest)[0] == t;
  }

  /** The id, the type's position, three numbers and the state's position. */
  lemma HeaderLayout(h: Header, t: U8, s: U8)
    requires t < 8 && s < 7 && h.objectType == Types()[t] && h.state == States()[s]
    ensures RawHeader(h) ==
      RawStr(h.id) + [t] + RawU64(h.version) + RawU64(h.createdAt) + RawU64(h.updatedAt) + [s]
  {
    TagsAre(t, []);
    TagsAre(s, []);
    Assoc(RawU64(h.createdAt), RawU64(h.updatedAt), [s]);
    Assoc(RawU64(h.version), RawU64(h.createdAt), RawU64(h.updatedAt) + [s]);
  }

  lemma GraphIdLayout(iri: Str)
    ensures RawGraphId(DefaultGraph) == [0] && RawGraphId(Named(iri)) == [1] + RawStr(iri)
  {
  }

  lemma OptionLayout(g: GraphId, iri: Str, n: U64)
    ensures RawMaybeGraph(None) == RawMaybeIri(None) == RawMaybeU64(None) == [0]
    ensures RawMaybeGraph(Some(g)) == [1] + RawGraphId(g)
    ensures RawMaybeIri(Some(iri)) == [1] + RawStr(iri) && RawMaybeU64(Some(n)) == [1] + RawU64(n)
  {
  }

  /** The parts one after the other. */
  function Concat<T>(raw: T -> Bytes, xs: seq<T>): Bytes {
    if xs == [] then [] else Concat(raw, xs[..|xs| - 1]) + raw(xs[|xs| - 1])
  }

  lemma {:induction false} ListSnoc<T>(raw: T -> Bytes, xs: seq<T>, x: T)
    ensures RawList(raw, xs + [x]) == RawList(raw, xs) + raw(x)
  {
    if xs == [] {
      assert [x][1..] == [];
      assert raw(x) + [] == raw(x);
    } else {
      ListSnoc(raw, xs[1..], x);
      assert (xs + [x])[1..] == xs[1..] + [x];
      Assoc(raw(xs[0]), RawList(raw, xs[1..]), raw(x));
    }
  }

  lemma {:induction false} ListIsConcat<T>(raw: T -> Bytes, xs: seq<T>)
    ensures RawList(raw, xs) == Concat(raw, xs)
  {
    if xs != [] {
      var n := |xs| - 1;
      ListIsConcat(raw, xs[..n]);
      ListSnoc(raw, xs[..n], xs[n]);
      assert xs == xs[..n] + [xs[n]];
    }
  }

  /** The number of labels, and then the labels in order. */
  lemma LabelsLayout(ls: Labels)
    ensures RawLabels(ls) == RawU64(|ls|) + Concat(RawLabel, ls)
  {
    ListIsConcat(RawLabel, ls);
  }

  lemma LabelLayout(l: Label)
    ensures RawLabel(l) == RawStr(l.key) + RawStr(l.value)
  {
  }

  lemma GraphLayout(g: GraphObject)
    ensures var s := g.statistics;
      RawGraph(g) == RawHeader(g.header) + RawGraphId(g.graphId) + RawLabels(g.metadata)
        + RawU64(s.tripleCount) + RawU64(s.subjects) + RawU64(s.predicates) + RawU64(s.objects)
  {
    var front := RawHeader(g.header) + RawGraphId(g.graphId) + RawLabels(g.metadata);
    Assoc(RawHeader(g.header), RawGraphId(g.graphId), RawLabels(g.metadata) + RawStatistics(g.statistics));
    Assoc(RawHeader(g.header) + RawGraphId(g.graphId), RawLabels(g.metadata), RawStatistics(g.statistics));
    FourNumbers(front, g.statistics);
  }

  lemma FourNumbers(front: Bytes, s: Statistics)
    ensures front + RawStatistics(s) ==
      front + RawU64(s.tripleCount) + RawU64(s.subjects) + RawU64(s.predicates) + RawU64(s.objects)
  {
    var a, b, c, d := RawU64(s.tripleCount), RawU64(s.subjects), RawU64(s.predicates), RawU64(s.objects);
    Assoc(front, a, b + (c + d));
    Assoc(front + a, b, c + d);
    Assoc(front + a + b, c, d);
  }

  lemma DatasetLayout(d: DatasetObject)
    ensures RawDataset(d) == RawHeader(d.header) + RawGraph(d.defaultGraph) + RawLabels(d.metadata)
      + RawU64(|d.namedGraphs|) + Concat(RawGraph, d.namedGraphs)
  {
    var h, g, m, n := RawHeader(d.header), RawGraph(d.defaultGraph), RawLabels(d.metadata), RawU64(|d.namedGraphs|);
    ListIsConcat(RawGraph, d.namedGraphs);
    Assoc(h, g, m + (n + Concat(RawGraph, d.namedGraphs)));
    Assoc(h + g, m, n + Concat(RawGraph, d.namedGraphs));
    Assoc(h + g + m, n, Concat(RawGraph, d.namedGraphs));
  }

  lemma OntologyLayout(o: OntologyObject)
    ensures RawOntology(o) == RawDataset(o.dataset) + RawMaybeGraph(o.tbox) + RawMaybeGraph(o.abox)
      + RawMaybeGraph(o.annotation) + RawMaybeGraph(o.rules) + RawMaybeGraph(o.provenance)
  {
    var d, t, a, n := RawDataset(o.dataset), RawMaybeGraph(o.tbox), RawMaybeGraph(o.abox), RawMaybeGraph(o.annotation);
    var r, p := RawMaybeGraph(o.rules), RawMaybeGraph(o.provenance);
    Assoc(d, t, a + (n + (r + p)));
    Assoc(d + t, a, n + (r + p));
    Assoc(d + t + a, n, r + p);
    Assoc(d + t + a + n, r, p);
  }

  lemma RuleLayout(r: RuleObject)
    ensures RawRule(r) == RawHeader(r.header) + RawMaybeIri(r.ruleIri) + RawStr(r.name)
  {
    Assoc(RawHeader(r.header), RawMaybeIri(r.ruleIri), RawStr(r.name));
  }

  lemma VersionLayout(v: VersionObject)
    ensures RawVersion(v) ==
      RawHeader(v.header) + RawStr(v.targetId) + RawU64(v.targetVersion) + RawMaybeU64(v.parentVersion)
  {
    Assoc(RawHeader(v.header), RawStr(v.targetId), RawU64(v.targetVersion) + RawMaybeU64(v.parentVersion));
    Assoc(RawHeader(v.header) + RawStr(v.targetId), RawU64(v.targetVersion), RawMaybeU64(v.parentVersion));
  }

  // ---------- Which error ----------

  /** The number in the first eight bytes. */
  ghost predicate Starts(b: Bytes, n: U64, rest: Bytes) { b == RawU64(n) + rest }

  lemma NumberErrors(b: Bytes, n: U64, rest: Bytes)
    ensures |b| < 8 ==> ParseU64(b) == Err(Truncated)
    ensures Starts(b, n, rest) ==> ParseU64(b) == Ok((n, rest))
  {
    if Starts(b, n, rest) {
      CutParts(RawU64(n), rest);
      EightBytes();
      FromLEOfLE(n, 8);
    }
  }

  lemma TagErrors(rest: Bytes)
    ensures ParseTag([]) == Err(Truncated)
    ensures ParseType([]) == Err(Truncated) && ParseState([]) == Err(Truncated)
  {
  }

  /** A text too short for its length field, one that goes on too far, one that is not UTF-8, and a good one. */
  lemma TextErrors(b: Bytes, n: U64, rest: Bytes)
    ensures |b| < 8 ==> ParseStr(b) == Err(Truncated)
    ensures Starts(b, n, rest) && n > |rest| ==> ParseStr(b) == Err(LengthExceedsRemaining)
    ensures Starts(b, n, rest) && n <= |rest| && !ValidUtf8(rest[..n]) ==> ParseStr(b) == Err(InvalidUtf8)
    ensures Starts(b, n, rest) && n <= |rest| && ValidUtf8(rest[..n]) ==> ParseStr(b) == Ok((rest[..n], rest[n..]))
  {
    NumberErrors(b, n, rest);
    if Starts(b, n, rest) && n <= |rest| {
      CutIs(rest, 0, n);
      CutIs(rest, n, |rest|);
      assert rest[0..n] == rest[..n] && rest[n..|rest|] == rest[n..];
    }
  }

  /** An id may not be empty. An IRI may not be empty, hold ASCII white space, or be without a colon. */
  lemma NameErrors(s: Str, rest: Bytes)
    ensures ParseId(RawStr(s) + rest, true) == if s == [] then Err(InvalidObjectId) else Ok((s, rest))
    ensures ParseIri(RawStr(s) + rest, true) ==
      if s == [] || ':' as int !in s || 32 in s || 9 in s || 10 in s || 12 in s || 13 in s then Err(InvalidIri)
      else Ok((s, rest))
  {
    Assoc(RawU64(|s|), s, rest);
    TextErrors(RawStr(s) + rest, |s|, s + rest);
    assert (s + rest)[..|s|] == s && (s + rest)[|s|..] == rest;
  }

  lemma OptionErrors(t: U8, rest: Bytes, strict: bool)
    requires t >= 2
    ensures ParseGraphId([t] + rest, strict) == Err(UnknownTag)
    ensures ParseMaybeGraph([t] + rest, strict) == Err(UnknownTag)
    ensures ParseMaybeIri([t] + rest, strict) == Err(UnknownTag) && ParseMaybeU64([t] + rest) == Err(UnknownTag)
  {
    CutParts([t], rest);
    assert |[t] + rest| >= 1 && ([t] + rest)[0] == t;
  }

  /** More labels than bytes are left is an error before any is read. */
  lemma CountErrors(b: Bytes, n: U64, rest: Bytes)
    ensures |b| < 8 ==> ParseLabels(b) == Err(Truncated)
    ensures Starts(b, n, rest) && n > |rest| ==> ParseLabels(b) == Err(CountExceedsRemaining)
  {
    NumberErrors(b, n, rest);
  }

  /** The same for named graphs, once what stands before them has been read. */
  lemma GraphCountErrors(b: Bytes, n: U64, rest: Bytes, strict: bool)
    requires ParseHeader(b, strict).Ok? && ParseGraph(ParseHeader(b, strict).value.1, strict).Ok?
    requires var p := ParseLabels(ParseGraph(ParseHeader(b, strict).value.1, strict).value.1);
      p.Ok? && Starts(p.value.1, n, rest)
    ensures n > |rest| ==> ParseDataset(b, strict) == Err(CountExceedsRemaining)
  {
    var p := ParseLabels(ParseGraph(ParseHeader(b, strict).value.1, strict).value.1);
    NumberErrors(p.value.1, n, rest);
  }

  lemma LeftoverErrors<T>(v: T, rest: Bytes, e: KoError)
    ensures Complete<T>(Ok((v, rest))) == if rest == [] then Ok(v) else Err(TrailingBytes)
    ensures Complete<T>(Err(e)) == Err(e)
  {
  }
}
