/**
 * The byte grammar of the Knowledge Object codec. `RawX` writes a value exactly as it stands, labels in their given
 * order; `ParseX` reads one value off the front and returns what is left. With `strict` off, the checks on ids and
 * IRIs are skipped: that variant only serves to show that the writer never confuses two values.
 */
module KoGrammar {
  import opened Prelude
  import opened Text
  import opened KoTypes

  datatype KoError =
    | Truncated | LengthExceedsRemaining | InvalidUtf8 | InvalidObjectId | InvalidIri
    | UnknownTag | CountExceedsRemaining | TrailingBytes

  type Parsed<+T> = Result<(T, Bytes), KoError>

  // ---------- Primitives ----------

  function RawU64(n: U64): Bytes { LE(n, 8) }

  function RawStr(s: Str): Bytes { RawU64(|s|) + s }

  /** `b[i..j]`, written as a comprehension so that long chains of reads stay cheap to reason about. */
  function Cut(b: Bytes, i: nat, j: nat): (r: Bytes)
    requires i <= j <= |b|
    ensures |r| == j - i
  {
    seq(j - i, k requires 0 <= k < j - i => b[i + k])
  }

  lemma CutIs(b: Bytes, i: nat, j: nat)
    requires i <= j <= |b|
    ensures Cut(b, i, j) == b[i..j]
  {
  }

  /** Cutting a concatenation where its parts meet gives the parts. */
  lemma CutParts(a: Bytes, rest: Bytes)
    ensures Cut(a + rest, 0, |a|) == a && Cut(a + rest, |a|, |a + rest|) == rest
  {
  }

  lemma CutJoins(b: Bytes, i: nat)
    requires i <= |b|
    ensures b == Cut(b, 0, i) + Cut(b, i, |b|)
  {
  }

  function ParseTag(b: Bytes): Parsed<U8> {
    if |b| < 1 then Err(Truncated) else Ok((b[0], Cut(b, 1, |b|)))
  }

  function ParseU64(b: Bytes): Parsed<U64> {
    if |b| < 8 then Err(Truncated)
    else
      var raw := Cut(b, 0, 8);
      assert FromLE(raw) < 0x1_0000_0000_0000_0000 by { LEOfFromLE(raw); EightBytes(); }
      Ok((FromLE(raw), Cut(b, 8, |b|)))
  }

  function ParseBytes(b: Bytes): (p: Parsed<Bytes>)
    ensures p.Ok? ==> |p.value.0| < 0x1_0000_0000_0000_0000
  {
    var (len, b1) :- ParseU64(b);
    if len > |b1| then Err(LengthExceedsRemaining) else Ok((Cut(b1, 0, len), Cut(b1, len, |b1|)))
  }

  function ParseStr(b: Bytes): Parsed<Str> {
    var (raw, b1) :- ParseBytes(b);
    if !ValidUtf8(raw) then Err(InvalidUtf8) else Ok((raw, b1))
  }

  function ParseId(b: Bytes, strict: bool): Parsed<Str> {
    var (id, b1) :- ParseStr(b);
    if strict && !IdOk(id) then Err(InvalidObjectId) else Ok((id, b1))
  }

  function ParseIri(b: Bytes, strict: bool): Parsed<Str> {
    var (iri, b1) :- ParseStr(b);
    if strict && !IriOk(iri) then Err(InvalidIri) else Ok((iri, b1))
  }

  // ---------- Enumerations ----------

  function TypeTag(t: ObjectType): U8 {
    match t
    case Resource => 0 case Statement => 1 case Graph => 2 case Dataset => 3
    case Ontology => 4 case Rule => 5 case Version => 6 case Metadata => 7
  }

  function ParseType(b: Bytes): Parsed<ObjectType> {
    var (tag, b1) :- ParseTag(b);
    match tag
    case 0 => Ok((Resource, b1)) case 1 => Ok((Statement, b1))
    case 2 => Ok((ObjectType.Graph, b1)) case 3 => Ok((ObjectType.Dataset, b1))
    case 4 => Ok((ObjectType.Ontology, b1)) case 5 => Ok((ObjectType.Rule, b1))
    case 6 => Ok((ObjectType.Version, b1)) case 7 => Ok((ObjectType.Metadata, b1))
    case _ => Err(UnknownTag)
  }

  function StateTag(s: ObjectState): U8 {
    match s
    case Created => 0 case Persisted => 1 case Indexed => 2 case Replicated => 3
    case Versioned => 4 case Archived => 5 case Deleted => 6
  }

  function ParseState(b: Bytes): Parsed<ObjectState> {
    var (tag, b1) :- ParseTag(b);
    match tag
    case 0 => Ok((Created, b1)) case 1 => Ok((Persisted, b1)) case 2 => Ok((Indexed, b1))
    case 3 => Ok((Replicated, b1)) case 4 => Ok((Versioned, b1)) case 5 => Ok((Archived, b1))
    case 6 => Ok((Deleted, b1))
    case _ => Err(UnknownTag)
  }

  // ---------- Counted lists ----------

  function RawList<T>(raw: T -> Bytes, xs: seq<T>): Bytes {
    if xs == [] then [] else raw(xs[0]) + RawList(raw, xs[1..])
  }

  function ParseList<T>(one: Bytes -> Parsed<T>, b: Bytes, count: nat): (p: Parsed<seq<T>>)
    ensures p.Ok? ==> |p.value.0| == count
    decreases count
  {
    if count == 0 then Ok(([], b))
    else
      var (x, b1) :- one(b);
      var (xs, b2) :- ParseList(one, b1, count - 1);
      Ok(([x] + xs, b2))
  }

  // ---------- Header ----------

  function RawHeader(h: Header): Bytes {
    RawStr(h.id) + ([TypeTag(h.objectType)] + (RawU64(h.version) +
      (RawU64(h.createdAt) + (RawU64(h.updatedAt) + [StateTag(h.state)]))))
  }

  function ParseHeader(b: Bytes, strict: bool): Parsed<Header> {
    var (id, b1) :- ParseId(b, strict);
    var (objectType, b2) :- ParseType(b1);
    var (version, b3) :- ParseU64(b2);
    var (createdAt, b4) :- ParseU64(b3);
    var (updatedAt, b5) :- ParseU64(b4);
    var (state, b6) :- ParseState(b5);
    Ok((Header(id, objectType, version, createdAt, updatedAt, state), b6))
  }

  // ---------- Metadata ----------

  function RawLabel(l: Label): Bytes { RawStr(l.key) + RawStr(l.value) }

  function ParseLabel(b: Bytes): Parsed<Label> {
    var (key, b1) :- ParseStr(b);
    var (value, b2) :- ParseStr(b1);
    Ok((Label(key, value), b2))
  }

  function RawLabels(ls: Labels): Bytes { RawU64(|ls|) + RawList(RawLabel, ls) }

  function ParseLabels(b: Bytes): Parsed<Labels> {
    var (count, b1) :- ParseU64(b);
    if count > |b1| then Err(CountExceedsRemaining)
    else
      var (ls, b2) :- ParseList(ParseLabel, b1, count);
      Ok((ls, b2))
  }

  // ---------- Graphs ----------

  function RawGraphId(g: GraphId): Bytes {
    match g
    case DefaultGraph => [0]
    case Named(iri) => [1] + RawStr(iri)
  }

  function ParseGraphId(b: Bytes, strict: bool): Parsed<GraphId> {
    var (tag, b1) :- ParseTag(b);
    match tag
    case 0 => Ok((DefaultGraph, b1))
    case 1 =>
      var (iri, b2) :- ParseIri(b1, strict);
      Ok((Named(iri), b2))
    case _ => Err(UnknownTag)
  }

  function RawStatistics(s: Statistics): Bytes {
    RawU64(s.tripleCount) + (RawU64(s.subjects) + (RawU64(s.predicates) + RawU64(s.objects)))
  }

  function ParseStatistics(b: Bytes): Parsed<Statistics> {
    var (tripleCount, b1) :- ParseU64(b);
    var (subjects, b2) :- ParseU64(b1);
    var (predicates, b3) :- ParseU64(b2);
    var (objects, b4) :- ParseU64(b3);
    Ok((Statistics(tripleCount, subjects, predicates, objects), b4))
  }

  function RawGraph(g: GraphObject): Bytes {
    RawHeader(g.header) + (RawGraphId(g.graphId) + (RawLabels(g.metadata) + RawStatistics(g.statistics)))
  }

  function ParseGraph(b: Bytes, strict: bool): Parsed<GraphObject> {
    var (header, b1) :- ParseHeader(b, strict);
    var (graphId, b2) :- ParseGraphId(b1, strict);
    var (metadata, b3) :- ParseLabels(b2);
    var (statistics, b4) :- ParseStatistics(b3);
    Ok((GraphObject(header, graphId, metadata, statistics), b4))
  }

  // ---------- Datasets ----------

  function GraphParser(strict: bool): Bytes -> Parsed<GraphObject> { b => ParseGraph(b, strict) }

  function RawDataset(d: DatasetObject): Bytes {
    RawHeader(d.header) + (RawGraph(d.defaultGraph) + (RawLabels(d.metadata) +
      (RawU64(|d.namedGraphs|) + RawList(RawGraph, d.namedGraphs))))
  }

  function ParseDataset(b: Bytes, strict: bool): Parsed<DatasetObject> {
    var (header, b1) :- ParseHeader(b, strict);
    var (defaultGraph, b2) :- ParseGraph(b1, strict);
    var (metadata, b3) :- ParseLabels(b2);
    var (count, b4) :- ParseU64(b3);
    if count > |b4| then Err(CountExceedsRemaining)
    else
      var (named, b5) :- ParseList(GraphParser(strict), b4, count);
      Ok((DatasetObject(header, defaultGraph, named, metadata), b5))
  }

  // ---------- Ontologies, rules, versions ----------

  function RawMaybeGraph(g: Option<GraphId>): Bytes {
    if g.Some? then [1] + RawGraphId(g.value) else [0]
  }

  function ParseMaybeGraph(b: Bytes, strict: bool): Parsed<Option<GraphId>> {
    var (tag, b1) :- ParseTag(b);
    match tag
    case 0 => Ok((None, b1))
    case 1 =>
      var (g, b2) :- ParseGraphId(b1, strict);
      Ok((Some(g), b2))
    case _ => Err(UnknownTag)
  }

  function RawOntology(o: OntologyObject): Bytes {
    RawDataset(o.dataset) + (RawMaybeGraph(o.tbox) + (RawMaybeGraph(o.abox) + (RawMaybeGraph(o.annotation) +
      (RawMaybeGraph(o.rules) + RawMaybeGraph(o.provenance)))))
  }

  function ParseOntology(b: Bytes, strict: bool): Parsed<OntologyObject> {
    var (dataset, b1) :- ParseDataset(b, strict);
    var (tbox, b2) :- ParseMaybeGraph(b1, strict);
    var (abox, b3) :- ParseMaybeGraph(b2, strict);
    var (annotation, b4) :- ParseMaybeGraph(b3, strict);
    var (rules, b5) :- ParseMaybeGraph(b4, strict);
    var (provenance, b6) :- ParseMaybeGraph(b5, strict);
    Ok((OntologyObject(dataset, tbox, abox, annotation, rules, provenance), b6))
  }

  function RawMaybeIri(iri: Option<Str>): Bytes {
    if iri.Some? then [1] + RawStr(iri.value) else [0]
  }

  function ParseMaybeIri(b: Bytes, strict: bool): Parsed<Option<Str>> {
    var (tag, b1) :- ParseTag(b);
    match tag
    case 0 => Ok((None, b1))
    case 1 =>
      var (iri, b2) :- ParseIri(b1, strict);
      Ok((Some(iri), b2))
    case _ => Err(UnknownTag)
  }

  function RawRule(r: RuleObject): Bytes {
    RawHeader(r.header) + (RawMaybeIri(r.ruleIri) + RawStr(r.name))
  }

  function ParseRule(b: Bytes, strict: bool): Parsed<RuleObject> {
    var (header, b1) :- ParseHeader(b, strict);
    var (iri, b2) :- ParseMaybeIri(b1, strict);
    var (name, b3) :- ParseStr(b2);
    Ok((RuleObject(header, iri, name), b3))
  }

  function RawMaybeU64(n: Option<U64>): Bytes {
    if n.Some? then [1] + RawU64(n.value) else [0]
  }

  function ParseMaybeU64(b: Bytes): Parsed<Option<U64>> {
    var (tag, b1) :- ParseTag(b);
    match tag
    case 0 => Ok((None, b1))
    case 1 =>
      var (n, b2) :- ParseU64(b1);
      Ok((Some(n), b2))
    case _ => Err(UnknownTag)
  }

  function RawVersion(v: VersionObject): Bytes {
    RawHeader(v.header) + (RawStr(v.targetId) + (RawU64(v.targetVersion) + RawMaybeU64(v.parentVersion)))
  }

  function ParseVersion(b: Bytes, strict: bool): Parsed<VersionObject> {
    var (header, b1) :- ParseHeader(b, strict);
    var (targetId, b2) :- ParseId(b1, strict);
    var (targetVersion, b3) :- ParseU64(b2);
    var (parent, b4) :- ParseMaybeU64(b3);
    Ok((VersionObject(header, targetId, targetVersion, parent), b4))
  }

  /** Parse one whole object: nothing may be left over. */
  function Complete<T>(p: Parsed<T>): Result<T, KoError> {
    var (v, rest) :- p;
    if rest != [] then Err(TrailingBytes) else Ok(v)
  }
}
