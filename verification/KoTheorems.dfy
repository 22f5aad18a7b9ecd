/** Round trip, canonicity and truncation safety, once for every container format. */
module KoTheorems {
  import opened Prelude
  import opened Text
  import opened KoTypes
  import opened KoGrammar
  import opened KoLaws

  /** A container type as the codec sees it. */
  datatype Format<!T(!new)> = Format(
    raw: T -> Bytes, parse: Bytes -> Parsed<T>, ok: T -> bool, canon: T -> T)

  /** `encode_ko`: labels sorted, then written. */
  function Encode<T(!new)>(f: Format<T>, v: T): Bytes { f.raw(f.canon(v)) }

  /** `decode_ko`. */
  function Decode<T(!new)>(f: Format<T>, b: Bytes): Result<T, KoError> { Complete(f.parse(b)) }

  ghost predicate Lawful<T(!new)>(f: Format<T>) {
    && (forall v: T, rest: Bytes :: Reads(f.parse(f.raw(v) + rest), f.ok(v), v, rest))
    && (forall b: Bytes :: f.parse(b).Ok? ==>
          b == f.raw(f.parse(b).value.0) + f.parse(b).value.1 && f.ok(f.parse(b).value.0))
    && (forall v: T :: f.canon(f.canon(v)) == f.canon(v) && f.ok(f.canon(v)) == f.ok(v))
  }

  // ---------- The formats ----------

  function IdFormat(strict: bool): Format<Str> {
    Format((v: Str) => RawStr(v), (b: Bytes) => ParseId(b, strict), (v: Str) => strict ==> IdOk(v), (v: Str) => v)
  }

  lemma IdLawful(strict: bool)
    ensures Lawful(IdFormat(strict))
  {
    forall v: Str, rest: Bytes ensures Reads(ParseId(RawStr(v) + rest, strict), strict ==> IdOk(v), v, rest) {
      IdRead(v, rest, strict);
    }
    forall b: Bytes | ParseId(b, strict).Ok?
      ensures var (v, rest) := ParseId(b, strict).value; b == RawStr(v) + rest && (strict ==> IdOk(v))
    {
      IdExact(b, strict);
    }
  }

  function TypeFormat(): Format<ObjectType> {
    Format((v: ObjectType) => [TypeTag(v)], (b: Bytes) => ParseType(b), (v: ObjectType) => true, (v: ObjectType) => v)
  }

  lemma TypeLawful()
    ensures Lawful(TypeFormat())
  {
    forall v: ObjectType, rest: Bytes ensures ParseType([TypeTag(v)] + rest) == Ok((v, rest)) { TypeRead(v, rest); }
    forall b: Bytes | ParseType(b).Ok?
      ensures b == [TypeTag(ParseType(b).value.0)] + ParseType(b).value.1
    {
      TypeExact(b);
    }
  }

  function StateFormat(): Format<ObjectState> {
    Format((v: ObjectState) => [StateTag(v)], (b: Bytes) => ParseState(b), (v: ObjectState) => true, (v: ObjectState) => v)
  }

  lemma StateLawful()
    ensures Lawful(StateFormat())
  {
    forall v: ObjectState, rest: Bytes ensures ParseState([StateTag(v)] + rest) == Ok((v, rest)) { StateRead(v, rest); }
    forall b: Bytes | ParseState(b).Ok?
      ensures b == [StateTag(ParseState(b).value.0)] + ParseState(b).value.1
    {
      StateExact(b);
    }
  }

  /** Object versions and version ids. */
  function NumberFormat(): Format<U64> {
    Format((v: U64) => RawU64(v), (b: Bytes) => ParseU64(b), (v: U64) => true, (v: U64) => v)
  }

  lemma NumberLawful()
    ensures Lawful(NumberFormat())
  {
    forall v: U64, rest: Bytes ensures ParseU64(RawU64(v) + rest) == Ok((v, rest)) { U64Read(v, rest); }
    forall b: Bytes | ParseU64(b).Ok? ensures b == RawU64(ParseU64(b).value.0) + ParseU64(b).value.1 { U64Exact(b); }
  }

  function HeaderFormat(strict: bool): Format<Header> {
    Format((v: Header) => RawHeader(v), (b: Bytes) => ParseHeader(b, strict),
           (v: Header) => strict ==> HeaderOk(v), (v: Header) => v)
  }

  lemma HeaderLawful(strict: bool)
    ensures Lawful(HeaderFormat(strict))
  {
    forall v: Header, rest: Bytes
      ensures Reads(ParseHeader(RawHeader(v) + rest, strict), strict ==> HeaderOk(v), v, rest)
    {
      HeaderRead(v, rest, strict);
    }
    forall b: Bytes | ParseHeader(b, strict).Ok?
      ensures var (v, rest) := ParseHeader(b, strict).value; b == RawHeader(v) + rest && (strict ==> HeaderOk(v))
    {
      HeaderExact(b, strict);
    }
  }

  function MetadataFormat(): Format<Labels> {
    Format((v: Labels) => RawLabels(v), (b: Bytes) => ParseLabels(b), (v: Labels) => true, (v: Labels) => CanonLabels(v))
  }

  lemma MetadataLawful()
    ensures Lawful(MetadataFormat())
  {
    forall v: Labels, rest: Bytes ensures ParseLabels(RawLabels(v) + rest) == Ok((v, rest)) { LabelsRead(v, rest); }
    forall b: Bytes | ParseLabels(b).Ok?
      ensures b == RawLabels(ParseLabels(b).value.0) + ParseLabels(b).value.1
    {
      LabelsExact(b);
    }
    forall v: Labels ensures CanonLabels(CanonLabels(v)) == CanonLabels(v) { CanonLabelsIff(v, v); }
  }

  function GraphIdFormat(strict: bool): Format<GraphId> {
    Format((v: GraphId) => RawGraphId(v), (b: Bytes) => ParseGraphId(b, strict),
           (v: GraphId) => strict ==> GraphIdOk(v), (v: GraphId) => v)
  }

  lemma GraphIdLawful(strict: bool)
    ensures Lawful(GraphIdFormat(strict))
  {
    forall v: GraphId, rest: Bytes
      ensures Reads(ParseGraphId(RawGraphId(v) + rest, strict), strict ==> GraphIdOk(v), v, rest)
    {
      GraphIdRead(v, rest, strict);
    }
    forall b: Bytes | ParseGraphId(b, strict).Ok?
      ensures var (v, rest) := ParseGraphId(b, strict).value; b == RawGraphId(v) + rest && (strict ==> GraphIdOk(v))
    {
      GraphIdExact(b, strict);
    }
  }

  function StatisticsFormat(): Format<Statistics> {
    Format((v: Statistics) => RawStatistics(v), (b: Bytes) => ParseStatistics(b),
           (v: Statistics) => true, (v: Statistics) => v)
  }

  lemma StatisticsLawful()
    ensures Lawful(StatisticsFormat())
  {
    forall v: Statistics, rest: Bytes ensures ParseStatistics(RawStatistics(v) + rest) == Ok((v, rest)) {
      StatisticsRead(v, rest);
    }
    forall b: Bytes | ParseStatistics(b).Ok?
      ensures b == RawStatistics(ParseStatistics(b).value.0) + ParseStatistics(b).value.1
    {
      StatisticsExact(b);
    }
  }

  function GraphFormat(strict: bool): Format<GraphObject> {
    Format((v: GraphObject) => RawGraph(v), (b: Bytes) => ParseGraph(b, strict),
           (v: GraphObject) => strict ==> GraphOk(v), (v: GraphObject) => CanonGraph(v))
  }

  lemma GraphLawful(strict: bool)
    ensures Lawful(GraphFormat(strict))
  {
    forall v: GraphObject, rest: Bytes
      ensures Reads(ParseGraph(RawGraph(v) + rest, strict), strict ==> GraphOk(v), v, rest)
    {
      GraphRead(v, rest, strict);
    }
    forall b: Bytes | ParseGraph(b, strict).Ok?
      ensures var (v, rest) := ParseGraph(b, strict).value; b == RawGraph(v) + rest && (strict ==> GraphOk(v))
    {
      GraphExact(b, strict);
    }
    forall v: GraphObject ensures CanonGraph(CanonGraph(v)) == CanonGraph(v) { CanonGraphIff(v, v); }
  }

  function DatasetFormat(strict: bool): Format<DatasetObject> {
    Format((v: DatasetObject) => RawDataset(v), (b: Bytes) => ParseDataset(b, strict),
           (v: DatasetObject) => strict ==> DatasetOk(v), (v: DatasetObject) => CanonDataset(v))
  }

  lemma CanonDatasetOk(d: DatasetObject)
    ensures DatasetOk(CanonDataset(d)) == DatasetOk(d)
  {
    forall i | 0 <= i < |d.namedGraphs| ensures GraphOk(CanonGraphs(d.namedGraphs)[i]) == GraphOk(d.namedGraphs[i]) { }
  }

  lemma DatasetLawful(strict: bool)
    ensures Lawful(DatasetFormat(strict))
  {
    forall v: DatasetObject, rest: Bytes
      ensures Reads(ParseDataset(RawDataset(v) + rest, strict), strict ==> DatasetOk(v), v, rest)
    {
      DatasetRead(v, rest, strict);
    }
    forall b: Bytes | ParseDataset(b, strict).Ok?
      ensures var (v, rest) := ParseDataset(b, strict).value; b == RawDataset(v) + rest && (strict ==> DatasetOk(v))
    {
      DatasetExact(b, strict);
    }
    forall v: DatasetObject
      ensures CanonDataset(CanonDataset(v)) == CanonDataset(v) && DatasetOk(CanonDataset(v)) == DatasetOk(v)
    {
      CanonDatasetIff(v, v);
      CanonDatasetOk(v);
    }
  }

  function OntologyFormat(strict: bool): Format<OntologyObject> {
    Format((v: OntologyObject) => RawOntology(v), (b: Bytes) => ParseOntology(b, strict),
           (v: OntologyObject) => strict ==> OntologyOk(v), (v: OntologyObject) => CanonOntology(v))
  }

  lemma OntologyLawful(strict: bool)
    ensures Lawful(OntologyFormat(strict))
  {
    forall v: OntologyObject, rest: Bytes
      ensures Reads(ParseOntology(RawOntology(v) + rest, strict), strict ==> OntologyOk(v), v, rest)
    {
      OntologyRead(v, rest, strict);
    }
    forall b: Bytes | ParseOntology(b, strict).Ok?
      ensures var (v, rest) := ParseOntology(b, strict).value; b == RawOntology(v) + rest && (strict ==> OntologyOk(v))
    {
      OntologyExact(b, strict);
    }
    forall v: OntologyObject
      ensures CanonOntology(CanonOntology(v)) == CanonOntology(v) && OntologyOk(CanonOntology(v)) == OntologyOk(v)
    {
      CanonDatasetIff(v.dataset, v.dataset);
      CanonDatasetOk(v.dataset);
    }
  }

  function RuleFormat(strict: bool): Format<RuleObject> {
    Format((v: RuleObject) => RawRule(v), (b: Bytes) => ParseRule(b, strict),
           (v: RuleObject) => strict ==> RuleOk(v), (v: RuleObject) => v)
  }

  lemma RuleLawful(strict: bool)
    ensures Lawful(RuleFormat(strict))
  {
    forall v: RuleObject, rest: Bytes
      ensures Reads(ParseRule(RawRule(v) + rest, strict), strict ==> RuleOk(v), v, rest)
    {
      RuleRead(v, rest, strict);
    }
    forall b: Bytes | ParseRule(b, strict).Ok?
      ensures var (v, rest) := ParseRule(b, strict).value; b == RawRule(v) + rest && (strict ==> RuleOk(v))
    {
      RuleExact(b, strict);
    }
  }

  function VersionFormat(strict: bool): Format<VersionObject> {
    Format((v: VersionObject) => RawVersion(v), (b: Bytes) => ParseVersion(b, strict),
           (v: VersionObject) => strict ==> VersionOk(v), (v: VersionObject) => v)
  }

  lemma VersionLawful(strict: bool)
    ensures Lawful(VersionFormat(strict))
  {
    forall v: VersionObject, rest: Bytes
      ensures Reads(ParseVersion(RawVersion(v) + rest, strict), strict ==> VersionOk(v), v, rest)
    {
      VersionRead(v, rest, strict);
    }
    forall b: Bytes | ParseVersion(b, strict).Ok?
      ensures var (v, rest) := ParseVersion(b, strict).value; b == RawVersion(v) + rest && (strict ==> VersionOk(v))
    {
      VersionExact(b, strict);
    }
  }

  /** Every container type of the codec, validated or not. */
  lemma EveryFormatLawful(strict: bool)
    ensures Lawful(IdFormat(strict)) && Lawful(TypeFormat()) && Lawful(StateFormat()) && Lawful(NumberFormat())
    ensures Lawful(HeaderFormat(strict)) && Lawful(MetadataFormat()) && Lawful(GraphIdFormat(strict))
    ensures Lawful(StatisticsFormat()) && Lawful(GraphFormat(strict)) && Lawful(DatasetFormat(strict))
    ensures Lawful(OntologyFormat(strict)) && Lawful(RuleFormat(strict)) && Lawful(VersionFormat(strict))
  {
    IdLawful(strict);
    TypeLawful();
    StateLawful();
    NumberLawful();
    HeaderLawful(strict);
    MetadataLawful();
    GraphIdLawful(strict);
    StatisticsLawful();
    GraphLawful(strict);
    DatasetLawful(strict);
    OntologyLawful(strict);
    RuleLawful(strict);
    VersionLawful(strict);
  }

  // ---------- Theorems about every lawful format ----------

  /** The decoder accepts exactly the byte strings that are some acceptable value written out, and returns that value. */
  lemma DecodeIff<T(!new)>(f: Format<T>, b: Bytes, v: T)
    requires Lawful(f)
    ensures Decode(f, b) == Ok(v) <==> f.ok(v) && b == f.raw(v)
  {
    assert f.raw(v) + [] == f.raw(v);
    assert Reads(f.parse(f.raw(v) + []), f.ok(v), v, []);
    if Decode(f, b) == Ok(v) {
      assert b == f.raw(v) + [];
    }
  }

  /** A round trip sorts the labels and changes nothing else; it fails exactly for values with a bad id or IRI. */
  lemma RoundTrip<T(!new)>(f: Format<T>, v: T)
    requires Lawful(f)
    ensures f.ok(v) ==> Decode(f, Encode(f, v)) == Ok(f.canon(v))
    ensures !f.ok(v) ==> Decode(f, Encode(f, v)).Err?
  {
    var c := f.canon(v);
    assert f.raw(c) + [] == f.raw(c);
    assert Reads(f.parse(f.raw(c) + []), f.ok(c), c, []);
  }

  /** Locality: a successful read does the same whatever follows, although two guards look at how much follows. */
  lemma ReadIsLocal<T(!new)>(f: Format<T>, b: Bytes, more: Bytes)
    requires Lawful(f) && f.parse(b).Ok?
    ensures f.parse(b + more) == Ok((f.parse(b).value.0, f.parse(b).value.1 + more))
  {
    var (v, rest) := f.parse(b).value;
    Assoc(f.raw(v), rest, more);
    assert Reads(f.parse(f.raw(v) + (rest + more)), f.ok(v), v, rest + more);
  }

  /** Cutting off any non-empty tail of a decodable input, or adding one, makes it undecodable. */
  lemma RejectsTruncation<T(!new)>(f: Format<T>, b: Bytes, more: Bytes)
    requires Lawful(f) && more != []
    ensures !(Decode(f, b).Ok? && Decode(f, b + more).Ok?)
  {
    if f.parse(b).Ok? { ReadIsLocal(f, b, more); }
  }

  /** Every proper prefix and every proper extension of a valid encoding is rejected. */
  lemma EncodingIsSelfDelimiting<T(!new)>(f: Format<T>, v: T, cut: nat, more: Bytes)
    requires Lawful(f) && f.ok(v) && cut < |Encode(f, v)| && more != []
    ensures Decode(f, Encode(f, v)[..cut]).Err?
    ensures Decode(f, Encode(f, v) + more).Err?
  {
    var b := Encode(f, v);
    RoundTrip(f, v);
    assert b == b[..cut] + b[cut..];
    RejectsTruncation(f, b[..cut], b[cut..]);
    RejectsTruncation(f, b, more);
  }

  /** Canonicity: two values encode equally exactly when they agree up to label order. `f` skips the id and IRI checks. */
  lemma EncodeEqualIff<T(!new)>(f: Format<T>, a: T, b: T)
    requires Lawful(f) && f.ok(a) && f.ok(b)
    ensures Encode(f, a) == Encode(f, b) <==> f.canon(a) == f.canon(b)
  {
    RoundTrip(f, a);
    RoundTrip(f, b);
  }

  /** Decoding then encoding reproduces the input exactly when its labels came in canonical order. */
  lemma ReencodeIff<T(!new)>(f: Format<T>, b: Bytes)
    requires Lawful(f) && Decode(f, b).Ok?
    ensures Encode(f, Decode(f, b).value) == b <==> f.canon(Decode(f, b).value) == Decode(f, b).value
  {
    var v := Decode(f, b).value;
    DecodeIff(f, b, v);
    RoundTrip(f, v);
    if Encode(f, v) == b { assert Decode(f, b) == Ok(f.canon(v)); }
  }

  // ---------- Canonicity, spelled out for the containers with labels ----------

  /** All datasets, validated or not, encode equally exactly when they agree up to the order of their labels. */
  lemma DatasetsEncodeEqually(a: DatasetObject, b: DatasetObject)
    ensures Encode(DatasetFormat(true), a) == Encode(DatasetFormat(true), b) <==> SameDataset(a, b)
  {
    DatasetLawful(false);
    EncodeEqualIff(DatasetFormat(false), a, b);
    CanonDatasetIff(a, b);
  }

  lemma GraphsEncodeEqually(a: GraphObject, b: GraphObject)
    ensures Encode(GraphFormat(true), a) == Encode(GraphFormat(true), b) <==> SameGraph(a, b)
  {
    GraphLawful(false);
    EncodeEqualIff(GraphFormat(false), a, b);
    CanonGraphIff(a, b);
  }

  lemma OntologiesEncodeEqually(a: OntologyObject, b: OntologyObject)
    ensures Encode(OntologyFormat(true), a) == Encode(OntologyFormat(true), b) <==>
      SameDataset(a.dataset, b.dataset) && a.(dataset := b.dataset) == b
  {
    OntologyLawful(false);
    EncodeEqualIff(OntologyFormat(false), a, b);
    CanonDatasetIff(a.dataset, b.dataset);
  }

  lemma MetadataEncodesEqually(a: Labels, b: Labels)
    ensures Encode(MetadataFormat(), a) == Encode(MetadataFormat(), b) <==> multiset(a) == multiset(b)
  {
    MetadataLawful();
    EncodeEqualIff(MetadataFormat(), a, b);
    CanonLabelsIff(a, b);
  }
}
