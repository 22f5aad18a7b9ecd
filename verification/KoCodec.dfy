/** The incremental encoder and decoder, proved against the byte grammar. */
module KoCodec {
  import opened Prelude
  import opened Sorting
  import opened Text
  import opened KoTypes
  import opened KoGrammar
  import opened KoLaws
  import opened KoTheorems

  class Encoder {
    var buf: Bytes

    constructor ()
      ensures buf == []
    {
      buf := [];
    }

    method WriteTag(tag: U8)
      modifies this
      ensures buf == old(buf) + [tag]
    {
      buf := buf + [tag];
    }

    method WriteU64(value: U64)
      modifies this
      ensures buf == old(buf) + RawU64(value)
    {
      buf := buf + LE(value, 8);
    }

    method WriteStr(value: Str)
      modifies this
      ensures buf == old(buf) + RawStr(value)
    {
      WriteU64(|value|);
      buf := buf + value;
      Assoc(old(buf), RawU64(|value|), value);
    }
  }

  class Decoder {
    const bytes: Bytes
    var cursor: nat

    ghost predicate Valid()
      reads this
    {
      cursor <= |bytes|
    }

    ghost function Rest(): Bytes
      reads this
      requires Valid()
    {
      bytes[cursor..]
    }

    constructor (bytes: Bytes)
      ensures Valid() && Rest() == bytes
    {
      this.bytes := bytes;
      cursor := 0;
    }

    function Remaining(): (n: nat)
      reads this
      ensures Valid() ==> n == |Rest()|
    {
      Monus(|bytes|, cursor)
    }

    method Take(len: nat) returns (r: Result<Bytes, KoError>)
      requires Valid()
      modifies this
      ensures Valid()
      ensures if len <= |old(Rest())| then r == Ok(old(Rest())[..len]) && Rest() == old(Rest())[len..]
              else r == Err(Truncated) && Rest() == old(Rest())
    {
      if Remaining() < len { return Err(Truncated); }
      var start := cursor;
      cursor := cursor + len;
      ghost var before := old(Rest());
      assert bytes[start..start + len] == before[..len] && bytes[cursor..] == before[len..];
      r := Ok(bytes[start..start + len]);
    }

    method ReadTag() returns (r: Result<U8, KoError>)
      requires Valid()
      modifies this
      ensures Valid() && Follows(ParseTag(old(Rest())), r, Rest())
    {
      CutIs(Rest(), Min(1, |Rest()|), |Rest()|);
      var raw :- Take(1);
      r := Ok(raw[0]);
    }

    method ReadU64() returns (r: Result<U64, KoError>)
      requires Valid()
      modifies this
      ensures Valid() && Follows(ParseU64(old(Rest())), r, Rest())
    {
      CutIs(Rest(), 0, Min(8, |Rest()|));
      CutIs(Rest(), Min(8, |Rest()|), |Rest()|);
      var raw :- Take(8);
      LEOfFromLE(raw);
      EightBytes();
      r := Ok(FromLE(raw));
    }

    method ReadBytes() returns (r: Result<Bytes, KoError>)
      requires Valid()
      modifies this
      ensures Valid() && Follows(ParseBytes(old(Rest())), r, Rest())
    {
      var len :- ReadU64();
      if len > Remaining() { return Err(LengthExceedsRemaining); }
      ghost var after := Rest();
      var start := cursor;
      cursor := cursor + len;
      CutIs(after, 0, len);
      CutIs(after, len, |after|);
      assert bytes[start..start + len] == after[..len] && bytes[cursor..] == after[len..];
      r := Ok(bytes[start..start + len]);
    }

    method ReadStr() returns (r: Result<Str, KoError>)
      requires Valid()
      modifies this
      ensures Valid() && Follows(ParseStr(old(Rest())), r, Rest())
    {
      var raw :- ReadBytes();
      if !ValidUtf8(raw) { return Err(InvalidUtf8); }
      r := Ok(raw);
    }

    method Finish() returns (r: Result<(), KoError>)
      requires Valid()
      ensures r == if Rest() == [] then Ok(()) else Err(TrailingBytes)
    {
      if Remaining() != 0 { return Err(TrailingBytes); }
      r := Ok(());
    }
  }

  // ---------- Ids, IRIs, enumerations ----------

  method DecodeId(dec: Decoder) returns (r: Result<Str, KoError>)
    requires dec.Valid()
    modifies dec
    ensures dec.Valid() && Follows(ParseId(old(dec.Rest()), true), r, dec.Rest())
  {
    var value :- dec.ReadStr();
    if value == [] { return Err(InvalidObjectId); }
    r := Ok(value);
  }

  method DecodeIri(dec: Decoder) returns (r: Result<Str, KoError>)
    requires dec.Valid()
    modifies dec
    ensures dec.Valid() && Follows(ParseIri(old(dec.Rest()), true), r, dec.Rest())
  {
    var value :- dec.ReadStr();
    var ok := CheckIri(value);
    if !ok { return Err(InvalidIri); }
    r := Ok(value);
  }

  method CheckIri(value: Str) returns (ok: bool)
    ensures ok == IriOk(value)
  {
    if value == [] { return false; }
    for i := 0 to |value|
      invariant forall j :: 0 <= j < i ==> !IsAsciiSpace(value[j])
    {
      if IsAsciiSpace(value[i]) { return false; }
    }
    ok := 58 in value;
  }

  method DecodeType(dec: Decoder) returns (r: Result<ObjectType, KoError>)
    requires dec.Valid()
    modifies dec
    ensures dec.Valid() && Follows(ParseType(old(dec.Rest())), r, dec.Rest())
  {
    var tag :- dec.ReadTag();
    match tag
    case 0 => r := Ok(Resource);
    case 1 => r := Ok(Statement);
    case 2 => r := Ok(ObjectType.Graph);
    case 3 => r := Ok(ObjectType.Dataset);
    case 4 => r := Ok(ObjectType.Ontology);
    case 5 => r := Ok(ObjectType.Rule);
    case 6 => r := Ok(ObjectType.Version);
    case 7 => r := Ok(ObjectType.Metadata);
    case _ => r := Err(UnknownTag);
  }

  method DecodeState(dec: Decoder) returns (r: Result<ObjectState, KoError>)
    requires dec.Valid()
    modifies dec
    ensures dec.Valid() && Follows(ParseState(old(dec.Rest())), r, dec.Rest())
  {
    var tag :- dec.ReadTag();
    match tag
    case 0 => r := Ok(Created);
    case 1 => r := Ok(Persisted);
    case 2 => r := Ok(Indexed);
    case 3 => r := Ok(Replicated);
    case 4 => r := Ok(Versioned);
    case 5 => r := Ok(Archived);
    case 6 => r := Ok(Deleted);
    case _ => r := Err(UnknownTag);
  }

  // ---------- Header ----------

  method EncodeHeader(h: Header, enc: Encoder)
    modifies enc
    ensures enc.buf == old(enc.buf) + RawHeader(h)
  {
    enc.WriteStr(h.id);
    enc.WriteTag(TypeTag(h.objectType));
    enc.WriteU64(h.version);
    enc.WriteU64(h.createdAt);
    enc.WriteU64(h.updatedAt);
    enc.WriteTag(StateTag(h.state));
  }

  method DecodeHeader(dec: Decoder) returns (r: Result<Header, KoError>)
    requires dec.Valid()
    modifies dec
    ensures dec.Valid() && Follows(ParseHeader(old(dec.Rest()), true), r, dec.Rest())
  {
    var id :- DecodeId(dec);
    var objectType :- DecodeType(dec);
    var version :- dec.ReadU64();
    var createdAt :- dec.ReadU64();
    var updatedAt :- dec.ReadU64();
    var state :- DecodeState(dec);
    r := Ok(Header(id, objectType, version, createdAt, updatedAt, state));
  }

  // ---------- Metadata ----------

  /** `buf` is `start` followed by the first `i` elements. */
  ghost predicate Written<T>(raw: T -> Bytes, buf: Bytes, start: Bytes, all: seq<T>, i: nat) {
    i <= |all| && buf == start + RawList(raw, all[..i])
  }

  lemma WrittenStart<T>(raw: T -> Bytes, buf: Bytes, all: seq<T>)
    ensures Written(raw, buf, buf, all, 0)
  {
    assert buf + [] == buf;
  }

  lemma WrittenNext<T>(raw: T -> Bytes, buf: Bytes, start: Bytes, all: seq<T>, i: nat)
    requires i < |all| && Written(raw, buf, start, all, i)
    ensures Written(raw, buf + raw(all[i]), start, all, i + 1)
  {
    ListSnoc(raw, all[..i], all[i]);
    assert all[..i + 1] == all[..i] + [all[i]];
    Assoc(start, RawList(raw, all[..i]), raw(all[i]));
  }

  method EncodeLabel(l: Label, enc: Encoder)
    modifies enc
    ensures enc.buf == old(enc.buf) + RawLabel(l)
  {
    enc.WriteStr(l.key);
    enc.WriteStr(l.value);
    Assoc(old(enc.buf), RawStr(l.key), RawStr(l.value));
  }

  method EncodePairs(pairs: seq<Label>, enc: Encoder)
    modifies enc
    ensures enc.buf == old(enc.buf) + RawList(RawLabel, pairs)
  {
    WrittenStart(RawLabel, enc.buf, pairs);
    for i := 0 to |pairs|
      invariant Written(RawLabel, enc.buf, old(enc.buf), pairs, i)
    {
      WrittenNext(RawLabel, enc.buf, old(enc.buf), pairs, i);
      EncodeLabel(pairs[i], enc);
    }
    assert pairs[..|pairs|] == pairs;
  }

  method EncodeMetadata(labels: Labels, enc: Encoder)
    modifies enc
    ensures enc.buf == old(enc.buf) + RawLabels(CanonLabels(labels))
  {
    var pairs := Sort(LabelLe, labels);
    enc.WriteU64(|pairs|);
    EncodePairs(pairs, enc);
    Assoc(old(enc.buf), RawU64(|pairs|), RawList(RawLabel, pairs));
  }

  /** Having read `done`, what is still to be read from `b` completes `all`. */
  ghost predicate Pending<T(!new)>(
      one: Bytes -> Parsed<T>, all: Parsed<seq<T>>, done: seq<T>, b: Bytes, left: nat) {
    all == Prepend(done, ParseList(one, b, left))
  }

  lemma PendingStart<T(!new)>(one: Bytes -> Parsed<T>, b: Bytes, count: nat)
    ensures Pending(one, ParseList(one, b, count), [], b, count)
  {
    PrependNothing(ParseList(one, b, count));
  }

  lemma PendingNext<T(!new)>(one: Bytes -> Parsed<T>, all: Parsed<seq<T>>, done: seq<T>, b: Bytes, left: nat,
                             x: Result<T, KoError>, rest: Bytes)
    requires Pending(one, all, done, b, left) && left > 0 && Follows(one(b), x, rest)
    ensures x.Ok? ==> Pending(one, all, done + [x.value], rest, left - 1)
    ensures x.Err? ==> all == Err(x.error)
  {
    if x.Ok? {
      assert ParseList(one, b, left) == Prepend([x.value], ParseList(one, rest, left - 1));
      PrependStep(done, x.value, ParseList(one, rest, left - 1));
    }
  }

  lemma PendingDone<T(!new)>(one: Bytes -> Parsed<T>, all: Parsed<seq<T>>, done: seq<T>, b: Bytes)
    requires Pending(one, all, done, b, 0)
    ensures all == Ok((done, b))
  {
    assert done + [] == done;
  }

  method DecodeLabel(dec: Decoder) returns (r: Result<Label, KoError>)
    requires dec.Valid()
    modifies dec
    ensures dec.Valid() && Follows(ParseLabel(old(dec.Rest())), r, dec.Rest())
  {
    var key :- dec.ReadStr();
    var value :- dec.ReadStr();
    r := Ok(Label(key, value));
  }

  method DecodeNextLabel(dec: Decoder, ghost all: Parsed<seq<Label>>, ghost done: seq<Label>, ghost left: nat)
    returns (x: Result<Label, KoError>)
    requires dec.Valid() && left > 0 && Pending(ParseLabel, all, done, dec.Rest(), left)
    modifies dec
    ensures dec.Valid()
    ensures x.Ok? ==> Pending(ParseLabel, all, done + [x.value], dec.Rest(), left - 1)
    ensures x.Err? ==> all == Err(x.error)
  {
    ghost var before := dec.Rest();
    x := DecodeLabel(dec);
    PendingNext(ParseLabel, all, done, before, left, x, dec.Rest());
  }

  method DecodePairs(dec: Decoder, count: nat) returns (r: Result<seq<Label>, KoError>)
    requires dec.Valid()
    modifies dec
    ensures dec.Valid() && Follows(ParseList(ParseLabel, old(dec.Rest()), count), r, dec.Rest())
    ensures r.Ok? ==> |r.value| == count
  {
    var labels: seq<Label> := [];
    ghost var left, all := count, ParseList(ParseLabel, dec.Rest(), count);
    PendingStart(ParseLabel, dec.Rest(), count);
    for i := 0 to count
      invariant dec.Valid() && |labels| == i && left == count - i
      invariant Pending(ParseLabel, all, labels, dec.Rest(), left)
    {
      var x := DecodeNextLabel(dec, all, labels, left);
      if x.Err? { return Err(x.error); }
      left := left - 1;
      labels := labels + [x.value];
    }
    PendingDone(ParseLabel, all, labels, dec.Rest());
    r := Ok(labels);
  }

  method DecodeMetadata(dec: Decoder) returns (r: Result<Labels, KoError>)
    requires dec.Valid()
    modifies dec
    ensures dec.Valid() && Follows(ParseLabels(old(dec.Rest())), r, dec.Rest())
  {
    var count :- dec.ReadU64();
    if count > dec.Remaining() { return Err(CountExceedsRemaining); }
    var labels :- DecodePairs(dec, count);
    r := Ok(labels);
  }

  // ---------- Graphs ----------

  method EncodeGraphId(g: GraphId, enc: Encoder)
    modifies enc
    ensures enc.buf == old(enc.buf) + RawGraphId(g)
  {
    match g
    case DefaultGraph => enc.WriteTag(0);
    case Named(iri) =>
      enc.WriteTag(1);
      enc.WriteStr(iri);
      Assoc(old(enc.buf), [1], RawStr(iri));
  }

  method DecodeGraphId(dec: Decoder) returns (r: Result<GraphId, KoError>)
    requires dec.Valid()
    modifies dec
    ensures dec.Valid() && Follows(ParseGraphId(old(dec.Rest()), true), r, dec.Rest())
  {
    var tag :- dec.ReadTag();
    match tag
    case 0 => r := Ok(DefaultGraph);
    case 1 =>
      var iri :- DecodeIri(dec);
      r := Ok(Named(iri));
    case _ => r := Err(UnknownTag);
  }

  method EncodeStatistics(s: Statistics, enc: Encoder)
    modifies enc
    ensures enc.buf == old(enc.buf) + RawStatistics(s)
  {
    enc.WriteU64(s.tripleCount);
    enc.WriteU64(s.subjects);
    enc.WriteU64(s.predicates);
    enc.WriteU64(s.objects);
  }

  method DecodeStatistics(dec: Decoder) returns (r: Result<Statistics, KoError>)
    requires dec.Valid()
    modifies dec
    ensures dec.Valid() && Follows(ParseStatistics(old(dec.Rest())), r, dec.Rest())
  {
    var tripleCount :- dec.ReadU64();
    var subjects :- dec.ReadU64();
    var predicates :- dec.ReadU64();
    var objects :- dec.ReadU64();
    r := Ok(Statistics(tripleCount, subjects, predicates, objects));
  }

  method EncodeGraph(g: GraphObject, enc: Encoder)
    modifies enc
    ensures enc.buf == old(enc.buf) + RawGraph(CanonGraph(g))
  {
    EncodeHeader(g.header, enc);
    EncodeGraphId(g.graphId, enc);
    EncodeMetadata(g.metadata, enc);
    EncodeStatistics(g.statistics, enc);
    var c := CanonGraph(g);
    Join4(old(enc.buf), RawHeader(c.header), RawGraphId(c.graphId), RawLabels(c.metadata), RawStatistics(c.statistics));
  }

  lemma Join4(buf: Bytes, a: Bytes, b: Bytes, c: Bytes, d: Bytes)
    ensures buf + a + b + c + d == buf + (a + (b + (c + d)))
  {
    Assoc(buf, a, b);
    Assoc(buf, a + b, c);
    Assoc(a, b, c);
    Assoc(buf, a + (b + c), d);
    Assoc(a, b + c, d);
    Assoc(b, c, d);
  }

  method DecodeGraph(dec: Decoder) returns (r: Result<GraphObject, KoError>)
    requires dec.Valid()
    modifies dec
    ensures dec.Valid() && Follows(ParseGraph(old(dec.Rest()), true), r, dec.Rest())
  {
    var header :- DecodeHeader(dec);
    var graphId :- DecodeGraphId(dec);
    var metadata :- DecodeMetadata(dec);
    var statistics :- DecodeStatistics(dec);
    r := Ok(GraphObject(header, graphId, metadata, statistics));
  }

  // ---------- Datasets ----------

  /** `p` is what the grammar writes for `g`. */
  ghost predicate WritesGraph(p: Bytes, g: GraphObject) { p == RawGraph(g) }

  /** `raw` is the graph writer; the loop below need not know more. */
  ghost predicate IsGraphWriter(raw: GraphObject -> Bytes) {
    forall p, g :: WritesGraph(p, g) ==> raw(g) == p
  }

  method EncodeNextGraph(g: GraphObject, enc: Encoder, ghost raw: GraphObject -> Bytes,
                         ghost start: Bytes, ghost all: seq<GraphObject>, ghost i: nat)
    requires IsGraphWriter(raw) && i < |all| && all[i] == CanonGraph(g) && Written(raw, enc.buf, start, all, i)
    modifies enc
    ensures Written(raw, enc.buf, start, all, i + 1)
  {
    WrittenNext(raw, enc.buf, start, all, i);
    assert WritesGraph(RawGraph(all[i]), all[i]);
    EncodeGraph(g, enc);
  }

  method EncodeGraphs(graphs: Graphs, enc: Encoder, ghost raw: GraphObject -> Bytes)
    requires IsGraphWriter(raw)
    modifies enc
    ensures enc.buf == old(enc.buf) + RawList(raw, CanonGraphs(graphs))
  {
    ghost var all: seq<GraphObject> := CanonGraphs(graphs);
    WrittenStart(raw, enc.buf, all);
    for i := 0 to |graphs|
      invariant Written(raw, enc.buf, old(enc.buf), all, i)
    {
      EncodeNextGraph(graphs[i], enc, raw, old(enc.buf), all, i);
    }
    assert all[..|graphs|] == all;
  }

  method EncodeDataset(d: DatasetObject, enc: Encoder)
    modifies enc
    ensures enc.buf == old(enc.buf) + RawDataset(CanonDataset(d))
  {
    EncodeHeader(d.header, enc);
    EncodeGraph(d.defaultGraph, enc);
    EncodeMetadata(d.metadata, enc);
    enc.WriteU64(|d.namedGraphs|);
    EncodeGraphs(d.namedGraphs, enc, RawGraph);
    var c := CanonDataset(d);
    ghost var counted := RawU64(|c.namedGraphs|) + RawList(RawGraph, c.namedGraphs);
    Assoc(old(enc.buf) + RawHeader(c.header) + RawGraph(c.defaultGraph) + RawLabels(c.metadata),
          RawU64(|c.namedGraphs|), RawList(RawGraph, c.namedGraphs));
    Join4(old(enc.buf), RawHeader(c.header), RawGraph(c.defaultGraph), RawLabels(c.metadata), counted);
  }

  /** `p` is what the grammar reads as a graph from `b`. */
  ghost predicate ReadsGraph(p: Parsed<GraphObject>, b: Bytes) { p == ParseGraph(b, true) }

  /** `one` is the graph parser; the loop below need not know more. */
  ghost predicate IsGraphParser(one: Bytes -> Parsed<GraphObject>) {
    forall p, b :: ReadsGraph(p, b) ==> one(b) == p
  }

  method DecodeNextGraph(dec: Decoder, ghost one: Bytes -> Parsed<GraphObject>,
                         ghost all: Parsed<seq<GraphObject>>, ghost done: seq<GraphObject>, ghost left: nat)
    returns (x: Result<GraphObject, KoError>)
    requires dec.Valid() && left > 0 && IsGraphParser(one) && Pending(one, all, done, dec.Rest(), left)
    modifies dec
    ensures dec.Valid()
    ensures x.Ok? ==> Pending(one, all, done + [x.value], dec.Rest(), left - 1)
    ensures x.Err? ==> all == Err(x.error)
  {
    ghost var before := dec.Rest();
    x := DecodeGraph(dec);
    assert ReadsGraph(ParseGraph(before, true), before);
    PendingNext(one, all, done, before, left, x, dec.Rest());
  }

  method DecodeGraphs(dec: Decoder, count: nat, ghost one: Bytes -> Parsed<GraphObject>)
    returns (r: Result<seq<GraphObject>, KoError>)
    requires dec.Valid() && IsGraphParser(one)
    modifies dec
    ensures dec.Valid() && Follows(ParseList(one, old(dec.Rest()), count), r, dec.Rest())
    ensures r.Ok? ==> |r.value| == count
  {
    var graphs: seq<GraphObject> := [];
    ghost var left, all := count, ParseList(one, dec.Rest(), count);
    PendingStart(one, dec.Rest(), count);
    for i := 0 to count
      invariant dec.Valid() && |graphs| == i && left == count - i
      invariant Pending(one, all, graphs, dec.Rest(), left)
    {
      var x := DecodeNextGraph(dec, one, all, graphs, left);
      if x.Err? { return Err(x.error); }
      left := left - 1;
      graphs := graphs + [x.value];
    }
    PendingDone(one, all, graphs, dec.Rest());
    r := Ok(graphs);
  }

  method DecodeDataset(dec: Decoder) returns (r: Result<DatasetObject, KoError>)
    requires dec.Valid()
    modifies dec
    ensures dec.Valid() && Follows(ParseDataset(old(dec.Rest()), true), r, dec.Rest())
  {
    var header :- DecodeHeader(dec);
    var defaultGraph :- DecodeGraph(dec);
    var metadata :- DecodeMetadata(dec);
    var count :- dec.ReadU64();
    if count > dec.Remaining() { return Err(CountExceedsRemaining); }
    var named :- DecodeGraphs(dec, count, GraphParser(true));
    r := Ok(DatasetObject(header, defaultGraph, named, metadata));
  }

  // ---------- Ontologies, rules, versions ----------

  method EncodeMaybeGraph(g: Option<GraphId>, enc: Encoder)
    modifies enc
    ensures enc.buf == old(enc.buf) + RawMaybeGraph(g)
  {
    match g
    case Some(id) =>
      enc.WriteTag(1);
      EncodeGraphId(id, enc);
      Assoc(old(enc.buf), [1], RawGraphId(id));
    case None => enc.WriteTag(0);
  }

  method DecodeMaybeGraph(dec: Decoder) returns (r: Result<Option<GraphId>, KoError>)
    requires dec.Valid()
    modifies dec
    ensures dec.Valid() && Follows(ParseMaybeGraph(old(dec.Rest()), true), r, dec.Rest())
  {
    var tag :- dec.ReadTag();
    match tag
    case 0 => r := Ok(None);
    case 1 =>
      var g :- DecodeGraphId(dec);
      r := Ok(Some(g));
    case _ => r := Err(UnknownTag);
  }

  method EncodeOntology(o: OntologyObject, enc: Encoder)
    modifies enc
    ensures enc.buf == old(enc.buf) + RawOntology(CanonOntology(o))
  {
    EncodeDataset(o.dataset, enc);
    EncodeMaybeGraph(o.tbox, enc);
    EncodeMaybeGraph(o.abox, enc);
    EncodeMaybeGraph(o.annotation, enc);
    EncodeMaybeGraph(o.rules, enc);
    EncodeMaybeGraph(o.provenance, enc);
    ghost var start := old(enc.buf) + RawDataset(CanonDataset(o.dataset));
    Join4(start + RawMaybeGraph(o.tbox), RawMaybeGraph(o.abox), RawMaybeGraph(o.annotation),
          RawMaybeGraph(o.rules), RawMaybeGraph(o.provenance));
    ghost var four := RawMaybeGraph(o.abox) + (RawMaybeGraph(o.annotation) +
      (RawMaybeGraph(o.rules) + RawMaybeGraph(o.provenance)));
    Assoc(start, RawMaybeGraph(o.tbox), four);
    Assoc(old(enc.buf), RawDataset(CanonDataset(o.dataset)), RawMaybeGraph(o.tbox) + four);
  }

  method DecodeOntology(dec: Decoder) returns (r: Result<OntologyObject, KoError>)
    requires dec.Valid()
    modifies dec
    ensures dec.Valid() && Follows(ParseOntology(old(dec.Rest()), true), r, dec.Rest())
  {
    var dataset :- DecodeDataset(dec);
    var tbox :- DecodeMaybeGraph(dec);
    var abox :- DecodeMaybeGraph(dec);
    var annotation :- DecodeMaybeGraph(dec);
    var rules :- DecodeMaybeGraph(dec);
    var provenance :- DecodeMaybeGraph(dec);
    r := Ok(OntologyObject(dataset, tbox, abox, annotation, rules, provenance));
  }

  method EncodeRule(rule: RuleObject, enc: Encoder)
    modifies enc
    ensures enc.buf == old(enc.buf) + RawRule(rule)
  {
    EncodeHeader(rule.header, enc);
    match rule.ruleIri {
      case Some(iri) =>
        enc.WriteTag(1);
        enc.WriteStr(iri);
      case None => enc.WriteTag(0);
    }
    enc.WriteStr(rule.name);
    ghost var h := RawHeader(rule.header);
    if rule.ruleIri.Some? { Assoc(old(enc.buf) + h, [1], RawStr(rule.ruleIri.value)); }
    Assoc(old(enc.buf) + h, RawMaybeIri(rule.ruleIri), RawStr(rule.name));
    Assoc(old(enc.buf), h, RawMaybeIri(rule.ruleIri) + RawStr(rule.name));
  }

  method DecodeRule(dec: Decoder) returns (r: Result<RuleObject, KoError>)
    requires dec.Valid()
    modifies dec
    ensures dec.Valid() && Follows(ParseRule(old(dec.Rest()), true), r, dec.Rest())
  {
    var header :- DecodeHeader(dec);
    var iri: Option<Str> := None;
    var tag :- dec.ReadTag();
    match tag {
      case 0 =>
      case 1 =>
        var value :- DecodeIri(dec);
        iri := Some(value);
      case _ => return Err(UnknownTag);
    }
    var name :- dec.ReadStr();
    r := Ok(RuleObject(header, iri, name));
  }

  method EncodeVersion(v: VersionObject, enc: Encoder)
    modifies enc
    ensures enc.buf == old(enc.buf) + RawVersion(v)
  {
    EncodeHeader(v.header, enc);
    enc.WriteStr(v.targetId);
    enc.WriteU64(v.targetVersion);
    match v.parentVersion {
      case Some(version) =>
        enc.WriteTag(1);
        enc.WriteU64(version);
      case None => enc.WriteTag(0);
    }
    ghost var front := old(enc.buf) + RawHeader(v.header) + RawStr(v.targetId) + RawU64(v.targetVersion);
    if v.parentVersion.Some? { Assoc(front, [1], RawU64(v.parentVersion.value)); }
    Join4(old(enc.buf), RawHeader(v.header), RawStr(v.targetId), RawU64(v.targetVersion), RawMaybeU64(v.parentVersion));
  }

  method DecodeVersion(dec: Decoder) returns (r: Result<VersionObject, KoError>)
    requires dec.Valid()
    modifies dec
    ensures dec.Valid() && Follows(ParseVersion(old(dec.Rest()), true), r, dec.Rest())
  {
    var header :- DecodeHeader(dec);
    var targetId :- DecodeId(dec);
    var targetVersion :- dec.ReadU64();
    var parent: Option<U64> := None;
    var tag :- dec.ReadTag();
    match tag {
      case 0 =>
      case 1 =>
        var value :- dec.ReadU64();
        parent := Some(value);
      case _ => return Err(UnknownTag);
    }
    r := Ok(VersionObject(header, targetId, targetVersion, parent));
  }

  // ---------- Whole objects ----------

  method EncodeKoHeader(h: Header) returns (bytes: Bytes)
    ensures bytes == Encode(HeaderFormat(true), h)
  {
    var enc := new Encoder();
    EncodeHeader(h, enc);
    bytes := enc.buf;
  }

  method DecodeKoHeader(bytes: Bytes) returns (r: Result<Header, KoError>)
    ensures r == Decode(HeaderFormat(true), bytes)
  {
    var dec := new Decoder(bytes);
    var value :- DecodeHeader(dec);
    var _ :- dec.Finish();
    r := Ok(value);
  }

  method EncodeKoMetadata(labels: Labels) returns (bytes: Bytes)
    ensures bytes == Encode(MetadataFormat(), labels)
  {
    var enc := new Encoder();
    EncodeMetadata(labels, enc);
    bytes := enc.buf;
  }

  method DecodeKoMetadata(bytes: Bytes) returns (r: Result<Labels, KoError>)
    ensures r == Decode(MetadataFormat(), bytes)
  {
    var dec := new Decoder(bytes);
    var value :- DecodeMetadata(dec);
    var _ :- dec.Finish();
    r := Ok(value);
  }

  method EncodeKoGraph(g: GraphObject) returns (bytes: Bytes)
    ensures bytes == Encode(GraphFormat(true), g)
  {
    var enc := new Encoder();
    EncodeGraph(g, enc);
    bytes := enc.buf;
  }

  method DecodeKoGraph(bytes: Bytes) returns (r: Result<GraphObject, KoError>)
    ensures r == Decode(GraphFormat(true), bytes)
  {
    var dec := new Decoder(bytes);
    var value :- DecodeGraph(dec);
    var _ :- dec.Finish();
    r := Ok(value);
  }

  method EncodeKoDataset(d: DatasetObject) returns (bytes: Bytes)
    ensures bytes == Encode(DatasetFormat(true), d)
  {
    var enc := new Encoder();
    EncodeDataset(d, enc);
    bytes := enc.buf;
  }

  method DecodeKoDataset(bytes: Bytes) returns (r: Result<DatasetObject, KoError>)
    ensures r == Decode(DatasetFormat(true), bytes)
  {
    var dec := new Decoder(bytes);
    var value :- DecodeDataset(dec);
    var _ :- dec.Finish();
    r := Ok(value);
  }

  method EncodeKoOntology(o: OntologyObject) returns (bytes: Bytes)
    ensures bytes == Encode(OntologyFormat(true), o)
  {
    var enc := new Encoder();
    EncodeOntology(o, enc);
    bytes := enc.buf;
  }

  method DecodeKoOntology(bytes: Bytes) returns (r: Result<OntologyObject, KoError>)
    ensures r == Decode(OntologyFormat(true), bytes)
  {
    var dec := new Decoder(bytes);
    var value :- DecodeOntology(dec);
    var _ :- dec.Finish();
    r := Ok(value);
  }

  method EncodeKoRule(rule: RuleObject) returns (bytes: Bytes)
    ensures bytes == Encode(RuleFormat(true), rule)
  {
    var enc := new Encoder();
    EncodeRule(rule, enc);
    bytes := enc.buf;
  }

  method DecodeKoRule(bytes: Bytes) returns (r: Result<RuleObject, KoError>)
    ensures r == Decode(RuleFormat(true), bytes)
  {
    var dec := new Decoder(bytes);
    var value :- DecodeRule(dec);
    var _ :- dec.Finish();
    r := Ok(value);
  }

  method EncodeKoVersion(v: VersionObject) returns (bytes: Bytes)
    ensures bytes == Encode(VersionFormat(true), v)
  {
    var enc := new Encoder();
    EncodeVersion(v, enc);
    bytes := enc.buf;
  }

  method DecodeKoVersion(bytes: Bytes) returns (r: Result<VersionObject, KoError>)
    ensures r == Decode(VersionFormat(true), bytes)
  {
    var dec := new Decoder(bytes);
    var value :- DecodeVersion(dec);
    var _ :- dec.Finish();
    r := Ok(value);
  }
}
