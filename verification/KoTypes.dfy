/** Knowledge Object containers, and the label order their encoding ignores. */
module KoTypes {
  import opened Prelude
  import opened Sorting
  import opened Text

  datatype ObjectType = Resource | Statement | Graph | Dataset | Ontology | Rule | Version | Metadata

  datatype ObjectState = Created | Persisted | Indexed | Replicated | Versioned | Archived | Deleted

  datatype Header = Header(
    id: Str, objectType: ObjectType, version: U64, createdAt: U64, updatedAt: U64, state: ObjectState)

  datatype Label = Label(key: Str, value: Str)

  type Labels = ls: seq<Label> | |ls| < 0x1_0000_0000_0000_0000

  datatype GraphId = DefaultGraph | Named(iri: Str)

  datatype Statistics = Statistics(tripleCount: U64, subjects: U64, predicates: U64, objects: U64)

  datatype GraphObject = GraphObject(header: Header, graphId: GraphId, metadata: Labels, statistics: Statistics)

  type Graphs = gs: seq<GraphObject> | |gs| < 0x1_0000_0000_0000_0000

  datatype DatasetObject = DatasetObject(
    header: Header, defaultGraph: GraphObject, namedGraphs: Graphs, metadata: Labels)

  datatype OntologyObject = OntologyObject(
    dataset: DatasetObject, tbox: Option<GraphId>, abox: Option<GraphId>, annotation: Option<GraphId>,
    rules: Option<GraphId>, provenance: Option<GraphId>)

  datatype RuleObject = RuleObject(header: Header, ruleIri: Option<Str>, name: Str)

  datatype VersionObject = VersionObject(
    header: Header, targetId: Str, targetVersion: U64, parentVersion: Option<U64>)

  // ---------- What a decoder accepts ----------

  predicate IdOk(id: Str) { id != [] }

  predicate IsAsciiSpace(b: U8) { b == 9 || b == 10 || b == 12 || b == 13 || b == 32 }

  /** Non-empty, no ASCII white space, and a `:` somewhere. */
  predicate IriOk(iri: Str) {
    iri != [] && (forall i :: 0 <= i < |iri| ==> !IsAsciiSpace(iri[i])) && 58 in iri
  }

  predicate HeaderOk(h: Header) { IdOk(h.id) }

  predicate GraphIdOk(g: GraphId) { g.Named? ==> IriOk(g.iri) }

  predicate GraphOk(g: GraphObject) { HeaderOk(g.header) && GraphIdOk(g.graphId) }

  predicate GraphsOk(gs: seq<GraphObject>) { forall i :: 0 <= i < |gs| ==> GraphOk(gs[i]) }

  predicate DatasetOk(d: DatasetObject) {
    HeaderOk(d.header) && GraphOk(d.defaultGraph) && GraphsOk(d.namedGraphs)
  }

  predicate MaybeGraphOk(g: Option<GraphId>) { g.Some? ==> GraphIdOk(g.value) }

  predicate OntologyOk(o: OntologyObject) {
    && DatasetOk(o.dataset) && MaybeGraphOk(o.tbox) && MaybeGraphOk(o.abox) && MaybeGraphOk(o.annotation)
    && MaybeGraphOk(o.rules) && MaybeGraphOk(o.provenance)
  }

  predicate RuleOk(r: RuleObject) { HeaderOk(r.header) && (r.ruleIri.Some? ==> IriOk(r.ruleIri.value)) }

  predicate VersionOk(v: VersionObject) { HeaderOk(v.header) && IdOk(v.targetId) }

  // ---------- Canonical label order ----------

  predicate LabelLe(a: Label, b: Label) {
    if a.key == b.key then LexLe(a.value, b.value) else LexLe(a.key, b.key)
  }

  lemma LabelOrder()
    ensures Total(LabelLe) && Antisymmetric(LabelLe)
  {
    forall a: Label, b: Label ensures LabelLe(a, b) || LabelLe(b, a) {
      LexTotal(a.key, b.key);
      LexTotal(a.value, b.value);
    }
    forall a: Label, b: Label | LabelLe(a, b) && LabelLe(b, a) ensures a == b { LabelsEqual(a, b); }
    forall a: Label, b: Label, c: Label | LabelLe(a, b) && LabelLe(b, c) ensures LabelLe(a, c) {
      LabelTransitive(a, b, c);
    }
  }

  lemma LabelsEqual(a: Label, b: Label)
    requires LabelLe(a, b) && LabelLe(b, a)
    ensures a == b
  {
    if a.key != b.key { LexAntisymmetric(a.key, b.key); } else { LexAntisymmetric(a.value, b.value); }
  }

  lemma LabelTransitive(a: Label, b: Label, c: Label)
    requires LabelLe(a, b) && LabelLe(b, c)
    ensures LabelLe(a, c)
  {
    if a.key == b.key == c.key {
      LexTransitive(a.value, b.value, c.value);
    } else if a.key != b.key && b.key != c.key {
      LexTransitive(a.key, b.key, c.key);
      if a.key == c.key { LexAntisymmetric(a.key, b.key); }
    }
  }

  function CanonLabels(ls: Labels): Labels { Sort(LabelLe, ls) }

  function CanonGraph(g: GraphObject): GraphObject { g.(metadata := CanonLabels(g.metadata)) }

  function CanonGraphs(gs: Graphs): (r: Graphs)
    ensures |r| == |gs| && forall i :: 0 <= i < |gs| ==> r[i] == CanonGraph(gs[i])
  {
    seq(|gs|, i requires 0 <= i < |gs| => CanonGraph(gs[i]))
  }

  function CanonDataset(d: DatasetObject): DatasetObject {
    DatasetObject(d.header, CanonGraph(d.defaultGraph), CanonGraphs(d.namedGraphs), CanonLabels(d.metadata))
  }

  function CanonOntology(o: OntologyObject): OntologyObject { o.(dataset := CanonDataset(o.dataset)) }

  // ---------- Agreement up to label order ----------

  ghost predicate SameLabels(a: Labels, b: Labels) { multiset(a) == multiset(b) }

  ghost predicate SameGraph(a: GraphObject, b: GraphObject) {
    a.header == b.header && a.graphId == b.graphId && a.statistics == b.statistics && SameLabels(a.metadata, b.metadata)
  }

  ghost predicate SameDataset(a: DatasetObject, b: DatasetObject) {
    && a.header == b.header && SameGraph(a.defaultGraph, b.defaultGraph) && SameLabels(a.metadata, b.metadata)
    && |a.namedGraphs| == |b.namedGraphs|
    && forall i :: 0 <= i < |a.namedGraphs| ==> SameGraph(a.namedGraphs[i], b.namedGraphs[i])
  }

  lemma CanonLabelsIff(a: Labels, b: Labels)
    ensures CanonLabels(a) == CanonLabels(b) <==> SameLabels(a, b)
    ensures CanonLabels(CanonLabels(a)) == CanonLabels(a)
  {
    LabelOrder();
    SortEqualIff(LabelLe, a, b);
    SortIdempotent(LabelLe, a);
  }

  lemma CanonGraphIff(a: GraphObject, b: GraphObject)
    ensures CanonGraph(a) == CanonGraph(b) <==> SameGraph(a, b)
    ensures CanonGraph(CanonGraph(a)) == CanonGraph(a)
  {
    CanonLabelsIff(a.metadata, b.metadata);
  }

  lemma CanonGraphsIff(a: Graphs, b: Graphs)
    ensures CanonGraphs(a) == CanonGraphs(b) <==>
      |a| == |b| && forall i :: 0 <= i < |a| ==> SameGraph(a[i], b[i])
    ensures CanonGraphs(CanonGraphs(a)) == CanonGraphs(a)
  {
    forall i | 0 <= i < |a| ensures CanonGraph(CanonGraph(a[i])) == CanonGraph(a[i]) { CanonGraphIff(a[i], a[i]); }
    if |a| == |b| {
      forall i | 0 <= i < |a| ensures CanonGraphs(a)[i] == CanonGraphs(b)[i] <==> SameGraph(a[i], b[i]) {
        CanonGraphIff(a[i], b[i]);
      }
    }
  }

  /** Canonical forms are equal exactly when the datasets agree up to label order. */
  lemma CanonDatasetIff(a: DatasetObject, b: DatasetObject)
    ensures CanonDataset(a) == CanonDataset(b) <==> SameDataset(a, b)
    ensures CanonDataset(CanonDataset(a)) == CanonDataset(a)
  {
    CanonGraphIff(a.defaultGraph, b.defaultGraph);
    CanonGraphsIff(a.namedGraphs, b.namedGraphs);
    CanonLabelsIff(a.metadata, b.metadata);
  }
}
