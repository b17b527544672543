/**
 What "compatible" buys: a query that compiled before compiles to the same statement after,
 exactly when the new snapshot still serves it. Removing a hidden field is classed compatible
 although a visible metric, anchor or join may rest on it, so the condition is needed.
 */
module CompatibilityProofs {
  import opened Prelude
  import opened Semantic
  import opened Snapshots
  import opened Compiler
  import opened Diff
  import opened DiffProofs

  // ----- what the verdict keeps -----

  /** Equal except for visibility and nullability, which no statement depends on. */
  predicate SameField(f: Field, g: Field) {
    f.(visible := true, nullable := true) == g.(visible := true, nullable := true)
  }

  predicate FieldStays(x: Model, y: Model, name: string) {
    match Lookup(x.fields, FieldName, name)
    case None => true
    case Some(f) =>
      var g := Lookup(y.fields, FieldName, name);
      (f.visible ==> g == Some(f)) && (g.Some? ==> SameField(f, g.value))
  }

  predicate MetricStays(x: Model, y: Model, name: string) {
    match Lookup(x.metrics, MetricName, name)
    case None => true
    case Some(m) => m.visible ==> Lookup(y.metrics, MetricName, name) == Some(m)
  }

  predicate RelationshipStays(x: Model, y: Model, name: string) {
    match Lookup(x.relationships, RelationshipName, name)
    case None => true
    case Some(r) => Lookup(y.relationships, RelationshipName, name) == Some(r)
  }

  ghost predicate ModelStays(x: Model, y: Model) {
    && x.semanticName == y.semanticName && x.source == y.source && x.timezone == y.timezone
    && (x.queryable ==> y.queryable)
    && (forall n :: FieldStays(x, y, n))
    && (forall n :: MetricStays(x, y, n))
    && (forall n :: RelationshipStays(x, y, n))
  }

  lemma CompatibleModelStays(x: Model, y: Model)
    requires CompatibleModel(x, y) && x.semanticName == y.semanticName
    ensures ModelStays(x, y)
  {
    assert NormalizedModel(x).source == x.source && NormalizedModel(y).source == y.source;
    forall n
      ensures FieldStays(x, y, n)
    {
      var f := Lookup(x.fields, FieldName, n);
      if f.Some? {
        assert Kept(f.value, y.fields, FieldName, FieldVisible, FieldCompatibility);
      }
    }
    forall n
      ensures MetricStays(x, y, n)
    {
      var m := Lookup(x.metrics, MetricName, n);
      if m.Some? {
        assert Kept(m.value, y.metrics, MetricName, MetricVisible, MetricCompatibility);
      }
    }
    forall n
      ensures RelationshipStays(x, y, n)
    {
      var r := Lookup(x.relationships, RelationshipName, n);
      if r.Some? {
        assert Kept(r.value, y.relationships, RelationshipName, AlwaysVisible, AlwaysBreaking);
      }
    }
  }

  // ----- resolution -----

  lemma DimensionStays(x: Model, y: Model, d: Dimension)
    requires ModelStays(x, y) && ResolveDimension(x, d).Ok?
    ensures ResolveDimension(y, d) == ResolveDimension(x, d)
  {
    assert FieldStays(x, y, d.field);
  }

  lemma {:induction false} DimensionsStay(x: Model, y: Model, ds: seq<Dimension>)
    requires ModelStays(x, y) && ResolveDimensions(x, ds).Ok?
    ensures ResolveDimensions(y, ds) == ResolveDimensions(x, ds)
  {
    hide ModelStays;
    if ds != [] {
      DimensionStays(x, y, ds[0]);
      DimensionsStay(x, y, ds[1..]);
    }
  }

  lemma {:induction false} FilterStays(x: Model, y: Model, f: Filter)
    requires ModelStays(x, y) && ResolveFilter(x, f).Ok?
    ensures ResolveFilter(y, f) == ResolveFilter(x, f)
    decreases f
  {
    match f
    case And(args) => FiltersStay(x, y, args);
    case Or(args) => FiltersStay(x, y, args);
    case Not(arg) => FilterStays(x, y, arg);
    case Compare(_, name, _) => assert FieldStays(x, y, name);
    case In(name, _) => assert FieldStays(x, y, name);
    case IsNull(name) => assert FieldStays(x, y, name);
    case IsNotNull(name) => assert FieldStays(x, y, name);
  }

  lemma {:induction false} FiltersStay(x: Model, y: Model, fs: seq<Filter>)
    requires ModelStays(x, y) && ResolveFilters(x, fs).Ok?
    ensures ResolveFilters(y, fs) == ResolveFilters(x, fs)
    decreases fs
  {
    hide ModelStays;
    if fs != [] {
      FilterStays(x, y, fs[0]);
      FiltersStay(x, y, fs[1..]);
    }
  }

  predicate SameOptionalField(f: Option<Field>, g: Option<Field>) {
    f.Some? == g.Some? && (f.Some? ==> SameField(f.value, g.value))
  }

  predicate SameMetric(m: ResolvedMetric, n: ResolvedMetric) {
    && m.metric == n.metric && SameField(m.field, n.field)
    && m.filter.Some? == n.filter.Some?
    && (m.filter.Some? ==> SameField(m.filter.value.0, n.filter.value.0) && m.filter.value.1 == n.filter.value.1)
    && SameOptionalField(m.anchor, n.anchor)
  }

  /** The new snapshot still has the fields a visible metric names, and metadata fitting its version. */
  predicate MetricServed(version: string, y: Model, name: string) {
    var m := Lookup(y.metrics, MetricName, name);
    && m.Some?
    && CheckMetadata(version, m.value).Ok?
    && Lookup(y.fields, FieldName, m.value.field).Some?
    && (m.value.filter.Some? ==> Lookup(y.fields, FieldName, m.value.filter.value.field).Some?)
    && (m.value.aggregationAnchor.Some? ==> Lookup(y.fields, FieldName, m.value.aggregationAnchor.value).Some?)
  }

  lemma MetricStaysResolved(v: string, w: string, x: Model, y: Model, name: string)
    requires ModelStays(x, y) && ResolveMetric(v, x, name).Ok?
    ensures ResolveMetric(w, y, name).Ok? <==> MetricServed(w, y, name)
    ensures ResolveMetric(w, y, name).Ok? ==> SameMetric(ResolveMetric(v, x, name).value, ResolveMetric(w, y, name).value)
  {
    var m := Lookup(x.metrics, MetricName, name).value;
    assert MetricStays(x, y, name);
    assert FieldStays(x, y, m.field);
    MetricFilterStays(x, y, m);
    MetricAnchorStays(x, y, m);
  }

  lemma MetricFilterStays(x: Model, y: Model, m: Metric)
    requires ModelStays(x, y) && ResolveMetricFilter(x, m).Ok?
    ensures ResolveMetricFilter(y, m).Ok? <==> (m.filter.Some? ==> Lookup(y.fields, FieldName, m.filter.value.field).Some?)
    ensures ResolveMetricFilter(y, m).Ok? ==>
      var a, b := ResolveMetricFilter(x, m).value, ResolveMetricFilter(y, m).value;
      a.Some? == b.Some? && (a.Some? ==> SameField(a.value.0, b.value.0) && a.value.1 == b.value.1)
  {
    if m.filter.Some? {
      assert FieldStays(x, y, m.filter.value.field);
    }
  }

  lemma MetricAnchorStays(x: Model, y: Model, m: Metric)
    requires ModelStays(x, y) && ResolveMetricAnchor(x, m).Ok?
    ensures ResolveMetricAnchor(y, m).Ok? <==> (m.aggregationAnchor.Some? ==> Lookup(y.fields, FieldName, m.aggregationAnchor.value).Some?)
    ensures ResolveMetricAnchor(y, m).Ok? ==> SameOptionalField(ResolveMetricAnchor(x, m).value, ResolveMetricAnchor(y, m).value)
  {
    if m.aggregationAnchor.Some? {
      assert FieldStays(x, y, m.aggregationAnchor.value);
    }
  }

  ghost predicate SameMetrics(ms: seq<ResolvedMetric>, ns: seq<ResolvedMetric>) {
    |ms| == |ns| && forall i :: 0 <= i < |ms| ==> SameMetric(ms[i], ns[i])
  }

  ghost predicate AllServed(w: string, y: Model, names: seq<string>) {
    forall i :: 0 <= i < |names| ==> MetricServed(w, y, names[i])
  }

  lemma ServedSplits(w: string, y: Model, names: seq<string>)
    requires names != []
    ensures AllServed(w, y, names) <==> MetricServed(w, y, names[0]) && AllServed(w, y, names[1..])
  {
    hide MetricServed;
    assert forall i :: 0 <= i < |names[1..]| ==> names[1..][i] == names[i + 1];
    if MetricServed(w, y, names[0]) && AllServed(w, y, names[1..]) {
      forall i | 0 <= i < |names|
        ensures MetricServed(w, y, names[i])
      {
        if i > 0 {
          assert names[i] == names[1..][i - 1];
        }
      }
    }
  }

  lemma SameMetricsJoin(m: ResolvedMetric, n: ResolvedMetric, ms: seq<ResolvedMetric>, ns: seq<ResolvedMetric>)
    requires SameMetric(m, n) && SameMetrics(ms, ns)
    ensures SameMetrics([m] + ms, [n] + ns)
  {
    hide SameMetric;
  }

  lemma {:induction false} MetricsStay(v: string, w: string, x: Model, y: Model, names: seq<string>)
    requires ModelStays(x, y) && ResolveMetrics(v, x, names).Ok?
    ensures ResolveMetrics(w, y, names).Ok? <==> AllServed(w, y, names)
    ensures ResolveMetrics(w, y, names).Ok? ==> SameMetrics(ResolveMetrics(v, x, names).value, ResolveMetrics(w, y, names).value)
  {
    hide ModelStays, MetricServed, SameMetric, ResolveMetric;
    if names != [] {
      hide SameMetrics, AllServed;
      MetricStaysResolved(v, w, x, y, names[0]);
      MetricsStay(v, w, x, y, names[1..]);
      ServedSplits(w, y, names);
      if ResolveMetrics(w, y, names).Ok? {
        SameMetricsJoin(ResolveMetric(v, x, names[0]).value, ResolveMetric(w, y, names[0]).value,
                        ResolveMetrics(v, x, names[1..]).value, ResolveMetrics(w, y, names[1..]).value);
      }
    }
  }

  // ----- relationships -----

  ghost predicate SameFields(fs: seq<Field>, gs: seq<Field>) {
    |fs| == |gs| && forall i :: 0 <= i < |fs| ==> SameField(fs[i], gs[i])
  }

  lemma {:induction false} RecordSame(names: seq<string>, fs: seq<Field>, gs: seq<Field>)
    requires SameFields(fs, gs)
    ensures RecordAll(names, fs) == RecordAll(names, gs)
    decreases |fs|
  {
    if fs != [] {
      RecordSame(RecordRelationship(names, fs[0]), fs[1..], gs[1..]);
    }
  }

  lemma {:induction false} MetricFieldsSame(ms: seq<ResolvedMetric>, ns: seq<ResolvedMetric>)
    requires SameMetrics(ms, ns)
    ensures SameFields(MetricFields(ms), MetricFields(ns))
  {
    if ms != [] {
      MetricFieldsSame(ms[1..], ns[1..]);
    }
  }

  lemma SameFieldsAppend(a: seq<Field>, b: seq<Field>, c: seq<Field>, d: seq<Field>)
    requires SameFields(a, b) && SameFields(c, d)
    ensures SameFields(a + c, b + d)
  {
  }

  lemma UsedNamesSame(ds: seq<ResolvedDimension>, ms: seq<ResolvedMetric>, ns: seq<ResolvedMetric>, f: Option<ResolvedFilter>)
    requires SameMetrics(ms, ns)
    ensures RecordAll([], UsedFields(ds, ms, f)) == RecordAll([], UsedFields(ds, ns, f))
  {
    MetricFieldsSame(ms, ns);
    var d, t := DimensionFields(ds), if f.Some? then FilterFields(f.value) else [];
    SameFieldsAppend(d, d, MetricFields(ms), MetricFields(ns));
    SameFieldsAppend(d + MetricFields(ms), d + MetricFields(ns), t, t);
    RecordSame([], UsedFields(ds, ms, f), UsedFields(ds, ns, f));
  }

  /** The key a relationship joins on is still declared. */
  predicate KeyServed(after: Snapshot, y: Model, name: string) {
    match Lookup(y.relationships, RelationshipName, name)
    case None => false
    case Some(rel) =>
      if rel.cardinality == OneToMany then HasKeyColumn(y.fields, rel.fromColumn)
      else match Lookup(after.models, ModelName, rel.targetModel)
        case None => false
        case Some(target) => HasKeyColumn(target.fields, rel.toColumn)
  }

  ghost predicate ModelsStay(before: Snapshot, after: Snapshot) {
    forall n :: var x := Lookup(before.models, ModelName, n); x.Some? ==>
      var y := Lookup(after.models, ModelName, n); y.Some? && ModelStays(x.value, y.value)
  }

  lemma RelationshipStaysResolved(before: Snapshot, after: Snapshot, x: Model, y: Model, name: string)
    requires ModelsStay(before, after) && ModelStays(x, y) && ResolveRelationship(before, x, name).Ok?
    ensures ResolveRelationship(after, y, name).Ok? <==> KeyServed(after, y, name)
    ensures ResolveRelationship(after, y, name).Ok? ==> ResolveRelationship(after, y, name) == ResolveRelationship(before, x, name)
  {
    assert RelationshipStays(x, y, name);
    var rel := Lookup(x.relationships, RelationshipName, name).value;
    var t, u := Lookup(before.models, ModelName, rel.targetModel), Lookup(after.models, ModelName, rel.targetModel);
    assert u.Some? && ModelStays(t.value, u.value);
  }

  lemma {:induction false} RelationshipsStay(before: Snapshot, after: Snapshot, x: Model, y: Model, names: seq<string>)
    requires ModelsStay(before, after) && ModelStays(x, y) && ResolveRelationships(before, x, names).Ok?
    ensures ResolveRelationships(after, y, names).Ok? <==> forall i :: 0 <= i < |names| ==> KeyServed(after, y, names[i])
    ensures ResolveRelationships(after, y, names).Ok? ==> ResolveRelationships(after, y, names) == ResolveRelationships(before, x, names)
  {
    hide ModelsStay, ModelStays, KeyServed;
    if names != [] {
      RelationshipStaysResolved(before, after, x, y, names[0]);
      RelationshipsStay(before, after, x, y, names[1..]);
      assert names == [names[0]] + names[1..];
      if forall i :: 0 <= i < |names| ==> KeyServed(after, y, names[i]) {
        assert forall i :: 0 <= i < |names[1..]| ==> names[1..][i] == names[i + 1];
      }
    }
  }

  // ----- the anchor -----

  lemma {:induction false} AnchorSame(ms: seq<ResolvedMetric>, ns: seq<ResolvedMetric>, f: Option<Field>, g: Option<Field>)
    requires SameMetrics(ms, ns) && SameOptionalField(f, g)
    ensures var a, b := AnchorFrom(ms, f), AnchorFrom(ns, g);
      (a.Ok? <==> b.Ok?) && (a.Ok? ==> SameOptionalField(a.value, b.value))
  {
    if ms != [] {
      assert SameMetric(ms[0], ns[0]);
      AnchorSame(ms[1..], ns[1..], ms[0].anchor, ns[0].anchor);
    }
  }

  lemma ResolveAnchorSame(rels: seq<Relationship>, ms: seq<ResolvedMetric>, ns: seq<ResolvedMetric>)
    requires SameMetrics(ms, ns)
    ensures var a, b := ResolveAnchor(rels, ms), ResolveAnchor(rels, ns);
      (a.Ok? <==> b.Ok?) && (a.Ok? ==> SameOptionalField(a.value, b.value))
  {
    AnchorSame(ms, ns, None, None);
  }

  // ----- rendering -----

  lemma FieldRendersSame(x: Model, y: Model, names: seq<string>, f: Field, g: Field, st: RenderState)
    requires ModelStays(x, y) && SameField(f, g) && RenderField(x, names, f, st).Ok?
    ensures RenderField(y, names, g, st) == RenderField(x, names, f, st)
  {
    if f.relationship.Some? {
      assert RelationshipStays(x, y, f.relationship.value);
    }
  }

  lemma {:induction false} DimensionsRenderSame(x: Model, y: Model, names: seq<string>, ds: seq<ResolvedDimension>, st: RenderState)
    requires ModelStays(x, y) && RenderDimensions(x, names, ds, st).Ok?
    ensures RenderDimensions(y, names, ds, st) == RenderDimensions(x, names, ds, st)
  {
    if ds != [] {
      FieldRendersSame(x, y, names, ds[0].field, ds[0].field, st);
      DimensionsRenderSame(x, y, names, ds[1..], RenderDimension(x, names, ds[0], st).value.state);
    }
  }

  lemma PartsRenderSame(x: Model, y: Model, names: seq<string>, m: ResolvedMetric, n: ResolvedMetric, st: RenderState)
    requires ModelStays(x, y) && SameMetric(m, n) && RenderMetricParts(x, names, m, st).Ok?
    ensures RenderMetricParts(y, names, n, st) == RenderMetricParts(x, names, m, st)
  {
    FieldRendersSame(x, y, names, m.field, n.field, st);
    if m.filter.Some? {
      FieldRendersSame(x, y, names, m.filter.value.0, n.filter.value.0, RenderField(x, names, m.field, st).value.state);
    }
  }

  lemma {:induction false} MetricsRenderSame(x: Model, y: Model, names: seq<string>, ms: seq<ResolvedMetric>, ns: seq<ResolvedMetric>, anchored: bool, st: RenderState)
    requires ModelStays(x, y) && SameMetrics(ms, ns) && RenderMetrics(x, names, ms, anchored, st).Ok?
    ensures RenderMetrics(y, names, ns, anchored, st) == RenderMetrics(x, names, ms, anchored, st)
  {
    hide ModelStays;
    if ms != [] {
      assert SameMetric(ms[0], ns[0]);
      PartsRenderSame(x, y, names, ms[0], ns[0], st);
      var m := if anchored then RenderMetricInput(x, names, ms[0], st) else RenderMetric(x, names, ms[0], st);
      MetricsRenderSame(x, y, names, ms[1..], ns[1..], anchored, m.value.state);
    }
  }

  lemma {:induction false} FilterRendersSame(x: Model, y: Model, names: seq<string>, f: ResolvedFilter, st: RenderState)
    requires ModelStays(x, y) && RenderFilter(x, names, f, st).Ok?
    ensures RenderFilter(y, names, f, st) == RenderFilter(x, names, f, st)
    decreases f
  {
    match f
    case RAnd(args) => FiltersRenderSame(x, y, names, args, st);
    case ROr(args) => FiltersRenderSame(x, y, names, args, st);
    case RNot(arg) => FilterRendersSame(x, y, names, arg, st);
    case RCompare(_, field, _) => FieldRendersSame(x, y, names, field, field, st);
    case RIn(field, _) => FieldRendersSame(x, y, names, field, field, st);
    case RIsNull(field) => FieldRendersSame(x, y, names, field, field, st);
    case RIsNotNull(field) => FieldRendersSame(x, y, names, field, field, st);
  }

  lemma {:induction false} FiltersRenderSame(x: Model, y: Model, names: seq<string>, fs: seq<ResolvedFilter>, st: RenderState)
    requires ModelStays(x, y) && RenderFilters(x, names, fs, st).Ok?
    ensures RenderFilters(y, names, fs, st) == RenderFilters(x, names, fs, st)
    decreases fs
  {
    hide ModelStays;
    if fs != [] {
      FilterRendersSame(x, y, names, fs[0], st);
      FiltersRenderSame(x, y, names, fs[1..], RenderFilter(x, names, fs[0], st).value.state);
    }
  }

  /** Two validated queries that differ only where no statement looks. */
  ghost predicate SameQuery(v: ValidatedQuery, w: ValidatedQuery) {
    && ModelStays(v.model, w.model) && SameMetrics(v.metrics, w.metrics) && SameOptionalField(v.anchor, w.anchor)
    && v.dimensions == w.dimensions && v.filter == w.filter && v.orderBy == w.orderBy
    && v.relationships == w.relationships && v.limit == w.limit
  }

  lemma {:induction false} JoinColumnsSame(x: Model, y: Model, rels: seq<Relationship>)
    requires x.source == y.source
    ensures JoinColumns(x, rels) == JoinColumns(y, rels)
  {
    if rels != [] {
      JoinColumnsSame(x, y, rels[1..]);
    }
  }

  lemma FromRendersSame(v: ValidatedQuery, w: ValidatedQuery, names: seq<string>, st: RenderState)
    requires SameQuery(v, w) && RenderFrom(v, names, st).Ok?
    ensures RenderFrom(w, names, st) == RenderFrom(v, names, st)
  {
    JoinColumnsSame(v.model, w.model, v.relationships);
    if v.filter.Some? {
      FilterRendersSame(v.model, w.model, names, v.filter.value, st.(columns := st.columns + JoinColumns(v.model, v.relationships)));
    }
  }

  lemma OuterMetricsSame(ms: seq<ResolvedMetric>, ns: seq<ResolvedMetric>, d: nat)
    requires SameMetrics(ms, ns)
    ensures OuterMetrics(ms, d) == OuterMetrics(ns, d)
  {
    assert forall i :: 0 <= i < |ms| ==> SameMetric(ms[i], ns[i]) ==> OuterMetrics(ms, d)[i] == OuterMetrics(ns, d)[i];
  }

  lemma FlatRendersSame(v: ValidatedQuery, w: ValidatedQuery, names: seq<string>, st: RenderState)
    requires SameQuery(v, w) && RenderFlat(v, names, st).Ok?
    ensures RenderFlat(w, names, st) == RenderFlat(v, names, st)
  {
    hide SameMetrics, RenderFrom;
    var ds := RenderDimensions(v.model, names, v.dimensions, st).value;
    DimensionsRenderSame(v.model, w.model, names, v.dimensions, st);
    var ms := RenderMetrics(v.model, names, v.metrics, false, ds.state).value;
    MetricsRenderSame(v.model, w.model, names, v.metrics, w.metrics, false, ds.state);
    FromRendersSame(v, w, names, ms.state);
  }

  lemma AnchoredRendersSame(v: ValidatedQuery, w: ValidatedQuery, f: Field, g: Field, names: seq<string>, st: RenderState)
    requires SameQuery(v, w) && SameField(f, g) && RenderAnchored(v, f, names, st).Ok?
    ensures RenderAnchored(w, g, names, st) == RenderAnchored(v, f, names, st)
  {
    hide SameMetrics, RenderFrom;
    var ds := RenderDimensions(v.model, names, v.dimensions, st).value;
    DimensionsRenderSame(v.model, w.model, names, v.dimensions, st);
    FieldRendersSame(v.model, w.model, names, f, g, ds.state);
    var a := RenderField(v.model, names, f, ds.state).value;
    var ms := RenderMetrics(v.model, names, v.metrics, true, a.state).value;
    MetricsRenderSame(v.model, w.model, names, v.metrics, w.metrics, true, a.state);
    FromRendersSame(v, w, names, ms.state);
    OuterMetricsSame(v.metrics, w.metrics, |v.dimensions|);
  }

  lemma {:induction false} SchemaSame(ms: seq<ResolvedMetric>, ns: seq<ResolvedMetric>)
    requires SameMetrics(ms, ns)
    ensures MetricColumns(ms) == MetricColumns(ns) && MetricNames(ms) == MetricNames(ns) && AnchorLineage(ms) == AnchorLineage(ns)
  {
    if ms != [] {
      assert SameMetric(ms[0], ns[0]);
      SchemaSame(ms[1..], ns[1..]);
    }
  }

  /** Statement, parameters, output schema and lineage come out the same. */
  lemma RendersSame(v: ValidatedQuery, w: ValidatedQuery)
    requires SameQuery(v, w) && Render(v).Ok?
    ensures Render(w) == Render(v)
  {
    hide RenderFlat, RenderAnchored, ModelStays, SameMetrics;
    var names, st := NamesOf(v.relationships), RenderState([], {});
    if v.anchor.Some? {
      AnchoredRendersSame(v, w, v.anchor.value, w.anchor.value, names, st);
    } else {
      FlatRendersSame(v, w, names, st);
    }
    SchemaSame(v.metrics, w.metrics);
    ModelNameSame(v, w);
  }

  lemma ModelNameSame(v: ValidatedQuery, w: ValidatedQuery)
    requires SameQuery(v, w)
    ensures v.model.semanticName == w.model.semanticName
  {
  }

  // ----- the theorem -----

  /** What the new snapshot must still offer for a query: exactly the checks a compatible change can break. */
  ghost predicate Serves(q: Query, after: Snapshot, y: Model, names: seq<string>, hash: Snapshot -> string) {
    && RevisionHashHolds(after, hash)
    && (forall i :: 0 <= i < |q.metrics| ==> MetricServed(after.schemaVersion, y, q.metrics[i]))
    && (forall i :: 0 <= i < |names| ==> KeyServed(after, y, names[i]))
  }

  lemma ValidateForStays(q: Query, before: Snapshot, after: Snapshot, x: Model, y: Model, limit: nat, hash: Snapshot -> string)
    requires ModelsStay(before, after) && ModelStays(x, y) && RevisionHashHolds(after, hash)
    requires ValidateFor(q, before, x, limit).Ok?
    ensures var v := ValidateFor(q, before, x, limit).value; var w := ValidateFor(q, after, y, limit);
      (w.Ok? <==> Serves(q, after, y, NamesOf(v.relationships), hash)) && (w.Ok? ==> SameQuery(v, w.value))
  {
    hide ModelsStay, ModelStays, MetricServed, KeyServed, SameMetrics, SameMetric, SameField, UsedFields, RevisionHashHolds;
    var ds := ResolveDimensions(x, q.dimensions).value;
    DimensionsStay(x, y, q.dimensions);
    var ms := ResolveMetrics(before.schemaVersion, x, q.metrics).value;
    MetricsStay(before.schemaVersion, after.schemaVersion, x, y, q.metrics);
    var f := ResolveOptionalFilter(x, q.filters).value;
    if q.filters.Some? {
      FilterStays(x, y, q.filters.value);
    }
    var names := RecordAll([], UsedFields(ds, ms, f));
    var rels := ResolveRelationships(before, x, names).value;
    ResolvedNames(before, x, names, rels);
    RelationshipsStay(before, after, x, y, names);
    var ns := ResolveMetrics(after.schemaVersion, y, q.metrics);
    if ns.Ok? {
      UsedNamesSame(ds, ms, ns.value, f);
      ResolveAnchorSame(rels, ms, ns.value);
    }
  }

  lemma SnapshotsStay(before: Snapshot, after: Snapshot)
    requires CompatibleSnapshots(before, after)
    ensures ModelsStay(before, after)
  {
    hide CompatibleModel, ModelStays;
    forall n | Lookup(before.models, ModelName, n).Some?
      ensures var y := Lookup(after.models, ModelName, n);
        y.Some? && ModelStays(Lookup(before.models, ModelName, n).value, y.value)
    {
      var x := Lookup(before.models, ModelName, n).value;
      CompatibleModelStays(x, Lookup(after.models, ModelName, n).value);
    }
  }

  lemma QueryableIsNamed(models: seq<Model>, name: string)
    requires UniqueNames(models, ModelName)
    ensures var m := Lookup(models, ModelName, name);
      FindQueryable(models, name) == if m.Some? && m.value.queryable then m else None
  {
    var f := FindQueryable(models, name);
    if f.Some? {
      LookupUnique(models, ModelName, f.value);
    }
  }

  lemma QueryableStays(before: Snapshot, after: Snapshot, name: string)
    requires Diffable(before) && Diffable(after) && ModelsStay(before, after)
    requires FindQueryable(before.models, name).Some?
    ensures var y := FindQueryable(after.models, name); y.Some? && ModelStays(FindQueryable(before.models, name).value, y.value)
  {
    QueryableIsNamed(before.models, name);
    QueryableIsNamed(after.models, name);
  }

  /** The model of the new snapshot, and the relationships the query used before. */
  ghost predicate StillServes(q: Query, before: Snapshot, after: Snapshot, options: CompilerOptions, hash: Snapshot -> string) {
    var v := Validate(q, before, options, hash);
    var y := FindQueryable(after.models, q.model);
    v.Ok? && y.Some? && Serves(q, after, y.value, NamesOf(v.value.relationships), hash)
  }

  lemma ValidateUnfolds(q: Query, s: Snapshot, options: CompilerOptions, hash: Snapshot -> string)
    requires CheckSnapshot(s, hash).Ok?
    requires options.defaultLimit != 0 && options.hardLimit != 0 && options.defaultLimit <= options.hardLimit && LimitOf(q, options) <= options.hardLimit
    requires FindQueryable(s.models, q.model).Some?
    ensures Validate(q, s, options, hash) == ValidateFor(q, s, FindQueryable(s.models, q.model).value, LimitOf(q, options))
  {
  }

  lemma ValidateImplies(q: Query, s: Snapshot, options: CompilerOptions, hash: Snapshot -> string)
    requires Validate(q, s, options, hash).Ok?
    ensures CheckSnapshot(s, hash).Ok? && FindQueryable(s.models, q.model).Some?
    ensures options.defaultLimit != 0 && options.hardLimit != 0 && options.defaultLimit <= options.hardLimit && LimitOf(q, options) <= options.hardLimit
  {
  }

  lemma ValidateStays(q: Query, before: Snapshot, after: Snapshot, options: CompilerOptions, hash: Snapshot -> string)
    requires Diffable(before) && Diffable(after) && CompatibleSnapshots(before, after)
    requires Validate(q, before, options, hash).Ok?
    ensures var w := Validate(q, after, options, hash);
      && (w.Ok? <==> StillServes(q, before, after, options, hash))
      && (w.Ok? ==> SameQuery(Validate(q, before, options, hash).value, w.value))
  {
    hide CompatibleSnapshots, ModelsStay, ModelStays, ValidateFor, SameQuery;
    ValidateImplies(q, before, options, hash);
    SnapshotsStay(before, after);
    QueryableStays(before, after, q.model);
    ValidateUnfolds(q, before, options, hash);
    if RevisionHashHolds(after, hash) {
      ValidateUnfolds(q, after, options, hash);
      ValidateForStays(q, before, after, FindQueryable(before.models, q.model).value, FindQueryable(after.models, q.model).value, LimitOf(q, options), hash);
    }
  }

  /**
   Compatibility is sound, and exactly as far as the new snapshot serves the query: after a
   compatible change a query that compiled compiles again if and only if its metrics and keys
   still resolve, and then to the same statement, parameters, output schema and lineage.
   */
  lemma CompatibilitySound(q: Query, before: Snapshot, after: Snapshot, options: CompilerOptions, hash: Snapshot -> string)
    requires Diffable(before) && Diffable(after) && DiffOf(before, after).compatibility == Compatible
    requires Compile(q, before, options, hash).Ok?
    ensures Compile(q, after, options, hash).Ok? <==> StillServes(q, before, after, options, hash)
    ensures Compile(q, after, options, hash).Ok? ==> Compile(q, after, options, hash) == Compile(q, before, options, hash)
  {
    hide Validate, Render, StillServes, DiffOf, Diffable, SameQuery;
    VerdictExact(before, after);
    ValidateStays(q, before, after, options, hash);
    var w := Validate(q, after, options, hash);
    if w.Ok? {
      RendersSame(Validate(q, before, options, hash).value, w.value);
    }
  }

  // ----- well-formed snapshots serve every query -----

  ghost predicate WellFormed(s: Snapshot, hash: Snapshot -> string) {
    && RevisionHashHolds(s, hash)
    && (forall m, name :: m in s.models && Lookup(m.metrics, MetricName, name).Some? ==> MetricServed(s.schemaVersion, m, name))
    && (forall m, name :: m in s.models && Lookup(m.relationships, RelationshipName, name).Some? ==> KeyServed(s, m, name))
  }

  lemma WellFormedServes(q: Query, before: Snapshot, after: Snapshot, options: CompilerOptions, hash: Snapshot -> string)
    requires Diffable(before) && Diffable(after) && CompatibleSnapshots(before, after) && WellFormed(after, hash)
    requires Validate(q, before, options, hash).Ok?
    ensures StillServes(q, before, after, options, hash)
  {
    hide CompatibleSnapshots, ModelsStay, MetricServed, KeyServed, RevisionHashHolds;
    ValidateImplies(q, before, options, hash);
    SnapshotsStay(before, after);
    QueryableStays(before, after, q.model);
    var x, y := FindQueryable(before.models, q.model).value, FindQueryable(after.models, q.model).value;
    var v := Validate(q, before, options, hash).value;
    UsedObjects(q, before, options, hash, x, v);
    forall i | 0 <= i < |q.metrics|
      ensures MetricServed(after.schemaVersion, y, q.metrics[i])
    {
      assert MetricStays(x, y, q.metrics[i]);
    }
    forall i | 0 <= i < |NamesOf(v.relationships)|
      ensures KeyServed(after, y, NamesOf(v.relationships)[i])
    {
      assert RelationshipStays(x, y, NamesOf(v.relationships)[i]);
    }
  }

  lemma UsedObjects(q: Query, s: Snapshot, options: CompilerOptions, hash: Snapshot -> string, x: Model, v: ValidatedQuery)
    requires Validate(q, s, options, hash) == Ok(v) && FindQueryable(s.models, q.model) == Some(x)
    ensures forall i :: 0 <= i < |q.metrics| ==> Lookup(x.metrics, MetricName, q.metrics[i]).Some? && Lookup(x.metrics, MetricName, q.metrics[i]).value.visible
    ensures forall i :: 0 <= i < |NamesOf(v.relationships)| ==> Lookup(x.relationships, RelationshipName, NamesOf(v.relationships)[i]).Some?
  {
    hide Validate, ValidateFor, ResolveMetrics, ResolveRelationships, RecordAll, UsedFields, CheckSnapshot, NamesOf;
    ValidateImplies(q, s, options, hash);
    ValidateUnfolds(q, s, options, hash);
    var names := RecordAll([], UsedFields(v.dimensions, v.metrics, v.filter));
    ValidateForResolves(q, s, x, LimitOf(q, options), v);
    ResolvedNames(s, x, names, v.relationships);
    MetricsVisible(s.schemaVersion, x, q.metrics);
    RelationshipsFound(s, x, names);
  }

  lemma ValidateForResolves(q: Query, s: Snapshot, x: Model, limit: nat, v: ValidatedQuery)
    requires ValidateFor(q, s, x, limit) == Ok(v)
    ensures ResolveMetrics(s.schemaVersion, x, q.metrics).Ok?
    ensures ResolveRelationships(s, x, RecordAll([], UsedFields(v.dimensions, v.metrics, v.filter))) == Ok(v.relationships)
  {
    hide ResolveMetrics, ResolveRelationships, RecordAll, UsedFields, ResolveDimensions, ResolveOptionalFilter, ResolveAnchor, CheckOrder;
  }

  lemma MetricsVisible(version: string, x: Model, names: seq<string>)
    requires ResolveMetrics(version, x, names).Ok?
    ensures forall i :: 0 <= i < |names| ==> Lookup(x.metrics, MetricName, names[i]).Some? && Lookup(x.metrics, MetricName, names[i]).value.visible
  {
    hide ResolveMetric, ResolveMetrics;
    forall i | 0 <= i < |names|
      ensures Lookup(x.metrics, MetricName, names[i]).Some? && Lookup(x.metrics, MetricName, names[i]).value.visible
    {
      ResolvedMetricVisible(version, x, names[i]);
    }
  }

  lemma RelationshipsFound(s: Snapshot, x: Model, names: seq<string>)
    requires ResolveRelationships(s, x, names).Ok?
    ensures forall i :: 0 <= i < |names| ==> Lookup(x.relationships, RelationshipName, names[i]).Some?
  {
    hide ResolveRelationship, ResolveRelationships;
    forall i | 0 <= i < |names|
      ensures Lookup(x.relationships, RelationshipName, names[i]).Some?
    {
      ResolvedRelationshipFound(s, x, names[i]);
    }
  }

  lemma ResolvedMetricVisible(version: string, x: Model, name: string)
    requires ResolveMetric(version, x, name).Ok?
    ensures Lookup(x.metrics, MetricName, name).Some? && Lookup(x.metrics, MetricName, name).value.visible
  {
  }

  lemma ResolvedRelationshipFound(s: Snapshot, x: Model, name: string)
    requires ResolveRelationship(s, x, name).Ok?
    ensures Lookup(x.relationships, RelationshipName, name).Some?
  {
  }

  /** A compatible, well-formed successor compiles every old query to the same result. */
  lemma CompatibleSuccessor(q: Query, before: Snapshot, after: Snapshot, options: CompilerOptions, hash: Snapshot -> string)
    requires Diffable(before) && Diffable(after) && DiffOf(before, after).compatibility == Compatible && WellFormed(after, hash)
    requires Compile(q, before, options, hash).Ok?
    ensures Compile(q, after, options, hash) == Compile(q, before, options, hash)
  {
    hide DiffOf, Diffable, Validate, Render, WellFormed, StillServes;
    VerdictExact(before, after);
    WellFormedServes(q, before, after, options, hash);
    CompatibilitySound(q, before, after, options, hash);
  }

  // ----- why the condition is needed -----

  const AMOUNT: Field := Field("amount", IntegerType, "amount", None, false, false, false, true)

  const REVENUE: Metric := Metric("revenue", NumericType, Sum, "amount", None, None, None, true)

  function Digest(): string {
    "sha256:" + seq(64, i => '0')
  }

  function ConstantHash(s: Snapshot): string {
    Digest()
  }

  function Orders(fields: seq<Field>): Model {
    Model("orders", Relation("sales", "orders"), None, true, None, fields, [REVENUE], [])
  }

  function OrdersSnapshot(fields: seq<Field>): Snapshot {
    Snapshot("1", Digest(), [Orders(fields)])
  }

  lemma OneMetric(version: string, model: Model, name: string, r: ResolvedMetric)
    requires ResolveMetric(version, model, name) == Ok(r)
    ensures ResolveMetrics(version, model, [name]) == Ok([r])
  {
    hide ResolveMetric;
    assert [name][1..] == [];
    assert ResolveMetrics(version, model, []) == Ok([]);
    assert [r] + [] == [r];
  }

  lemma OrdersRender()
    ensures Render(ValidatedQuery(Orders([AMOUNT]), [], [ResolvedMetric(REVENUE, AMOUNT, None, None)], None, [], [], None, 100)).Ok?
  {
    var r := ResolvedMetric(REVENUE, AMOUNT, None, None);
    var v := ValidatedQuery(Orders([AMOUNT]), [], [r], None, [], [], None, 100);
    var st := RenderState([], {});
    assert [r][1..] == [];
    assert RenderMetrics(v.model, [], [r], false, st).Ok?;
    assert RenderFlat(v, [], st).Ok?;
    assert NamesOf(v.relationships) == [];
  }

  lemma OrdersAccepted(fields: seq<Field>)
    ensures var q, options := Query("1", "orders", [], ["revenue"], None, [], None), CompilerOptions(100, 10000);
      Validate(q, OrdersSnapshot(fields), options, ConstantHash) == ValidateFor(q, OrdersSnapshot(fields), Orders(fields), 100)
  {
    hide ValidateFor;
    var s := OrdersSnapshot(fields);
    assert RevisionHashHolds(s, ConstantHash);
    assert FindQueryable(s.models, "orders") == Some(Orders(fields));
  }

  lemma RevenueResolves()
    ensures ResolveMetrics("1", Orders([AMOUNT]), ["revenue"]) == Ok([ResolvedMetric(REVENUE, AMOUNT, None, None)])
    ensures ResolveMetrics("1", Orders([]), ["revenue"]) == Err(InvalidMetricField("revenue"))
  {
    var m, r := Orders([AMOUNT]), ResolvedMetric(REVENUE, AMOUNT, None, None);
    assert Lookup(m.metrics, MetricName, "revenue") == Some(REVENUE);
    assert Lookup(m.fields, FieldName, "amount") == Some(AMOUNT);
    assert ResolveMetric("1", m, "revenue") == Ok(r);
    OneMetric("1", m, "revenue", r);
    assert Lookup(Orders([]).metrics, MetricName, "revenue") == Some(REVENUE);
    assert ResolveMetric("1", Orders([]), "revenue") == Err(InvalidMetricField("revenue"));
  }

  lemma RevenueUsesNoRelationship()
    ensures RecordAll([], UsedFields([], [ResolvedMetric(REVENUE, AMOUNT, None, None)], None)) == []
  {
    var r := ResolvedMetric(REVENUE, AMOUNT, None, None);
    assert MetricFields([r]) == [AMOUNT] by {
      assert [r][1..] == [];
    }
    assert UsedFields([], [r], None) == [AMOUNT];
    assert [AMOUNT][1..] == [];
  }

  lemma ValidateOrders(fields: seq<Field>)
    requires fields == [AMOUNT] || fields == []
    ensures var q, options := Query("1", "orders", [], ["revenue"], None, [], None), CompilerOptions(100, 10000);
      Validate(q, OrdersSnapshot(fields), options, ConstantHash)
      == if fields == [] then Err(InvalidMetricField("revenue"))
         else Ok(ValidatedQuery(Orders(fields), [], [ResolvedMetric(REVENUE, AMOUNT, None, None)], None, [], [], None, 100))
  {
    hide Validate, ResolveMetrics, RecordAll, UsedFields;
    OrdersAccepted(fields);
    RevenueResolves();
    RevenueUsesNoRelationship();
  }

  lemma OrdersDiffable(fields: seq<Field>)
    requires |fields| <= 1
    ensures Diffable(OrdersSnapshot(fields))
  {
  }

  lemma OrdersModelCompatible()
    ensures CompatibleModel(Orders([AMOUNT]), Orders([]))
  {
    var x, y := Orders([AMOUNT]), Orders([]);
    assert Kept(AMOUNT, y.fields, FieldName, FieldVisible, FieldCompatibility);
    assert Lookup(y.metrics, MetricName, "revenue") == Some(REVENUE);
  }

  lemma OrdersChangeIsCompatible()
    ensures Diffable(OrdersSnapshot([AMOUNT])) && Diffable(OrdersSnapshot([]))
    ensures DiffOf(OrdersSnapshot([AMOUNT]), OrdersSnapshot([])).compatibility == Compatible
  {
    hide DiffOf, Diffable, CompatibleModel;
    var before, after := OrdersSnapshot([AMOUNT]), OrdersSnapshot([]);
    OrdersDiffable([AMOUNT]);
    OrdersDiffable([]);
    OrdersModelCompatible();
    assert Lookup(after.models, ModelName, "orders") == Some(Orders([]));
    assert CompatibleSnapshots(before, after);
    VerdictExact(before, after);
  }

  /** Dropping a hidden field is compatible, and the visible metric over it stops compiling. */
  lemma HiddenFieldRemovalBreaks()
    ensures var q, options := Query("1", "orders", [], ["revenue"], None, [], None), CompilerOptions(100, 10000);
            var before, after := OrdersSnapshot([AMOUNT]), OrdersSnapshot([]);
      && Diffable(before) && Diffable(after) && DiffOf(before, after).compatibility == Compatible
      && Compile(q, before, options, ConstantHash).Ok?
      && Compile(q, after, options, ConstantHash) == Err(InvalidMetricField("revenue"))
  {
    hide Validate, Render, DiffOf, Diffable, OrdersSnapshot;
    OrdersChangeIsCompatible();
    ValidateOrders([AMOUNT]);
    ValidateOrders([]);
    OrdersRender();
  }
}
