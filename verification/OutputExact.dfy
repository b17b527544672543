/**
 What comes with a compiled query: the columns of its result and its lineage, told by the query and its model alone.
 */
module OutputExact {
  import opened Prelude
  import opened Order
  import opened Semantic
  import opened Meaning
  import opened Compiler
  import opened PlanProofs
  import opened AnswerTheorem
  import opened Acceptance

  // ----- the output schema -----

  /** Dimensions, then metrics, each under its own name; a truncated dimension is a date. */
  ghost predicate SchemaIs(m: Model, q: Query, schema: seq<OutputColumn>) {
    && |schema| == |q.dimensions| + |q.metrics|
    && (forall i :: 0 <= i < |q.dimensions| ==>
          var f := FieldOf(m, q.dimensions[i].field);
          f.Some? && schema[i] == OutputColumn(q.dimensions[i].field, if q.dimensions[i].timeGrain.Some? then DateType else f.value.dataType))
    && (forall i :: 0 <= i < |q.metrics| ==>
          var x := MetricNamed(m, q.metrics[i]);
          x.Some? && schema[|q.dimensions| + i] == OutputColumn(q.metrics[i], x.value.dataType))
  }

  lemma {:induction false} DimensionColumnAt(ds: seq<ResolvedDimension>, i: nat)
    requires i < |ds|
    ensures |DimensionColumns(ds)| == |ds|
    ensures DimensionColumns(ds)[i] == OutputColumn(ds[i].field.semanticName, if ds[i].timeGrain.Some? then DateType else ds[i].field.dataType)
  {
    if |ds| > 1 {
      DimensionColumnAt(ds[1..], if i == 0 then 0 else i - 1);
    }
  }

  lemma {:induction false} MetricColumnAt(ms: seq<ResolvedMetric>, i: nat)
    requires i < |ms|
    ensures |MetricColumns(ms)| == |ms|
    ensures MetricColumns(ms)[i] == OutputColumn(ms[i].metric.semanticName, ms[i].metric.dataType)
  {
    if |ms| > 1 {
      MetricColumnAt(ms[1..], if i == 0 then 0 else i - 1);
    }
  }

  lemma DimensionAt(m: Model, qs: seq<Dimension>, ds: seq<ResolvedDimension>, i: nat)
    requires ResolveDimensions(m, qs) == Ok(ds) && i < |qs|
    ensures |DimensionColumns(ds)| == |ds|
    ensures FieldOf(m, qs[i].field).Some?
    ensures DimensionColumns(ds)[i] == OutputColumn(qs[i].field, if qs[i].timeGrain.Some? then DateType else FieldOf(m, qs[i].field).value.dataType)
  {
    hide ResolveDimensions, ResolveDimension, DimensionColumns;
    DimensionColumnAt(ds, i);
    assert ResolveDimension(m, qs[i]) == Ok(ds[i]);
    DimensionExactly(m, qs[i]);
  }

  lemma MetricAt(version: string, m: Model, names: seq<string>, ms: seq<ResolvedMetric>, i: nat)
    requires ResolveMetrics(version, m, names) == Ok(ms) && i < |names|
    ensures |MetricColumns(ms)| == |ms| && MetricNamed(m, names[i]).Some?
    ensures MetricColumns(ms)[i] == OutputColumn(names[i], MetricNamed(m, names[i]).value.dataType)
  {
    hide ResolveMetrics, ResolveMetric, MetricColumns;
    MetricColumnAt(ms, i);
    assert ResolveMetric(version, m, names[i]) == Ok(ms[i]);
    MetricExactly(version, m, names[i]);
  }

  lemma SchemaExactly(q: Query, s: Snapshot, v: ValidatedQuery)
    requires Accepted(q, s, v)
    ensures SchemaIs(v.model, q, DimensionColumns(v.dimensions) + MetricColumns(v.metrics))
  {
    hide Accepted, ResolveDimensions, ResolveMetrics, DimensionColumns, MetricColumns, FieldOf, MetricNamed;
    AcceptedParts(q, s, v);
    AcceptedMetrics(q, s, v);
    ColumnCounts(v);
    var a, b := DimensionColumns(v.dimensions), MetricColumns(v.metrics);
    forall i | 0 <= i < |q.dimensions|
      ensures var f := FieldOf(v.model, q.dimensions[i].field);
        f.Some? && a[i] == OutputColumn(q.dimensions[i].field, if q.dimensions[i].timeGrain.Some? then DateType else f.value.dataType)
    {
      DimensionAt(v.model, q.dimensions, v.dimensions, i);
    }
    forall i | 0 <= i < |q.metrics|
      ensures var x := MetricNamed(v.model, q.metrics[i]);
        x.Some? && (a + b)[|q.dimensions| + i] == OutputColumn(q.metrics[i], x.value.dataType)
    {
      MetricAt(s.schemaVersion, v.model, q.metrics, v.metrics, i);
      assert (a + b)[|a| + i] == b[i];
    }
  }

  lemma ColumnCounts(v: ValidatedQuery)
    ensures |DimensionColumns(v.dimensions)| == |v.dimensions| && |MetricColumns(v.metrics)| == |v.metrics|
  {
    if v.dimensions != [] {
      DimensionColumnAt(v.dimensions, 0);
    }
    if v.metrics != [] {
      MetricColumnAt(v.metrics, 0);
    }
  }

  // ----- names in the lineage -----

  ghost predicate Ordered(list: seq<string>) {
    NoDuplicates(list) && Sorted(list, NameKey)
  }

  ghost predicate Joins(m: Model, name: string, target: string) {
    var rel := Lookup(m.relationships, RelationshipName, name);
    rel.Some? && rel.value.targetModel == target
  }

  /** The query's model, or one it joins. */
  ghost predicate ModelRead(m: Model, q: Query, name: string) {
    name == m.semanticName || exists r :: r in UsedRelationships(m, q) && Joins(m, r, name)
  }

  ghost predicate Targeted(rels: seq<Relationship>, name: string) {
    exists i :: 0 <= i < |rels| && rels[i].targetModel == name
  }

  lemma TargetedSplit(rels: seq<Relationship>, name: string)
    requires rels != []
    ensures Targeted(rels, name) <==> rels[0].targetModel == name || Targeted(rels[1..], name)
  {
    if i :| 0 < i < |rels| && rels[i].targetModel == name {
      assert rels[1..][i - 1] == rels[i];
    }
    if i :| 0 <= i < |rels[1..]| && rels[1..][i].targetModel == name {
      assert rels[i + 1] == rels[1..][i];
    }
  }

  lemma {:induction false} ModelLineageIs(names: seq<string>, rels: seq<Relationship>, name: string)
    requires Ordered(names)
    ensures Ordered(ModelLineage(names, rels))
    ensures name in ModelLineage(names, rels) <==> name in names || Targeted(rels, name)
    decreases |rels|
  {
    if rels != [] {
      AddNameKeepsOrder(names, rels[0].targetModel);
      ModelLineageIs(AddName(names, rels[0].targetModel), rels[1..], name);
      TargetedSplit(rels, name);
    }
  }

  lemma RelationshipAt(q: Query, s: Snapshot, v: ValidatedQuery, i: nat)
    requires Accepted(q, s, v) && i < |v.relationships|
    ensures i < |Names(v)| == |v.relationships| && Names(v)[i] in UsedRelationships(v.model, q)
    ensures Lookup(v.model.relationships, RelationshipName, Names(v)[i]) == Some(v.relationships[i])
  {
    hide Accepted, ResolveRelationships, ResolveRelationship, UsedRelationships, RelationshipServed, RelationshipError;
    UsedNames(q, s, v);
    assert Names(v)[i] in Names(v);
    assert ResolveRelationship(s, v.model, Names(v)[i]) == Ok(v.relationships[i]);
    RelationshipExactly(s, v.model, Names(v)[i]);
  }

  lemma ModelsExactly(q: Query, s: Snapshot, v: ValidatedQuery, name: string)
    requires Accepted(q, s, v)
    ensures var models := ModelLineage([v.model.semanticName], v.relationships);
      Ordered(models) && (name in models <==> ModelRead(v.model, q, name))
  {
    hide Accepted, ModelLineage, UsedRelationships, Names;
    UsedNames(q, s, v);
    ModelLineageIs([v.model.semanticName], v.relationships, name);
    if i :| 0 <= i < |v.relationships| && v.relationships[i].targetModel == name {
      RelationshipAt(q, s, v, i);
      assert Joins(v.model, Names(v)[i], name);
    }
    if r :| r in UsedRelationships(v.model, q) && Joins(v.model, r, name) {
      var i :| 0 <= i < |Names(v)| && Names(v)[i] == r;
      UsedCount(v);
      RelationshipAt(q, s, v, i);
    }
  }

  lemma UsedCount(v: ValidatedQuery)
    ensures |Names(v)| == |v.relationships|
  {
  }

  lemma {:induction false} MetricNamesAre(version: string, m: Model, names: seq<string>, ms: seq<ResolvedMetric>)
    requires ResolveMetrics(version, m, names) == Ok(ms)
    ensures MetricNames(ms) == names
  {
    hide ResolveMetric;
    if names != [] {
      MetricExactly(version, m, names[0]);
      MetricNamesAre(version, m, names[1..], ms[1..]);
    }
  }

  // ----- anchors in the lineage -----

  ghost function AnchorOf(m: Model, name: string): Option<string> {
    match MetricNamed(m, name)
    case None => None
    case Some(x) => x.aggregationAnchor
  }

  /** Positions of the metrics with an anchor, in increasing order. */
  ghost predicate AnchoredAt(m: Model, names: seq<string>, at: seq<nat>) {
    && (forall j, k :: 0 <= j < k < |at| ==> at[j] < at[k])
    && (forall i: nat :: i in at <==> i < |names| && AnchorOf(m, names[i]).Some?)
  }

  /** The pair holds the metric at a position and its anchor. */
  ghost predicate PairedAt(m: Model, names: seq<string>, i: nat, anchor: (string, string)) {
    i < |names| && anchor.0 == names[i] && AnchorOf(m, names[i]) == Some(anchor.1)
  }

  ghost predicate AnchorsAre(m: Model, names: seq<string>, at: seq<nat>, anchors: seq<(string, string)>) {
    AnchoredAt(m, names, at) && |anchors| == |at| && forall j :: 0 <= j < |at| ==> PairedAt(m, names, at[j], anchors[j])
  }

  ghost function Shift(at: seq<nat>): (r: seq<nat>)
    ensures |r| == |at| && forall j :: 0 <= j < |at| ==> r[j] == at[j] + 1
  {
    seq(|at|, j requires 0 <= j < |at| => at[j] + 1)
  }

  lemma ShiftMember(at: seq<nat>, i: nat)
    ensures i in Shift(at) <==> i > 0 && i - 1 in at
  {
    if i > 0 && i - 1 in at {
      var j :| 0 <= j < |at| && at[j] == i - 1;
      assert Shift(at)[j] == i;
    }
  }

  lemma AnchoredNext(m: Model, names: seq<string>, at: seq<nat>) returns (all: seq<nat>)
    requires names != [] && AnchoredAt(m, names[1..], at)
    ensures all == (if AnchorOf(m, names[0]).Some? then [0] else []) + Shift(at)
    ensures AnchoredAt(m, names, all)
  {
    hide AnchorOf, Shift;
    all := (if AnchorOf(m, names[0]).Some? then [0] else []) + Shift(at);
    forall i: nat
      ensures i in all <==> i < |names| && AnchorOf(m, names[i]).Some?
    {
      ShiftMember(at, i);
      if 0 < i < |names| {
        assert names[1..][i - 1] == names[i];
      }
    }
  }

  lemma PairedLater(m: Model, names: seq<string>, i: nat, anchor: (string, string))
    requires names != [] && PairedAt(m, names[1..], i, anchor)
    ensures PairedAt(m, names, i + 1, anchor)
  {
  }

  /** The list for a first metric with or without an anchor. */
  lemma AnchorsNext(m: Model, names: seq<string>, rest: seq<nat>, own: seq<(string, string)>, later: seq<(string, string)>) returns (at: seq<nat>)
    requires names != [] && AnchorsAre(m, names[1..], rest, later)
    requires if AnchorOf(m, names[0]).Some? then own == [(names[0], AnchorOf(m, names[0]).value)] else own == []
    ensures AnchorsAre(m, names, at, own + later)
  {
    hide AnchorOf, Shift, AnchoredAt;
    at := AnchoredNext(m, names, rest);
    assert own != [] ==> PairedAt(m, names, 0, own[0]);
    forall j | 0 <= j < |rest|
      ensures PairedAt(m, names, rest[j] + 1, later[j])
    {
      PairedLater(m, names, rest[j], later[j]);
    }
    hide PairedAt;
    var anchors := own + later;
    forall j | 0 <= j < |at|
      ensures PairedAt(m, names, at[j], anchors[j])
    {
      if j >= |own| {
        assert at[j] == rest[j - |own|] + 1 && anchors[j] == later[j - |own|];
      }
    }
  }

  lemma {:induction false} AnchorLineageIs(version: string, m: Model, names: seq<string>, ms: seq<ResolvedMetric>) returns (at: seq<nat>)
    requires ResolveMetrics(version, m, names) == Ok(ms)
    ensures AnchorsAre(m, names, at, AnchorLineage(ms))
  {
    hide ResolveMetric;
    at := [];
    if names != [] {
      MetricExactly(version, m, names[0]);
      var own := if ms[0].anchor.Some? then [(ms[0].metric.semanticName, ms[0].anchor.value.semanticName)] else [];
      assert if AnchorOf(m, names[0]).Some? then own == [(names[0], AnchorOf(m, names[0]).value)] else own == [];
      hide AnchorOf, AnchorsAre;
      var rest := AnchorLineageIs(version, m, names[1..], ms[1..]);
      at := AnchorsNext(m, names, rest, own, AnchorLineage(ms[1..]));
    }
  }

  // ----- columns in the lineage -----

  ghost function Path(r: Relation, column: string): string {
    r.schema + "." + r.relation + "." + column
  }

  /** Column of a field's own relation, or of the relation its relationship leads to. */
  ghost predicate StandsFor(m: Model, f: Field, path: string) {
    match f.relationship
    case None => path == Path(m.source, f.column)
    case Some(name) =>
      var rel := Lookup(m.relationships, RelationshipName, name);
      rel.Some? && path == Path(rel.value.target, f.column)
  }

  ghost predicate JoinsOn(m: Model, name: string, path: string) {
    var rel := Lookup(m.relationships, RelationshipName, name);
    rel.Some? && (path == Path(m.source, rel.value.fromColumn) || path == Path(rel.value.target, rel.value.toColumn))
  }

  ghost predicate SomeStandsFor(m: Model, fs: seq<Field>, path: string) {
    exists f :: f in fs && StandsFor(m, f, path)
  }

  lemma StandsForAny(m: Model, a: seq<Field>, b: seq<Field>, path: string)
    ensures SomeStandsFor(m, a + b, path) <==> SomeStandsFor(m, a, path) || SomeStandsFor(m, b, path)
  {
    assert forall f :: f in a + b <==> f in a || f in b;
  }

  lemma StandsForOne(m: Model, f: Field, path: string)
    ensures SomeStandsFor(m, [f], path) <==> StandsFor(m, f, path)
  {
    assert f in [f];
  }

  lemma FieldColumn(m: Model, names: seq<string>, f: Field, st: RenderState, path: string)
    requires RenderField(m, names, f, st).Ok?
    ensures path in RenderField(m, names, f, st).value.state.columns <==> path in st.columns || StandsFor(m, f, path)
  {
  }

  lemma PushKeepsColumns(st: RenderState, t: DataType, l: Literal)
    ensures PushParameter(st, t, l).state.columns == st.columns
  {
  }

  lemma DimensionColumn(m: Model, names: seq<string>, d: ResolvedDimension, st: RenderState, path: string)
    requires RenderDimension(m, names, d, st).Ok?
    ensures path in RenderDimension(m, names, d, st).value.state.columns <==> path in st.columns || StandsFor(m, d.field, path)
  {
    hide RenderField, PushParameter, StandsFor;
    FieldColumn(m, names, d.field, st, path);
    if m.timezone.Some? {
      PushKeepsColumns(RenderField(m, names, d.field, st).value.state, TextType, TextLiteral(m.timezone.value));
    }
  }

  lemma {:induction false} DimensionsColumn(m: Model, names: seq<string>, ds: seq<ResolvedDimension>, st: RenderState, path: string)
    requires RenderDimensions(m, names, ds, st).Ok?
    ensures path in RenderDimensions(m, names, ds, st).value.state.columns <==> path in st.columns || SomeStandsFor(m, DimensionFields(ds), path)
    decreases |ds|
  {
    hide RenderDimension, StandsFor;
    if ds != [] {
      hide SomeStandsFor;
      DimensionColumn(m, names, ds[0], st, path);
      DimensionsColumn(m, names, ds[1..], RenderDimension(m, names, ds[0], st).value.state, path);
      StandsForOne(m, ds[0].field, path);
      StandsForAny(m, [ds[0].field], DimensionFields(ds[1..]), path);
    }
  }

  ghost function PartFields(x: ResolvedMetric): seq<Field> {
    [x.field] + (if x.filter.Some? then [x.filter.value.0] else [])
  }

  lemma PartsColumn(m: Model, names: seq<string>, x: ResolvedMetric, st: RenderState, path: string)
    requires RenderMetricParts(m, names, x, st).Ok?
    ensures path in RenderMetricParts(m, names, x, st).value.state.columns <==> path in st.columns || SomeStandsFor(m, PartFields(x), path)
  {
    hide RenderField, PushParameter, StandsFor, SomeStandsFor;
    FieldColumn(m, names, x.field, st, path);
    StandsForOne(m, x.field, path);
    if x.filter.Some? {
      var f := RenderField(m, names, x.field, st).value;
      var g := RenderField(m, names, x.filter.value.0, f.state).value;
      FieldColumn(m, names, x.filter.value.0, f.state, path);
      PushKeepsColumns(g.state, x.filter.value.0.dataType, x.filter.value.1);
      StandsForOne(m, x.filter.value.0, path);
      StandsForAny(m, [x.field], [x.filter.value.0], path);
    } else {
      assert PartFields(x) == [x.field];
    }
  }

  lemma {:induction false} MetricsColumn(m: Model, names: seq<string>, xs: seq<ResolvedMetric>, anchored: bool, st: RenderState, path: string)
    requires RenderMetrics(m, names, xs, anchored, st).Ok?
    ensures path in RenderMetrics(m, names, xs, anchored, st).value.state.columns <==> path in st.columns || SomeStandsFor(m, MetricFields(xs), path)
    decreases |xs|
  {
    hide RenderMetricParts, StandsFor;
    if xs != [] {
      hide SomeStandsFor;
      PartsColumn(m, names, xs[0], st, path);
      var r := if anchored then RenderMetricInput(m, names, xs[0], st).value.state else RenderMetric(m, names, xs[0], st).value.state;
      MetricsColumn(m, names, xs[1..], anchored, r, path);
      StandsForAny(m, PartFields(xs[0]), MetricFields(xs[1..]), path);
    }
  }

  lemma {:induction false} OptionsKeepColumns(t: DataType, values: seq<Literal>, st: RenderState)
    ensures RenderOptions(t, values, st).state.columns == st.columns
    decreases |values|
  {
    if values != [] {
      OptionsKeepColumns(t, values[1..], PushParameter(st, t, values[0]).state);
    }
  }

  lemma LeafColumn(m: Model, names: seq<string>, f: ResolvedFilter, st: RenderState, path: string)
    requires !f.RAnd? && !f.ROr? && !f.RNot? && RenderFilter(m, names, f, st).Ok?
    ensures path in RenderFilter(m, names, f, st).value.state.columns <==> path in st.columns || SomeStandsFor(m, FilterFields(f), path)
  {
    hide RenderField, StandsFor, SomeStandsFor, RenderOptions;
    FieldColumn(m, names, f.field, st, path);
    StandsForOne(m, f.field, path);
    if f.RIn? {
      OptionsKeepColumns(f.field.dataType, f.values, RenderField(m, names, f.field, st).value.state);
    }
  }

  lemma {:induction false} FilterColumn(m: Model, names: seq<string>, f: ResolvedFilter, st: RenderState, path: string)
    requires RenderFilter(m, names, f, st).Ok?
    ensures path in RenderFilter(m, names, f, st).value.state.columns <==> path in st.columns || SomeStandsFor(m, FilterFields(f), path)
    decreases f
  {
    hide StandsFor, SomeStandsFor;
    match f
    case RAnd(args) => FiltersColumn(m, names, args, st, path);
    case ROr(args) => FiltersColumn(m, names, args, st, path);
    case RNot(arg) => FilterColumn(m, names, arg, st, path);
    case _ => LeafColumn(m, names, f, st, path);
  }

  lemma {:induction false} FiltersColumn(m: Model, names: seq<string>, fs: seq<ResolvedFilter>, st: RenderState, path: string)
    requires RenderFilters(m, names, fs, st).Ok?
    ensures path in RenderFilters(m, names, fs, st).value.state.columns <==> path in st.columns || SomeStandsFor(m, AllFilterFields(fs), path)
    decreases fs
  {
    hide StandsFor;
    if fs != [] {
      hide SomeStandsFor;
      FilterColumn(m, names, fs[0], st, path);
      FiltersColumn(m, names, fs[1..], RenderFilter(m, names, fs[0], st).value.state, path);
      StandsForAny(m, FilterFields(fs[0]), AllFilterFields(fs[1..]), path);
    }
  }

  ghost predicate RelationshipColumn(m: Model, rel: Relationship, path: string) {
    path == Path(m.source, rel.fromColumn) || path == Path(rel.target, rel.toColumn)
  }

  lemma {:induction false} JoinColumnsAre(m: Model, rels: seq<Relationship>, path: string)
    ensures path in JoinColumns(m, rels) <==> exists i :: 0 <= i < |rels| && RelationshipColumn(m, rels[i], path)
  {
    if rels != [] {
      JoinColumnsAre(m, rels[1..], path);
      if i :| 0 < i < |rels| && RelationshipColumn(m, rels[i], path) {
        assert rels[1..][i - 1] == rels[i];
      }
      if i :| 0 <= i < |rels[1..]| && RelationshipColumn(m, rels[1..][i], path) {
        assert rels[i + 1] == rels[1..][i];
      }
      assert path in {SourceColumn(m.source, rels[0].fromColumn), SourceColumn(rels[0].target, rels[0].toColumn)} <==> RelationshipColumn(m, rels[0], path);
    }
  }

  ghost function AnchorFields(v: ValidatedQuery): seq<Field> {
    if v.anchor.Some? then [v.anchor.value] else []
  }

  /** The columns of a plan: those of the fields it reads and those it joins on. */
  lemma PlanColumns(v: ValidatedQuery, path: string)
    requires RenderPlan(v).Ok?
    ensures path in RenderPlan(v).value.state.columns <==>
      (SomeStandsFor(v.model, UsedFields(v.dimensions, v.metrics, v.filter), path) || SomeStandsFor(v.model, AnchorFields(v), path)
       || path in JoinColumns(v.model, v.relationships))
  {
    hide RenderField, RenderDimensions, RenderMetrics, RenderFilter, StandsFor, NamesOf, JoinColumns, JoinsOf, OuterKeys, OuterMetrics, FilterFields, MetricFields, DimensionFields;
    var names, st, m := NamesOf(v.relationships), RenderState([], {}), v.model;
    var ds := RenderDimensions(m, names, v.dimensions, st).value;
    DimensionsColumn(m, names, v.dimensions, st, path);
    var before := ds.state;
    if v.anchor.Some? {
      FieldColumn(m, names, v.anchor.value, before, path);
      StandsForOne(m, v.anchor.value, path);
      before := RenderField(m, names, v.anchor.value, before).value.state;
    }
    hide SomeStandsFor;
    MetricsColumn(m, names, v.metrics, v.anchor.Some?, before, path);
    var ms := RenderMetrics(m, names, v.metrics, v.anchor.Some?, before).value;
    var joined := ms.state.(columns := ms.state.columns + JoinColumns(m, v.relationships));
    var a, b := DimensionFields(v.dimensions), MetricFields(v.metrics);
    var c := if v.filter.Some? then FilterFields(v.filter.value) else [];
    StandsForAny(m, a, b, path);
    StandsForAny(m, a + b, c, path);
    if v.filter.Some? {
      FilterColumn(m, names, v.filter.value, joined, path);
    } else {
      NothingStands(m, path);
    }
  }

  lemma NothingStands(m: Model, path: string)
    ensures !SomeStandsFor(m, [], path)
  {
  }

  // ----- the fields a query reads -----

  ghost predicate MetricReads(m: Model, metric: string, name: string) {
    var x := MetricNamed(m, metric);
    x.Some? && (x.value.field == name || (x.value.filter.Some? && x.value.filter.value.field == name))
  }

  /** Some relationship to many rows is used. */
  ghost predicate Fans(m: Model, q: Query) {
    exists n :: n in UsedRelationships(m, q) && FansOut(m, n)
  }

  /** A dimension, the field or filter of a metric, a tested field, or the anchor of a fan-out. */
  ghost predicate Mentions(m: Model, q: Query, name: string) {
    || (exists d :: d in q.dimensions && d.field == name)
    || (exists x :: x in q.metrics && MetricReads(m, x, name))
    || (q.filters.Some? && exists l :: l in Leaves(q.filters.value) && LeafField(l) == name)
    || (Fans(m, q) && q.metrics != [] && AnchorOf(m, q.metrics[0]) == Some(name))
  }

  ghost predicate Reads(m: Model, name: string, path: string) {
    FieldOf(m, name).Some? && StandsFor(m, FieldOf(m, name).value, path)
  }

  /** Where a statement looks: the columns of the fields it reads, and both sides of its joins. */
  ghost predicate SourceOf(m: Model, q: Query, path: string) {
    || (exists name :: Mentions(m, q, name) && Reads(m, name, path))
    || (exists n :: n in UsedRelationships(m, q) && JoinsOn(m, n, path))
  }

  lemma DimensionFieldsRead(m: Model, qs: seq<Dimension>, ds: seq<ResolvedDimension>, path: string)
    requires ResolveDimensions(m, qs) == Ok(ds)
    ensures SomeStandsFor(m, DimensionFields(ds), path) <==> exists d :: d in qs && Reads(m, d.field, path)
  {
    hide ResolveDimensions, ResolveDimension, StandsFor, DimensionFields;
    forall i | 0 <= i < |qs|
      ensures FieldOf(m, qs[i].field) == Some(DimensionFields(ds)[i])
    {
      assert ResolveDimension(m, qs[i]) == Ok(ds[i]);
      DimensionExactly(m, qs[i]);
    }
    if f :| f in DimensionFields(ds) && StandsFor(m, f, path) {
      var i :| 0 <= i < |ds| && DimensionFields(ds)[i] == f;
      assert qs[i] in qs && Reads(m, qs[i].field, path);
    }
    if d :| d in qs && Reads(m, d.field, path) {
      var i :| 0 <= i < |qs| && qs[i] == d;
      assert DimensionFields(ds)[i] in DimensionFields(ds);
    }
  }

  ghost predicate MetricReadsPath(m: Model, metric: string, path: string) {
    exists name :: MetricReads(m, metric, name) && Reads(m, name, path)
  }

  lemma MetricFieldsRead(version: string, m: Model, name: string, x: ResolvedMetric, path: string)
    requires ResolveMetric(version, m, name) == Ok(x)
    ensures SomeStandsFor(m, PartFields(x), path) <==> MetricReadsPath(m, name, path)
  {
    hide ResolveMetric, StandsFor;
    MetricExactly(version, m, name);
    assert x.field in PartFields(x) && (x.filter.Some? ==> x.filter.value.0 in PartFields(x));
    assert MetricReads(m, name, x.metric.field) && (x.metric.filter.Some? ==> MetricReads(m, name, x.metric.filter.value.field));
    assert Reads(m, x.metric.field, path) <==> StandsFor(m, x.field, path);
    assert x.metric.filter.Some? ==> (Reads(m, x.metric.filter.value.field, path) <==> StandsFor(m, x.filter.value.0, path));
  }

  ghost predicate SomeMetricReads(m: Model, names: seq<string>, path: string) {
    exists n :: n in names && MetricReadsPath(m, n, path)
  }

  lemma SomeMetricSplit(m: Model, names: seq<string>, path: string)
    requires names != []
    ensures SomeMetricReads(m, names, path) <==> MetricReadsPath(m, names[0], path) || SomeMetricReads(m, names[1..], path)
  {
    hide MetricReadsPath;
    assert names == [names[0]] + names[1..];
  }

  lemma {:induction false} MetricsFieldsRead(version: string, m: Model, names: seq<string>, ms: seq<ResolvedMetric>, path: string)
    requires ResolveMetrics(version, m, names) == Ok(ms)
    ensures SomeStandsFor(m, MetricFields(ms), path) <==> SomeMetricReads(m, names, path)
  {
    hide ResolveMetric, StandsFor, MetricReadsPath;
    if names != [] {
      hide SomeStandsFor, SomeMetricReads;
      SomeMetricSplit(m, names, path);
      MetricFieldsRead(version, m, names[0], ms[0], path);
      MetricsFieldsRead(version, m, names[1..], ms[1..], path);
      StandsForAny(m, PartFields(ms[0]), MetricFields(ms[1..]), path);
    }
  }

  ghost predicate LeafReads(m: Model, leaves: seq<Filter>, path: string) {
    exists l :: l in leaves && Reads(m, LeafField(l), path)
  }

  lemma LeafReadsAny(m: Model, a: seq<Filter>, b: seq<Filter>, path: string)
    ensures LeafReads(m, a + b, path) <==> LeafReads(m, a, path) || LeafReads(m, b, path)
  {
    assert forall l :: l in a + b <==> l in a || l in b;
  }

  lemma LeafFieldRead(m: Model, f: Filter, rf: ResolvedFilter, path: string)
    requires IsLeaf(f) && ResolveFilter(m, f) == Ok(rf)
    ensures SomeStandsFor(m, FilterFields(rf), path) <==> LeafReads(m, Leaves(f), path)
  {
    hide StandsFor;
    StandsForOne(m, rf.field, path);
    assert FieldOf(m, LeafField(f)) == Some(rf.field);
    assert f in Leaves(f);
  }

  lemma {:induction false} FilterFieldsRead(m: Model, f: Filter, rf: ResolvedFilter, path: string)
    requires ResolveFilter(m, f) == Ok(rf)
    ensures SomeStandsFor(m, FilterFields(rf), path) <==> LeafReads(m, Leaves(f), path)
    decreases f
  {
    hide SomeStandsFor, LeafReads;
    match f
    case And(args) => FiltersFieldsRead(m, args, rf.args, path);
    case Or(args) => FiltersFieldsRead(m, args, rf.args, path);
    case Not(arg) => FilterFieldsRead(m, arg, rf.arg, path);
    case _ => LeafFieldRead(m, f, rf, path);
  }

  lemma {:induction false} FiltersFieldsRead(m: Model, fs: seq<Filter>, rfs: seq<ResolvedFilter>, path: string)
    requires ResolveFilters(m, fs) == Ok(rfs)
    ensures SomeStandsFor(m, AllFilterFields(rfs), path) <==> LeafReads(m, AllLeaves(fs), path)
    decreases fs
  {
    hide StandsFor, Reads;
    if fs != [] {
      hide SomeStandsFor, LeafReads;
      FilterFieldsRead(m, fs[0], rfs[0], path);
      FiltersFieldsRead(m, fs[1..], rfs[1..], path);
      StandsForAny(m, FilterFields(rfs[0]), AllFilterFields(rfs[1..]), path);
      LeafReadsAny(m, Leaves(fs[0]), AllLeaves(fs[1..]), path);
    }
  }

  lemma FansExactly(q: Query, s: Snapshot, v: ValidatedQuery)
    requires Accepted(q, s, v)
    ensures v.anchor.Some? <==> Fans(v.model, q)
    ensures v.anchor.Some? ==> q.metrics != []
  {
    hide ResolveDimensions, ResolveMetrics, ResolveOptionalFilter, ResolveRelationships, RecordAll, UsedFields, FansOut, UsedRelationships;
    UsedNames(q, s, v);
    FanoutExactly(s, v.model, Names(v), v.relationships);
  }

  /** The anchor of the plan is the anchor of the first metric. */
  lemma AnchorFieldRead(q: Query, s: Snapshot, v: ValidatedQuery)
    requires Accepted(q, s, v) && v.anchor.Some?
    ensures q.metrics != [] && AnchorOf(v.model, q.metrics[0]).Some? && FieldOf(v.model, AnchorOf(v.model, q.metrics[0]).value) == v.anchor
  {
    hide ResolveDimensions, ResolveMetrics, ResolveMetric, ResolveOptionalFilter, ResolveRelationships, RecordAll, UsedFields, Fanout;
    var x :| x in v.metrics && x.anchor == v.anchor;
    var i :| 0 <= i < |v.metrics| && v.metrics[i] == x;
    assert v.metrics[0] in v.metrics;
    MetricExactly(s.schemaVersion, v.model, q.metrics[i]);
    MetricExactly(s.schemaVersion, v.model, q.metrics[0]);
  }

  lemma AnchorColumnRead(q: Query, s: Snapshot, v: ValidatedQuery, path: string)
    requires Accepted(q, s, v)
    ensures SomeStandsFor(v.model, AnchorFields(v), path)
      <==> Fans(v.model, q) && q.metrics != [] && AnchorOf(v.model, q.metrics[0]).Some? && Reads(v.model, AnchorOf(v.model, q.metrics[0]).value, path)
  {
    hide Accepted, StandsFor, Fans, AnchorOf;
    FansExactly(q, s, v);
    if v.anchor.Some? {
      AnchorFieldRead(q, s, v);
      StandsForOne(v.model, v.anchor.value, path);
    } else {
      NothingStands(v.model, path);
    }
  }

  lemma JoinColumnsRead(q: Query, s: Snapshot, v: ValidatedQuery, path: string)
    requires Accepted(q, s, v)
    ensures path in JoinColumns(v.model, v.relationships) <==> exists n :: n in UsedRelationships(v.model, q) && JoinsOn(v.model, n, path)
  {
    hide Accepted, UsedRelationships, Names, JoinColumns;
    UsedNames(q, s, v);
    UsedCount(v);
    JoinColumnsAre(v.model, v.relationships, path);
    if i :| 0 <= i < |v.relationships| && RelationshipColumn(v.model, v.relationships[i], path) {
      RelationshipAt(q, s, v, i);
      assert JoinsOn(v.model, Names(v)[i], path);
    }
    if n :| n in UsedRelationships(v.model, q) && JoinsOn(v.model, n, path) {
      var i :| 0 <= i < |Names(v)| && Names(v)[i] == n;
      RelationshipAt(q, s, v, i);
      assert RelationshipColumn(v.model, v.relationships[i], path);
    }
  }

  /** The four ways to mention a field, seen from one column. */
  lemma MentionsSplit(m: Model, q: Query, path: string)
    ensures (exists name :: Mentions(m, q, name) && Reads(m, name, path)) <==>
      (|| (exists d :: d in q.dimensions && Reads(m, d.field, path))
       || SomeMetricReads(m, q.metrics, path)
       || (q.filters.Some? && LeafReads(m, Leaves(q.filters.value), path))
       || (Fans(m, q) && q.metrics != [] && AnchorOf(m, q.metrics[0]).Some? && Reads(m, AnchorOf(m, q.metrics[0]).value, path)))
  {
    hide Reads, MetricReads, AnchorOf, Fans, Leaves;
    if d :| d in q.dimensions && Reads(m, d.field, path) {
      assert Mentions(m, q, d.field);
    }
    if x :| x in q.metrics && MetricReadsPath(m, x, path) {
      var name :| MetricReads(m, x, name) && Reads(m, name, path);
      assert Mentions(m, q, name);
    }
    if q.filters.Some? && LeafReads(m, Leaves(q.filters.value), path) {
      var l :| l in Leaves(q.filters.value) && Reads(m, LeafField(l), path);
      assert Mentions(m, q, LeafField(l));
    }
    if Fans(m, q) && q.metrics != [] && AnchorOf(m, q.metrics[0]).Some? && Reads(m, AnchorOf(m, q.metrics[0]).value, path) {
      assert Mentions(m, q, AnchorOf(m, q.metrics[0]).value);
    }
  }

  lemma ColumnsExactly(q: Query, s: Snapshot, v: ValidatedQuery, path: string)
    requires Accepted(q, s, v) && RenderPlan(v).Ok?
    ensures path in RenderPlan(v).value.state.columns <==> SourceOf(v.model, q, path)
  {
    hide ResolveDimensions, ResolveMetrics, ResolveFilter, ResolveRelationships, ResolveAnchor, RecordAll, DimensionFields, MetricFields, FilterFields, SomeStandsFor, Mentions, Reads, Fans, AnchorOf, AnchorFields, JoinColumns, JoinsOn, LeafReads, SomeMetricReads, RenderPlan, UsedRelationships;
    PlanColumns(v, path);
    var a, b := DimensionFields(v.dimensions), MetricFields(v.metrics);
    var c := if v.filter.Some? then FilterFields(v.filter.value) else [];
    StandsForAny(v.model, a, b, path);
    StandsForAny(v.model, a + b, c, path);
    NothingStands(v.model, path);
    DimensionFieldsRead(v.model, q.dimensions, v.dimensions, path);
    MetricsFieldsRead(s.schemaVersion, v.model, q.metrics, v.metrics, path);
    if q.filters.Some? {
      FilterFieldsRead(v.model, q.filters.value, v.filter.value, path);
    }
    AnchorColumnRead(q, s, v, path);
    JoinColumnsRead(q, s, v, path);
    MentionsSplit(v.model, q, path);
  }

  // ----- all of it -----

  /** What a statement of the query draws on. */
  ghost predicate LineageIs(m: Model, q: Query, l: Lineage) {
    && l.metrics == q.metrics
    && (exists at :: AnchorsAre(m, q.metrics, at, l.anchors))
    && Ordered(l.relationships) && (forall n :: n in l.relationships <==> n in UsedRelationships(m, q))
    && Ordered(l.models) && (forall n :: n in l.models <==> ModelRead(m, q, n))
    && (forall path :: path in l.sourceColumns <==> SourceOf(m, q, path))
  }

  lemma LineageExactly(q: Query, s: Snapshot, v: ValidatedQuery)
    requires Accepted(q, s, v) && RenderPlan(v).Ok?
    ensures LineageIs(v.model, q, LineageOf(v, RenderPlan(v).value.state.columns))
  {
    hide Accepted, RenderPlan, ModelLineage, MetricNames, AnchorLineage, ModelRead, SourceOf, AnchorsAre, UsedRelationships;
    UsedNames(q, s, v);
    AcceptedMetrics(q, s, v);
    MetricNamesAre(s.schemaVersion, v.model, q.metrics, v.metrics);
    var at := AnchorLineageIs(s.schemaVersion, v.model, q.metrics, v.metrics);
    var models := ModelLineage([v.model.semanticName], v.relationships);
    ModelsExactly(q, s, v, "");
    forall n
      ensures Ordered(models) && (n in models <==> ModelRead(v.model, q, n))
    {
      ModelsExactly(q, s, v, n);
    }
    forall path
      ensures path in RenderPlan(v).value.state.columns <==> SourceOf(v.model, q, path)
    {
      ColumnsExactly(q, s, v, path);
    }
  }

  lemma AcceptedMetrics(q: Query, s: Snapshot, v: ValidatedQuery)
    requires Accepted(q, s, v)
    ensures ResolveMetrics(s.schemaVersion, v.model, q.metrics) == Ok(v.metrics)
  {
  }

  /** The schema and the lineage of every compiled query. */
  lemma CompiledOutputs(q: Query, s: Snapshot, options: CompilerOptions, hash: Snapshot -> string)
    requires Compile(q, s, options, hash).Ok?
    ensures var found := FindQueryable(s.models, q.model); var c := Compile(q, s, options, hash).value;
      found.Some? && SchemaIs(found.value, q, c.outputSchema) && LineageIs(found.value, q, c.lineage)
  {
    hide Validate, RenderPlan, Accepted, SchemaIs, LineageIs, PushParameter, FindQueryable, DimensionColumns, MetricColumns, ModelLineage, MetricNames, AnchorLineage, NamesOf;
    var v, plan := CompileSteps(q, s, options, hash);
    ValidateAccepts(q, s, options, hash, v);
    SchemaExactly(q, s, v);
    LineageExactly(q, s, v);
    PushKeepsColumns(plan.state, IntegerType, IntegerLiteral(v.limit));
  }
}
