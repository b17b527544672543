/**
 Which queries compile, and why the others do not: told by the query, the snapshot and the options alone,
 in the order in which the compiler looks at things.
 */
module Acceptance {
  import opened Prelude
  import opened Order
  import opened Semantic
  import opened Snapshots
  import opened Meaning
  import opened Compiler
  import opened PlanProofs
  import opened AnswerTheorem

  // ----- the first failure -----

  ghost predicate All<T>(xs: seq<T>, has: T -> bool) {
    forall i :: 0 <= i < |xs| ==> has(xs[i])
  }

  /** The error is that of the first element without the property. */
  ghost predicate FirstFails<T>(xs: seq<T>, has: T -> bool, errorOf: T -> CompileError, e: CompileError) {
    exists i: nat :: FirstWithout(xs, has, i) && errorOf(xs[i]) == e
  }

  lemma FailsNow<T>(xs: seq<T>, has: T -> bool, errorOf: T -> CompileError)
    requires xs != [] && !has(xs[0])
    ensures FirstFails(xs, has, errorOf, errorOf(xs[0]))
  {
    assert FirstWithout(xs, has, 0);
  }

  lemma OneFails<T>(x: T, has: T -> bool, errorOf: T -> CompileError)
    ensures All([x], has) <==> has(x)
    ensures !has(x) ==> FirstFails([x], has, errorOf, errorOf(x))
  {
    assert [x][0] == x;
    if !has(x) {
      FailsNow([x], has, errorOf);
    }
  }

  lemma FailsLater<T>(xs: seq<T>, has: T -> bool, errorOf: T -> CompileError, e: CompileError)
    requires xs != [] && has(xs[0]) && FirstFails(xs[1..], has, errorOf, e)
    ensures FirstFails(xs, has, errorOf, e)
    ensures exists x :: x in xs && !has(x)
  {
    var i: nat :| FirstWithout(xs[1..], has, i) && errorOf(xs[1..][i]) == e;
    FirstLater(xs, has, i);
    assert xs[i + 1] in xs;
  }

  lemma FailsAppend<T>(a: seq<T>, b: seq<T>, has: T -> bool, errorOf: T -> CompileError, e: CompileError)
    ensures All(a + b, has) <==> All(a, has) && All(b, has)
    ensures FirstFails(a, has, errorOf, e) ==> FirstFails(a + b, has, errorOf, e)
    ensures All(a, has) && FirstFails(b, has, errorOf, e) ==> FirstFails(a + b, has, errorOf, e)
  {
    var xs := a + b;
    if All(xs, has) {
      assert forall i :: 0 <= i < |a| ==> a[i] == xs[i];
      assert forall i :: 0 <= i < |b| ==> b[i] == xs[|a| + i];
    }
    if i: nat :| FirstWithout(a, has, i) && errorOf(a[i]) == e {
      assert FirstWithout(xs, has, i) && xs[i] == a[i];
    }
    if All(a, has) && FirstFails(b, has, errorOf, e) {
      var i: nat :| FirstWithout(b, has, i) && errorOf(b[i]) == e;
      assert xs[|a| + i] == b[i];
      forall j | 0 <= j < |a| + i
        ensures has(xs[j])
      {
        if j < |a| {
          assert xs[j] == a[j];
        } else {
          assert xs[j] == b[j - |a|];
        }
      }
      assert FirstWithout(xs, has, |a| + i);
    }
  }

  // ----- fields and literals -----

  /** A literal may be compared with a field of the type. */
  ghost predicate Comparable(l: Literal, t: DataType) {
    match l
    case TextLiteral(_) => t == TextType
    case BooleanLiteral(_) => t == BooleanType
    case IntegerLiteral(_) => t == IntegerType || t == NumericType
    case NumericLiteral(_) => t == NumericType
    case DateLiteral(_) => t == DateType || t == TimestampTzType
    case TimestampLiteral(_) => t == TimestampType || t == TimestampTzType
  }

  ghost function FieldOf(m: Model, name: string): Option<Field> {
    Lookup(m.fields, FieldName, name)
  }

  ghost predicate Shown(m: Model, name: string) {
    FieldOf(m, name).Some? && FieldOf(m, name).value.visible
  }

  ghost function FieldError(m: Model, name: string): CompileError {
    if FieldOf(m, name).None? then UnknownField(name) else HiddenField(name)
  }

  // ----- dimensions -----

  /** Only time dimensions of a date or timestamp type have a grain. */
  ghost predicate Grainable(f: Field) {
    f.timeDimension && (f.dataType == DateType || f.dataType == TimestampType || f.dataType == TimestampTzType)
  }

  ghost predicate DimensionServed(m: Model, d: Dimension) {
    Shown(m, d.field) && (d.timeGrain.Some? ==> Grainable(FieldOf(m, d.field).value))
  }

  ghost function DimensionError(m: Model, d: Dimension): CompileError {
    if !Shown(m, d.field) then FieldError(m, d.field) else InvalidTimeGrain(d.field)
  }

  ghost function ServesDimension(m: Model): Dimension -> bool {
    (d: Dimension) => DimensionServed(m, d)
  }

  ghost function DimensionErrors(m: Model): Dimension -> CompileError {
    (d: Dimension) => DimensionError(m, d)
  }

  lemma DimensionExactly(m: Model, d: Dimension)
    ensures ResolveDimension(m, d).Ok? <==> DimensionServed(m, d)
    ensures ResolveDimension(m, d).Err? ==> ResolveDimension(m, d).error == DimensionError(m, d)
    ensures ResolveDimension(m, d).Ok? ==> ResolveDimension(m, d).value == ResolvedDimension(FieldOf(m, d.field).value, d.timeGrain)
  {
  }

  lemma {:induction false} DimensionsExactly(m: Model, ds: seq<Dimension>)
    ensures ResolveDimensions(m, ds).Ok? <==> forall d :: d in ds ==> DimensionServed(m, d)
    ensures ResolveDimensions(m, ds).Err? ==> FirstFails(ds, ServesDimension(m), DimensionErrors(m), ResolveDimensions(m, ds).error)
  {
    hide DimensionServed, DimensionError, ResolveDimension, FirstFails;
    if ds != [] {
      DimensionExactly(m, ds[0]);
      assert ds == [ds[0]] + ds[1..];
      if ResolveDimension(m, ds[0]).Ok? {
        DimensionsExactly(m, ds[1..]);
        if ResolveDimensions(m, ds[1..]).Err? {
          FailsLater(ds, ServesDimension(m), DimensionErrors(m), ResolveDimensions(m, ds).error);
        }
      } else {
        FailsNow(ds, ServesDimension(m), DimensionErrors(m));
      }
    }
  }

  // ----- metrics -----

  /** Counts are integers, averages numeric, sums of integers numeric; otherwise a metric has its field's type. */
  ghost function MetricType(a: Aggregation, t: DataType): DataType {
    if a == Count || a == CountDistinct then IntegerType
    else if a == Avg || (a == Sum && t == IntegerType) then NumericType
    else t
  }

  ghost predicate OwnKey(m: Model, name: string) {
    FieldOf(m, name).Some? && FieldOf(m, name).value.relationship.None? && FieldOf(m, name).value.entityKey
  }

  /** Its field is the model's own, a key if it is counted, and gives the metric's type. */
  ghost predicate MeasuresField(x: Metric, f: Field) {
    && f.relationship.None? && (x.aggregation == Count || x.aggregation == CountDistinct ==> f.entityKey)
    && x.dataType == MetricType(x.aggregation, f.dataType)
  }

  ghost function MeasureError(x: Metric, f: Field): CompileError {
    if f.relationship.Some? then JoinedMetricField(x.semanticName)
    else if !f.entityKey && x.aggregation == Count then CountRequiresEntityKey(x.semanticName)
    else if !f.entityKey && x.aggregation == CountDistinct then CountDistinctRequiresEntityKey(x.semanticName)
    else InvalidMetricType(x.semanticName)
  }

  ghost predicate FilterFieldServed(m: Model, x: Metric) {
    x.filter.Some? ==> FieldOf(m, x.filter.value.field).Some? && Comparable(x.filter.value.value, FieldOf(m, x.filter.value.field).value.dataType)
  }

  ghost function FilterFieldError(m: Model, x: Metric): CompileError
    requires x.filter.Some?
  {
    if FieldOf(m, x.filter.value.field).None? then InvalidMetricField(x.semanticName) else LiteralTypeMismatch(x.filter.value.field)
  }

  /** Version 1 knows neither additivity nor anchors; version 2 wants additivity declared, and an anchor to be an own key. */
  ghost predicate MetadataServed(version: string, m: Model, x: Metric) {
    && (version == "1" ==> x.additivity.None? && x.aggregationAnchor.None?)
    && (version == "2" ==> x.additivity.Some?)
    && (x.aggregationAnchor.Some? ==> OwnKey(m, x.aggregationAnchor.value))
  }

  ghost function MetadataError(version: string, x: Metric): CompileError {
    if version == "2" && x.additivity.None? then MissingMetricMetadata(x.semanticName) else InvalidAggregationAnchor(x.semanticName)
  }

  ghost predicate MetricServed(version: string, m: Model, name: string) {
    var x := Lookup(m.metrics, MetricName, name);
    && x.Some? && x.value.visible
    && FieldOf(m, x.value.field).Some? && MeasuresField(x.value, FieldOf(m, x.value.field).value)
    && FilterFieldServed(m, x.value) && MetadataServed(version, m, x.value)
  }

  ghost function MetricError(version: string, m: Model, name: string): CompileError {
    match Lookup(m.metrics, MetricName, name)
    case None => UnknownMetric(name)
    case Some(x) =>
      if !x.visible then HiddenMetric(name)
      else if FieldOf(m, x.field).None? then InvalidMetricField(name)
      else if !MeasuresField(x, FieldOf(m, x.field).value) then MeasureError(x, FieldOf(m, x.field).value)
      else if !FilterFieldServed(m, x) then FilterFieldError(m, x)
      else MetadataError(version, x)
  }

  ghost function ServesMetric(version: string, m: Model): string -> bool {
    (name: string) => MetricServed(version, m, name)
  }

  ghost function MetricErrors(version: string, m: Model): string -> CompileError {
    (name: string) => MetricError(version, m, name)
  }

  lemma LiteralsAgree(t: DataType, l: Literal)
    ensures LiteralFits(t, l) <==> Comparable(l, t)
  {
  }

  lemma MeasuresAgree(x: Metric, f: Field)
    ensures CheckMetricField(x, f) == if MeasuresField(x, f) then Ok(()) else Err(MeasureError(x, f))
  {
  }

  lemma MetricExactly(version: string, m: Model, name: string)
    ensures ResolveMetric(version, m, name).Ok? <==> MetricServed(version, m, name)
    ensures ResolveMetric(version, m, name).Err? ==> ResolveMetric(version, m, name).error == MetricError(version, m, name)
    ensures ResolveMetric(version, m, name).Ok? ==> var r := ResolveMetric(version, m, name).value;
      && Lookup(m.metrics, MetricName, name) == Some(r.metric) && FieldOf(m, r.metric.field) == Some(r.field)
      && (r.metric.filter.None? ==> r.filter.None?)
      && (r.metric.filter.Some? ==> r.filter.Some? && FieldOf(m, r.metric.filter.value.field) == Some(r.filter.value.0) && r.filter.value.1 == r.metric.filter.value.value)
      && (r.metric.aggregationAnchor.None? ==> r.anchor.None?)
      && (r.metric.aggregationAnchor.Some? ==> r.anchor.Some? && FieldOf(m, r.metric.aggregationAnchor.value) == r.anchor)
  {
    hide LiteralFits, Comparable, CheckMetricField, MeasuresField, MeasureError;
    var x := Lookup(m.metrics, MetricName, name);
    if x.Some? && FieldOf(m, x.value.field).Some? {
      MeasuresAgree(x.value, FieldOf(m, x.value.field).value);
      if x.value.filter.Some? && FieldOf(m, x.value.filter.value.field).Some? {
        LiteralsAgree(FieldOf(m, x.value.filter.value.field).value.dataType, x.value.filter.value.value);
      }
    }
  }

  lemma {:induction false} MetricsExactly(version: string, m: Model, names: seq<string>)
    ensures ResolveMetrics(version, m, names).Ok? <==> forall n :: n in names ==> MetricServed(version, m, n)
    ensures ResolveMetrics(version, m, names).Err? ==> FirstFails(names, ServesMetric(version, m), MetricErrors(version, m), ResolveMetrics(version, m, names).error)
  {
    hide MetricServed, MetricError, ResolveMetric, FirstFails;
    if names != [] {
      MetricExactly(version, m, names[0]);
      assert names == [names[0]] + names[1..];
      if ResolveMetric(version, m, names[0]).Ok? {
        MetricsExactly(version, m, names[1..]);
        if ResolveMetrics(version, m, names[1..]).Err? {
          FailsLater(names, ServesMetric(version, m), MetricErrors(version, m), ResolveMetrics(version, m, names).error);
        }
      } else {
        FailsNow(names, ServesMetric(version, m), MetricErrors(version, m));
      }
    }
  }

  // ----- filters -----

  /** The tests of a filter in the order in which they are written. */
  ghost function Leaves(f: Filter): seq<Filter>
    decreases f
  {
    match f
    case And(args) => AllLeaves(args)
    case Or(args) => AllLeaves(args)
    case Not(arg) => Leaves(arg)
    case _ => [f]
  }

  ghost function AllLeaves(fs: seq<Filter>): seq<Filter>
    decreases fs
  {
    if fs == [] then [] else Leaves(fs[0]) + AllLeaves(fs[1..])
  }

  ghost function LeafField(f: Filter): string {
    match f
    case Compare(_, name, _) => name
    case In(name, _) => name
    case IsNull(name) => name
    case IsNotNull(name) => name
    case _ => ""
  }

  ghost function LeafValues(f: Filter): seq<Literal> {
    match f
    case Compare(_, _, value) => [value]
    case In(_, values) => values
    case _ => []
  }

  ghost predicate LeafServed(m: Model, f: Filter) {
    Shown(m, LeafField(f)) && forall l :: l in LeafValues(f) ==> Comparable(l, FieldOf(m, LeafField(f)).value.dataType)
  }

  ghost function LeafError(m: Model, f: Filter): CompileError {
    if !Shown(m, LeafField(f)) then FieldError(m, LeafField(f)) else LiteralTypeMismatch(LeafField(f))
  }

  ghost function ServesLeaf(m: Model): Filter -> bool {
    (f: Filter) => LeafServed(m, f)
  }

  ghost function LeafErrors(m: Model): Filter -> CompileError {
    (f: Filter) => LeafError(m, f)
  }

  predicate IsLeaf(f: Filter) {
    !f.And? && !f.Or? && !f.Not?
  }

  lemma LeafExactly(m: Model, f: Filter)
    requires IsLeaf(f)
    ensures ResolveFilter(m, f).Ok? <==> LeafServed(m, f)
    ensures ResolveFilter(m, f).Err? ==> ResolveFilter(m, f).error == LeafError(m, f)
  {
    hide LiteralFits, Comparable;
    var name := LeafField(f);
    if Shown(m, name) {
      forall l
        ensures LiteralFits(FieldOf(m, name).value.dataType, l) <==> Comparable(l, FieldOf(m, name).value.dataType)
      {
        LiteralsAgree(FieldOf(m, name).value.dataType, l);
      }
      match f
      case In(_, values) => CheckLiteralsError(FieldOf(m, name).value, values);
      case _ =>
    }
  }

  lemma {:induction false} CheckLiteralsError(field: Field, values: seq<Literal>)
    ensures CheckLiterals(field, values).Err? ==> CheckLiterals(field, values).error == LiteralTypeMismatch(field.semanticName)
  {
    if values != [] {
      CheckLiteralsError(field, values[1..]);
    }
  }

  lemma {:induction false} FilterExactly(m: Model, f: Filter)
    ensures ResolveFilter(m, f).Ok? <==> All(Leaves(f), ServesLeaf(m))
    ensures ResolveFilter(m, f).Err? ==> FirstFails(Leaves(f), ServesLeaf(m), LeafErrors(m), ResolveFilter(m, f).error)
    decreases f
  {
    hide All, FirstFails, LeafServed, LeafError;
    match f
    case And(args) => FiltersExactly(m, args);
    case Or(args) => FiltersExactly(m, args);
    case Not(arg) => FilterExactly(m, arg);
    case _ =>
      LeafExactly(m, f);
      OneFails(f, ServesLeaf(m), LeafErrors(m));
  }

  lemma {:induction false} FiltersExactly(m: Model, fs: seq<Filter>)
    ensures ResolveFilters(m, fs).Ok? <==> All(AllLeaves(fs), ServesLeaf(m))
    ensures ResolveFilters(m, fs).Err? ==> FirstFails(AllLeaves(fs), ServesLeaf(m), LeafErrors(m), ResolveFilters(m, fs).error)
    decreases fs
  {
    hide FirstFails, LeafServed, LeafError;
    if fs != [] {
      hide All;
      FilterExactly(m, fs[0]);
      FiltersExactly(m, fs[1..]);
      var r := ResolveFilters(m, fs);
      FailsAppend(Leaves(fs[0]), AllLeaves(fs[1..]), ServesLeaf(m), LeafErrors(m), if r.Err? then r.error else UnknownModel);
    }
  }

  // ----- order -----

  lemma {:induction false} OrderExactly(projected: seq<string>, orderBy: seq<OrderBy>)
    ensures CheckOrder(projected, orderBy).Ok? <==> forall o :: o in orderBy ==> o.outputReference in projected
    ensures CheckOrder(projected, orderBy).Err? ==> FirstFails(orderBy, RefersTo(projected), OrderErrors(), CheckOrder(projected, orderBy).error)
  {
    if orderBy != [] {
      assert orderBy == [orderBy[0]] + orderBy[1..];
      if orderBy[0].outputReference in projected {
        OrderExactly(projected, orderBy[1..]);
        if CheckOrder(projected, orderBy).Err? {
          FailsLater(orderBy, RefersTo(projected), OrderErrors(), CheckOrder(projected, orderBy).error);
        }
      } else {
        FailsNow(orderBy, RefersTo(projected), OrderErrors());
      }
    }
  }

  ghost function RefersTo(projected: seq<string>): OrderBy -> bool {
    (o: OrderBy) => o.outputReference in projected
  }

  ghost function OrderErrors(): OrderBy -> CompileError {
    (o: OrderBy) => UnknownOrderReference(o.outputReference)
  }

  // ----- relationships -----

  /** A direct key field of a model over the column. */
  ghost predicate KeyOver(m: Model, column: string) {
    exists f :: f in m.fields && f.column == column && f.entityKey && f.relationship.None?
  }

  ghost predicate Joinable(s: Snapshot, m: Model, rel: Relationship) {
    var target := Lookup(s.models, ModelName, rel.targetModel);
    && target.Some? && target.value.source == rel.target
    && if rel.cardinality == OneToMany then KeyOver(m, rel.fromColumn) else KeyOver(target.value, rel.toColumn)
  }

  ghost predicate RelationshipServed(s: Snapshot, m: Model, name: string) {
    var rel := Lookup(m.relationships, RelationshipName, name);
    rel.Some? && rel.value.cardinality != ManyToMany && Joinable(s, m, rel.value)
  }

  ghost function RelationshipError(s: Snapshot, m: Model, name: string): CompileError {
    match Lookup(m.relationships, RelationshipName, name)
    case None => UnknownRelationship(name)
    case Some(rel) =>
      var target := Lookup(s.models, ModelName, rel.targetModel);
      if rel.cardinality == ManyToMany then UnsafeRelationship(name)
      else if target.None? || target.value.source != rel.target then InvalidRelationshipTarget(name)
      else if rel.cardinality == OneToMany then InvalidAggregationAnchor(name)
      else RelationshipTargetNotEntityKey(name)
  }

  lemma KeysAgree(m: Model, column: string)
    ensures HasKeyColumn(m.fields, column) <==> KeyOver(m, column)
  {
    if f :| f in m.fields && f.column == column && f.entityKey && f.relationship.None? {
      var i :| 0 <= i < |m.fields| && m.fields[i] == f;
    }
  }

  lemma RelationshipExactly(s: Snapshot, m: Model, name: string)
    ensures ResolveRelationship(s, m, name).Ok? <==> RelationshipServed(s, m, name)
    ensures ResolveRelationship(s, m, name).Err? ==> ResolveRelationship(s, m, name).error == RelationshipError(s, m, name)
    ensures ResolveRelationship(s, m, name).Ok? ==> Lookup(m.relationships, RelationshipName, name) == Some(ResolveRelationship(s, m, name).value)
  {
    hide HasKeyColumn, KeyOver;
    var rel := Lookup(m.relationships, RelationshipName, name);
    if rel.Some? {
      KeysAgree(m, rel.value.fromColumn);
      var target := Lookup(s.models, ModelName, rel.value.targetModel);
      if target.Some? {
        KeysAgree(target.value, rel.value.toColumn);
      }
    }
  }

  ghost function ServesRelationship(s: Snapshot, m: Model): string -> bool {
    (name: string) => RelationshipServed(s, m, name)
  }

  ghost function RelationshipErrors(s: Snapshot, m: Model): string -> CompileError {
    (name: string) => RelationshipError(s, m, name)
  }

  lemma {:induction false} RelationshipsExactly(s: Snapshot, m: Model, names: seq<string>)
    ensures ResolveRelationships(s, m, names).Ok? <==> forall n :: n in names ==> RelationshipServed(s, m, n)
    ensures ResolveRelationships(s, m, names).Err? ==>
      FirstFails(names, ServesRelationship(s, m), RelationshipErrors(s, m), ResolveRelationships(s, m, names).error)
  {
    hide RelationshipServed, RelationshipError, ResolveRelationship, FirstFails;
    if names != [] {
      RelationshipExactly(s, m, names[0]);
      assert names == [names[0]] + names[1..];
      if ResolveRelationship(s, m, names[0]).Ok? {
        RelationshipsExactly(s, m, names[1..]);
        if ResolveRelationships(s, m, names[1..]).Err? {
          FailsLater(names, ServesRelationship(s, m), RelationshipErrors(s, m), ResolveRelationships(s, m, names).error);
        }
      } else {
        FailsNow(names, ServesRelationship(s, m), RelationshipErrors(s, m));
      }
    }
  }

  /** The least of some names without a property. */
  ghost predicate LeastWithout(names: set<string>, has: string -> bool, n: string) {
    n in names && !has(n) && forall k :: k in names && k != n && NameLeq(k, n) ==> has(k)
  }

  /** In a list in name order the first without a property is the least without it. */
  lemma FirstIsLeast(list: seq<string>, names: set<string>, has: string -> bool, i: nat)
    requires NoDuplicates(list) && Sorted(list, NameKey) && (forall n :: n in list <==> n in names) && FirstWithout(list, has, i)
    ensures LeastWithout(names, has, list[i])
  {
    forall k | k in names && k != list[i] && NameLeq(k, list[i])
      ensures has(k)
    {
      var j :| 0 <= j < |list| && list[j] == k;
      if j > i {
        SortedNames(list, i, j);
        NameTotal(list[i], list[j]);
      }
    }
  }

  lemma SortedNames(list: seq<string>, i: nat, j: nat)
    requires Sorted(list, NameKey) && i < j < |list|
    ensures list[i] == list[j] || NameLeq(list[i], list[j])
  {
    assert KeyLeq(NameKey(list[i]), NameKey(list[j]));
    assert NameKey(list[i])[0] == list[i] && NameKey(list[j])[0] == list[j];
  }

  // ----- anchors -----

  ghost predicate FansOut(m: Model, name: string) {
    var rel := Lookup(m.relationships, RelationshipName, name);
    rel.Some? && rel.value.cardinality == OneToMany
  }

  ghost function StaysSingle(m: Model): string -> bool {
    (name: string) => !FansOut(m, name)
  }

  /** The metric can be counted once per anchor: it has one, its filter is local, and it is not semi-additive. */
  ghost predicate Anchorable(m: Model, x: Metric) {
    && x.aggregationAnchor.Some?
    && (x.filter.Some? ==> FieldOf(m, x.filter.value.field).Some? && FieldOf(m, x.filter.value.field).value.relationship.None?)
    && x.additivity != Some(SemiAdditive)
  }

  ghost function AnchorError(m: Model, x: Metric): CompileError {
    if x.aggregationAnchor.None? then MissingAggregationAnchor(x.semanticName)
    else if x.filter.Some? && FieldOf(m, x.filter.value.field).Some? && FieldOf(m, x.filter.value.field).value.relationship.Some? then JoinedMetricFilter(x.semanticName)
    else UnsupportedFanoutAdditivity(x.semanticName)
  }

  ghost function MetricNamed(m: Model, name: string): Option<Metric> {
    Lookup(m.metrics, MetricName, name)
  }

  /** Metric i fits in with the first: it can be anchored, and to the same field. */
  ghost predicate FitsAnchor(m: Model, names: seq<string>, i: nat)
    requires i < |names|
  {
    var x, first := MetricNamed(m, names[i]), MetricNamed(m, names[0]);
    x.Some? && first.Some? && Anchorable(m, x.value) && x.value.aggregationAnchor == first.value.aggregationAnchor
  }

  /** The first metric that does not fit in gives the error. */
  ghost predicate AnchorRefused(m: Model, names: seq<string>, i: nat, e: CompileError) {
    && i < |names| && (forall j: nat :: j < i ==> FitsAnchor(m, names, j)) && !FitsAnchor(m, names, i)
    && var x := MetricNamed(m, names[i]);
    x.Some? && e == if Anchorable(m, x.value) then MixedAggregationAnchors else AnchorError(m, x.value)
  }

  /** One step of the anchor loop. */
  lemma AnchorStepExactly(version: string, m: Model, names: seq<string>, ms: seq<ResolvedMetric>, k: nat)
    requires ResolveMetrics(version, m, names) == Ok(ms) && k < |names|
    requires k > 0 ==> FitsAnchor(m, names, k - 1)
    ensures var x := MetricNamed(m, names[k]);
      && x.Some? && x.value.semanticName == names[k] && ms[k].metric == x.value
      && (Anchorable(m, x.value) <==> ms[k].anchor.Some? && (ms[k].filter.Some? ==> ms[k].filter.value.0.relationship.None?) && ms[k].metric.additivity != Some(SemiAdditive))
      && (ms[k].anchor.Some? <==> x.value.aggregationAnchor.Some?)
      && (ms[k].filter.Some? <==> x.value.filter.Some?)
      && (ms[k].filter.Some? ==> FieldOf(m, x.value.filter.value.field) == Some(ms[k].filter.value.0))
    ensures k > 0 && ms[k].anchor.Some? ==> ms[k - 1].anchor.Some?
    ensures k > 0 && ms[k].anchor.Some? && ms[k - 1].anchor.value.semanticName == ms[k].anchor.value.semanticName ==> MetricNamed(m, names[k]).value.aggregationAnchor == MetricNamed(m, names[0]).value.aggregationAnchor
    ensures k > 0 && ms[k].anchor.Some? && ms[k - 1].anchor.value.semanticName != ms[k].anchor.value.semanticName ==> MetricNamed(m, names[k]).value.aggregationAnchor != MetricNamed(m, names[0]).value.aggregationAnchor
  {
    hide ResolveMetric, ResolveMetrics, MetricServed, MetricError;
    MetricExactly(version, m, names[k]);
    if k > 0 {
      MetricExactly(version, m, names[k - 1]);
    }
  }

  lemma {:induction false} AnchorsExactly(version: string, m: Model, names: seq<string>, ms: seq<ResolvedMetric>, k: nat)
    requires ResolveMetrics(version, m, names) == Ok(ms) && k <= |names|
    requires forall j: nat :: j < k ==> FitsAnchor(m, names, j)
    ensures var r := AnchorFrom(ms[k..], if k == 0 then None else ms[k - 1].anchor);
      && (r.Ok? <==> forall j: nat :: j < |names| ==> FitsAnchor(m, names, j))
      && (r.Err? ==> exists i: nat :: AnchorRefused(m, names, i, r.error))
    decreases |names| - k
  {
    hide ResolveMetric, ResolveMetrics;
    if k < |names| {
      AnchorStep(ms, k);
      AnchorStepExactly(version, m, names, ms, k);
      if k > 0 {
        AnchorStepExactly(version, m, names, ms, 0);
      }
      var r := AnchorFrom(ms[k..], if k == 0 then None else ms[k - 1].anchor);
      hide Anchorable;
      if FitsAnchor(m, names, k) {
        AnchorsExactly(version, m, names, ms, k + 1);
      } else {
        assert r.Err?;
        assert AnchorRefused(m, names, k, r.error);
      }
    }
  }

  lemma {:induction false} FanoutExactly(s: Snapshot, m: Model, names: seq<string>, rels: seq<Relationship>)
    requires ResolveRelationships(s, m, names) == Ok(rels)
    ensures Fanout(rels).None? <==> forall n :: n in names ==> !FansOut(m, n)
    ensures Fanout(rels).Some? ==> exists i: nat :: FirstWithout(names, StaysSingle(m), i) && Fanout(rels).value.semanticName == names[i]
  {
    hide ResolveRelationship, RelationshipServed, RelationshipError;
    if names != [] {
      RelationshipExactly(s, m, names[0]);
      FanoutExactly(s, m, names[1..], rels[1..]);
      assert names == [names[0]] + names[1..];
      if FansOut(m, names[0]) {
        assert FirstWithout(names, StaysSingle(m), 0);
      } else if Fanout(rels).Some? {
        var i: nat :| FirstWithout(names[1..], StaysSingle(m), i) && Fanout(rels).value.semanticName == names[1..][i];
        FirstLater(names, StaysSingle(m), i);
      }
    }
  }

  // ----- timezones -----

  ghost predicate Zoned(m: Model, name: string) {
    m.timezone.None? ==> FieldOf(m, name).Some? && FieldOf(m, name).value.dataType != TimestampTzType
  }

  /** Truncating an instant needs the model's timezone. */
  ghost predicate GrainZoned(m: Model, d: Dimension) {
    d.timeGrain.Some? ==> Zoned(m, d.field)
  }

  /** So does comparing an instant with a day. */
  ghost predicate LeafZoned(m: Model, f: Filter) {
    f.Compare? && f.value.DateLiteral? ==> Zoned(m, f.field)
  }

  ghost function ZonesGrain(m: Model): Dimension -> bool {
    (d: Dimension) => GrainZoned(m, d)
  }

  ghost function ZonesLeaf(m: Model): Filter -> bool {
    (f: Filter) => LeafZoned(m, f)
  }

  ghost function GrainErrors(): Dimension -> CompileError {
    (d: Dimension) => MissingTimezone(d.field)
  }

  ghost function ZoneErrors(): Filter -> CompileError {
    (f: Filter) => MissingTimezone(LeafField(f))
  }

  /** The alias of the field is known. */
  ghost predicate Aliased(m: Model, names: seq<string>, field: Field) {
    field.relationship.Some? ==> field.relationship.value in names && Lookup(m.relationships, RelationshipName, field.relationship.value).Some?
  }

  lemma FieldRenders(m: Model, names: seq<string>, field: Field, st: RenderState)
    requires Aliased(m, names, field)
    ensures RenderField(m, names, field, st).Ok?
  {
  }

  lemma DimensionRenders(m: Model, names: seq<string>, q: Dimension, d: ResolvedDimension, st: RenderState)
    requires ResolveDimension(m, q) == Ok(d) && Aliased(m, names, d.field)
    ensures RenderDimension(m, names, d, st).Ok? <==> GrainZoned(m, q)
    ensures RenderDimension(m, names, d, st).Err? ==> RenderDimension(m, names, d, st).error == MissingTimezone(q.field)
  {
    hide RenderField;
    FieldRenders(m, names, d.field, st);
  }

  lemma {:induction false} DimensionsRender(m: Model, names: seq<string>, qs: seq<Dimension>, ds: seq<ResolvedDimension>, st: RenderState)
    requires ResolveDimensions(m, qs) == Ok(ds) && forall i :: 0 <= i < |ds| ==> Aliased(m, names, ds[i].field)
    ensures RenderDimensions(m, names, ds, st).Ok? <==> All(qs, ZonesGrain(m))
    ensures RenderDimensions(m, names, ds, st).Err? ==> FirstFails(qs, ZonesGrain(m), GrainErrors(), RenderDimensions(m, names, ds, st).error)
    decreases |qs|
  {
    hide ResolveDimension, RenderDimension, Aliased, GrainZoned, FirstFails;
    if qs != [] {
      DimensionRenders(m, names, qs[0], ds[0], st);
      assert qs == [qs[0]] + qs[1..];
      var r := RenderDimension(m, names, ds[0], st);
      if r.Ok? {
        assert forall i :: 0 <= i < |ds[1..]| ==> ds[1..][i] == ds[i + 1];
        DimensionsRender(m, names, qs[1..], ds[1..], r.value.state);
        OneFails(qs[0], ZonesGrain(m), GrainErrors());
        FailsAppend([qs[0]], qs[1..], ZonesGrain(m), GrainErrors(), UnknownModel);
        if RenderDimensions(m, names, ds, st).Err? {
          FailsLater(qs, ZonesGrain(m), GrainErrors(), RenderDimensions(m, names, ds, st).error);
        }
      } else {
        FailsNow(qs, ZonesGrain(m), GrainErrors());
      }
    }
  }

  lemma MetricRenders(m: Model, names: seq<string>, x: ResolvedMetric, st: RenderState)
    requires Aliased(m, names, x.field) && (x.filter.Some? ==> Aliased(m, names, x.filter.value.0))
    ensures RenderMetricParts(m, names, x, st).Ok?
  {
    hide RenderField;
    FieldRenders(m, names, x.field, st);
    if x.filter.Some? {
      FieldRenders(m, names, x.filter.value.0, RenderField(m, names, x.field, st).value.state);
    }
  }

  lemma {:induction false} MetricsRender(m: Model, names: seq<string>, xs: seq<ResolvedMetric>, anchored: bool, st: RenderState)
    requires forall i :: 0 <= i < |xs| ==> Aliased(m, names, xs[i].field) && (xs[i].filter.Some? ==> Aliased(m, names, xs[i].filter.value.0))
    ensures RenderMetrics(m, names, xs, anchored, st).Ok?
    decreases |xs|
  {
    hide RenderMetricParts, Aliased;
    if xs != [] {
      MetricRenders(m, names, xs[0], st);
      var r := if anchored then RenderMetricInput(m, names, xs[0], st) else RenderMetric(m, names, xs[0], st);
      MetricsRender(m, names, xs[1..], anchored, r.value.state);
    }
  }

  lemma LeafRenders(m: Model, names: seq<string>, f: Filter, rf: ResolvedFilter, st: RenderState)
    requires IsLeaf(f) && ResolveFilter(m, f) == Ok(rf) && forall g :: g in FilterFields(rf) ==> Aliased(m, names, g)
    ensures RenderFilter(m, names, rf, st).Ok? <==> LeafZoned(m, f)
    ensures RenderFilter(m, names, rf, st).Err? ==> RenderFilter(m, names, rf, st).error == MissingTimezone(LeafField(f))
  {
    hide RenderField, RenderOptions;
    assert rf.field in FilterFields(rf);
    FieldRenders(m, names, rf.field, st);
  }

  lemma {:induction false} FilterRenders(m: Model, names: seq<string>, f: Filter, rf: ResolvedFilter, st: RenderState)
    requires ResolveFilter(m, f) == Ok(rf) && forall g :: g in FilterFields(rf) ==> Aliased(m, names, g)
    ensures RenderFilter(m, names, rf, st).Ok? <==> All(Leaves(f), ZonesLeaf(m))
    ensures RenderFilter(m, names, rf, st).Err? ==> FirstFails(Leaves(f), ZonesLeaf(m), ZoneErrors(), RenderFilter(m, names, rf, st).error)
    decreases f
  {
    hide All, FirstFails, LeafZoned, Aliased;
    match f
    case And(args) => FiltersRender(m, names, args, rf.args, st);
    case Or(args) => FiltersRender(m, names, args, rf.args, st);
    case Not(arg) => FilterRenders(m, names, arg, rf.arg, st);
    case _ =>
      LeafRenders(m, names, f, rf, st);
      OneFails(f, ZonesLeaf(m), ZoneErrors());
  }

  lemma {:induction false} FiltersRender(m: Model, names: seq<string>, fs: seq<Filter>, rfs: seq<ResolvedFilter>, st: RenderState)
    requires ResolveFilters(m, fs) == Ok(rfs) && forall g :: g in AllFilterFields(rfs) ==> Aliased(m, names, g)
    ensures RenderFilters(m, names, rfs, st).Ok? <==> All(AllLeaves(fs), ZonesLeaf(m))
    ensures RenderFilters(m, names, rfs, st).Err? ==> FirstFails(AllLeaves(fs), ZonesLeaf(m), ZoneErrors(), RenderFilters(m, names, rfs, st).error)
    decreases fs
  {
    hide FirstFails, LeafZoned, Aliased;
    if fs != [] {
      hide All;
      FilterRenders(m, names, fs[0], rfs[0], st);
      var r := RenderFilters(m, names, rfs, st);
      if RenderFilter(m, names, rfs[0], st).Ok? {
        FiltersRender(m, names, fs[1..], rfs[1..], RenderFilter(m, names, rfs[0], st).value.state);
      }
      FailsAppend(Leaves(fs[0]), AllLeaves(fs[1..]), ZonesLeaf(m), ZoneErrors(), if r.Err? then r.error else UnknownModel);
    }
  }

  // ----- one model and one query -----

  ghost predicate FilterServed(m: Model, q: Query) {
    q.filters.Some? ==> All(Leaves(q.filters.value), ServesLeaf(m))
  }

  /** One used relationship to many rows makes every metric need the anchor. */
  ghost predicate FansServed(m: Model, q: Query) {
    (exists n :: n in UsedRelationships(m, q) && FansOut(m, n)) ==> q.metrics != [] && forall i: nat :: i < |q.metrics| ==> FitsAnchor(m, q.metrics, i)
  }

  ghost predicate FansRefused(m: Model, q: Query, e: CompileError) {
    if q.metrics == [] then exists n :: LeastWithout(UsedRelationships(m, q), StaysSingle(m), n) && e == UnsafeRelationship(n)
    else exists i: nat :: AnchorRefused(m, q.metrics, i, e)
  }

  ghost predicate RelationshipsServed(s: Snapshot, m: Model, q: Query) {
    forall n :: n in UsedRelationships(m, q) ==> RelationshipServed(s, m, n)
  }

  ghost predicate RelationshipsRefused(s: Snapshot, m: Model, q: Query, e: CompileError) {
    exists n :: LeastWithout(UsedRelationships(m, q), ServesRelationship(s, m), n) && e == RelationshipError(s, m, n)
  }

  ghost predicate ZonesServed(m: Model, q: Query) {
    All(q.dimensions, ZonesGrain(m)) && (q.filters.Some? ==> All(Leaves(q.filters.value), ZonesLeaf(m)))
  }

  ghost predicate ZonesRefused(m: Model, q: Query, e: CompileError) {
    if !All(q.dimensions, ZonesGrain(m)) then FirstFails(q.dimensions, ZonesGrain(m), GrainErrors(), e)
    else q.filters.Some? && FirstFails(Leaves(q.filters.value), ZonesLeaf(m), ZoneErrors(), e)
  }

  /** The fields, metrics and tests the query names. */
  ghost predicate NamesServed(version: string, m: Model, q: Query) {
    && (forall d :: d in q.dimensions ==> DimensionServed(m, d))
    && (forall n :: n in q.metrics ==> MetricServed(version, m, n))
    && FilterServed(m, q)
    && (forall o :: o in q.orderBy ==> o.outputReference in OutputNames(q))
  }

  ghost predicate NamesRefused(version: string, m: Model, q: Query, e: CompileError) {
    if exists d :: d in q.dimensions && !DimensionServed(m, d) then FirstFails(q.dimensions, ServesDimension(m), DimensionErrors(m), e)
    else if exists n :: n in q.metrics && !MetricServed(version, m, n) then FirstFails(q.metrics, ServesMetric(version, m), MetricErrors(version, m), e)
    else if !FilterServed(m, q) then q.filters.Some? && FirstFails(Leaves(q.filters.value), ServesLeaf(m), LeafErrors(m), e)
    else FirstFails(q.orderBy, RefersTo(OutputNames(q)), OrderErrors(), e)
  }

  ghost predicate ModelServes(s: Snapshot, m: Model, q: Query) {
    NamesServed(s.schemaVersion, m, q) && RelationshipsServed(s, m, q) && FansServed(m, q) && ZonesServed(m, q)
  }

  /** The error of the first thing the model cannot serve. */
  ghost predicate ModelRefuses(s: Snapshot, m: Model, q: Query, e: CompileError) {
    if !NamesServed(s.schemaVersion, m, q) then NamesRefused(s.schemaVersion, m, q, e)
    else if !RelationshipsServed(s, m, q) then RelationshipsRefused(s, m, q, e)
    else if !FansServed(m, q) then FansRefused(m, q, e)
    else ZonesRefused(m, q, e)
  }

  /** The four lookups that come first. */
  ghost function ResolveNames(version: string, m: Model, q: Query): Result<(seq<ResolvedDimension>, seq<ResolvedMetric>, Option<ResolvedFilter>), CompileError> {
    var ds :- ResolveDimensions(m, q.dimensions);
    var ms :- ResolveMetrics(version, m, q.metrics);
    var f :- ResolveOptionalFilter(m, q.filters);
    var _ :- CheckOrder(OutputNames(q), q.orderBy);
    Ok((ds, ms, f))
  }

  lemma NamesExactly(version: string, m: Model, q: Query)
    ensures ResolveNames(version, m, q).Ok? <==> NamesServed(version, m, q)
    ensures ResolveNames(version, m, q).Err? ==> NamesRefused(version, m, q, ResolveNames(version, m, q).error)
  {
    hide ResolveDimensions, ResolveMetrics, ResolveFilter, CheckOrder, OutputNames, DimensionServed, MetricServed, All, FirstFails, Leaves;
    DimensionsExactly(m, q.dimensions);
    MetricsExactly(version, m, q.metrics);
    if q.filters.Some? {
      FilterExactly(m, q.filters.value);
    }
    OrderExactly(OutputNames(q), q.orderBy);
  }

  lemma JoinsExactly(q: Query, s: Snapshot, m: Model, names: seq<string>)
    requires NoDuplicates(names) && Sorted(names, NameKey) && forall n :: n in names <==> n in UsedRelationships(m, q)
    ensures ResolveRelationships(s, m, names).Ok? <==> RelationshipsServed(s, m, q)
    ensures ResolveRelationships(s, m, names).Err? ==> RelationshipsRefused(s, m, q, ResolveRelationships(s, m, names).error)
  {
    hide ResolveRelationships, RelationshipServed, RelationshipError, UsedRelationships;
    RelationshipsExactly(s, m, names);
    var r := ResolveRelationships(s, m, names);
    if r.Err? {
      var i: nat :| FirstWithout(names, ServesRelationship(s, m), i) && RelationshipErrors(s, m)(names[i]) == r.error;
      FirstIsLeast(names, UsedRelationships(m, q), ServesRelationship(s, m), i);
    }
  }

  lemma FansExactly(q: Query, s: Snapshot, m: Model, names: seq<string>, rels: seq<Relationship>, ms: seq<ResolvedMetric>)
    requires NoDuplicates(names) && Sorted(names, NameKey) && forall n :: n in names <==> n in UsedRelationships(m, q)
    requires ResolveRelationships(s, m, names) == Ok(rels) && ResolveMetrics(s.schemaVersion, m, q.metrics) == Ok(ms)
    ensures ResolveAnchor(rels, ms).Ok? <==> FansServed(m, q)
    ensures ResolveAnchor(rels, ms).Err? ==> FansRefused(m, q, ResolveAnchor(rels, ms).error)
  {
    hide ResolveRelationships, ResolveMetrics, FansOut, UsedRelationships, AnchorFrom, FitsAnchor, AnchorRefused;
    FanoutExactly(s, m, names, rels);
    assert ms[0..] == ms;
    AnchorsExactly(s.schemaVersion, m, q.metrics, ms, 0);
    if Fanout(rels).Some? {
      var i: nat :| FirstWithout(names, StaysSingle(m), i) && Fanout(rels).value.semanticName == names[i];
      FirstIsLeast(names, UsedRelationships(m, q), StaysSingle(m), i);
    }
  }

  lemma ValidatesInSteps(q: Query, s: Snapshot, m: Model, limit: nat)
    ensures var r := ResolveNames(s.schemaVersion, m, q); var v := ValidateFor(q, s, m, limit);
      if r.Err? then v.Err? && v.error == r.error
      else
        var (ds, ms, f) := r.value;
        var rels := ResolveRelationships(s, m, RecordAll([], UsedFields(ds, ms, f)));
        if rels.Err? then v.Err? && v.error == rels.error
        else
          var anchor := ResolveAnchor(rels.value, ms);
          if anchor.Err? then v.Err? && v.error == anchor.error
          else v == Ok(ValidatedQuery(m, ds, ms, f, q.orderBy, rels.value, anchor.value, limit))
  {
  }

  lemma ValidatesExactly(q: Query, s: Snapshot, m: Model, limit: nat)
    ensures var v := ValidateFor(q, s, m, limit);
      && (v.Ok? <==> NamesServed(s.schemaVersion, m, q) && RelationshipsServed(s, m, q) && FansServed(m, q))
      && (v.Err? ==> ModelRefuses(s, m, q, v.error))
  {
    hide ResolveNames, ValidateFor, ResolveRelationships, ResolveAnchor, RecordAll, UsedFields, UsedRelationships, NamesServed, NamesRefused;
    hide RelationshipsServed, RelationshipsRefused, FansServed, FansRefused, ZonesRefused;
    ValidatesInSteps(q, s, m, limit);
    NamesExactly(s.schemaVersion, m, q);
    var r := ResolveNames(s.schemaVersion, m, q);
    if r.Ok? {
      var (ds, ms, f) := r.value;
      var names := RecordAll([], UsedFields(ds, ms, f));
      NamesResolved(s.schemaVersion, m, q);
      RecordedNames(q, s.schemaVersion, m, ds, ms, f);
      JoinsExactly(q, s, m, names);
      if ResolveRelationships(s, m, names).Ok? {
        FansExactly(q, s, m, names, ResolveRelationships(s, m, names).value, ms);
      }
    }
  }

  lemma NamesResolved(version: string, m: Model, q: Query)
    requires ResolveNames(version, m, q).Ok?
    ensures var (ds, ms, f) := ResolveNames(version, m, q).value;
      && ResolveDimensions(m, q.dimensions) == Ok(ds) && ResolveMetrics(version, m, q.metrics) == Ok(ms)
      && ResolveOptionalFilter(m, q.filters) == Ok(f)
  {
    hide ResolveDimensions, ResolveMetrics, ResolveOptionalFilter, CheckOrder, OutputNames;
  }

  /** Every field a validated query reads has its alias. */
  lemma UsedAliased(q: Query, s: Snapshot, v: ValidatedQuery, g: Field)
    requires Accepted(q, s, v) && g in UsedFields(v.dimensions, v.metrics, v.filter)
    ensures Aliased(v.model, Names(v), g)
  {
    hide ResolveDimensions, ResolveMetrics, ResolveOptionalFilter, ResolveRelationships, ResolveAnchor, UsedFields, ResolveRelationship;
    var names := RecordAll([], UsedFields(v.dimensions, v.metrics, v.filter));
    ResolvedNames(s, v.model, names, v.relationships);
    if g.relationship.Some? {
      assert g.relationship.value in names;
      var i :| 0 <= i < |names| && names[i] == g.relationship.value;
      assert ResolveRelationship(s, v.model, names[i]) == Ok(v.relationships[i]);
      RelationshipExactly(s, v.model, names[i]);
    }
  }

  lemma FieldsAliased(q: Query, s: Snapshot, v: ValidatedQuery)
    requires Accepted(q, s, v)
    ensures forall i :: 0 <= i < |v.dimensions| ==> Aliased(v.model, Names(v), v.dimensions[i].field)
    ensures forall i :: 0 <= i < |v.metrics| ==> Aliased(v.model, Names(v), v.metrics[i].field)
    ensures forall i :: 0 <= i < |v.metrics| && v.metrics[i].filter.Some? ==> Aliased(v.model, Names(v), v.metrics[i].filter.value.0)
    ensures v.filter.Some? ==> forall g :: g in FilterFields(v.filter.value) ==> Aliased(v.model, Names(v), g)
  {
    hide Accepted, Aliased, Names, FilterFields, DimensionFields, MetricFields;
    var a, b := DimensionFields(v.dimensions), MetricFields(v.metrics);
    var c := if v.filter.Some? then FilterFields(v.filter.value) else [];
    assert forall g :: g in a + b + c <==> g in a || g in b || g in c;
    assert forall i :: 0 <= i < |v.dimensions| ==> a[i] in a;
    assert forall i :: 0 <= i < |v.metrics| ==> v.metrics[i] in v.metrics;
    forall g | g in UsedFields(v.dimensions, v.metrics, v.filter)
      ensures Aliased(v.model, Names(v), g)
    {
      UsedAliased(q, s, v, g);
    }
  }

  lemma AnchorAliased(q: Query, s: Snapshot, v: ValidatedQuery, names: seq<string>)
    requires Accepted(q, s, v) && v.anchor.Some?
    ensures Aliased(v.model, names, v.anchor.value)
  {
    hide ResolveDimensions, ResolveMetrics, ResolveMetric, ResolveOptionalFilter, ResolveRelationships, RecordAll, UsedFields, Fanout;
    var x :| x in v.metrics && x.anchor == v.anchor;
    var i :| 0 <= i < |v.metrics| && v.metrics[i] == x;
    assert ResolveMetric(s.schemaVersion, v.model, q.metrics[i]) == Ok(x);
    MetricExactly(s.schemaVersion, v.model, q.metrics[i]);
  }

  lemma AcceptedParts(q: Query, s: Snapshot, v: ValidatedQuery)
    requires Accepted(q, s, v)
    ensures ResolveDimensions(v.model, q.dimensions) == Ok(v.dimensions)
    ensures q.filters.None? <==> v.filter.None?
    ensures q.filters.Some? ==> ResolveFilter(v.model, q.filters.value) == Ok(v.filter.value)
  {
  }

  /** A validated query can be rendered exactly if no timezone is missing. */
  lemma RendersExactly(q: Query, s: Snapshot, v: ValidatedQuery)
    requires Accepted(q, s, v)
    ensures RenderPlan(v).Ok? <==> ZonesServed(v.model, q)
    ensures RenderPlan(v).Err? ==> ZonesRefused(v.model, q, RenderPlan(v).error)
  {
    hide Accepted, Aliased, All, FirstFails, Leaves, RenderDimensions, RenderMetrics, RenderField, RenderFilter, NamesOf, ResolveDimensions, ResolveFilter, JoinColumns, JoinsOf, FilterFields;
    var names, st := Names(v), RenderState([], {});
    FieldsAliased(q, s, v);
    AcceptedParts(q, s, v);
    DimensionsRender(v.model, names, q.dimensions, v.dimensions, st);
    var ds := RenderDimensions(v.model, names, v.dimensions, st);
    if ds.Ok? {
      var before := ds.value.state;
      if v.anchor.Some? {
        AnchorAliased(q, s, v, names);
        FieldRenders(v.model, names, v.anchor.value, before);
        before := RenderField(v.model, names, v.anchor.value, before).value.state;
      }
      MetricsRender(v.model, names, v.metrics, v.anchor.Some?, before);
      var ms := RenderMetrics(v.model, names, v.metrics, v.anchor.Some?, before).value;
      if v.filter.Some? {
        FilterRenders(v.model, names, q.filters.value, v.filter.value, ms.state.(columns := ms.state.columns + JoinColumns(v.model, v.relationships)));
      }
    }
  }

  // ----- the compiler -----

  /** The first model under the name that may be queried. */
  ghost predicate FirstQueryable(models: seq<Model>, name: string, i: nat) {
    && i < |models| && models[i].semanticName == name && models[i].queryable
    && forall j :: 0 <= j < i ==> models[j].semanticName != name || !models[j].queryable
  }

  lemma {:induction false} QueryableExactly(models: seq<Model>, name: string)
    ensures FindQueryable(models, name).Some? ==> exists i: nat :: FirstQueryable(models, name, i) && FindQueryable(models, name).value == models[i]
    ensures FindQueryable(models, name).None? ==> forall i: nat :: !FirstQueryable(models, name, i)
  {
    if models != [] {
      if models[0].semanticName == name && models[0].queryable {
        assert FirstQueryable(models, name, 0);
      } else {
        QueryableExactly(models[1..], name);
        if FindQueryable(models, name).Some? {
          var i: nat :| FirstQueryable(models[1..], name, i) && FindQueryable(models, name).value == models[1..][i];
          assert forall j :: 0 < j <= i ==> models[j] == models[1..][j - 1];
          assert FirstQueryable(models, name, i + 1);
        }
      }
    }
  }

  ghost predicate RevisionStands(s: Snapshot, hash: Snapshot -> string) {
    HashText(s.revisionHash) && hash(Normalized(s).(revisionHash := "")) == s.revisionHash
  }

  ghost predicate LimitsStand(options: CompilerOptions) {
    0 < options.defaultLimit <= options.hardLimit
  }

  /** The asked limit, or the default one if none is asked. */
  ghost predicate LimitAllowed(q: Query, options: CompilerOptions) {
    match q.limit
    case Some(n) => n <= options.hardLimit
    case None => true
  }

  /** What a query must be to compile. */
  ghost predicate Compilable(q: Query, s: Snapshot, options: CompilerOptions, hash: Snapshot -> string) {
    && (s.schemaVersion == "1" || s.schemaVersion == "2") && RevisionStands(s, hash) && LimitsStand(options) && LimitAllowed(q, options)
    && exists i: nat :: FirstQueryable(s.models, q.model, i) && ModelServes(s, s.models[i], q)
  }

  /** The error of the first check that fails. */
  ghost predicate CompileRefused(q: Query, s: Snapshot, options: CompilerOptions, hash: Snapshot -> string, e: CompileError) {
    if s.schemaVersion != "1" && s.schemaVersion != "2" then e == UnsupportedSnapshotVersion(s.schemaVersion)
    else if !RevisionStands(s, hash) then e == InvalidRevisionHash
    else if !LimitsStand(options) then e == InvalidLimitConfiguration
    else if forall i: nat :: !FirstQueryable(s.models, q.model, i) then e == UnknownModel
    else if !LimitAllowed(q, options) then e == LimitExceeded
    else exists i: nat :: FirstQueryable(s.models, q.model, i) && ModelRefuses(s, s.models[i], q, e)
  }

  lemma OneQueryable(models: seq<Model>, name: string, i: nat, j: nat)
    requires FirstQueryable(models, name, i) && FirstQueryable(models, name, j)
    ensures i == j
  {
  }

  lemma ServesExactly(q: Query, s: Snapshot, m: Model, limit: nat)
    requires m in s.models
    ensures var v := ValidateFor(q, s, m, limit);
      && (ModelServes(s, m, q) <==> v.Ok? && Render(v.value).Ok?)
      && (v.Err? ==> ModelRefuses(s, m, q, v.error))
      && (v.Ok? && Render(v.value).Err? ==> ModelRefuses(s, m, q, Render(v.value).error))
  {
    hide ValidateFor, RenderPlan, NamesServed, RelationshipsServed, FansServed, ZonesServed, NamesRefused, RelationshipsRefused, FansRefused, ZonesRefused, Accepted;
    ValidatesExactly(q, s, m, limit);
    var v := ValidateFor(q, s, m, limit);
    if v.Ok? {
      ValidateForAccepts(q, s, m, limit, v.value);
      RendersExactly(q, s, v.value);
    }
  }

  /** A query compiles exactly if it is compilable, and otherwise the first failing check is reported. */
  lemma CompilesExactly(q: Query, s: Snapshot, options: CompilerOptions, hash: Snapshot -> string)
    ensures Compile(q, s, options, hash).Ok? <==> Compilable(q, s, options, hash)
    ensures Compile(q, s, options, hash).Err? ==> CompileRefused(q, s, options, hash, Compile(q, s, options, hash).error)
  {
    hide ValidateFor, Render, ModelServes, ModelRefuses, FindQueryable, Normalized, IsSha256, HashText;
    HashTextExactly(s.revisionHash);
    QueryableExactly(s.models, q.model);
    var found := FindQueryable(s.models, q.model);
    if found.Some? {
      var i: nat :| FirstQueryable(s.models, q.model, i) && found.value == s.models[i];
      forall j: nat | FirstQueryable(s.models, q.model, j)
        ensures j == i
      {
        OneQueryable(s.models, q.model, i, j);
      }
      ServesExactly(q, s, found.value, LimitOf(q, options));
    }
  }
}
