/** The query compiler: validation against a published snapshot, then rendering to one of two plans. */
module Compiler {
  import opened Prelude
  import opened Order
  import opened Semantic
  import opened Snapshots
  import opened Relational

  datatype CompilerOptions = CompilerOptions(defaultLimit: nat, hardLimit: nat)

  datatype CompileError =
    | UnsupportedSnapshotVersion(version: string)
    | InvalidRevisionHash
    | UnknownModel
    | UnknownField(name: string)
    | UnknownMetric(name: string)
    | HiddenField(name: string)
    | HiddenMetric(name: string)
    | InvalidTimeGrain(name: string)
    | LiteralTypeMismatch(name: string)
    | UnknownOrderReference(name: string)
    | UnknownRelationship(name: string)
    | UnsafeRelationship(name: string)
    | MissingMetricMetadata(name: string)
    | InvalidAggregationAnchor(name: string)
    | MissingAggregationAnchor(name: string)
    | MixedAggregationAnchors
    | JoinedMetricFilter(name: string)
    | UnsupportedFanoutAdditivity(name: string)
    | InvalidMetricField(name: string)
    | JoinedMetricField(name: string)
    | CountDistinctRequiresEntityKey(name: string)
    | CountRequiresEntityKey(name: string)
    | InvalidMetricType(name: string)
    | InvalidRelationshipTarget(name: string)
    | RelationshipTargetNotEntityKey(name: string)
    | MissingTimezone(name: string)
    | InvalidLimitConfiguration
    | LimitExceeded

  datatype ResolvedDimension = ResolvedDimension(field: Field, timeGrain: Option<TimeGrain>)

  datatype ResolvedMetric = ResolvedMetric(
    metric: Metric,
    field: Field,
    filter: Option<(Field, Literal)>,
    anchor: Option<Field>)

  datatype ResolvedFilter =
    | RAnd(args: seq<ResolvedFilter>)
    | ROr(args: seq<ResolvedFilter>)
    | RNot(arg: ResolvedFilter)
    | RCompare(operator: ComparisonOperator, field: Field, value: Literal)
    | RIn(field: Field, values: seq<Literal>)
    | RIsNull(field: Field)
    | RIsNotNull(field: Field)

  /** Relationships are kept in name order, as the ordered map of the source holds them. */
  datatype ValidatedQuery = ValidatedQuery(
    model: Model,
    dimensions: seq<ResolvedDimension>,
    metrics: seq<ResolvedMetric>,
    filter: Option<ResolvedFilter>,
    orderBy: seq<OrderBy>,
    relationships: seq<Relationship>,
    anchor: Option<Field>,
    limit: nat)

  // ----- validation -----

  function ResolveField(model: Model, name: string): Result<Field, CompileError> {
    match Lookup(model.fields, FieldName, name)
    case Some(f) => Ok(f)
    case None => Err(UnknownField(name))
  }

  function VisibleField(model: Model, name: string): Result<Field, CompileError> {
    var field :- ResolveField(model, name);
    if field.visible then Ok(field) else Err(HiddenField(name))
  }

  predicate LiteralFits(t: DataType, l: Literal) {
    match t
    case BooleanType => l.BooleanLiteral?
    case IntegerType => l.IntegerLiteral?
    case NumericType => l.IntegerLiteral? || l.NumericLiteral?
    case TextType => l.TextLiteral?
    case DateType => l.DateLiteral?
    case TimestampType => l.TimestampLiteral?
    case TimestampTzType => l.DateLiteral? || l.TimestampLiteral?
  }

  function ResolveDimension(model: Model, d: Dimension): Result<ResolvedDimension, CompileError> {
    var field :- VisibleField(model, d.field);
    if d.timeGrain.Some?
       && (!field.timeDimension || field.dataType !in {DateType, TimestampType, TimestampTzType})
    then Err(InvalidTimeGrain(d.field))
    else Ok(ResolvedDimension(field, d.timeGrain))
  }

  function ResolveDimensions(model: Model, ds: seq<Dimension>): (r: Result<seq<ResolvedDimension>, CompileError>)
    ensures r.Ok? ==> |r.value| == |ds|
    ensures r.Ok? ==> forall i :: 0 <= i < |ds| ==> ResolveDimension(model, ds[i]) == Ok(r.value[i])
  {
    if ds == [] then Ok([])
    else
      var d :- ResolveDimension(model, ds[0]);
      var rest :- ResolveDimensions(model, ds[1..]);
      Ok([d] + rest)
  }

  function ExpectedMetricType(a: Aggregation, t: DataType): DataType {
    match a
    case Count => IntegerType
    case CountDistinct => IntegerType
    case Avg => NumericType
    case Sum => if t == IntegerType then NumericType else t
    case Min => t
    case Max => t
  }

  function ResolveMetricFilter(model: Model, metric: Metric): Result<Option<(Field, Literal)>, CompileError> {
    match metric.filter
    case None => Ok(None)
    case Some(f) =>
      match Lookup(model.fields, FieldName, f.field)
      case None => Err(InvalidMetricField(metric.semanticName))
      case Some(field) =>
        if LiteralFits(field.dataType, f.value) then Ok(Some((field, f.value)))
        else Err(LiteralTypeMismatch(field.semanticName))
  }

  function ResolveMetricAnchor(model: Model, metric: Metric): Result<Option<Field>, CompileError> {
    match metric.aggregationAnchor
    case None => Ok(None)
    case Some(name) =>
      match Lookup(model.fields, FieldName, name)
      case None => Err(InvalidAggregationAnchor(metric.semanticName))
      case Some(field) =>
        if field.relationship.Some? || !field.entityKey then Err(InvalidAggregationAnchor(metric.semanticName))
        else Ok(Some(field))
  }

  /** Version 1 metrics carry no additivity or anchor, version 2 metrics declare additivity. */
  function CheckMetadata(version: string, metric: Metric): Result<(), CompileError> {
    if version == "1" && (metric.additivity.Some? || metric.aggregationAnchor.Some?)
    then Err(InvalidAggregationAnchor(metric.semanticName))
    else if version == "2" && metric.additivity.None? then Err(MissingMetricMetadata(metric.semanticName))
    else Ok(())
  }

  function CheckMetricField(metric: Metric, field: Field): Result<(), CompileError> {
    if field.relationship.Some? then Err(JoinedMetricField(metric.semanticName))
    else if metric.aggregation == Count && !field.entityKey then Err(CountRequiresEntityKey(metric.semanticName))
    else if metric.aggregation == CountDistinct && !field.entityKey then Err(CountDistinctRequiresEntityKey(metric.semanticName))
    else if metric.dataType != ExpectedMetricType(metric.aggregation, field.dataType) then Err(InvalidMetricType(metric.semanticName))
    else Ok(())
  }

  function ResolveMetric(version: string, model: Model, name: string): Result<ResolvedMetric, CompileError> {
    match Lookup(model.metrics, MetricName, name)
    case None => Err(UnknownMetric(name))
    case Some(metric) =>
      if !metric.visible then Err(HiddenMetric(name))
      else match Lookup(model.fields, FieldName, metric.field)
        case None => Err(InvalidMetricField(metric.semanticName))
        case Some(field) =>
          var _ :- CheckMetricField(metric, field);
          var filter :- ResolveMetricFilter(model, metric);
          var _ :- CheckMetadata(version, metric);
          var anchor :- ResolveMetricAnchor(model, metric);
          Ok(ResolvedMetric(metric, field, filter, anchor))
  }

  function ResolveMetrics(version: string, model: Model, names: seq<string>): (r: Result<seq<ResolvedMetric>, CompileError>)
    ensures r.Ok? ==> |r.value| == |names|
    ensures r.Ok? ==> forall i :: 0 <= i < |names| ==> ResolveMetric(version, model, names[i]) == Ok(r.value[i])
  {
    if names == [] then Ok([])
    else
      var m :- ResolveMetric(version, model, names[0]);
      var rest :- ResolveMetrics(version, model, names[1..]);
      Ok([m] + rest)
  }

  function CheckLiterals(field: Field, values: seq<Literal>): (r: Result<(), CompileError>)
    ensures r.Ok? <==> forall l :: l in values ==> LiteralFits(field.dataType, l)
  {
    if values == [] then Ok(())
    else if LiteralFits(field.dataType, values[0]) then CheckLiterals(field, values[1..])
    else Err(LiteralTypeMismatch(field.semanticName))
  }

  function ResolveFilter(model: Model, f: Filter): Result<ResolvedFilter, CompileError>
    decreases f
  {
    match f
    case And(args) =>
      var rs :- ResolveFilters(model, args);
      Ok(RAnd(rs))
    case Or(args) =>
      var rs :- ResolveFilters(model, args);
      Ok(ROr(rs))
    case Not(arg) =>
      var r :- ResolveFilter(model, arg);
      Ok(RNot(r))
    case Compare(operator, name, value) =>
      var field :- VisibleField(model, name);
      if LiteralFits(field.dataType, value) then Ok(RCompare(operator, field, value))
      else Err(LiteralTypeMismatch(field.semanticName))
    case In(name, values) =>
      var field :- VisibleField(model, name);
      var _ :- CheckLiterals(field, values);
      Ok(RIn(field, values))
    case IsNull(name) =>
      var field :- VisibleField(model, name);
      Ok(RIsNull(field))
    case IsNotNull(name) =>
      var field :- VisibleField(model, name);
      Ok(RIsNotNull(field))
  }

  function ResolveFilters(model: Model, fs: seq<Filter>): Result<seq<ResolvedFilter>, CompileError>
    decreases fs
  {
    if fs == [] then Ok([])
    else
      var r :- ResolveFilter(model, fs[0]);
      var rest :- ResolveFilters(model, fs[1..]);
      Ok([r] + rest)
  }

  function ResolveOptionalFilter(model: Model, f: Option<Filter>): Result<Option<ResolvedFilter>, CompileError> {
    if f.None? then Ok(None)
    else
      var r :- ResolveFilter(model, f.value);
      Ok(Some(r))
  }

  // ----- relationships the query needs -----

  function RecordRelationship(names: seq<string>, field: Field): seq<string> {
    if field.relationship.Some? then AddName(names, field.relationship.value) else names
  }

  function RecordAll(names: seq<string>, fields: seq<Field>): (r: seq<string>)
    ensures forall n :: n in r <==> n in names || exists f :: f in fields && f.relationship == Some(n)
    decreases |fields|
  {
    if fields == [] then names else RecordAll(RecordRelationship(names, fields[0]), fields[1..])
  }

  function DimensionFields(ds: seq<ResolvedDimension>): (r: seq<Field>)
    ensures |r| == |ds| && forall i :: 0 <= i < |ds| ==> r[i] == ds[i].field
  {
    if ds == [] then [] else [ds[0].field] + DimensionFields(ds[1..])
  }

  function MetricFields(ms: seq<ResolvedMetric>): (r: seq<Field>)
    ensures forall f :: f in r <==> exists m :: m in ms && (f == m.field || (m.filter.Some? && f == m.filter.value.0))
  {
    if ms == [] then []
    else [ms[0].field] + (if ms[0].filter.Some? then [ms[0].filter.value.0] else []) + MetricFields(ms[1..])
  }

  function FilterFields(f: ResolvedFilter): seq<Field>
    decreases f
  {
    match f
    case RAnd(args) => AllFilterFields(args)
    case ROr(args) => AllFilterFields(args)
    case RNot(arg) => FilterFields(arg)
    case RCompare(_, field, _) => [field]
    case RIn(field, _) => [field]
    case RIsNull(field) => [field]
    case RIsNotNull(field) => [field]
  }

  function AllFilterFields(fs: seq<ResolvedFilter>): seq<Field>
    decreases fs
  {
    if fs == [] then [] else FilterFields(fs[0]) + AllFilterFields(fs[1..])
  }

  function UsedFields(ds: seq<ResolvedDimension>, ms: seq<ResolvedMetric>, f: Option<ResolvedFilter>): seq<Field> {
    DimensionFields(ds) + MetricFields(ms) + (if f.Some? then FilterFields(f.value) else [])
  }

  predicate HasKeyColumn(fields: seq<Field>, column: string) {
    exists i :: 0 <= i < |fields| && fields[i].column == column && fields[i].relationship.None? && fields[i].entityKey
  }

  function ResolveRelationship(s: Snapshot, model: Model, name: string): Result<Relationship, CompileError> {
    match Lookup(model.relationships, RelationshipName, name)
    case None => Err(UnknownRelationship(name))
    case Some(rel) =>
      if rel.cardinality == ManyToMany then Err(UnsafeRelationship(name))
      else match Lookup(s.models, ModelName, rel.targetModel)
        case None => Err(InvalidRelationshipTarget(rel.semanticName))
        case Some(target) =>
          if target.source != rel.target then Err(InvalidRelationshipTarget(rel.semanticName))
          else if rel.cardinality != OneToMany then
            if HasKeyColumn(target.fields, rel.toColumn) then Ok(rel)
            else Err(RelationshipTargetNotEntityKey(rel.semanticName))
          else if HasKeyColumn(model.fields, rel.fromColumn) then Ok(rel)
          else Err(InvalidAggregationAnchor(rel.semanticName))
  }

  function ResolveRelationships(s: Snapshot, model: Model, names: seq<string>): (r: Result<seq<Relationship>, CompileError>)
    ensures r.Ok? ==> |r.value| == |names|
    ensures r.Ok? ==> forall i :: 0 <= i < |names| ==> ResolveRelationship(s, model, names[i]) == Ok(r.value[i])
  {
    if names == [] then Ok([])
    else
      var rel :- ResolveRelationship(s, model, names[0]);
      var rest :- ResolveRelationships(s, model, names[1..]);
      Ok([rel] + rest)
  }

  /** The first one-to-many relationship, in name order. */
  function Fanout(rels: seq<Relationship>): (r: Option<Relationship>)
    ensures r.None? <==> forall rel :: rel in rels ==> rel.cardinality != OneToMany
  {
    if rels == [] then None
    else if rels[0].cardinality == OneToMany then Some(rels[0])
    else Fanout(rels[1..])
  }

  /** What the anchor loop computes from the anchor it has reached so far. */
  function AnchorFrom(ms: seq<ResolvedMetric>, reached: Option<Field>): (r: Result<Option<Field>, CompileError>)
    ensures r.Ok? && ms != [] ==> r.value.Some?
    ensures r.Ok? ==> forall m :: m in ms ==>
      && m.anchor.Some? && m.anchor.value.semanticName == r.value.value.semanticName
      && (m.filter.Some? ==> m.filter.value.0.relationship.None?)
      && m.metric.additivity != Some(SemiAdditive)
    ensures r.Ok? && reached.Some? ==> r.value.Some? && r.value.value.semanticName == reached.value.semanticName
    ensures r.Ok? && r.value.Some? ==> r.value == reached || exists m :: m in ms && m.anchor == r.value
  {
    if ms == [] then Ok(reached)
    else
      var m := ms[0];
      if m.anchor.None? then Err(MissingAggregationAnchor(m.metric.semanticName))
      else if m.filter.Some? && m.filter.value.0.relationship.Some? then Err(JoinedMetricFilter(m.metric.semanticName))
      else if m.metric.additivity == Some(SemiAdditive) then Err(UnsupportedFanoutAdditivity(m.metric.semanticName))
      else if reached.Some? && reached.value.semanticName != m.anchor.value.semanticName then Err(MixedAggregationAnchors)
      else AnchorFrom(ms[1..], m.anchor)
  }

  lemma AnchorStep(ms: seq<ResolvedMetric>, i: nat)
    requires i < |ms|
    ensures ms[i..][0] == ms[i] && ms[i..][1..] == ms[i + 1..]
  {
  }

  /** The loop over the projected metrics that settles their common anchor. */
  method SelectAnchor(ms: seq<ResolvedMetric>) returns (r: Result<Option<Field>, CompileError>)
    ensures r == AnchorFrom(ms, None)
  {
    var anchorName: Option<string> := None;
    var anchorField: Option<Field> := None;
    var i := 0;
    while i < |ms|
      invariant 0 <= i <= |ms|
      invariant anchorName == (if anchorField.Some? then Some(anchorField.value.semanticName) else None)
      invariant AnchorFrom(ms, None) == AnchorFrom(ms[i..], anchorField)
    {
      var m := ms[i];
      AnchorStep(ms, i);
      if m.anchor.None? {
        return Err(MissingAggregationAnchor(m.metric.semanticName));
      }
      if m.filter.Some? && m.filter.value.0.relationship.Some? {
        return Err(JoinedMetricFilter(m.metric.semanticName));
      }
      if m.metric.additivity == Some(SemiAdditive) {
        return Err(UnsupportedFanoutAdditivity(m.metric.semanticName));
      }
      if anchorName.Some? && anchorName.value != m.anchor.value.semanticName {
        return Err(MixedAggregationAnchors);
      }
      anchorName := Some(m.anchor.value.semanticName);
      anchorField := m.anchor;
      i := i + 1;
    }
    return Ok(anchorField);
  }

  function ResolveAnchor(rels: seq<Relationship>, ms: seq<ResolvedMetric>): Result<Option<Field>, CompileError> {
    match Fanout(rels)
    case None => Ok(None)
    case Some(rel) => if ms == [] then Err(UnsafeRelationship(rel.semanticName)) else AnchorFrom(ms, None)
  }

  function CheckOrder(projected: seq<string>, orderBy: seq<OrderBy>): Result<(), CompileError> {
    if orderBy == [] then Ok(())
    else if orderBy[0].outputReference in projected then CheckOrder(projected, orderBy[1..])
    else Err(UnknownOrderReference(orderBy[0].outputReference))
  }

  function FindQueryable(models: seq<Model>, name: string): (r: Option<Model>)
    ensures r.Some? ==> r.value in models && r.value.semanticName == name && r.value.queryable
    ensures r.None? ==> forall m :: m in models ==> m.semanticName != name || !m.queryable
  {
    if models == [] then None
    else if models[0].semanticName == name && models[0].queryable then Some(models[0])
    else FindQueryable(models[1..], name)
  }

  function CheckSnapshot(s: Snapshot, hash: Snapshot -> string): Result<(), CompileError> {
    if s.schemaVersion != "1" && s.schemaVersion != "2" then Err(UnsupportedSnapshotVersion(s.schemaVersion))
    else if !RevisionHashHolds(s, hash) then Err(InvalidRevisionHash)
    else Ok(())
  }

  /** The requested limit, or the default one. */
  function LimitOf(q: Query, options: CompilerOptions): nat {
    if q.limit.Some? then q.limit.value else options.defaultLimit
  }

  function Validate(q: Query, s: Snapshot, options: CompilerOptions, hash: Snapshot -> string): Result<ValidatedQuery, CompileError> {
    var _ :- CheckSnapshot(s, hash);
    if options.defaultLimit == 0 || options.hardLimit == 0 || options.defaultLimit > options.hardLimit
    then Err(InvalidLimitConfiguration)
    else match FindQueryable(s.models, q.model)
      case None => Err(UnknownModel)
      case Some(model) =>
        if LimitOf(q, options) > options.hardLimit then Err(LimitExceeded)
        else ValidateFor(q, s, model, LimitOf(q, options))
  }

  function ValidateFor(q: Query, s: Snapshot, model: Model, limit: nat): Result<ValidatedQuery, CompileError> {
    var dimensions :- ResolveDimensions(model, q.dimensions);
    var metrics :- ResolveMetrics(s.schemaVersion, model, q.metrics);
    var filter :- ResolveOptionalFilter(model, q.filters);
    var _ :- CheckOrder(DimensionNames(q.dimensions) + q.metrics, q.orderBy);
    var relationships :- ResolveRelationships(s, model, RecordAll([], UsedFields(dimensions, metrics, filter)));
    var anchor :- ResolveAnchor(relationships, metrics);
    Ok(ValidatedQuery(model, dimensions, metrics, filter, q.orderBy, relationships, anchor, limit))
  }

  // ----- rendering -----

  /** Bound parameters so far, and the source columns the statement mentions. */
  datatype RenderState = RenderState(parameters: seq<CompiledParameter>, columns: set<string>)

  datatype Rendered<+T> = Rendered(item: T, state: RenderState)

  function FindParameter(ps: seq<CompiledParameter>, t: DataType, l: Literal): (r: Option<CompiledParameter>)
    ensures r.Some? ==> r.value in ps && r.value.dataType == t && r.value.value == l
    ensures r.None? ==> forall p :: p in ps ==> p.dataType != t || p.value != l
  {
    if ps == [] then None
    else if ps[0].dataType == t && ps[0].value == l then Some(ps[0])
    else FindParameter(ps[1..], t, l)
  }

  /** Reuses the parameter with the same type and value, or binds a new one. */
  function PushParameter(st: RenderState, t: DataType, l: Literal): Rendered<nat> {
    match FindParameter(st.parameters, t, l)
    case Some(p) => Rendered(p.position, st)
    case None =>
      var position := |st.parameters| + 1;
      Rendered(position, st.(parameters := st.parameters + [CompiledParameter(position, t, l)]))
  }

  function SourceColumn(r: Relation, column: string): string {
    r.schema + "." + r.relation + "." + column
  }

  /** Aliases: t0 is the model's source, t{i+1} the i-th relationship in name order. */
  function RenderField(model: Model, names: seq<string>, field: Field, st: RenderState): Result<Rendered<Expr>, CompileError> {
    match field.relationship
    case None => Ok(Rendered(Column(0, field.column), st.(columns := st.columns + {SourceColumn(model.source, field.column)})))
    case Some(name) =>
      match Lookup(model.relationships, RelationshipName, name)
      case None => Err(UnknownRelationship(name))
      case Some(rel) =>
        if name !in names then Err(UnknownRelationship(name))
        else Ok(Rendered(Column(IndexOf(names, name) + 1, field.column),
                         st.(columns := st.columns + {SourceColumn(rel.target, field.column)})))
  }

  function RenderDimension(model: Model, names: seq<string>, d: ResolvedDimension, st: RenderState): Result<Rendered<Expr>, CompileError> {
    var f :- RenderField(model, names, d.field, st);
    if d.timeGrain.None? then Ok(f)
    else if d.field.dataType == TimestampTzType then
      if model.timezone.None? then Err(MissingTimezone(d.field.semanticName))
      else
        var zone := PushParameter(f.state, TextType, TextLiteral(model.timezone.value));
        Ok(Rendered(LocalTrunc(d.timeGrain.value, zone.item, f.item), zone.state))
    else Ok(Rendered(Trunc(d.timeGrain.value, f.item), f.state))
  }

  function RenderDimensions(model: Model, names: seq<string>, ds: seq<ResolvedDimension>, st: RenderState): Result<Rendered<seq<Expr>>, CompileError> {
    if ds == [] then Ok(Rendered([], st))
    else
      var d :- RenderDimension(model, names, ds[0], st);
      var rest :- RenderDimensions(model, names, ds[1..], d.state);
      Ok(Rendered([d.item] + rest.item, rest.state))
  }

  /** The field of a metric and, if it is filtered, the two sides of its filter. */
  function RenderMetricParts(model: Model, names: seq<string>, m: ResolvedMetric, st: RenderState): Result<Rendered<(Expr, Option<(Expr, Expr)>)>, CompileError> {
    var f :- RenderField(model, names, m.field, st);
    match m.filter
    case None => Ok(Rendered((f.item, None), f.state))
    case Some((filterField, value)) =>
      var g :- RenderField(model, names, filterField, f.state);
      var p := PushParameter(g.state, filterField.dataType, value);
      Ok(Rendered((f.item, Some((g.item, Param(p.item, filterField.dataType)))), p.state))
  }

  /** agg(field) FILTER (WHERE g = $p) */
  function RenderMetric(model: Model, names: seq<string>, m: ResolvedMetric, st: RenderState): Result<Rendered<AggregateExpr>, CompileError> {
    var parts :- RenderMetricParts(model, names, m, st);
    Ok(Rendered(AggregateExpr(m.metric.aggregation, parts.item.0, parts.item.1), parts.state))
  }

  /** max(CASE WHEN g = $p THEN field END) */
  function RenderMetricInput(model: Model, names: seq<string>, m: ResolvedMetric, st: RenderState): Result<Rendered<AggregateExpr>, CompileError> {
    var parts :- RenderMetricParts(model, names, m, st);
    var input := match parts.item.1
      case None => parts.item.0
      case Some((l, r)) => CaseEqual(l, r, parts.item.0);
    Ok(Rendered(AggregateExpr(Max, input, None), parts.state))
  }

  function RenderMetrics(model: Model, names: seq<string>, ms: seq<ResolvedMetric>, anchored: bool, st: RenderState): Result<Rendered<seq<AggregateExpr>>, CompileError> {
    if ms == [] then Ok(Rendered([], st))
    else
      var m :- if anchored then RenderMetricInput(model, names, ms[0], st) else RenderMetric(model, names, ms[0], st);
      var rest :- RenderMetrics(model, names, ms[1..], anchored, m.state);
      Ok(Rendered([m.item] + rest.item, rest.state))
  }

  function LiteralType(l: Literal): DataType {
    match l
    case TextLiteral(_) => TextType
    case BooleanLiteral(_) => BooleanType
    case IntegerLiteral(_) => IntegerType
    case NumericLiteral(_) => NumericType
    case DateLiteral(_) => DateType
    case TimestampLiteral(_) => TimestampTzType
  }

  function RenderOptions(t: DataType, values: seq<Literal>, st: RenderState): Rendered<seq<Expr>> {
    if values == [] then Rendered([], st)
    else
      var p := PushParameter(st, t, values[0]);
      var rest := RenderOptions(t, values[1..], p.state);
      Rendered([Param(p.item, t)] + rest.item, rest.state)
  }

  /** A date against a timestamptz field means the start of that day in the model's timezone. */
  function RenderComparand(model: Model, field: Field, value: Literal, st: RenderState): Result<Rendered<Expr>, CompileError> {
    if field.dataType == TimestampTzType && value.DateLiteral? then
      if model.timezone.None? then Err(MissingTimezone(field.semanticName))
      else
        var zone := PushParameter(st, TextType, TextLiteral(model.timezone.value));
        var day := PushParameter(zone.state, LiteralType(value), value);
        Ok(Rendered(DayStart(zone.item, day.item), day.state))
    else
      var p := PushParameter(st, field.dataType, value);
      Ok(Rendered(Param(p.item, field.dataType), p.state))
  }

  function RenderFilter(model: Model, names: seq<string>, f: ResolvedFilter, st: RenderState): Result<Rendered<Pred>, CompileError>
    decreases f
  {
    match f
    case RAnd(args) =>
      var rs :- RenderFilters(model, names, args, st);
      Ok(Rendered(PAnd(rs.item), rs.state))
    case ROr(args) =>
      var rs :- RenderFilters(model, names, args, st);
      Ok(Rendered(POr(rs.item), rs.state))
    case RNot(arg) =>
      var r :- RenderFilter(model, names, arg, st);
      Ok(Rendered(PNot(r.item), r.state))
    case RCompare(operator, field, value) =>
      var e :- RenderField(model, names, field, st);
      var c :- RenderComparand(model, field, value, e.state);
      Ok(Rendered(PCompare(operator, e.item, c.item), c.state))
    case RIn(field, values) =>
      var e :- RenderField(model, names, field, st);
      var options := RenderOptions(field.dataType, values, e.state);
      Ok(Rendered(PIn(e.item, options.item), options.state))
    case RIsNull(field) =>
      var e :- RenderField(model, names, field, st);
      Ok(Rendered(PIsNull(e.item), e.state))
    case RIsNotNull(field) =>
      var e :- RenderField(model, names, field, st);
      Ok(Rendered(PIsNotNull(e.item), e.state))
  }

  function RenderFilters(model: Model, names: seq<string>, fs: seq<ResolvedFilter>, st: RenderState): Result<Rendered<seq<Pred>>, CompileError>
    decreases fs
  {
    if fs == [] then Ok(Rendered([], st))
    else
      var r :- RenderFilter(model, names, fs[0], st);
      var rest :- RenderFilters(model, names, fs[1..], r.state);
      Ok(Rendered([r.item] + rest.item, rest.state))
  }

  function JoinOf(rel: Relationship): Join {
    Join(rel.joinType, rel.target, rel.fromColumn, rel.toColumn)
  }

  function JoinsOf(rels: seq<Relationship>): (r: seq<Join>)
    ensures |r| == |rels| && forall i :: 0 <= i < |rels| ==> r[i] == JoinOf(rels[i])
  {
    if rels == [] then [] else [JoinOf(rels[0])] + JoinsOf(rels[1..])
  }

  function JoinColumns(model: Model, rels: seq<Relationship>): set<string> {
    if rels == [] then {}
    else {SourceColumn(model.source, rels[0].fromColumn), SourceColumn(rels[0].target, rels[0].toColumn)} + JoinColumns(model, rels[1..])
  }

  function NamesOf(rels: seq<Relationship>): (r: seq<string>)
    ensures |r| == |rels| && forall i :: 0 <= i < |rels| ==> r[i] == rels[i].semanticName
  {
    if rels == [] then [] else [rels[0].semanticName] + NamesOf(rels[1..])
  }

  lemma ResolvedRelationshipName(s: Snapshot, model: Model, name: string)
    requires ResolveRelationship(s, model, name).Ok?
    ensures ResolveRelationship(s, model, name).value.semanticName == name
  {
  }

  /** Relationships are resolved under their own names, in order. */
  lemma ResolvedNames(s: Snapshot, model: Model, names: seq<string>, rels: seq<Relationship>)
    requires ResolveRelationships(s, model, names) == Ok(rels)
    ensures NamesOf(rels) == names
  {
    hide NamesOf, ResolveRelationship, ResolveRelationships;
    forall i | 0 <= i < |names|
      ensures names[i] == rels[i].semanticName
    {
      assert ResolveRelationship(s, model, names[i]) == Ok(rels[i]);
      ResolvedRelationshipName(s, model, names[i]);
    }
  }

  function RenderFrom(v: ValidatedQuery, names: seq<string>, st: RenderState): Result<Rendered<Source>, CompileError> {
    var joined := st.(columns := st.columns + JoinColumns(v.model, v.relationships));
    match v.filter
    case None => Ok(Rendered(From(v.model.source, JoinsOf(v.relationships), None), joined))
    case Some(f) =>
      var p :- RenderFilter(v.model, names, f, joined);
      Ok(Rendered(From(v.model.source, JoinsOf(v.relationships), Some(p.item)), p.state))
  }

  function RenderFlat(v: ValidatedQuery, names: seq<string>, st: RenderState): Result<Rendered<Select>, CompileError> {
    var ds :- RenderDimensions(v.model, names, v.dimensions, st);
    var ms :- RenderMetrics(v.model, names, v.metrics, false, ds.state);
    var source :- RenderFrom(v, names, ms.state);
    Ok(Rendered(Select(source.item, ds.item, ms.item), source.state))
  }

  function OuterKeys(count: nat): (r: seq<Expr>)
    ensures |r| == count && forall i :: 0 <= i < count ==> r[i] == Output(i)
  {
    seq(count, i requires 0 <= i < count => Output(i))
  }

  function OuterMetrics(ms: seq<ResolvedMetric>, dimensions: nat): (r: seq<AggregateExpr>)
    ensures |r| == |ms|
    ensures forall i :: 0 <= i < |ms| ==> r[i] == AggregateExpr(ms[i].metric.aggregation, Output(dimensions + 1 + i), None)
  {
    seq(|ms|, i requires 0 <= i < |ms| => AggregateExpr(ms[i].metric.aggregation, Output(dimensions + 1 + i), None))
  }

  /** The inner stage groups by dimensions and anchor, the outer stage applies the declared aggregates. */
  function RenderAnchored(v: ValidatedQuery, anchor: Field, names: seq<string>, st: RenderState): Result<Rendered<Select>, CompileError> {
    var ds :- RenderDimensions(v.model, names, v.dimensions, st);
    var a :- RenderField(v.model, names, anchor, ds.state);
    var ms :- RenderMetrics(v.model, names, v.metrics, true, a.state);
    var source :- RenderFrom(v, names, ms.state);
    var inner := Select(source.item, ds.item + [a.item], ms.item);
    Ok(Rendered(Select(Stage(inner), OuterKeys(|v.dimensions|), OuterMetrics(v.metrics, |v.dimensions|)), source.state))
  }

  datatype OutputColumn = OutputColumn(name: string, dataType: DataType)

  datatype Statement = Statement(query: Select, orderBy: seq<OrderBy>, limit: nat)

  datatype Lineage = Lineage(
    models: seq<string>,
    metrics: seq<string>,
    anchors: seq<(string, string)>,
    relationships: seq<string>,
    sourceColumns: set<string>)

  datatype CompiledQuery = CompiledQuery(
    statement: Statement,
    parameters: seq<CompiledParameter>,
    outputSchema: seq<OutputColumn>,
    lineage: Lineage)

  function DimensionColumns(ds: seq<ResolvedDimension>): seq<OutputColumn> {
    if ds == [] then []
    else [OutputColumn(ds[0].field.semanticName, if ds[0].timeGrain.Some? then DateType else ds[0].field.dataType)]
         + DimensionColumns(ds[1..])
  }

  function MetricColumns(ms: seq<ResolvedMetric>): seq<OutputColumn> {
    if ms == [] then [] else [OutputColumn(ms[0].metric.semanticName, ms[0].metric.dataType)] + MetricColumns(ms[1..])
  }

  function AnchorLineage(ms: seq<ResolvedMetric>): seq<(string, string)> {
    if ms == [] then []
    else (if ms[0].anchor.Some? then [(ms[0].metric.semanticName, ms[0].anchor.value.semanticName)] else []) + AnchorLineage(ms[1..])
  }

  function MetricNames(ms: seq<ResolvedMetric>): seq<string> {
    if ms == [] then [] else [ms[0].metric.semanticName] + MetricNames(ms[1..])
  }

  function ModelLineage(names: seq<string>, rels: seq<Relationship>): seq<string>
    decreases |rels|
  {
    if rels == [] then names else ModelLineage(AddName(names, rels[0].targetModel), rels[1..])
  }

  function LineageOf(v: ValidatedQuery, columns: set<string>): Lineage {
    Lineage(ModelLineage([v.model.semanticName], v.relationships), MetricNames(v.metrics), AnchorLineage(v.metrics),
            NamesOf(v.relationships), columns)
  }

  function RenderPlan(v: ValidatedQuery): Result<Rendered<Select>, CompileError> {
    var names := NamesOf(v.relationships);
    if v.anchor.Some? then RenderAnchored(v, v.anchor.value, names, RenderState([], {}))
    else RenderFlat(v, names, RenderState([], {}))
  }

  function Render(v: ValidatedQuery): Result<CompiledQuery, CompileError> {
    var plan :- RenderPlan(v);
    var limit := PushParameter(plan.state, IntegerType, IntegerLiteral(v.limit));
    Ok(CompiledQuery(
         Statement(plan.item, v.orderBy, limit.item),
         limit.state.parameters,
         DimensionColumns(v.dimensions) + MetricColumns(v.metrics),
         LineageOf(v, limit.state.columns)))
  }

  function Compile(q: Query, s: Snapshot, options: CompilerOptions, hash: Snapshot -> string): Result<CompiledQuery, CompileError> {
    var v :- Validate(q, s, options, hash);
    Render(v)
  }
}
