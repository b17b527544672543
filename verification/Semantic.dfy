/** The published semantic snapshot and the logical query, as parsed trees. */
module Semantic {
  import opened Prelude

  datatype DataType = BooleanType | IntegerType | NumericType | TextType | DateType | TimestampType | TimestampTzType

  datatype Aggregation = Count | CountDistinct | Sum | Min | Max | Avg

  datatype Additivity = Additive | SemiAdditive | NonAdditive

  datatype Cardinality = OneToOne | ManyToOne | OneToMany | ManyToMany

  datatype JoinType = Inner | Left

  datatype Literal =
    | TextLiteral(text: string)
    | BooleanLiteral(flag: bool)
    | IntegerLiteral(number: int)
    | NumericLiteral(digits: string)
    | DateLiteral(day: string)
    | TimestampLiteral(instant: string)

  datatype Relation = Relation(schema: string, relation: string)

  datatype Field = Field(
    semanticName: string,
    dataType: DataType,
    column: string,
    relationship: Option<string>,
    timeDimension: bool,
    entityKey: bool,
    visible: bool,
    nullable: bool)

  datatype WritableField = WritableField(
    field: string,
    nullable: bool,
    requiredOnInsert: bool,
    updatableOnConflict: bool)

  datatype UpsertPolicy = UpsertPolicy(conflictFields: seq<string>)

  datatype WritableModel = WritableModel(
    insert: bool,
    upsert: Option<UpsertPolicy>,
    maxRows: nat,
    maxRequestBytes: nat,
    fields: seq<WritableField>,
    returning: seq<string>)

  datatype MetricFilter = MetricFilter(field: string, value: Literal)

  datatype Metric = Metric(
    semanticName: string,
    dataType: DataType,
    aggregation: Aggregation,
    field: string,
    filter: Option<MetricFilter>,
    additivity: Option<Additivity>,
    aggregationAnchor: Option<string>,
    visible: bool)

  datatype Relationship = Relationship(
    semanticName: string,
    targetModel: string,
    target: Relation,
    cardinality: Cardinality,
    joinType: JoinType,
    fromColumn: string,
    toColumn: string)

  datatype Model = Model(
    semanticName: string,
    source: Relation,
    timezone: Option<string>,
    queryable: bool,
    writable: Option<WritableModel>,
    fields: seq<Field>,
    metrics: seq<Metric>,
    relationships: seq<Relationship>)

  datatype Snapshot = Snapshot(schemaVersion: string, revisionHash: string, models: seq<Model>)

  function FieldName(f: Field): string { f.semanticName }

  function MetricName(m: Metric): string { m.semanticName }

  function RelationshipName(r: Relationship): string { r.semanticName }

  function ModelName(m: Model): string { m.semanticName }

  // ----- logical semantic query -----

  datatype TimeGrain = Day | Week | Month | Quarter | Year

  datatype SortDirection = Asc | Desc

  datatype Dimension = Dimension(field: string, timeGrain: Option<TimeGrain>)

  datatype OrderBy = OrderBy(outputReference: string, direction: SortDirection)

  datatype ComparisonOperator = Eq | NotEq | Gt | Gte | Lt | Lte

  /** The six comparison forms of the wire format differ only in their operator. */
  datatype Filter =
    | And(args: seq<Filter>)
    | Or(args: seq<Filter>)
    | Not(arg: Filter)
    | Compare(operator: ComparisonOperator, field: string, value: Literal)
    | In(field: string, values: seq<Literal>)
    | IsNull(field: string)
    | IsNotNull(field: string)

  datatype Query = Query(
    schemaVersion: string,
    model: string,
    dimensions: seq<Dimension>,
    metrics: seq<string>,
    filters: Option<Filter>,
    orderBy: seq<OrderBy>,
    limit: Option<nat>)

  function DimensionNames(ds: seq<Dimension>): seq<string> {
    if ds == [] then [] else [ds[0].field] + DimensionNames(ds[1..])
  }

  /** What a query projects, dimensions first. */
  function OutputNames(q: Query): seq<string> {
    DimensionNames(q.dimensions) + q.metrics
  }
}
