/**
 Import of OSI semantic models into snapshots, with the catalog as evidence, and their export. Documents
 are parsed trees; descriptions and context, which only lead to warnings, are not part of them.
 */
module Osi {
  import opened Prelude
  import opened Order
  import opened Semantic
  import opened Snapshots
  import Catalog

  // ----- documents -----

  datatype Dialect = AnsiSql | OtherDialect

  datatype OsiExpression = OsiExpression(dialects: seq<(Dialect, string)>)

  datatype OsiField = OsiField(name: string, expression: OsiExpression, isTime: Option<bool>, extended: bool)

  datatype OsiDataset = OsiDataset(
    name: string,
    source: string,
    primaryKey: seq<string>,
    uniqueKeys: seq<seq<string>>,
    fields: seq<OsiField>,
    extended: bool)

  datatype OsiRelationship = OsiRelationship(
    name: string,
    from: string,
    to: string,
    fromColumns: seq<string>,
    toColumns: seq<string>,
    extended: bool)

  datatype OsiMetric = OsiMetric(name: string, expression: OsiExpression, extended: bool)

  datatype OsiModel = OsiModel(
    name: string,
    datasets: seq<OsiDataset>,
    relationships: seq<OsiRelationship>,
    metrics: seq<OsiMetric>,
    extended: bool)

  datatype OsiDocument = OsiDocument(models: seq<OsiModel>, extended: bool)

  datatype OsiError =
    | AmbiguousSemanticModel
    | SemanticModelNotFound
    | InvalidIdentifier(value: string)
    | DuplicateName(kind: string, name: string)
    | UnsupportedExtension
    | UnsupportedUniqueKeys
    | InvalidSource
    | DatabaseMismatch
    | RelationNotFound
    | RelationNotSelectable
    | UnsupportedExpression
    | UnsupportedPostgresType(value: string)
    | ColumnNotAvailable
    | InvalidTimeDimension
    | PrimaryKeyMismatch
    | CompositePrimaryKey
    | CompositeRelationship
    | InvalidRelationship
    | UnsupportedMetricExpression
    | CountRequiresEntityKey
    | InvalidCatalog(cause: Catalog.CatalogError)

  // ----- text -----

  function TrimStart(s: string): string {
    if s != "" && IsWhitespace(s[0]) then TrimStart(s[1..]) else s
  }

  function TrimEnd(s: string): string {
    if s != "" && IsWhitespace(s[|s| - 1]) then TrimEnd(s[..|s| - 1]) else s
  }

  function Trim(s: string): string {
    TrimEnd(TrimStart(s))
  }

  predicate Letter(c: char) { 'A' <= c <= 'Z' || 'a' <= c <= 'z' || c == '_' }

  predicate LetterOrDigit(c: char) { Letter(c) || '0' <= c <= '9' }

  /** `portable_identifier`. */
  predicate Portable(s: string) {
    s != "" && Letter(s[0]) && forall i :: 0 <= i < |s| ==> LetterOrDigit(s[i])
  }

  function FirstOf(s: string, c: char): (r: Option<nat>)
    ensures r.Some? ==> r.value < |s| && s[r.value] == c && forall i :: 0 <= i < r.value ==> s[i] != c
    ensures r.None? ==> forall i :: 0 <= i < |s| ==> s[i] != c
  {
    if s == "" then None
    else if s[0] == c then Some(0)
    else match FirstOf(s[1..], c) case None => None case Some(i) => Some(i + 1)
  }

  function Lower(c: char): char {
    if 'A' <= c <= 'Z' then (c as int + 32) as char else c
  }

  function LowerText(s: string): (r: string)
    ensures |r| == |s| && forall i :: 0 <= i < |s| ==> r[i] == Lower(s[i])
  {
    seq(|s|, i requires 0 <= i < |s| => Lower(s[i]))
  }

  predicate SameIgnoringCase(a: string, b: string) {
    |a| == |b| && forall i :: 0 <= i < |a| ==> Lower(a[i]) == Lower(b[i])
  }

  predicate AsciiWhitespace(c: char) { c == ' ' || c == '\t' || c == '\n' || c == '\r' || c as int == 12 }

  // ----- metric expressions -----

  datatype ParsedMetric = ParsedMetric(aggregation: Aggregation, dataset: string, field: string)

  function NamedAggregation(function_: string, distinct: bool): Option<Aggregation> {
    if SameIgnoringCase(function_, "count") then Some(if distinct then CountDistinct else Count)
    else if distinct then None
    else if SameIgnoringCase(function_, "sum") then Some(Sum)
    else if SameIgnoringCase(function_, "min") then Some(Min)
    else if SameIgnoringCase(function_, "max") then Some(Max)
    else if SameIgnoringCase(function_, "avg") then Some(Avg)
    else None
  }

  predicate StartsDistinct(s: string) {
    |s| >= 8 && SameIgnoringCase(s[..8], "distinct")
  }

  function ParseArgument(function_: string, argument: string, distinct: bool): Option<ParsedMetric> {
    match FirstOf(argument, '.')
    case None => None
    case Some(dot) =>
      var dataset, field := argument[..dot], argument[dot + 1..];
      if !Portable(dataset) || !Portable(field) then None
      else match NamedAggregation(function_, distinct)
        case None => None
        case Some(aggregation) => Some(ParsedMetric(aggregation, dataset, field))
  }

  /** `parse_metric_expression`. */
  function ParseMetric(text: string): Option<ParsedMetric> {
    var expression := Trim(text);
    match FirstOf(expression, '(')
    case None => None
    case Some(open) =>
      if expression[|expression| - 1] != ')' then None
      else
        var function_ := Trim(expression[..open]);
        var argument := Trim(expression[open + 1..|expression| - 1]);
        if !StartsDistinct(argument) then ParseArgument(function_, argument, false)
        else if |argument| == 8 || !AsciiWhitespace(argument[8]) then None
        else ParseArgument(function_, Trim(argument[8..]), true)
  }

  function FunctionText(a: Aggregation): string {
    match a
    case Count => "COUNT"
    case CountDistinct => "COUNT"
    case Sum => "SUM"
    case Min => "MIN"
    case Max => "MAX"
    case Avg => "AVG"
  }

  function MetricText(a: Aggregation, dataset: string, field: string): string {
    FunctionText(a) + "(" + (if a == CountDistinct then "DISTINCT " else "") + (dataset + "." + field) + ")"
  }

  // ----- importing datasets -----

  datatype KeyFact = KeyFact(columns: seq<string>, target: Relation, referenced: seq<string>)

  /** A dataset with its own fields and the foreign keys the catalog vouches for. */
  datatype Imported = Imported(name: string, source: Relation, fields: seq<Field>, foreignKeys: seq<KeyFact>)

  function ImportedName(b: Imported): string { b.name }

  function AnsiText(e: OsiExpression): Option<string> {
    if |e.dialects| == 1 && e.dialects[0].0 == AnsiSql then Some(e.dialects[0].1) else None
  }

  function ImportField(f: OsiField, columns: seq<Catalog.Column>, keys: seq<string>, typeOf: string -> Option<DataType>): Result<Field, OsiError> {
    if f.extended then Err(UnsupportedExtension)
    else if AnsiText(f.expression).None? || !Portable(Trim(AnsiText(f.expression).value)) then Err(UnsupportedExpression)
    else
      var name := Trim(AnsiText(f.expression).value);
      match Catalog.Find(columns, Catalog.ColumnKey, [name])
      case None => Err(ColumnNotAvailable)
      case Some(column) =>
        if !column.selectGrant then Err(ColumnNotAvailable)
        else match typeOf(column.dataType)
          case None => Err(UnsupportedPostgresType(LowerText(column.dataType)))
          case Some(t) =>
            var isTime := f.isTime == Some(true);
            if isTime && t != DateType && t != TimestampType then Err(InvalidTimeDimension)
            else Ok(Field(f.name, t, name, None, isTime, name in keys, true, column.nullable))
  }

  function ImportFields(fs: seq<OsiField>, columns: seq<Catalog.Column>, keys: seq<string>, typeOf: string -> Option<DataType>): Result<seq<Field>, OsiError> {
    if fs == [] then Ok([])
    else
      var before :- ImportFields(fs[..|fs| - 1], columns, keys, typeOf);
      var f := fs[|fs| - 1];
      if !Portable(f.name) then Err(InvalidIdentifier(f.name))
      else if Lookup(before, FieldName, f.name).Some? then Err(DuplicateName("field", f.name))
      else
        var field :- ImportField(f, columns, keys, typeOf);
        Ok(before + [field])
  }

  /** `split('.')`. */
  function SplitDots(s: string): (r: seq<string>)
    ensures r != []
    decreases |s|
  {
    match FirstOf(s, '.')
    case None => [s]
    case Some(i) => [s[..i]] + SplitDots(s[i + 1..])
  }

  function ParseSource(source: string, database: string): Result<Relation, OsiError> {
    var parts := SplitDots(source);
    if |parts| != 2 && |parts| != 3 then Err(InvalidSource)
    else
      var schema, relation := parts[|parts| - 2], parts[|parts| - 1];
      if !Portable(schema) || !Portable(relation) then Err(InvalidSource)
      else if |parts| == 3 && parts[0] != database then Err(DatabaseMismatch)
      else Ok(Relation(schema, relation))
  }

  predicate UsableConstraint(c: Catalog.Constraint) {
    c.enforced && !c.period && c.validated
  }

  /** The columns of the validated primary key, or none. */
  function CatalogPrimaryKey(constraints: seq<Catalog.Constraint>): seq<string> {
    if constraints == [] then []
    else if constraints[0].kind.PrimaryKey? && UsableConstraint(constraints[0]) then constraints[0].columns
    else CatalogPrimaryKey(constraints[1..])
  }

  function CatalogForeignKeys(constraints: seq<Catalog.Constraint>): seq<KeyFact> {
    if constraints == [] then []
    else
      var c := constraints[0];
      (if c.kind.ForeignKey? && UsableConstraint(c) then [KeyFact(c.columns, Relation(c.referencedSchema, c.referencedName), c.referencedColumns)] else [])
      + CatalogForeignKeys(constraints[1..])
  }

  predicate KeyCovered(fields: seq<Field>, key: string) {
    exists i :: 0 <= i < |fields| && fields[i].column == key && fields[i].entityKey
  }

  function ImportDataset(d: OsiDataset, catalog: Catalog.Snapshot, typeOf: string -> Option<DataType>): Result<Imported, OsiError> {
    if d.extended then Err(UnsupportedExtension)
    else if d.uniqueKeys != [] then Err(UnsupportedUniqueKeys)
    else
      var source :- ParseSource(d.source, catalog.currentDatabase);
      match Catalog.Find(catalog.relations, Catalog.RelationKey, [source.schema, source.relation])
      case None => Err(RelationNotFound)
      case Some(relation) =>
        if !relation.grants.schemaUsage || (!relation.grants.tableSelect && !relation.grants.anyColumnSelect) then Err(RelationNotSelectable)
        else
          var known := CatalogPrimaryKey(relation.constraints);
          if d.primaryKey != [] && d.primaryKey != known then Err(PrimaryKeyMismatch)
          else if |known| > 1 then Err(CompositePrimaryKey)
          else
            var fields :- ImportFields(d.fields, relation.columns, known, typeOf);
            if |known| == 1 && !KeyCovered(fields, known[0]) then Err(PrimaryKeyMismatch)
            else Ok(Imported(d.name, source, fields, CatalogForeignKeys(relation.constraints)))
  }

  function ImportDatasets(ds: seq<OsiDataset>, catalog: Catalog.Snapshot, typeOf: string -> Option<DataType>): Result<seq<Imported>, OsiError> {
    if ds == [] then Ok([])
    else
      var before :- ImportDatasets(ds[..|ds| - 1], catalog, typeOf);
      var d := ds[|ds| - 1];
      if !Portable(d.name) then Err(InvalidIdentifier(d.name))
      else if Lookup(before, ImportedName, d.name).Some? then Err(DuplicateName("dataset", d.name))
      else
        var b :- ImportDataset(d, catalog, typeOf);
        Ok(before + [b])
  }

  // ----- importing relationships -----

  /** The dataset's own fields, as the ordered map iterates over them. */
  function OwnByName(b: Imported): seq<Field> {
    Sort(b.fields, FieldKey)
  }

  function WithColumn(fields: seq<Field>, column: string): (r: Option<Field>)
    ensures r.Some? ==> r.value in fields && r.value.column == column
  {
    if fields == [] then None else if fields[0].column == column then Some(fields[0]) else WithColumn(fields[1..], column)
  }

  predicate Vouched(keys: seq<KeyFact>, column: string, target: Relation, referenced: string) {
    KeyFact([column], target, [referenced]) in keys
  }

  /** What a relationship becomes; nothing here depends on the other relationships. */
  function MakeRelationship(bases: seq<Imported>, r: OsiRelationship): Result<Relationship, OsiError> {
    if !Portable(r.name) then Err(InvalidIdentifier(r.name))
    else if r.extended then Err(UnsupportedExtension)
    else if |r.fromColumns| != 1 || |r.toColumns| != 1 then Err(CompositeRelationship)
    else match Lookup(bases, ImportedName, r.to)
      case None => Err(InvalidRelationship)
      case Some(to) =>
        var key := WithColumn(OwnByName(to), r.toColumns[0]);
        if key.None? || !key.value.entityKey then Err(InvalidRelationship)
        else match Lookup(bases, ImportedName, r.from)
          case None => Err(InvalidRelationship)
          case Some(from) =>
            if WithColumn(OwnByName(from), r.fromColumns[0]).None? then Err(InvalidRelationship)
            else if !Vouched(from.foreignKeys, r.fromColumns[0], to.source, r.toColumns[0]) then Err(InvalidRelationship)
            else Ok(Relationship(r.name, r.to, to.source, ManyToOne, Left, r.fromColumns[0], r.toColumns[0]))
  }

  function Projected(name: string, f: Field): Field {
    Field(name + "_" + f.semanticName, f.dataType, f.column, Some(name), f.timeDimension, false, true, f.nullable)
  }

  function ProjectedAll(name: string, fs: seq<Field>): (r: seq<Field>)
    ensures |r| == |fs| && forall i :: 0 <= i < |fs| ==> r[i] == Projected(name, fs[i])
  {
    seq(|fs|, i requires 0 <= i < |fs| => Projected(name, fs[i]))
  }

  /** The target's own fields, seen through a relationship. */
  function Projection(bases: seq<Imported>, rel: Relationship): seq<Field> {
    match Lookup(bases, ImportedName, rel.targetModel)
    case None => []
    case Some(to) => ProjectedAll(rel.semanticName, OwnByName(to))
  }

  function Projections(bases: seq<Imported>, rels: seq<Relationship>): seq<Field> {
    if rels == [] then [] else Projections(bases, rels[..|rels| - 1]) + Projection(bases, rels[|rels| - 1])
  }

  /** The relationships of one dataset, in document order. */
  function RelationshipsOf(bases: seq<Imported>, rs: seq<OsiRelationship>, name: string): seq<Relationship> {
    if rs == [] then []
    else
      var r := rs[|rs| - 1];
      RelationshipsOf(bases, rs[..|rs| - 1], name)
      + (if r.from == name && MakeRelationship(bases, r).Ok? then [MakeRelationship(bases, r).value] else [])
  }

  function FieldsOf(bases: seq<Imported>, rs: seq<OsiRelationship>, b: Imported): seq<Field> {
    b.fields + Projections(bases, RelationshipsOf(bases, rs, b.name))
  }

  /** Pushing projected fields one by one, refusing a name that is taken. */
  function PushFields(fields: seq<Field>, more: seq<Field>): Result<seq<Field>, OsiError>
    decreases more
  {
    if more == [] then Ok(fields)
    else if Lookup(fields, FieldName, more[0].semanticName).Some? then Err(InvalidRelationship)
    else PushFields(fields + [more[0]], more[1..])
  }

  function CheckRelationships(bases: seq<Imported>, rs: seq<OsiRelationship>): Result<(), OsiError> {
    if rs == [] then Ok(())
    else
      var before, r := rs[..|rs| - 1], rs[|rs| - 1];
      var _ :- CheckRelationships(bases, before);
      var rel :- MakeRelationship(bases, r);
      var from := Lookup(bases, ImportedName, r.from).value;
      if Lookup(RelationshipsOf(bases, before, r.from), RelationshipName, r.name).Some? then Err(DuplicateName("relationship", r.name))
      else
        var _ :- PushFields(FieldsOf(bases, before, from), Projection(bases, rel));
        Ok(())
  }

  // ----- importing metrics -----

  predicate AggregateSupports(a: Aggregation, t: DataType) {
    match a
    case Count => true
    case CountDistinct => true
    case Sum => t == IntegerType || t == NumericType
    case Avg => t == IntegerType || t == NumericType
    case Min => t != BooleanType
    case Max => t != BooleanType
  }

  function ExpectedType(a: Aggregation, t: DataType): DataType {
    match a
    case Count => IntegerType
    case CountDistinct => IntegerType
    case Avg => NumericType
    case Sum => if t == IntegerType then NumericType else t
    case Min => t
    case Max => t
  }

  datatype OwnedMetric = OwnedMetric(dataset: string, metric: Metric)

  /** The metric and the dataset it belongs to. */
  function MakeMetric(bases: seq<Imported>, m: OsiMetric): Result<OwnedMetric, OsiError> {
    if !Portable(m.name) then Err(InvalidIdentifier(m.name))
    else if m.extended then Err(UnsupportedExtension)
    else if AnsiText(m.expression).None? then Err(UnsupportedExpression)
    else match ParseMetric(AnsiText(m.expression).value)
      case None => Err(UnsupportedMetricExpression)
      case Some(parsed) =>
        match Lookup(bases, ImportedName, parsed.dataset)
        case None => Err(UnsupportedMetricExpression)
        case Some(b) =>
          match Lookup(OwnByName(b), FieldName, parsed.field)
          case None => Err(UnsupportedMetricExpression)
          case Some(field) =>
            if (parsed.aggregation == Count || parsed.aggregation == CountDistinct) && !field.entityKey then Err(CountRequiresEntityKey)
            else if !AggregateSupports(parsed.aggregation, field.dataType) then Err(UnsupportedMetricExpression)
            else Ok(OwnedMetric(parsed.dataset,
                                Metric(m.name, ExpectedType(parsed.aggregation, field.dataType), parsed.aggregation, parsed.field, None, None, None, true)))
  }

  function MetricsOf(bases: seq<Imported>, ms: seq<OsiMetric>, name: string): seq<Metric> {
    if ms == [] then []
    else
      var m := MakeMetric(bases, ms[|ms| - 1]);
      MetricsOf(bases, ms[..|ms| - 1], name) + (if m.Ok? && m.value.dataset == name then [m.value.metric] else [])
  }

  function CheckMetrics(bases: seq<Imported>, ms: seq<OsiMetric>): Result<(), OsiError> {
    if ms == [] then Ok(())
    else
      var before, m := ms[..|ms| - 1], ms[|ms| - 1];
      var _ :- CheckMetrics(bases, before);
      var made :- MakeMetric(bases, m);
      if Lookup(MetricsOf(bases, before, made.dataset), MetricName, m.name).Some? then Err(DuplicateName("metric", m.name)) else Ok(())
  }

  // ----- a whole document -----

  function FinalModel(bases: seq<Imported>, rs: seq<OsiRelationship>, ms: seq<OsiMetric>, b: Imported): Model {
    Model(b.name, b.source, None, true, None, FieldsOf(bases, rs, b), MetricsOf(bases, ms, b.name), RelationshipsOf(bases, rs, b.name))
  }

  function FinalModels(bases: seq<Imported>, rs: seq<OsiRelationship>, ms: seq<OsiMetric>): (r: seq<Model>)
    ensures |r| == |bases| && forall i :: 0 <= i < |bases| ==> r[i] == FinalModel(bases, rs, ms, bases[i])
  {
    seq(|bases|, i requires 0 <= i < |bases| => FinalModel(bases, rs, ms, bases[i]))
  }

  function OsiRelationshipName(r: OsiRelationship): string { r.name }

  function OsiMetricName(m: OsiMetric): string { m.name }

  function OsiModelName(m: OsiModel): string { m.name }

  /** The first element whose name was seen before. */
  function FirstRepeat<T>(xs: seq<T>, nameOf: T -> string): (i: nat)
    requires !UniqueNames(xs, nameOf)
    ensures i < |xs| && UniqueNames(xs[..i], nameOf) && exists j :: 0 <= j < i && nameOf(xs[j]) == nameOf(xs[i])
  {
    var n := |xs| - 1;
    if UniqueNames(xs[..n], nameOf) then
      assert forall j :: 0 <= j < n ==> xs[j] == xs[..n][j];
      n
    else
      var i := FirstRepeat(xs[..n], nameOf);
      assert xs[..n][..i] == xs[..i];
      i
  }

  /** A snapshot under its own revision hash. */
  function Hashed(models: seq<Model>, hash: Snapshot -> string): Snapshot {
    var s := Normalized(Snapshot("1", "", models));
    s.(revisionHash := hash(Normalized(s).(revisionHash := "")))
  }

  function ImportModel(m: OsiModel, catalog: Catalog.Snapshot, typeOf: string -> Option<DataType>): Result<seq<Model>, OsiError> {
    var bases :- ImportDatasets(m.datasets, catalog, typeOf);
    if !UniqueNames(m.relationships, OsiRelationshipName) then Err(DuplicateName("relationship", m.relationships[FirstRepeat(m.relationships, OsiRelationshipName)].name))
    else if !UniqueNames(m.metrics, OsiMetricName) then Err(DuplicateName("metric", m.metrics[FirstRepeat(m.metrics, OsiMetricName)].name))
    else
      var _ :- CheckRelationships(bases, m.relationships);
      var _ :- CheckMetrics(bases, m.metrics);
      Ok(FinalModels(bases, m.relationships, m.metrics))
  }

  function SelectModel(models: seq<OsiModel>, selected: Option<string>): Result<OsiModel, OsiError> {
    if selected.Some? then
      (match Lookup(models, OsiModelName, selected.value) case None => Err(SemanticModelNotFound) case Some(m) => Ok(m))
    else if |models| == 1 then Ok(models[0])
    else Err(AmbiguousSemanticModel)
  }

  datatype Context = Context(
    catalog: Catalog.Snapshot,
    typeOf: string -> Option<DataType>,
    catalogHash: Catalog.Snapshot -> string,
    hash: Snapshot -> string)

  /** `import`. */
  function Import(doc: OsiDocument, selected: Option<string>, c: Context): Result<Snapshot, OsiError> {
    if doc.extended then Err(UnsupportedExtension)
    else if !UniqueNames(doc.models, OsiModelName) then Err(DuplicateName("semantic model", doc.models[FirstRepeat(doc.models, OsiModelName)].name))
    else
      var m :- SelectModel(doc.models, selected);
      if !Portable(m.name) then Err(InvalidIdentifier(m.name))
      else if m.extended then Err(UnsupportedExtension)
      else match Catalog.ValidatedNormalized(c.catalog, c.catalogHash)
        case Err(e) => Err(InvalidCatalog(e))
        case Ok(catalog) =>
          var models :- ImportModel(m, catalog, c.typeOf);
          Ok(Hashed(models, c.hash))
  }

  // ----- exporting -----

  datatype ExportError =
    | UnsupportedSnapshotVersion
    | InvalidRevisionHash
    | UnsupportedSemantics(reason: string)
    | Validation(cause: OsiError)
    | RoundTripMismatch

  function AnsiExpression(text: string): OsiExpression {
    OsiExpression([(AnsiSql, text)])
  }

  function ExportField(f: Field): OsiField {
    OsiField(f.semanticName, AnsiExpression(f.column), Some(f.timeDimension), false)
  }

  /** The fields that belong to the model itself. */
  function OwnFields(fs: seq<Field>): seq<Field> {
    if fs == [] then [] else OwnFields(fs[..|fs| - 1]) + (if fs[|fs| - 1].relationship.None? then [fs[|fs| - 1]] else [])
  }

  function ExportFields(fs: seq<Field>): (r: seq<OsiField>)
    ensures |r| == |fs| && forall i :: 0 <= i < |fs| ==> r[i] == ExportField(fs[i])
  {
    seq(|fs|, i requires 0 <= i < |fs| => ExportField(fs[i]))
  }

  /** The columns of entity keys, in order and each once. */
  function KeyColumns(fs: seq<Field>): seq<string> {
    if fs == [] then []
    else if fs[|fs| - 1].entityKey then AddName(KeyColumns(fs[..|fs| - 1]), fs[|fs| - 1].column)
    else KeyColumns(fs[..|fs| - 1])
  }

  function ExportDataset(m: Model): OsiDataset {
    var own := OwnFields(m.fields);
    OsiDataset(m.semanticName, m.source.schema + "." + m.source.relation, KeyColumns(own), [], ExportFields(own), false)
  }

  function ExportRelationship(from: string, r: Relationship): OsiRelationship {
    OsiRelationship(r.semanticName, from, r.targetModel, [r.fromColumn], [r.toColumn], false)
  }

  function ExportRelationships(from: string, rs: seq<Relationship>): (r: seq<OsiRelationship>)
    ensures |r| == |rs| && forall i :: 0 <= i < |rs| ==> r[i] == ExportRelationship(from, rs[i])
  {
    seq(|rs|, i requires 0 <= i < |rs| => ExportRelationship(from, rs[i]))
  }

  function ExportMetric(dataset: string, m: Metric): OsiMetric {
    OsiMetric(m.semanticName, AnsiExpression(MetricText(m.aggregation, dataset, m.field)), false)
  }

  function ExportMetrics(dataset: string, ms: seq<Metric>): (r: seq<OsiMetric>)
    ensures |r| == |ms| && forall i :: 0 <= i < |ms| ==> r[i] == ExportMetric(dataset, ms[i])
  {
    seq(|ms|, i requires 0 <= i < |ms| => ExportMetric(dataset, ms[i]))
  }

  predicate ExportableRelationship(r: Relationship) {
    r.cardinality == ManyToOne && r.joinType == Left
  }

  predicate ExportableMetric(m: Metric) {
    m.visible && m.filter.None? && m.additivity.None? && m.aggregationAnchor.None?
  }

  /** What the export loop asks of one model. */
  predicate Exportable(m: Model) {
    && m.queryable && m.writable.None? && m.timezone.None?
    && (forall i :: 0 <= i < |m.fields| ==> m.fields[i].visible)
    && (forall i :: 0 <= i < |m.relationships| ==> ExportableRelationship(m.relationships[i]))
    && (forall i :: 0 <= i < |m.metrics| ==> ExportableMetric(m.metrics[i]))
  }

  /** The loop over the models: each adds its dataset, its relationships and its metrics. */
  function ExportModels(models: seq<Model>, name: string): Result<OsiModel, ExportError> {
    if models == [] then Ok(OsiModel(name, [], [], [], false))
    else
      var before :- ExportModels(models[..|models| - 1], name);
      var m := models[|models| - 1];
      if !Exportable(m) then Err(UnsupportedSemantics(m.semanticName))
      else Ok(OsiModel(name, before.datasets + [ExportDataset(m)],
                       before.relationships + ExportRelationships(m.semanticName, m.relationships),
                       before.metrics + ExportMetrics(m.semanticName, m.metrics), false))
  }

  /** `export`: the document is returned only if importing it gives the snapshot back. */
  function Export(s: Snapshot, name: string, c: Context): Result<OsiDocument, ExportError> {
    if s.schemaVersion != "1" then Err(UnsupportedSnapshotVersion)
    else if c.hash(Normalized(s).(revisionHash := "")) != s.revisionHash then Err(InvalidRevisionHash)
    else
      var snapshot := Normalized(s);
      if snapshot.models == [] then Err(UnsupportedSemantics("an empty model collection"))
      else
        var exported :- ExportModels(snapshot.models, name);
        var doc := OsiDocument([exported], false);
        match Import(doc, None, c)
        case Err(e) => Err(Validation(e))
        case Ok(again) => if snapshot != again then Err(RoundTripMismatch) else Ok(doc)
  }
}
