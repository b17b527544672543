/**
 What a logical query asks for, told without plans, aliases or parameters: a base row
 counts once in every group it reaches through some qualifying combination of joined rows.
 */
module Meaning {
  import opened Prelude
  import opened Semantic
  import opened Bags
  import opened Relational

  /** Row `partner` stands beside `base` for a relationship: a match, or all-NULL if a left join has none. */
  ghost predicate IsPartner(db: Database, rel: Relationship, base: Row, partner: Row) {
    var key := Cell(base, rel.fromColumn);
    || (partner in Table(db, rel.target) && CompareValues(Eq, key, Cell(partner, rel.toColumn)) == True)
    || (rel.joinType == Left && partner == map[]
        && forall row :: row in Table(db, rel.target) ==> CompareValues(Eq, key, Cell(row, rel.toColumn)) != True)
  }

  ghost predicate IsPartnerNamed(db: Database, model: Model, name: string, base: Row, partner: Row) {
    var rel := Lookup(model.relationships, RelationshipName, name);
    rel.Some? && IsPartner(db, rel.value, base, partner)
  }

  /** One partner for every relationship the query uses. */
  ghost predicate IsCombination(db: Database, model: Model, used: set<string>, base: Row, partners: map<string, Row>) {
    partners.Keys == used && forall name :: name in used ==> IsPartnerNamed(db, model, name, base, partners[name])
  }

  function FieldValue(field: Field, base: Row, partners: map<string, Row>): Value {
    if field.relationship.None? then Cell(base, field.column)
    else if field.relationship.value in partners then Cell(partners[field.relationship.value], field.column)
    else Null
  }

  function NamedValue(model: Model, name: string, base: Row, partners: map<string, Row>): Value {
    match Lookup(model.fields, FieldName, name)
    case None => Null
    case Some(f) => FieldValue(f, base, partners)
  }

  /** A date against a timestamptz field is the start of that day in the model's timezone. */
  function Comparand(it: Interpretation, model: Model, field: Field, value: Literal): Value {
    if field.dataType == TimestampTzType && value.DateLiteral? then
      if model.timezone.None? then Null else it.dayStart(TextLiteral(model.timezone.value), value)
    else it.cast(field.dataType, value)
  }

  function CompareMeaning(it: Interpretation, model: Model, op: ComparisonOperator, name: string, value: Literal, base: Row, partners: map<string, Row>): Tri {
    match Lookup(model.fields, FieldName, name)
    case None => Unknown
    case Some(f) => CompareValues(op, FieldValue(f, base, partners), Comparand(it, model, f, value))
  }

  /** Membership compares with each literal cast to the field's own type. */
  function CastAll(it: Interpretation, t: DataType, values: seq<Literal>): seq<Value> {
    if values == [] then [] else [it.cast(t, values[0])] + CastAll(it, t, values[1..])
  }

  function FilterMeaning(it: Interpretation, model: Model, f: Filter, base: Row, partners: map<string, Row>): Tri
    decreases f
  {
    match f
    case And(args) => AllMeaning(it, model, args, base, partners)
    case Or(args) => AnyMeaning(it, model, args, base, partners)
    case Not(arg) => NotTri(FilterMeaning(it, model, arg, base, partners))
    case Compare(op, name, value) => CompareMeaning(it, model, op, name, value, base, partners)
    case In(name, values) =>
      (match Lookup(model.fields, FieldName, name)
       case None => Unknown
       case Some(field) => MemberOf(FieldValue(field, base, partners), CastAll(it, field.dataType, values)))
    case IsNull(name) => OfBool(NamedValue(model, name, base, partners).Null?)
    case IsNotNull(name) => OfBool(NamedValue(model, name, base, partners).Val?)
  }

  function AllMeaning(it: Interpretation, model: Model, fs: seq<Filter>, base: Row, partners: map<string, Row>): Tri
    decreases fs
  {
    if fs == [] then True else AndTri(FilterMeaning(it, model, fs[0], base, partners), AllMeaning(it, model, fs[1..], base, partners))
  }

  function AnyMeaning(it: Interpretation, model: Model, fs: seq<Filter>, base: Row, partners: map<string, Row>): Tri
    decreases fs
  {
    if fs == [] then False else OrTri(FilterMeaning(it, model, fs[0], base, partners), AnyMeaning(it, model, fs[1..], base, partners))
  }

  predicate Qualifies(it: Interpretation, model: Model, q: Query, base: Row, partners: map<string, Row>) {
    q.filters.Some? ==> FilterMeaning(it, model, q.filters.value, base, partners) == True
  }

  function DimensionMeaning(it: Interpretation, model: Model, d: Dimension, base: Row, partners: map<string, Row>): Value {
    match Lookup(model.fields, FieldName, d.field)
    case None => Null
    case Some(f) =>
      var v := FieldValue(f, base, partners);
      if d.timeGrain.None? then v
      else if f.dataType == TimestampTzType then
        if model.timezone.None? then Null else it.localTrunc(d.timeGrain.value, TextLiteral(model.timezone.value), v)
      else it.trunc(d.timeGrain.value, v)
  }

  function GroupOf(it: Interpretation, model: Model, ds: seq<Dimension>, base: Row, partners: map<string, Row>): (r: seq<Value>)
    ensures |r| == |ds| && forall i :: 0 <= i < |ds| ==> r[i] == DimensionMeaning(it, model, ds[i], base, partners)
  {
    if ds == [] then [] else [DimensionMeaning(it, model, ds[0], base, partners)] + GroupOf(it, model, ds[1..], base, partners)
  }

  function MetricFilterMeaning(it: Interpretation, model: Model, m: Metric, base: Row, partners: map<string, Row>): Tri {
    match m.filter
    case None => True
    case Some(f) =>
      match Lookup(model.fields, FieldName, f.field)
      case None => Unknown
      case Some(field) => CompareValues(Eq, FieldValue(field, base, partners), it.cast(field.dataType, f.value))
  }

  // ----- which relationships a query mentions -----

  function RelationshipOf(model: Model, name: string): set<string> {
    match Lookup(model.fields, FieldName, name)
    case None => {}
    case Some(f) => if f.relationship.Some? then {f.relationship.value} else {}
  }

  function FilterRelationships(model: Model, f: Filter): set<string>
    decreases f
  {
    match f
    case And(args) => AllRelationships(model, args)
    case Or(args) => AllRelationships(model, args)
    case Not(arg) => FilterRelationships(model, arg)
    case Compare(_, name, _) => RelationshipOf(model, name)
    case In(name, _) => RelationshipOf(model, name)
    case IsNull(name) => RelationshipOf(model, name)
    case IsNotNull(name) => RelationshipOf(model, name)
  }

  function AllRelationships(model: Model, fs: seq<Filter>): set<string>
    decreases fs
  {
    if fs == [] then {} else FilterRelationships(model, fs[0]) + AllRelationships(model, fs[1..])
  }

  function MetricRelationships(model: Model, name: string): set<string> {
    match Lookup(model.metrics, MetricName, name)
    case None => {}
    case Some(m) => RelationshipOf(model, m.field) + (if m.filter.Some? then RelationshipOf(model, m.filter.value.field) else {})
  }

  ghost function UsedRelationships(model: Model, q: Query): set<string> {
    (set d, n | d in q.dimensions && n in RelationshipOf(model, d.field) :: n)
    + (set m, n | m in q.metrics && n in MetricRelationships(model, m) :: n)
    + (if q.filters.Some? then FilterRelationships(model, q.filters.value) else {})
  }

  // ----- the answer -----

  /** Base row `base` reaches group k. */
  ghost predicate Reaches(it: Interpretation, db: Database, model: Model, q: Query, base: Row, k: seq<Value>, partners: map<string, Row>) {
    && IsCombination(db, model, UsedRelationships(model, q), base, partners)
    && Qualifies(it, model, q, base, partners)
    && GroupOf(it, model, q.dimensions, base, partners) == k
  }

  ghost predicate IsGroup(it: Interpretation, db: Database, model: Model, q: Query, k: seq<Value>) {
    if q.dimensions == [] then k == []
    else exists base, partners :: base in Table(db, model.source) && Reaches(it, db, model, q, base, k, partners)
  }

  /** A base row that reaches the group with the metric's filter satisfied gives its field's value, once. */
  ghost function Contribution(it: Interpretation, db: Database, model: Model, q: Query, m: Metric, k: seq<Value>, base: Row): multiset<Value> {
    if exists partners :: Reaches(it, db, model, q, base, k, partners) && MetricFilterMeaning(it, model, m, base, partners) == True
    then multiset{NamedValue(model, m.field, base, map[])}
    else multiset{}
  }

  ghost function ContributionFn(it: Interpretation, db: Database, model: Model, q: Query, m: Metric, k: seq<Value>): Row -> multiset<Value> {
    base => Contribution(it, db, model, q, m, k, base)
  }

  ghost function MetricMeaning(it: Interpretation, db: Database, model: Model, q: Query, m: Metric, k: seq<Value>): Value {
    Aggregate(m.aggregation, Bag(Table(db, model.source), ContributionFn(it, db, model, q, m, k)))
  }

  /** Every direct entity-key field names a column that is unique and non-null in its model's relation. */
  ghost predicate IsKeyColumn(rows: seq<Row>, column: string) {
    && (forall i :: 0 <= i < |rows| ==> Cell(rows[i], column).Val?)
    && (forall i, j :: 0 <= i < j < |rows| ==> Cell(rows[i], column) != Cell(rows[j], column))
  }

  ghost predicate EntityKeysHold(s: Snapshot, db: Database) {
    forall m, f :: m in s.models && f in m.fields && f.entityKey && f.relationship.None? ==>
      IsKeyColumn(Table(db, m.source), f.column)
  }
}
