/** Inputs the gateway accepts on which a promise fails: the concrete side of the exact conditions proved elsewhere. */
module Counterexamples {
  import opened Prelude
  import opened Order
  import opened Semantic
  import opened Snapshots
  import opened Relational
  import opened Meaning
  import opened Compiler
  import opened AnswerTheorem
  import opened SqlText
  import opened FromTextProofs
  import opened FilterText
  import C = CompatibilityProofs
  import L = LsqValidation
  import M = Mutation
  import U = UpsertProofs

  const OPTIONS: CompilerOptions := CompilerOptions(100, 10000)

  // ----- a column name with a newline, on the anchored plan -----

  const ID: Field := Field("id", IntegerType, "id", None, false, true, true, false)

  const SKU: Field := Field("sku", TextType, "sku", Some("lines"), false, false, true, true)

  const LINES: Relationship := Relationship("lines", "lines", Relation("sales", "lines"), OneToMany, Left, "id", "order_id")

  const ORDER_COUNT: Metric := Metric("order_count", IntegerType, Count, "id", None, Some(Additive), Some("id"), true)

  function Note(column: string): Field {
    Field("note", TextType, column, None, false, false, true, true)
  }

  function OrdersModel(column: string): Model {
    Model("orders", Relation("sales", "orders"), None, true, None, [ID, SKU, Note(column)], [ORDER_COUNT], [LINES])
  }

  function LinesModel(): Model {
    Model("lines", Relation("sales", "lines"), None, true, None, [], [], [])
  }

  function OrdersWithLines(column: string): Snapshot {
    Snapshot("2", C.Digest(), [OrdersModel(column), LinesModel()])
  }

  /** Orders without a note, counted by the articles on their lines. */
  const WITHOUT_NOTE: Query := Query("1", "orders", [Dimension("sku", None)], ["order_count"], Some(IsNull("note")), [], None)

  function CountedOrders(column: string): ValidatedQuery {
    ValidatedQuery(OrdersModel(column), [ResolvedDimension(SKU, None)], [ResolvedMetric(ORDER_COUNT, ID, None, Some(ID))],
                   Some(RIsNull(Note(column))), [], [LINES], Some(ID), 100)
  }

  lemma OrdersFields(column: string)
    ensures var m := OrdersModel(column);
      && Lookup(m.fields, FieldName, "id") == Some(ID) && Lookup(m.fields, FieldName, "sku") == Some(SKU)
      && Lookup(m.fields, FieldName, "note") == Some(Note(column)) && Lookup(m.metrics, MetricName, "order_count") == Some(ORDER_COUNT)
      && Lookup(m.relationships, RelationshipName, "lines") == Some(LINES)
  {
    var fs := OrdersModel(column).fields;
    assert fs[1..] == [SKU, Note(column)] && fs[1..][1..] == [Note(column)];
    assert Lookup(fs[1..][1..], FieldName, "note") == Some(Note(column));
    assert Lookup(fs[1..], FieldName, "note") == Some(Note(column));
  }

  lemma OrdersDimensions(column: string)
    ensures ResolveDimensions(OrdersModel(column), WITHOUT_NOTE.dimensions) == Ok([ResolvedDimension(SKU, None)])
  {
    OrdersFields(column);
    hide OrdersModel;
    var ds := WITHOUT_NOTE.dimensions;
    assert ds[1..] == [];
    assert ResolveDimension(OrdersModel(column), ds[0]) == Ok(ResolvedDimension(SKU, None));
    assert [ResolvedDimension(SKU, None)] + [] == [ResolvedDimension(SKU, None)];
  }

  lemma OrdersMetrics(column: string)
    ensures ResolveMetrics("2", OrdersModel(column), ["order_count"]) == Ok([ResolvedMetric(ORDER_COUNT, ID, None, Some(ID))])
  {
    OrdersFields(column);
    var m := OrdersModel(column);
    assert ResolveMetric("2", m, "order_count") == Ok(ResolvedMetric(ORDER_COUNT, ID, None, Some(ID)));
    C.OneMetric("2", m, "order_count", ResolvedMetric(ORDER_COUNT, ID, None, Some(ID)));
  }

  lemma OrdersUseLines(column: string)
    ensures RecordAll([], UsedFields([ResolvedDimension(SKU, None)], [ResolvedMetric(ORDER_COUNT, ID, None, Some(ID))], Some(RIsNull(Note(column))))) == ["lines"]
  {
    var d, r := ResolvedDimension(SKU, None), ResolvedMetric(ORDER_COUNT, ID, None, Some(ID));
    assert [d][1..] == [] && [r][1..] == [];
    assert DimensionFields([d]) == [SKU] && MetricFields([r]) == [ID];
    var fields := UsedFields([d], [r], Some(RIsNull(Note(column))));
    assert fields == [SKU, ID, Note(column)];
    assert fields[1..] == [ID, Note(column)] && fields[1..][1..] == [Note(column)] && fields[1..][1..][1..] == [];
    assert AddName([], "lines") == ["lines"];
    assert RecordAll(["lines"], fields[1..][1..][1..]) == ["lines"];
    assert RecordAll(["lines"], fields[1..][1..]) == ["lines"];
    assert RecordAll(["lines"], fields[1..]) == ["lines"];
  }

  lemma OrdersRelationships(column: string)
    ensures ResolveRelationships(OrdersWithLines(column), OrdersModel(column), ["lines"]) == Ok([LINES])
  {
    OrdersFields(column);
    var s, m := OrdersWithLines(column), OrdersModel(column);
    assert s.models[1..] == [LinesModel()];
    assert Lookup(s.models[1..], ModelName, "lines") == Some(LinesModel());
    assert Lookup(s.models, ModelName, "lines") == Some(LinesModel());
    assert m.fields[0] == ID && HasKeyColumn(m.fields, "id");
    assert ResolveRelationship(s, m, "lines") == Ok(LINES);
    assert ["lines"][1..] == [];
    assert [LINES] + [] == [LINES];
  }

  lemma OrdersAnchor()
    ensures ResolveAnchor([LINES], [ResolvedMetric(ORDER_COUNT, ID, None, Some(ID))]) == Ok(Some(ID))
  {
    var r := ResolvedMetric(ORDER_COUNT, ID, None, Some(ID));
    assert [r][1..] == [];
    assert AnchorFrom([], Some(ID)) == Ok(Some(ID));
    assert AnchorFrom([r], None) == Ok(Some(ID));
  }

  lemma DigestHolds(version: string, models: seq<Model>)
    ensures RevisionHashHolds(Snapshot(version, C.Digest(), models), C.ConstantHash)
  {
    hide Normalized;
  }

  /** The snapshot is in order, so the query is validated against its first model. */
  lemma FirstModelServes(q: Query, version: string, models: seq<Model>)
    requires (version == "1" || version == "2") && q.limit.None?
    requires models != [] && models[0].queryable && models[0].semanticName == q.model
    ensures var s := Snapshot(version, C.Digest(), models);
      Validate(q, s, OPTIONS, C.ConstantHash) == ValidateFor(q, s, models[0], 100)
  {
    hide ValidateFor, RevisionHashHolds;
    DigestHolds(version, models);
  }

  lemma OrdersFilter(column: string)
    ensures ResolveOptionalFilter(OrdersModel(column), WITHOUT_NOTE.filters) == Ok(Some(RIsNull(Note(column))))
  {
    OrdersFields(column);
    hide OrdersModel;
  }

  lemma OrdersValidate(column: string)
    ensures Validate(WITHOUT_NOTE, OrdersWithLines(column), OPTIONS, C.ConstantHash) == Ok(CountedOrders(column))
  {
    hide Validate, ResolveDimensions, ResolveMetrics, ResolveOptionalFilter, RecordAll, UsedFields, ResolveRelationships, ResolveAnchor;
    assert OrdersModel(column).queryable && OrdersModel(column).semanticName == "orders";
    FirstModelServes(WITHOUT_NOTE, "2", [OrdersModel(column), LinesModel()]);
    OrdersDimensions(column);
    OrdersMetrics(column);
    OrdersFilter(column);
    OrdersUseLines(column);
    OrdersRelationships(column);
    OrdersAnchor();
    assert CheckOrder(DimensionNames(WITHOUT_NOTE.dimensions) + WITHOUT_NOTE.metrics, []) == Ok(());
  }

  lemma OrdersPlan(column: string)
    ensures RenderPlan(CountedOrders(column)).Ok?
    ensures var q := RenderPlan(CountedOrders(column)).value.item;
      && TwoStage(q)
      && FromOf(q) == From(Relation("sales", "orders"), [Join(Left, Relation("sales", "lines"), "id", "order_id")], Some(PIsNull(Column(0, column))))
  {
    var v, st := CountedOrders(column), RenderState([], {});
    var d, r := v.dimensions[0], v.metrics[0];
    OrdersFields(column);
    assert [LINES][1..] == [] && [d][1..] == [] && [r][1..] == [];
    assert NamesOf([LINES]) == ["lines"];
    assert JoinsOf([LINES]) == [JoinOf(LINES)];
    assert RenderDimensions(v.model, ["lines"], v.dimensions, st).Ok?;
    var ds := RenderDimensions(v.model, ["lines"], v.dimensions, st).value;
    var a := RenderField(v.model, ["lines"], ID, ds.state).value;
    assert RenderMetrics(v.model, ["lines"], v.metrics, true, a.state).Ok?;
    var ms := RenderMetrics(v.model, ["lines"], v.metrics, true, a.state).value;
    assert RenderFrom(v, ["lines"], ms.state).Ok?;
  }

  /**
   An accepted query whose statement is not the one compiled: for every column name with a newline, the anchored
   plan sends a condition on a column of another name, while the inner SELECT list keeps the right ones.
   */
  lemma NewlineColumnMisread(column: string)
    requires '\n' in column
    ensures L.QueryHolds(WITHOUT_NOTE)
    ensures var r := Compile(WITHOUT_NOTE, OrdersWithLines(column), OPTIONS, C.ConstantHash);
      && r.Ok? && TwoStage(r.value.statement.query)
      && var src := FromOf(r.value.statement.query);
      && PrintableFrom(src) && src.condition == Some(PIsNull(Column(0, column)))
      && ReadFrom(SentFrom(src, true)) == Some(src.(condition := Some(PIsNull(Column(0, Indent(column))))))
      && Indent(column) != column
  {
    hide L.QueryHolds, Validate, RenderPlan, OrdersWithLines, CountedOrders, Indent, IndentJoins, ReadFrom, FromText, NoNewlines;
    WithoutNoteHolds();
    OrdersValidate(column);
    OrdersPlan(column);
    var src := FromOf(RenderPlan(CountedOrders(column)).value.item);
    IndentedFromReads(src);
    IndentExactly(column);
    PlainNames();
  }

  lemma WithoutNoteHolds()
    ensures L.QueryHolds(WITHOUT_NOTE)
  {
    Worded("orders");
    Worded("sku");
    Worded("order_count");
    Worded("note");
    hide Blank;
    assert [Dimension("sku", None)][1..] == [];
    assert DimensionNames([Dimension("sku", None)]) == ["sku"];
    assert OutputNames(WITHOUT_NOTE) == ["sku", "order_count"];
    assert L.FilterHolds(IsNull("note"));
  }

  lemma PlainNames()
    ensures Indent("sales") == "sales" && Indent("orders") == "orders" && Indent("lines") == "lines" && Indent("id") == "id" && Indent("order_id") == "order_id"
    ensures IndentJoins([Join(Left, Relation("sales", "lines"), "id", "order_id")]) == [Join(Left, Relation("sales", "lines"), "id", "order_id")]
  {
    IndentExactly("sales");
    IndentExactly("orders");
    IndentExactly("lines");
    IndentExactly("id");
    IndentExactly("order_id");
    hide Indent;
  }

  // ----- a date in a list, against a timestamptz field -----

  const AT: Field := Field("at", TimestampTzType, "at", None, true, false, true, true)

  const DAY: Literal := DateLiteral("2024-03-31")

  function Events(zone: string): Model {
    Model("events", Relation("log", "events"), Some(zone), true, None, [AT], [], [])
  }

  function EventsSnapshot(zone: string): Snapshot {
    Snapshot("1", C.Digest(), [Events(zone)])
  }

  const ON_LISTED_DAY: Query := Query("1", "events", [Dimension("at", None)], [], Some(In("at", [DAY])), [], None)

  const ON_EQUAL_DAY: Query := Query("1", "events", [Dimension("at", None)], [], Some(Or([Compare(Eq, "at", DAY)])), [], None)

  lemma EventsFields(zone: string)
    ensures Lookup(Events(zone).fields, FieldName, "at") == Some(AT)
  {
  }

  lemma EventsDimensions(zone: string)
    ensures ResolveDimensions(Events(zone), [Dimension("at", None)]) == Ok([ResolvedDimension(AT, None)])
  {
    EventsFields(zone);
    hide Events;
    var ds := [Dimension("at", None)];
    assert ds[1..] == [];
    assert ResolveDimension(Events(zone), ds[0]) == Ok(ResolvedDimension(AT, None));
    assert [ResolvedDimension(AT, None)] + [] == [ResolvedDimension(AT, None)];
  }

  lemma EventsUseNothing(f: ResolvedFilter)
    requires FilterFields(f) == [AT]
    ensures RecordAll([], UsedFields([ResolvedDimension(AT, None)], [], Some(f))) == []
  {
    hide FilterFields;
    var d := ResolvedDimension(AT, None);
    assert [d][1..] == [];
    assert DimensionFields([d]) == [AT];
    var fields := UsedFields([d], [], Some(f));
    assert fields == [AT, AT];
    assert fields[1..] == [AT] && fields[1..][1..] == [];
    assert RecordAll([], fields[1..]) == [];
  }

  lemma EventsFilters(zone: string)
    ensures ResolveOptionalFilter(Events(zone), ON_LISTED_DAY.filters) == Ok(Some(RIn(AT, [DAY])))
    ensures ResolveOptionalFilter(Events(zone), ON_EQUAL_DAY.filters) == Ok(Some(ROr([RCompare(Eq, AT, DAY)])))
    ensures FilterFields(RIn(AT, [DAY])) == [AT] && FilterFields(ROr([RCompare(Eq, AT, DAY)])) == [AT]
  {
    EventsFields(zone);
    hide Events;
    var m, fs, rs := Events(zone), [Compare(Eq, "at", DAY)], [RCompare(Eq, AT, DAY)];
    assert fs[1..] == [] && rs[1..] == [];
    assert ResolveFilter(m, fs[0]) == Ok(rs[0]);
    assert rs + [] == rs;
    assert ResolveFilters(m, fs) == Ok(rs);
    assert ResolveFilter(m, Or(fs)) == Ok(ROr(rs));
    assert ResolveFilter(m, In("at", [DAY])) == Ok(RIn(AT, [DAY]));
    assert AllFilterFields(rs) == FilterFields(rs[0]) + AllFilterFields(rs[1..]);
  }

  function EventsOn(zone: string, f: ResolvedFilter): ValidatedQuery {
    ValidatedQuery(Events(zone), [ResolvedDimension(AT, None)], [], Some(f), [], [], None, 100)
  }

  lemma EventsValidate(zone: string, q: Query, f: ResolvedFilter)
    requires q.model == "events" && q.dimensions == [Dimension("at", None)] && q.metrics == [] && q.orderBy == [] && q.limit == None
    requires ResolveOptionalFilter(Events(zone), q.filters) == Ok(Some(f)) && FilterFields(f) == [AT]
    ensures Validate(q, EventsSnapshot(zone), OPTIONS, C.ConstantHash) == Ok(EventsOn(zone, f))
  {
    hide Validate, ResolveDimensions, ResolveOptionalFilter, RecordAll, UsedFields, FilterFields;
    FirstModelServes(q, "1", [Events(zone)]);
    EventsDimensions(zone);
    EventsUseNothing(f);
    assert ResolveMetrics("1", Events(zone), []) == Ok([]);
  }

  lemma EventsRender(zone: string, f: ResolvedFilter)
    requires RenderFilter(Events(zone), [], f, RenderState([], {SourceColumn(Relation("log", "events"), "at")})).Ok?
    ensures RenderPlan(EventsOn(zone, f)).Ok?
  {
    hide RenderFilter;
    var v, d, st := EventsOn(zone, f), ResolvedDimension(AT, None), RenderState([], {});
    var after := RenderState([], {SourceColumn(v.model.source, "at")});
    assert NamesOf([]) == [] && JoinsOf([]) == [] && [d][1..] == [];
    assert {} + {SourceColumn(v.model.source, "at")} == {SourceColumn(v.model.source, "at")};
    assert RenderDimension(v.model, [], d, st) == Ok(Rendered(Column(0, "at"), after));
    assert RenderDimensions(v.model, [], [], after) == Ok(Rendered([], after));
    assert RenderDimensions(v.model, [], [d], st).Ok? && RenderDimensions(v.model, [], [d], st).value.state == after;
    assert RenderMetrics(v.model, [], [], false, after) == Ok(Rendered([], after));
    assert JoinColumns(v.model, []) == {};
    assert after.columns + {} == after.columns;
  }

  lemma EventsFiltersRender(zone: string, st: RenderState)
    ensures RenderFilter(Events(zone), [], RIn(AT, [DAY]), st).Ok?
    ensures RenderFilter(Events(zone), [], ROr([RCompare(Eq, AT, DAY)]), st).Ok?
  {
    var m, fs := Events(zone), [RCompare(Eq, AT, DAY)];
    assert fs[1..] == [];
    assert RenderFilter(m, [], fs[0], st).Ok?;
    assert RenderFilters(m, [], fs, st).Ok?;
  }

  lemma EventsCompile(zone: string)
    ensures Compile(ON_LISTED_DAY, EventsSnapshot(zone), OPTIONS, C.ConstantHash).Ok?
    ensures Compile(ON_EQUAL_DAY, EventsSnapshot(zone), OPTIONS, C.ConstantHash).Ok?
  {
    hide Validate, RenderPlan, RenderFilter, ResolveOptionalFilter, FilterFields, Events;
    EventsFilters(zone);
    EventsValidate(zone, ON_LISTED_DAY, RIn(AT, [DAY]));
    EventsValidate(zone, ON_EQUAL_DAY, ROr([RCompare(Eq, AT, DAY)]));
    EventsFiltersRender(zone, RenderState([], {SourceColumn(Relation("log", "events"), "at")}));
    EventsRender(zone, RIn(AT, [DAY]));
    EventsRender(zone, ROr([RCompare(Eq, AT, DAY)]));
  }

  /** One event, at the given instant. */
  function OneEvent(instant: Value): Database {
    map[Relation("log", "events") := [map["at" := instant]]]
  }

  lemma MemberOfOne(it: Interpretation, t: DataType, v: Value, l: Literal)
    ensures MemberOf(v, CastAll(it, t, [l])) == CompareValues(Eq, v, it.cast(t, l))
  {
    assert [l][1..] == [];
    assert CastAll(it, t, [l]) == [it.cast(t, l)];
    assert [it.cast(t, l)][1..] == [];
  }

  lemma EventsFilterMeans(it: Interpretation, zone: string, base: Row)
    ensures var at, m := Cell(base, "at"), Events(zone);
      && FilterMeaning(it, m, In("at", [DAY]), base, map[]) == CompareValues(Eq, at, it.cast(TimestampTzType, DAY))
      && FilterMeaning(it, m, Or([Compare(Eq, "at", DAY)]), base, map[]) == CompareValues(Eq, at, it.dayStart(TextLiteral(zone), DAY))
  {
    EventsFields(zone);
    MemberOfOne(it, TimestampTzType, Cell(base, "at"), DAY);
    var m, fs := Events(zone), [Compare(Eq, "at", DAY)];
    assert fs[1..] == [];
    assert FilterMeaning(it, m, fs[0], base, map[]) == CompareValues(Eq, Cell(base, "at"), it.dayStart(TextLiteral(zone), DAY));
    assert AnyMeaning(it, m, fs, base, map[]) == OrTri(FilterMeaning(it, m, fs[0], base, map[]), False);
  }

  lemma EventsUsed(zone: string, q: Query)
    requires q == ON_LISTED_DAY || q == ON_EQUAL_DAY
    ensures UsedRelationships(Events(zone), q) == {}
  {
    EventsFields(zone);
    hide Events;
    var fs := [Compare(Eq, "at", DAY)];
    assert fs[1..] == [];
    assert AllRelationships(Events(zone), fs) == {};
  }

  /** The groups of either query on one event: its instant if the condition holds of it. */
  lemma EventsGroup(it: Interpretation, zone: string, instant: Value, q: Query, k: seq<Value>)
    requires q == ON_LISTED_DAY || q == ON_EQUAL_DAY
    ensures IsGroup(it, OneEvent(instant), Events(zone), q, k)
      <==> k == [instant] && FilterMeaning(it, Events(zone), q.filters.value, map["at" := instant], map[]) == True
  {
    hide FilterMeaning;
    EventsUsed(zone, q);
    EventsFields(zone);
    hide Events, UsedRelationships;
    var m, db, base := Events(zone), OneEvent(instant), map["at" := instant];
    var ds := [Dimension("at", None)];
    assert GroupOf(it, m, ds, base, map[]) == [instant];
    assert m.source == Relation("log", "events");
    assert Table(db, m.source) == [base];
    if IsGroup(it, db, m, q, k) {
      var b, partners :| b in Table(db, m.source) && Reaches(it, db, m, q, b, k, partners);
      assert partners == map[];
    }
    if k == [instant] && FilterMeaning(it, m, q.filters.value, base, map[]) == True {
      assert Reaches(it, db, m, q, base, k, map[]);
    }
  }

  lemma EventsKeys(zone: string, db: Database)
    ensures EntityKeysHold(EventsSnapshot(zone), db)
  {
  }

  /**
   A date against a timestamptz field, in two accepted queries of one meaning: equality reads it in the model's
   timezone and membership by a plain cast, so an event at the start of that day is found by the first, and by the
   second exactly if both readings give the same instant.
   */
  lemma ListedDayMisses(it: Interpretation, zone: string, instant: Value)
    requires instant.Val? && it.dayStart(TextLiteral(zone), DAY) == instant
    ensures var s := EventsSnapshot(zone);
            var listed, equal := Compile(ON_LISTED_DAY, s, OPTIONS, C.ConstantHash), Compile(ON_EQUAL_DAY, s, OPTIONS, C.ConstantHash);
      && L.QueryHolds(ON_LISTED_DAY) && L.QueryHolds(ON_EQUAL_DAY)
      && listed.Ok? && equal.Ok?
      && Eval(equal.value.statement.query, equal.value.parameters, it, OneEvent(instant)).Keys == {[instant]}
      && Eval(listed.value.statement.query, listed.value.parameters, it, OneEvent(instant)).Keys
         == if it.cast(TimestampTzType, DAY) == instant then {[instant]} else {}
  {
    hide Compile, Eval, IsGroup, FilterMeaning, EntityKeysHold, L.QueryHolds;
    DayQueriesHold();
    var s, db := EventsSnapshot(zone), OneEvent(instant);
    EventsCompile(zone);
    EventsKeys(zone, db);
    assert FindQueryable(s.models, "events") == Some(Events(zone));
    CompiledQueryAnswers(ON_LISTED_DAY, s, OPTIONS, C.ConstantHash, it, db);
    CompiledQueryAnswers(ON_EQUAL_DAY, s, OPTIONS, C.ConstantHash, it, db);
    EventsFilterMeans(it, zone, map["at" := instant]);
    forall k
      ensures IsGroup(it, db, Events(zone), ON_LISTED_DAY, k) <==> k == [instant] && it.cast(TimestampTzType, DAY) == instant
      ensures IsGroup(it, db, Events(zone), ON_EQUAL_DAY, k) <==> k == [instant]
    {
      EventsGroup(it, zone, instant, ON_LISTED_DAY, k);
      EventsGroup(it, zone, instant, ON_EQUAL_DAY, k);
    }
  }

  lemma DayReadable()
    ensures L.WellFormed(DAY)
  {
    assert L.ValidDay(2024, 3, 31);
    assert L.DateText(2024, 3, 31) == "2024-03-31";
  }

  lemma OneDimensionHolds(q: Query, name: string)
    requires q.schemaVersion == "1" && !Blank(q.model) && !Blank(name) && q.dimensions == [Dimension(name, None)] && q.metrics == []
    requires q.orderBy == [] && q.limit == None && q.filters.Some? && L.FilterHolds(q.filters.value)
    ensures L.QueryHolds(q)
  {
    hide Blank, L.FilterHolds;
    assert q.dimensions[1..] == [];
    assert DimensionNames(q.dimensions) == [name];
    assert OutputNames(q) == [name];
  }

  /** Both queries pass every check that precedes compilation. */
  lemma DayQueriesHold()
    ensures L.QueryHolds(ON_LISTED_DAY) && L.QueryHolds(ON_EQUAL_DAY)
  {
    hide Blank, L.FilterHolds, L.QueryHolds;
    Worded("at");
    Worded("events");
    DayFiltersHold();
    OneDimensionHolds(ON_LISTED_DAY, "at");
    OneDimensionHolds(ON_EQUAL_DAY, "at");
  }

  lemma DayFiltersHold()
    ensures L.FilterHolds(In("at", [DAY])) && L.FilterHolds(Or([Compare(Eq, "at", DAY)]))
  {
    DayReadable();
    Worded("at");
    hide L.WellFormed, Blank;
    var fs := [Compare(Eq, "at", DAY)];
    assert fs[..|fs| - 1] == [];
    assert L.WellShaped(fs[0]) && L.Size(fs[0]) == 1 && L.Height(fs[0]) == 1;
    assert L.TotalSize(fs) == L.TotalSize([]) + 1 && L.TotalSize([]) == 0;
    assert L.MaxHeight(fs) == 1;
    assert L.WellShaped(Or(fs));
  }

  lemma Worded(s: string)
    requires s != "" && !IsWhitespace(s[0])
    ensures !Blank(s)
  {
  }

  // ----- an upsert whose key holds a NULL -----

  const EMAIL: Field := Field("email", TextType, "email", None, false, false, true, true)

  const NAME: Field := Field("name", TextType, "name", None, false, false, true, true)

  const POLICY: WritableModel :=
    WritableModel(false, Some(UpsertPolicy(["email"])), 100, 65536,
                  [WritableField("email", true, true, false), WritableField("name", true, true, true)], ["name"])

  const CONTACTS: Model := Model("contacts", Relation("crm", "contacts"), None, true, Some(POLICY), [EMAIL, NAME], [], [])

  function ContactsSnapshot(): Snapshot {
    Snapshot("1", C.Digest(), [CONTACTS])
  }

  lemma ContactInOrder()
    ensures M.InKeyOrder([M.Assignment("email", M.NullValue), M.Assignment("name", M.TextValue("Ann"))])
  {
  }

  function Contact(): M.InputRow {
    ContactInOrder();
    [M.Assignment("email", M.NullValue), M.Assignment("name", M.TextValue("Ann"))]
  }

  /** A contact without an address, upserted by address. */
  function UpsertContact(): M.Mutation {
    M.Mutation("1", M.UpsertRows, "contacts", "contact-1", [Contact()])
  }

  lemma {:induction false} Utf8Bound(s: string)
    ensures Utf8Length(s) <= 4 * |s|
  {
    if s != "" {
      Utf8Bound(s[1..]);
    }
  }

  lemma BoundedWord(s: string, limit: nat)
    requires s != "" && !IsWhitespace(s[0]) && 4 * |s| <= limit
    ensures M.ValidBoundedText(s, limit)
  {
    Worded(s);
    Utf8Bound(s);
  }

  lemma ContactNames()
    ensures M.Names(Contact()) == ["email", "name"]
    ensures M.RowsAgree(UpsertContact())
  {
  }

  lemma ContactRow()
    ensures M.RowHolds(Contact(), ["email", "name"])
  {
    BoundedWord("email", M.MAX_SEMANTIC_NAME_BYTES);
    BoundedWord("name", M.MAX_SEMANTIC_NAME_BYTES);
    ContactNames();
    hide M.ValidBoundedText;
    var row := Contact();
    assert M.WellFormedValue(M.NullValue) && M.WellFormedValue(M.TextValue("Ann"));
    assert M.AssignmentHolds(row[0]) && M.AssignmentHolds(row[1]);
  }

  lemma ContactHeader()
    ensures M.HeaderHolds(UpsertContact())
  {
    hide M.ValidBoundedText;
    BoundedWord("contacts", M.MAX_SEMANTIC_NAME_BYTES);
    BoundedWord("contact-1", M.MAX_IDEMPOTENCY_KEY_BYTES);
  }

  lemma ContactWellFormed()
    ensures M.RequestHolds(UpsertContact())
  {
    hide M.HeaderHolds, M.RowHolds, M.Names, Contact;
    ContactHeader();
    ContactNames();
    ContactRow();
  }

  lemma ContactFields()
    ensures M.LastField(CONTACTS.fields, "email") == Some(EMAIL) && M.LastField(CONTACTS.fields, "name") == Some(NAME)
    ensures Lookup(POLICY.fields, M.PolicyName, "email") == Some(POLICY.fields[0]) && Lookup(POLICY.fields, M.PolicyName, "name") == Some(POLICY.fields[1])
  {
    assert CONTACTS.fields[..1] == [EMAIL];
    assert M.LastField([EMAIL], "email") == Some(EMAIL);
    assert POLICY.fields[1..] == [POLICY.fields[1]];
    assert Lookup(POLICY.fields[1..], M.PolicyName, "name") == Some(POLICY.fields[1]);
  }

  lemma ContactPolicyHolds()
    ensures M.WritableModelHolds(CONTACTS.fields, POLICY)
  {
    ContactFields();
    Worded("email");
    Worded("name");
    hide M.LastField, Lookup, Blank;
    assert M.PolicyName(POLICY.fields[0]) == "email" && M.PolicyName(POLICY.fields[1]) == "name";
  }

  lemma ContactInputs()
    ensures M.AllAssign(UpsertContact().rows, ["email", "name"])
    ensures M.CheckInputs(CONTACTS.fields, POLICY, UpsertContact(), ["email", "name"]) == Ok(())
  {
    ContactNames();
    ContactFields();
    var m, names := UpsertContact(), ["email", "name"];
    assert "email" in names && "name" in names;
    assert names[1..] == ["name"] && names[1..][1..] == [];
    assert m.rows[1..] == [];
    assert M.CheckInput(CONTACTS.fields, POLICY, m, "email") == Ok(());
    assert M.CheckInput(CONTACTS.fields, POLICY, m, "name") == Ok(());
    assert M.CheckInputs(CONTACTS.fields, POLICY, m, names[1..]) == Ok(());
  }

  lemma ContactUpdates()
    ensures M.UpdateNames(POLICY, UpsertContact(), ["email", "name"]) == Ok(["name"])
    ensures M.CheckRequired(POLICY.fields, ["email", "name"]) == Ok(())
  {
    ContactFields();
    var names := ["email", "name"];
    assert names[1..] == ["name"] && names[1..][1..] == [] && ["email"][1..] == [];
    assert M.Updatable(POLICY, "name") && !M.Updatable(POLICY, "email");
    assert M.UpdatableNames(POLICY, []) == [];
    assert M.UpdatableNames(POLICY, names[1..]) == ["name"];
    assert M.UpdatableNames(POLICY, names) == ["name"];
    assert M.CheckConflictInputs(["email"], names).Ok?;
  }

  lemma ContactCompiles() returns (c: M.CompiledMutation)
    ensures U.AcceptedUpsert(UpsertContact(), CONTACTS, POLICY, c)
  {
    ContactNames();
    ContactPolicyHolds();
    ContactInputs();
    ContactUpdates();
    hide M.WritableModelHolds, M.CheckInputs, M.UpdateNames, M.CheckRequired, M.Render;
    c := M.CompileFor(UpsertContact(), CONTACTS, POLICY).value;
  }

  const WRITER: M.MutationCapabilities := M.MutationCapabilities("writer", {"contacts"})

  const WRITE_LIMITS: M.MutationCompilerOptions := M.MutationCompilerOptions(100, 65536)

  lemma ContactTarget()
    ensures M.WritableTarget(UpsertContact(), 200, ContactsSnapshot(), WRITER, WRITE_LIMITS, C.ConstantHash) == Ok((CONTACTS, POLICY))
  {
    hide M.WritableModelHolds, RevisionHashHolds, Blank, Contact;
    ContactPolicyHolds();
    DigestHolds("1", [CONTACTS]);
    Worded("writer");
    assert M.CheckSnapshot(ContactsSnapshot(), C.ConstantHash) == Ok(());
    assert Lookup([CONTACTS], ModelName, "contacts") == Some(CONTACTS);
  }

  /** A row with a NULL in its key matches nothing, so it is inserted whatever the table holds. */
  lemma NullKeyInserts(table: seq<Row>, row: Row, key: seq<string>, updates: seq<string>)
    requires key != [] && Cell(row, key[0]) == Null
    ensures U.UpsertAll(table, [row], key, updates) == Ok(U.Effect(table + [row], [|table|]))
  {
    var rows, first := [row], U.Effect(table, []);
    assert rows[..|rows| - 1] == [];
    assert U.UpsertAll(table, rows[..|rows| - 1], key, updates) == Ok(first);
    assert first.affected + [|table|] == [|table|];
    forall other: Row
      ensures !U.SameKey(other, row, key)
    {
      if Cell(other, key[0]) != Null {
        assert Cell(other, key[0]) != Cell(row, key[0]);
      }
    }
    assert U.MatchIndex(table, row, key).None?;
  }

  /**
   An accepted upsert that inserts every time it is executed: its key is a nullable field and holds a NULL.
   */
  lemma NullKeyAddsRows(env: U.Environment, table: seq<Row>)
    requires env.assign("email", env.cast(TextType, M.NullValue)) == Null
    ensures M.RequestHolds(UpsertContact()) && M.RowsAgree(UpsertContact())
    ensures var r := M.CompileMutation(UpsertContact(), 200, ContactsSnapshot(), WRITER, WRITE_LIMITS, C.ConstantHash);
      && r.Ok? && U.AcceptedUpsert(UpsertContact(), CONTACTS, POLICY, r.value) && U.Bound(r.value.statement, r.value.parameters)
      && var once := U.Execute(r.value.statement, r.value.parameters, env, table);
      && once.Ok? && |once.value.table| == |table| + 1
      && var twice := U.Execute(r.value.statement, r.value.parameters, env, once.value.table);
      && twice.Ok? && |twice.value.table| == |table| + 2
  {
    hide M.WritableTarget, M.CompileFor, M.WritableModelHolds, U.Bound, U.Execute, M.RequestHolds, M.RowsAgree;
    ContactWellFormed();
    ContactNames();
    ContactTarget();
    var c := ContactCompiles();
    ContactExecutes(c, env, table);
    ContactExecutes(c, env, U.Execute(c.statement, c.parameters, env, table).value.table);
  }

  lemma ContactExecutes(c: M.CompiledMutation, env: U.Environment, table: seq<Row>)
    requires U.AcceptedUpsert(UpsertContact(), CONTACTS, POLICY, c) && env.assign("email", env.cast(TextType, M.NullValue)) == Null
    ensures U.Bound(c.statement, c.parameters)
    ensures var e := U.Execute(c.statement, c.parameters, env, table); e.Ok? && |e.value.table| == |table| + 1
  {
    var m := UpsertContact();
    var updates := U.AcceptedUpsertSplits(m, CONTACTS, POLICY, c);
    U.StatementBound(m, CONTACTS, POLICY, c, updates);
    ContactNames();
    ContactFields();
    assert c.statement.columns == ["email", "name"];
    U.ProposedCell(m, CONTACTS, POLICY, c, updates, env, 0, "email");
    var rows := U.ProposedRows(c.statement, c.parameters, env);
    assert rows == [rows[0]];
    NullKeyInserts(table, rows[0], c.statement.conflict.value.target, c.statement.conflict.value.updates);
  }
}
