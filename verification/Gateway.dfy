/**
 The way of a query through the gateway, from the request to the characters sent to PostgreSQL and from
 those characters to the rows that may come back.
 */
module Gateway {
  import opened Prelude
  import opened Semantic
  import opened Relational
  import opened Meaning
  import opened Compiler
  import opened PlanProofs
  import opened AnswerTheorem
  import opened Acceptance
  import opened SqlText
  import opened FromTextProofs
  import opened StatementText
  import opened StatementTextProofs
  import opened LsqValidation
  import opened FilterText
  import R = ResultOrder

  // ----- compiled statements are printable -----

  lemma FieldPrintable(model: Model, names: seq<string>, field: Field, st: RenderState)
    requires RenderField(model, names, field, st).Ok?
    ensures RenderField(model, names, field, st).value.item.Column?
  {
  }

  lemma {:induction false} DimensionsPrintable(model: Model, names: seq<string>, ds: seq<ResolvedDimension>, st: RenderState)
    requires RenderDimensions(model, names, ds, st).Ok?
    ensures var items := RenderDimensions(model, names, ds, st).value.item;
      |items| == |ds| && forall i :: 0 <= i < |items| ==> PrintableKey(items[i], None)
    decreases |ds|
  {
    hide RenderField;
    if ds != [] {
      FieldPrintable(model, names, ds[0].field, st);
      var d := RenderDimension(model, names, ds[0], st).value;
      assert PrintableKey(d.item, None);
      hide RenderDimension, PrintableKey;
      DimensionsPrintable(model, names, ds[1..], d.state);
    }
  }

  lemma PartsPrintable(model: Model, names: seq<string>, m: ResolvedMetric, st: RenderState)
    requires RenderMetricParts(model, names, m, st).Ok?
    ensures var parts := RenderMetricParts(model, names, m, st).value.item;
      parts.0.Column? && (parts.1.Some? ==> PrintableEqual(parts.1.value.0, parts.1.value.1))
  {
    hide RenderField;
    FieldPrintable(model, names, m.field, st);
    if m.filter.Some? {
      FieldPrintable(model, names, m.filter.value.0, RenderField(model, names, m.field, st).value.state);
    }
  }

  lemma MetricPrintable(model: Model, names: seq<string>, m: ResolvedMetric, anchored: bool, st: RenderState)
    requires OneMetric(model, names, m, anchored, st).Ok?
    ensures PrintableAggregate(OneMetric(model, names, m, anchored, st).value.item, None)
  {
    hide RenderMetricParts;
    PartsPrintable(model, names, m, st);
  }

  lemma {:induction false} MetricsPrintable(model: Model, names: seq<string>, ms: seq<ResolvedMetric>, anchored: bool, st: RenderState)
    requires RenderMetrics(model, names, ms, anchored, st).Ok?
    ensures var items := RenderMetrics(model, names, ms, anchored, st).value.item;
      |items| == |ms| && forall i :: 0 <= i < |items| ==> PrintableAggregate(items[i], None)
    decreases |ms|
  {
    hide RenderMetric, RenderMetricInput, PrintableAggregate;
    if ms != [] {
      MetricPrintable(model, names, ms[0], anchored, st);
      MetricsPrintable(model, names, ms[1..], anchored, OneMetric(model, names, ms[0], anchored, st).value.state);
    }
  }

  lemma StageIsPrintable(q: Select, names: seq<string>, columns: Columns)
    requires |names| == |q.keys| + |q.aggregates| && names != []
    requires forall i :: 0 <= i < |q.keys| ==> PrintableKey(q.keys[i], columns)
    requires forall i :: 0 <= i < |q.aggregates| ==> PrintableAggregate(q.aggregates[i], columns)
    ensures PrintableStage(q, names, columns)
  {
    hide PrintableKey, PrintableAggregate, ItemsOf;
    var items := ItemsOf(q, names);
    forall i | 0 <= i < |items|
      ensures PrintableItem(items[i], columns)
    {
      if i >= |q.keys| {
        assert items[i] == AggregateItem(q.aggregates[i - |q.keys|], names[i]);
      }
    }
  }

  lemma OuterPrintable(ms: seq<ResolvedMetric>, dimensions: nat, names: seq<string>, columns: seq<string>, source: Source)
    requires |names| == dimensions + |ms| && names != [] && |columns| == dimensions + 1 + |ms|
    ensures PrintableStage(Select(source, OuterKeys(dimensions), OuterMetrics(ms, dimensions)), names, Some(columns))
  {
    hide OuterKeys, OuterMetrics;
    StageIsPrintable(Select(source, OuterKeys(dimensions), OuterMetrics(ms, dimensions)), names, Some(columns));
  }

  lemma KeyAppended(keys: seq<Expr>, e: Expr)
    requires e.Column? && forall i :: 0 <= i < |keys| ==> PrintableKey(keys[i], None)
    ensures forall i :: 0 <= i < |keys + [e]| ==> PrintableKey((keys + [e])[i], None)
  {
  }

  /** Dimensions, then metrics, under the names of the output schema. */
  lemma PlanPrintable(q: Query, s: Snapshot, v: ValidatedQuery, names: seq<string>, orderBy: seq<OrderBy>, limit: nat)
    requires Accepted(q, s, v) && RenderPlan(v).Ok? && (q.filters.Some? ==> WellShaped(q.filters.value))
    requires |names| == |v.dimensions| + |v.metrics| && names != []
    ensures PrintableStatement(Statement(RenderPlan(v).value.item, orderBy, limit), names)
  {
    hide Accepted, WellShaped, RenderDimensions, RenderMetrics, RenderFrom, PrintableFrom, PrintableStage, PrintableKey, PrintableAggregate, InnerNames;
    var st := RenderState([], {});
    EmptyIsNumbered();
    if v.anchor.Some? {
      var ds, a, ms, source := AnchoredSteps(v, v.anchor.value, Names(v), st);
      RenderedFromPrintable(q, s, v, Names(v), ms.state);
      FieldPrintable(v.model, Names(v), v.anchor.value, ds.state);
      DimensionsPrintable(v.model, Names(v), v.dimensions, st);
      MetricsPrintable(v.model, Names(v), v.metrics, true, a.state);
      KeyAppended(ds.item, a.item);
      var inner := Select(source.item, ds.item + [a.item], ms.item);
      StageIsPrintable(inner, InnerNamesOf(inner), None);
      OuterPrintable(v.metrics, |v.dimensions|, names, InnerNamesOf(inner), Stage(inner));
    } else {
      var ds, ms, source := FlatSteps(v, Names(v), st);
      RenderedFromPrintable(q, s, v, Names(v), ms.state);
      DimensionsPrintable(v.model, Names(v), v.dimensions, st);
      MetricsPrintable(v.model, Names(v), v.metrics, false, ds.state);
      StageIsPrintable(RenderPlan(v).value.item, names, None);
      PrintableIsFrom(source.item);
    }
  }

  lemma AcceptedCounts(q: Query, s: Snapshot, v: ValidatedQuery)
    requires Accepted(q, s, v)
    ensures |v.dimensions| == |q.dimensions| && |v.metrics| == |q.metrics|
    ensures R.Named(DimensionColumns(v.dimensions) + MetricColumns(v.metrics), OutputNames(q)) && |OutputNames(q)| == |q.dimensions| + |q.metrics|
  {
    hide ResolveDimensions, ResolveMetrics, ResolveRelationships, ResolveAnchor, ResolveOptionalFilter, DimensionNames, DimensionColumns, MetricColumns, RecordAll, UsedFields;
    R.SchemaNamed(q, s, v);
  }

  /** The names PostgreSQL gives the output columns. */
  function OutputColumns(c: CompiledQuery): seq<string> {
    R.SchemaNames(c.outputSchema)
  }

  /** What an accepted query is compiled to can be written down. */
  lemma CompiledIsPrintable(q: Query, s: Snapshot, options: CompilerOptions, hash: Snapshot -> string)
    requires QueryHolds(q) && Compile(q, s, options, hash).Ok?
    ensures var c := Compile(q, s, options, hash).value; PrintableStatement(c.statement, OutputColumns(c)) && OutputColumns(c) == OutputNames(q)
  {
    hide Validate, RenderPlan, Accepted, WellShaped, PrintableStatement, OutputNames;
    var v, plan := CompileSteps(q, s, options, hash);
    var c := Compile(q, s, options, hash).value;
    ValidateAccepts(q, s, options, hash, v);
    AcceptedCounts(q, s, v);
    R.NamedNames(c.outputSchema, OutputNames(q));
    PlanPrintable(q, s, v, OutputNames(q), c.statement.orderBy, c.statement.limit);
  }

  // ----- what is read is what was compiled -----

  /** The statement with one-argument AND and OR replaced by their argument. */
  function Collapsed(st: Statement): Statement {
    if FromOf(st.query).From? then st.(query := WithFrom(st.query, CollapseFrom(FromOf(st.query)))) else st
  }

  /** The flat plan sends its names as they are; the anchored plan needs names without newlines in its FROM clause. */
  predicate SentIntact(st: Statement) {
    TwoStage(st.query) ==> FromOf(st.query).From? && NoNewlines(FromNames(FromOf(st.query)))
  }

  lemma PrintedFrom(st: Statement, names: seq<string>)
    requires PrintableStatement(st, names)
    ensures FromOf(st.query).From? && (st.query.source.From? || st.query.source.inner.source.From?)
  {
  }

  /** The whole text of a statement reads back as the statement exactly when its names are sent intact. */
  lemma StatementReadsExactly(st: Statement, names: seq<string>)
    requires PrintableStatement(st, names)
    ensures ReadStatement(SentText(st, names)) == Some(Sent(Collapsed(st), names)) <==> SentIntact(st)
  {
    hide ReadStatement, SentText, PrintableStatement, IndentFrom, CollapseFrom, NoNewlines, FromNames;
    PrintedFrom(st, names);
    StatementReads(st, names);
    FromExactly(FromOf(st.query));
    if st.query.source.Stage? {
      IndentIsFrom(st.query.source.inner.source);
    }
  }

  lemma IndentIsFrom(src: Source)
    requires src.From?
    ensures IndentFrom(src).From?
  {
  }

  /** A collapsed condition yields the same groups, and so the same rows. */
  lemma CollapsedReturns(st: Statement, columns: seq<string>, ps: seq<CompiledParameter>, it: Interpretation, db: Database, rows: seq<seq<Value>>)
    ensures R.Returns(Collapsed(st), columns, ps, it, db, rows) == R.Returns(st, columns, ps, it, db, rows)
  {
    hide Eval, CollapseFrom, R.Listed, R.AreRows;
    if FromOf(st.query).From? {
      SameFromSameAnswer(st.query, ps, it, db);
    }
  }

  // ----- the whole way -----

  datatype RequestError = InvalidQuery(lsq: LsqError) | NotCompiled(compile: CompileError)

  /** Rows may come back for the text exactly if they are a result of the query. */
  ghost predicate Answered(text: string, ps: seq<CompiledParameter>, it: Interpretation, db: Database, model: Model, q: Query, limit: nat) {
    var read := ReadStatement(text);
    && read.Some?
    && forall rows :: R.Returns(read.value.statement, read.value.names, ps, it, db, rows) <==> exists keys :: R.IsResult(it, db, model, q, limit, keys, rows)
  }

  /** The text answers the query on every database of the snapshot in which entity keys are keys. */
  ghost predicate AlwaysAnswered(text: string, ps: seq<CompiledParameter>, s: Snapshot, q: Query, limit: nat) {
    && FindQueryable(s.models, q.model).Some?
    && forall it, db :: EntityKeysHold(s, db) ==> Answered(text, ps, it, db, FindQueryable(s.models, q.model).value, q, limit)
  }

  lemma ReadAnswers(q: Query, s: Snapshot, options: CompilerOptions, hash: Snapshot -> string, text: string, it: Interpretation, db: Database)
    requires QueryHolds(q) && Compile(q, s, options, hash).Ok? && EntityKeysHold(s, db)
    requires var c := Compile(q, s, options, hash).value; ReadStatement(text) == Some(Sent(Collapsed(c.statement), OutputColumns(c)))
    ensures FindQueryable(s.models, q.model).Some?
    ensures Answered(text, Compile(q, s, options, hash).value.parameters, it, db, FindQueryable(s.models, q.model).value, q, LimitOf(q, options))
  {
    hide QueryHolds, Compile, ReadStatement, Collapsed, EntityKeysHold, FindQueryable, R.Returns, R.IsResult;
    var c := Compile(q, s, options, hash).value;
    var nothing: seq<seq<Value>> := [];
    R.CompiledQueryReturns(q, s, options, hash, it, db, nothing);
    forall rows
      ensures R.Returns(Collapsed(c.statement), OutputColumns(c), c.parameters, it, db, rows)
        <==> exists keys :: R.IsResult(it, db, FindQueryable(s.models, q.model).value, q, LimitOf(q, options), keys, rows)
    {
      CollapsedReturns(c.statement, OutputColumns(c), c.parameters, it, db, rows);
      R.CompiledQueryReturns(q, s, options, hash, it, db, rows);
    }
  }

  lemma CompiledModel(q: Query, s: Snapshot, options: CompilerOptions, hash: Snapshot -> string)
    requires Compile(q, s, options, hash).Ok?
    ensures FindQueryable(s.models, q.model).Some?
  {
    hide ValidateFor, Render, FindQueryable;
  }

  /**
   The whole text is read as the statement compiled exactly when no newline is in the names the anchored plan
   indents; and then the rows PostgreSQL may return for that text are the results of the query.
   */
  ghost predicate SentFaithfully(c: CompiledQuery, s: Snapshot, q: Query, limit: nat) {
    && PrintableStatement(c.statement, OutputColumns(c))
    && var text := SentText(c.statement, OutputColumns(c));
    && (ReadStatement(text) == Some(Sent(Collapsed(c.statement), OutputColumns(c))) <==> SentIntact(c.statement))
    && (SentIntact(c.statement) ==> AlwaysAnswered(text, c.parameters, s, q, limit))
  }

  /** Every query the gateway accepts is sent faithfully. */
  lemma SentStatementAnswers(q: Query, s: Snapshot, options: CompilerOptions, hash: Snapshot -> string)
    requires QueryHolds(q) && Compile(q, s, options, hash).Ok?
    ensures SentFaithfully(Compile(q, s, options, hash).value, s, q, LimitOf(q, options))
  {
    hide QueryHolds, Compile, PrintableStatement, ReadStatement, SentText, SentIntact, Collapsed, EntityKeysHold, FindQueryable, OutputColumns, Answered;
    var c := Compile(q, s, options, hash).value;
    CompiledIsPrintable(q, s, options, hash);
    StatementReadsExactly(c.statement, OutputColumns(c));
    CompiledModel(q, s, options, hash);
    if SentIntact(c.statement) {
      forall it, db | EntityKeysHold(s, db)
        ensures Answered(SentText(c.statement, OutputColumns(c)), c.parameters, it, db, FindQueryable(s.models, q.model).value, q, LimitOf(q, options))
      {
        ReadAnswers(q, s, options, hash, SentText(c.statement, OutputColumns(c)), it, db);
      }
    }
  }

  /** The first check of the request that fails. */
  ghost predicate RequestRefused(q: Query, s: Snapshot, options: CompilerOptions, hash: Snapshot -> string, e: RequestError) {
    if QueryHolds(q) then e.NotCompiled? && CompileRefused(q, s, options, hash, e.compile) else e.InvalidQuery? && QueryRefused(q, e.lsq)
  }

  /** Unless names are sent altered, text and parameters answer the query. */
  ghost predicate RequestAnswered(q: Query, s: Snapshot, options: CompilerOptions, hash: Snapshot -> string, text: string, ps: seq<CompiledParameter>) {
    && Compile(q, s, options, hash).Ok?
    && (SentIntact(Compile(q, s, options, hash).value.statement) ==> AlwaysAnswered(text, ps, s, q, LimitOf(q, options)))
  }

  /** `normalize_lsq`, then `compile_lsq`: the text and the parameters of one statement, or the first refusal. */
  method CompileRequest(q: Query, s: Snapshot, options: CompilerOptions, hash: Snapshot -> string) returns (r: Result<(string, seq<CompiledParameter>), RequestError>)
    ensures r.Ok? <==> QueryHolds(q) && Compilable(q, s, options, hash)
    ensures r.Err? ==> RequestRefused(q, s, options, hash, r.error)
    ensures r.Ok? ==> RequestAnswered(q, s, options, hash, r.value.0, r.value.1)
  {
    hide QueryHolds, QueryRefused, Compile, Compilable, CompileRefused, SentText, SentIntact, AlwaysAnswered, PrintableStatement, ReadStatement, Collapsed;
    var valid := ValidateQuery(q);
    if valid.Err? {
      return Err(InvalidQuery(valid.error));
    }
    CompilesExactly(q, s, options, hash);
    var compiled := Compile(q, s, options, hash);
    if compiled.Err? {
      return Err(NotCompiled(compiled.error));
    }
    var c := compiled.value;
    SentStatementAnswers(q, s, options, hash);
    return Ok((SentText(c.statement, OutputColumns(c)), c.parameters));
  }
}
