/**
 From the query's filter and joins to the characters sent to PostgreSQL and back to a meaning. The flat plan
 sends its FROM clause as it is rendered; the anchored plan indents it first, names included.
 */
module FilterText {
  import opened Prelude
  import opened Semantic
  import opened Relational
  import opened Meaning
  import opened Compiler
  import opened RenderingProofs
  import opened SqlText
  import opened SqlTextProofs
  import opened FromTextProofs
  import opened LsqValidation
  import opened PlanProofs
  import opened AnswerTheorem

  /** A filter that passed validation is rendered to a predicate the printer covers: nothing in it is empty. */
  lemma {:induction false} RenderedIsPrintable(model: Model, names: seq<string>, f: Filter, rf: ResolvedFilter, st: RenderState)
    requires WellShaped(f) && ResolveFilter(model, f) == Ok(rf) && RenderFilter(model, names, rf, st).Ok?
    ensures Printable(RenderFilter(model, names, rf, st).value.item)
    decreases f
  {
    match f
    case And(args) => RenderedArePrintable(model, names, args, rf.args, st);
    case Or(args) => RenderedArePrintable(model, names, args, rf.args, st);
    case Not(arg) => RenderedIsPrintable(model, names, arg, rf.arg, st);
    case In(field, values) => OptionsArePrintable(rf.field.dataType, rf.values, RenderField(model, names, rf.field, st).value.state);
    case _ =>
  }

  lemma {:induction false} RenderedArePrintable(model: Model, names: seq<string>, fs: seq<Filter>, rfs: seq<ResolvedFilter>, st: RenderState)
    requires (forall i :: 0 <= i < |fs| ==> WellShaped(fs[i])) && ResolveFilters(model, fs) == Ok(rfs) && RenderFilters(model, names, rfs, st).Ok?
    ensures |RenderFilters(model, names, rfs, st).value.item| == |fs| && AllPrintable(RenderFilters(model, names, rfs, st).value.item)
    decreases fs
  {
    if fs != [] {
      assert rfs[0] == ResolveFilter(model, fs[0]).value && rfs[1..] == ResolveFilters(model, fs[1..]).value;
      RenderedIsPrintable(model, names, fs[0], rfs[0], st);
      RenderedArePrintable(model, names, fs[1..], rfs[1..], RenderFilter(model, names, rfs[0], st).value.state);
    }
  }

  lemma {:induction false} OptionsArePrintable(t: DataType, values: seq<Literal>, st: RenderState)
    ensures var options := RenderOptions(t, values, st).item; |options| == |values| && forall i :: 0 <= i < |options| ==> options[i].Param?
  {
    if values != [] {
      OptionsArePrintable(t, values[1..], PushParameter(st, t, values[0]).state);
    }
  }

  /**
   The text of an accepted filter, read back with SQL's lexical rules and precedence, has on every
   combination of rows the three-valued result of the query's filter on its own literals: always as
   the flat plan sends it, and as the anchored plan sends it exactly when no column name in it has a newline.
   */
  lemma FilterTextMeans(model: Model, names: seq<string>, f: Filter, rf: ResolvedFilter, st: RenderState,
                        base: Row, partners: map<string, Row>, final: seq<CompiledParameter>, it: Interpretation)
    returns (p: Pred)
    requires WellShaped(f) && Covers(names, partners) && Numbered(st.parameters)
    requires ResolveFilter(model, f) == Ok(rf)
    requires var r := RenderFilter(model, names, rf, st); r.Ok? && r.value.state.parameters <= final
    ensures Printable(RenderFilter(model, names, rf, st).value.item)
    ensures EvalPred(p, Joined(TupleOf(names, base, partners)), final, it) == FilterMeaning(it, model, f, base, partners)
    ensures Read(PredText(RenderFilter(model, names, rf, st).value.item)) == Some(p)
    ensures Read(Indent(PredText(RenderFilter(model, names, rf, st).value.item))) == Some(p)
        <==> NoNewlines(ColumnsOf(RenderFilter(model, names, rf, st).value.item))
  {
    var rendered := RenderFilter(model, names, rf, st).value.item;
    RenderedIsPrintable(model, names, f, rf, st);
    PrintedPredicateReadsBack(rendered);
    IndentedPredicateReads(rendered);
    FilterMeans(model, names, f, rf, st, base, partners, final, it);
    p := Collapse(rendered);
  }

  // ----- the FROM clause of a compiled query -----

  predicate TwoStage(q: Select) { q.source.Stage? }

  function FromOf(q: Select): Source {
    if q.source.Stage? then q.source.inner.source else q.source
  }

  function WithFrom(q: Select, src: Source): Select {
    if q.source.Stage? then q.(source := Stage(q.source.inner.(source := src))) else q.(source := src)
  }

  lemma RenderedFromPrintable(q: Query, s: Snapshot, v: ValidatedQuery, names: seq<string>, st: RenderState)
    requires Accepted(q, s, v) && (q.filters.Some? ==> WellShaped(q.filters.value)) && RenderFrom(v, names, st).Ok?
    ensures PrintableFrom(RenderFrom(v, names, st).value.item)
  {
    hide RenderFilter, WellShaped, Printable, ResolveFilter;
    if q.filters.Some? {
      var joined := st.(columns := st.columns + JoinColumns(v.model, v.relationships));
      OptionalFilterResolves(v.model, q.filters, v.filter);
      RenderedIsPrintable(v.model, names, q.filters.value, v.filter.value, joined);
    }
  }

  lemma OptionalFilterResolves(model: Model, f: Option<Filter>, rf: Option<ResolvedFilter>)
    requires ResolveOptionalFilter(model, f) == Ok(rf)
    ensures f.Some? <==> rf.Some?
    ensures f.Some? ==> ResolveFilter(model, f.value) == Ok(rf.value)
  {
  }

  lemma CompiledFromPrintable(q: Query, s: Snapshot, options: CompilerOptions, hash: Snapshot -> string)
    requires Compile(q, s, options, hash).Ok? && (q.filters.Some? ==> WellShaped(q.filters.value))
    ensures PrintableFrom(FromOf(Compile(q, s, options, hash).value.statement.query))
    ensures TwoStage(Compile(q, s, options, hash).value.statement.query) <==> Validate(q, s, options, hash).value.anchor.Some?
  {
    hide Compile, Validate, WellShaped, Accepted, RenderFrom, RenderDimensions, RenderMetrics;
    var v, plan := CompileSteps(q, s, options, hash);
    ValidateAccepts(q, s, options, hash, v);
    var st := RenderState([], {});
    EmptyIsNumbered();
    if v.anchor.Some? {
      var ds, a, ms, source := AnchoredSteps(v, v.anchor.value, Names(v), st);
      RenderedFromPrintable(q, s, v, Names(v), ms.state);
    } else {
      var ds, ms, source := FlatSteps(v, Names(v), st);
      RenderedFromPrintable(q, s, v, Names(v), ms.state);
    }
  }

  lemma EmptyIsNumbered()
    ensures Numbered([])
  {
  }

  lemma SameFromSameAnswer(q: Select, ps: seq<CompiledParameter>, it: Interpretation, db: Database)
    requires FromOf(q).From?
    ensures Eval(WithFrom(q, CollapseFrom(FromOf(q))), ps, it, db) == Eval(q, ps, it, db)
  {
    CollapsedFromSame(FromOf(q), ps, it, db);
    if q.source.Stage? {
      var inner := q.source.inner.(source := CollapseFrom(FromOf(q)));
      assert Eval(inner, ps, it, db) == Eval(q.source.inner, ps, it, db) by {
        GroupsIgnoreSource(inner, q.source.inner, SourceRows(inner.source, ps, it, db), ps, it);
      }
      GroupsIgnoreSource(WithFrom(q, CollapseFrom(FromOf(q))), q, SourceRows(q.source, ps, it, db), ps, it);
    } else {
      GroupsIgnoreSource(WithFrom(q, CollapseFrom(FromOf(q))), q, SourceRows(q.source, ps, it, db), ps, it);
    }
  }

  lemma GroupsIgnoreSource(a: Select, b: Select, rows: seq<Scope>, ps: seq<CompiledParameter>, it: Interpretation)
    requires a.keys == b.keys && a.aggregates == b.aggregates
    ensures Groups(a, rows, ps, it) == Groups(b, rows, ps, it)
  {
    forall k | k in GroupKeys(a.keys, rows, ps, it)
      ensures GroupRow(a, k, rows, ps, it) == GroupRow(b, k, rows, ps, it)
    {
    }
  }

  /**
   The FROM clause the database reads is the one compiled, for every accepted query on the flat plan, and on the anchored
   plan exactly when no name in the FROM clause has a newline; and then the statement with the
   FROM clause as read answers the query.
   */
  lemma SentFromAnswers(q: Query, s: Snapshot, options: CompilerOptions, hash: Snapshot -> string, it: Interpretation, db: Database)
    requires QueryHolds(q) && Compile(q, s, options, hash).Ok? && EntityKeysHold(s, db)
    ensures FindQueryable(s.models, q.model).Some?
    ensures var c := Compile(q, s, options, hash).value; var src := FromOf(c.statement.query);
      && PrintableFrom(src)
      && (ReadFrom(SentFrom(src, TwoStage(c.statement.query))) == Some(CollapseFrom(src))
          <==> !TwoStage(c.statement.query) || NoNewlines(FromNames(src)))
      && IsAnswer(it, db, FindQueryable(s.models, q.model).value, q, Eval(WithFrom(c.statement.query, CollapseFrom(src)), c.parameters, it, db))
  {
    hide Compile, WellShaped, EntityKeysHold, IsAnswer, ReadFrom, FromText, Indent, FromNames, Eval, PrintableFrom;
    var c := Compile(q, s, options, hash).value;
    var src := FromOf(c.statement.query);
    CompiledFromPrintable(q, s, options, hash);
    assert src.From? by {
      PrintableIsFrom(src);
    }
    CompiledQueryAnswers(q, s, options, hash, it, db);
    SameFromSameAnswer(c.statement.query, c.parameters, it, db);
    FromReadsBack(src);
    IndentedFromReads(src);
  }

  lemma PrintableIsFrom(src: Source)
    requires PrintableFrom(src)
    ensures src.From?
  {
  }
}
