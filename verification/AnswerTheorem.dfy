/** Puts validation, rendering and evaluation together. */
module AnswerTheorem {
  import opened Prelude
  import opened Bags
  import opened Semantic
  import opened Relational
  import opened Compiler
  import opened Meaning
  import opened RenderingProofs
  import opened PlanProofs
  import opened QueryTheorem

  lemma ValidateForAccepts(q: Query, s: Snapshot, model: Model, limit: nat, v: ValidatedQuery)
    requires model in s.models && ValidateFor(q, s, model, limit) == Ok(v)
    ensures Accepted(q, s, v) && v.model == model && v.limit == limit && v.orderBy == q.orderBy
  {
    var ds := ResolveDimensions(model, q.dimensions);
    assert ds.Ok?;
    var ms := ResolveMetrics(s.schemaVersion, model, q.metrics);
    assert ms.Ok?;
    var f := ResolveOptionalFilter(model, q.filters);
    assert f.Ok?;
    var rels := ResolveRelationships(s, model, RecordAll([], UsedFields(ds.value, ms.value, f.value)));
    assert rels.Ok?;
    assert ResolveAnchor(rels.value, ms.value).Ok?;
  }

  lemma ValidateFinds(q: Query, s: Snapshot, options: CompilerOptions, hash: Snapshot -> string, v: ValidatedQuery)
    requires Validate(q, s, options, hash) == Ok(v)
    ensures var found := FindQueryable(s.models, q.model);
      found.Some? && ValidateFor(q, s, found.value, LimitOf(q, options)) == Ok(v)
  {
  }

  lemma ValidateAccepts(q: Query, s: Snapshot, options: CompilerOptions, hash: Snapshot -> string, v: ValidatedQuery)
    requires Validate(q, s, options, hash) == Ok(v)
    ensures Accepted(q, s, v) && FindQueryable(s.models, q.model) == Some(v.model) && v.limit == LimitOf(q, options)
  {
    ValidateFinds(q, s, options, hash, v);
    ValidateForAccepts(q, s, FindQueryable(s.models, q.model).value, LimitOf(q, options), v);
  }

  /** In an accepted fan-out query every metric shares one anchor, a key column of the base relation. */
  lemma AnchorFacts(q: Query, s: Snapshot, v: ValidatedQuery, db: Database)
    requires Accepted(q, s, v) && v.anchor.Some? && EntityKeysHold(s, db)
    ensures v.anchor.value.relationship.None? && IsKeyColumn(Table(db, v.model.source), v.anchor.value.column)
    ensures forall m :: m in v.metrics ==> LocalFilter(m) && m.anchor == v.anchor
  {
    assert AnchorFrom(v.metrics, None) == Ok(v.anchor);
    var m :| m in v.metrics && m.anchor == v.anchor;
    AnchorResolved(s.schemaVersion, v.model, q.metrics, v.metrics, m);
    forall n | n in v.metrics
      ensures n.anchor == v.anchor
    {
      AnchorResolved(s.schemaVersion, v.model, q.metrics, v.metrics, n);
    }
  }

  lemma ResolvedAnchor(version: string, model: Model, name: string, m: ResolvedMetric)
    requires ResolveMetric(version, model, name) == Ok(m)
    ensures ResolveMetricAnchor(model, m.metric) == Ok(m.anchor) && Lookup(model.metrics, MetricName, name) == Some(m.metric)
  {
  }

  lemma AnchorResolved(version: string, model: Model, names: seq<string>, ms: seq<ResolvedMetric>, m: ResolvedMetric)
    requires ResolveMetrics(version, model, names) == Ok(ms) && m in ms && m.anchor.Some?
    ensures Lookup(model.fields, FieldName, m.anchor.value.semanticName) == m.anchor
    ensures m.anchor.value in model.fields && m.anchor.value.relationship.None? && m.anchor.value.entityKey
  {
    hide ResolveMetrics, ResolveMetric;
    var i :| 0 <= i < |ms| && ms[i] == m;
    ResolvedAnchor(version, model, names[i], m);
  }

  // ----- the rendered aggregates -----

  ghost predicate AggregateFor(m: ResolvedMetric, anchored: bool, parts: (Expr, Option<(Expr, Expr)>), agg: AggregateExpr) {
    agg == if anchored then InnerAggregate(parts) else AggregateExpr(m.metric.aggregation, parts.0, parts.1)
  }

  ghost predicate PartsAt(model: Model, names: seq<string>, m: ResolvedMetric, st: RenderState, parts: (Expr, Option<(Expr, Expr)>), final: seq<CompiledParameter>) {
    var r := RenderMetricParts(model, names, m, st);
    Numbered(st.parameters) && r.Ok? && r.value.item == parts && r.value.state.parameters <= final
  }

  ghost function OneMetric(model: Model, names: seq<string>, m: ResolvedMetric, anchored: bool, st: RenderState): Result<Rendered<AggregateExpr>, CompileError> {
    if anchored then RenderMetricInput(model, names, m, st) else RenderMetric(model, names, m, st)
  }

  lemma OneMetricRendered(model: Model, names: seq<string>, m: ResolvedMetric, anchored: bool, st: RenderState, final: seq<CompiledParameter>)
    requires Numbered(st.parameters) && OneMetric(model, names, m, anchored, st).Ok?
    ensures var r, parts := OneMetric(model, names, m, anchored, st).value, RenderMetricParts(model, names, m, st);
      && parts.Ok? && parts.value.state == r.state && Numbered(r.state.parameters)
      && (r.state.parameters <= final ==> PartsAt(model, names, m, st, parts.value.item, final))
      && AggregateFor(m, anchored, parts.value.item, r.item)
  {
    MetricPartsGrow(model, names, m, st);
    hide RenderMetricParts;
  }

  lemma GrowthIsPrefix(a: RenderState, b: RenderState, final: seq<CompiledParameter>)
    requires Grows(a, b) && b.parameters <= final
    ensures a.parameters <= final
  {
  }

  lemma {:induction false} MetricsRendered(model: Model, names: seq<string>, ms: seq<ResolvedMetric>, anchored: bool, st: RenderState, final: seq<CompiledParameter>)
    returns (sts: seq<RenderState>, parts: seq<(Expr, Option<(Expr, Expr)>)>)
    requires Numbered(st.parameters)
    requires var r := RenderMetrics(model, names, ms, anchored, st); r.Ok? && r.value.state.parameters <= final
    ensures var items := RenderMetrics(model, names, ms, anchored, st).value.item;
      && |sts| == |parts| == |items| == |ms|
      && forall i :: 0 <= i < |ms| ==> PartsAt(model, names, ms[i], sts[i], parts[i], final) && AggregateFor(ms[i], anchored, parts[i], items[i])
  {
    hide PartsAt, AggregateFor, Numbered, Grows, RenderMetric, RenderMetricInput, RenderMetricParts;
    if ms == [] {
      sts, parts := [], [];
    } else {
      var m := OneMetric(model, names, ms[0], anchored, st);
      OneMetricRendered(model, names, ms[0], anchored, st, final);
      MetricsGrow(model, names, ms[1..], anchored, m.value.state);
      GrowthIsPrefix(m.value.state, RenderMetrics(model, names, ms[1..], anchored, m.value.state).value.state, final);
      var moreStates, moreParts := MetricsRendered(model, names, ms[1..], anchored, m.value.state, final);
      sts, parts := [st] + moreStates, [RenderMetricParts(model, names, ms[0], st).value.item] + moreParts;
    }
  }

  /** Keys and aggregates of a plan, rendered for a sound job. */
  ghost predicate PlanRendered(j: Job, anchored: bool, keys: seq<Expr>, parts: seq<(Expr, Option<(Expr, Expr)>)>, aggs: seq<AggregateExpr>) {
    && Sound(j) && KeysRendered(j, keys) && |keys| == |j.v.dimensions| && |aggs| == |parts| == |j.v.metrics|
    && forall i :: 0 <= i < |aggs| ==> PartsRendered(j, i, parts[i]) && AggregateFor(j.v.metrics[i], anchored, parts[i], aggs[i])
  }

  ghost predicate Answers(j: Job, answer: map<seq<Value>, seq<Value>>) {
    && (forall k :: k in answer <==> IsGroup(j.it, j.db, j.v.model, j.q, k))
    && (forall k :: k in answer ==> |answer[k]| == |j.v.metrics|)
    && (forall k, i :: k in answer && 0 <= i < |j.v.metrics| && i < |answer[k]| ==>
          answer[k][i] == MetricMeaning(j.it, j.db, j.v.model, j.q, j.v.metrics[i].metric, k))
  }

  lemma KeysCount(j: Job)
    requires Sound(j)
    ensures |j.v.dimensions| == |j.q.dimensions| && |j.v.metrics| == |j.q.metrics|
  {
  }

  /** The flat plan answers the query. */
  lemma FlatAnswers(j: Job, keys: seq<Expr>, parts: seq<(Expr, Option<(Expr, Expr)>)>, aggs: seq<AggregateExpr>)
    requires PlanRendered(j, false, keys, parts, aggs) && j.v.anchor.None? && EntityKeysHold(j.s, j.db)
    ensures Answers(j, Groups(Select(From(j.v.model.source, JoinsOf(j.v.relationships), j.condition), keys, aggs), JoinedRows(j), j.final, j.it))
  {
    hide Sound, KeysRendered, PartsRendered;
    var q := Select(From(j.v.model.source, JoinsOf(j.v.relationships), j.condition), keys, aggs);
    var answer := Groups(q, JoinedRows(j), j.final, j.it);
    KeysCount(j);
    forall k
      ensures k in answer <==> IsGroup(j.it, j.db, j.v.model, j.q, k)
    {
      JoinedKeys(j, keys, k);
    }
    forall k, i | k in answer && 0 <= i < |j.v.metrics|
      ensures answer[k][i] == MetricMeaning(j.it, j.db, j.v.model, j.q, j.v.metrics[i].metric, k)
    {
      FlatInput(j, keys, i, parts[i], k, aggs[i]);
    }
  }

  ghost function InnerSelect(j: Job, keys: seq<Expr>, column: string, aggs: seq<AggregateExpr>): Select {
    Select(From(j.v.model.source, JoinsOf(j.v.relationships), j.condition), keys + [Column(0, column)], aggs)
  }

  lemma InnerAnswers(j: Job, keys: seq<Expr>, column: string, parts: seq<(Expr, Option<(Expr, Expr)>)>, aggs: seq<AggregateExpr>)
    requires PlanRendered(j, true, keys, parts, aggs) && Anchors(j, column) && forall m :: m in j.v.metrics ==> LocalFilter(m)
    ensures InnerGroups(j, keys, column, Groups(InnerSelect(j, keys, column, aggs), JoinedRows(j), j.final, j.it))
  {
    hide Sound, KeysRendered, PartsRendered;
    var q := InnerSelect(j, keys, column, aggs);
    var groups := Groups(q, JoinedRows(j), j.final, j.it);
    InnerKeysAreAllKeys(j, keys, column);
    forall base, key, i | base in BaseRows(j) && key in KeySet(j, keys, column, base) && 0 <= i < |j.v.metrics| && key in groups
      ensures groups[key][i] == LocalInput(j, i, base)
    {
      assert j.v.metrics[i] in j.v.metrics;
      InnerValue(j, keys, column, i, parts[i], base, key);
    }
  }

  lemma OuterKeyOfRow(groups: map<seq<Value>, seq<Value>>, key: seq<Value>, d: nat, ps: seq<CompiledParameter>, it: Interpretation)
    requires key in groups && |key| == d + 1
    ensures EvalExprs(OuterKeys(d), Derived(key + groups[key]), ps, it) == key[..d]
  {
  }

  /** Every key of the outer stage comes from a joined row. */
  lemma OuterKeyHasRow(j: Job, keys: seq<Expr>, column: string, groups: map<seq<Value>, seq<Value>>, rows: seq<Scope>, k: seq<Value>, x: nat)
    requires Sound(j) && KeysRendered(j, keys) && groups.Keys == AllKeys(j, keys, column, BaseRows(j))
    requires forall key :: key in Enumerate(groups.Keys) ==> key in groups
    requires rows == DerivedRows(Enumerate(groups.Keys), groups)
    requires x < |rows| && EvalExprs(OuterKeys(|keys|), rows[x], j.final, j.it) == k
    ensures exists base, t :: base in BaseRows(j) && t in Rows(j, base) && EvalExprs(keys, t, j.final, j.it) == k
  {
    hide Sound, KeysRendered;
    var key := Enumerate(groups.Keys)[x];
    assert key in Enumerate(groups.Keys);
    AllKeysMember(j, keys, column, BaseRows(j), key);
    var base :| base in BaseRows(j) && key in KeySet(j, keys, column, base);
    KeyEndsInAnchor(j, keys, column, base, key);
    OuterKeyOfRow(groups, key, |keys|, j.final, j.it);
    var t :| t in Rows(j, base) && InnerKey(keys, column, t, j) == key;
    InnerKeySplits(j, keys, column, base, t);
    assert EvalExprs(keys, t, j.final, j.it) == key[..|keys|] == k;
  }

  /** And every joined row's key is one. */
  lemma RowHasOuterKey(j: Job, keys: seq<Expr>, column: string, groups: map<seq<Value>, seq<Value>>, rows: seq<Scope>, base: Row, t: Scope) returns (x: nat)
    requires Sound(j) && KeysRendered(j, keys) && groups.Keys == AllKeys(j, keys, column, BaseRows(j))
    requires forall key :: key in Enumerate(groups.Keys) ==> key in groups
    requires rows == DerivedRows(Enumerate(groups.Keys), groups)
    requires base in BaseRows(j) && t in Rows(j, base)
    ensures x < |rows| && EvalExprs(OuterKeys(|keys|), rows[x], j.final, j.it) == EvalExprs(keys, t, j.final, j.it)
  {
    hide Sound, KeysRendered;
    InnerKeySplits(j, keys, column, base, t);
    var key := InnerKey(keys, column, t, j);
    assert key in KeySet(j, keys, column, base);
    AllKeysMember(j, keys, column, BaseRows(j), key);
    EnumerateElements(groups.Keys, key);
    x :| 0 <= x < |Enumerate(groups.Keys)| && Enumerate(groups.Keys)[x] == key;
    OuterKeyOfRow(groups, key, |keys|, j.final, j.it);
    assert key[..|keys|] == EvalExprs(keys, t, j.final, j.it);
  }

  /** The outer stage's keys are the inner keys without their anchor. */
  lemma OuterGroups(j: Job, keys: seq<Expr>, column: string, groups: map<seq<Value>, seq<Value>>, rows: seq<Scope>, k: seq<Value>)
    requires Sound(j) && KeysRendered(j, keys) && groups.Keys == AllKeys(j, keys, column, BaseRows(j))
    requires forall key :: key in Enumerate(groups.Keys) ==> key in groups
    requires rows == DerivedRows(Enumerate(groups.Keys), groups)
    ensures (exists s :: s in rows && EvalExprs(OuterKeys(|keys|), s, j.final, j.it) == k)
      <==> (exists base, partners :: base in BaseRows(j) && Reaches(j.it, j.db, j.v.model, j.q, base, k, partners))
  {
    hide Sound, KeysRendered, Reaches;
    GroupsViaRows(j, keys, k);
    if s :| s in rows && EvalExprs(OuterKeys(|keys|), s, j.final, j.it) == k {
      var x :| 0 <= x < |rows| && rows[x] == s;
      OuterKeyHasRow(j, keys, column, groups, rows, k, x);
    }
    if base, t :| base in BaseRows(j) && t in Rows(j, base) && EvalExprs(keys, t, j.final, j.it) == k {
      var x := RowHasOuterKey(j, keys, column, groups, rows, base, t);
      assert rows[x] in rows;
    }
  }

  lemma AnchoredMetric(j: Job, keys: seq<Expr>, column: string, groups: map<seq<Value>, seq<Value>>, i: nat, parts: (Expr, Option<(Expr, Expr)>), k: seq<Value>, agg: AggregateExpr)
    requires Sound(j) && Anchors(j, column) && InnerGroups(j, keys, column, groups)
    requires KeysRendered(j, keys) && PartsRendered(j, i, parts) && LocalFilter(j.v.metrics[i])
    requires agg == AggregateExpr(j.v.metrics[i].metric.aggregation, Output(|keys| + 1 + i), None)
    requires forall key :: key in Enumerate(groups.Keys) ==> key in groups
    ensures Aggregate(agg.fn, Bag(DerivedRows(Enumerate(groups.Keys), groups), InputFn(agg, OuterKeys(|keys|), k, j.final, j.it)))
            == MetricMeaning(j.it, j.db, j.v.model, j.q, j.v.metrics[i].metric, k)
  {
    hide Sound, KeysRendered, PartsRendered, InnerGroups;
    AnchoredInput(j, keys, column, groups, i, parts, k, agg);
    AggregateIgnoresNull(agg.fn,
      Bag(DerivedRows(Enumerate(groups.Keys), groups), InputFn(agg, OuterKeys(|keys|), k, j.final, j.it)),
      Bag(BaseRows(j), ContributionFn(j.it, j.db, j.v.model, j.q, j.v.metrics[i].metric, k)));
  }

  lemma OuterKeysAnswer(j: Job, keys: seq<Expr>, column: string, groups: map<seq<Value>, seq<Value>>, k: seq<Value>)
    requires Sound(j) && KeysRendered(j, keys) && |keys| == |j.q.dimensions| && groups.Keys == AllKeys(j, keys, column, BaseRows(j))
    requires forall key :: key in Enumerate(groups.Keys) ==> key in groups
    ensures k in GroupKeys(OuterKeys(|keys|), DerivedRows(Enumerate(groups.Keys), groups), j.final, j.it) <==> IsGroup(j.it, j.db, j.v.model, j.q, k)
  {
    hide Sound, KeysRendered, Reaches, EvalExprs, DerivedRows, AllKeys, Enumerate;
    OuterGroups(j, keys, column, groups, DerivedRows(Enumerate(groups.Keys), groups), k);
  }

  lemma GroupsAnswer(j: Job, q: Select, rows: seq<Scope>)
    requires |q.aggregates| == |j.v.metrics|
    requires forall k :: k in GroupKeys(q.keys, rows, j.final, j.it) <==> IsGroup(j.it, j.db, j.v.model, j.q, k)
    requires forall k, i :: 0 <= i < |j.v.metrics| ==> MetricAnswers(j, q, rows, k, i)
    ensures Answers(j, Groups(q, rows, j.final, j.it))
  {
    var answer := Groups(q, rows, j.final, j.it);
    forall k, i | k in answer && 0 <= i < |j.v.metrics|
      ensures answer[k][i] == MetricMeaning(j.it, j.db, j.v.model, j.q, j.v.metrics[i].metric, k)
    {
      assert MetricAnswers(j, q, rows, k, i);
    }
  }

  ghost predicate MetricAnswers(j: Job, q: Select, rows: seq<Scope>, k: seq<Value>, i: nat)
    requires i < |j.v.metrics| == |q.aggregates|
  {
    Aggregate(q.aggregates[i].fn, Bag(rows, InputFn(q.aggregates[i], q.keys, k, j.final, j.it)))
    == MetricMeaning(j.it, j.db, j.v.model, j.q, j.v.metrics[i].metric, k)
  }

  lemma OuterStage(j: Job, keys: seq<Expr>, column: string, parts: seq<(Expr, Option<(Expr, Expr)>)>, groups: map<seq<Value>, seq<Value>>, rows: seq<Scope>, outer: Select)
    requires Sound(j) && KeysRendered(j, keys) && |keys| == |j.v.dimensions| && |parts| == |j.v.metrics|
    requires forall i :: 0 <= i < |parts| ==> PartsRendered(j, i, parts[i]) && LocalFilter(j.v.metrics[i])
    requires Anchors(j, column) && InnerGroups(j, keys, column, groups) && groups.Keys == AllKeys(j, keys, column, BaseRows(j))
    requires forall key :: key in Enumerate(groups.Keys) ==> key in groups
    requires rows == DerivedRows(Enumerate(groups.Keys), groups)
    requires outer.keys == OuterKeys(|keys|) && outer.aggregates == OuterMetrics(j.v.metrics, |keys|)
    ensures Answers(j, Groups(outer, rows, j.final, j.it))
  {
    hide Sound, KeysRendered, PartsRendered, InnerGroups, Groups, Answers, IsGroup, Anchors, AllKeys, LocalFilter;
    KeysCount(j);
    forall k
      ensures k in GroupKeys(outer.keys, rows, j.final, j.it) <==> IsGroup(j.it, j.db, j.v.model, j.q, k)
    {
      OuterKeysAnswer(j, keys, column, groups, k);
    }
    forall k, i | 0 <= i < |j.v.metrics|
      ensures MetricAnswers(j, outer, rows, k, i)
    {
      AnchoredMetric(j, keys, column, groups, i, parts[i], k, outer.aggregates[i]);
    }
    GroupsAnswer(j, outer, rows);
  }

  lemma EvalStage(inner: Select, outer: Select, ps: seq<CompiledParameter>, it: Interpretation, db: Database)
    requires outer.source == Stage(inner)
    ensures var groups := Eval(inner, ps, it, db);
      && (forall key :: key in Enumerate(groups.Keys) ==> key in groups)
      && Eval(outer, ps, it, db) == Groups(outer, DerivedRows(Enumerate(groups.Keys), groups), ps, it)
  {
    EnumeratedKeys(Eval(inner, ps, it, db));
  }

  /** The anchored plan answers the query: no fan-out, whatever the number of joined rows. */
  lemma AnchoredAnswers(j: Job, keys: seq<Expr>, column: string, parts: seq<(Expr, Option<(Expr, Expr)>)>, aggs: seq<AggregateExpr>)
    requires PlanRendered(j, true, keys, parts, aggs) && Anchors(j, column) && forall m :: m in j.v.metrics ==> LocalFilter(m)
    ensures Answers(j, Eval(Select(Stage(InnerSelect(j, keys, column, aggs)), OuterKeys(|keys|), OuterMetrics(j.v.metrics, |keys|)), j.final, j.it, j.db))
  {
    var inner := InnerSelect(j, keys, column, aggs);
    var outer := Select(Stage(inner), OuterKeys(|keys|), OuterMetrics(j.v.metrics, |keys|));
    InnerAnswers(j, keys, column, parts, aggs);
    var groups := Eval(inner, j.final, j.it, j.db);
    assert InnerGroups(j, keys, column, groups);
    EvalStage(inner, outer, j.final, j.it, j.db);
    OuterStage(j, keys, column, parts, groups, DerivedRows(Enumerate(groups.Keys), groups), outer);
  }

  // ----- from the compiler to the answer -----

  lemma PlanParts(j: Job, anchored: bool, st: RenderState, ds: Rendered<seq<Expr>>, st2: RenderState, ms: Rendered<seq<AggregateExpr>>)
    returns (parts: seq<(Expr, Option<(Expr, Expr)>)>)
    requires Sound(j) && Numbered(st.parameters) && Numbered(st2.parameters)
    requires RenderDimensions(j.v.model, Names(j.v), j.v.dimensions, st) == Ok(ds) && ds.state.parameters <= j.final
    requires RenderMetrics(j.v.model, Names(j.v), j.v.metrics, anchored, st2) == Ok(ms) && ms.state.parameters <= j.final
    ensures PlanRendered(j, anchored, ds.item, parts, ms.item)
  {
    DimensionsGrow(j.v.model, Names(j.v), j.v.dimensions, st);
    assert KeysFrom(j, ds.item, st);
    var sts;
    sts, parts := MetricsRendered(j.v.model, Names(j.v), j.v.metrics, anchored, st2, j.final);
    forall i | 0 <= i < |parts|
      ensures PartsRendered(j, i, parts[i])
    {
      assert PartsFrom(j, i, parts[i], sts[i]);
    }
  }

  lemma FlatSteps(v: ValidatedQuery, names: seq<string>, st: RenderState)
    returns (ds: Rendered<seq<Expr>>, ms: Rendered<seq<AggregateExpr>>, source: Rendered<Source>)
    requires RenderFlat(v, names, st).Ok? && Numbered(st.parameters)
    ensures RenderDimensions(v.model, names, v.dimensions, st) == Ok(ds)
    ensures RenderMetrics(v.model, names, v.metrics, false, ds.state) == Ok(ms)
    ensures RenderFrom(v, names, ms.state) == Ok(source)
    ensures RenderFlat(v, names, st) == Ok(Rendered(Select(source.item, ds.item, ms.item), source.state))
    ensures Numbered(ds.state.parameters) && Grows(ds.state, ms.state) && Grows(ms.state, source.state)
  {
    ds := RenderDimensions(v.model, names, v.dimensions, st).value;
    DimensionsGrow(v.model, names, v.dimensions, st);
    ms := RenderMetrics(v.model, names, v.metrics, false, ds.state).value;
    MetricsGrow(v.model, names, v.metrics, false, ds.state);
    source := RenderFrom(v, names, ms.state).value;
    FromGrows(v, names, ms.state);
  }

  lemma AnchoredSteps(v: ValidatedQuery, anchor: Field, names: seq<string>, st: RenderState)
    returns (ds: Rendered<seq<Expr>>, a: Rendered<Expr>, ms: Rendered<seq<AggregateExpr>>, source: Rendered<Source>)
    requires RenderAnchored(v, anchor, names, st).Ok? && Numbered(st.parameters)
    ensures RenderDimensions(v.model, names, v.dimensions, st) == Ok(ds)
    ensures RenderField(v.model, names, anchor, ds.state) == Ok(a) && a.state.parameters == ds.state.parameters
    ensures RenderMetrics(v.model, names, v.metrics, true, a.state) == Ok(ms)
    ensures RenderFrom(v, names, ms.state) == Ok(source)
    ensures RenderAnchored(v, anchor, names, st)
      == Ok(Rendered(Select(Stage(Select(source.item, ds.item + [a.item], ms.item)), OuterKeys(|v.dimensions|), OuterMetrics(v.metrics, |v.dimensions|)), source.state))
    ensures Numbered(ds.state.parameters) && Grows(ds.state, ms.state) && Grows(ms.state, source.state)
  {
    ds := RenderDimensions(v.model, names, v.dimensions, st).value;
    DimensionsGrow(v.model, names, v.dimensions, st);
    a := RenderField(v.model, names, anchor, ds.state).value;
    ms := RenderMetrics(v.model, names, v.metrics, true, a.state).value;
    MetricsGrow(v.model, names, v.metrics, true, a.state);
    source := RenderFrom(v, names, ms.state).value;
    FromGrows(v, names, ms.state);
  }

  lemma SourceShape(v: ValidatedQuery, names: seq<string>, st: RenderState)
    ensures var r := RenderFrom(v, names, st);
      r.Ok? ==> r.value.item == From(v.model.source, JoinsOf(v.relationships), if r.value.item.From? then r.value.item.condition else None)
  {
  }

  lemma FlatPlan(q: Query, s: Snapshot, v: ValidatedQuery, final: seq<CompiledParameter>, it: Interpretation, db: Database, select: Select)
    requires Accepted(q, s, v) && v.anchor.None? && EntityKeysHold(s, db)
    requires var r := RenderFlat(v, Names(v), RenderState([], {})); r.Ok? && r.value.item == select && r.value.state.parameters <= final
    ensures select.source.From? && Answers(Job(q, s, v, select.source.condition, final, it, db), Eval(select, final, it, db))
  {
    var st := RenderState([], {});
    var ds, ms, source := FlatSteps(v, Names(v), st);
    SourceShape(v, Names(v), ms.state);
    var j := Job(q, s, v, select.source.condition, final, it, db);
    assert ConditionFrom(j, ms.state);
    var parts := PlanParts(j, false, st, ds, ds.state, ms);
    FlatAnswers(j, ds.item, parts, ms.item);
  }

  lemma AnchoredPlan(q: Query, s: Snapshot, v: ValidatedQuery, final: seq<CompiledParameter>, it: Interpretation, db: Database, select: Select)
    requires Accepted(q, s, v) && v.anchor.Some? && EntityKeysHold(s, db)
    requires var r := RenderAnchored(v, v.anchor.value, Names(v), RenderState([], {})); r.Ok? && r.value.item == select && r.value.state.parameters <= final
    ensures select.source.Stage? && select.source.inner.source.From?
      && Answers(Job(q, s, v, select.source.inner.source.condition, final, it, db), Eval(select, final, it, db))
  {
    AnchorFacts(q, s, v, db);
    var st := RenderState([], {});
    var ds, a, ms, source := AnchoredSteps(v, v.anchor.value, Names(v), st);
    SourceShape(v, Names(v), ms.state);
    var j := Job(q, s, v, select.source.inner.source.condition, final, it, db);
    assert ConditionFrom(j, ms.state);
    var parts := PlanParts(j, true, st, ds, a.state, ms);
    AnchoredAnswers(j, ds.item, v.anchor.value.column, parts, ms.item);
  }

  lemma PlanGrows(v: ValidatedQuery)
    requires RenderPlan(v).Ok?
    ensures Numbered(RenderPlan(v).value.state.parameters)
  {
    var st := RenderState([], {});
    if v.anchor.Some? {
      var ds, a, ms, source := AnchoredSteps(v, v.anchor.value, Names(v), st);
    } else {
      var ds, ms, source := FlatSteps(v, Names(v), st);
    }
  }

  lemma PlanAnswers(q: Query, s: Snapshot, v: ValidatedQuery, final: seq<CompiledParameter>, it: Interpretation, db: Database, select: Select)
    requires Accepted(q, s, v) && EntityKeysHold(s, db)
    requires var r := RenderPlan(v); r.Ok? && r.value.item == select && r.value.state.parameters <= final
    ensures exists condition :: Answers(Job(q, s, v, condition, final, it, db), Eval(select, final, it, db))
  {
    if v.anchor.Some? {
      AnchoredPlan(q, s, v, final, it, db, select);
    } else {
      FlatPlan(q, s, v, final, it, db, select);
    }
  }

  lemma CompileSteps(q: Query, s: Snapshot, options: CompilerOptions, hash: Snapshot -> string) returns (v: ValidatedQuery, plan: Rendered<Select>)
    requires Compile(q, s, options, hash).Ok?
    ensures Validate(q, s, options, hash) == Ok(v) && RenderPlan(v) == Ok(plan) && Numbered(plan.state.parameters)
    ensures var c := Compile(q, s, options, hash).value; var limit := PushParameter(plan.state, IntegerType, IntegerLiteral(v.limit));
      c.statement.query == plan.item && c.parameters == limit.state.parameters && c.statement.limit == limit.item && c.statement.orderBy == v.orderBy
  {
    v := Validate(q, s, options, hash).value;
    plan := RenderPlan(v).value;
    PlanGrows(v);
  }

  /** The answer the query asks for. */
  ghost predicate IsAnswer(it: Interpretation, db: Database, model: Model, q: Query, answer: map<seq<Value>, seq<Value>>) {
    && (forall k :: k in answer <==> IsGroup(it, db, model, q, k))
    && (forall k :: k in answer ==> |answer[k]| == |q.metrics|)
    && (forall k, i :: k in answer && 0 <= i < |q.metrics| && i < |answer[k]| ==>
          var m := Lookup(model.metrics, MetricName, q.metrics[i]);
          m.Some? && answer[k][i] == MetricMeaning(it, db, model, q, m.value, k))
  }

  lemma AnswersQuery(j: Job, answer: map<seq<Value>, seq<Value>>)
    requires Accepted(j.q, j.s, j.v) && Answers(j, answer)
    ensures IsAnswer(j.it, j.db, j.v.model, j.q, answer)
  {
    forall i | 0 <= i < |j.q.metrics|
      ensures Lookup(j.v.model.metrics, MetricName, j.q.metrics[i]) == Some(j.v.metrics[i].metric)
    {
      ResolvedAnchor(j.s.schemaVersion, j.v.model, j.q.metrics[i], j.v.metrics[i]);
    }
  }

  /**
   Every statement the compiler emits answers its query: on any database in which entity keys
   are keys, its groups are the query's groups, and each metric aggregates each base row that
   reaches the group exactly once. Parameters stay numbered, and the limit is bound.
   */
  lemma CompiledQueryAnswers(q: Query, s: Snapshot, options: CompilerOptions, hash: Snapshot -> string, it: Interpretation, db: Database)
    ensures var r := Compile(q, s, options, hash);
      r.Ok? && EntityKeysHold(s, db) ==>
        && FindQueryable(s.models, q.model).Some?
        && IsAnswer(it, db, FindQueryable(s.models, q.model).value, q, Eval(r.value.statement.query, r.value.parameters, it, db))
        && Numbered(r.value.parameters)
        && Bound(r.value.parameters, r.value.statement.limit) == IntegerLiteral(LimitOf(q, options))
  {
    if Compile(q, s, options, hash).Ok? && EntityKeysHold(s, db) {
      var v, plan := CompileSteps(q, s, options, hash);
      var c := Compile(q, s, options, hash).value;
      ValidateAccepts(q, s, options, hash, v);
      PushBinds(plan.state, IntegerType, IntegerLiteral(v.limit));
      PushKeepsBinding(plan.state, IntegerType, IntegerLiteral(v.limit), c.parameters);
      PlanAnswers(q, s, v, c.parameters, it, db, plan.item);
      var condition :| Answers(Job(q, s, v, condition, c.parameters, it, db), Eval(plan.item, c.parameters, it, db));
      AnswersQuery(Job(q, s, v, condition, c.parameters, it, db), Eval(plan.item, c.parameters, it, db));
    }
  }
}
