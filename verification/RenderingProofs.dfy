/**
 Rendering preserves meaning under parameter sharing: the parameter list only grows, stays
 numbered and free of duplicates, and whatever it grows into, every rendered expression
 and predicate has the value of the source term it came from.
 */
module RenderingProofs {
  import opened Prelude
  import opened Semantic
  import opened Relational
  import opened Compiler
  import opened Meaning

  /** Positions count from one, and no (type, value) pair is bound twice. */
  ghost predicate Numbered(ps: seq<CompiledParameter>) {
    && (forall i :: 0 <= i < |ps| ==> ps[i].position == i + 1)
    && (forall i, j :: 0 <= i < j < |ps| ==> ps[i].dataType != ps[j].dataType || ps[i].value != ps[j].value)
  }

  ghost predicate Grows(st: RenderState, st': RenderState) {
    st.parameters <= st'.parameters && Numbered(st'.parameters)
  }

  lemma PushBinds(st: RenderState, t: DataType, l: Literal)
    requires Numbered(st.parameters)
    ensures var r := PushParameter(st, t, l);
      && Grows(st, r.state) && r.state.columns == st.columns
      && 1 <= r.item <= |r.state.parameters|
      && r.state.parameters[r.item - 1] == CompiledParameter(r.item, t, l)
  {
    var found := FindParameter(st.parameters, t, l);
    if found.Some? {
      var i :| 0 <= i < |st.parameters| && st.parameters[i] == found.value;
    }
  }

  lemma PushKeepsBinding(st: RenderState, t: DataType, l: Literal, final: seq<CompiledParameter>)
    requires Numbered(st.parameters)
    requires PushParameter(st, t, l).state.parameters <= final
    ensures Bound(final, PushParameter(st, t, l).item) == l
  {
    PushBinds(st, t, l);
  }

  // ----- the parameter list only grows -----

  lemma DimensionGrows(model: Model, names: seq<string>, d: ResolvedDimension, st: RenderState)
    requires Numbered(st.parameters)
    ensures var r := RenderDimension(model, names, d, st); r.Ok? ==> Grows(st, r.value.state)
  {
    hide Numbered, Grows, PushParameter;
    var f := RenderField(model, names, d.field, st);
    GrowsItself(st);
    if f.Ok? {
      FieldKeepsParameters(model, names, d.field, st);
      if model.timezone.Some? {
        PushBinds(f.value.state, TextType, TextLiteral(model.timezone.value));
        GrowsFrom(st, f.value.state, PushParameter(f.value.state, TextType, TextLiteral(model.timezone.value)).state);
      }
      GrowsFrom(st, st, f.value.state);
    }
  }

  lemma FieldKeepsParameters(model: Model, names: seq<string>, field: Field, st: RenderState)
    ensures var r := RenderField(model, names, field, st); r.Ok? ==> r.value.state.parameters == st.parameters
  {
  }

  lemma GrowsItself(st: RenderState)
    requires Numbered(st.parameters)
    ensures Grows(st, st)
  {
  }

  /** Growth is about parameters only. */
  lemma GrowsFrom(st: RenderState, mid: RenderState, end: RenderState)
    requires Numbered(st.parameters) && mid.parameters == st.parameters && (Grows(mid, end) || end.parameters == mid.parameters)
    ensures Grows(st, end)
  {
  }

  lemma {:induction false} DimensionsGrow(model: Model, names: seq<string>, ds: seq<ResolvedDimension>, st: RenderState)
    requires Numbered(st.parameters)
    ensures var r := RenderDimensions(model, names, ds, st); r.Ok? ==> Grows(st, r.value.state) && |r.value.item| == |ds|
  {
    if ds != [] {
      var d := RenderDimension(model, names, ds[0], st);
      if d.Ok? {
        DimensionGrows(model, names, ds[0], st);
        DimensionsGrow(model, names, ds[1..], d.value.state);
      }
    }
  }

  lemma MetricPartsGrow(model: Model, names: seq<string>, m: ResolvedMetric, st: RenderState)
    requires Numbered(st.parameters)
    ensures var r := RenderMetricParts(model, names, m, st); r.Ok? ==> Grows(st, r.value.state)
  {
    var f := RenderField(model, names, m.field, st);
    if f.Ok? && m.filter.Some? {
      var g := RenderField(model, names, m.filter.value.0, f.value.state);
      if g.Ok? {
        PushBinds(g.value.state, m.filter.value.0.dataType, m.filter.value.1);
      }
    }
  }

  lemma {:induction false} MetricsGrow(model: Model, names: seq<string>, ms: seq<ResolvedMetric>, anchored: bool, st: RenderState)
    requires Numbered(st.parameters)
    ensures var r := RenderMetrics(model, names, ms, anchored, st); r.Ok? ==> Grows(st, r.value.state) && |r.value.item| == |ms|
  {
    if ms != [] {
      MetricPartsGrow(model, names, ms[0], st);
      var m := if anchored then RenderMetricInput(model, names, ms[0], st) else RenderMetric(model, names, ms[0], st);
      if m.Ok? {
        MetricsGrow(model, names, ms[1..], anchored, m.value.state);
      }
    }
  }

  lemma {:induction false} OptionsGrow(t: DataType, values: seq<Literal>, st: RenderState)
    requires Numbered(st.parameters)
    ensures Grows(st, RenderOptions(t, values, st).state)
  {
    if values != [] {
      PushBinds(st, t, values[0]);
      OptionsGrow(t, values[1..], PushParameter(st, t, values[0]).state);
    }
  }

  lemma ComparandGrows(model: Model, field: Field, value: Literal, st: RenderState)
    requires Numbered(st.parameters)
    ensures var r := RenderComparand(model, field, value, st); r.Ok? ==> Grows(st, r.value.state)
  {
    PushBinds(st, field.dataType, value);
    if model.timezone.Some? {
      PushBinds(st, TextType, TextLiteral(model.timezone.value));
      PushBinds(PushParameter(st, TextType, TextLiteral(model.timezone.value)).state, LiteralType(value), value);
    }
  }

  lemma {:induction false} FilterGrows(model: Model, names: seq<string>, f: ResolvedFilter, st: RenderState)
    requires Numbered(st.parameters)
    ensures var r := RenderFilter(model, names, f, st); r.Ok? ==> Grows(st, r.value.state)
    decreases f
  {
    match f
    case RAnd(args) => FiltersGrow(model, names, args, st);
    case ROr(args) => FiltersGrow(model, names, args, st);
    case RNot(arg) => FilterGrows(model, names, arg, st);
    case RCompare(_, field, value) =>
      var e := RenderField(model, names, field, st);
      if e.Ok? {
        ComparandGrows(model, field, value, e.value.state);
      }
    case RIn(field, values) =>
      var e := RenderField(model, names, field, st);
      if e.Ok? {
        OptionsGrow(field.dataType, values, e.value.state);
      }
    case RIsNull(_) =>
    case RIsNotNull(_) =>
  }

  lemma {:induction false} FiltersGrow(model: Model, names: seq<string>, fs: seq<ResolvedFilter>, st: RenderState)
    requires Numbered(st.parameters)
    ensures var r := RenderFilters(model, names, fs, st); r.Ok? ==> Grows(st, r.value.state)
    decreases fs
  {
    if fs != [] {
      FilterGrows(model, names, fs[0], st);
      var r := RenderFilter(model, names, fs[0], st);
      if r.Ok? {
        FiltersGrow(model, names, fs[1..], r.value.state);
      }
    }
  }

  lemma FromGrows(v: ValidatedQuery, names: seq<string>, st: RenderState)
    requires Numbered(st.parameters)
    ensures var r := RenderFrom(v, names, st); r.Ok? ==> Grows(st, r.value.state)
  {
    if v.filter.Some? {
      FilterGrows(v.model, names, v.filter.value, st.(columns := st.columns + JoinColumns(v.model, v.relationships)));
    }
  }

  // ----- rendered terms keep their meaning -----

  /** The tuple in which alias t{i+1} holds the partner of the i-th relationship. */
  ghost function TupleOf(names: seq<string>, base: Row, partners: map<string, Row>): (r: seq<Row>)
    requires forall i :: 0 <= i < |names| ==> names[i] in partners
    ensures |r| == |names| + 1 && r[0] == base
    ensures forall i :: 0 <= i < |names| ==> r[i + 1] == partners[names[i]]
  {
    [base] + seq(|names|, i requires 0 <= i < |names| => partners[names[i]])
  }

  ghost predicate Covers(names: seq<string>, partners: map<string, Row>) {
    forall i :: 0 <= i < |names| ==> names[i] in partners
  }

  lemma FieldMeans(model: Model, names: seq<string>, field: Field, st: RenderState,
                   base: Row, partners: map<string, Row>, final: seq<CompiledParameter>, it: Interpretation)
    requires Covers(names, partners)
    ensures var r := RenderField(model, names, field, st);
      r.Ok? ==> EvalExpr(r.value.item, Joined(TupleOf(names, base, partners)), final, it) == FieldValue(field, base, partners)
  {
  }

  lemma DimensionMeans(model: Model, names: seq<string>, d: Dimension, rd: ResolvedDimension, st: RenderState,
                       base: Row, partners: map<string, Row>, final: seq<CompiledParameter>, it: Interpretation)
    requires Covers(names, partners) && Numbered(st.parameters)
    requires ResolveDimension(model, d) == Ok(rd)
    requires var r := RenderDimension(model, names, rd, st); r.Ok? && r.value.state.parameters <= final
    ensures EvalExpr(RenderDimension(model, names, rd, st).value.item, Joined(TupleOf(names, base, partners)), final, it)
            == DimensionMeaning(it, model, d, base, partners)
  {
    FieldMeans(model, names, rd.field, st, base, partners, final, it);
    var f := RenderField(model, names, rd.field, st).value;
    if rd.timeGrain.Some? && rd.field.dataType == TimestampTzType {
      PushKeepsBinding(f.state, TextType, TextLiteral(model.timezone.value), final);
    }
  }

  lemma {:induction false} DimensionsMean(model: Model, names: seq<string>, ds: seq<Dimension>, rds: seq<ResolvedDimension>, st: RenderState,
                                          base: Row, partners: map<string, Row>, final: seq<CompiledParameter>, it: Interpretation)
    requires Covers(names, partners) && Numbered(st.parameters)
    requires ResolveDimensions(model, ds) == Ok(rds)
    requires var r := RenderDimensions(model, names, rds, st); r.Ok? && r.value.state.parameters <= final
    ensures EvalExprs(RenderDimensions(model, names, rds, st).value.item, Joined(TupleOf(names, base, partners)), final, it)
            == GroupOf(it, model, ds, base, partners)
  {
    if ds != [] {
      var d := RenderDimension(model, names, rds[0], st).value;
      DimensionGrows(model, names, rds[0], st);
      DimensionsGrow(model, names, rds[1..], d.state);
      DimensionMeans(model, names, ds[0], rds[0], st, base, partners, final, it);
      DimensionsMean(model, names, ds[1..], rds[1..], d.state, base, partners, final, it);
    }
  }

  lemma ResolvedParts(version: string, model: Model, name: string, m: ResolvedMetric)
    requires ResolveMetric(version, model, name) == Ok(m)
    ensures Lookup(model.fields, FieldName, m.metric.field) == Some(m.field) && m.field.relationship.None?
    ensures ResolveMetricFilter(model, m.metric) == Ok(m.filter)
  {
  }

  /** Which metric parts were rendered, and that they evaluate to the metric's field and filter. */
  lemma MetricPartsMean(model: Model, names: seq<string>, version: string, name: string, m: ResolvedMetric, st: RenderState,
                        base: Row, partners: map<string, Row>, final: seq<CompiledParameter>, it: Interpretation)
    requires Covers(names, partners) && Numbered(st.parameters)
    requires ResolveMetric(version, model, name) == Ok(m)
    requires var r := RenderMetricParts(model, names, m, st); r.Ok? && r.value.state.parameters <= final
    ensures var (arg, filter) := RenderMetricParts(model, names, m, st).value.item;
            var s := Joined(TupleOf(names, base, partners));
      && EvalExpr(arg, s, final, it) == NamedValue(model, m.metric.field, base, map[])
      && (filter.Some? <==> m.filter.Some?)
      && MetricFilterMeaning(it, model, m.metric, base, partners)
         == if filter.None? then True
            else CompareValues(Eq, EvalExpr(filter.value.0, s, final, it), EvalExpr(filter.value.1, s, final, it))
  {
    hide ResolveMetric;
    ResolvedParts(version, model, name, m);
    FieldMeans(model, names, m.field, st, base, partners, final, it);
    var f := RenderField(model, names, m.field, st).value;
    if m.filter.Some? {
      FieldMeans(model, names, m.filter.value.0, f.state, base, partners, final, it);
      var g := RenderField(model, names, m.filter.value.0, f.state).value;
      PushKeepsBinding(g.state, m.filter.value.0.dataType, m.filter.value.1, final);
    }
  }

  lemma {:induction false} OptionsMean(t: DataType, values: seq<Literal>, st: RenderState, s: Scope,
                                       final: seq<CompiledParameter>, it: Interpretation)
    requires Numbered(st.parameters) && RenderOptions(t, values, st).state.parameters <= final
    ensures EvalExprs(RenderOptions(t, values, st).item, s, final, it) == CastAll(it, t, values)
  {
    if values != [] {
      var p := PushParameter(st, t, values[0]);
      PushBinds(st, t, values[0]);
      OptionsGrow(t, values[1..], p.state);
      PushKeepsBinding(st, t, values[0], final);
      OptionsMean(t, values[1..], p.state, s, final, it);
    }
  }

  lemma ComparandMeans(model: Model, field: Field, value: Literal, st: RenderState, s: Scope,
                       final: seq<CompiledParameter>, it: Interpretation)
    requires Numbered(st.parameters)
    requires var r := RenderComparand(model, field, value, st); r.Ok? && r.value.state.parameters <= final
    ensures EvalExpr(RenderComparand(model, field, value, st).value.item, s, final, it) == Comparand(it, model, field, value)
  {
    if field.dataType == TimestampTzType && value.DateLiteral? {
      var zone := PushParameter(st, TextType, TextLiteral(model.timezone.value));
      PushBinds(st, TextType, TextLiteral(model.timezone.value));
      PushBinds(zone.state, LiteralType(value), value);
      PushKeepsBinding(st, TextType, TextLiteral(model.timezone.value), final);
      PushKeepsBinding(zone.state, LiteralType(value), value, final);
    } else {
      PushKeepsBinding(st, field.dataType, value, final);
    }
  }

  lemma LeafMeans(model: Model, names: seq<string>, f: Filter, rf: ResolvedFilter, st: RenderState,
                  base: Row, partners: map<string, Row>, final: seq<CompiledParameter>, it: Interpretation)
    requires f.Compare? || f.In? || f.IsNull? || f.IsNotNull?
    requires Covers(names, partners) && Numbered(st.parameters)
    requires ResolveFilter(model, f) == Ok(rf)
    requires var r := RenderFilter(model, names, rf, st); r.Ok? && r.value.state.parameters <= final
    ensures EvalPred(RenderFilter(model, names, rf, st).value.item, Joined(TupleOf(names, base, partners)), final, it)
            == FilterMeaning(it, model, f, base, partners)
  {
    hide RenderComparand, RenderOptions, Comparand, RenderField, TupleOf, FieldValue, Numbered;
    var s := Joined(TupleOf(names, base, partners));
    FieldKeepsParameters(model, names, rf.field, st);
    FieldMeans(model, names, rf.field, st, base, partners, final, it);
    if f.Compare? {
      ComparandMeans(model, rf.field, f.value, RenderField(model, names, rf.field, st).value.state, s, final, it);
    } else if f.In? {
      OptionsMean(rf.field.dataType, f.values, RenderField(model, names, rf.field, st).value.state, s, final, it);
    }
  }

  /** The predicate under the final parameter list has the three-valued result of the source filter on its literals. */
  lemma {:induction false} FilterMeans(model: Model, names: seq<string>, f: Filter, rf: ResolvedFilter, st: RenderState,
                                       base: Row, partners: map<string, Row>, final: seq<CompiledParameter>, it: Interpretation)
    requires Covers(names, partners) && Numbered(st.parameters)
    requires ResolveFilter(model, f) == Ok(rf)
    requires var r := RenderFilter(model, names, rf, st); r.Ok? && r.value.state.parameters <= final
    ensures EvalPred(RenderFilter(model, names, rf, st).value.item, Joined(TupleOf(names, base, partners)), final, it)
            == FilterMeaning(it, model, f, base, partners)
    decreases f
  {
    match f
    case And(args) => FiltersMean(model, names, args, rf.args, st, base, partners, final, it);
    case Or(args) => FiltersMean(model, names, args, rf.args, st, base, partners, final, it);
    case Not(arg) => FilterMeans(model, names, arg, rf.arg, st, base, partners, final, it);
    case Compare(_, _, _) => LeafMeans(model, names, f, rf, st, base, partners, final, it);
    case In(_, _) => LeafMeans(model, names, f, rf, st, base, partners, final, it);
    case IsNull(_) => LeafMeans(model, names, f, rf, st, base, partners, final, it);
    case IsNotNull(_) => LeafMeans(model, names, f, rf, st, base, partners, final, it);
  }

  lemma {:induction false} FiltersMean(model: Model, names: seq<string>, fs: seq<Filter>, rfs: seq<ResolvedFilter>, st: RenderState,
                                       base: Row, partners: map<string, Row>, final: seq<CompiledParameter>, it: Interpretation)
    requires Covers(names, partners) && Numbered(st.parameters)
    requires ResolveFilters(model, fs) == Ok(rfs)
    requires var r := RenderFilters(model, names, rfs, st); r.Ok? && r.value.state.parameters <= final
    ensures var items := RenderFilters(model, names, rfs, st).value.item;
            var s := Joined(TupleOf(names, base, partners));
      && EvalAnd(items, s, final, it) == AllMeaning(it, model, fs, base, partners)
      && EvalOr(items, s, final, it) == AnyMeaning(it, model, fs, base, partners)
    decreases fs
  {
    if fs != [] {
      var r := RenderFilter(model, names, rfs[0], st).value;
      FilterGrows(model, names, rfs[0], st);
      FiltersGrow(model, names, rfs[1..], r.state);
      FilterMeans(model, names, fs[0], rfs[0], st, base, partners, final, it);
      FiltersMean(model, names, fs[1..], rfs[1..], r.state, base, partners, final, it);
    }
  }

  // ----- membership and equality -----

  ghost function EqualTo(name: string, values: seq<Literal>): (fs: seq<Filter>)
    ensures |fs| == |values| && forall i :: 0 <= i < |fs| ==> fs[i] == Compare(Eq, name, values[i])
  {
    if values == [] then [] else [Compare(Eq, name, values[0])] + EqualTo(name, values[1..])
  }

  /** No literal of the list is a date while the field is a timestamptz. */
  ghost predicate PlainlyCast(model: Model, name: string, values: seq<Literal>) {
    var f := Lookup(model.fields, FieldName, name);
    f.Some? && (f.value.dataType == TimestampTzType ==> forall i :: 0 <= i < |values| ==> !values[i].DateLiteral?)
  }

  lemma {:induction false} InIsOrOfEqs(it: Interpretation, model: Model, name: string, values: seq<Literal>, base: Row, partners: map<string, Row>)
    requires PlainlyCast(model, name, values)
    ensures FilterMeaning(it, model, In(name, values), base, partners) == AnyMeaning(it, model, EqualTo(name, values), base, partners)
  {
    if values != [] {
      InIsOrOfEqs(it, model, name, values[1..], base, partners);
      assert EqualTo(name, values)[1..] == EqualTo(name, values[1..]);
    }
  }

  ghost function SplitReading(): Interpretation {
    Interpretation((t, l) => Val(1.0), (z, d) => Val(0.0), (g, v) => v, (g, z, v) => v)
  }

  lemma {:induction false} SplitReadingRefuses(model: Model, name: string, values: seq<Literal>, base: Row, partners: map<string, Row>)
    requires var f := Lookup(model.fields, FieldName, name);
      f.Some? && f.value.dataType == TimestampTzType && FieldValue(f.value, base, partners) == Val(0.0)
    ensures FilterMeaning(SplitReading(), model, In(name, values), base, partners) == False
  {
    hide FieldValue;
    if values != [] {
      SplitReadingRefuses(model, name, values[1..], base, partners);
    }
  }

  lemma SplitReadingOne(model: Model, name: string, l: Literal, base: Row, partners: map<string, Row>)
    requires var f := Lookup(model.fields, FieldName, name);
      f.Some? && f.value.dataType == TimestampTzType && FieldValue(f.value, base, partners) == Val(0.0)
    ensures FilterMeaning(SplitReading(), model, Compare(Eq, name, l), base, partners) == False <==> !l.DateLiteral?
  {
    hide FieldValue;
  }

  lemma AnyStep(it: Interpretation, model: Model, fs: seq<Filter>, base: Row, partners: map<string, Row>)
    requires fs != []
    ensures AnyMeaning(it, model, fs, base, partners)
         == OrTri(FilterMeaning(it, model, fs[0], base, partners), AnyMeaning(it, model, fs[1..], base, partners))
  {
  }

  lemma {:induction false} SplitReadingAccepts(model: Model, name: string, values: seq<Literal>, base: Row, partners: map<string, Row>, k: nat)
    requires var f := Lookup(model.fields, FieldName, name);
      f.Some? && f.value.dataType == TimestampTzType && FieldValue(f.value, base, partners) == Val(0.0)
    requires k < |values| && values[k].DateLiteral?
    ensures AnyMeaning(SplitReading(), model, EqualTo(name, values), base, partners) != False
  {
    hide FieldValue, FilterMeaning, AnyMeaning, SplitReading;
    var fs := EqualTo(name, values);
    assert fs[1..] == EqualTo(name, values[1..]);
    SplitReadingOne(model, name, values[0], base, partners);
    AnyStep(SplitReading(), model, fs, base, partners);
    if !values[0].DateLiteral? {
      SplitReadingAccepts(model, name, values[1..], base, partners, k - 1);
    }
  }

  /** A field of the model can hold any value in some row. */
  lemma SomeRowHolds(f: Field, v: Value) returns (base: Row, partners: map<string, Row>)
    ensures FieldValue(f, base, partners) == v
  {
    base := map[f.column := v];
    partners := if f.relationship.Some? then map[f.relationship.value := base] else map[];
  }

  /** Membership is the disjunction of equalities exactly when no date is compared with a timestamptz field. */
  lemma InIsOrOfEqsExactly(model: Model, name: string, values: seq<Literal>)
    requires Lookup(model.fields, FieldName, name).Some?
    ensures PlainlyCast(model, name, values) <==>
      forall it, base, partners ::
        FilterMeaning(it, model, In(name, values), base, partners) == AnyMeaning(it, model, EqualTo(name, values), base, partners)
  {
    if PlainlyCast(model, name, values) {
      forall it, base, partners
        ensures FilterMeaning(it, model, In(name, values), base, partners) == AnyMeaning(it, model, EqualTo(name, values), base, partners)
      {
        InIsOrOfEqs(it, model, name, values, base, partners);
      }
    } else {
      var base, partners := SomeRowHolds(Lookup(model.fields, FieldName, name).value, Val(0.0));
      SplitReadingRefuses(model, name, values, base, partners);
      var k :| 0 <= k < |values| && values[k].DateLiteral?;
      SplitReadingAccepts(model, name, values, base, partners, k);
    }
  }
}
