/**
 Both plans mean the query. The flat plan relies on to-one targets being keys, the anchored
 plan on the anchor being a key of the base relation and on metrics being local to it; both
 facts come from validation.
 */
module PlanProofs {
  import opened Prelude
  import opened Order
  import opened Semantic
  import opened Relational
  import opened Compiler
  import opened Meaning
  import opened RenderingProofs
  import opened JoinProofs

  // ----- what validation guarantees -----

  ghost predicate Accepted(q: Query, s: Snapshot, v: ValidatedQuery) {
    && v.model in s.models
    && ResolveDimensions(v.model, q.dimensions) == Ok(v.dimensions)
    && ResolveMetrics(s.schemaVersion, v.model, q.metrics) == Ok(v.metrics)
    && ResolveOptionalFilter(v.model, q.filters) == Ok(v.filter)
    && ResolveRelationships(s, v.model, RecordAll([], UsedFields(v.dimensions, v.metrics, v.filter))) == Ok(v.relationships)
    && ResolveAnchor(v.relationships, v.metrics) == Ok(v.anchor)
  }

  function Names(v: ValidatedQuery): seq<string> { NamesOf(v.relationships) }

  lemma {:induction false} RecordKeepsOrder(names: seq<string>, fields: seq<Field>)
    requires NoDuplicates(names) && Sorted(names, NameKey)
    ensures NoDuplicates(RecordAll(names, fields)) && Sorted(RecordAll(names, fields), NameKey)
    decreases |fields|
  {
    if fields != [] {
      if fields[0].relationship.Some? {
        AddNameKeepsOrder(names, fields[0].relationship.value);
      }
      RecordKeepsOrder(RecordRelationship(names, fields[0]), fields[1..]);
    }
  }

  lemma {:induction false} FilterNames(model: Model, f: Filter, rf: ResolvedFilter, n: string)
    requires ResolveFilter(model, f) == Ok(rf)
    ensures n in FilterRelationships(model, f) <==> exists g :: g in FilterFields(rf) && g.relationship == Some(n)
    decreases f
  {
    match f
    case And(args) => AllFilterNames(model, args, rf.args, n);
    case Or(args) => AllFilterNames(model, args, rf.args, n);
    case Not(arg) => FilterNames(model, arg, rf.arg, n);
    case Compare(_, _, _) => assert rf.field in FilterFields(rf);
    case In(_, _) => assert rf.field in FilterFields(rf);
    case IsNull(_) => assert rf.field in FilterFields(rf);
    case IsNotNull(_) => assert rf.field in FilterFields(rf);
  }

  lemma {:induction false} AllFilterNames(model: Model, fs: seq<Filter>, rfs: seq<ResolvedFilter>, n: string)
    requires ResolveFilters(model, fs) == Ok(rfs)
    ensures n in AllRelationships(model, fs) <==> exists g :: g in AllFilterFields(rfs) && g.relationship == Some(n)
    decreases fs
  {
    if fs != [] {
      FilterNames(model, fs[0], rfs[0], n);
      AllFilterNames(model, fs[1..], rfs[1..], n);
      assert forall g :: g in AllFilterFields(rfs) <==> g in FilterFields(rfs[0]) || g in AllFilterFields(rfs[1..]);
    }
  }

  lemma {:induction false} DimensionNamesUsed(model: Model, ds: seq<Dimension>, rds: seq<ResolvedDimension>, n: string)
    requires ResolveDimensions(model, ds) == Ok(rds)
    ensures (exists d :: d in ds && n in RelationshipOf(model, d.field))
      <==> exists g :: g in DimensionFields(rds) && g.relationship == Some(n)
  {
    if ds != [] {
      DimensionNamesUsed(model, ds[1..], rds[1..], n);
      assert n in RelationshipOf(model, ds[0].field) <==> rds[0].field.relationship == Some(n);
      assert forall d :: d in ds <==> d == ds[0] || d in ds[1..];
      assert forall g :: g in DimensionFields(rds) <==> g == rds[0].field || g in DimensionFields(rds[1..]);
    }
  }

  predicate MetricUses(m: ResolvedMetric, n: string) {
    m.field.relationship == Some(n) || (m.filter.Some? && m.filter.value.0.relationship == Some(n))
  }

  lemma MetricUsesRelationship(version: string, model: Model, name: string, m: ResolvedMetric, n: string)
    requires ResolveMetric(version, model, name) == Ok(m)
    ensures n in MetricRelationships(model, name) <==> MetricUses(m, n)
  {
  }

  lemma {:induction false} MetricNamesUsed(version: string, model: Model, names: seq<string>, ms: seq<ResolvedMetric>, n: string)
    requires ResolveMetrics(version, model, names) == Ok(ms)
    ensures (exists m :: m in names && n in MetricRelationships(model, m))
      <==> exists g :: g in MetricFields(ms) && g.relationship == Some(n)
  {
    if names != [] {
      MetricNamesUsed(version, model, names[1..], ms[1..], n);
      MetricUsesRelationship(version, model, names[0], ms[0], n);
      assert forall m :: m in names <==> m == names[0] || m in names[1..];
      MetricFieldsSplit(ms, n);
    }
  }

  lemma MetricFieldsSplit(ms: seq<ResolvedMetric>, n: string)
    requires ms != []
    ensures (exists g :: g in MetricFields(ms) && g.relationship == Some(n))
      <==> MetricUses(ms[0], n) || exists g :: g in MetricFields(ms[1..]) && g.relationship == Some(n)
  {
    var own := [ms[0].field] + (if ms[0].filter.Some? then [ms[0].filter.value.0] else []);
    assert MetricFields(ms) == own + MetricFields(ms[1..]);
    assert MetricUses(ms[0], n) <==> exists g :: g in own && g.relationship == Some(n) by {
      assert ms[0].field in own;
      if ms[0].filter.Some? {
        assert ms[0].filter.value.0 in own;
      }
    }
    assert forall g :: g in MetricFields(ms) <==> g in own || g in MetricFields(ms[1..]);
  }

  /** The recorded relationships are exactly those the query mentions, each once, in name order. */
  lemma RecordedNames(q: Query, version: string, model: Model, ds: seq<ResolvedDimension>, ms: seq<ResolvedMetric>, f: Option<ResolvedFilter>)
    requires ResolveDimensions(model, q.dimensions) == Ok(ds) && ResolveMetrics(version, model, q.metrics) == Ok(ms)
    requires ResolveOptionalFilter(model, q.filters) == Ok(f)
    ensures var names := RecordAll([], UsedFields(ds, ms, f));
      NoDuplicates(names) && Sorted(names, NameKey) && forall n :: n in names <==> n in UsedRelationships(model, q)
  {
    hide ResolveDimensions, ResolveMetrics, FilterRelationships, FilterFields, DimensionFields, MetricFields, UsedFields;
    var names := RecordAll([], UsedFields(ds, ms, f));
    RecordKeepsOrder([], UsedFields(ds, ms, f));
    forall n
      ensures n in names <==> n in UsedRelationships(model, q)
    {
      DimensionNamesUsed(model, q.dimensions, ds, n);
      MetricNamesUsed(version, model, q.metrics, ms, n);
      if q.filters.Some? {
        FilterNames(model, q.filters.value, f.value, n);
      }
      UsedFieldsSplit(ds, ms, f, n);
    }
  }

  /** So are the joined ones. */
  lemma UsedNames(q: Query, s: Snapshot, v: ValidatedQuery)
    requires Accepted(q, s, v)
    ensures NoDuplicates(Names(v)) && Sorted(Names(v), NameKey)
    ensures forall n :: n in Names(v) <==> n in UsedRelationships(v.model, q)
    ensures ResolveRelationships(s, v.model, Names(v)) == Ok(v.relationships)
  {
    hide ResolveDimensions, ResolveMetrics, ResolveRelationships, ResolveAnchor, ResolveOptionalFilter, UsedFields, UsedRelationships;
    RecordedNames(q, s.schemaVersion, v.model, v.dimensions, v.metrics, v.filter);
    ResolvedNames(s, v.model, RecordAll([], UsedFields(v.dimensions, v.metrics, v.filter)), v.relationships);
  }

  lemma UsedFieldsSplit(ds: seq<ResolvedDimension>, ms: seq<ResolvedMetric>, filter: Option<ResolvedFilter>, n: string)
    ensures (exists g :: g in UsedFields(ds, ms, filter) && g.relationship == Some(n))
      <==> || (exists g :: g in DimensionFields(ds) && g.relationship == Some(n))
           || (exists g :: g in MetricFields(ms) && g.relationship == Some(n))
           || (filter.Some? && exists g :: g in FilterFields(filter.value) && g.relationship == Some(n))
  {
    var a, b := DimensionFields(ds), MetricFields(ms);
    var c := if filter.Some? then FilterFields(filter.value) else [];
    assert forall g :: g in a + b + c <==> g in a || g in b || g in c;
  }

  // ----- one compilation seen against one database -----

  /** A validated query, its rendered condition, the final parameters, and a database. */
  datatype Job = Job(
    q: Query, s: Snapshot, v: ValidatedQuery, condition: Option<Pred>,
    final: seq<CompiledParameter>, it: Interpretation, db: Database)

  ghost predicate Sound(j: Job) {
    && Accepted(j.q, j.s, j.v)
    && exists st :: ConditionFrom(j, st)
  }

  ghost predicate ConditionFrom(j: Job, st: RenderState) {
    var r := RenderFrom(j.v, Names(j.v), st);
    Numbered(st.parameters) && r.Ok? && r.value.item == From(j.v.model.source, JoinsOf(j.v.relationships), j.condition) && r.value.state.parameters <= j.final
  }

  ghost function Rows(j: Job, base: Row): seq<Scope> {
    RowsOf(j.db, JoinsOf(j.v.relationships), j.condition, j.final, j.it, base)
  }

  lemma PartnerIsMember(db: Database, rel: Relationship, base: Row, partner: Row)
    ensures IsPartner(db, rel, base, partner) <==> partner in Partners(db, JoinOf(rel), base)
  {
    var matches := Matching(Table(db, rel.target), rel.toColumn, Cell(base, rel.fromColumn));
    if matches != [] {
      assert matches[0] in matches;
    }
  }

  lemma ConditionMeans(j: Job, base: Row, partners: map<string, Row>)
    requires Sound(j) && Covers(Names(j.v), partners)
    ensures Holds(j.condition, Joined(TupleOf(Names(j.v), base, partners)), j.final, j.it)
      <==> Qualifies(j.it, j.v.model, j.q, base, partners)
  {
    var st :| ConditionFrom(j, st);
    if j.v.filter.Some? {
      var joined := st.(columns := st.columns + JoinColumns(j.v.model, j.v.relationships));
      FilterMeans(j.v.model, Names(j.v), j.q.filters.value, j.v.filter.value, joined, base, partners, j.final, j.it);
    }
  }

  lemma CombinationIsTail(db: Database, s: Snapshot, model: Model, names: seq<string>, rels: seq<Relationship>, base: Row, partners: map<string, Row>)
    requires ResolveRelationships(s, model, names) == Ok(rels) && Covers(names, partners)
    ensures (forall i :: 0 <= i < |names| ==> IsPartnerNamed(db, model, names[i], base, partners[names[i]]))
      <==> IsTail(db, JoinsOf(rels), base, TupleOf(names, base, partners)[1..])
  {
    var joins, tail := JoinsOf(rels), TupleOf(names, base, partners)[1..];
    TailByIndex(db, joins, base, tail);
    forall i | 0 <= i < |names|
      ensures IsPartnerNamed(db, model, names[i], base, partners[names[i]]) <==> tail[i] in Partners(db, joins[i], base)
    {
      NamedPartnerIsMember(db, s, model, names[i], rels[i], base, partners[names[i]]);
    }
  }

  lemma NamedPartnerIsMember(db: Database, s: Snapshot, model: Model, name: string, rel: Relationship, base: Row, partner: Row)
    requires ResolveRelationship(s, model, name) == Ok(rel)
    ensures IsPartnerNamed(db, model, name, base, partner) <==> partner in Partners(db, JoinOf(rel), base)
  {
    PartnerIsMember(db, rel, base, partner);
  }

  /** What a sound job knows about its relationship names. */
  lemma JobNames(j: Job)
    requires Sound(j)
    ensures NoDuplicates(Names(j.v))
    ensures forall n :: n in Names(j.v) <==> n in UsedRelationships(j.v.model, j.q)
    ensures ResolveRelationships(j.s, j.v.model, Names(j.v)) == Ok(j.v.relationships)
  {
    UsedNames(j.q, j.s, j.v);
  }

  lemma CombinationCovers(j: Job, base: Row, partners: map<string, Row>)
    requires Sound(j) && IsCombination(j.db, j.v.model, UsedRelationships(j.v.model, j.q), base, partners)
    ensures Covers(Names(j.v), partners)
    ensures forall i :: 0 <= i < |Names(j.v)| ==> IsPartnerNamed(j.db, j.v.model, Names(j.v)[i], base, partners[Names(j.v)[i]])
  {
    hide Sound, UsedRelationships;
    JobNames(j);
    forall i | 0 <= i < |Names(j.v)|
      ensures Names(j.v)[i] in partners && IsPartnerNamed(j.db, j.v.model, Names(j.v)[i], base, partners[Names(j.v)[i]])
    {
      assert Names(j.v)[i] in Names(j.v);
    }
  }

  lemma CoversCombination(j: Job, base: Row, partners: map<string, Row>)
    requires Sound(j) && partners.Keys == (set n | n in Names(j.v)) && Covers(Names(j.v), partners)
    requires forall i :: 0 <= i < |Names(j.v)| ==> IsPartnerNamed(j.db, j.v.model, Names(j.v)[i], base, partners[Names(j.v)[i]])
    ensures IsCombination(j.db, j.v.model, UsedRelationships(j.v.model, j.q), base, partners)
  {
    hide Sound, UsedRelationships, IsPartnerNamed, Covers, Names;
    JobNames(j);
    var names := Names(j.v);
    assert partners.Keys == UsedRelationships(j.v.model, j.q);
    forall n | n in partners.Keys
      ensures IsPartnerNamed(j.db, j.v.model, n, base, partners[n])
    {
      var i := IndexOf(names, n);
      assert names[i] == n;
    }
  }

  /** A qualifying combination is a row of the FROM clause. */
  lemma CombinationHasRow(j: Job, base: Row, partners: map<string, Row>)
    requires Sound(j) && IsCombination(j.db, j.v.model, UsedRelationships(j.v.model, j.q), base, partners)
    requires Qualifies(j.it, j.v.model, j.q, base, partners)
    ensures Covers(Names(j.v), partners)
    ensures Joined(TupleOf(Names(j.v), base, partners)) in Rows(j, base)
  {
    hide Sound, UsedRelationships, IsPartnerNamed, Qualifies;
    CombinationCovers(j, base, partners);
    JobNames(j);
    var names := Names(j.v);
    var tuple := TupleOf(names, base, partners);
    CombinationIsTail(j.db, j.s, j.v.model, names, j.v.relationships, base, partners);
    ConditionMeans(j, base, partners);
    assert tuple == [base] + tuple[1..];
    RowTo(j.db, JoinsOf(j.v.relationships), j.condition, j.final, j.it, base, tuple[1..]);
  }

  /** The partners a tuple holds, by relationship name. */
  ghost function PartnersOf(names: seq<string>, tail: seq<Row>): (r: map<string, Row>)
    requires |tail| == |names|
    ensures r.Keys == set n | n in names
  {
    map n | n in names :: tail[IndexOf(names, n)]
  }

  lemma PartnerAt(names: seq<string>, tail: seq<Row>, i: nat)
    requires |tail| == |names| && NoDuplicates(names) && i < |names|
    ensures names[i] in PartnersOf(names, tail) && PartnersOf(names, tail)[names[i]] == tail[i]
  {
    assert names[i] in names;
    assert IndexOf(names, names[i]) == i;
  }

  lemma PartnersOfTuple(names: seq<string>, base: Row, tail: seq<Row>)
    requires |tail| == |names| && NoDuplicates(names)
    ensures Covers(names, PartnersOf(names, tail))
    ensures TupleOf(names, base, PartnersOf(names, tail)) == [base] + tail
  {
    hide PartnersOf, NoDuplicates, TupleOf;
    var partners := PartnersOf(names, tail);
    forall i | 0 <= i < |names|
      ensures names[i] in partners && partners[names[i]] == tail[i]
    {
      PartnerAt(names, tail, i);
    }
    var tuple := TupleOf(names, base, partners);
    forall i | 0 <= i < |tuple|
      ensures tuple[i] == ([base] + tail)[i]
    {
      if i > 0 {
        assert tuple[(i - 1) + 1] == partners[names[i - 1]];
      }
    }
  }

  /** And every row of the FROM clause is one. */
  lemma RowIsCombination(j: Job, base: Row, s: Scope) returns (partners: map<string, Row>)
    requires Sound(j) && s in Rows(j, base)
    ensures IsCombination(j.db, j.v.model, UsedRelationships(j.v.model, j.q), base, partners)
    ensures Qualifies(j.it, j.v.model, j.q, base, partners)
    ensures Covers(Names(j.v), partners) && s == Joined(TupleOf(Names(j.v), base, partners))
  {
    hide Sound, UsedRelationships, IsPartnerNamed, Qualifies;
    var names, joins := Names(j.v), JoinsOf(j.v.relationships);
    JobNames(j);
    var tail := RowFrom(j.db, joins, j.condition, j.final, j.it, base, s);
    TailByIndex(j.db, joins, base, tail);
    partners := PartnersOf(names, tail);
    PartnersOfTuple(names, base, tail);
    assert ([base] + tail)[1..] == tail;
    CombinationIsTail(j.db, j.s, j.v.model, names, j.v.relationships, base, partners);
    CoversCombination(j, base, partners);
    ConditionMeans(j, base, partners);
  }

  // ----- keys and aggregates of a rendered plan -----

  ghost predicate KeysRendered(j: Job, keys: seq<Expr>) {
    exists st :: KeysFrom(j, keys, st)
  }

  ghost predicate KeysFrom(j: Job, keys: seq<Expr>, st: RenderState) {
    var r := RenderDimensions(j.v.model, Names(j.v), j.v.dimensions, st);
    Numbered(st.parameters) && r.Ok? && r.value.item == keys && r.value.state.parameters <= j.final
  }

  lemma KeysMean(j: Job, keys: seq<Expr>, base: Row, partners: map<string, Row>)
    requires Sound(j) && KeysRendered(j, keys) && Covers(Names(j.v), partners)
    ensures EvalExprs(keys, Joined(TupleOf(Names(j.v), base, partners)), j.final, j.it) == GroupOf(j.it, j.v.model, j.q.dimensions, base, partners)
  {
    var st :| KeysFrom(j, keys, st);
    DimensionsMean(j.v.model, Names(j.v), j.q.dimensions, j.v.dimensions, st, base, partners, j.final, j.it);
  }

  ghost predicate PartsRendered(j: Job, i: nat, parts: (Expr, Option<(Expr, Expr)>)): (rendered: bool)
    ensures rendered ==> i < |j.v.metrics|
  {
    i < |j.v.metrics| && exists st :: PartsFrom(j, i, parts, st)
  }

  ghost predicate PartsFrom(j: Job, i: nat, parts: (Expr, Option<(Expr, Expr)>), st: RenderState)
    requires i < |j.v.metrics|
  {
    var r := RenderMetricParts(j.v.model, Names(j.v), j.v.metrics[i], st);
    Numbered(st.parameters) && r.Ok? && r.value.item == parts && r.value.state.parameters <= j.final
  }

  ghost predicate FilterTrue(filter: Option<(Expr, Expr)>, s: Scope, ps: seq<CompiledParameter>, it: Interpretation) {
    filter.Some? ==> CompareValues(Eq, EvalExpr(filter.value.0, s, ps, it), EvalExpr(filter.value.1, s, ps, it)) == True
  }

  lemma PartsMean(j: Job, i: nat, parts: (Expr, Option<(Expr, Expr)>), base: Row, partners: map<string, Row>)
    requires Sound(j) && PartsRendered(j, i, parts) && Covers(Names(j.v), partners)
    ensures var s := Joined(TupleOf(Names(j.v), base, partners));
      && EvalExpr(parts.0, s, j.final, j.it) == NamedValue(j.v.model, j.v.metrics[i].metric.field, base, map[])
      && (FilterTrue(parts.1, s, j.final, j.it) <==> MetricFilterMeaning(j.it, j.v.model, j.v.metrics[i].metric, base, partners) == True)
  {
    var st :| PartsFrom(j, i, parts, st);
    assert ResolveMetric(j.s.schemaVersion, j.v.model, j.q.metrics[i]) == Ok(j.v.metrics[i]);
    MetricPartsMean(j.v.model, Names(j.v), j.s.schemaVersion, j.q.metrics[i], j.v.metrics[i], st, base, partners, j.final, j.it);
  }

  /** A base row contributes exactly when one of its rows has the key and passes the metric's filter. */
  lemma ContributesViaRows(j: Job, keys: seq<Expr>, i: nat, parts: (Expr, Option<(Expr, Expr)>), base: Row, k: seq<Value>)
    requires Sound(j) && KeysRendered(j, keys) && PartsRendered(j, i, parts)
    ensures (exists partners :: Reaches(j.it, j.db, j.v.model, j.q, base, k, partners)
                                && MetricFilterMeaning(j.it, j.v.model, j.v.metrics[i].metric, base, partners) == True)
      <==> (exists s :: s in Rows(j, base) && EvalExprs(keys, s, j.final, j.it) == k && FilterTrue(parts.1, s, j.final, j.it))
  {
    hide Sound, KeysRendered, PartsRendered;
    if exists partners :: Reaches(j.it, j.db, j.v.model, j.q, base, k, partners)
                          && MetricFilterMeaning(j.it, j.v.model, j.v.metrics[i].metric, base, partners) == True {
      var partners :| Reaches(j.it, j.db, j.v.model, j.q, base, k, partners)
                      && MetricFilterMeaning(j.it, j.v.model, j.v.metrics[i].metric, base, partners) == True;
      CombinationHasRow(j, base, partners);
      KeysMean(j, keys, base, partners);
      PartsMean(j, i, parts, base, partners);
    }
    if exists s :: s in Rows(j, base) && EvalExprs(keys, s, j.final, j.it) == k && FilterTrue(parts.1, s, j.final, j.it) {
      var s :| s in Rows(j, base) && EvalExprs(keys, s, j.final, j.it) == k && FilterTrue(parts.1, s, j.final, j.it);
      var partners := RowIsCombination(j, base, s);
      KeysMean(j, keys, base, partners);
      PartsMean(j, i, parts, base, partners);
      assert Reaches(j.it, j.db, j.v.model, j.q, base, k, partners);
    }
  }

  lemma RowValue(j: Job, i: nat, parts: (Expr, Option<(Expr, Expr)>), base: Row, s: Scope)
    requires Sound(j) && PartsRendered(j, i, parts) && s in Rows(j, base)
    ensures EvalExpr(parts.0, s, j.final, j.it) == NamedValue(j.v.model, j.v.metrics[i].metric.field, base, map[])
  {
    hide Sound, PartsRendered;
    var partners := RowIsCombination(j, base, s);
    PartsMean(j, i, parts, base, partners);
  }

  /** The group keys of the FROM clause are the groups of the query. */
  lemma GroupsViaRows(j: Job, keys: seq<Expr>, k: seq<Value>)
    requires Sound(j) && KeysRendered(j, keys)
    ensures (exists base, partners :: base in Table(j.db, j.v.model.source) && Reaches(j.it, j.db, j.v.model, j.q, base, k, partners))
      <==> (exists base, s :: base in Table(j.db, j.v.model.source) && s in Rows(j, base) && EvalExprs(keys, s, j.final, j.it) == k)
  {
    hide Sound, KeysRendered;
    var table := Table(j.db, j.v.model.source);
    if exists base, partners :: base in table && Reaches(j.it, j.db, j.v.model, j.q, base, k, partners) {
      var base, partners :| base in table && Reaches(j.it, j.db, j.v.model, j.q, base, k, partners);
      CombinationHasRow(j, base, partners);
      KeysMean(j, keys, base, partners);
    }
    if exists base, s :: base in table && s in Rows(j, base) && EvalExprs(keys, s, j.final, j.it) == k {
      var base, s :| base in table && s in Rows(j, base) && EvalExprs(keys, s, j.final, j.it) == k;
      var partners := RowIsCombination(j, base, s);
      KeysMean(j, keys, base, partners);
      assert Reaches(j.it, j.db, j.v.model, j.q, base, k, partners);
    }
  }
}
