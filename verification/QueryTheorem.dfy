/** The compiler's main theorem: whichever plan it chooses, the statement answers the query. */
module QueryTheorem {
  import opened Prelude
  import opened Bags
  import opened Semantic
  import opened Relational
  import opened Compiler
  import opened Meaning
  import opened JoinProofs
  import opened PlanProofs

  // ----- to-one joins keep the grain -----

  lemma {:induction false} NoMatch(rows: seq<Row>, column: string, v: Value)
    requires forall i :: 0 <= i < |rows| ==> CompareValues(Eq, v, Cell(rows[i], column)) != True
    ensures Matching(rows, column, v) == []
  {
    if rows != [] {
      NoMatch(rows[1..], column, v);
    }
  }

  lemma {:induction false} KeyMatchesOnce(rows: seq<Row>, column: string, v: Value)
    requires IsKeyColumn(rows, column)
    ensures |Matching(rows, column, v)| <= 1
  {
    if rows != [] {
      KeyMatchesOnce(rows[1..], column, v);
      if CompareValues(Eq, v, Cell(rows[0], column)) == True {
        NoMatch(rows[1..], column, v);
      }
    }
  }

  lemma ToOnePartner(s: Snapshot, model: Model, name: string, rel: Relationship, db: Database, base: Row)
    requires EntityKeysHold(s, db)
    requires ResolveRelationship(s, model, name) == Ok(rel) && rel.cardinality != OneToMany
    ensures |Partners(db, JoinOf(rel), base)| <= 1
  {
    var target := Lookup(s.models, ModelName, rel.targetModel).value;
    var i :| 0 <= i < |target.fields| && target.fields[i].column == rel.toColumn && target.fields[i].relationship.None? && target.fields[i].entityKey;
    assert IsKeyColumn(Table(db, target.source), target.fields[i].column);
    KeyMatchesOnce(Table(db, rel.target), rel.toColumn, Cell(base, rel.fromColumn));
  }

  ghost predicate AtMostOnePartner(db: Database, joins: seq<Join>, base: Row) {
    forall i :: 0 <= i < |joins| ==> |Partners(db, joins[i], base)| <= 1
  }

  /** Without fan-out every base row appears at most once in the joined rows. */
  lemma FlatGrain(j: Job, base: Row)
    requires Sound(j) && EntityKeysHold(j.s, j.db) && j.v.anchor.None?
    ensures |Rows(j, base)| <= 1
  {
    hide Sound, EntityKeysHold, AtMostOnePartner;
    PartnersAtMostOne(j, base);
    RowsAtMostOne(j.db, JoinsOf(j.v.relationships), j.condition, j.final, j.it, base);
  }

  lemma RowsAtMostOne(db: Database, joins: seq<Join>, condition: Option<Pred>, ps: seq<CompiledParameter>, it: Interpretation, base: Row)
    requires AtMostOnePartner(db, joins, base)
    ensures |RowsOf(db, joins, condition, ps, it, base)| <= 1
  {
    hide Partners, Passing, JoinAll;
    var t := [base];
    assert t[0] == base;
    JoinAtMostOne(db, joins, t);
    PassingShrinks(condition, JoinAll(db, joins, [t]), ps, it);
  }

  lemma NoFanout(j: Job)
    requires Sound(j) && j.v.anchor.None?
    ensures Fanout(j.v.relationships).None?
  {
  }

  lemma PartnersAtMostOne(j: Job, base: Row)
    requires Sound(j) && EntityKeysHold(j.s, j.db) && j.v.anchor.None?
    ensures AtMostOnePartner(j.db, JoinsOf(j.v.relationships), base)
  {
    assert Accepted(j.q, j.s, j.v);
    hide Sound, Accepted, EntityKeysHold, Fanout, ResolveRelationship, ResolveRelationships, Partners, JoinsOf;
    UsedNames(j.q, j.s, j.v);
    NoFanout(j);
    var rels, joins := j.v.relationships, JoinsOf(j.v.relationships);
    forall i | 0 <= i < |joins|
      ensures |Partners(j.db, joins[i], base)| <= 1
    {
      assert ResolveRelationship(j.s, j.v.model, Names(j.v)[i]) == Ok(rels[i]);
      assert rels[i] in rels;
      ToOnePartner(j.s, j.v.model, Names(j.v)[i], rels[i], j.db, base);
    }
  }

  /** Exactly once when every join is a left join and there is no filter. */
  lemma FlatGrainExact(j: Job, base: Row)
    requires Sound(j) && EntityKeysHold(j.s, j.db) && j.v.anchor.None?
    requires j.v.filter.None? && forall rel :: rel in j.v.relationships ==> rel.joinType == Left
    ensures |Rows(j, base)| == 1
  {
    FlatGrain(j, base);
    NoFilterNoCondition(j);
    hide Sound, EntityKeysHold;
    LeftJoinsKeep(j, base);
    hide Passing, JoinAll, Partners, JoinsOf;
    var tail := FirstPartners(j.db, JoinsOf(j.v.relationships), base);
    RowTo(j.db, JoinsOf(j.v.relationships), j.condition, j.final, j.it, base, tail);
    assert Joined([base] + tail) in Rows(j, base);
  }

  lemma LeftJoinsKeep(j: Job, base: Row)
    requires forall rel :: rel in j.v.relationships ==> rel.joinType == Left
    ensures var joins := JoinsOf(j.v.relationships); forall i :: 0 <= i < |joins| ==> Partners(j.db, joins[i], base) != []
  {
    assert forall i :: 0 <= i < |j.v.relationships| ==> j.v.relationships[i] in j.v.relationships;
  }

  lemma NoFilterNoCondition(j: Job)
    requires Sound(j) && j.v.filter.None?
    ensures j.condition.None?
  {
    var st :| ConditionFrom(j, st);
  }

  lemma {:induction false} FirstPartners(db: Database, joins: seq<Join>, base: Row) returns (tail: seq<Row>)
    requires forall i :: 0 <= i < |joins| ==> Partners(db, joins[i], base) != []
    ensures IsTail(db, joins, base, tail)
    decreases |joins|
  {
    if joins == [] {
      tail := [];
    } else {
      var rest := FirstPartners(db, joins[1..], base);
      tail := [Partners(db, joins[0], base)[0]] + rest;
      assert tail[1..] == rest;
    }
  }

  lemma FlatRow(j: Job, keys: seq<Expr>, i: nat, parts: (Expr, Option<(Expr, Expr)>), k: seq<Value>, base: Row, agg: AggregateExpr)
    requires Sound(j) && KeysRendered(j, keys) && PartsRendered(j, i, parts) && |Rows(j, base)| <= 1
    requires agg.arg == parts.0 && agg.filter == parts.1
    ensures Bag(Rows(j, base), InputFn(agg, keys, k, j.final, j.it))
            == Contribution(j.it, j.db, j.v.model, j.q, j.v.metrics[i].metric, k, base)
  {
    hide Sound, KeysRendered, PartsRendered, Rows, EvalExprs;
    ContributesViaRows(j, keys, i, parts, base, k);
    var rows, f := Rows(j, base), InputFn(agg, keys, k, j.final, j.it);
    if |rows| == 1 {
      RowValue(j, i, parts, base, rows[0]);
      BagOfOne(rows, f);
      OnlyRow(rows, keys, k, parts.1, j.final, j.it);
    }
  }

  lemma BagOfOne<X, V>(xs: seq<X>, f: X -> multiset<V>)
    requires |xs| == 1
    ensures Bag(xs, f) == f(xs[0])
  {
    assert xs == [xs[0]] && xs[1..] == [];
  }

  lemma OnlyRow(rows: seq<Scope>, keys: seq<Expr>, k: seq<Value>, filter: Option<(Expr, Expr)>, ps: seq<CompiledParameter>, it: Interpretation)
    requires |rows| == 1
    ensures (exists s :: s in rows && EvalExprs(keys, s, ps, it) == k && FilterTrue(filter, s, ps, it))
        <==> EvalExprs(keys, rows[0], ps, it) == k && FilterTrue(filter, rows[0], ps, it)
  {
    hide EvalExprs, FilterTrue;
    assert rows[0] in rows;
  }

  ghost function BaseRows(j: Job): seq<Row> {
    Table(j.db, j.v.model.source)
  }

  ghost function JoinedRows(j: Job): seq<Scope> {
    SourceRows(From(j.v.model.source, JoinsOf(j.v.relationships), j.condition), j.final, j.it, j.db)
  }

  lemma FlatInput(j: Job, keys: seq<Expr>, i: nat, parts: (Expr, Option<(Expr, Expr)>), k: seq<Value>, agg: AggregateExpr)
    requires Sound(j) && EntityKeysHold(j.s, j.db) && j.v.anchor.None?
    requires KeysRendered(j, keys) && PartsRendered(j, i, parts)
    requires agg.arg == parts.0 && agg.filter == parts.1
    ensures Bag(JoinedRows(j), InputFn(agg, keys, k, j.final, j.it))
            == Bag(BaseRows(j), ContributionFn(j.it, j.db, j.v.model, j.q, j.v.metrics[i].metric, k))
  {
    hide Sound, KeysRendered, PartsRendered;
    var joins, f := JoinsOf(j.v.relationships), InputFn(agg, keys, k, j.final, j.it);
    BagPerRow(j.db, joins, j.condition, j.final, j.it, BaseRows(j), f);
    var g := PerRow(j.db, joins, j.condition, j.final, j.it, f);
    var h := ContributionFn(j.it, j.db, j.v.model, j.q, j.v.metrics[i].metric, k);
    forall base | base in BaseRows(j)
      ensures g(base) == h(base)
    {
      FlatGrain(j, base);
      FlatRow(j, keys, i, parts, k, base, agg);
    }
    BagCongruence(BaseRows(j), g, h);
  }

  lemma JoinedRowBase(j: Job, s: Scope)
    ensures s in JoinedRows(j) <==> exists base :: base in BaseRows(j) && s in Rows(j, base)
  {
    RowsMember(j.db, JoinsOf(j.v.relationships), j.condition, j.final, j.it, BaseRows(j), s);
  }

  lemma JoinedKeysByBase(j: Job, keys: seq<Expr>, k: seq<Value>)
    ensures (exists s :: s in JoinedRows(j) && EvalExprs(keys, s, j.final, j.it) == k)
      <==> (exists base, s :: base in BaseRows(j) && s in Rows(j, base) && EvalExprs(keys, s, j.final, j.it) == k)
  {
    forall s
      ensures s in JoinedRows(j) <==> exists base :: base in BaseRows(j) && s in Rows(j, base)
    {
      JoinedRowBase(j, s);
    }
  }

  /** The keys that occur among the joined rows are the groups of the query. */
  lemma JoinedKeys(j: Job, keys: seq<Expr>, k: seq<Value>)
    requires Sound(j) && KeysRendered(j, keys)
    ensures (exists s :: s in JoinedRows(j) && EvalExprs(keys, s, j.final, j.it) == k)
      <==> (exists base, partners :: base in BaseRows(j) && Reaches(j.it, j.db, j.v.model, j.q, base, k, partners))
  {
    hide Sound, KeysRendered;
    GroupsViaRows(j, keys, k);
    JoinedKeysByBase(j, keys, k);
  }

  // ----- the anchored plan -----

  /** What a base row hands to a metric: its field's value if the row-local filter holds, else NULL. */
  ghost function LocalInput(j: Job, i: nat, base: Row): Value
    requires i < |j.v.metrics|
  {
    var m := j.v.metrics[i].metric;
    if MetricFilterMeaning(j.it, j.v.model, m, base, map[]) == True then NamedValue(j.v.model, m.field, base, map[]) else Null
  }

  ghost function CaseInput(parts: (Expr, Option<(Expr, Expr)>)): Expr {
    if parts.1.None? then parts.0 else CaseEqual(parts.1.value.0, parts.1.value.1, parts.0)
  }

  ghost predicate LocalFilter(m: ResolvedMetric) {
    m.filter.Some? ==> m.filter.value.0.relationship.None?
  }

  lemma ResolvedFilterIsLocal(version: string, model: Model, name: string, m: ResolvedMetric, it: Interpretation, base: Row, partners: map<string, Row>)
    requires ResolveMetric(version, model, name) == Ok(m) && LocalFilter(m)
    ensures MetricFilterMeaning(it, model, m.metric, base, partners) == MetricFilterMeaning(it, model, m.metric, base, map[])
  {
  }

  lemma FilterIsLocal(j: Job, i: nat, base: Row, partners: map<string, Row>)
    requires Sound(j) && i < |j.v.metrics| && LocalFilter(j.v.metrics[i])
    ensures MetricFilterMeaning(j.it, j.v.model, j.v.metrics[i].metric, base, partners)
            == MetricFilterMeaning(j.it, j.v.model, j.v.metrics[i].metric, base, map[])
  {
    ResolvedFilterIsLocal(j.s.schemaVersion, j.v.model, j.q.metrics[i], j.v.metrics[i], j.it, base, partners);
  }

  /** Every joined row of one base row has the same metric input. */
  lemma InputIsLocal(j: Job, i: nat, parts: (Expr, Option<(Expr, Expr)>), base: Row, s: Scope)
    requires Sound(j) && PartsRendered(j, i, parts) && LocalFilter(j.v.metrics[i]) && s in Rows(j, base)
    ensures EvalExpr(CaseInput(parts), s, j.final, j.it) == LocalInput(j, i, base)
  {
    hide Sound, PartsRendered, MetricFilterMeaning, NamedValue, Rows, IsCombination;
    var partners := RowIsCombination(j, base, s);
    PartsMean(j, i, parts, base, partners);
    FilterIsLocal(j, i, base, partners);
  }

  /** The anchor column tells base rows apart. */
  ghost predicate Anchors(j: Job, column: string) {
    IsKeyColumn(BaseRows(j), column)
  }

  lemma RowAnchor(j: Job, column: string, base: Row, s: Scope)
    requires Sound(j) && s in Rows(j, base)
    ensures EvalExpr(Column(0, column), s, j.final, j.it) == Cell(base, column)
  {
    var partners := RowIsCombination(j, base, s);
  }

  ghost function InnerKey(keys: seq<Expr>, column: string, s: Scope, j: Job): seq<Value> {
    EvalExprs(keys + [Column(0, column)], s, j.final, j.it)
  }

  lemma InnerKeySplits(j: Job, keys: seq<Expr>, column: string, base: Row, s: Scope)
    requires Sound(j) && s in Rows(j, base)
    ensures InnerKey(keys, column, s, j) == EvalExprs(keys, s, j.final, j.it) + [Cell(base, column)]
  {
    hide Sound;
    RowAnchor(j, column, base, s);
    assert InnerKey(keys, column, s, j)[..|keys|] == EvalExprs(keys, s, j.final, j.it);
  }

  ghost function KeySet(j: Job, keys: seq<Expr>, column: string, base: Row): set<seq<Value>> {
    set s | s in Rows(j, base) :: InnerKey(keys, column, s, j)
  }

  ghost function AllKeys(j: Job, keys: seq<Expr>, column: string, rows: seq<Row>): set<seq<Value>> {
    if rows == [] then {} else KeySet(j, keys, column, rows[0]) + AllKeys(j, keys, column, rows[1..])
  }

  lemma {:induction false} AllKeysMember(j: Job, keys: seq<Expr>, column: string, rows: seq<Row>, key: seq<Value>)
    ensures key in AllKeys(j, keys, column, rows) <==> exists base :: base in rows && key in KeySet(j, keys, column, base)
  {
    if rows != [] {
      AllKeysMember(j, keys, column, rows[1..], key);
      assert forall b :: b in rows <==> b == rows[0] || b in rows[1..];
    }
  }

  lemma InnerKeysAreAllKeys(j: Job, keys: seq<Expr>, column: string)
    requires Sound(j)
    ensures GroupKeys(keys + [Column(0, column)], JoinedRows(j), j.final, j.it) == AllKeys(j, keys, column, BaseRows(j))
  {
    hide Sound;
    var joins := JoinsOf(j.v.relationships);
    forall key
      ensures key in GroupKeys(keys + [Column(0, column)], JoinedRows(j), j.final, j.it) <==> key in AllKeys(j, keys, column, BaseRows(j))
    {
      AllKeysMember(j, keys, column, BaseRows(j), key);
      if key in GroupKeys(keys + [Column(0, column)], JoinedRows(j), j.final, j.it) {
        var s :| s in JoinedRows(j) && InnerKey(keys, column, s, j) == key;
        RowsMember(j.db, joins, j.condition, j.final, j.it, BaseRows(j), s);
        var base :| base in BaseRows(j) && s in Rows(j, base);
        assert key in KeySet(j, keys, column, base);
      }
      if exists base :: base in BaseRows(j) && key in KeySet(j, keys, column, base) {
        var base :| base in BaseRows(j) && key in KeySet(j, keys, column, base);
        var s :| s in Rows(j, base) && InnerKey(keys, column, s, j) == key;
        RowsMember(j.db, joins, j.condition, j.final, j.it, BaseRows(j), s);
      }
    }
  }

  lemma {:induction false} BagMember<X, V>(xs: seq<X>, f: X -> multiset<V>, v: V)
    ensures v in Bag(xs, f) <==> exists x :: x in xs && v in f(x)
  {
    if xs != [] {
      BagMember(xs[1..], f, v);
      assert forall x :: x in xs <==> x == xs[0] || x in xs[1..];
    }
  }

  lemma SameAnchorSameRow(j: Job, column: string, a: Row, b: Row)
    requires Anchors(j, column) && a in BaseRows(j) && b in BaseRows(j) && Cell(a, column) == Cell(b, column)
    ensures a == b
  {
    var x :| 0 <= x < |BaseRows(j)| && BaseRows(j)[x] == a;
    var y :| 0 <= y < |BaseRows(j)| && BaseRows(j)[y] == b;
  }

  ghost function InnerAggregate(parts: (Expr, Option<(Expr, Expr)>)): AggregateExpr {
    AggregateExpr(Max, CaseInput(parts), None)
  }

  /** Whatever an anchor group hands to `max` is the base row's own input. */
  lemma OnlyOwnInput(j: Job, keys: seq<Expr>, column: string, i: nat, parts: (Expr, Option<(Expr, Expr)>), base: Row, key: seq<Value>, s0: Scope, v: Value)
    requires Sound(j) && Anchors(j, column) && PartsRendered(j, i, parts) && LocalFilter(j.v.metrics[i])
    requires base in BaseRows(j) && s0 in Rows(j, base) && InnerKey(keys, column, s0, j) == key
    requires v in Bag(JoinedRows(j), InputFn(InnerAggregate(parts), keys + [Column(0, column)], key, j.final, j.it))
    ensures v == LocalInput(j, i, base)
  {
    hide Sound, PartsRendered, Anchors;
    var f := InputFn(InnerAggregate(parts), keys + [Column(0, column)], key, j.final, j.it);
    InnerKeySplits(j, keys, column, base, s0);
    BagMember(JoinedRows(j), f, v);
    var s :| s in JoinedRows(j) && v in f(s);
    RowsMember(j.db, JoinsOf(j.v.relationships), j.condition, j.final, j.it, BaseRows(j), s);
    var other :| other in BaseRows(j) && s in Rows(j, other);
    InnerKeySplits(j, keys, column, other, s);
    assert key[|key| - 1] == Cell(other, column) == Cell(base, column);
    SameAnchorSameRow(j, column, base, other);
    InputIsLocal(j, i, parts, base, s);
  }

  /** Inside one anchor group `max` only sees copies of the base row's own input. */
  lemma InnerValue(j: Job, keys: seq<Expr>, column: string, i: nat, parts: (Expr, Option<(Expr, Expr)>), base: Row, key: seq<Value>)
    requires Sound(j) && Anchors(j, column) && PartsRendered(j, i, parts) && LocalFilter(j.v.metrics[i])
    requires base in BaseRows(j) && key in KeySet(j, keys, column, base)
    ensures Aggregate(Max, Bag(JoinedRows(j), InputFn(InnerAggregate(parts), keys + [Column(0, column)], key, j.final, j.it)))
            == LocalInput(j, i, base)
  {
    hide Sound, PartsRendered, Anchors, Aggregate;
    var f := InputFn(InnerAggregate(parts), keys + [Column(0, column)], key, j.final, j.it);
    var bag, c := Bag(JoinedRows(j), f), LocalInput(j, i, base);
    var s0 :| s0 in Rows(j, base) && InnerKey(keys, column, s0, j) == key;
    InnerKeySplits(j, keys, column, base, s0);
    InputIsLocal(j, i, parts, base, s0);
    RowsMember(j.db, JoinsOf(j.v.relationships), j.condition, j.final, j.it, BaseRows(j), s0);
    assert c in f(s0);
    BagMember(JoinedRows(j), f, c);
    forall v | v in bag
      ensures v == c
    {
      OnlyOwnInput(j, keys, column, i, parts, base, key, s0, v);
    }
    MaxOfCopies(bag, c);
  }

  // ----- the outer stage -----

  ghost function OuterInput(groups: map<seq<Value>, seq<Value>>, d: nat, i: nat, k: seq<Value>, key: seq<Value>): multiset<Value> {
    if |key| == d + 1 && key[..d] == k && key in groups && i < |groups[key]| then multiset{groups[key][i]} else multiset{}
  }

  ghost function OuterFn(groups: map<seq<Value>, seq<Value>>, d: nat, i: nat, k: seq<Value>): seq<Value> -> multiset<Value> {
    key => OuterInput(groups, d, i, k, key)
  }

  lemma OuterRowInput(groups: map<seq<Value>, seq<Value>>, d: nat, i: nat, k: seq<Value>, key: seq<Value>, agg: AggregateExpr, ps: seq<CompiledParameter>, it: Interpretation)
    requires key in groups && |key| == d + 1 && i < |groups[key]|
    requires agg.arg == Output(d + 1 + i) && agg.filter.None?
    ensures Input(agg, OuterKeys(d), k, ps, it, Derived(key + groups[key])) == OuterInput(groups, d, i, k, key)
  {
    var s := Derived(key + groups[key]);
    assert EvalExprs(OuterKeys(d), s, ps, it) == key[..d];
  }

  lemma {:induction false} DerivedBag(groups: map<seq<Value>, seq<Value>>, keys: seq<seq<Value>>, d: nat, i: nat, k: seq<Value>, agg: AggregateExpr, ps: seq<CompiledParameter>, it: Interpretation)
    requires forall x :: x in keys ==> x in groups && |x| == d + 1 && i < |groups[x]|
    requires agg.arg == Output(d + 1 + i) && agg.filter.None?
    ensures Bag(DerivedRows(keys, groups), InputFn(agg, OuterKeys(d), k, ps, it)) == Bag(keys, OuterFn(groups, d, i, k))
  {
    if keys != [] {
      OuterRowInput(groups, d, i, k, keys[0], agg, ps, it);
      DerivedBag(groups, keys[1..], d, i, k, agg, ps, it);
      assert DerivedRows(keys, groups)[1..] == DerivedRows(keys[1..], groups);
    }
  }

  /** What a base row hands to group k after the two stages. */
  ghost function Reached(j: Job, keys: seq<Expr>, i: nat, k: seq<Value>, base: Row): multiset<Value> {
    if i < |j.v.metrics| && exists s :: s in Rows(j, base) && EvalExprs(keys, s, j.final, j.it) == k
    then multiset{LocalInput(j, i, base)} else multiset{}
  }

  ghost function ReachedFn(j: Job, keys: seq<Expr>, i: nat, k: seq<Value>): Row -> multiset<Value> {
    base => Reached(j, keys, i, k, base)
  }

  /** The inner stage's result, as far as the outer stage depends on it. */
  ghost predicate InnerGroups(j: Job, keys: seq<Expr>, column: string, groups: map<seq<Value>, seq<Value>>) {
    && groups.Keys == AllKeys(j, keys, column, BaseRows(j))
    && (forall key :: key in groups ==> |groups[key]| == |j.v.metrics|)
    && (forall base, key, i :: base in BaseRows(j) && key in KeySet(j, keys, column, base) && 0 <= i < |j.v.metrics| && key in groups && i < |groups[key]|
          ==> groups[key][i] == LocalInput(j, i, base))
  }

  lemma OneBaseRow(j: Job, keys: seq<Expr>, column: string, groups: map<seq<Value>, seq<Value>>, i: nat, k: seq<Value>, base: Row)
    requires Sound(j) && InnerGroups(j, keys, column, groups) && i < |j.v.metrics| && base in BaseRows(j)
    ensures Bag(Enumerate(KeySet(j, keys, column, base)), OuterFn(groups, |keys|, i, k)) == Reached(j, keys, i, k, base)
  {
    hide Sound;
    var p := k + [Cell(base, column)];
    var set_, f := KeySet(j, keys, column, base), OuterFn(groups, |keys|, i, k);
    forall key | key in set_
      ensures key in groups && |key| == |keys| + 1 && (key != p ==> key[..|keys|] != k)
    {
      var s :| s in Rows(j, base) && InnerKey(keys, column, s, j) == key;
      InnerKeySplits(j, keys, column, base, s);
      AllKeysMember(j, keys, column, BaseRows(j), key);
      assert key == key[..|keys|] + [Cell(base, column)];
    }
    EnumerateSingle(set_, p, f);
    assert p in set_ <==> exists s :: s in Rows(j, base) && EvalExprs(keys, s, j.final, j.it) == k by {
      forall s | s in Rows(j, base)
        ensures InnerKey(keys, column, s, j) == p <==> EvalExprs(keys, s, j.final, j.it) == k
      {
        InnerKeySplits(j, keys, column, base, s);
      }
    }
    if p in set_ {
      assert p[..|keys|] == k;
    }
  }

  lemma KeyEndsInAnchor(j: Job, keys: seq<Expr>, column: string, base: Row, key: seq<Value>)
    requires Sound(j) && key in KeySet(j, keys, column, base)
    ensures |key| == |keys| + 1 && key[|keys|] == Cell(base, column)
  {
    hide Sound;
    var s :| s in Rows(j, base) && InnerKey(keys, column, s, j) == key;
    InnerKeySplits(j, keys, column, base, s);
  }

  lemma KeySetsDisjoint(j: Job, keys: seq<Expr>, column: string, rows: seq<Row>)
    requires Sound(j) && rows != [] && IsKeyColumn(rows, column)
    ensures KeySet(j, keys, column, rows[0]) !! AllKeys(j, keys, column, rows[1..])
  {
    hide Sound;
    forall key | key in KeySet(j, keys, column, rows[0])
      ensures key !in AllKeys(j, keys, column, rows[1..])
    {
      KeyEndsInAnchor(j, keys, column, rows[0], key);
      AllKeysMember(j, keys, column, rows[1..], key);
      forall y | 0 < y < |rows|
        ensures key !in KeySet(j, keys, column, rows[y])
      {
        if key in KeySet(j, keys, column, rows[y]) {
          KeyEndsInAnchor(j, keys, column, rows[y], key);
        }
      }
    }
  }

  lemma {:induction false} OuterBag(j: Job, keys: seq<Expr>, column: string, groups: map<seq<Value>, seq<Value>>, i: nat, k: seq<Value>, rows: seq<Row>)
    requires Sound(j) && IsKeyColumn(rows, column)
    requires forall x :: 0 <= x < |rows| ==>
      Bag(Enumerate(KeySet(j, keys, column, rows[x])), OuterFn(groups, |keys|, i, k)) == Reached(j, keys, i, k, rows[x])
    ensures Bag(Enumerate(AllKeys(j, keys, column, rows)), OuterFn(groups, |keys|, i, k)) == Bag(rows, ReachedFn(j, keys, i, k))
  {
    hide Sound, Reached, KeySet, OuterFn, Enumerate;
    if rows != [] {
      KeySetsDisjoint(j, keys, column, rows);
      EnumerateUnion(KeySet(j, keys, column, rows[0]), AllKeys(j, keys, column, rows[1..]), OuterFn(groups, |keys|, i, k));
      OuterBag(j, keys, column, groups, i, k, rows[1..]);
    }
  }

  lemma {:induction false} BagNonNull<X>(xs: seq<X>, f: X -> multiset<Value>, g: X -> multiset<Value>)
    requires forall x :: x in xs ==> NonNull(f(x)) == NonNull(g(x))
    ensures NonNull(Bag(xs, f)) == NonNull(Bag(xs, g))
  {
    if xs != [] {
      BagNonNull(xs[1..], f, g);
      NonNullSum(f(xs[0]), Bag(xs[1..], f));
      NonNullSum(g(xs[0]), Bag(xs[1..], g));
    }
  }

  lemma NonNullSum(a: multiset<Value>, b: multiset<Value>)
    ensures NonNull(a + b) == NonNull(a) + NonNull(b)
  {
  }

  /** CASE WHEN p THEN v END and FILTER (WHERE p) differ only by NULLs, which no aggregate sees. */
  lemma ReachedIsContribution(j: Job, keys: seq<Expr>, i: nat, parts: (Expr, Option<(Expr, Expr)>), k: seq<Value>, base: Row)
    requires Sound(j) && KeysRendered(j, keys) && PartsRendered(j, i, parts) && LocalFilter(j.v.metrics[i])
    ensures NonNull(Reached(j, keys, i, k, base)) == NonNull(Contribution(j.it, j.db, j.v.model, j.q, j.v.metrics[i].metric, k, base))
  {
    hide Sound, KeysRendered, PartsRendered;
    ContributesViaRows(j, keys, i, parts, base, k);
    forall s | s in Rows(j, base)
      ensures FilterTrue(parts.1, s, j.final, j.it) <==> MetricFilterMeaning(j.it, j.v.model, j.v.metrics[i].metric, base, map[]) == True
    {
      var partners := RowIsCombination(j, base, s);
      PartsMean(j, i, parts, base, partners);
      FilterIsLocal(j, i, base, partners);
    }
  }

  lemma AnchoredInput(j: Job, keys: seq<Expr>, column: string, groups: map<seq<Value>, seq<Value>>, i: nat, parts: (Expr, Option<(Expr, Expr)>), k: seq<Value>, agg: AggregateExpr)
    requires Sound(j) && Anchors(j, column) && InnerGroups(j, keys, column, groups)
    requires KeysRendered(j, keys) && PartsRendered(j, i, parts) && LocalFilter(j.v.metrics[i])
    requires agg.arg == Output(|keys| + 1 + i) && agg.filter.None?
    requires forall key :: key in Enumerate(groups.Keys) ==> key in groups
    ensures NonNull(Bag(DerivedRows(Enumerate(groups.Keys), groups), InputFn(agg, OuterKeys(|keys|), k, j.final, j.it)))
            == NonNull(Bag(BaseRows(j), ContributionFn(j.it, j.db, j.v.model, j.q, j.v.metrics[i].metric, k)))
  {
    hide Sound, KeysRendered, PartsRendered;
    forall key | key in groups
      ensures |key| == |keys| + 1
    {
      AllKeysMember(j, keys, column, BaseRows(j), key);
      var base :| base in BaseRows(j) && key in KeySet(j, keys, column, base);
      var s :| s in Rows(j, base) && InnerKey(keys, column, s, j) == key;
    }
    DerivedBag(groups, Enumerate(groups.Keys), |keys|, i, k, agg, j.final, j.it);
    forall x | 0 <= x < |BaseRows(j)|
      ensures Bag(Enumerate(KeySet(j, keys, column, BaseRows(j)[x])), OuterFn(groups, |keys|, i, k)) == Reached(j, keys, i, k, BaseRows(j)[x])
    {
      OneBaseRow(j, keys, column, groups, i, k, BaseRows(j)[x]);
    }
    OuterBag(j, keys, column, groups, i, k, BaseRows(j));
    var f, g := ReachedFn(j, keys, i, k), ContributionFn(j.it, j.db, j.v.model, j.q, j.v.metrics[i].metric, k);
    forall base | base in BaseRows(j)
      ensures NonNull(f(base)) == NonNull(g(base))
    {
      ReachedIsContribution(j, keys, i, parts, k, base);
    }
    BagNonNull(BaseRows(j), f, g);
  }
}
