/**
 ORDER BY and LIMIT: which of its groups a compiled statement returns, and in which order, against
 what the query asks for in its own names.
 */
module ResultOrder {
  import opened Prelude
  import opened Semantic
  import opened Relational
  import opened Meaning
  import opened Compiler
  import opened PlanProofs
  import opened AnswerTheorem
  import opened LsqValidation

  // ----- the order of values and rows -----

  /** NULL is the largest value, as PostgreSQL sorts it when not told otherwise. */
  predicate ValueLeq(a: Value, b: Value) {
    b.Null? || (a.Val? && a.rank <= b.rank)
  }

  predicate InOrder(direction: SortDirection, a: Value, b: Value) {
    match direction
    case Asc => ValueLeq(a, b)
    case Desc => ValueLeq(b, a)
  }

  /** One item of ORDER BY: a column of the output row, by its place. */
  datatype SortItem = SortItem(column: nat, direction: SortDirection)

  function At(row: seq<Value>, column: nat): Value {
    if column < |row| then row[column] else Null
  }

  /** The first item in which two rows differ decides. */
  predicate RowLeq(items: seq<SortItem>, a: seq<Value>, b: seq<Value>) {
    if items == [] then true
    else
      var x, y := At(a, items[0].column), At(b, items[0].column);
      if x == y then RowLeq(items[1..], a, b) else InOrder(items[0].direction, x, y)
  }

  lemma {:induction false} RowLeqTotal(items: seq<SortItem>, a: seq<Value>, b: seq<Value>)
    ensures RowLeq(items, a, b) || RowLeq(items, b, a)
  {
    if items != [] {
      RowLeqTotal(items[1..], a, b);
    }
  }

  lemma {:induction false} RowLeqTransitive(items: seq<SortItem>, a: seq<Value>, b: seq<Value>, c: seq<Value>)
    requires RowLeq(items, a, b) && RowLeq(items, b, c)
    ensures RowLeq(items, a, c)
  {
    if items != [] {
      if At(a, items[0].column) == At(b, items[0].column) == At(c, items[0].column) {
        RowLeqTransitive(items[1..], a, b, c);
      }
    }
  }

  // ----- what PostgreSQL returns -----

  type Answer = map<seq<Value>, seq<Value>>

  /** The output row of a group: its key, then its aggregates. */
  function RowOf(groups: Answer, k: seq<Value>): seq<Value> {
    if k in groups then k + groups[k] else k
  }

  ghost predicate Leq(groups: Answer, items: seq<SortItem>, k: seq<Value>, l: seq<Value>) {
    RowLeq(items, RowOf(groups, k), RowOf(groups, l))
  }

  ghost predicate SortedKeys(groups: Answer, items: seq<SortItem>, keys: seq<seq<Value>>) {
    forall i, j :: 0 <= i < j < |keys| ==> Leq(groups, items, keys[i], keys[j])
  }

  /** Every group once, in some order the sort allows. */
  ghost predicate Listing(groups: Answer, items: seq<SortItem>, keys: seq<seq<Value>>) {
    NoDuplicates(keys) && (forall k :: k in keys <==> k in groups) && SortedKeys(groups, items, keys)
  }

  function Take<T>(xs: seq<T>, limit: nat): seq<T> {
    if limit <= |xs| then xs[..limit] else xs
  }

  /** Groups that a limited listing may begin with. */
  ghost predicate Listed(groups: Answer, items: seq<SortItem>, limit: nat, keys: seq<seq<Value>>) {
    exists all :: Listing(groups, items, all) && keys == Take(all, limit)
  }

  // ----- and what a prefix of a sorted listing is -----

  /** Sorted groups, as many as there may be, with no better one left out. */
  ghost predicate Top(groups: Answer, items: seq<SortItem>, limit: nat, keys: seq<seq<Value>>) {
    && NoDuplicates(keys) && (forall k :: k in keys ==> k in groups) && SortedKeys(groups, items, keys)
    && |keys| <= limit
    && (|keys| < limit ==> forall k :: k in groups ==> k in keys)
    && forall k, i :: k in groups && k !in keys && 0 <= i < |keys| ==> Leq(groups, items, keys[i], k)
  }

  lemma ListedIsTop(groups: Answer, items: seq<SortItem>, limit: nat, all: seq<seq<Value>>)
    requires Listing(groups, items, all)
    ensures Top(groups, items, limit, Take(all, limit))
  {
    hide Leq;
    var keys := Take(all, limit);
    assert forall j :: 0 <= j < |keys| ==> all[j] == keys[j] && all[j] in keys;
    forall k, i | k in groups && k !in keys && 0 <= i < |keys|
      ensures Leq(groups, items, keys[i], k)
    {
      var j :| 0 <= j < |all| && all[j] == k;
      assert j >= |keys|;
    }
  }

  /** Insertion into a sorted list of groups. */
  ghost function Insert(groups: Answer, items: seq<SortItem>, k: seq<Value>, keys: seq<seq<Value>>): seq<seq<Value>> {
    if keys == [] || Leq(groups, items, k, keys[0]) then [k] + keys
    else [keys[0]] + Insert(groups, items, k, keys[1..])
  }

  lemma {:induction false} InsertSorts(groups: Answer, items: seq<SortItem>, k: seq<Value>, keys: seq<seq<Value>>)
    requires SortedKeys(groups, items, keys) && NoDuplicates(keys) && k !in keys
    ensures var r := Insert(groups, items, k, keys);
      SortedKeys(groups, items, r) && NoDuplicates(r) && forall x :: x in r <==> x == k || x in keys
  {
    hide Leq;
    if keys != [] {
      var first, rest := keys[0], keys[1..];
      assert keys == [first] + rest;
      if Leq(groups, items, k, first) {
        forall j | 0 <= j < |keys|
          ensures Leq(groups, items, k, keys[j])
        {
          if j > 0 {
            LeqTransitive(groups, items, k, first, keys[j]);
          }
        }
      } else {
        LeqTotal(groups, items, k, first);
        InsertSorts(groups, items, k, rest);
        var r := Insert(groups, items, k, rest);
        assert forall x :: x in rest ==> Leq(groups, items, first, x);
        Prepend(groups, items, first, r);
      }
    }
  }

  lemma Prepend(groups: Answer, items: seq<SortItem>, first: seq<Value>, r: seq<seq<Value>>)
    requires SortedKeys(groups, items, r) && NoDuplicates(r) && first !in r
    requires forall x :: x in r ==> Leq(groups, items, first, x)
    ensures SortedKeys(groups, items, [first] + r) && NoDuplicates([first] + r)
  {
  }

  lemma LeqTransitive(groups: Answer, items: seq<SortItem>, k: seq<Value>, l: seq<Value>, m: seq<Value>)
    requires Leq(groups, items, k, l) && Leq(groups, items, l, m)
    ensures Leq(groups, items, k, m)
  {
    RowLeqTransitive(items, RowOf(groups, k), RowOf(groups, l), RowOf(groups, m));
  }

  lemma LeqTotal(groups: Answer, items: seq<SortItem>, k: seq<Value>, l: seq<Value>)
    ensures Leq(groups, items, k, l) || Leq(groups, items, l, k)
  {
    RowLeqTotal(items, RowOf(groups, k), RowOf(groups, l));
  }

  /** Any set of groups can be listed in order. */
  lemma {:induction false} SomeListing(groups: Answer, items: seq<SortItem>, rest: set<seq<Value>>) returns (keys: seq<seq<Value>>)
    ensures SortedKeys(groups, items, keys) && NoDuplicates(keys) && forall k :: k in keys <==> k in rest
    decreases |rest|
  {
    hide SortedKeys;
    keys := [];
    if rest == {} {
      NoneSorted(groups, items);
    } else {
      var k :| k in rest;
      var others := SomeListing(groups, items, rest - {k});
      InsertSorts(groups, items, k, others);
      keys := Insert(groups, items, k, others);
    }
  }

  lemma NoneSorted(groups: Answer, items: seq<SortItem>)
    ensures SortedKeys(groups, items, [])
  {
  }

  lemma Concatenated(groups: Answer, items: seq<SortItem>, keys: seq<seq<Value>>, rest: seq<seq<Value>>)
    requires SortedKeys(groups, items, keys) && SortedKeys(groups, items, rest) && NoDuplicates(keys) && NoDuplicates(rest)
    requires forall k, i :: k in rest && 0 <= i < |keys| ==> k !in keys && Leq(groups, items, keys[i], k)
    ensures SortedKeys(groups, items, keys + rest) && NoDuplicates(keys + rest)
  {
    hide Leq;
    var all := keys + rest;
    forall i, j | 0 <= i < j < |all|
      ensures Leq(groups, items, all[i], all[j]) && all[i] != all[j]
    {
      if i < |keys| <= j {
        assert all[j] == rest[j - |keys|] && all[j] in rest && all[i] == keys[i] && keys[i] in keys;
      }
    }
  }

  lemma FirstIn<T>(xs: seq<T>)
    requires xs != []
    ensures exists x :: x in xs
  {
    assert xs[0] in xs;
  }

  lemma TopIsListed(groups: Answer, items: seq<SortItem>, limit: nat, keys: seq<seq<Value>>)
    requires Top(groups, items, limit, keys)
    ensures Listed(groups, items, limit, keys)
  {
    hide Leq;
    var used := set k | k in keys;
    var rest := SomeListing(groups, items, groups.Keys - used);
    var all := keys + rest;
    Concatenated(groups, items, keys, rest);
    assert Listing(groups, items, all);
    if |keys| < limit {
      if rest != [] {
        FirstIn(rest);
      }
      assert all == keys;
    } else {
      assert all[..limit] == keys;
    }
  }

  /** A limited listing begins with exactly the groups that no other one precedes. */
  lemma ListedExactly(groups: Answer, items: seq<SortItem>, limit: nat, keys: seq<seq<Value>>)
    ensures Listed(groups, items, limit, keys) <==> Top(groups, items, limit, keys)
  {
    hide Top, Listing;
    if Listed(groups, items, limit, keys) {
      var all :| Listing(groups, items, all) && keys == Take(all, limit);
      ListedIsTop(groups, items, limit, all);
    }
    if Top(groups, items, limit, keys) {
      TopIsListed(groups, items, limit, keys);
    }
  }

  // ----- the statement -----

  /** ORDER BY names output columns, here by their place in the SELECT list. */
  function SortItems(columns: seq<string>, orderBy: seq<OrderBy>): (r: seq<SortItem>)
    ensures |r| == |orderBy|
    ensures forall i :: 0 <= i < |r| ==> r[i] == SortItem(PlaceOf(columns, orderBy[i].outputReference), orderBy[i].direction)
  {
    seq(|orderBy|, i requires 0 <= i < |orderBy| => SortItem(PlaceOf(columns, orderBy[i].outputReference), orderBy[i].direction))
  }

  function PlaceOf(columns: seq<string>, name: string): nat {
    if columns == [] || columns[0] == name then 0 else 1 + PlaceOf(columns[1..], name)
  }

  function BoundLimit(l: Literal): nat {
    if l.IntegerLiteral? && l.number >= 0 then l.number else 0
  }

  /** Rows a statement with these output columns may return; ties are in any order. */
  ghost predicate Returns(st: Statement, columns: seq<string>, ps: seq<CompiledParameter>, it: Interpretation, db: Database, rows: seq<seq<Value>>) {
    var groups := Eval(st.query, ps, it, db);
    var limit := BoundLimit(Bound(ps, st.limit));
    exists keys :: Listed(groups, SortItems(columns, st.orderBy), limit, keys) && AreRows(groups, keys, rows)
  }

  ghost predicate AreRows(groups: Answer, keys: seq<seq<Value>>, rows: seq<seq<Value>>) {
    |rows| == |keys| && forall i :: 0 <= i < |keys| ==> rows[i] == RowOf(groups, keys[i])
  }

  // ----- the query -----

  /** The value of a named output in a group: a dimension's place in the key, or what the metric means there. */
  ghost function OutputOf(it: Interpretation, db: Database, model: Model, q: Query, k: seq<Value>, name: string): Value {
    if exists i :: 0 <= i < |q.dimensions| && q.dimensions[i].field == name then
      var i :| 0 <= i < |q.dimensions| && q.dimensions[i].field == name;
      At(k, i)
    else
      match Lookup(model.metrics, MetricName, name)
      case None => Null
      case Some(m) => MetricMeaning(it, db, model, q, m, k)
  }

  /** Group k may come before group l: the first output in which they differ decides. */
  ghost predicate MayPrecede(it: Interpretation, db: Database, model: Model, q: Query, orderBy: seq<OrderBy>, k: seq<Value>, l: seq<Value>) {
    if orderBy == [] then true
    else
      var x, y := OutputOf(it, db, model, q, k, orderBy[0].outputReference), OutputOf(it, db, model, q, l, orderBy[0].outputReference);
      if x == y then MayPrecede(it, db, model, q, orderBy[1..], k, l) else InOrder(orderBy[0].direction, x, y)
  }

  /** The row of a group: its dimensions, then the meanings of the query's metrics. */
  ghost predicate IsRow(it: Interpretation, db: Database, model: Model, q: Query, k: seq<Value>, row: seq<Value>) {
    && |row| == |k| + |q.metrics| && row[..|k|] == k
    && forall i :: 0 <= i < |q.metrics| ==>
         var m := Lookup(model.metrics, MetricName, q.metrics[i]);
         m.Some? && row[|k| + i] == MetricMeaning(it, db, model, q, m.value, k)
  }

  /** A different group each, in the requested order, at most `limit` of them, and none that must come earlier is missing. */
  ghost predicate TopGroups(it: Interpretation, db: Database, model: Model, q: Query, limit: nat, keys: seq<seq<Value>>) {
    && NoDuplicates(keys)
    && (forall k :: k in keys ==> IsGroup(it, db, model, q, k))
    && (forall i, j :: 0 <= i < j < |keys| ==> MayPrecede(it, db, model, q, q.orderBy, keys[i], keys[j]))
    && |keys| <= limit
    && (|keys| < limit ==> forall k :: IsGroup(it, db, model, q, k) ==> k in keys)
    && forall k, i :: IsGroup(it, db, model, q, k) && k !in keys && 0 <= i < |keys| ==> MayPrecede(it, db, model, q, q.orderBy, keys[i], k)
  }

  ghost predicate IsResult(it: Interpretation, db: Database, model: Model, q: Query, limit: nat, keys: seq<seq<Value>>, rows: seq<seq<Value>>) {
    && TopGroups(it, db, model, q, limit, keys)
    && |rows| == |keys| && forall i :: 0 <= i < |keys| ==> IsRow(it, db, model, q, keys[i], rows[i])
  }

  // ----- output columns carry the query's names -----

  lemma {:induction false} DimensionColumnsAt(ds: seq<ResolvedDimension>)
    ensures |DimensionColumns(ds)| == |ds| && forall i :: 0 <= i < |ds| ==> DimensionColumns(ds)[i].name == ds[i].field.semanticName
  {
    if ds != [] {
      DimensionColumnsAt(ds[1..]);
    }
  }

  lemma {:induction false} DimensionNamesAt(dims: seq<Dimension>)
    ensures |DimensionNames(dims)| == |dims| && forall i :: 0 <= i < |dims| ==> DimensionNames(dims)[i] == dims[i].field
  {
    if dims != [] {
      DimensionNamesAt(dims[1..]);
    }
  }

  lemma DimensionColumnNames(model: Model, dims: seq<Dimension>, ds: seq<ResolvedDimension>)
    requires ResolveDimensions(model, dims) == Ok(ds)
    ensures |DimensionColumns(ds)| == |DimensionNames(dims)| == |dims|
    ensures forall i :: 0 <= i < |dims| ==> DimensionColumns(ds)[i].name == DimensionNames(dims)[i] == dims[i].field
  {
    hide ResolveDimensions, ResolveDimension, DimensionColumns, DimensionNames;
    DimensionColumnsAt(ds);
    DimensionNamesAt(dims);
    forall i | 0 <= i < |dims|
      ensures ds[i].field.semanticName == dims[i].field
    {
      DimensionNamed(model, dims[i], ds[i]);
    }
  }

  lemma DimensionNamed(model: Model, d: Dimension, r: ResolvedDimension)
    requires ResolveDimension(model, d) == Ok(r)
    ensures r.field.semanticName == d.field
  {
  }

  lemma {:induction false} MetricColumnsAt(ms: seq<ResolvedMetric>)
    ensures |MetricColumns(ms)| == |ms| && forall i :: 0 <= i < |ms| ==> MetricColumns(ms)[i].name == ms[i].metric.semanticName
  {
    if ms != [] {
      MetricColumnsAt(ms[1..]);
    }
  }

  lemma MetricColumnNames(version: string, model: Model, names: seq<string>, ms: seq<ResolvedMetric>)
    requires ResolveMetrics(version, model, names) == Ok(ms)
    ensures |MetricColumns(ms)| == |names|
    ensures forall i :: 0 <= i < |names| ==> MetricColumns(ms)[i].name == names[i]
  {
    hide ResolveMetrics, ResolveMetric, MetricColumns;
    MetricColumnsAt(ms);
    forall i | 0 <= i < |names|
      ensures ms[i].metric.semanticName == names[i]
    {
      ResolvedAnchor(version, model, names[i], ms[i]);
    }
  }

  ghost predicate Named(columns: seq<OutputColumn>, names: seq<string>) {
    |columns| == |names| && forall i :: 0 <= i < |names| ==> columns[i].name == names[i]
  }

  lemma NamedAppend(a: seq<OutputColumn>, b: seq<OutputColumn>, xs: seq<string>, ys: seq<string>)
    requires Named(a, xs) && Named(b, ys)
    ensures Named(a + b, xs + ys)
  {
  }

  lemma AcceptedResolves(q: Query, s: Snapshot, v: ValidatedQuery)
    requires Accepted(q, s, v)
    ensures ResolveDimensions(v.model, q.dimensions) == Ok(v.dimensions) && ResolveMetrics(s.schemaVersion, v.model, q.metrics) == Ok(v.metrics)
  {
    hide ResolveDimensions, ResolveMetrics, ResolveOptionalFilter, ResolveRelationships, ResolveAnchor, RecordAll, UsedFields;
  }

  lemma SchemaNamed(q: Query, s: Snapshot, v: ValidatedQuery)
    requires Accepted(q, s, v)
    ensures Named(DimensionColumns(v.dimensions) + MetricColumns(v.metrics), OutputNames(q)) && |DimensionNames(q.dimensions)| == |q.dimensions|
    ensures forall i :: 0 <= i < |q.dimensions| ==> OutputNames(q)[i] == q.dimensions[i].field
  {
    hide Accepted, ResolveDimensions, ResolveMetrics, DimensionColumns, MetricColumns, DimensionNames;
    AcceptedResolves(q, s, v);
    DimensionColumnNames(v.model, q.dimensions, v.dimensions);
    MetricColumnNames(s.schemaVersion, v.model, q.metrics, v.metrics);
    NamedAppend(DimensionColumns(v.dimensions), MetricColumns(v.metrics), DimensionNames(q.dimensions), q.metrics);
  }

  function SchemaNames(columns: seq<OutputColumn>): (names: seq<string>)
    ensures |names| == |columns| && forall i :: 0 <= i < |names| ==> names[i] == columns[i].name
  {
    seq(|columns|, i requires 0 <= i < |columns| => columns[i].name)
  }

  lemma NamedNames(columns: seq<OutputColumn>, names: seq<string>)
    requires Named(columns, names)
    ensures SchemaNames(columns) == names
  {
  }

  lemma {:induction false} PlaceFound(names: seq<string>, i: nat)
    requires NoDuplicates(names) && i < |names|
    ensures PlaceOf(names, names[i]) == i
  {
    if i > 0 {
      PlaceFound(names[1..], i - 1);
    }
  }

  // ----- the two orders agree -----

  /** What the theorem is about: the groups answer the query, under the query's own, distinct, names. */
  ghost predicate Setting(it: Interpretation, db: Database, model: Model, q: Query, groups: Answer, columns: seq<string>) {
    && IsAnswer(it, db, model, q, groups)
    && columns == OutputNames(q) && NoDuplicates(columns) && |DimensionNames(q.dimensions)| == |q.dimensions|
    && forall i :: 0 <= i < |q.dimensions| ==> OutputNames(q)[i] == q.dimensions[i].field
  }

  lemma GroupSize(it: Interpretation, db: Database, model: Model, q: Query, k: seq<Value>)
    requires IsGroup(it, db, model, q, k)
    ensures |k| == |q.dimensions|
  {
  }

  lemma DimensionOutput(it: Interpretation, db: Database, model: Model, q: Query, k: seq<Value>, j: nat)
    requires NoDuplicates(OutputNames(q)) && j < |q.dimensions| <= |OutputNames(q)|
    requires forall i :: 0 <= i < |q.dimensions| ==> OutputNames(q)[i] == q.dimensions[i].field
    ensures OutputOf(it, db, model, q, k, q.dimensions[j].field) == At(k, j)
  {
    hide NoDuplicates, OutputNames;
    var name := q.dimensions[j].field;
    var i :| 0 <= i < |q.dimensions| && q.dimensions[i].field == name && OutputOf(it, db, model, q, k, name) == At(k, i);
    SamePlace(OutputNames(q), i, j);
  }

  lemma MetricOutput(it: Interpretation, db: Database, model: Model, q: Query, groups: Answer, k: seq<Value>, j: nat)
    requires IsAnswer(it, db, model, q, groups) && k in groups && |k| == |q.dimensions|
    requires j < |q.metrics| && forall i :: 0 <= i < |q.dimensions| ==> q.dimensions[i].field != q.metrics[j]
    ensures OutputOf(it, db, model, q, k, q.metrics[j]) == At(RowOf(groups, k), |q.dimensions| + j)
  {
    hide IsGroup, MetricMeaning;
    assert RowOf(groups, k)[|k| + j] == groups[k][j];
  }

  /** A named output is the column of that name. */
  lemma OutputIsColumn(it: Interpretation, db: Database, model: Model, q: Query, groups: Answer, columns: seq<string>, k: seq<Value>, name: string)
    requires Setting(it, db, model, q, groups, columns) && k in groups && name in OutputNames(q)
    ensures OutputOf(it, db, model, q, k, name) == At(RowOf(groups, k), PlaceOf(columns, name))
  {
    hide IsGroup, IsAnswer, OutputOf, NoDuplicates, Named, DimensionNames;
    GroupsAre(it, db, model, q, groups, columns);
    GroupSize(it, db, model, q, k);
    var names, n := OutputNames(q), |q.dimensions|;
    var j :| 0 <= j < |names| && names[j] == name;
    PlaceFound(names, j);
    if j < n {
      DimensionOutput(it, db, model, q, k, j);
    } else {
      assert names[j] == q.metrics[j - n];
      forall i | 0 <= i < n
        ensures q.dimensions[i].field != name
      {
        if names[i] == name {
          SamePlace(names, i, j);
        }
      }
      MetricOutput(it, db, model, q, groups, k, j - n);
    }
  }

  lemma SamePlace(names: seq<string>, i: nat, j: nat)
    requires NoDuplicates(names) && i < |names| && j < |names| && names[i] == names[j]
    ensures i == j
  {
  }

  lemma {:induction false} OrdersAgree(it: Interpretation, db: Database, model: Model, q: Query, groups: Answer, columns: seq<string>,
                                       orderBy: seq<OrderBy>, k: seq<Value>, l: seq<Value>)
    requires Setting(it, db, model, q, groups, columns) && k in groups && l in groups
    requires forall i :: 0 <= i < |orderBy| ==> orderBy[i].outputReference in OutputNames(q)
    ensures MayPrecede(it, db, model, q, orderBy, k, l) <==> RowLeq(SortItems(columns, orderBy), RowOf(groups, k), RowOf(groups, l))
    decreases |orderBy|
  {
    hide Setting, OutputOf, RowOf, PlaceOf;
    if orderBy != [] {
      OutputIsColumn(it, db, model, q, groups, columns, k, orderBy[0].outputReference);
      OutputIsColumn(it, db, model, q, groups, columns, l, orderBy[0].outputReference);
      OrdersAgree(it, db, model, q, groups, columns, orderBy[1..], k, l);
      assert SortItems(columns, orderBy)[1..] == SortItems(columns, orderBy[1..]);
    }
  }

  lemma TopAgrees(it: Interpretation, db: Database, model: Model, q: Query, groups: Answer, columns: seq<string>, limit: nat, keys: seq<seq<Value>>)
    requires Setting(it, db, model, q, groups, columns)
    requires forall i :: 0 <= i < |q.orderBy| ==> q.orderBy[i].outputReference in OutputNames(q)
    ensures Top(groups, SortItems(columns, q.orderBy), limit, keys) <==> TopGroups(it, db, model, q, limit, keys)
  {
    hide Setting, RowLeq, SortItems, IsGroup, MayPrecede, RowOf, OutputNames;
    assert forall k :: k in groups <==> IsGroup(it, db, model, q, k) by {
      GroupsAre(it, db, model, q, groups, columns);
    }
    forall k, l | k in groups && l in groups
      ensures MayPrecede(it, db, model, q, q.orderBy, k, l) <==> Leq(groups, SortItems(columns, q.orderBy), k, l)
    {
      OrdersAgree(it, db, model, q, groups, columns, q.orderBy, k, l);
    }
    assert forall i :: 0 <= i < |keys| ==> keys[i] in keys;
  }

  lemma GroupsAre(it: Interpretation, db: Database, model: Model, q: Query, groups: Answer, columns: seq<string>)
    requires Setting(it, db, model, q, groups, columns)
    ensures forall k :: k in groups <==> IsGroup(it, db, model, q, k)
  {
    hide IsGroup;
  }

  lemma RowIs(it: Interpretation, db: Database, model: Model, q: Query, groups: Answer, columns: seq<string>, k: seq<Value>, row: seq<Value>)
    requires Setting(it, db, model, q, groups, columns) && k in groups
    ensures IsRow(it, db, model, q, k, row) <==> row == RowOf(groups, k)
  {
    hide IsGroup, MetricMeaning;
    var own := RowOf(groups, k);
    assert |own| == |k| + |q.metrics| && own[..|k|] == k;
    forall i | 0 <= i < |q.metrics|
      ensures var m := Lookup(model.metrics, MetricName, q.metrics[i]);
        m.Some? && own[|k| + i] == MetricMeaning(it, db, model, q, m.value, k)
    {
      assert own[|k| + i] == groups[k][i];
    }
    if IsRow(it, db, model, q, k, row) {
      forall j | 0 <= j < |row|
        ensures row[j] == own[j]
      {
        if j < |k| {
          assert row[j] == row[..|k|][j];
        } else {
          var m := Lookup(model.metrics, MetricName, q.metrics[j - |k|]);
          assert row[|k| + (j - |k|)] == MetricMeaning(it, db, model, q, m.value, k);
        }
      }
    }
  }

  // ----- from the compiler to the rows -----

  lemma {:induction false} OrderChecked(projected: seq<string>, orderBy: seq<OrderBy>)
    requires CheckOrder(projected, orderBy).Ok?
    ensures forall i :: 0 <= i < |orderBy| ==> orderBy[i].outputReference in projected
  {
    if orderBy != [] {
      OrderChecked(projected, orderBy[1..]);
    }
  }

  lemma ValidatedOrder(q: Query, s: Snapshot, model: Model, limit: nat)
    requires ValidateFor(q, s, model, limit).Ok?
    ensures CheckOrder(OutputNames(q), q.orderBy).Ok?
  {
    hide ResolveDimensions, ResolveMetrics, ResolveOptionalFilter, ResolveRelationships, ResolveAnchor, RecordAll, UsedFields, CheckOrder;
  }

  lemma CompiledSetting(q: Query, s: Snapshot, options: CompilerOptions, hash: Snapshot -> string, it: Interpretation, db: Database)
    requires Compile(q, s, options, hash).Ok? && EntityKeysHold(s, db) && NoDuplicates(OutputNames(q))
    ensures var c, model := Compile(q, s, options, hash).value, FindQueryable(s.models, q.model);
      && model.Some?
      && Setting(it, db, model.value, q, Eval(c.statement.query, c.parameters, it, db), SchemaNames(c.outputSchema))
      && c.statement.orderBy == q.orderBy
      && BoundLimit(Bound(c.parameters, c.statement.limit)) == LimitOf(q, options)
      && forall i :: 0 <= i < |q.orderBy| ==> q.orderBy[i].outputReference in OutputNames(q)
  {
    hide Validate, ValidateFor, RenderPlan, IsAnswer, Eval, EntityKeysHold, Accepted, OutputNames, FindQueryable, Named, NoDuplicates;
    CompiledQueryAnswers(q, s, options, hash, it, db);
    var v, plan := CompileSteps(q, s, options, hash);
    ValidateAccepts(q, s, options, hash, v);
    ValidateFinds(q, s, options, hash, v);
    ValidateForAccepts(q, s, FindQueryable(s.models, q.model).value, LimitOf(q, options), v);
    SchemaNamed(q, s, v);
    NamedNames(Compile(q, s, options, hash).value.outputSchema, OutputNames(q));
    ValidatedOrder(q, s, FindQueryable(s.models, q.model).value, LimitOf(q, options));
    OrderChecked(OutputNames(q), q.orderBy);
  }

  /** With distinct output names, the rows a compiled statement may return are the query's results. */
  lemma ReturnsResults(q: Query, s: Snapshot, options: CompilerOptions, hash: Snapshot -> string, it: Interpretation, db: Database, rows: seq<seq<Value>>)
    requires Compile(q, s, options, hash).Ok? && EntityKeysHold(s, db) && NoDuplicates(OutputNames(q))
    ensures FindQueryable(s.models, q.model).Some?
    ensures var c := Compile(q, s, options, hash).value;
      Returns(c.statement, SchemaNames(c.outputSchema), c.parameters, it, db, rows)
      <==> exists keys :: IsResult(it, db, FindQueryable(s.models, q.model).value, q, LimitOf(q, options), keys, rows)
  {
    hide Compile, Setting, IsAnswer, Eval, EntityKeysHold, FindQueryable, NoDuplicates, Top, TopGroups, Listed, SortItems, OutputNames, BoundLimit;
    CompiledSetting(q, s, options, hash, it, db);
    var c, model, limit := Compile(q, s, options, hash).value, FindQueryable(s.models, q.model).value, LimitOf(q, options);
    var groups, columns := Eval(c.statement.query, c.parameters, it, db), SchemaNames(c.outputSchema);
    forall keys
      ensures Listed(groups, SortItems(columns, q.orderBy), limit, keys) && AreRows(groups, keys, rows)
        <==> IsResult(it, db, model, q, limit, keys, rows)
    {
      ListedExactly(groups, SortItems(columns, q.orderBy), limit, keys);
      TopAgrees(it, db, model, q, groups, columns, limit, keys);
      RowsAre(it, db, model, q, groups, columns, limit, keys, rows);
    }
  }

  /**
   A compiled statement returns the query's rows, for every query the gateway accepts: rows may come back from it,
   in that order, exactly when they are the rows of as many of the query's groups as the limit allows, in the order
   the query asks for, with no group left out that would have to come earlier.
   */
  lemma CompiledQueryReturns(q: Query, s: Snapshot, options: CompilerOptions, hash: Snapshot -> string, it: Interpretation, db: Database, rows: seq<seq<Value>>)
    requires QueryHolds(q) && Compile(q, s, options, hash).Ok? && EntityKeysHold(s, db)
    ensures FindQueryable(s.models, q.model).Some?
    ensures var c := Compile(q, s, options, hash).value;
      Returns(c.statement, SchemaNames(c.outputSchema), c.parameters, it, db, rows)
      <==> exists keys :: IsResult(it, db, FindQueryable(s.models, q.model).value, q, LimitOf(q, options), keys, rows)
  {
    hide Compile, Returns, IsResult, EntityKeysHold, FindQueryable;
    ReturnsResults(q, s, options, hash, it, db, rows);
  }

  lemma RowsAre(it: Interpretation, db: Database, model: Model, q: Query, groups: Answer, columns: seq<string>, limit: nat,
                keys: seq<seq<Value>>, rows: seq<seq<Value>>)
    requires Setting(it, db, model, q, groups, columns)
    ensures TopGroups(it, db, model, q, limit, keys) ==> (AreRows(groups, keys, rows) <==> IsResult(it, db, model, q, limit, keys, rows))
  {
    hide Setting, IsRow, RowOf, MayPrecede, IsGroup;
    GroupsAre(it, db, model, q, groups, columns);
    if TopGroups(it, db, model, q, limit, keys) && |rows| == |keys| {
      forall i | 0 <= i < |keys|
        ensures IsRow(it, db, model, q, keys[i], rows[i]) <==> rows[i] == RowOf(groups, keys[i])
      {
        assert keys[i] in keys;
        RowIs(it, db, model, q, groups, columns, keys[i], rows[i]);
      }
    }
  }
}
