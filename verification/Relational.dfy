/**
 The part of PostgreSQL's meaning that emitted statements use: NULL, three-valued
 predicates, inner and left joins, grouping, and the six aggregates.

 A non-null value is a real: numbers stand for themselves and every other type for its
 rank in its own order, which is all that comparison, grouping, min and max observe.
 */
module Relational {
  import opened Prelude
  import opened Semantic
  import opened Bags

  datatype Value = Null | Val(rank: real)

  type Row = map<string, Value>

  type Database = map<Relation, seq<Row>>

  function Table(db: Database, relation: Relation): seq<Row> {
    if relation in db then db[relation] else []
  }

  /** A missing column reads as NULL, so the empty row is the all-NULL row of a left join. */
  function Cell(row: Row, column: string): Value {
    if column in row then row[column] else Null
  }

  // ----- three-valued logic -----

  datatype Tri = True | False | Unknown

  function NotTri(a: Tri): Tri {
    match a case True => False case False => True case Unknown => Unknown
  }

  function AndTri(a: Tri, b: Tri): Tri {
    if a == False || b == False then False
    else if a == True && b == True then True
    else Unknown
  }

  function OrTri(a: Tri, b: Tri): Tri {
    NotTri(AndTri(NotTri(a), NotTri(b)))
  }

  function OfBool(b: bool): Tri {
    if b then True else False
  }

  function CompareValues(op: ComparisonOperator, a: Value, b: Value): Tri {
    if a.Null? || b.Null? then Unknown
    else match op
      case Eq => OfBool(a.rank == b.rank)
      case NotEq => OfBool(a.rank != b.rank)
      case Gt => OfBool(a.rank > b.rank)
      case Gte => OfBool(a.rank >= b.rank)
      case Lt => OfBool(a.rank < b.rank)
      case Lte => OfBool(a.rank <= b.rank)
  }

  // ----- aggregates -----

  ghost function NonNull(bag: multiset<Value>): multiset<Value> {
    bag[Null := 0]
  }

  ghost function Total(bag: multiset<Value>): real {
    if bag == multiset{} then 0.0 else
      var v :| v in bag;
      Worth(v) + Total(bag - multiset{v})
  }

  function Worth(v: Value): real {
    if v.Val? then v.rank else 0.0
  }

  lemma Swap(bag: multiset<Value>, x: Value, v: Value)
    requires v in bag
    ensures bag + multiset{x} - multiset{v} == (bag - multiset{v}) + multiset{x}
    ensures (bag - multiset{v}) + multiset{v} == bag
  {
  }

  /** The total does not depend on the order in which values are added. */
  lemma {:induction false} TotalAdds(bag: multiset<Value>, x: Value)
    ensures Total(bag + multiset{x}) == Total(bag) + Worth(x)
    decreases |bag|
  {
    var more := bag + multiset{x};
    var v :| v in more && Total(more) == Worth(v) + Total(more - multiset{v});
    if v == x {
      assert more - multiset{v} == bag;
    } else {
      Swap(bag, x, v);
      TotalAdds(bag - multiset{v}, x);
      TotalAdds(bag - multiset{v}, v);
    }
  }

  /** The values added one after the other. */
  function Added(values: seq<Value>): real {
    if values == [] then 0.0 else Added(values[..|values| - 1]) + Worth(values[|values| - 1])
  }

  /** In whatever order the rows come, their sum is the total of the bag. */
  lemma {:induction false} SumInAnyOrder(values: seq<Value>)
    ensures Added(values) == Total(multiset(values))
  {
    if values != [] {
      var n := |values| - 1;
      SumInAnyOrder(values[..n]);
      assert values == values[..n] + [values[n]];
      TotalAdds(multiset(values[..n]), values[n]);
    }
  }

  /** The extreme non-null value, greatest or least. */
  ghost function Extreme(bag: multiset<Value>, greatest: bool): (m: Value)
    requires bag != multiset{} && forall v :: v in bag ==> v.Val?
    ensures m in bag
    ensures forall v :: v in bag ==> if greatest then v.rank <= m.rank else m.rank <= v.rank
    decreases |bag|
  {
    var v :| v in bag;
    var rest := bag - multiset{v};
    assert forall w :: w in bag <==> w == v || w in rest;
    if rest == multiset{} then v
    else
      var m := Extreme(rest, greatest);
      if (m.rank <= v.rank) == greatest then v else m
  }

  /** NULL inputs are ignored; only `count` has a value on no input. */
  ghost function Aggregate(fn: Aggregation, input: multiset<Value>): Value {
    var bag := NonNull(input);
    match fn
    case Count => Val(|bag| as real)
    case CountDistinct => Val(|set v | v in bag| as real)
    case Sum => if bag == multiset{} then Null else Val(Total(bag))
    case Avg => if bag == multiset{} then Null else Val(Total(bag) / (|bag| as real))
    case Min => if bag == multiset{} then Null else Extreme(bag, false)
    case Max => if bag == multiset{} then Null else Extreme(bag, true)
  }

  lemma AggregateIgnoresNull(fn: Aggregation, a: multiset<Value>, b: multiset<Value>)
    requires NonNull(a) == NonNull(b)
    ensures Aggregate(fn, a) == Aggregate(fn, b)
  {
  }

  /** `max` over copies of one value is that value, NULL included. */
  lemma MaxOfCopies(input: multiset<Value>, c: Value)
    requires input != multiset{} && forall v :: v in input ==> v == c
    ensures Aggregate(Max, input) == c
  {
    var bag := NonNull(input);
    if c == Null {
      assert bag == multiset{};
    } else {
      assert bag == input;
      assert Extreme(bag, true) in bag;
    }
  }

  // ----- statements -----

  datatype Expr =
    | Column(alias: nat, column: string)                       // t{alias}."column"
    | Output(index: nat)                                       // column of the inner stage, by position
    | Param(position: nat, cast: DataType)                     // $p::text::type
    | DayStart(zone: nat, day: nat)                            // timezone($z::text, $d::text::date::timestamp)
    | Trunc(grain: TimeGrain, arg: Expr)                       // date_trunc('g', e)::date
    | LocalTrunc(grain: TimeGrain, zone: nat, arg: Expr)       // date_trunc('g', timezone($z::text, e))::date
    | CaseEqual(left: Expr, right: Expr, result: Expr)         // CASE WHEN l = r THEN e END

  datatype Pred =
    | PAnd(args: seq<Pred>)
    | POr(args: seq<Pred>)
    | PNot(arg: Pred)
    | PCompare(op: ComparisonOperator, left: Expr, right: Expr)
    | PIn(item: Expr, options: seq<Expr>)
    | PIsNull(item: Expr)
    | PIsNotNull(item: Expr)

  datatype AggregateExpr = AggregateExpr(fn: Aggregation, arg: Expr, filter: Option<(Expr, Expr)>)

  /** `kind JOIN target AS t{i+1} ON t0.from = t{i+1}.to`, i being the join's index. */
  datatype Join = Join(kind: JoinType, target: Relation, fromColumn: string, toColumn: string)

  datatype Source =
    | From(base: Relation, joins: seq<Join>, condition: Option<Pred>)
    | Stage(inner: Select)

  /** Without keys there is no GROUP BY and exactly one output row. */
  datatype Select = Select(source: Source, keys: seq<Expr>, aggregates: seq<AggregateExpr>)

  datatype CompiledParameter = CompiledParameter(position: nat, dataType: DataType, value: Literal)

  /** What the foreign functions compute; NULL handling and everything else is theirs. */
  datatype Interpretation = Interpretation(
    cast: (DataType, Literal) -> Value,
    dayStart: (Literal, Literal) -> Value,
    trunc: (TimeGrain, Value) -> Value,
    localTrunc: (TimeGrain, Literal, Value) -> Value)

  datatype Scope = Joined(rows: seq<Row>) | Derived(cells: seq<Value>)

  /** Bound values are addressed by their place in the list, counted from one. */
  function Bound(parameters: seq<CompiledParameter>, position: nat): Literal {
    if 1 <= position <= |parameters| then parameters[position - 1].value else TextLiteral("")
  }

  function EvalExpr(e: Expr, s: Scope, ps: seq<CompiledParameter>, it: Interpretation): Value {
    match e
    case Column(alias, column) =>
      if s.Joined? && alias < |s.rows| then Cell(s.rows[alias], column) else Null
    case Output(index) =>
      if s.Derived? && index < |s.cells| then s.cells[index] else Null
    case Param(position, cast) => it.cast(cast, Bound(ps, position))
    case DayStart(zone, day) => it.dayStart(Bound(ps, zone), Bound(ps, day))
    case Trunc(grain, arg) => it.trunc(grain, EvalExpr(arg, s, ps, it))
    case LocalTrunc(grain, zone, arg) => it.localTrunc(grain, Bound(ps, zone), EvalExpr(arg, s, ps, it))
    case CaseEqual(left, right, result) =>
      if CompareValues(Eq, EvalExpr(left, s, ps, it), EvalExpr(right, s, ps, it)) == True
      then EvalExpr(result, s, ps, it) else Null
  }

  function EvalExprs(es: seq<Expr>, s: Scope, ps: seq<CompiledParameter>, it: Interpretation): (r: seq<Value>)
    ensures |r| == |es| && forall i :: 0 <= i < |es| ==> r[i] == EvalExpr(es[i], s, ps, it)
  {
    if es == [] then [] else [EvalExpr(es[0], s, ps, it)] + EvalExprs(es[1..], s, ps, it)
  }

  function EvalPred(p: Pred, s: Scope, ps: seq<CompiledParameter>, it: Interpretation): Tri
    decreases p
  {
    match p
    case PAnd(args) => EvalAnd(args, s, ps, it)
    case POr(args) => EvalOr(args, s, ps, it)
    case PNot(arg) => NotTri(EvalPred(arg, s, ps, it))
    case PCompare(op, left, right) => CompareValues(op, EvalExpr(left, s, ps, it), EvalExpr(right, s, ps, it))
    case PIn(item, options) => MemberOf(EvalExpr(item, s, ps, it), EvalExprs(options, s, ps, it))
    case PIsNull(item) => OfBool(EvalExpr(item, s, ps, it).Null?)
    case PIsNotNull(item) => OfBool(EvalExpr(item, s, ps, it).Val?)
  }

  function EvalAnd(args: seq<Pred>, s: Scope, ps: seq<CompiledParameter>, it: Interpretation): Tri
    decreases args
  {
    if args == [] then True else AndTri(EvalPred(args[0], s, ps, it), EvalAnd(args[1..], s, ps, it))
  }

  function EvalOr(args: seq<Pred>, s: Scope, ps: seq<CompiledParameter>, it: Interpretation): Tri
    decreases args
  {
    if args == [] then False else OrTri(EvalPred(args[0], s, ps, it), EvalOr(args[1..], s, ps, it))
  }

  function MemberOf(v: Value, options: seq<Value>): Tri {
    if options == [] then False
    else OrTri(CompareValues(Eq, v, options[0]), MemberOf(v, options[1..]))
  }

  // ----- joins -----

  function Matching(rows: seq<Row>, column: string, v: Value): (r: seq<Row>)
    ensures forall m :: m in r <==> m in rows && CompareValues(Eq, v, Cell(m, column)) == True
  {
    if rows == [] then []
    else
      var rest := Matching(rows[1..], column, v);
      if CompareValues(Eq, v, Cell(rows[0], column)) == True then [rows[0]] + rest else rest
  }

  function Partners(db: Database, join: Join, base: Row): seq<Row> {
    var matches := Matching(Table(db, join.target), join.toColumn, Cell(base, join.fromColumn));
    if matches == [] && join.kind == Left then [map[]] else matches
  }

  function AppendEach(tuple: seq<Row>, partners: seq<Row>): (r: seq<seq<Row>>)
    ensures |r| == |partners| && forall i :: 0 <= i < |r| ==> r[i] == tuple + [partners[i]]
  {
    if partners == [] then [] else [tuple + [partners[0]]] + AppendEach(tuple, partners[1..])
  }

  predicate AllNonEmpty(tuples: seq<seq<Row>>) {
    forall i :: 0 <= i < |tuples| ==> tuples[i] != []
  }

  /** One join step over all tuples built so far; every ON clause compares with t0. */
  function Extend(db: Database, join: Join, tuples: seq<seq<Row>>): (r: seq<seq<Row>>)
    requires AllNonEmpty(tuples)
    ensures AllNonEmpty(r)
  {
    if tuples == [] then []
    else AppendEach(tuples[0], Partners(db, join, tuples[0][0])) + Extend(db, join, tuples[1..])
  }

  /** Joins are applied in order, left-deep. */
  function JoinAll(db: Database, joins: seq<Join>, tuples: seq<seq<Row>>): seq<seq<Row>>
    requires AllNonEmpty(tuples)
    decreases |joins|
  {
    if joins == [] then tuples else JoinAll(db, joins[1..], Extend(db, joins[0], tuples))
  }

  function Singletons(rows: seq<Row>): (r: seq<seq<Row>>)
    ensures |r| == |rows| && forall i :: 0 <= i < |r| ==> r[i] == [rows[i]]
  {
    seq(|rows|, i requires 0 <= i < |rows| => [rows[i]])
  }

  function Passing(condition: Option<Pred>, tuples: seq<seq<Row>>, ps: seq<CompiledParameter>, it: Interpretation): (r: seq<Scope>)
    ensures forall s :: s in r <==> s.Joined? && s.rows in tuples && Holds(condition, s, ps, it)
  {
    if tuples == [] then []
    else
      var rest := Passing(condition, tuples[1..], ps, it);
      if Holds(condition, Joined(tuples[0]), ps, it) then [Joined(tuples[0])] + rest else rest
  }

  predicate Holds(condition: Option<Pred>, s: Scope, ps: seq<CompiledParameter>, it: Interpretation) {
    condition.Some? ==> EvalPred(condition.value, s, ps, it) == True
  }

  // ----- grouping -----

  /** What one row adds to an aggregate's input in the group with key k. */
  ghost function Input(agg: AggregateExpr, keys: seq<Expr>, k: seq<Value>, ps: seq<CompiledParameter>, it: Interpretation, s: Scope): multiset<Value> {
    if EvalExprs(keys, s, ps, it) == k
       && (agg.filter.Some? ==> CompareValues(Eq, EvalExpr(agg.filter.value.0, s, ps, it), EvalExpr(agg.filter.value.1, s, ps, it)) == True)
    then multiset{EvalExpr(agg.arg, s, ps, it)}
    else multiset{}
  }

  ghost function InputFn(agg: AggregateExpr, keys: seq<Expr>, k: seq<Value>, ps: seq<CompiledParameter>, it: Interpretation): Scope -> multiset<Value> {
    s => Input(agg, keys, k, ps, it, s)
  }

  ghost function GroupRow(q: Select, k: seq<Value>, rows: seq<Scope>, ps: seq<CompiledParameter>, it: Interpretation): (r: seq<Value>)
    ensures |r| == |q.aggregates|
    ensures forall j :: 0 <= j < |r| ==> r[j] == Aggregate(q.aggregates[j].fn, Bag(rows, InputFn(q.aggregates[j], q.keys, k, ps, it)))
  {
    seq(|q.aggregates|, j requires 0 <= j < |q.aggregates| =>
      Aggregate(q.aggregates[j].fn, Bag(rows, InputFn(q.aggregates[j], q.keys, k, ps, it))))
  }

  ghost function GroupKeys(keys: seq<Expr>, rows: seq<Scope>, ps: seq<CompiledParameter>, it: Interpretation): set<seq<Value>> {
    if keys == [] then {[]} else set s | s in rows :: EvalExprs(keys, s, ps, it)
  }

  /** The groups of a select: from the values of its keys to the values of its aggregates. */
  ghost function Groups(q: Select, rows: seq<Scope>, ps: seq<CompiledParameter>, it: Interpretation): (r: map<seq<Value>, seq<Value>>)
    ensures r.Keys == GroupKeys(q.keys, rows, ps, it)
  {
    map k | k in GroupKeys(q.keys, rows, ps, it) :: GroupRow(q, k, rows, ps, it)
  }

  /** The rows of the inner stage, in some order. */
  ghost function DerivedRows(keys: seq<seq<Value>>, groups: map<seq<Value>, seq<Value>>): (r: seq<Scope>)
    requires forall k :: k in keys ==> k in groups
    ensures |r| == |keys| && forall i :: 0 <= i < |r| ==> r[i] == Derived(keys[i] + groups[keys[i]])
  {
    if keys == [] then [] else [Derived(keys[0] + groups[keys[0]])] + DerivedRows(keys[1..], groups)
  }

  lemma EnumeratedKeys(groups: map<seq<Value>, seq<Value>>)
    ensures forall k :: k in Enumerate(groups.Keys) ==> k in groups
  {
    forall k | k in Enumerate(groups.Keys)
      ensures k in groups
    {
      EnumerateElements(groups.Keys, k);
    }
  }

  ghost function SourceRows(src: Source, ps: seq<CompiledParameter>, it: Interpretation, db: Database): seq<Scope>
    decreases src
  {
    match src
    case From(base, joins, condition) => Passing(condition, JoinAll(db, joins, Singletons(Table(db, base))), ps, it)
    case Stage(inner) =>
      var groups := Eval(inner, ps, it, db);
      EnumeratedKeys(groups);
      DerivedRows(Enumerate(groups.Keys), groups)
  }

  ghost function Eval(q: Select, ps: seq<CompiledParameter>, it: Interpretation, db: Database): map<seq<Value>, seq<Value>>
    decreases q
  {
    Groups(q, SourceRows(q.source, ps, it, db), ps, it)
  }
}
