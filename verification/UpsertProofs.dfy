/**
 What a compiled mutation does to a table, and the frame of an upsert: which rows and which
 columns it may change, what it leaves behind, and what doing it again does.
 */
module UpsertProofs {
  import opened Prelude
  import opened Semantic
  import opened Snapshots
  import opened Relational
  import opened Mutation

  // ----- PostgreSQL's INSERT ... ON CONFLICT -----

  /**
   How parameters are cast to the declared types, how a column's own type stores what is assigned to it, and
   what columns absent from the statement receive in the r-th new row.
   */
  datatype Environment = Environment(cast: (DataType, MutationValue) -> Value, assign: (string, Value) -> Value, defaults: nat -> Row)

  datatype StatementError = DuplicateColumn | RowAffectedTwice

  datatype Effect = Effect(table: seq<Row>, affected: seq<nat>)

  /** Equal and without NULL on every key column. */
  predicate SameKey(a: Row, b: Row, key: seq<string>) {
    forall i :: 0 <= i < |key| ==> Cell(a, key[i]) != Null && Cell(a, key[i]) == Cell(b, key[i])
  }

  function MatchIndex(table: seq<Row>, row: Row, key: seq<string>): (r: Option<nat>)
    ensures r.Some? ==> r.value < |table| && SameKey(table[r.value], row, key)
    ensures r.None? ==> forall i :: 0 <= i < |table| ==> !SameKey(table[i], row, key)
  {
    if table == [] then None
    else if SameKey(table[|table| - 1], row, key) then Some(|table| - 1)
    else MatchIndex(table[..|table| - 1], row, key)
  }

  function Updated(old': Row, proposed: Row, updates: seq<string>): Row {
    map c | c in old'.Keys + (set i | 0 <= i < |updates| :: updates[i]) :: if c in updates then Cell(proposed, c) else Cell(old', c)
  }

  /** One proposed row after the other; a second effect on the same row is an error. */
  function UpsertAll(table: seq<Row>, rows: seq<Row>, key: seq<string>, updates: seq<string>): Result<Effect, StatementError> {
    if rows == [] then Ok(Effect(table, []))
    else
      var before :- UpsertAll(table, rows[..|rows| - 1], key, updates);
      var proposed := rows[|rows| - 1];
      match MatchIndex(before.table, proposed, key)
      case None => Ok(Effect(before.table + [proposed], before.affected + [|before.table|]))
      case Some(i) =>
        if i in before.affected then Err(RowAffectedTwice)
        else Ok(Effect(before.table[i := Updated(before.table[i], proposed, updates)], before.affected + [i]))
  }

  function PlaceholderValue(parameters: seq<MutationParameter>, p: Placeholder, env: Environment): Value
    requires 0 < p.position <= |parameters|
  {
    env.cast(p.dataType, parameters[p.position - 1].value)
  }

  predicate Bound(statement: Statement, parameters: seq<MutationParameter>) {
    forall r :: 0 <= r < |statement.values| ==> RowBound(statement, statement.values[r], parameters)
  }

  predicate RowBound(statement: Statement, row: seq<Placeholder>, parameters: seq<MutationParameter>) {
    |row| == |statement.columns| && forall f :: 0 <= f < |row| ==> 0 < row[f].position <= |parameters|
  }

  function ProposedRow(statement: Statement, parameters: seq<MutationParameter>, env: Environment, r: nat): Row
    requires Bound(statement, parameters) && r < |statement.values|
  {
    assert RowBound(statement, statement.values[r], parameters);
    map c | c in env.defaults(r).Keys + (set i | 0 <= i < |statement.columns| :: statement.columns[i]) ::
      if c in statement.columns then env.assign(c, PlaceholderValue(parameters, statement.values[r][IndexOf(statement.columns, c)], env))
      else Cell(env.defaults(r), c)
  }

  function ProposedRows(statement: Statement, parameters: seq<MutationParameter>, env: Environment): (rows: seq<Row>)
    requires Bound(statement, parameters)
    ensures |rows| == |statement.values| && forall r :: 0 <= r < |rows| ==> rows[r] == ProposedRow(statement, parameters, env, r)
  {
    seq(|statement.values|, r requires 0 <= r < |statement.values| => ProposedRow(statement, parameters, env, r))
  }

  function Execute(statement: Statement, parameters: seq<MutationParameter>, env: Environment, table: seq<Row>): Result<Effect, StatementError>
    requires Bound(statement, parameters)
  {
    var rows := ProposedRows(statement, parameters, env);
    if !NoDuplicates(statement.columns) then Err(DuplicateColumn)
    else match statement.conflict
      case None => Ok(Effect(table + rows, seq(|rows|, r requires 0 <= r < |rows| => |table| + r)))
      case Some(c) => UpsertAll(table, rows, c.target, c.updates)
  }

  // ----- upserting rows into a keyed table -----

  /** A unique index over the key columns, in which NULLs are distinct. */
  ghost predicate Keyed(table: seq<Row>, key: seq<string>) {
    forall i, j :: 0 <= i < j < |table| ==> !SameKey(table[i], table[j], key)
  }

  ghost predicate Disjoint(key: seq<string>, updates: seq<string>) {
    forall i :: 0 <= i < |key| ==> key[i] !in updates
  }

  lemma UpdatedCell(row: Row, proposed: Row, updates: seq<string>, c: string)
    ensures Cell(Updated(row, proposed, updates), c) == if c in updates then Cell(proposed, c) else Cell(row, c)
  {
  }

  /** An update leaves the key as it was. */
  lemma UpdatedKeepsKey(row: Row, proposed: Row, other: Row, key: seq<string>, updates: seq<string>)
    requires Disjoint(key, updates)
    ensures SameKey(Updated(row, proposed, updates), other, key) == SameKey(row, other, key)
    ensures SameKey(other, Updated(row, proposed, updates), key) == SameKey(other, row, key)
  {
    forall i | 0 <= i < |key|
      ensures Cell(Updated(row, proposed, updates), key[i]) == Cell(row, key[i])
    {
      UpdatedCell(row, proposed, updates, key[i]);
    }
  }

  lemma SameKeySymmetric(a: Row, b: Row, key: seq<string>)
    ensures SameKey(a, b, key) == SameKey(b, a, key)
  {
  }

  lemma SameKeyTransitive(a: Row, b: Row, c: Row, key: seq<string>)
    requires SameKey(a, b, key) && SameKey(b, c, key)
    ensures SameKey(a, c, key)
  {
  }

  /** What row i of the old table has become after the given rows. */
  ghost predicate RowAfter(table: seq<Row>, rows: seq<Row>, key: seq<string>, updates: seq<string>, e: Effect, i: nat)
    requires i < |table| <= |e.table|
  {
    (forall r :: 0 <= r < |rows| && SameKey(table[i], rows[r], key) ==> e.table[i] == Updated(table[i], rows[r], updates))
    && ((forall r :: 0 <= r < |rows| ==> !SameKey(table[i], rows[r], key)) ==> e.table[i] == table[i])
  }

  /** Where input row r has gone: the old row of its key, or a place of its own at the end. */
  ghost predicate Placed(table: seq<Row>, rows: seq<Row>, key: seq<string>, e: Effect, r: nat)
    requires r < |rows| && |e.affected| == |rows|
  {
    var i := e.affected[r];
    if i < |table| then SameKey(table[i], rows[r], key)
    else i < |e.table| && e.table[i] == rows[r] && forall j :: 0 <= j < |table| ==> !SameKey(table[j], rows[r], key)
  }

  ghost predicate Frame(table: seq<Row>, rows: seq<Row>, key: seq<string>, updates: seq<string>, e: Effect) {
    && |table| <= |e.table| && |e.affected| == |rows|
    && (forall i :: 0 <= i < |table| ==> RowAfter(table, rows, key, updates, e, i))
    && (forall r :: 0 <= r < |rows| ==> Placed(table, rows, key, e, r))
    && NoDuplicates(e.affected)
    && (forall i :: |table| <= i < |e.table| ==> i in e.affected)
    && Keyed(e.table, key)
  }

  ghost predicate KeysDistinct(rows: seq<Row>, key: seq<string>) {
    forall r, s :: 0 <= r < s < |rows| ==> !SameKey(rows[r], rows[s], key)
  }

  /** Old rows keep their keys. */
  lemma EffectKey(table: seq<Row>, rows: seq<Row>, key: seq<string>, updates: seq<string>, e: Effect, i: nat, other: Row)
    requires Frame(table, rows, key, updates, e) && Disjoint(key, updates) && i < |table|
    ensures SameKey(e.table[i], other, key) == SameKey(table[i], other, key)
  {
    assert RowAfter(table, rows, key, updates, e, i);
    if r :| 0 <= r < |rows| && SameKey(table[i], rows[r], key) {
      UpdatedKeepsKey(table[i], rows[r], other, key, updates);
    }
  }

  /** A row with the key of an earlier input row finds that row's place. */
  lemma EarlierRowMatches(table: seq<Row>, rows: seq<Row>, key: seq<string>, updates: seq<string>, e: Effect, r: nat, proposed: Row)
    requires Frame(table, rows, key, updates, e) && Disjoint(key, updates) && r < |rows|
    requires SameKey(rows[r], proposed, key)
    ensures e.affected[r] < |e.table| && SameKey(e.table[e.affected[r]], proposed, key)
  {
    hide Keyed;
    assert Placed(table, rows, key, e, r);
    var i := e.affected[r];
    if i < |table| {
      SameKeyTransitive(table[i], rows[r], proposed, key);
      EffectKey(table, rows, key, updates, e, i, proposed);
    }
  }

  /** A match at an affected place is a match with the input row that went there. */
  lemma AffectedMatches(table: seq<Row>, rows: seq<Row>, key: seq<string>, updates: seq<string>, e: Effect, r: nat, proposed: Row)
    requires Frame(table, rows, key, updates, e) && Disjoint(key, updates) && r < |rows|
    requires e.affected[r] < |e.table| && SameKey(e.table[e.affected[r]], proposed, key)
    ensures SameKey(rows[r], proposed, key)
  {
    hide Keyed;
    assert Placed(table, rows, key, e, r);
    var i := e.affected[r];
    if i < |table| {
      EffectKey(table, rows, key, updates, e, i, proposed);
      SameKeySymmetric(table[i], rows[r], key);
      SameKeyTransitive(rows[r], table[i], proposed, key);
    }
  }

  /** A place no input row went to holds its old row, and no input row has its key. */
  lemma UntouchedPlace(table: seq<Row>, rows: seq<Row>, key: seq<string>, updates: seq<string>, e: Effect, i: nat)
    requires Frame(table, rows, key, updates, e) && Keyed(table, key) && i < |e.table| && i !in e.affected
    ensures i < |table| && e.table[i] == table[i]
    ensures forall r :: 0 <= r < |rows| ==> !SameKey(table[i], rows[r], key)
  {
    forall r | 0 <= r < |rows|
      ensures !SameKey(table[i], rows[r], key)
    {
      assert Placed(table, rows, key, e, r);
      var j := e.affected[r];
      if SameKey(table[i], rows[r], key) {
        SameKeySymmetric(table[j], rows[r], key);
        SameKeyTransitive(table[i], rows[r], table[j], key);
        SameKeySymmetric(table[i], table[j], key);
        assert false;
      }
    }
    assert RowAfter(table, rows, key, updates, e, i);
  }

  lemma InsertFrames(table: seq<Row>, rows: seq<Row>, key: seq<string>, updates: seq<string>, e: Effect, proposed: Row)
    requires Frame(table, rows, key, updates, e) && Disjoint(key, updates)
    requires forall i :: 0 <= i < |e.table| ==> !SameKey(e.table[i], proposed, key)
    ensures Frame(table, rows + [proposed], key, updates, Effect(e.table + [proposed], e.affected + [|e.table|]))
  {
    var e', rows' := Effect(e.table + [proposed], e.affected + [|e.table|]), rows + [proposed];
    forall i | 0 <= i < |table|
      ensures RowAfter(table, rows', key, updates, e', i) && !SameKey(table[i], proposed, key)
    {
      assert RowAfter(table, rows, key, updates, e, i);
      EffectKey(table, rows, key, updates, e, i, proposed);
      assert forall r :: 0 <= r < |rows| ==> rows'[r] == rows[r];
    }
    forall r | 0 <= r < |rows'|
      ensures Placed(table, rows', key, e', r)
    {
      if r < |rows| {
        assert Placed(table, rows, key, e, r);
      }
    }
    PlacesBounded(table, rows, key, updates, e);
    assert forall i :: |table| <= i < |e.table| ==> i in e.affected;
  }

  lemma PlacesBounded(table: seq<Row>, rows: seq<Row>, key: seq<string>, updates: seq<string>, e: Effect)
    requires Frame(table, rows, key, updates, e)
    ensures forall r :: 0 <= r < |rows| ==> e.affected[r] < |e.table|
  {
    forall r | 0 <= r < |rows|
      ensures e.affected[r] < |e.table|
    {
      assert Placed(table, rows, key, e, r);
    }
  }

  lemma UpdateFrames(table: seq<Row>, rows: seq<Row>, key: seq<string>, updates: seq<string>, e: Effect, proposed: Row, i: nat)
    requires Frame(table, rows, key, updates, e) && Keyed(table, key) && Disjoint(key, updates)
    requires i < |e.table| && i !in e.affected && SameKey(e.table[i], proposed, key)
    ensures Frame(table, rows + [proposed], key, updates, Effect(e.table[i := Updated(e.table[i], proposed, updates)], e.affected + [i]))
  {
    UntouchedPlace(table, rows, key, updates, e, i);
    var e', rows' := Effect(e.table[i := Updated(e.table[i], proposed, updates)], e.affected + [i]), rows + [proposed];
    assert forall r :: 0 <= r < |rows| ==> rows'[r] == rows[r];
    forall j | 0 <= j < |table|
      ensures RowAfter(table, rows', key, updates, e', j)
    {
      assert RowAfter(table, rows, key, updates, e, j);
      assert rows'[|rows|] == proposed;
      if j != i && SameKey(table[j], proposed, key) {
        SameKeySymmetric(table[i], proposed, key);
        SameKeyTransitive(table[j], proposed, table[i], key);
        SameKeySymmetric(table[i], table[j], key);
        assert false;
      }
    }
    forall r | 0 <= r < |rows'|
      ensures Placed(table, rows', key, e', r)
    {
      if r < |rows| {
        assert Placed(table, rows, key, e, r);
      }
    }
    forall j, k | 0 <= j < k < |e'.table|
      ensures !SameKey(e'.table[j], e'.table[k], key)
    {
      UpdatedKeepsKey(e.table[i], proposed, e.table[if j == i then k else j], key, updates);
    }
    assert forall j :: |table| <= j < |e.table| ==> j in e.affected;
  }

  /** An upsert succeeds exactly when no two of its rows share a key, and then keeps the frame. */
  lemma {:induction false} UpsertAllFrames(table: seq<Row>, rows: seq<Row>, key: seq<string>, updates: seq<string>)
    requires Keyed(table, key) && Disjoint(key, updates)
    ensures UpsertAll(table, rows, key, updates).Ok? <==> KeysDistinct(rows, key)
    ensures var e := UpsertAll(table, rows, key, updates); e.Ok? ==> Frame(table, rows, key, updates, e.value)
  {
    hide SameKey, Frame, Disjoint, Keyed;
    if rows == [] {
      FrameStarts(table, key, updates);
    } else {
      var rows', proposed := rows[..|rows| - 1], rows[|rows| - 1];
      assert rows' + [proposed] == rows;
      UpsertAllFrames(table, rows', key, updates);
      assert KeysDistinct(rows, key) ==> KeysDistinct(rows', key);
      if KeysDistinct(rows', key) {
        UpsertOneMore(table, rows', key, updates, UpsertAll(table, rows', key, updates).value, proposed);
      }
    }
  }

  lemma FrameStarts(table: seq<Row>, key: seq<string>, updates: seq<string>)
    requires Keyed(table, key)
    ensures Frame(table, [], key, updates, Effect(table, []))
  {
  }

  /** The induction step: one more row fits, or shares its key with an earlier one. */
  lemma UpsertOneMore(table: seq<Row>, rows: seq<Row>, key: seq<string>, updates: seq<string>, e: Effect, proposed: Row)
    requires Keyed(table, key) && Disjoint(key, updates) && KeysDistinct(rows, key)
    requires UpsertAll(table, rows, key, updates) == Ok(e) && Frame(table, rows, key, updates, e)
    ensures var e' := UpsertAll(table, rows + [proposed], key, updates);
      (e'.Ok? <==> KeysDistinct(rows + [proposed], key)) && (e'.Ok? ==> Frame(table, rows + [proposed], key, updates, e'.value))
  {
    hide SameKey, Frame, Disjoint, Keyed, Updated;
    var rows' := rows + [proposed];
    assert rows'[..|rows'| - 1] == rows;
    assert |e.affected| == |rows| by {
      FrameSizes(table, rows, key, updates, e);
    }
    var match' := MatchIndex(e.table, proposed, key);
    if match' == None || match'.value !in e.affected {
      forall r | 0 <= r < |rows|
        ensures !SameKey(rows[r], proposed, key)
      {
        if SameKey(rows[r], proposed, key) {
          EarlierRowMatches(table, rows, key, updates, e, r, proposed);
          KeyedMatch(table, rows, key, updates, e, e.affected[r], match'.value, proposed);
        }
      }
      if match' == None {
        InsertFrames(table, rows, key, updates, e, proposed);
      } else {
        UpdateFrames(table, rows, key, updates, e, proposed, match'.value);
      }
    } else {
      var r :| 0 <= r < |e.affected| && e.affected[r] == match'.value;
      AffectedMatches(table, rows, key, updates, e, r, proposed);
      assert rows'[r] == rows[r] && rows'[|rows|] == proposed;
    }
  }

  lemma FrameSizes(table: seq<Row>, rows: seq<Row>, key: seq<string>, updates: seq<string>, e: Effect)
    requires Frame(table, rows, key, updates, e)
    ensures |table| <= |e.table| && |e.affected| == |rows|
  {
  }

  lemma KeyedMatch(table: seq<Row>, rows: seq<Row>, key: seq<string>, updates: seq<string>, e: Effect, i: nat, j: nat, row: Row)
    requires Frame(table, rows, key, updates, e) && i < |e.table| && j < |e.table|
    requires SameKey(e.table[i], row, key) && SameKey(e.table[j], row, key)
    ensures i == j
  {
    SameKeySymmetric(e.table[i], row, key);
    SameKeySymmetric(e.table[j], row, key);
    if i < j {
      SameKeyTransitive(e.table[i], row, e.table[j], key);
    } else if j < i {
      SameKeyTransitive(e.table[j], row, e.table[i], key);
    }
  }

  // ----- from the statement to the request -----

  lemma PositionStep(count: nat, n: nat, r: nat, f: nat)
    requires r < count && f < n
    ensures 0 <= r * n + f < count * n
    ensures count > 0 && count * n == (count - 1) * n + n
    ensures r < count - 1 ==> r * n + f < (count - 1) * n
  {
    assert count * n == (count - 1) * n + n;
    assert (r + 1) * n <= count * n;
    if r < count - 1 {
      assert (r + 1) * n <= (count - 1) * n;
    }
  }

  /** Cell (r, f) of n fields is bound at position r * n + f + 1, to its own value and type. */
  lemma {:induction false} CellPosition(fields: seq<Field>, names: seq<string>, rows: seq<InputRow>, r: nat, f: nat)
    requires AllNamed(fields, names) && AllAssign(rows, names)
    requires r < |rows| && f < |names|
    ensures 0 <= r * |names| + f < |AllParameters(fields, names, rows)| == |rows| * |names|
    ensures AllParameters(fields, names, rows)[r * |names| + f]
         == MutationParameter(r * |names| + f + 1, FieldNamed(fields, names[f]).dataType, ValueOf(rows[r], names[f]))
    ensures AllPlaceholders(fields, names, |rows|)[r][f] == Placeholder(r * |names| + f + 1, FieldNamed(fields, names[f]).dataType)
    decreases |rows|
  {
    PositionStep(|rows|, |names|, r, f);
    var before := rows[..|rows| - 1];
    if r < |rows| - 1 {
      CellPosition(fields, names, before, r, f);
    }
  }

  ghost function InputValue(m: Mutation, fields: seq<Field>, env: Environment, r: nat, name: string): Value
    requires LastField(fields, name).Some? && r < |m.rows| && name in Names(m.rows[r])
  {
    var field := FieldNamed(fields, name);
    env.assign(field.column, env.cast(field.dataType, ValueOf(m.rows[r], name)))
  }

  ghost predicate AcceptedUpsert(m: Mutation, model: Model, w: WritableModel, c: CompiledMutation) {
    && RowsAgree(m) && m.operation.UpsertRows? && WritableModelHolds(model.fields, w) && w.upsert.Some?
    && CompileFor(m, model, w) == Ok(c)
  }

  /** The shape of an accepted upsert, and of the statement compiled from it. */
  ghost predicate UpsertShape(m: Mutation, model: Model, w: WritableModel, c: CompiledMutation, updates: seq<string>) {
    && m.rows != [] && w.upsert.Some?
    && var names, conflict := Names(m.rows[0]), w.upsert.value.conflictFields;
    && NoDuplicates(names) && NoDuplicates(conflict) && NoDuplicates(updates) && conflict != [] && updates != []
    && (forall name :: name in names <==> name in conflict || name in updates)
    && (forall name :: name in updates ==> name !in conflict)
    && (forall name :: name in updates <==> name in names && Updatable(w, name))
    && AllNamed(model.fields, names) && AllNamed(model.fields, conflict) && AllNamed(model.fields, updates)
    && AllAssign(m.rows, names)
    && c.fields == names && c.expectedRows == |m.rows|
    && c.parameters == AllParameters(model.fields, names, m.rows)
    && c.statement.relation == model.source
    && c.statement.columns == Columns(model.fields, names)
    && c.statement.values == AllPlaceholders(model.fields, names, |m.rows|)
    && c.statement.conflict == Some(ConflictClause(Columns(model.fields, conflict), Columns(model.fields, updates)))
  }

  lemma ConflictNotUpdatable(fields: seq<Field>, w: WritableModel, name: string)
    requires WritableModelHolds(fields, w) && w.upsert.Some? && name in w.upsert.value.conflictFields
    ensures !Updatable(w, name)
  {
    var conflict := w.upsert.value.conflictFields;
    var i :| 0 <= i < |conflict| && conflict[i] == name;
    assert ConflictFieldHolds(w, conflict[i]);
  }

  lemma SplitNames(m: Mutation, model: Model, w: WritableModel, names: seq<string>, updates: seq<string>)
    requires m.operation.UpsertRows? && WritableModelHolds(model.fields, w) && w.upsert.Some? && NoDuplicates(names)
    requires forall name :: name in names ==> InputAccepted(model.fields, w, m.operation, name)
    requires UpdateNames(w, m, names) == Ok(updates)
    ensures var conflict := w.upsert.value.conflictFields;
      && NoDuplicates(conflict) && NoDuplicates(updates) && conflict != [] && updates != []
      && (forall name :: name in names <==> name in conflict || name in updates)
      && (forall name :: name in updates ==> name !in conflict)
      && (forall name :: name in updates <==> name in names && Updatable(w, name))
  {
    var conflict := w.upsert.value.conflictFields;
    assert NoDuplicates(conflict) && conflict != [];
    forall name | name in conflict
      ensures !Updatable(w, name)
    {
      ConflictNotUpdatable(model.fields, w, name);
    }
    hide WritableModelHolds, NoDuplicates, Updatable;
  }

  /** The conflict set and the update set split the input fields in two, and no lookup misses. */
  lemma AcceptedUpsertSplits(m: Mutation, model: Model, w: WritableModel, c: CompiledMutation) returns (updates: seq<string>)
    requires AcceptedUpsert(m, model, w, c)
    ensures UpsertShape(m, model, w, c, updates)
  {
    hide Updatable, RowParameters, WritableModelHolds, NoDuplicates, InputAccepted, AllParameters, AllPlaceholders, Columns, CompileFor, UpdateNames;
    updates := AcceptedSteps(m, model, w, c);
    SplitNames(m, model, w, Names(m.rows[0]), updates);
  }

  /** What the checks of an accepted upsert leave behind. */
  lemma AcceptedSteps(m: Mutation, model: Model, w: WritableModel, c: CompiledMutation) returns (updates: seq<string>)
    requires AcceptedUpsert(m, model, w, c)
    ensures var names := Names(m.rows[0]);
      && (forall name :: name in names ==> InputAccepted(model.fields, w, m.operation, name)) && UpdateNames(w, m, names) == Ok(updates)
      && AllNamed(model.fields, names) && AllNamed(model.fields, updates) && AllNamed(model.fields, w.returning)
      && AllNamed(model.fields, w.upsert.value.conflictFields) && AllAssign(m.rows, names) && NoDuplicates(names)
      && c == Render(m, model, w, names, updates)
  {
    hide Render, WritableModelHolds, InputAccepted, CheckRequired;
    var names := Names(m.rows[0]);
    updates := UpdateNames(w, m, names).value;
    LookupsSucceed(m, model, w, names, updates);
  }

  lemma ProposedColumn(statement: Statement, parameters: seq<MutationParameter>, env: Environment, r: nat, f: nat)
    requires Bound(statement, parameters) && r < |statement.values| && f < |statement.columns| && NoDuplicates(statement.columns)
    ensures RowBound(statement, statement.values[r], parameters)
    ensures Cell(ProposedRow(statement, parameters, env, r), statement.columns[f]) == env.assign(statement.columns[f], PlaceholderValue(parameters, statement.values[r][f], env))
  {
    assert RowBound(statement, statement.values[r], parameters);
    assert IndexOf(statement.columns, statement.columns[f]) == f;
  }

  /** Input row r is proposed with exactly its own values, each in its field's column. */
  lemma ProposedCell(m: Mutation, model: Model, w: WritableModel, c: CompiledMutation, updates: seq<string>, env: Environment, r: nat, name: string)
    requires UpsertShape(m, model, w, c, updates) && NoDuplicates(c.statement.columns)
    requires Bound(c.statement, c.parameters) && r < |m.rows| && name in Names(m.rows[0])
    ensures name in Names(m.rows[r])
    ensures Cell(ProposedRow(c.statement, c.parameters, env, r), FieldNamed(model.fields, name).column) == InputValue(m, model.fields, env, r, name)
  {
    hide ProposedRow, Bound, NoDuplicates, AllParameters, Updatable, AllPlaceholders;
    var names := Names(m.rows[0]);
    var f := IndexOf(names, name);
    assert names[f] in Names(m.rows[r]);
    assert c.statement.columns[f] == FieldNamed(model.fields, name).column;
    CellPosition(model.fields, names, m.rows, r, f);
    ProposedColumn(c.statement, c.parameters, env, r, f);
  }

  lemma StatementBound(m: Mutation, model: Model, w: WritableModel, c: CompiledMutation, updates: seq<string>)
    requires UpsertShape(m, model, w, c, updates)
    ensures Bound(c.statement, c.parameters)
  {
    var names := Names(m.rows[0]);
    forall r | 0 <= r < |m.rows|
      ensures RowBound(c.statement, c.statement.values[r], c.parameters)
    {
      forall f | 0 <= f < |names|
        ensures 0 < c.statement.values[r][f].position <= |c.parameters|
      {
        CellPosition(model.fields, names, m.rows, r, f);
      }
    }
  }

  /** A table row has the key that input row r gives, NULLs excluded. */
  ghost predicate HasInputKey(m: Mutation, fields: seq<Field>, conflict: seq<string>, env: Environment, row: Row, r: nat)
    requires AllNamed(fields, conflict) && AllAssign(m.rows, conflict) && r < |m.rows|
  {
    forall i :: 0 <= i < |conflict| ==>
      Cell(row, FieldNamed(fields, conflict[i]).column) != Null
      && Cell(row, FieldNamed(fields, conflict[i]).column) == InputValue(m, fields, env, r, conflict[i])
  }

  /** Two input rows give the same key, NULLs excluded. */
  ghost predicate SameInputKey(m: Mutation, fields: seq<Field>, conflict: seq<string>, env: Environment, r: nat, q: nat)
    requires AllNamed(fields, conflict) && AllAssign(m.rows, conflict) && r < |m.rows| && q < |m.rows|
  {
    forall i :: 0 <= i < |conflict| ==>
      InputValue(m, fields, env, r, conflict[i]) != Null
      && InputValue(m, fields, env, r, conflict[i]) == InputValue(m, fields, env, q, conflict[i])
  }

  ghost predicate KeyWithoutNull(m: Mutation, fields: seq<Field>, conflict: seq<string>, env: Environment, r: nat)
    requires AllNamed(fields, conflict) && AllAssign(m.rows, conflict) && r < |m.rows|
  {
    forall i :: 0 <= i < |conflict| ==> InputValue(m, fields, env, r, conflict[i]) != Null
  }

  lemma ConflictAssigned(m: Mutation, model: Model, w: WritableModel, c: CompiledMutation, updates: seq<string>)
    requires UpsertShape(m, model, w, c, updates)
    ensures AllAssign(m.rows, w.upsert.value.conflictFields)
  {
    var names, conflict := Names(m.rows[0]), w.upsert.value.conflictFields;
    forall r, f | 0 <= r < |m.rows| && 0 <= f < |conflict|
      ensures conflict[f] in Names(m.rows[r])
    {
      assert conflict[f] in names;
      var k := IndexOf(names, conflict[f]);
      assert names[k] in Names(m.rows[r]);
    }
  }

  /** Keys of proposed rows are the keys of the request. */
  lemma ProposedKeys(m: Mutation, model: Model, w: WritableModel, c: CompiledMutation, updates: seq<string>, env: Environment, row: Row, r: nat)
    requires UpsertShape(m, model, w, c, updates) && NoDuplicates(c.statement.columns)
    requires Bound(c.statement, c.parameters) && r < |m.rows|
    ensures AllAssign(m.rows, w.upsert.value.conflictFields)
    ensures SameKey(row, ProposedRow(c.statement, c.parameters, env, r), c.statement.conflict.value.target)
        <==> HasInputKey(m, model.fields, w.upsert.value.conflictFields, env, row, r)
  {
    ConflictAssigned(m, model, w, c, updates);
    var conflict := w.upsert.value.conflictFields;
    var proposed, target := ProposedRow(c.statement, c.parameters, env, r), c.statement.conflict.value.target;
    forall i | 0 <= i < |conflict|
      ensures target[i] == FieldNamed(model.fields, conflict[i]).column
      ensures Cell(proposed, target[i]) == InputValue(m, model.fields, env, r, conflict[i])
    {
      assert conflict[i] in conflict;
      ProposedCell(m, model, w, c, updates, env, r, conflict[i]);
    }
  }

  /** Column sets inherit the split of the field names once columns are distinct. */
  lemma ColumnsSplit(m: Mutation, model: Model, w: WritableModel, c: CompiledMutation, updates: seq<string>)
    requires UpsertShape(m, model, w, c, updates) && NoDuplicates(c.statement.columns)
    ensures Disjoint(c.statement.conflict.value.target, c.statement.conflict.value.updates)
  {
    var names, conflict := Names(m.rows[0]), w.upsert.value.conflictFields;
    forall i, j | 0 <= i < |conflict| && 0 <= j < |updates|
      ensures c.statement.conflict.value.target[i] != c.statement.conflict.value.updates[j]
    {
      assert conflict[i] in conflict && updates[j] in updates;
      var a, b := IndexOf(names, conflict[i]), IndexOf(names, updates[j]);
      assert c.statement.columns[a] != c.statement.columns[b];
    }
  }

  /** The column belongs to an input field that may be updated on conflict. */
  ghost predicate UpdatedColumn(m: Mutation, fields: seq<Field>, w: WritableModel, name: string, column: string)
    requires m.rows != []
  {
    name in Names(m.rows[0]) && Updatable(w, name) && LastField(fields, name).Some? && FieldNamed(fields, name).column == column
  }

  ghost predicate InputPresent(m: Mutation, fields: seq<Field>, env: Environment, e: Effect, r: nat, name: string)
    requires LastField(fields, name).Some? && r < |m.rows| == |e.affected| && name in Names(m.rows[r])
  {
    e.affected[r] < |e.table| && Cell(e.table[e.affected[r]], FieldNamed(fields, name).column) == InputValue(m, fields, env, r, name)
  }

  /** Every field the request names has a column, and every row assigns it. */
  ghost predicate Readable(m: Mutation, fields: seq<Field>, w: WritableModel) {
    && m.rows != [] && w.upsert.Some?
    && AllNamed(fields, Names(m.rows[0])) && AllAssign(m.rows, Names(m.rows[0]))
    && AllNamed(fields, w.upsert.value.conflictFields) && AllAssign(m.rows, w.upsert.value.conflictFields)
  }

  /** An input row affects an old row exactly when the old row has its key; the others are new rows. */
  ghost predicate PlacesExact(m: Mutation, fields: seq<Field>, w: WritableModel, env: Environment, table: seq<Row>, e: Effect)
    requires Readable(m, fields, w)
  {
    && |e.affected| == |m.rows| && NoDuplicates(e.affected)
    && (forall r, i :: 0 <= r < |m.rows| && 0 <= i < |table| ==>
      (e.affected[r] == i <==> HasInputKey(m, fields, w.upsert.value.conflictFields, env, table[i], r)))
    && (forall i :: |table| <= i < |e.table| ==> i in e.affected)
  }

  /** A row no input row affects stays as it is; any other changes in updatable columns only. */
  ghost predicate OnlyUpdatesChange(m: Mutation, fields: seq<Field>, w: WritableModel, table: seq<Row>, e: Effect)
    requires m.rows != []
  {
    && |table| <= |e.table|
    && (forall i :: 0 <= i < |table| && i !in e.affected ==> e.table[i] == table[i])
    && (forall i, column :: 0 <= i < |table| && Cell(e.table[i], column) != Cell(table[i], column) ==>
      exists name :: UpdatedColumn(m, fields, w, name, column))
  }

  /** Afterwards every input value is in the table, in the row its input row affected. */
  ghost predicate ValuesPresent(m: Mutation, fields: seq<Field>, env: Environment, e: Effect)
    requires m.rows != [] && AllNamed(fields, Names(m.rows[0])) && AllAssign(m.rows, Names(m.rows[0]))
  {
    |e.affected| == |m.rows|
    && forall r, f :: 0 <= r < |m.rows| && 0 <= f < |Names(m.rows[0])| ==> InputPresent(m, fields, env, e, r, Names(m.rows[0])[f])
  }

  /** What an upsert leaves behind, told in the terms of the request. */
  ghost predicate Upserted(m: Mutation, fields: seq<Field>, w: WritableModel, env: Environment, table: seq<Row>, e: Effect)
    requires Readable(m, fields, w)
  {
    && PlacesExact(m, fields, w, env, table, e)
    && OnlyUpdatesChange(m, fields, w, table, e)
    && ValuesPresent(m, fields, env, e)
    && Keyed(e.table, Columns(fields, w.upsert.value.conflictFields))
  }

  /** The proposed rows' keys are distinct exactly when the request's are. */
  lemma RequestKeys(m: Mutation, model: Model, w: WritableModel, c: CompiledMutation, updates: seq<string>, env: Environment)
    requires UpsertShape(m, model, w, c, updates) && NoDuplicates(c.statement.columns) && Bound(c.statement, c.parameters)
    ensures AllAssign(m.rows, w.upsert.value.conflictFields)
    ensures KeysDistinct(ProposedRows(c.statement, c.parameters, env), c.statement.conflict.value.target)
        <==> RequestKeysDistinct(m, model.fields, w.upsert.value.conflictFields, env)
  {
    hide UpsertShape, ProposedRow, SameKey, SameInputKey, HasInputKey, Bound;
    ConflictAssigned(m, model, w, c, updates);
    ShapeFacts(m, model, w, c, updates);
    var conflict, target := w.upsert.value.conflictFields, c.statement.conflict.value.target;
    var rows := ProposedRows(c.statement, c.parameters, env);
    forall r, q | 0 <= r < q < |rows|
      ensures SameKey(rows[r], rows[q], target) <==> SameInputKey(m, model.fields, conflict, env, r, q)
    {
      ProposedKeys(m, model, w, c, updates, env, rows[r], q);
      ProposedHasKey(m, model, w, c, updates, env, r, q);
    }
  }

  lemma ShapeFacts(m: Mutation, model: Model, w: WritableModel, c: CompiledMutation, updates: seq<string>)
    requires UpsertShape(m, model, w, c, updates)
    ensures m.rows != [] && w.upsert.Some? && c.statement.conflict.Some? && |c.statement.values| == |m.rows| && AllNamed(model.fields, w.upsert.value.conflictFields)
    ensures AllNamed(model.fields, Names(m.rows[0])) && AllAssign(m.rows, Names(m.rows[0]))
    ensures c.statement.conflict.value.target == Columns(model.fields, w.upsert.value.conflictFields)
  {
  }

  lemma ProposedHasKey(m: Mutation, model: Model, w: WritableModel, c: CompiledMutation, updates: seq<string>, env: Environment, r: nat, q: nat)
    requires UpsertShape(m, model, w, c, updates) && NoDuplicates(c.statement.columns) && Bound(c.statement, c.parameters)
    requires r < |m.rows| && q < |m.rows| && AllAssign(m.rows, w.upsert.value.conflictFields)
    ensures HasInputKey(m, model.fields, w.upsert.value.conflictFields, env, ProposedRow(c.statement, c.parameters, env, r), q)
        <==> SameInputKey(m, model.fields, w.upsert.value.conflictFields, env, r, q)
  {
    hide ProposedRow, Bound, NoDuplicates;
    var conflict, proposed := w.upsert.value.conflictFields, ProposedRow(c.statement, c.parameters, env, r);
    forall i | 0 <= i < |conflict|
      ensures Cell(proposed, FieldNamed(model.fields, conflict[i]).column) == InputValue(m, model.fields, env, r, conflict[i])
    {
      assert conflict[i] in conflict;
      ProposedCell(m, model, w, c, updates, env, r, conflict[i]);
    }
  }

  ghost predicate RequestKeysDistinct(m: Mutation, fields: seq<Field>, conflict: seq<string>, env: Environment)
    requires AllNamed(fields, conflict) && AllAssign(m.rows, conflict)
  {
    forall r, q :: 0 <= r < q < |m.rows| ==> !SameInputKey(m, fields, conflict, env, r, q)
  }

  /** The place of an input row, read off the frame. */
  lemma FramePlace(table: seq<Row>, rows: seq<Row>, key: seq<string>, updates: seq<string>, e: Effect, r: nat, i: nat)
    requires Frame(table, rows, key, updates, e) && Keyed(table, key) && r < |rows| && i < |table|
    ensures e.affected[r] == i <==> SameKey(table[i], rows[r], key)
  {
    assert Placed(table, rows, key, e, r);
    var j := e.affected[r];
    if SameKey(table[i], rows[r], key) && j < |table| {
      SameKeySymmetric(table[j], rows[r], key);
      SameKeyTransitive(table[i], rows[r], table[j], key);
      SameKeySymmetric(table[i], table[j], key);
    }
  }

  /** The row an input row affected holds its values in every key and every updated column. */
  lemma FrameValue(table: seq<Row>, rows: seq<Row>, key: seq<string>, updates: seq<string>, e: Effect, r: nat, column: string)
    requires Frame(table, rows, key, updates, e) && Disjoint(key, updates) && r < |rows|
    requires column in key || column in updates
    ensures e.affected[r] < |e.table| && Cell(e.table[e.affected[r]], column) == Cell(rows[r], column)
  {
    assert Placed(table, rows, key, e, r);
    var i := e.affected[r];
    if i < |table| {
      assert RowAfter(table, rows, key, updates, e, i);
      UpdatedCell(table[i], rows[r], updates, column);
    }
  }

  lemma FrameChange(table: seq<Row>, rows: seq<Row>, key: seq<string>, updates: seq<string>, e: Effect, i: nat, column: string)
    requires Frame(table, rows, key, updates, e) && i < |table| && Cell(e.table[i], column) != Cell(table[i], column)
    ensures column in updates
  {
    assert RowAfter(table, rows, key, updates, e, i);
    var r :| 0 <= r < |rows| && SameKey(table[i], rows[r], key);
    UpdatedCell(table[i], rows[r], updates, column);
  }

  lemma FramePlaces(m: Mutation, model: Model, w: WritableModel, c: CompiledMutation, updates: seq<string>, env: Environment, table: seq<Row>, e: Effect)
    requires UpsertShape(m, model, w, c, updates) && NoDuplicates(c.statement.columns) && Bound(c.statement, c.parameters)
    requires Keyed(table, c.statement.conflict.value.target) && Readable(m, model.fields, w)
    requires Frame(table, ProposedRows(c.statement, c.parameters, env), c.statement.conflict.value.target, c.statement.conflict.value.updates, e)
    ensures PlacesExact(m, model.fields, w, env, table, e)
  {
    hide ProposedRow, SameKey, HasInputKey, Bound, Keyed, RowAfter, Placed;
    var target, columns := c.statement.conflict.value.target, c.statement.conflict.value.updates;
    var rows := ProposedRows(c.statement, c.parameters, env);
    forall i, r | 0 <= i < |table| && 0 <= r < |m.rows|
      ensures e.affected[r] == i <==> HasInputKey(m, model.fields, w.upsert.value.conflictFields, env, table[i], r)
    {
      FramePlace(table, rows, target, columns, e, r, i);
      ProposedKeys(m, model, w, c, updates, env, table[i], r);
    }
  }

  lemma FrameChanges(m: Mutation, model: Model, w: WritableModel, c: CompiledMutation, updates: seq<string>, rows: seq<Row>, table: seq<Row>, e: Effect)
    requires UpsertShape(m, model, w, c, updates) && Keyed(table, c.statement.conflict.value.target)
    requires Frame(table, rows, c.statement.conflict.value.target, c.statement.conflict.value.updates, e)
    ensures OnlyUpdatesChange(m, model.fields, w, table, e)
  {
    hide SameKey, Keyed, RowAfter, Placed, Cell, Updatable;
    var target, columns := c.statement.conflict.value.target, c.statement.conflict.value.updates;
    forall i | 0 <= i < |table| && i !in e.affected
      ensures e.table[i] == table[i]
    {
      UntouchedPlace(table, rows, target, columns, e, i);
    }
    forall i, column | 0 <= i < |table| && Cell(e.table[i], column) != Cell(table[i], column)
      ensures exists name :: UpdatedColumn(m, model.fields, w, name, column)
    {
      FrameChange(table, rows, target, columns, e, i, column);
      var k := IndexOf(columns, column);
      assert updates[k] in updates;
      assert UpdatedColumn(m, model.fields, w, updates[k], column);
    }
  }

  lemma FrameValues(m: Mutation, model: Model, w: WritableModel, c: CompiledMutation, updates: seq<string>, env: Environment, table: seq<Row>, e: Effect)
    requires UpsertShape(m, model, w, c, updates) && NoDuplicates(c.statement.columns) && Bound(c.statement, c.parameters)
    requires Frame(table, ProposedRows(c.statement, c.parameters, env), c.statement.conflict.value.target, c.statement.conflict.value.updates, e)
    ensures ValuesPresent(m, model.fields, env, e)
  {
    hide ProposedRow, SameKey, Bound, Keyed, RowAfter, Placed, Cell, InputValue, Disjoint;
    ColumnsSplit(m, model, w, c, updates);
    var names, rows := Names(m.rows[0]), ProposedRows(c.statement, c.parameters, env);
    assert |e.affected| == |m.rows|;
    forall r, f | 0 <= r < |m.rows| && 0 <= f < |names|
      ensures InputPresent(m, model.fields, env, e, r, names[f])
    {
      NameInSplit(m, model, w, c, updates, names[f]);
      FrameValue(table, rows, c.statement.conflict.value.target, c.statement.conflict.value.updates, e, r, FieldNamed(model.fields, names[f]).column);
      ProposedCell(m, model, w, c, updates, env, r, names[f]);
    }
  }

  /** The frame of the statement is the frame of the request. */
  lemma FrameUpserts(m: Mutation, model: Model, w: WritableModel, c: CompiledMutation, updates: seq<string>, env: Environment, table: seq<Row>, e: Effect)
    requires UpsertShape(m, model, w, c, updates) && NoDuplicates(c.statement.columns) && Bound(c.statement, c.parameters)
    requires Keyed(table, c.statement.conflict.value.target)
    requires Frame(table, ProposedRows(c.statement, c.parameters, env), c.statement.conflict.value.target, c.statement.conflict.value.updates, e)
    ensures Readable(m, model.fields, w) && Upserted(m, model.fields, w, env, table, e)
  {
    ConflictAssigned(m, model, w, c, updates);
    hide PlacesExact, OnlyUpdatesChange, ValuesPresent, ProposedRow, RowAfter, Placed, SameKey, Bound, Keyed;
    FramePlaces(m, model, w, c, updates, env, table, e);
    FrameChanges(m, model, w, c, updates, ProposedRows(c.statement, c.parameters, env), table, e);
    FrameValues(m, model, w, c, updates, env, table, e);
  }

  lemma NameInSplit(m: Mutation, model: Model, w: WritableModel, c: CompiledMutation, updates: seq<string>, name: string)
    requires UpsertShape(m, model, w, c, updates) && name in Names(m.rows[0])
    ensures LastField(model.fields, name).Some?
    ensures var column := FieldNamed(model.fields, name).column; column in c.statement.conflict.value.target || column in c.statement.conflict.value.updates
  {
    var conflict := w.upsert.value.conflictFields;
    if name in conflict {
      var k := IndexOf(conflict, name);
      assert c.statement.conflict.value.target[k] == FieldNamed(model.fields, name).column;
    } else {
      var k := IndexOf(updates, name);
      assert c.statement.conflict.value.updates[k] == FieldNamed(model.fields, name).column;
    }
  }

  ghost predicate DistinctColumns(fields: seq<Field>, names: seq<string>)
    requires AllNamed(fields, names)
  {
    forall i, j :: 0 <= i < j < |names| ==> FieldNamed(fields, names[i]).column != FieldNamed(fields, names[j]).column
  }

  /**
   The upsert frame. On any table keyed by the conflict columns an accepted upsert succeeds exactly
   when its fields have distinct columns and its rows distinct keys; and then only updatable
   columns of rows with a given key change, everything else staying as and where it was.
   */
  lemma UpsertFrame(m: Mutation, model: Model, w: WritableModel, c: CompiledMutation, env: Environment, table: seq<Row>) returns (updates: seq<string>)
    requires AcceptedUpsert(m, model, w, c)
    requires c.statement.conflict.Some? ==> Keyed(table, c.statement.conflict.value.target)
    ensures UpsertShape(m, model, w, c, updates)
    ensures Bound(c.statement, c.parameters) && Readable(m, model.fields, w)
    ensures var e := Execute(c.statement, c.parameters, env, table);
      && (e.Ok? <==> DistinctColumns(model.fields, Names(m.rows[0])) && RequestKeysDistinct(m, model.fields, w.upsert.value.conflictFields, env))
      && (e.Ok? ==> Upserted(m, model.fields, w, env, table, e.value) && |e.value.affected| == c.expectedRows)
  {
    updates := AcceptedUpsertSplits(m, model, w, c);
    StatementBound(m, model, w, c, updates);
    ConflictAssigned(m, model, w, c, updates);
    hide ProposedRow, Bound, Keyed, Frame, Upserted, Disjoint, SameInputKey, RequestKeysDistinct, KeysDistinct, UpsertAll, AcceptedUpsert;
    assert NoDuplicates(c.statement.columns) <==> DistinctColumns(model.fields, Names(m.rows[0])) by {
      ColumnsDistinct(model.fields, Names(m.rows[0]));
    }
    if NoDuplicates(c.statement.columns) {
      var rows, target, columns := ProposedRows(c.statement, c.parameters, env), c.statement.conflict.value.target, c.statement.conflict.value.updates;
      ColumnsSplit(m, model, w, c, updates);
      UpsertAllFrames(table, rows, target, columns);
      RequestKeys(m, model, w, c, updates, env);
      var e := UpsertAll(table, rows, target, columns);
      if e.Ok? {
        FrameUpserts(m, model, w, c, updates, env, table, e.value);
        FrameSizes(table, rows, target, columns, e.value);
      }
    }
  }

  lemma ColumnsDistinct(fields: seq<Field>, names: seq<string>)
    requires AllNamed(fields, names)
    ensures NoDuplicates(Columns(fields, names)) <==> DistinctColumns(fields, names)
  {
  }

  /** Every accepted upsert of the whole compiler is one the frame speaks about. */
  lemma CompiledUpsert(m: Mutation, inputBytes: nat, s: Snapshot, capabilities: MutationCapabilities,
                       options: MutationCompilerOptions, hash: Snapshot -> string, c: CompiledMutation)
    returns (model: Model, w: WritableModel)
    requires RowsAgree(m) && m.operation.UpsertRows?
    requires CompileMutation(m, inputBytes, s, capabilities, options, hash) == Ok(c)
    ensures WritableTarget(m, inputBytes, s, capabilities, options, hash) == Ok((model, w))
    ensures AcceptedUpsert(m, model, w, c) && |m.rows| <= w.maxRows <= options.hardRowLimit
  {
    hide WritableModelHolds, RevisionHashHolds, CompileFor, RowsAgree;
    var target := WritableTarget(m, inputBytes, s, capabilities, options, hash).value;
    model, w := target.0, target.1;
  }

  // ----- doing it again -----

  ghost predicate NoNullKey(row: Row, key: seq<string>) {
    forall i :: 0 <= i < |key| ==> Cell(row, key[i]) != Null
  }

  ghost predicate Assigns(row: Row, columns: seq<string>) {
    forall i :: 0 <= i < |columns| ==> columns[i] in row
  }

  lemma UpdatedAgain(row: Row, proposed: Row, updates: seq<string>)
    ensures Updated(Updated(row, proposed, updates), proposed, updates) == Updated(row, proposed, updates)
    ensures Assigns(proposed, updates) ==> Updated(proposed, proposed, updates) == proposed
  {
  }

  /** The row that input row r affected is the one it would affect again, without changing it. */
  lemma AffectedAgain(table: seq<Row>, rows: seq<Row>, key: seq<string>, updates: seq<string>, e: Effect, r: nat, i: nat)
    requires Frame(table, rows, key, updates, e) && Disjoint(key, updates) && r < |rows| && i < |e.table| && Assigns(rows[r], updates)
    requires SameKey(e.table[i], rows[r], key)
    ensures e.affected[r] == i && Updated(e.table[i], rows[r], updates) == e.table[i]
  {
    EarlierRowMatches(table, rows, key, updates, e, r, rows[r]);
    KeyedMatch(table, rows, key, updates, e, i, e.affected[r], rows[r]);
    assert Placed(table, rows, key, e, r);
    if i < |table| {
      assert RowAfter(table, rows, key, updates, e, i);
      UpdatedAgain(table[i], rows[r], updates);
    } else {
      UpdatedAgain(rows[r], rows[r], updates);
    }
  }

  /** The same rows, except for columns the statement does not mention. */
  ghost predicate SameInputs(rows: seq<Row>, later: seq<Row>, key: seq<string>, updates: seq<string>) {
    |rows| == |later| && forall r, c :: 0 <= r < |rows| && (c in key || c in updates) ==> Cell(later[r], c) == Cell(rows[r], c)
  }

  lemma SameInput(rows: seq<Row>, later: seq<Row>, key: seq<string>, updates: seq<string>, r: nat, row: Row)
    requires SameInputs(rows, later, key, updates) && r < |rows|
    ensures SameKey(row, later[r], key) == SameKey(row, rows[r], key)
    ensures Updated(row, later[r], updates) == Updated(row, rows[r], updates)
    ensures NoNullKey(later[r], key) == NoNullKey(rows[r], key)
  {
    forall i | 0 <= i < |key|
      ensures Cell(later[r], key[i]) == Cell(rows[r], key[i])
    {
      assert key[i] in key;
    }
  }

  lemma UnchangedPlace(table: seq<Row>, rows: seq<Row>, later: seq<Row>, key: seq<string>, updates: seq<string>, e: Effect, again: Effect, i: nat)
    requires Frame(table, rows, key, updates, e) && Disjoint(key, updates) && SameInputs(rows, later, key, updates)
    requires Frame(e.table, later, key, updates, again) && i < |e.table|
    requires forall r :: 0 <= r < |rows| ==> Assigns(rows[r], updates)
    ensures again.table[i] == e.table[i]
  {
    hide SameKey, Keyed, Placed, Updated, Assigns, Disjoint, SameInputs;
    assert |rows| == |later| by {
      SameCount(rows, later, key, updates);
    }
    assert RowAfter(e.table, later, key, updates, again, i);
    if r :| 0 <= r < |later| && SameKey(e.table[i], later[r], key) {
      SameInput(rows, later, key, updates, r, e.table[i]);
      AffectedAgain(table, rows, key, updates, e, r, i);
    }
  }

  lemma SameCount(rows: seq<Row>, later: seq<Row>, key: seq<string>, updates: seq<string>)
    requires SameInputs(rows, later, key, updates)
    ensures |rows| == |later|
  {
  }

  /** Rows that give the same keys give distinct keys together. */
  lemma LaterKeysDistinct(rows: seq<Row>, later: seq<Row>, key: seq<string>, updates: seq<string>)
    requires SameInputs(rows, later, key, updates) && KeysDistinct(rows, key)
    ensures KeysDistinct(later, key)
  {
    hide SameInputs;
    SameCount(rows, later, key, updates);
    forall q, r | 0 <= q < r < |later|
      ensures !SameKey(later[q], later[r], key)
    {
      SameInput(rows, later, key, updates, r, later[q]);
      SameKeySymmetric(later[q], rows[r], key);
      SameInput(rows, later, key, updates, q, rows[r]);
      SameKeySymmetric(rows[q], rows[r], key);
    }
  }

  /** Upserting the same inputs again succeeds, and leaves the table alone exactly when no key holds a NULL. */
  lemma UpsertAllTwice(table: seq<Row>, rows: seq<Row>, later: seq<Row>, key: seq<string>, updates: seq<string>, e: Effect)
    requires Keyed(table, key) && Disjoint(key, updates) && SameInputs(rows, later, key, updates)
    requires forall r :: 0 <= r < |rows| ==> Assigns(rows[r], updates)
    requires UpsertAll(table, rows, key, updates) == Ok(e)
    ensures UpsertAll(e.table, later, key, updates).Ok?
    ensures UpsertAll(e.table, later, key, updates).value.table == e.table <==> forall r :: 0 <= r < |rows| ==> NoNullKey(rows[r], key)
  {
    UpsertAllFrames(table, rows, key, updates);
    hide UpsertAll, Keyed, Frame, NoNullKey, Assigns, Disjoint, KeysDistinct, SameInputs;
    LaterKeysDistinct(rows, later, key, updates);
    UpsertAllFrames(e.table, later, key, updates);
    var again := UpsertAll(e.table, later, key, updates).value;
    FrameSizes(e.table, later, key, updates, again);
    NewPlaces(table, rows, later, key, updates, e, again);
    forall i | 0 <= i < |e.table|
      ensures again.table[i] == e.table[i]
    {
      UnchangedPlace(table, rows, later, key, updates, e, again, i);
    }
  }

  /** The second time, new places are made exactly for keys that hold a NULL. */
  lemma NewPlaces(table: seq<Row>, rows: seq<Row>, later: seq<Row>, key: seq<string>, updates: seq<string>, e: Effect, again: Effect)
    requires Frame(table, rows, key, updates, e) && Disjoint(key, updates) && SameInputs(rows, later, key, updates)
    requires Frame(e.table, later, key, updates, again)
    ensures |again.table| == |e.table| <==> forall r :: 0 <= r < |rows| ==> NoNullKey(rows[r], key)
  {
    hide Keyed, RowAfter, Updated, Disjoint, SameInputs, NoNullKey, SameKey;
    SameCount(rows, later, key, updates);
    if |e.table| < |again.table| {
      var r := IndexOf(again.affected, |e.table|);
      assert Placed(e.table, later, key, again, r);
      if NoNullKey(rows[r], key) {
        FoundAgain(table, rows, later, key, updates, e, again, r);
        assert false;
      }
    }
    if r :| 0 <= r < |rows| && !NoNullKey(rows[r], key) {
      SameInput(rows, later, key, updates, r, map[]);
      assert Placed(e.table, later, key, again, r);
      NullKeyIsNew(e.table, later, key, again, r);
    }
  }

  /** A key without NULL was put into the table the first time. */
  lemma FoundAgain(table: seq<Row>, rows: seq<Row>, later: seq<Row>, key: seq<string>, updates: seq<string>, e: Effect, again: Effect, r: nat)
    requires Frame(table, rows, key, updates, e) && Disjoint(key, updates) && SameInputs(rows, later, key, updates)
    requires Frame(e.table, later, key, updates, again) && r < |rows| && NoNullKey(rows[r], key)
    ensures again.affected[r] < |e.table|
  {
    hide Keyed, RowAfter, Updated, Disjoint, SameInputs;
    SameCount(rows, later, key, updates);
    assert Placed(e.table, later, key, again, r);
    EarlierRowMatches(table, rows, key, updates, e, r, rows[r]);
    SameInput(rows, later, key, updates, r, e.table[e.affected[r]]);
  }

  lemma NullKeyIsNew(table: seq<Row>, rows: seq<Row>, key: seq<string>, e: Effect, r: nat)
    requires |e.affected| == |rows| && r < |rows| && Placed(table, rows, key, e, r) && !NoNullKey(rows[r], key)
    ensures |table| < |e.table|
  {
  }

  /**
   Executing an accepted upsert a second time, with whatever defaults columns then have, also succeeds, and it
   leaves the table exactly as the first time did if and only if no input row has a NULL in its key.
   */
  lemma UpsertTwice(m: Mutation, model: Model, w: WritableModel, c: CompiledMutation, env: Environment, defaults: nat -> Row, table: seq<Row>)
    requires AcceptedUpsert(m, model, w, c)
    requires c.statement.conflict.Some? ==> Keyed(table, c.statement.conflict.value.target)
    ensures Bound(c.statement, c.parameters) && Readable(m, model.fields, w)
    ensures Execute(c.statement, c.parameters, env, table).Ok? ==>
      var once := Execute(c.statement, c.parameters, env, table).value.table;
      var twice := Execute(c.statement, c.parameters, env.(defaults := defaults), once);
      && twice.Ok?
      && (twice.value.table == once <==>
        forall r :: 0 <= r < |m.rows| ==> KeyWithoutNull(m, model.fields, w.upsert.value.conflictFields, env, r))
  {
    hide ProposedRow, Bound, Keyed, Upserted, UpsertAll, NoNullKey, Assigns, KeyWithoutNull, DistinctColumns, RequestKeysDistinct, SameInputs;
    var updates := UpsertFrame(m, model, w, c, env, table);
    var e := Execute(c.statement, c.parameters, env, table);
    if e.Ok? {
      var rows, target, columns := ProposedRows(c.statement, c.parameters, env), c.statement.conflict.value.target, c.statement.conflict.value.updates;
      var later := ProposedRows(c.statement, c.parameters, env.(defaults := defaults));
      ColumnsSplit(m, model, w, c, updates);
      forall r | 0 <= r < |rows|
        ensures Assigns(rows[r], columns)
        ensures NoNullKey(rows[r], target) <==> KeyWithoutNull(m, model.fields, w.upsert.value.conflictFields, env, r)
      {
        ProposedAssigns(m, model, w, c, updates, env, r);
        ProposedNulls(m, model, w, c, updates, env, r);
      }
      ProposedAlike(m, model, w, c, updates, env, defaults);
      UpsertAllTwice(table, rows, later, target, columns, e.value);
    }
  }

  /** Every column a conflict clause mentions is one the statement assigns. */
  lemma ClauseColumns(m: Mutation, model: Model, w: WritableModel, c: CompiledMutation, updates: seq<string>, column: string)
    requires UpsertShape(m, model, w, c, updates)
    requires column in c.statement.conflict.value.target || column in c.statement.conflict.value.updates
    ensures column in c.statement.columns
  {
    var names, conflict := Names(m.rows[0]), w.upsert.value.conflictFields;
    var name: string;
    if column in c.statement.conflict.value.target {
      var i :| 0 <= i < |conflict| && FieldNamed(model.fields, conflict[i]).column == column;
      name := conflict[i];
      assert name in conflict;
    } else {
      var i :| 0 <= i < |updates| && FieldNamed(model.fields, updates[i]).column == column;
      name := updates[i];
      assert name in updates;
    }
    var f := IndexOf(names, name);
    assert c.statement.columns[f] == column;
  }

  /** The defaults reach no column of the statement. */
  lemma ProposedAlike(m: Mutation, model: Model, w: WritableModel, c: CompiledMutation, updates: seq<string>, env: Environment, defaults: nat -> Row)
    requires UpsertShape(m, model, w, c, updates) && Bound(c.statement, c.parameters)
    ensures SameInputs(ProposedRows(c.statement, c.parameters, env), ProposedRows(c.statement, c.parameters, env.(defaults := defaults)),
                       c.statement.conflict.value.target, c.statement.conflict.value.updates)
  {
    hide Bound;
    var target, columns := c.statement.conflict.value.target, c.statement.conflict.value.updates;
    forall r, column | 0 <= r < |c.statement.values| && (column in target || column in columns)
      ensures Cell(ProposedRow(c.statement, c.parameters, env.(defaults := defaults), r), column) == Cell(ProposedRow(c.statement, c.parameters, env, r), column)
    {
      ClauseColumns(m, model, w, c, updates, column);
      AssignedAlike(c, env, defaults, r, column);
    }
  }

  lemma AssignedAlike(c: CompiledMutation, env: Environment, defaults: nat -> Row, r: nat, column: string)
    requires Bound(c.statement, c.parameters) && r < |c.statement.values| && column in c.statement.columns
    ensures Cell(ProposedRow(c.statement, c.parameters, env.(defaults := defaults), r), column) == Cell(ProposedRow(c.statement, c.parameters, env, r), column)
  {
  }

  lemma ProposedAssigns(m: Mutation, model: Model, w: WritableModel, c: CompiledMutation, updates: seq<string>, env: Environment, r: nat)
    requires UpsertShape(m, model, w, c, updates) && Bound(c.statement, c.parameters) && r < |m.rows|
    ensures Assigns(ProposedRow(c.statement, c.parameters, env, r), c.statement.conflict.value.updates)
  {
    hide Bound;
    var names := Names(m.rows[0]);
    forall i | 0 <= i < |updates|
      ensures c.statement.conflict.value.updates[i] in c.statement.columns
    {
      assert updates[i] in updates;
      assert c.statement.columns[IndexOf(names, updates[i])] == c.statement.conflict.value.updates[i];
    }
  }

  lemma ProposedNulls(m: Mutation, model: Model, w: WritableModel, c: CompiledMutation, updates: seq<string>, env: Environment, r: nat)
    requires UpsertShape(m, model, w, c, updates) && NoDuplicates(c.statement.columns) && Bound(c.statement, c.parameters)
    requires r < |m.rows| && Readable(m, model.fields, w)
    ensures NoNullKey(ProposedRow(c.statement, c.parameters, env, r), c.statement.conflict.value.target)
        <==> KeyWithoutNull(m, model.fields, w.upsert.value.conflictFields, env, r)
  {
    hide Bound, ProposedRow, NoDuplicates;
    var conflict, target := w.upsert.value.conflictFields, c.statement.conflict.value.target;
    forall i | 0 <= i < |conflict|
      ensures target[i] == FieldNamed(model.fields, conflict[i]).column
      ensures Cell(ProposedRow(c.statement, c.parameters, env, r), target[i]) == InputValue(m, model.fields, env, r, conflict[i])
    {
      assert conflict[i] in conflict;
      ProposedCell(m, model, w, c, updates, env, r, conflict[i]);
    }
  }
}
