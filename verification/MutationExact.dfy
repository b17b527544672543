/** Which mutations compile, what an insert does to the table, and what comes back from either operation. */
module MutationExact {
  import opened Prelude
  import opened Semantic
  import opened Snapshots
  import opened Relational
  import opened Mutation
  import opened UpsertProofs

  // ----- fields by name -----

  /** Collecting into a map by name keeps the last field of a name. */
  ghost predicate LastNamed(fields: seq<Field>, name: string, i: nat) {
    i < |fields| && fields[i].semanticName == name && forall j :: i < j < |fields| ==> fields[j].semanticName != name
  }

  lemma {:induction false} LastFieldIs(fields: seq<Field>, name: string)
    ensures match LastField(fields, name)
            case None => forall i :: 0 <= i < |fields| ==> fields[i].semanticName != name
            case Some(f) => exists i: nat :: LastNamed(fields, name, i) && fields[i] == f
  {
    if fields != [] {
      var n := |fields| - 1;
      if fields[n].semanticName == name {
        assert LastNamed(fields, name, n);
      } else {
        LastFieldIs(fields[..n], name);
        if LastField(fields, name).Some? {
          var i: nat :| LastNamed(fields[..n], name, i) && fields[..n][i] == LastField(fields, name).value;
          forall j | i < j < |fields|
            ensures fields[j].semanticName != name
          {
            if j < n {
              assert fields[..n][j] == fields[j];
            }
          }
          assert LastNamed(fields, name, i);
        }
      }
    }
  }

  // ----- which inputs are accepted -----

  /** A value has the type of its field. */
  ghost predicate ValueOfType(v: MutationValue, t: DataType) {
    match v
    case NullValue => false
    case TextValue(_) => t == TextType
    case BooleanValue(_) => t == BooleanType
    case IntegerValue(_) => t == IntegerType
    case NumericValue(_) => t == NumericType
    case DateValue(_) => t == DateType
    case TimestampValue(_) => t == TimestampType || t == TimestampTzType
  }

  ghost predicate ValueAllowed(field: Field, policy: WritableField, v: MutationValue) {
    if v == NullValue then policy.nullable else ValueOfType(v, field.dataType)
  }

  ghost function ValueError(field: Field, v: MutationValue): MutationCompileError {
    if v == NullValue then NullNotAllowed(field.semanticName) else FieldTypeMismatch(field.semanticName)
  }

  ghost predicate Assigned(m: Mutation, name: string) {
    forall r :: 0 <= r < |m.rows| ==> name in Names(m.rows[r])
  }

  /** In row r the field's value is one its policy forbids. */
  ghost predicate BadValue(field: Field, policy: WritableField, m: Mutation, name: string, r: nat)
    requires Assigned(m, name) && r < |m.rows|
  {
    !ValueAllowed(field, policy, ValueOf(m.rows[r], name))
  }

  ghost predicate NoBadValue(field: Field, policy: WritableField, m: Mutation, name: string, n: nat)
    requires Assigned(m, name) && n <= |m.rows|
  {
    forall r :: 0 <= r < n ==> !BadValue(field, policy, m, name, r)
  }

  /** An upsert may only write what it may update, and its conflict fields. */
  ghost predicate MayWrite(w: WritableModel, operation: MutationOperation, policy: WritableField, name: string) {
    operation == UpsertRows ==> policy.updatableOnConflict || (w.upsert.Some? && name in w.upsert.value.conflictFields)
  }

  ghost predicate InputAllowed(fields: seq<Field>, w: WritableModel, m: Mutation, name: string)
    requires Assigned(m, name)
  {
    var policy, field := Lookup(w.fields, PolicyName, name), LastField(fields, name);
    && policy.Some? && field.Some? && field.value.relationship.None?
    && NoBadValue(field.value, policy.value, m, name, |m.rows|)
    && MayWrite(w, m.operation, policy.value, name)
  }

  /** The first reason against an input field: not writable at all, no field of the table, a value of some row, not writable by this operation. */
  ghost predicate InputRefused(fields: seq<Field>, w: WritableModel, m: Mutation, name: string, e: MutationCompileError)
    requires Assigned(m, name)
  {
    var policy, field := Lookup(w.fields, PolicyName, name), LastField(fields, name);
    if policy.None? then e == FieldNotWritable(name)
    else if field.None? || field.value.relationship.Some? then e == InvalidWritableModel
    else if !NoBadValue(field.value, policy.value, m, name, |m.rows|) then
      exists r :: 0 <= r < |m.rows| && BadValue(field.value, policy.value, m, name, r) && NoBadValue(field.value, policy.value, m, name, r)
        && e == ValueError(field.value, ValueOf(m.rows[r], name))
    else !MayWrite(w, m.operation, policy.value, name) && e == FieldNotWritable(name)
  }

  lemma ValuesAgree(field: Field, policy: WritableField, v: MutationValue)
    ensures ValidateValue(field, policy, v) == if ValueAllowed(field, policy, v) then Ok(()) else Err(ValueError(field, v))
  {
  }

  ghost predicate FirstBad(field: Field, policy: WritableField, rows: seq<InputRow>, name: string, r: nat)
    requires (forall i :: 0 <= i < |rows| ==> name in Names(rows[i])) && r < |rows|
  {
    !ValueAllowed(field, policy, ValueOf(rows[r], name)) && forall i :: 0 <= i < r ==> ValueAllowed(field, policy, ValueOf(rows[i], name))
  }

  lemma BadLater(field: Field, policy: WritableField, rows: seq<InputRow>, name: string, r: nat)
    requires (forall i :: 0 <= i < |rows| ==> name in Names(rows[i])) && rows != [] && r < |rows| - 1
    requires ValueAllowed(field, policy, ValueOf(rows[0], name)) && FirstBad(field, policy, rows[1..], name, r)
    ensures FirstBad(field, policy, rows, name, r + 1) && rows[r + 1] == rows[1..][r]
  {
    hide ValueAllowed, ValueOf, Names;
    forall i | 0 <= i < r + 1
      ensures ValueAllowed(field, policy, ValueOf(rows[i], name))
    {
      if i > 0 {
        assert rows[i] == rows[1..][i - 1];
      }
    }
  }

  lemma {:induction false} ColumnsAgree(field: Field, policy: WritableField, rows: seq<InputRow>, name: string)
    requires forall r :: 0 <= r < |rows| ==> name in Names(rows[r])
    ensures var v := ValidateColumn(field, policy, rows, name);
      && (v.Ok? <==> forall r :: 0 <= r < |rows| ==> ValueAllowed(field, policy, ValueOf(rows[r], name)))
      && (v.Err? ==> exists r :: 0 <= r < |rows| && FirstBad(field, policy, rows, name, r) && v.error == ValueError(field, ValueOf(rows[r], name)))
  {
    hide ValueAllowed, ValueError, ValidateValue, ValueOf, FirstBad;
    if rows != [] {
      ValuesAgree(field, policy, ValueOf(rows[0], name));
      if ValueAllowed(field, policy, ValueOf(rows[0], name)) {
        var more := rows[1..];
        ColumnsAgree(field, policy, more, name);
        if ValidateColumn(field, policy, more, name).Err? {
          var r :| 0 <= r < |more| && FirstBad(field, policy, more, name, r) && ValidateColumn(field, policy, rows, name).error == ValueError(field, ValueOf(more[r], name));
          BadLater(field, policy, rows, name, r);
          BadIsBad(field, policy, rows, name, r + 1);
        } else {
          forall r | 0 <= r < |rows|
            ensures ValueAllowed(field, policy, ValueOf(rows[r], name))
          {
            if r > 0 {
              assert rows[r] == more[r - 1];
            }
          }
        }
      } else {
        FirstIsBad(field, policy, rows, name);
      }
    }
  }

  lemma BadIsBad(field: Field, policy: WritableField, rows: seq<InputRow>, name: string, r: nat)
    requires (forall i :: 0 <= i < |rows| ==> name in Names(rows[i])) && r < |rows| && FirstBad(field, policy, rows, name, r)
    ensures !ValueAllowed(field, policy, ValueOf(rows[r], name))
  {
  }

  lemma FirstIsBad(field: Field, policy: WritableField, rows: seq<InputRow>, name: string)
    requires (forall i :: 0 <= i < |rows| ==> name in Names(rows[i])) && rows != [] && !ValueAllowed(field, policy, ValueOf(rows[0], name))
    ensures FirstBad(field, policy, rows, name, 0)
  {
  }

  lemma InputsAgree(fields: seq<Field>, w: WritableModel, m: Mutation, name: string)
    requires Assigned(m, name)
    ensures CheckInput(fields, w, m, name).Ok? <==> InputAllowed(fields, w, m, name)
    ensures CheckInput(fields, w, m, name).Err? ==> InputRefused(fields, w, m, name, CheckInput(fields, w, m, name).error)
  {
    hide ValueAllowed, ValueError, ValidateColumn;
    var policy, field := Lookup(w.fields, PolicyName, name), LastField(fields, name);
    if policy.Some? && field.Some? {
      ColumnsAgree(field.value, policy.value, m.rows, name);
      var v := ValidateColumn(field.value, policy.value, m.rows, name);
      if v.Err? && field.value.relationship.None? {
        var r :| 0 <= r < |m.rows| && FirstBad(field.value, policy.value, m.rows, name, r) && v.error == ValueError(field.value, ValueOf(m.rows[r], name));
        assert BadValue(field.value, policy.value, m, name, r) && NoBadValue(field.value, policy.value, m, name, r);
      }
    }
  }

  // ----- which mutations compile -----

  ghost predicate AllAllowed(fields: seq<Field>, w: WritableModel, m: Mutation, names: seq<string>)
    requires forall i :: 0 <= i < |names| ==> Assigned(m, names[i])
  {
    forall i :: 0 <= i < |names| ==> InputAllowed(fields, w, m, names[i])
  }

  ghost predicate FirstRefused(fields: seq<Field>, w: WritableModel, m: Mutation, names: seq<string>, i: nat, e: MutationCompileError)
    requires (forall i :: 0 <= i < |names| ==> Assigned(m, names[i])) && i < |names|
  {
    !InputAllowed(fields, w, m, names[i]) && InputRefused(fields, w, m, names[i], e) && forall j :: 0 <= j < i ==> InputAllowed(fields, w, m, names[j])
  }

  lemma {:induction false} AllInputsAgree(fields: seq<Field>, w: WritableModel, m: Mutation, names: seq<string>)
    requires AllAssign(m.rows, names) && forall i :: 0 <= i < |names| ==> Assigned(m, names[i])
    ensures CheckInputs(fields, w, m, names).Ok? <==> AllAllowed(fields, w, m, names)
    ensures CheckInputs(fields, w, m, names).Err? ==> exists i :: 0 <= i < |names| && FirstRefused(fields, w, m, names, i, CheckInputs(fields, w, m, names).error)
  {
    hide InputAllowed, InputRefused, CheckInput;
    if names != [] {
      InputsAgree(fields, w, m, names[0]);
      var more := names[1..];
      assert AllAssign(m.rows, more) && forall i :: 0 <= i < |more| ==> more[i] == names[i + 1];
      if InputAllowed(fields, w, m, names[0]) {
        AllInputsAgree(fields, w, m, more);
        if CheckInputs(fields, w, m, more).Err? {
          var i :| 0 <= i < |more| && FirstRefused(fields, w, m, more, i, CheckInputs(fields, w, m, more).error);
          forall j | 0 <= j < i + 1
            ensures InputAllowed(fields, w, m, names[j])
          {
            if j > 0 {
              assert names[j] == more[j - 1];
            }
          }
          assert FirstRefused(fields, w, m, names, i + 1, CheckInputs(fields, w, m, names).error);
        } else {
          forall j | 0 <= j < |names|
            ensures InputAllowed(fields, w, m, names[j])
          {
            if j > 0 {
              assert names[j] == more[j - 1];
            }
          }
        }
      } else {
        assert FirstRefused(fields, w, m, names, 0, CheckInputs(fields, w, m, names).error);
      }
    }
  }

  ghost function GivenIn(names: seq<string>): string -> bool {
    (name: string) => name in names
  }

  /** A field an insert requires is given. */
  ghost function SuppliedIn(names: seq<string>): WritableField -> bool {
    (f: WritableField) => f.requiredOnInsert ==> f.field in names
  }

  lemma {:induction false} ConflictsAgree(conflict: seq<string>, names: seq<string>)
    ensures var r := CheckConflictInputs(conflict, names);
      && (r.Ok? <==> forall name :: name in conflict ==> name in names)
      && (r.Err? ==> exists i: nat :: FirstWithout(conflict, GivenIn(names), i) && r.error == ConflictFieldMissing(conflict[i]))
  {
    if conflict != [] {
      if conflict[0] !in names {
        assert FirstWithout(conflict, GivenIn(names), 0);
      } else {
        ConflictsAgree(conflict[1..], names);
        if CheckConflictInputs(conflict, names).Err? {
          var i: nat :| FirstWithout(conflict[1..], GivenIn(names), i) && CheckConflictInputs(conflict, names).error == ConflictFieldMissing(conflict[1..][i]);
          FirstLater(conflict, GivenIn(names), i);
        }
      }
    }
  }

  lemma {:induction false} RequiredAgree(fields: seq<WritableField>, names: seq<string>)
    ensures var r := CheckRequired(fields, names);
      && (r.Ok? <==> forall f :: f in fields ==> SuppliedIn(names)(f))
      && (r.Err? ==> exists i: nat :: FirstWithout(fields, SuppliedIn(names), i) && r.error == RequiredFieldMissing(fields[i].field))
  {
    if fields != [] {
      if !SuppliedIn(names)(fields[0]) {
        assert FirstWithout(fields, SuppliedIn(names), 0);
      } else {
        RequiredAgree(fields[1..], names);
        assert fields == [fields[0]] + fields[1..];
        if CheckRequired(fields, names).Err? {
          var i: nat :| FirstWithout(fields[1..], SuppliedIn(names), i) && CheckRequired(fields, names).error == RequiredFieldMissing(fields[1..][i].field);
          FirstLater(fields, SuppliedIn(names), i);
        }
      }
    }
  }

  /** Some given field may be updated on conflict. */
  ghost predicate SomeUpdatable(w: WritableModel, names: seq<string>) {
    exists name :: name in names && Lookup(w.fields, PolicyName, name).Some? && Lookup(w.fields, PolicyName, name).value.updatableOnConflict
  }

  /** An upsert gives every conflict field, and something to update. */
  ghost predicate UpsertComplete(w: WritableModel, m: Mutation, names: seq<string>) {
    m.operation == UpsertRows && w.upsert.Some? ==> (forall name :: name in w.upsert.value.conflictFields ==> name in names) && SomeUpdatable(w, names)
  }

  ghost predicate RowsAccepted(m: Mutation, model: Model, w: WritableModel)
    requires RowsAgree(m)
  {
    var names := Names(m.rows[0]);
    AllNamesAssigned(m);
    && AllAllowed(model.fields, w, m, names) && UpsertComplete(w, m, names)
    && forall f :: f in w.fields && f.requiredOnInsert ==> f.field in names
  }

  ghost predicate RowsRefused(m: Mutation, model: Model, w: WritableModel, e: MutationCompileError)
    requires RowsAgree(m)
  {
    var names := Names(m.rows[0]);
    AllNamesAssigned(m);
    if !AllAllowed(model.fields, w, m, names) then exists i :: 0 <= i < |names| && FirstRefused(model.fields, w, m, names, i, e)
    else if !UpsertComplete(w, m, names) then
      if forall name :: name in w.upsert.value.conflictFields ==> name in names then e == NoUpdatableField
      else exists i: nat :: FirstWithout(w.upsert.value.conflictFields, GivenIn(names), i) && e == ConflictFieldMissing(w.upsert.value.conflictFields[i])
    else exists i: nat :: FirstWithout(w.fields, SuppliedIn(names), i) && e == RequiredFieldMissing(w.fields[i].field)
  }

  lemma AllNamesAssigned(m: Mutation)
    requires RowsAgree(m)
    ensures AllAssign(m.rows, Names(m.rows[0])) && forall i :: 0 <= i < |Names(m.rows[0])| ==> Assigned(m, Names(m.rows[0])[i])
  {
    var names := Names(m.rows[0]);
    forall r, f | 0 <= r < |m.rows| && 0 <= f < |names|
      ensures names[f] in Names(m.rows[r])
    {
      assert Names(m.rows[r]) == names;
    }
  }

  lemma UpdatesAgree(w: WritableModel, m: Mutation, names: seq<string>)
    requires m.operation == UpsertRows ==> w.upsert.Some?
    ensures UpdateNames(w, m, names).Ok? <==> UpsertComplete(w, m, names)
    ensures UpdateNames(w, m, names).Err? ==> var e := UpdateNames(w, m, names).error;
      if forall name :: name in w.upsert.value.conflictFields ==> name in names then e == NoUpdatableField
      else exists i: nat :: FirstWithout(w.upsert.value.conflictFields, GivenIn(names), i) && e == ConflictFieldMissing(w.upsert.value.conflictFields[i])
  {
    hide CheckConflictInputs;
    if m.operation == UpsertRows {
      ConflictsAgree(w.upsert.value.conflictFields, names);
      var updates := UpdatableNames(w, names);
      if updates != [] {
        assert updates[0] in updates;
      }
    }
  }

  lemma RowsExactly(m: Mutation, model: Model, w: WritableModel)
    requires RowsAgree(m) && WritableModelHolds(model.fields, w) && (m.operation == UpsertRows ==> w.upsert.Some?)
    ensures CompileFor(m, model, w).Ok? <==> RowsAccepted(m, model, w)
    ensures CompileFor(m, model, w).Err? ==> RowsRefused(m, model, w, CompileFor(m, model, w).error)
  {
    hide CheckInputs, UpdateNames, CheckRequired, Render, WritableModelHolds, AllAllowed, UpsertComplete;
    var names := Names(m.rows[0]);
    AllNamesAssigned(m);
    AllInputsAgree(model.fields, w, m, names);
    UpdatesAgree(w, m, names);
    RequiredAgree(w.fields, names);
  }

  ghost predicate Permitted(m: Mutation, s: Snapshot, capabilities: MutationCapabilities) {
    && !Blank(capabilities.profile) && m.model in capabilities.writableModels
    && Lookup(s.models, ModelName, m.model).Some? && Lookup(s.models, ModelName, m.model).value.writable.Some?
  }

  ghost predicate PolicyFits(model: Model, w: WritableModel, options: MutationCompilerOptions) {
    && WritableModelHolds(model.fields, w)
    && 1 <= w.maxRows <= options.hardRowLimit && 1 <= w.maxRequestBytes <= options.hardRequestByteLimit
  }

  ghost predicate SnapshotHolds(s: Snapshot, hash: Snapshot -> string) {
    && (s.schemaVersion == "1" || s.schemaVersion == "2") && HashText(s.revisionHash)
    && s.revisionHash == hash(Normalized(s).(revisionHash := ""))
  }

  /** Everything a mutation needs to compile. */
  ghost predicate MutationCompilable(m: Mutation, inputBytes: nat, s: Snapshot, capabilities: MutationCapabilities,
                                     options: MutationCompilerOptions, hash: Snapshot -> string)
    requires RowsAgree(m)
  {
    && SnapshotHolds(s, hash) && options.hardRowLimit > 0 && options.hardRequestByteLimit > 0 && Permitted(m, s, capabilities)
    && var model := Lookup(s.models, ModelName, m.model).value; var w := model.writable.value;
    && PolicyFits(model, w, options) && |m.rows| <= w.maxRows && inputBytes <= w.maxRequestBytes
    && (if m.operation == InsertRows then w.insert else w.upsert.Some?)
    && RowsAccepted(m, model, w)
  }

  /** The first thing missing. */
  ghost predicate MutationRefused(m: Mutation, inputBytes: nat, s: Snapshot, capabilities: MutationCapabilities,
                                  options: MutationCompilerOptions, hash: Snapshot -> string, e: MutationCompileError)
    requires RowsAgree(m)
  {
    if s.schemaVersion != "1" && s.schemaVersion != "2" then e == UnsupportedSnapshotVersion(s.schemaVersion)
    else if !SnapshotHolds(s, hash) then e == InvalidRevisionHash
    else if options.hardRowLimit == 0 || options.hardRequestByteLimit == 0 then e == InvalidLimitConfiguration
    else if !Permitted(m, s, capabilities) then e == ModelNotWritable
    else
      var model := Lookup(s.models, ModelName, m.model).value;
      var w := model.writable.value;
      if !PolicyFits(model, w, options) then e == InvalidWritableModel
      else if |m.rows| > w.maxRows then e == RowLimitExceeded
      else if inputBytes > w.maxRequestBytes then e == RequestByteLimitExceeded
      else if !(if m.operation == InsertRows then w.insert else w.upsert.Some?) then e == OperationNotEnabled
      else !RowsAccepted(m, model, w) && RowsRefused(m, model, w, e)
  }

  /** `compile_lsm` accepts exactly the compilable mutations, and otherwise reports the first thing missing. */
  lemma MutationCompilesExactly(m: Mutation, inputBytes: nat, s: Snapshot, capabilities: MutationCapabilities,
                                options: MutationCompilerOptions, hash: Snapshot -> string)
    requires RowsAgree(m)
    ensures CompileMutation(m, inputBytes, s, capabilities, options, hash).Ok? <==> MutationCompilable(m, inputBytes, s, capabilities, options, hash)
    ensures CompileMutation(m, inputBytes, s, capabilities, options, hash).Err? ==>
      MutationRefused(m, inputBytes, s, capabilities, options, hash, CompileMutation(m, inputBytes, s, capabilities, options, hash).error)
  {
    hide CompileFor, WritableModelHolds, RowsAccepted, RowsRefused, Normalized, IsSha256, HashText, Blank;
    HashTextExactly(s.revisionHash);
    var t := WritableTarget(m, inputBytes, s, capabilities, options, hash);
    if t.Ok? {
      RowsExactly(m, t.value.0, t.value.1);
    }
  }

  // ----- what is written and returned -----

  lemma RenderedFrom(m: Mutation, model: Model, w: WritableModel, c: CompiledMutation) returns (updates: seq<string>)
    requires RowsAgree(m) && WritableModelHolds(model.fields, w) && (m.operation == UpsertRows ==> w.upsert.Some?) && CompileFor(m, model, w) == Ok(c)
    ensures var names := Names(m.rows[0]);
      && AllNamed(model.fields, names) && AllNamed(model.fields, updates) && AllNamed(model.fields, w.returning) && AllAssign(m.rows, names)
      && (m.operation == UpsertRows ==> w.upsert.Some? && AllNamed(model.fields, w.upsert.value.conflictFields))
      && c == Render(m, model, w, names, updates)
  {
    hide Render, CheckInputs, CheckRequired, WritableModelHolds;
    var names := Names(m.rows[0]);
    updates := UpdateNames(w, m, names).value;
    LookupsSucceed(m, model, w, names, updates);
    AllNamesAssigned(m);
  }

  /** Each returned field: its own column under its own name, and its type in the schema. */
  lemma ReturningExact(m: Mutation, model: Model, w: WritableModel, c: CompiledMutation)
    requires RowsAgree(m) && WritableModelHolds(model.fields, w) && (m.operation == UpsertRows ==> w.upsert.Some?) && CompileFor(m, model, w) == Ok(c)
    ensures |c.statement.returning| == |c.returningSchema| == |w.returning|
    ensures forall i :: 0 <= i < |w.returning| ==>
      var f := LastField(model.fields, w.returning[i]);
      f.Some? && c.statement.returning[i] == (f.value.column, w.returning[i]) && c.returningSchema[i] == (w.returning[i], f.value.dataType)
    ensures c.statement.relation == model.source && c.fields == Names(m.rows[0]) && c.expectedRows == |m.rows| && c.operation == m.operation && c.model == m.model
  {
    hide CompileFor, WritableModelHolds, AllParameters, AllPlaceholders;
    var updates := RenderedFrom(m, model, w, c);
  }

  /** The columns a mutation touches: those of its input and of what it returns. */
  lemma TouchedColumns(m: Mutation, model: Model, w: WritableModel, c: CompiledMutation, column: (Semantic.Relation, string))
    requires RowsAgree(m) && WritableModelHolds(model.fields, w) && (m.operation == UpsertRows ==> w.upsert.Some?) && CompileFor(m, model, w) == Ok(c)
    ensures column in c.sourceColumns <==>
      column.0 == model.source
      && exists name :: (name in Names(m.rows[0]) || name in w.returning) && LastField(model.fields, name).Some? && LastField(model.fields, name).value.column == column.1
  {
    hide CompileFor, WritableModelHolds, AllParameters, AllPlaceholders;
    var updates := RenderedFrom(m, model, w, c);
    var names := Names(m.rows[0]);
    var a, b := Columns(model.fields, names), Columns(model.fields, w.returning);
    if column in c.sourceColumns {
      if i :| 0 <= i < |a| && a[i] == column.1 {
        assert names[i] in names;
      } else {
        var i :| 0 <= i < |b| && b[i] == column.1;
        assert w.returning[i] in w.returning;
      }
    }
    if name :| (name in names || name in w.returning) && LastField(model.fields, name).Some? && LastField(model.fields, name).value.column == column.1 && column.0 == model.source {
      if name in names {
        var i :| 0 <= i < |names| && names[i] == name;
        assert a[i] == column.1 && a[i] in a + b;
      } else {
        var i :| 0 <= i < |w.returning| && w.returning[i] == name;
        assert b[i] == column.1 && b[i] in a + b;
      }
    }
  }

  lemma InsertShape(m: Mutation, model: Model, w: WritableModel, c: CompiledMutation)
    requires RowsAgree(m) && m.operation == InsertRows && WritableModelHolds(model.fields, w) && CompileFor(m, model, w) == Ok(c)
    ensures var names := Names(m.rows[0]);
      && AllNamed(model.fields, names) && AllAssign(m.rows, names) && c.statement.conflict == None
      && c.statement.columns == Columns(model.fields, names) && c.statement.values == AllPlaceholders(model.fields, names, |m.rows|)
      && c.parameters == AllParameters(model.fields, names, m.rows)
  {
    hide CompileFor, WritableModelHolds;
    var updates := RenderedFrom(m, model, w, c);
  }

  lemma InsertBound(m: Mutation, model: Model, w: WritableModel, c: CompiledMutation)
    requires RowsAgree(m) && m.operation == InsertRows && WritableModelHolds(model.fields, w) && CompileFor(m, model, w) == Ok(c)
    ensures UpsertProofs.Bound(c.statement, c.parameters) && |c.statement.values| == |m.rows|
  {
    hide CompileFor, WritableModelHolds, AllParameters;
    InsertShape(m, model, w, c);
    var names := Names(m.rows[0]);
    forall r | 0 <= r < |m.rows|
      ensures RowBound(c.statement, c.statement.values[r], c.parameters)
    {
      forall f | 0 <= f < |names|
        ensures 0 < c.statement.values[r][f].position <= |c.parameters|
      {
        CellPosition(model.fields, names, m.rows, r, f);
      }
    }
  }

  /** Row r as inserted: each given field in its own column, every other column at its default. */
  ghost predicate Inserted(m: Mutation, fields: seq<Field>, env: Environment, r: nat, row: Row)
    requires m.rows != [] && AllNamed(fields, Names(m.rows[0])) && AllAssign(m.rows, Names(m.rows[0])) && r < |m.rows|
  {
    var names := Names(m.rows[0]);
    && (forall i :: 0 <= i < |names| ==> Cell(row, FieldNamed(fields, names[i]).column) == InputCell(m, fields, env, r, i))
    && (forall column :: column !in Columns(fields, names) ==> Cell(row, column) == Cell(env.defaults(r), column))
  }

  ghost function InputCell(m: Mutation, fields: seq<Field>, env: Environment, r: nat, i: nat): Value
    requires m.rows != [] && AllNamed(fields, Names(m.rows[0])) && AllAssign(m.rows, Names(m.rows[0])) && r < |m.rows| && i < |Names(m.rows[0])|
  {
    InputValue(m, fields, env, r, Names(m.rows[0])[i])
  }

  lemma InsertedCell(m: Mutation, model: Model, w: WritableModel, c: CompiledMutation, env: Environment, r: nat, i: nat)
    requires RowsAgree(m) && m.operation == InsertRows && WritableModelHolds(model.fields, w) && CompileFor(m, model, w) == Ok(c) && r < |m.rows|
    requires NoDuplicates(c.statement.columns) && UpsertProofs.Bound(c.statement, c.parameters) && r < |c.statement.values|
    requires i < |Names(m.rows[0])| && AllNamed(model.fields, Names(m.rows[0])) && AllAssign(m.rows, Names(m.rows[0]))
    ensures Cell(ProposedRow(c.statement, c.parameters, env, r), FieldNamed(model.fields, Names(m.rows[0])[i]).column) == InputCell(m, model.fields, env, r, i)
  {
    hide CompileFor, WritableModelHolds, AllParameters, AllPlaceholders, RowsAgree, UpsertProofs.Bound, ProposedRow, NoDuplicates;
    InsertShape(m, model, w, c);
    var names := Names(m.rows[0]);
    CellPosition(model.fields, names, m.rows, r, i);
    ProposedColumn(c.statement, c.parameters, env, r, i);
  }

  lemma ProposedInserted(m: Mutation, model: Model, w: WritableModel, c: CompiledMutation, env: Environment, r: nat)
    requires RowsAgree(m) && m.operation == InsertRows && WritableModelHolds(model.fields, w) && CompileFor(m, model, w) == Ok(c) && r < |m.rows|
    requires NoDuplicates(c.statement.columns)
    ensures UpsertProofs.Bound(c.statement, c.parameters) && r < |c.statement.values| && AllNamed(model.fields, Names(m.rows[0])) && AllAssign(m.rows, Names(m.rows[0]))
    ensures Inserted(m, model.fields, env, r, ProposedRow(c.statement, c.parameters, env, r))
  {
    hide CompileFor, WritableModelHolds, AllParameters, UpsertProofs.Bound, ProposedRow, NoDuplicates;
    InsertShape(m, model, w, c);
    InsertBound(m, model, w, c);
    var names, row := Names(m.rows[0]), ProposedRow(c.statement, c.parameters, env, r);
    forall i | 0 <= i < |names|
      ensures Cell(row, FieldNamed(model.fields, names[i]).column) == InputCell(m, model.fields, env, r, i)
    {
      InsertedCell(m, model, w, c, env, r, i);
    }
    hide InputCell, FieldNamed, Columns;
    forall column | column !in c.statement.columns
      ensures Cell(row, column) == Cell(env.defaults(r), column)
    {
      DefaultColumn(c.statement, c.parameters, env, r, column);
    }
  }

  lemma DefaultColumn(statement: Statement, parameters: seq<MutationParameter>, env: Environment, r: nat, column: string)
    requires UpsertProofs.Bound(statement, parameters) && r < |statement.values| && column !in statement.columns
    ensures Cell(ProposedRow(statement, parameters, env, r), column) == Cell(env.defaults(r), column)
  {
  }

  /**
   What an accepted insert does, on any table: it succeeds exactly when its fields have distinct columns, keeps every old
   row where and as it was, and appends one row for every input row, in order.
   */
  lemma InsertAppends(m: Mutation, model: Model, w: WritableModel, c: CompiledMutation, env: Environment, table: seq<Row>)
    requires RowsAgree(m) && m.operation == InsertRows && WritableModelHolds(model.fields, w) && CompileFor(m, model, w) == Ok(c)
    ensures UpsertProofs.Bound(c.statement, c.parameters) && AllNamed(model.fields, Names(m.rows[0])) && AllAssign(m.rows, Names(m.rows[0]))
    ensures var e := Execute(c.statement, c.parameters, env, table);
      && (e.Ok? <==> DistinctColumns(model.fields, Names(m.rows[0])))
      && (e.Ok? ==>
            && |e.value.table| == |table| + |m.rows| && e.value.table[..|table|] == table && |e.value.affected| == |m.rows| == c.expectedRows
            && forall r :: 0 <= r < |m.rows| ==> e.value.affected[r] == |table| + r && Inserted(m, model.fields, env, r, e.value.table[e.value.affected[r]]))
  {
    hide CompileFor, WritableModelHolds, AllParameters, UpsertProofs.Bound, ProposedRow, NoDuplicates, Inserted;
    InsertShape(m, model, w, c);
    InsertBound(m, model, w, c);
    ReturningExact(m, model, w, c);
    assert NoDuplicates(c.statement.columns) <==> DistinctColumns(model.fields, Names(m.rows[0])) by {
      ColumnsDistinct(model.fields, Names(m.rows[0]));
    }
    var e := Execute(c.statement, c.parameters, env, table);
    if e.Ok? {
      var rows := ProposedRows(c.statement, c.parameters, env);
      assert e.value.table == table + rows;
      forall r | 0 <= r < |m.rows|
        ensures e.value.affected[r] == |table| + r && Inserted(m, model.fields, env, r, e.value.table[e.value.affected[r]])
      {
        ProposedInserted(m, model, w, c, env, r);
        assert (table + rows)[|table| + r] == rows[r];
      }
    }
  }
}
