/** Logical semantic mutations: validation of the request and compilation to one INSERT statement. */
module Mutation {
  import opened Prelude
  import opened Order
  import opened Semantic
  import opened Snapshots
  import L = LsqValidation

  // ----- the request -----

  datatype MutationOperation = InsertRows | UpsertRows

  datatype MutationValue =
    | NullValue
    | TextValue(text: string)
    | BooleanValue(flag: bool)
    | IntegerValue(number: int)
    | NumericValue(digits: string)
    | DateValue(day: string)
    | TimestampValue(instant: string)

  datatype Assignment = Assignment(name: string, value: MutationValue)

  function AssignedName(a: Assignment): string { a.name }

  ghost predicate InKeyOrder(row: seq<Assignment>) {
    forall i, j :: 0 <= i < j < |row| ==> row[i].name != row[j].name && NameLeq(row[i].name, row[j].name)
  }

  /** An ordered map from names to values, listed in key order. */
  type InputRow = row: seq<Assignment> | InKeyOrder(row) witness []

  function Names(row: InputRow): (names: seq<string>)
    ensures |names| == |row| && forall i :: 0 <= i < |row| ==> names[i] == row[i].name
    ensures NoDuplicates(names)
  {
    seq(|row|, i requires 0 <= i < |row| => row[i].name)
  }

  datatype Mutation = Mutation(
    schemaVersion: string,
    operation: MutationOperation,
    model: string,
    idempotencyKey: string,
    rows: seq<InputRow>)

  datatype LsmError =
    | UnsupportedSchemaVersion(version: string)
    | InvalidModel
    | InvalidIdempotencyKey
    | InvalidRowCount
    | InvalidFieldCount
    | InvalidFieldName
    | InconsistentRowFields
    | InvalidValue

  const MAX_ROWS: nat := 100
  const MAX_FIELDS_PER_ROW: nat := 64
  const MAX_SEMANTIC_NAME_BYTES: nat := 255
  const MAX_IDEMPOTENCY_KEY_BYTES: nat := 256

  predicate ValidBoundedText(value: string, maximumBytes: nat) {
    !Blank(value) && Utf8Length(value) <= maximumBytes
  }

  function AsLiteral(v: MutationValue): Option<Literal> {
    match v
    case NullValue => None
    case TextValue(text) => Some(TextLiteral(text))
    case BooleanValue(flag) => Some(BooleanLiteral(flag))
    case IntegerValue(number) => Some(IntegerLiteral(number))
    case NumericValue(digits) => Some(NumericLiteral(digits))
    case DateValue(day) => Some(DateLiteral(day))
    case TimestampValue(instant) => Some(TimestampLiteral(instant))
  }

  /** NULL, or a literal whose text is one of those a query literal may have. */
  ghost predicate WellFormedValue(v: MutationValue) {
    v != NullValue ==> L.WellFormed(AsLiteral(v).value)
  }

  method IsWellFormed(v: MutationValue) returns (ok: bool)
    ensures ok <==> WellFormedValue(v)
  {
    hide L.WellFormed;
    var literal := AsLiteral(v);
    if literal.None? {
      return true;
    }
    ok := L.LiteralWellFormed(literal.value);
  }

  ghost predicate AssignmentHolds(a: Assignment) {
    ValidBoundedText(a.name, MAX_SEMANTIC_NAME_BYTES) && WellFormedValue(a.value)
  }

  ghost predicate AssignmentsHold(row: seq<Assignment>) {
    forall k :: 0 <= k < |row| ==> AssignmentHolds(row[k])
  }

  ghost predicate RowHolds(row: InputRow, names: seq<string>) {
    0 < |row| <= MAX_FIELDS_PER_ROW && Names(row) == names && AssignmentsHold(row)
  }

  /** The first check of a row that fails, the cells before it being in order. */
  ghost predicate RowRefused(row: InputRow, names: seq<string>, e: LsmError) {
    if row == [] || |row| > MAX_FIELDS_PER_ROW then e == InvalidFieldCount
    else if Names(row) != names then e == InconsistentRowFields
    else
      exists k ::
        && 0 <= k < |row| && AssignmentsHold(row[..k]) && !AssignmentHolds(row[k])
        && e == if ValidBoundedText(row[k].name, MAX_SEMANTIC_NAME_BYTES) then InvalidValue else InvalidFieldName
  }

  method ValidateRow(row: InputRow, names: seq<string>) returns (r: Result<(), LsmError>)
    ensures r.Ok? <==> RowHolds(row, names)
    ensures r.Err? ==> RowRefused(row, names, r.error)
  {
    hide WellFormedValue;
    if row == [] || |row| > MAX_FIELDS_PER_ROW {
      return Err(InvalidFieldCount);
    }
    if Names(row) != names {
      return Err(InconsistentRowFields);
    }
    for k := 0 to |row|
      invariant AssignmentsHold(row[..k])
    {
      if !ValidBoundedText(row[k].name, MAX_SEMANTIC_NAME_BYTES) {
        return Err(InvalidFieldName);
      }
      var ok := IsWellFormed(row[k].value);
      if !ok {
        return Err(InvalidValue);
      }
    }
    assert row[..|row|] == row;
    return Ok(());
  }

  ghost predicate HeaderHolds(m: Mutation) {
    && m.schemaVersion == "1"
    && ValidBoundedText(m.model, MAX_SEMANTIC_NAME_BYTES)
    && ValidBoundedText(m.idempotencyKey, MAX_IDEMPOTENCY_KEY_BYTES)
    && 0 < |m.rows| <= MAX_ROWS
  }

  /** What a request must be: a bounded number of rows that assign the same, well-formed, fields. */
  ghost predicate RequestHolds(m: Mutation) {
    HeaderHolds(m) && forall i :: 0 <= i < |m.rows| ==> RowHolds(m.rows[i], Names(m.rows[0]))
  }

  ghost predicate RequestRefused(m: Mutation, e: LsmError) {
    if m.schemaVersion != "1" then e == UnsupportedSchemaVersion(m.schemaVersion)
    else if !ValidBoundedText(m.model, MAX_SEMANTIC_NAME_BYTES) then e == InvalidModel
    else if !ValidBoundedText(m.idempotencyKey, MAX_IDEMPOTENCY_KEY_BYTES) then e == InvalidIdempotencyKey
    else if !HeaderHolds(m) then e == InvalidRowCount
    else
      exists i ::
        && 0 <= i < |m.rows| && RowRefused(m.rows[i], Names(m.rows[0]), e)
        && forall h :: 0 <= h < i ==> RowHolds(m.rows[h], Names(m.rows[0]))
  }

  /** `validate_mutation` accepts exactly these requests, and otherwise reports the first check that fails. */
  method ValidateMutation(m: Mutation) returns (r: Result<(), LsmError>)
    ensures r.Ok? <==> RequestHolds(m)
    ensures r.Err? ==> RequestRefused(m, r.error)
  {
    hide RowHolds, RowRefused;
    if m.schemaVersion != "1" {
      return Err(UnsupportedSchemaVersion(m.schemaVersion));
    }
    if !ValidBoundedText(m.model, MAX_SEMANTIC_NAME_BYTES) {
      return Err(InvalidModel);
    }
    if !ValidBoundedText(m.idempotencyKey, MAX_IDEMPOTENCY_KEY_BYTES) {
      return Err(InvalidIdempotencyKey);
    }
    if m.rows == [] || |m.rows| > MAX_ROWS {
      return Err(InvalidRowCount);
    }
    var names := Names(m.rows[0]);
    for i := 0 to |m.rows|
      invariant forall h :: 0 <= h < i ==> RowHolds(m.rows[h], names)
    {
      r := ValidateRow(m.rows[i], names);
      if r.Err? {
        return;
      }
    }
    return Ok(());
  }

  /** An accepted request meets the demand the compiler makes of its rows. */
  lemma AcceptedRowsAgree(m: Mutation)
    requires RequestHolds(m)
    ensures RowsAgree(m)
  {
    forall i | 0 <= i < |m.rows|
      ensures m.rows[i] != [] && Names(m.rows[i]) == Names(m.rows[0])
    {
      assert RowHolds(m.rows[i], Names(m.rows[0]));
    }
  }

  predicate RowsAgree(m: Mutation) {
    m.rows != [] && m.rows[0] != [] && forall i :: 0 <= i < |m.rows| ==> Names(m.rows[i]) == Names(m.rows[0])
  }

  // ----- the compiled statement -----

  datatype MutationParameter = MutationParameter(position: nat, dataType: DataType, value: MutationValue)

  datatype Placeholder = Placeholder(position: nat, dataType: DataType)

  /** ON CONFLICT (target) DO UPDATE SET column = EXCLUDED.column for every updated column. */
  datatype ConflictClause = ConflictClause(target: seq<string>, updates: seq<string>)

  datatype Statement = Statement(
    relation: Relation,
    columns: seq<string>,
    values: seq<seq<Placeholder>>,
    conflict: Option<ConflictClause>,
    returning: seq<(string, string)>)

  datatype CompiledMutation = CompiledMutation(
    statement: Statement,
    parameters: seq<MutationParameter>,
    returningSchema: seq<(string, DataType)>,
    fields: seq<string>,
    sourceColumns: set<(Relation, string)>,
    expectedRows: nat,
    operation: MutationOperation,
    model: string)

  datatype MutationCapabilities = MutationCapabilities(profile: string, writableModels: set<string>)

  datatype MutationCompilerOptions = MutationCompilerOptions(hardRowLimit: nat, hardRequestByteLimit: nat)

  datatype MutationCompileError =
    | UnsupportedSnapshotVersion(version: string)
    | InvalidRevisionHash
    | InvalidLimitConfiguration
    | ModelNotWritable
    | OperationNotEnabled
    | RowLimitExceeded
    | RequestByteLimitExceeded
    | InvalidWritableModel
    | FieldNotWritable(name: string)
    | RequiredFieldMissing(name: string)
    | FieldTypeMismatch(name: string)
    | NullNotAllowed(name: string)
    | ConflictFieldMissing(name: string)
    | NoUpdatableField

  // ----- writable metadata -----

  function PolicyName(w: WritableField): string { w.field }

  /** Collecting into a map by name keeps the last of equal names. */
  function LastField(fields: seq<Field>, name: string): (r: Option<Field>)
    ensures r.Some? ==> r.value in fields && r.value.semanticName == name
    ensures r.None? ==> forall f :: f in fields ==> f.semanticName != name
  {
    if fields == [] then None
    else if fields[|fields| - 1].semanticName == name then Some(fields[|fields| - 1])
    else LastField(fields[..|fields| - 1], name)
  }

  /** A field of the model's own table. */
  predicate OwnField(fields: seq<Field>, name: string) {
    var f := LastField(fields, name);
    f.Some? && f.value.relationship.None?
  }

  function FieldNamed(fields: seq<Field>, name: string): Field
    requires LastField(fields, name).Some?
  {
    LastField(fields, name).value
  }

  predicate ConflictFieldHolds(w: WritableModel, name: string) {
    var policy := Lookup(w.fields, PolicyName, name);
    policy.Some? && !policy.value.updatableOnConflict
  }

  predicate WritableModelHolds(fields: seq<Field>, w: WritableModel) {
    && (w.insert || w.upsert.Some?) && w.fields != [] && w.returning != []
    && UniqueNames(w.fields, PolicyName)
    && (forall i :: 0 <= i < |w.fields| ==> !Blank(w.fields[i].field) && OwnField(fields, w.fields[i].field))
    && NoDuplicates(w.returning)
    && (forall i :: 0 <= i < |w.returning| ==> OwnField(fields, w.returning[i]))
    && (w.upsert.Some? ==>
      && w.upsert.value.conflictFields != []
      && NoDuplicates(w.upsert.value.conflictFields)
      && forall i :: 0 <= i < |w.upsert.value.conflictFields| ==> ConflictFieldHolds(w, w.upsert.value.conflictFields[i]))
  }

  /** The elements of the first i places, as the loops below have inserted them. */
  ghost function Seen(names: seq<string>, i: nat): set<string>
    requires i <= |names|
  {
    set k | 0 <= k < i :: names[k]
  }

  /** `validate_writable_model`: three loops over sets of seen names decide the metadata conditions. */
  method ValidateWritableModel(fields: seq<Field>, w: WritableModel) returns (ok: bool)
    ensures ok <==> WritableModelHolds(fields, w)
  {
    if (!w.insert && w.upsert.None?) || w.fields == [] || w.returning == [] {
      return false;
    }
    ok := CheckPolicies(fields, w);
    if !ok {
      return;
    }
    ok := CheckReturning(fields, w);
    if !ok {
      return;
    }
    if w.upsert.Some? {
      if w.upsert.value.conflictFields == [] {
        return false;
      }
      ok := CheckConflictFields(w, w.upsert.value.conflictFields);
    }
  }

  method CheckPolicies(fields: seq<Field>, w: WritableModel) returns (ok: bool)
    ensures ok <==> UniqueNames(w.fields, PolicyName)
                    && forall i :: 0 <= i < |w.fields| ==> !Blank(w.fields[i].field) && OwnField(fields, w.fields[i].field)
  {
    var names: set<string> := {};
    for i := 0 to |w.fields|
      invariant forall name :: name in names <==> exists k :: 0 <= k < i && w.fields[k].field == name
      invariant forall j, k :: 0 <= j < k < i ==> PolicyName(w.fields[j]) != PolicyName(w.fields[k])
      invariant forall k :: 0 <= k < i ==> !Blank(w.fields[k].field) && OwnField(fields, w.fields[k].field)
    {
      var name := w.fields[i].field;
      if name in names {
        var k :| 0 <= k < i && w.fields[k].field == name;
        assert PolicyName(w.fields[k]) == PolicyName(w.fields[i]);
        return false;
      }
      if Blank(name) || !OwnField(fields, name) {
        return false;
      }
      names := names + {name};
    }
    return true;
  }

  method CheckReturning(fields: seq<Field>, w: WritableModel) returns (ok: bool)
    ensures ok <==> NoDuplicates(w.returning) && forall i :: 0 <= i < |w.returning| ==> OwnField(fields, w.returning[i])
  {
    var names: set<string> := {};
    for i := 0 to |w.returning|
      invariant names == Seen(w.returning, i)
      invariant forall j, k :: 0 <= j < k < i ==> w.returning[j] != w.returning[k]
      invariant forall k :: 0 <= k < i ==> OwnField(fields, w.returning[k])
    {
      if w.returning[i] in names || !OwnField(fields, w.returning[i]) {
        return false;
      }
      names := names + {w.returning[i]};
    }
    return true;
  }

  method CheckConflictFields(w: WritableModel, fields: seq<string>) returns (ok: bool)
    ensures ok <==> NoDuplicates(fields) && forall i :: 0 <= i < |fields| ==> ConflictFieldHolds(w, fields[i])
  {
    var conflict: set<string> := {};
    for i := 0 to |fields|
      invariant conflict == Seen(fields, i)
      invariant forall j, k :: 0 <= j < k < i ==> fields[j] != fields[k]
      invariant forall k :: 0 <= k < i ==> ConflictFieldHolds(w, fields[k])
    {
      var policy := Lookup(w.fields, PolicyName, fields[i]);
      if policy.None? {
        return false;
      }
      if fields[i] in conflict || policy.value.updatableOnConflict {
        return false;
      }
      conflict := conflict + {fields[i]};
    }
    return true;
  }

  // ----- input checks -----

  predicate ValueFits(t: DataType, v: MutationValue) {
    match t
    case TextType => v.TextValue?
    case BooleanType => v.BooleanValue?
    case IntegerType => v.IntegerValue?
    case NumericType => v.NumericValue?
    case DateType => v.DateValue?
    case TimestampType => v.TimestampValue?
    case TimestampTzType => v.TimestampValue?
  }

  function ValidateValue(field: Field, policy: WritableField, v: MutationValue): Result<(), MutationCompileError> {
    if v == NullValue then (if policy.nullable then Ok(()) else Err(NullNotAllowed(field.semanticName)))
    else if ValueFits(field.dataType, v) then Ok(())
    else Err(FieldTypeMismatch(field.semanticName))
  }

  /** The value a row assigns to a name; `row[name]` panics when there is none. */
  function ValueOf(row: InputRow, name: string): MutationValue
    requires name in Names(row)
  {
    NamedAssignment(row, name);
    Lookup(row, AssignedName, name).value.value
  }

  lemma NamedAssignment(row: InputRow, name: string)
    requires name in Names(row)
    ensures Lookup(row, AssignedName, name).Some?
  {
    var i :| 0 <= i < |row| && Names(row)[i] == name;
    assert AssignedName(row[i]) == name;
  }

  function ValidateColumn(field: Field, policy: WritableField, rows: seq<InputRow>, name: string): (r: Result<(), MutationCompileError>)
    requires forall r :: 0 <= r < |rows| ==> name in Names(rows[r])
    ensures r.Ok? ==> forall i :: 0 <= i < |rows| ==> ValidateValue(field, policy, ValueOf(rows[i], name)).Ok?
  {
    if rows == [] then Ok(())
    else
      var _ :- ValidateValue(field, policy, ValueOf(rows[0], name));
      ValidateColumn(field, policy, rows[1..], name)
  }

  predicate IsConflictField(w: WritableModel, name: string) {
    w.upsert.Some? && name in w.upsert.value.conflictFields
  }

  predicate Updatable(w: WritableModel, name: string) {
    var policy := Lookup(w.fields, PolicyName, name);
    policy.Some? && policy.value.updatableOnConflict
  }

  /** What every accepted input name satisfies. */
  predicate InputAccepted(fields: seq<Field>, w: WritableModel, operation: MutationOperation, name: string) {
    && Lookup(w.fields, PolicyName, name).Some?
    && OwnField(fields, name)
    && (operation.UpsertRows? ==> Updatable(w, name) || IsConflictField(w, name))
  }

  function CheckInput(fields: seq<Field>, w: WritableModel, m: Mutation, name: string): (r: Result<(), MutationCompileError>)
    requires forall r :: 0 <= r < |m.rows| ==> name in Names(m.rows[r])
    ensures r.Ok? ==> InputAccepted(fields, w, m.operation, name)
  {
    match Lookup(w.fields, PolicyName, name)
    case None => Err(FieldNotWritable(name))
    case Some(policy) =>
      match LastField(fields, name)
      case None => Err(InvalidWritableModel)
      case Some(field) =>
        if field.relationship.Some? then Err(InvalidWritableModel)
        else
          var _ :- ValidateColumn(field, policy, m.rows, name);
          if m.operation.UpsertRows? && !policy.updatableOnConflict && !IsConflictField(w, name) then Err(FieldNotWritable(name))
          else Ok(())
  }

  function CheckInputs(fields: seq<Field>, w: WritableModel, m: Mutation, names: seq<string>): (r: Result<(), MutationCompileError>)
    requires AllAssign(m.rows, names)
    ensures r.Ok? ==> forall name :: name in names ==> InputAccepted(fields, w, m.operation, name)
  {
    if names == [] then Ok(())
    else
      assert AllAssign(m.rows, names[1..]);
      assert forall r :: 0 <= r < |m.rows| ==> names[0] in Names(m.rows[r]);
      var _ :- CheckInput(fields, w, m, names[0]);
      CheckInputs(fields, w, m, names[1..])
  }

  function CheckConflictInputs(conflict: seq<string>, names: seq<string>): (r: Result<(), MutationCompileError>)
    ensures r.Ok? <==> forall name :: name in conflict ==> name in names
  {
    if conflict == [] then Ok(())
    else if conflict[0] !in names then Err(ConflictFieldMissing(conflict[0]))
    else CheckConflictInputs(conflict[1..], names)
  }

  function CheckRequired(fields: seq<WritableField>, names: seq<string>): (r: Result<(), MutationCompileError>)
    ensures r.Ok? <==> forall f :: f in fields && f.requiredOnInsert ==> f.field in names
  {
    if fields == [] then Ok(())
    else if fields[0].requiredOnInsert && fields[0].field !in names then Err(RequiredFieldMissing(fields[0].field))
    else CheckRequired(fields[1..], names)
  }

  function UpdatableNames(w: WritableModel, names: seq<string>): (r: seq<string>)
    ensures forall name :: name in r <==> name in names && Updatable(w, name)
    ensures NoDuplicates(names) ==> NoDuplicates(r)
  {
    if names == [] then []
    else if Updatable(w, names[0]) then
      assert NoDuplicates(names) ==> NoDuplicates(names[1..]);
      [names[0]] + UpdatableNames(w, names[1..])
    else UpdatableNames(w, names[1..])
  }

  function UpdateNames(w: WritableModel, m: Mutation, names: seq<string>): Result<seq<string>, MutationCompileError> {
    if w.upsert.None? || m.operation.InsertRows? then Ok([])
    else
      var _ :- CheckConflictInputs(w.upsert.value.conflictFields, names);
      var updates := UpdatableNames(w, names);
      if updates == [] then Err(NoUpdatableField) else Ok(updates)
  }

  // ----- rendering -----

  predicate AllNamed(fields: seq<Field>, names: seq<string>) {
    forall i :: 0 <= i < |names| ==> LastField(fields, names[i]).Some?
  }

  predicate AllAssign(rows: seq<InputRow>, names: seq<string>) {
    forall r, f :: 0 <= r < |rows| && 0 <= f < |names| ==> names[f] in Names(rows[r])
  }

  function Columns(fields: seq<Field>, names: seq<string>): (r: seq<string>)
    requires AllNamed(fields, names)
    ensures |r| == |names| && forall i :: 0 <= i < |names| ==> r[i] == FieldNamed(fields, names[i]).column
  {
    seq(|names|, i requires 0 <= i < |names| => FieldNamed(fields, names[i]).column)
  }

  function RowParameters(fields: seq<Field>, names: seq<string>, row: InputRow, start: nat): (r: seq<MutationParameter>)
    requires AllNamed(fields, names) && AllAssign([row], names)
    ensures |r| == |names|
  {
    assert forall f :: 0 <= f < |names| ==> names[f] in Names([row][0]);
    seq(|names|, f requires 0 <= f < |names| => MutationParameter(start + f + 1, FieldNamed(fields, names[f]).dataType, ValueOf(row, names[f])))
  }

  /** Row after row, each value in its own position. */
  function AllParameters(fields: seq<Field>, names: seq<string>, rows: seq<InputRow>): (r: seq<MutationParameter>)
    requires AllNamed(fields, names) && AllAssign(rows, names)
    ensures |r| == |rows| * |names|
  {
    if rows == [] then []
    else
      var before := AllParameters(fields, names, rows[..|rows| - 1]);
      assert |rows| * |names| == (|rows| - 1) * |names| + |names|;
      assert forall f :: 0 <= f < |names| ==> names[f] in Names(rows[|rows| - 1]);
      before + RowParameters(fields, names, rows[|rows| - 1], |before|)
  }

  function RowPlaceholders(fields: seq<Field>, names: seq<string>, start: nat): (r: seq<Placeholder>)
    requires AllNamed(fields, names)
    ensures |r| == |names| && forall f :: 0 <= f < |names| ==> r[f] == Placeholder(start + f + 1, FieldNamed(fields, names[f]).dataType)
  {
    seq(|names|, f requires 0 <= f < |names| => Placeholder(start + f + 1, FieldNamed(fields, names[f]).dataType))
  }

  function AllPlaceholders(fields: seq<Field>, names: seq<string>, count: nat): (r: seq<seq<Placeholder>>)
    requires AllNamed(fields, names)
    ensures |r| == count && forall i :: 0 <= i < count ==> r[i] == RowPlaceholders(fields, names, i * |names|)
  {
    seq(count, i requires 0 <= i < count => RowPlaceholders(fields, names, i * |names|))
  }

  /** The inner loop of `render`: one fresh position per cell of a row. */
  method BindRow(fields: seq<Field>, names: seq<string>, row: InputRow, before: seq<MutationParameter>) returns (parameters: seq<MutationParameter>, values: seq<Placeholder>)
    requires AllNamed(fields, names) && AllAssign([row], names)
    ensures parameters == before + RowParameters(fields, names, row, |before|)
    ensures values == RowPlaceholders(fields, names, |before|)
  {
    parameters, values := before, [];
    assert forall f :: 0 <= f < |names| ==> names[f] in Names([row][0]);
    for f := 0 to |names|
      invariant |values| == f && |parameters| == |before| + f
      invariant values == RowPlaceholders(fields, names, |before|)[..f]
      invariant parameters == before + RowParameters(fields, names, row, |before|)[..f]
    {
      var field, value := FieldNamed(fields, names[f]), ValueOf(row, names[f]);
      var position := |parameters| + 1;
      parameters := parameters + [MutationParameter(position, field.dataType, value)];
      values := values + [Placeholder(position, field.dataType)];
    }
    assert RowParameters(fields, names, row, |before|)[..|names|] == RowParameters(fields, names, row, |before|);
    assert RowPlaceholders(fields, names, |before|)[..|names|] == RowPlaceholders(fields, names, |before|);
  }

  /** The nested loops of `render`: rows in order, each after the positions of those before it. */
  method BindRows(fields: seq<Field>, names: seq<string>, rows: seq<InputRow>) returns (parameters: seq<MutationParameter>, values: seq<seq<Placeholder>>)
    requires AllNamed(fields, names) && AllAssign(rows, names)
    ensures parameters == AllParameters(fields, names, rows)
    ensures values == AllPlaceholders(fields, names, |rows|)
  {
    hide RowParameters, FieldNamed, AllNamed;
    parameters, values := [], [];
    for r := 0 to |rows|
      invariant parameters == AllParameters(fields, names, rows[..r])
      invariant values == AllPlaceholders(fields, names, r)
    {
      assert rows[..r + 1][..r] == rows[..r];
      assert AllAssign([rows[r]], names) by {
        forall f | 0 <= f < |names|
          ensures names[f] in Names(rows[r])
        {
        }
      }
      var row;
      parameters, row := BindRow(fields, names, rows[r], parameters);
      values := values + [row];
    }
    assert rows[..|rows|] == rows;
  }

  function Render(m: Mutation, model: Model, w: WritableModel, names: seq<string>, updates: seq<string>): CompiledMutation
    requires AllNamed(model.fields, names) && AllNamed(model.fields, updates) && AllNamed(model.fields, w.returning)
    requires AllAssign(m.rows, names)
    requires m.operation.UpsertRows? ==> w.upsert.Some? && AllNamed(model.fields, w.upsert.value.conflictFields)
  {
    var conflict :=
      if m.operation.UpsertRows? then Some(ConflictClause(Columns(model.fields, w.upsert.value.conflictFields), Columns(model.fields, updates)))
      else None;
    var returning := Columns(model.fields, w.returning);
    CompiledMutation(
      Statement(model.source, Columns(model.fields, names), AllPlaceholders(model.fields, names, |m.rows|), conflict,
                seq(|returning|, i requires 0 <= i < |returning| => (returning[i], w.returning[i]))),
      AllParameters(model.fields, names, m.rows),
      seq(|w.returning|, i requires 0 <= i < |w.returning| => (w.returning[i], FieldNamed(model.fields, w.returning[i]).dataType)),
      names,
      set c | c in Columns(model.fields, names) + returning :: (model.source, c),
      |m.rows|,
      m.operation,
      m.model)
  }

  // ----- the compiler -----

  function CheckSnapshot(s: Snapshot, hash: Snapshot -> string): Result<(), MutationCompileError> {
    if s.schemaVersion != "1" && s.schemaVersion != "2" then Err(UnsupportedSnapshotVersion(s.schemaVersion))
    else if !RevisionHashHolds(s, hash) then Err(InvalidRevisionHash)
    else Ok(())
  }

  /** Metadata, limits and operation checks; yields the model and its write policy. */
  function WritableTarget(m: Mutation, inputBytes: nat, s: Snapshot, capabilities: MutationCapabilities,
                          options: MutationCompilerOptions, hash: Snapshot -> string): (r: Result<(Model, WritableModel), MutationCompileError>)
    ensures r.Ok? ==> WritableModelHolds(r.value.0.fields, r.value.1)
    ensures r.Ok? && m.operation.UpsertRows? ==> r.value.1.upsert.Some?
  {
    var _ :- CheckSnapshot(s, hash);
    if options.hardRowLimit == 0 || options.hardRequestByteLimit == 0 then Err(InvalidLimitConfiguration)
    else if Blank(capabilities.profile) || m.model !in capabilities.writableModels then Err(ModelNotWritable)
    else match Lookup(s.models, ModelName, m.model)
      case None => Err(ModelNotWritable)
      case Some(model) =>
        if model.writable.None? then Err(ModelNotWritable)
        else
          var w := model.writable.value;
          if !WritableModelHolds(model.fields, w)
             || w.maxRows == 0 || w.maxRows > options.hardRowLimit
             || w.maxRequestBytes == 0 || w.maxRequestBytes > options.hardRequestByteLimit
          then Err(InvalidWritableModel)
          else if |m.rows| > w.maxRows then Err(RowLimitExceeded)
          else if inputBytes > w.maxRequestBytes then Err(RequestByteLimitExceeded)
          else if (m.operation.InsertRows? && !w.insert) || (m.operation.UpsertRows? && w.upsert.None?) then Err(OperationNotEnabled)
          else Ok((model, w))
  }

  /** No lookup made while rendering an accepted mutation can miss. */
  lemma LookupsSucceed(m: Mutation, model: Model, w: WritableModel, names: seq<string>, updates: seq<string>)
    requires WritableModelHolds(model.fields, w)
    requires forall name :: name in names ==> InputAccepted(model.fields, w, m.operation, name)
    requires UpdateNames(w, m, names) == Ok(updates)
    ensures AllNamed(model.fields, names) && AllNamed(model.fields, updates) && AllNamed(model.fields, w.returning)
    ensures m.operation.UpsertRows? && w.upsert.Some? ==> AllNamed(model.fields, w.upsert.value.conflictFields)
  {
    assert forall i :: 0 <= i < |names| ==> names[i] in names;
    assert forall i :: 0 <= i < |updates| ==> updates[i] in updates && updates[i] in names;
    assert forall i :: 0 <= i < |w.returning| ==> OwnField(model.fields, w.returning[i]);
    if m.operation.UpsertRows? && w.upsert.Some? {
      var conflict := w.upsert.value.conflictFields;
      assert forall i :: 0 <= i < |conflict| ==> conflict[i] in conflict && conflict[i] in names;
    }
  }

  /** The checks that come after the target is known; every lookup `Render` makes then succeeds. */
  function CompileFor(m: Mutation, model: Model, w: WritableModel): Result<CompiledMutation, MutationCompileError>
    requires RowsAgree(m) && WritableModelHolds(model.fields, w)
    requires m.operation.UpsertRows? ==> w.upsert.Some?
  {
    var names := Names(m.rows[0]);
    var _ :- CheckInputs(model.fields, w, m, names);
    var updates :- UpdateNames(w, m, names);
    var _ :- CheckRequired(w.fields, names);
    LookupsSucceed(m, model, w, names, updates);
    Ok(Render(m, model, w, names, updates))
  }

  function CompileMutation(m: Mutation, inputBytes: nat, s: Snapshot, capabilities: MutationCapabilities,
                           options: MutationCompilerOptions, hash: Snapshot -> string): Result<CompiledMutation, MutationCompileError>
    requires RowsAgree(m)
  {
    var (model, w) :- WritableTarget(m, inputBytes, s, capabilities, options, hash);
    CompileFor(m, model, w)
  }
}
