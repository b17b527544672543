/**
 What an import holds, told by the document and the catalog alone: where every field, relationship and metric
 comes from, which documents are refused, and with which error.
 */
module OsiExact {
  import opened Prelude
  import opened Semantic
  import Catalog
  import opened Osi
  import opened OsiGrammar

  // ----- the catalog -----

  /** No later element has the key. */
  ghost predicate LastKeyed<T>(xs: seq<T>, keyOf: T -> seq<string>, key: seq<string>, i: nat) {
    i < |xs| && keyOf(xs[i]) == key && forall j :: i < j < |xs| ==> keyOf(xs[j]) != key
  }

  /** The index over a list keeps the last entry under a key. */
  lemma {:induction false} FindIsLast<T>(xs: seq<T>, keyOf: T -> seq<string>, key: seq<string>)
    ensures match Catalog.Find(xs, keyOf, key)
            case None => forall i :: 0 <= i < |xs| ==> keyOf(xs[i]) != key
            case Some(x) => exists i: nat :: LastKeyed(xs, keyOf, key, i) && xs[i] == x
  {
    if xs != [] {
      var n := |xs| - 1;
      if keyOf(xs[n]) == key {
        assert LastKeyed(xs, keyOf, key, n);
      } else {
        FindIsLast(xs[..n], keyOf, key);
        if Catalog.Find(xs, keyOf, key).Some? {
          var i: nat :| LastKeyed(xs[..n], keyOf, key, i) && xs[..n][i] == Catalog.Find(xs, keyOf, key).value;
          forall j | i < j < |xs|
            ensures keyOf(xs[j]) != key
          {
            if j < n {
              assert xs[..n][j] == xs[j];
            }
          }
          assert LastKeyed(xs, keyOf, key, i);
        }
      }
    }
  }

  ghost function ColumnOf(relation: Catalog.Relation, name: string): Option<Catalog.Column> {
    Catalog.Find(relation.columns, Catalog.ColumnKey, [name])
  }

  ghost function RelationOf(catalog: Catalog.Snapshot, source: Relation): Option<Catalog.Relation> {
    Catalog.Find(catalog.relations, Catalog.RelationKey, [source.schema, source.relation])
  }

  ghost predicate Selectable(relation: Catalog.Relation) {
    relation.grants.schemaUsage && (relation.grants.tableSelect || relation.grants.anyColumnSelect)
  }

  /** Constraints that hold for all rows at all times. */
  ghost predicate Reliable(c: Catalog.Constraint) {
    c.enforced && c.validated && !c.period
  }

  ghost predicate FirstPrimaryKey(cs: seq<Catalog.Constraint>, i: nat) {
    && i < |cs| && cs[i].kind.PrimaryKey? && Reliable(cs[i])
    && forall j :: 0 <= j < i ==> !(cs[j].kind.PrimaryKey? && Reliable(cs[j]))
  }

  /** The columns of the first reliable primary key, or none. */
  ghost predicate PrimaryKeyIs(cs: seq<Catalog.Constraint>, key: seq<string>) {
    || (exists i: nat :: FirstPrimaryKey(cs, i) && cs[i].columns == key)
    || (key == [] && forall i: nat :: !FirstPrimaryKey(cs, i))
  }

  lemma {:induction false} PrimaryKeyExactly(cs: seq<Catalog.Constraint>)
    ensures PrimaryKeyIs(cs, CatalogPrimaryKey(cs))
  {
    if cs != [] {
      if cs[0].kind.PrimaryKey? && Reliable(cs[0]) {
        assert FirstPrimaryKey(cs, 0);
      } else {
        PrimaryKeyExactly(cs[1..]);
        forall i: nat
          ensures FirstPrimaryKey(cs, i + 1) <==> FirstPrimaryKey(cs[1..], i)
        {
          assert i < |cs[1..]| ==> cs[1..][i] == cs[i + 1];
          assert forall j :: 0 < j <= i && j < |cs| ==> cs[j] == cs[1..][j - 1];
        }
        if i: nat :| FirstPrimaryKey(cs[1..], i) && cs[1..][i].columns == CatalogPrimaryKey(cs) {
          assert FirstPrimaryKey(cs, i + 1);
        }
        forall i: nat | FirstPrimaryKey(cs, i)
          ensures i > 0 && FirstPrimaryKey(cs[1..], i - 1)
        {
          assert i > 0 ==> (FirstPrimaryKey(cs, (i - 1) + 1) <==> FirstPrimaryKey(cs[1..], i - 1));
        }
      }
    }
  }

  lemma OnePrimaryKey(cs: seq<Catalog.Constraint>, a: seq<string>, b: seq<string>)
    requires PrimaryKeyIs(cs, a) && PrimaryKeyIs(cs, b)
    ensures a == b
  {
  }

  ghost predicate States(c: Catalog.Constraint, k: KeyFact) {
    && c.kind.ForeignKey? && Reliable(c) && c.columns == k.columns
    && c.referencedSchema == k.target.schema && c.referencedName == k.target.relation && c.referencedColumns == k.referenced
  }

  /** A reliable foreign key of the relation. */
  ghost predicate ForeignKey(cs: seq<Catalog.Constraint>, k: KeyFact) {
    exists i :: 0 <= i < |cs| && States(cs[i], k)
  }

  lemma {:induction false} ForeignKeysExactly(cs: seq<Catalog.Constraint>, k: KeyFact)
    ensures k in CatalogForeignKeys(cs) <==> ForeignKey(cs, k)
  {
    if cs != [] {
      ForeignKeysExactly(cs[1..], k);
      if i :| 0 < i < |cs| && States(cs[i], k) {
        assert cs[1..][i - 1] == cs[i];
      }
      if i :| 0 <= i < |cs[1..]| && States(cs[1..][i], k) {
        assert cs[i + 1] == cs[1..][i];
      }
    }
  }

  // ----- lists of named things -----

  ghost predicate NewName<T>(xs: seq<T>, nameOf: T -> string, i: nat)
    requires i < |xs|
  {
    forall j :: 0 <= j < i ==> nameOf(xs[j]) != nameOf(xs[i])
  }

  /** Under a portable name not used before, with something to become. */
  ghost predicate Accepted<T, U(!new)>(xs: seq<T>, i: nat, nameOf: T -> string, from: (T, U) -> bool)
    requires i < |xs|
  {
    Portable(nameOf(xs[i])) && NewName(xs, nameOf, i) && exists u :: from(xs[i], u)
  }

  /** One for each, in order. */
  ghost predicate AllFrom<T, U(!new)>(xs: seq<T>, nameOf: T -> string, from: (T, U) -> bool, ys: seq<U>) {
    |ys| == |xs| && forall i: nat :: i < |xs| ==> Portable(nameOf(xs[i])) && NewName(xs, nameOf, i) && from(xs[i], ys[i])
  }

  /** The error at the first one that is not accepted. */
  ghost predicate StopsAt<T, U(!new)>(xs: seq<T>, i: nat, nameOf: T -> string, kind: string, from: (T, U) -> bool, refused: (T, OsiError) -> bool, e: OsiError) {
    && i < |xs| && (forall j: nat :: j < i ==> Accepted(xs, j, nameOf, from)) && !Accepted(xs, i, nameOf, from)
    && if !Portable(nameOf(xs[i])) then e == InvalidIdentifier(nameOf(xs[i]))
       else if !NewName(xs, nameOf, i) then e == DuplicateName(kind, nameOf(xs[i]))
       else refused(xs[i], e)
  }

  ghost predicate Stops<T, U(!new)>(xs: seq<T>, nameOf: T -> string, kind: string, from: (T, U) -> bool, refused: (T, OsiError) -> bool, e: OsiError) {
    exists i: nat :: StopsAt(xs, i, nameOf, kind, from, refused, e)
  }

  lemma NewPrefix<T>(xs: seq<T>, n: nat, i: nat, nameOf: T -> string)
    requires i < n <= |xs|
    ensures xs[..n][i] == xs[i] && (NewName(xs[..n], nameOf, i) <==> NewName(xs, nameOf, i))
  {
    assert xs[..n][i] == xs[i] && forall j :: 0 <= j < i ==> xs[..n][j] == xs[j];
  }

  lemma StopsPrefix<T, U(!new)>(xs: seq<T>, n: nat, nameOf: T -> string, kind: string, from: (T, U) -> bool, refused: (T, OsiError) -> bool, e: OsiError)
    requires n <= |xs| && Stops(xs[..n], nameOf, kind, from, refused, e)
    ensures Stops(xs, nameOf, kind, from, refused, e)
  {
    hide Portable, NewName;
    var i: nat :| StopsAt(xs[..n], i, nameOf, kind, from, refused, e);
    forall j: nat | j <= i
      ensures xs[..n][j] == xs[j] && (Accepted(xs[..n], j, nameOf, from) <==> Accepted(xs, j, nameOf, from))
    {
      NewPrefix(xs, n, j, nameOf);
    }
    NewPrefix(xs, n, i, nameOf);
    assert StopsAt(xs, i, nameOf, kind, from, refused, e);
  }

  /** What stops leaves nothing to become. */
  lemma StopsNone<T, U(!new)>(xs: seq<T>, nameOf: T -> string, kind: string, from: (T, U) -> bool, refused: (T, OsiError) -> bool, e: OsiError, ys: seq<U>)
    requires Stops(xs, nameOf, kind, from, refused, e)
    ensures !AllFrom(xs, nameOf, from, ys)
  {
    var i: nat :| StopsAt(xs, i, nameOf, kind, from, refused, e);
  }

  /** One round of the importer: the name is checked, then the thing is made. */
  ghost function Round<T, U>(before: seq<U>, outName: U -> string, x: T, nameOf: T -> string, kind: string, made: Result<U, OsiError>): Result<seq<U>, OsiError> {
    if !Portable(nameOf(x)) then Err(InvalidIdentifier(nameOf(x)))
    else if Lookup(before, outName, nameOf(x)).Some? then Err(DuplicateName(kind, nameOf(x)))
    else
      var u :- made;
      Ok(before + [u])
  }

  lemma TakenBefore<T, U(!new)>(xs: seq<T>, nameOf: T -> string, from: (T, U) -> bool, before: seq<U>, outName: U -> string)
    requires xs != [] && AllFrom(xs[..|xs| - 1], nameOf, from, before)
    requires forall x, u :: from(x, u) ==> outName(u) == nameOf(x)
    ensures Lookup(before, outName, nameOf(xs[|xs| - 1])).None? <==> NewName(xs, nameOf, |xs| - 1)
  {
    hide Portable;
    var n := |xs| - 1;
    forall j | 0 <= j < n
      ensures outName(before[j]) == nameOf(xs[j]) && before[j] in before
    {
      assert from(xs[..n][j], before[j]);
    }
    var found := Lookup(before, outName, nameOf(xs[n]));
    if found.Some? {
      var j :| 0 <= j < n && before[j] == found.value;
      assert nameOf(xs[j]) == nameOf(xs[n]);
    }
  }

  lemma AllLonger<T, U(!new)>(xs: seq<T>, nameOf: T -> string, from: (T, U) -> bool, before: seq<U>, u: U)
    requires xs != [] && AllFrom(xs[..|xs| - 1], nameOf, from, before)
    requires Portable(nameOf(xs[|xs| - 1])) && NewName(xs, nameOf, |xs| - 1) && from(xs[|xs| - 1], u)
    ensures AllFrom(xs, nameOf, from, before + [u])
  {
    hide Portable, NewName;
    var n := |xs| - 1;
    forall i: nat | i < |xs|
      ensures Portable(nameOf(xs[i])) && NewName(xs, nameOf, i) && from(xs[i], (before + [u])[i])
    {
      if i < n {
        NewPrefix(xs, n, i, nameOf);
      }
    }
  }

  lemma RoundExactly<T, U(!new)>(xs: seq<T>, nameOf: T -> string, kind: string, from: (T, U) -> bool, refused: (T, OsiError) -> bool, before: seq<U>, outName: U -> string, last: T, made: Result<U, OsiError>)
    requires xs != [] && AllFrom(xs[..|xs| - 1], nameOf, from, before) && last == xs[|xs| - 1]
    requires forall x, u :: from(x, u) ==> outName(u) == nameOf(x)
    requires made.Ok? ==> from(last, made.value)
    requires made.Err? ==> refused(last, made.error) && forall u :: !from(last, u)
    ensures var r := Round(before, outName, last, nameOf, kind, made);
      && (r.Ok? ==> AllFrom(xs, nameOf, from, r.value))
      && (r.Err? ==> Stops(xs, nameOf, kind, from, refused, r.error))
  {
    hide Portable, NewName;
    var n := |xs| - 1;
    TakenBefore(xs, nameOf, from, before, outName);
    var r := Round(before, outName, xs[n], nameOf, kind, made);
    if r.Ok? {
      AllLonger(xs, nameOf, from, before, made.value);
    } else {
      forall j: nat | j < n
        ensures Accepted(xs, j, nameOf, from)
      {
        NewPrefix(xs, n, j, nameOf);
        assert from(xs[..n][j], before[j]);
      }
      assert StopsAt(xs, n, nameOf, kind, from, refused, r.error);
    }
  }

  // ----- own fields -----

  type Types = string -> Option<DataType>

  /** One ANSI expression. */
  ghost predicate Ansi(e: OsiExpression, text: string) {
    e.dialects == [(AnsiSql, text)]
  }

  /** The expression names a column, with nothing around it but blanks. */
  ghost predicate NamesColumn(e: OsiExpression, column: string) {
    Portable(column) && exists text :: Ansi(e, text) && Around(text, column)
  }

  /** What a field of a dataset becomes. */
  ghost predicate FieldFrom(o: OsiField, relation: Catalog.Relation, key: seq<string>, types: Types, f: Field) {
    && !o.extended && NamesColumn(o.expression, f.column)
    && f.semanticName == o.name && f.relationship == None && f.visible
    && var column := ColumnOf(relation, f.column);
    && column.Some? && column.value.selectGrant
    && types(column.value.dataType) == Some(f.dataType) && f.nullable == column.value.nullable
    && f.timeDimension == (o.isTime == Some(true)) && (f.timeDimension ==> f.dataType == DateType || f.dataType == TimestampType)
    && f.entityKey == (f.column in key)
  }

  ghost function ColumnError(relation: Catalog.Relation, types: Types, name: string): OsiError {
    match ColumnOf(relation, name)
    case None => ColumnNotAvailable
    case Some(column) =>
      if !column.selectGrant then ColumnNotAvailable
      else if types(column.dataType).None? then UnsupportedPostgresType(LowerText(column.dataType))
      else InvalidTimeDimension
  }

  /** Why a field is refused. */
  ghost predicate FieldRefused(o: OsiField, relation: Catalog.Relation, types: Types, e: OsiError) {
    if o.extended then e == UnsupportedExtension
    else if forall name :: !NamesColumn(o.expression, name) then e == UnsupportedExpression
    else exists name :: NamesColumn(o.expression, name) && e == ColumnError(relation, types, name)
  }

  lemma ColumnNamed(e: OsiExpression, column: string)
    ensures NamesColumn(e, column) <==> AnsiText(e).Some? && Portable(column) && Trim(AnsiText(e).value) == column
  {
    hide Portable, Trim, Around;
    if AnsiText(e).Some? {
      assert Ansi(e, AnsiText(e).value);
    }
    if Portable(column) && AnsiText(e).Some? {
      ColumnExactly(AnsiText(e).value, column);
    }
  }

  lemma FieldExactly(o: OsiField, relation: Catalog.Relation, key: seq<string>, types: Types, f: Field)
    ensures var r := ImportField(o, relation.columns, key, types);
      && (r == Ok(f) <==> FieldFrom(o, relation, key, types, f))
      && (r.Err? ==> FieldRefused(o, relation, types, r.error))
  {
    hide Portable, Trim, NamesColumn;
    ColumnNamed(o.expression, f.column);
    if AnsiText(o.expression).Some? {
      ColumnNamed(o.expression, Trim(AnsiText(o.expression).value));
    }
    if AnsiText(o.expression).None? || !Portable(Trim(AnsiText(o.expression).value)) {
      forall column
        ensures !NamesColumn(o.expression, column)
      {
        ColumnNamed(o.expression, column);
      }
    }
  }

  function OsiFieldName(f: OsiField): string { f.name }

  ghost function FieldMaker(relation: Catalog.Relation, key: seq<string>, types: Types): (OsiField, Field) -> bool {
    (o: OsiField, f: Field) => FieldFrom(o, relation, key, types, f)
  }

  ghost function FieldRefuser(relation: Catalog.Relation, types: Types): (OsiField, OsiError) -> bool {
    (o: OsiField, e: OsiError) => FieldRefused(o, relation, types, e)
  }

  /** The fields of a dataset, each under its own name. */
  ghost predicate FieldsFrom(fs: seq<OsiField>, relation: Catalog.Relation, key: seq<string>, types: Types, own: seq<Field>) {
    AllFrom(fs, OsiFieldName, FieldMaker(relation, key, types), own)
  }

  ghost predicate FieldsRefused(fs: seq<OsiField>, relation: Catalog.Relation, key: seq<string>, types: Types, e: OsiError) {
    Stops(fs, OsiFieldName, "field", FieldMaker(relation, key, types), FieldRefuser(relation, types), e)
  }

  lemma FieldMade(o: OsiField, relation: Catalog.Relation, key: seq<string>, types: Types)
    ensures var made := ImportField(o, relation.columns, key, types);
      && (made.Ok? ==> FieldFrom(o, relation, key, types, made.value))
      && (made.Err? ==> FieldRefused(o, relation, types, made.error) && forall f :: !FieldFrom(o, relation, key, types, f))
  {
    hide ImportField, FieldFrom, FieldRefused;
    var made := ImportField(o, relation.columns, key, types);
    if made.Ok? {
      FieldExactly(o, relation, key, types, made.value);
    } else {
      FieldExactly(o, relation, key, types, Field("", TextType, "", None, false, false, false, false));
      forall f
        ensures !FieldFrom(o, relation, key, types, f)
      {
        FieldExactly(o, relation, key, types, f);
      }
    }
  }

  lemma FieldsRound(fs: seq<OsiField>, relation: Catalog.Relation, key: seq<string>, types: Types, before: seq<Field>)
    requires fs != [] && ImportFields(fs[..|fs| - 1], relation.columns, key, types) == Ok(before)
    ensures ImportFields(fs, relation.columns, key, types) == Round(before, FieldName, fs[|fs| - 1], OsiFieldName, "field", ImportField(fs[|fs| - 1], relation.columns, key, types))
  {
    hide ImportField, Portable;
  }

  lemma {:induction false} FieldsExactly(fs: seq<OsiField>, relation: Catalog.Relation, key: seq<string>, types: Types)
    ensures var r := ImportFields(fs, relation.columns, key, types);
      && (r.Ok? ==> FieldsFrom(fs, relation, key, types, r.value))
      && (r.Err? ==> FieldsRefused(fs, relation, key, types, r.error))
  {
    hide ImportField, FieldRefused, Stops, Round;
    if fs != [] {
      var n := |fs| - 1;
      FieldsExactly(fs[..n], relation, key, types);
      var before := ImportFields(fs[..n], relation.columns, key, types);
      if before.Err? {
        StopsPrefix(fs, n, OsiFieldName, "field", FieldMaker(relation, key, types), FieldRefuser(relation, types), before.error);
      } else {
        FieldsRound(fs, relation, key, types, before.value);
        FieldMade(fs[n], relation, key, types);
        RoundExactly(fs, OsiFieldName, "field", FieldMaker(relation, key, types), FieldRefuser(relation, types), before.value, FieldName, fs[n], ImportField(fs[n], relation.columns, key, types));
      }
    }
  }

  /** Only one list of fields comes from a dataset. */
  lemma FieldsAreImported(fs: seq<OsiField>, relation: Catalog.Relation, key: seq<string>, types: Types, own: seq<Field>)
    requires FieldsFrom(fs, relation, key, types, own)
    ensures ImportFields(fs, relation.columns, key, types) == Ok(own)
  {
    hide ImportFields, ImportField, FieldFrom, FieldRefused, Stops;
    FieldsExactly(fs, relation, key, types);
    var r := ImportFields(fs, relation.columns, key, types);
    if r.Err? {
      StopsNone(fs, OsiFieldName, "field", FieldMaker(relation, key, types), FieldRefuser(relation, types), r.error, own);
    } else {
      forall i: nat | i < |fs|
        ensures r.value[i] == own[i]
      {
        FieldExactly(fs[i], relation, key, types, own[i]);
        FieldExactly(fs[i], relation, key, types, r.value[i]);
      }
      assert r.value == own;
    }
  }

  // ----- datasets -----

  /** What a dataset brings by itself. */
  datatype Owned = Owned(name: string, source: Relation, fields: seq<Field>)

  ghost predicate KeyFits(stated: seq<string>, key: seq<string>) {
    |key| <= 1 && (stated == [] || stated == key)
  }

  ghost predicate KeyShown(key: seq<string>, fields: seq<Field>) {
    forall k :: k in key ==> exists f :: f in fields && f.column == k
  }

  ghost predicate OwnedUnder(d: OsiDataset, relation: Catalog.Relation, key: seq<string>, types: Types, fields: seq<Field>) {
    PrimaryKeyIs(relation.constraints, key) && KeyFits(d.primaryKey, key) && FieldsFrom(d.fields, relation, key, types, fields) && KeyShown(key, fields)
  }

  ghost predicate DatasetFrom(d: OsiDataset, catalog: Catalog.Snapshot, types: Types, o: Owned) {
    && !d.extended && d.uniqueKeys == [] && o.name == d.name && SourceIs(d.source, catalog.currentDatabase, o.source)
    && var relation := RelationOf(catalog, o.source);
    relation.Some? && Selectable(relation.value) && exists key :: OwnedUnder(d, relation.value, key, types, o.fields)
  }

  ghost predicate KeyRefused(d: OsiDataset, relation: Catalog.Relation, key: seq<string>, types: Types, e: OsiError) {
    && PrimaryKeyIs(relation.constraints, key)
    && if d.primaryKey != [] && d.primaryKey != key then e == PrimaryKeyMismatch
       else if |key| > 1 then e == CompositePrimaryKey
       else if exists own :: FieldsFrom(d.fields, relation, key, types, own) then e == PrimaryKeyMismatch
       else FieldsRefused(d.fields, relation, key, types, e)
  }

  ghost predicate RelationRefused(d: OsiDataset, relation: Option<Catalog.Relation>, types: Types, e: OsiError) {
    if relation.None? then e == RelationNotFound
    else if !Selectable(relation.value) then e == RelationNotSelectable
    else exists key :: KeyRefused(d, relation.value, key, types, e)
  }

  /** Why a dataset is refused. */
  ghost predicate DatasetRefused(d: OsiDataset, catalog: Catalog.Snapshot, types: Types, e: OsiError) {
    if d.extended then e == UnsupportedExtension
    else if d.uniqueKeys != [] then e == UnsupportedUniqueKeys
    else if forall source :: !SourceIs(d.source, catalog.currentDatabase, source) then
      e == if Elsewhere(d.source, catalog.currentDatabase) then DatabaseMismatch else InvalidSource
    else exists source :: SourceIs(d.source, catalog.currentDatabase, source) && RelationRefused(d, RelationOf(catalog, source), types, e)
  }

  ghost function OwnedOf(b: Imported): Owned {
    Owned(b.name, b.source, b.fields)
  }

  lemma KeyIsShown(key: seq<string>, relation: Catalog.Relation, fs: seq<OsiField>, types: Types, own: seq<Field>)
    requires |key| <= 1 && FieldsFrom(fs, relation, key, types, own)
    ensures KeyShown(key, own) <==> (|key| == 1 ==> KeyCovered(own, key[0]))
  {
    forall i | 0 <= i < |own|
      ensures own[i].entityKey == (own[i].column in key) && own[i] in own
    {
      assert FieldMaker(relation, key, types)(fs[i], own[i]);
    }
    if |key| == 1 {
      assert key == [key[0]];
      if KeyShown(key, own) {
        assert key[0] in key;
        var f :| f in own && f.column == key[0];
        var i :| 0 <= i < |own| && own[i] == f;
      }
    }
  }

  /** What the importer does once it has found the relation. */
  ghost function FieldsUnder(d: OsiDataset, relation: Catalog.Relation, types: Types): Result<seq<Field>, OsiError> {
    var known := CatalogPrimaryKey(relation.constraints);
    if d.primaryKey != [] && d.primaryKey != known then Err(PrimaryKeyMismatch)
    else if |known| > 1 then Err(CompositePrimaryKey)
    else
      var fields :- ImportFields(d.fields, relation.columns, known, types);
      if |known| == 1 && !KeyCovered(fields, known[0]) then Err(PrimaryKeyMismatch) else Ok(fields)
  }

  lemma ImportsInSteps(d: OsiDataset, catalog: Catalog.Snapshot, types: Types)
    ensures ImportDataset(d, catalog, types) ==
      if d.extended then Err(UnsupportedExtension) else if d.uniqueKeys != [] then Err(UnsupportedUniqueKeys)
      else match ParseSource(d.source, catalog.currentDatabase)
        case Err(e) => Err(e)
        case Ok(source) =>
          match RelationOf(catalog, source)
          case None => Err(RelationNotFound)
          case Some(relation) =>
            if !Selectable(relation) then Err(RelationNotSelectable)
            else match FieldsUnder(d, relation, types)
              case Err(e) => Err(e)
              case Ok(fields) => Ok(Imported(d.name, source, fields, CatalogForeignKeys(relation.constraints)))
  {
    hide ImportFields, ParseSource, KeyCovered, CatalogPrimaryKey, CatalogForeignKeys;
  }

  lemma FieldsUnderExactly(d: OsiDataset, relation: Catalog.Relation, types: Types)
    ensures var r := FieldsUnder(d, relation, types);
      && (r.Ok? ==> exists key :: OwnedUnder(d, relation, key, types, r.value))
      && (r.Err? ==> exists key :: KeyRefused(d, relation, key, types, r.error))
  {
    hide ImportFields, FieldsFrom, FieldsRefused, KeyShown, KeyCovered, PrimaryKeyIs;
    var known := CatalogPrimaryKey(relation.constraints);
    PrimaryKeyExactly(relation.constraints);
    FieldsExactly(d.fields, relation, known, types);
    var fields := ImportFields(d.fields, relation.columns, known, types);
    if |known| <= 1 {
      if fields.Ok? {
        KeyIsShown(known, relation, d.fields, types, fields.value);
      } else {
        forall own
          ensures !FieldsFrom(d.fields, relation, known, types, own)
        {
          if FieldsFrom(d.fields, relation, known, types, own) {
            FieldsAreImported(d.fields, relation, known, types, own);
          }
        }
      }
    }
    var r := FieldsUnder(d, relation, types);
    if r.Err? {
      assert KeyRefused(d, relation, known, types, r.error);
    } else {
      assert OwnedUnder(d, relation, known, types, r.value);
    }
  }

  lemma OwnedIsImported(d: OsiDataset, relation: Catalog.Relation, key: seq<string>, types: Types, fields: seq<Field>)
    requires OwnedUnder(d, relation, key, types, fields)
    ensures FieldsUnder(d, relation, types) == Ok(fields)
  {
    hide ImportFields, FieldsFrom, KeyShown, KeyCovered, PrimaryKeyIs;
    PrimaryKeyExactly(relation.constraints);
    OnePrimaryKey(relation.constraints, key, CatalogPrimaryKey(relation.constraints));
    FieldsAreImported(d.fields, relation, key, types, fields);
    KeyIsShown(key, relation, d.fields, types, fields);
  }

  /** A dataset brings exactly what the document and the catalog say, or is refused. */
  lemma DatasetExactly(d: OsiDataset, catalog: Catalog.Snapshot, types: Types, o: Owned)
    ensures var r := ImportDataset(d, catalog, types);
      && (r.Ok? && OwnedOf(r.value) == o <==> DatasetFrom(d, catalog, types, o))
      && (r.Err? ==> DatasetRefused(d, catalog, types, r.error))
      && (r.Ok? ==> RelationOf(catalog, r.value.source).Some? && r.value.foreignKeys == CatalogForeignKeys(RelationOf(catalog, r.value.source).value.constraints))
  {
    hide ParseSource, ImportDataset, FieldsUnder, RelationOf, SourceIs, Elsewhere, OwnedUnder, KeyRefused, Selectable;
    ImportsInSteps(d, catalog, types);
    var source := ParseSource(d.source, catalog.currentDatabase);
    SourceExactly(d.source, catalog.currentDatabase, o.source);
    if source.Ok? {
      SourceExactly(d.source, catalog.currentDatabase, source.value);
      var relation := RelationOf(catalog, source.value);
      if relation.Some? {
        FieldsUnderExactly(d, relation.value, types);
        if key :| OwnedUnder(d, relation.value, key, types, o.fields) {
          OwnedIsImported(d, relation.value, key, types, o.fields);
        }
      }
    } else {
      forall r
        ensures !SourceIs(d.source, catalog.currentDatabase, r)
      {
        SourceExactly(d.source, catalog.currentDatabase, r);
      }
    }
  }

  function OsiDatasetName(d: OsiDataset): string { d.name }

  function OwnedName(o: Owned): string { o.name }

  ghost function DatasetMaker(catalog: Catalog.Snapshot, types: Types): (OsiDataset, Owned) -> bool {
    (d: OsiDataset, o: Owned) => DatasetFrom(d, catalog, types, o)
  }

  ghost function DatasetRefuser(catalog: Catalog.Snapshot, types: Types): (OsiDataset, OsiError) -> bool {
    (d: OsiDataset, e: OsiError) => DatasetRefused(d, catalog, types, e)
  }

  /** What the datasets bring, each under its own name. */
  ghost predicate DatasetsFrom(ds: seq<OsiDataset>, catalog: Catalog.Snapshot, types: Types, os: seq<Owned>) {
    AllFrom(ds, OsiDatasetName, DatasetMaker(catalog, types), os)
  }

  ghost predicate DatasetsRefused(ds: seq<OsiDataset>, catalog: Catalog.Snapshot, types: Types, e: OsiError) {
    Stops(ds, OsiDatasetName, "dataset", DatasetMaker(catalog, types), DatasetRefuser(catalog, types), e)
  }

  ghost function AllOwned(bases: seq<Imported>): (os: seq<Owned>)
    ensures |os| == |bases| && forall i :: 0 <= i < |bases| ==> os[i] == OwnedOf(bases[i])
  {
    seq(|bases|, i requires 0 <= i < |bases| => OwnedOf(bases[i]))
  }

  ghost function OwnedResult(r: Result<Imported, OsiError>): Result<Owned, OsiError> {
    if r.Ok? then Ok(OwnedOf(r.value)) else Err(r.error)
  }

  lemma {:induction false} OwnedLookup(bases: seq<Imported>, name: string)
    ensures var b, o := Lookup(bases, ImportedName, name), Lookup(AllOwned(bases), OwnedName, name);
      (b.Some? <==> o.Some?) && (b.Some? ==> o.value == OwnedOf(b.value))
  {
    if bases != [] {
      OwnedLookup(bases[1..], name);
      assert AllOwned(bases)[1..] == AllOwned(bases[1..]);
    }
  }

  lemma DatasetMade(d: OsiDataset, catalog: Catalog.Snapshot, types: Types)
    ensures var made := OwnedResult(ImportDataset(d, catalog, types));
      && (made.Ok? ==> DatasetFrom(d, catalog, types, made.value))
      && (made.Err? ==> DatasetRefused(d, catalog, types, made.error) && forall o :: !DatasetFrom(d, catalog, types, o))
  {
    hide ImportDataset, DatasetFrom, DatasetRefused, RelationOf;
    var made := ImportDataset(d, catalog, types);
    if made.Ok? {
      DatasetExactly(d, catalog, types, OwnedOf(made.value));
    } else {
      DatasetExactly(d, catalog, types, Owned("", Relation("", ""), []));
      forall o
        ensures !DatasetFrom(d, catalog, types, o)
      {
        DatasetExactly(d, catalog, types, o);
      }
    }
  }

  lemma DatasetsRound(ds: seq<OsiDataset>, catalog: Catalog.Snapshot, types: Types, before: seq<Imported>)
    requires ds != [] && ImportDatasets(ds[..|ds| - 1], catalog, types) == Ok(before)
    ensures var r := ImportDatasets(ds, catalog, types);
      (if r.Ok? then Ok(AllOwned(r.value)) else Err(r.error))
      == Round(AllOwned(before), OwnedName, ds[|ds| - 1], OsiDatasetName, "dataset", OwnedResult(ImportDataset(ds[|ds| - 1], catalog, types)))
  {
    hide ImportDataset, Portable;
    OwnedLookup(before, ds[|ds| - 1].name);
    var r := ImportDatasets(ds, catalog, types);
    if r.Ok? {
      assert AllOwned(r.value) == AllOwned(before) + [OwnedOf(r.value[|before|])];
    }
  }

  lemma {:induction false} DatasetsExactly(ds: seq<OsiDataset>, catalog: Catalog.Snapshot, types: Types)
    ensures var r := ImportDatasets(ds, catalog, types);
      && (r.Ok? ==> DatasetsFrom(ds, catalog, types, AllOwned(r.value)))
      && (r.Err? ==> DatasetsRefused(ds, catalog, types, r.error))
  {
    hide ImportDataset, DatasetRefused, Stops, Round;
    if ds != [] {
      var n := |ds| - 1;
      DatasetsExactly(ds[..n], catalog, types);
      var before := ImportDatasets(ds[..n], catalog, types);
      if before.Err? {
        StopsPrefix(ds, n, OsiDatasetName, "dataset", DatasetMaker(catalog, types), DatasetRefuser(catalog, types), before.error);
      } else {
        DatasetsRound(ds, catalog, types, before.value);
        DatasetMade(ds[n], catalog, types);
        RoundExactly(ds, OsiDatasetName, "dataset", DatasetMaker(catalog, types), DatasetRefuser(catalog, types), AllOwned(before.value), OwnedName, ds[n], OwnedResult(ImportDataset(ds[n], catalog, types)));
      }
    }
  }

  /** Only one list comes from the datasets. */
  lemma DatasetsAreImported(ds: seq<OsiDataset>, catalog: Catalog.Snapshot, types: Types, os: seq<Owned>)
    requires DatasetsFrom(ds, catalog, types, os)
    ensures ImportDatasets(ds, catalog, types).Ok? && AllOwned(ImportDatasets(ds, catalog, types).value) == os
  {
    hide ImportDatasets, ImportDataset, DatasetFrom, DatasetRefused, Stops, RelationOf;
    DatasetsExactly(ds, catalog, types);
    var r := ImportDatasets(ds, catalog, types);
    if r.Err? {
      StopsNone(ds, OsiDatasetName, "dataset", DatasetMaker(catalog, types), DatasetRefuser(catalog, types), r.error, os);
    } else {
      forall i: nat | i < |ds|
        ensures AllOwned(r.value)[i] == os[i]
      {
        assert DatasetMaker(catalog, types)(ds[i], os[i]) && DatasetMaker(catalog, types)(ds[i], AllOwned(r.value)[i]);
        DatasetExactly(ds[i], catalog, types, os[i]);
        DatasetExactly(ds[i], catalog, types, AllOwned(r.value)[i]);
      }
    }
  }

  /** The foreign keys known of a dataset are those of its relation. */
  ghost predicate KeysKnown(catalog: Catalog.Snapshot, b: Imported) {
    RelationOf(catalog, b.source).Some? && b.foreignKeys == CatalogForeignKeys(RelationOf(catalog, b.source).value.constraints)
  }

  lemma {:induction false} AllKeysKnown(ds: seq<OsiDataset>, catalog: Catalog.Snapshot, types: Types)
    requires ImportDatasets(ds, catalog, types).Ok?
    ensures forall b :: b in ImportDatasets(ds, catalog, types).value ==> KeysKnown(catalog, b)
  {
    hide ImportDataset, DatasetFrom, DatasetRefused, RelationOf, Portable;
    if ds != [] {
      var n := |ds| - 1;
      AllKeysKnown(ds[..n], catalog, types);
      DatasetExactly(ds[n], catalog, types, Owned("", Relation("", ""), []));
    }
  }
}
