/** Export undoes import: whatever was imported can be exported, and importing that gives the same snapshot. */
module OsiProofs {
  import opened Prelude
  import opened Order
  import opened Semantic
  import Catalog
  import DiffProofs
  import opened Osi

  // ----- metric expressions -----

  lemma TrimKeeps(s: string)
    requires s != "" && !IsWhitespace(s[0]) && !IsWhitespace(s[|s| - 1])
    ensures Trim(s) == s
  {
  }

  lemma PortableEnds(s: string)
    requires Portable(s)
    ensures !IsWhitespace(s[0]) && !IsWhitespace(s[|s| - 1])
    ensures forall i :: 0 <= i < |s| ==> s[i] != '.' && s[i] != '('
  {
    assert LetterOrDigit(s[|s| - 1]) && LetterOrDigit(s[0]);
  }

  lemma PortableTrims(s: string)
    requires Portable(s)
    ensures Trim(s) == s
  {
    PortableEnds(s);
    TrimKeeps(s);
  }

  lemma FirstAfter(a: string, c: char, rest: string)
    requires forall i :: 0 <= i < |a| ==> a[i] != c
    ensures FirstOf(a + [c] + rest, c) == Some(|a|)
    ensures (a + [c] + rest)[..|a|] == a && (a + [c] + rest)[|a| + 1..] == rest
  {
    var s := a + [c] + rest;
    assert s[|a|] == c;
    assert forall i :: 0 <= i < |a| ==> s[i] == a[i];
  }

  lemma ParsesArgument(function_: string, dataset: string, field: string, distinct: bool)
    requires Portable(dataset) && Portable(field)
    ensures ParseArgument(function_, dataset + "." + field, distinct)
         == match NamedAggregation(function_, distinct) case None => None case Some(a) => Some(ParsedMetric(a, dataset, field))
  {
    PortableEnds(dataset);
    FirstAfter(dataset, '.', field);
    assert dataset + "." + field == dataset + ['.'] + field;
  }

  lemma FunctionNames(a: Aggregation)
    ensures NamedAggregation(FunctionText(a), a == CountDistinct) == Some(a)
    ensures Trim(FunctionText(a)) == FunctionText(a)
    ensures forall i :: 0 <= i < |FunctionText(a)| ==> FunctionText(a)[i] != '('
    ensures FunctionText(a) != "" && !IsWhitespace(FunctionText(a)[0])
  {
    TrimKeeps(FunctionText(a));
    assert Lower('C') == 'c' && Lower('O') == 'o' && Lower('U') == 'u' && Lower('N') == 'n' && Lower('T') == 't';
    assert Lower('S') == 's' && Lower('M') == 'm' && Lower('I') == 'i' && Lower('A') == 'a' && Lower('X') == 'x' && Lower('V') == 'v' && Lower('G') == 'g';
  }

  /** An expression is taken apart at its parentheses. */
  lemma ParsesCall(function_: string, argument: string)
    requires function_ != "" && !IsWhitespace(function_[0]) && Trim(function_) == function_ && Trim(argument) == argument
    requires forall i :: 0 <= i < |function_| ==> function_[i] != '('
    ensures ParseMetric(function_ + "(" + argument + ")")
         == if !StartsDistinct(argument) then ParseArgument(function_, argument, false)
            else if |argument| == 8 || !AsciiWhitespace(argument[8]) then None
            else ParseArgument(function_, Trim(argument[8..]), true)
  {
    hide Trim, StartsDistinct, ParseArgument;
    var text := function_ + "(" + argument + ")";
    assert text[0] == function_[0] && text[|text| - 1] == ')';
    TrimKeeps(text);
    assert text == function_ + ['('] + (argument + ")");
    FirstAfter(function_, '(', argument + ")");
    assert text[|function_| + 1..|text| - 1] == argument;
  }

  lemma DistinctPrefix(argument: string)
    ensures StartsDistinct("DISTINCT " + argument) && ("DISTINCT " + argument)[8] == ' ' && ("DISTINCT " + argument)[8..] == " " + argument
  {
    var s := "DISTINCT " + argument;
    assert s[..8] == "DISTINCT";
    assert Lower('D') == 'd' && Lower('I') == 'i' && Lower('S') == 's' && Lower('T') == 't' && Lower('N') == 'n' && Lower('C') == 'c';
  }

  lemma TrimSpace(s: string)
    requires s != "" && !IsWhitespace(s[0]) && !IsWhitespace(s[|s| - 1])
    ensures Trim(" " + s) == s
  {
    assert (" " + s)[1..] == s;
    assert TrimStart(" " + s) == TrimStart(s);
  }

  lemma StartIsDatasets(dataset: string, field: string)
    requires Portable(dataset)
    ensures StartsDistinct(dataset + "." + field) <==> StartsDistinct(dataset)
  {
    var s := dataset + "." + field;
    if |dataset| >= 8 {
      assert s[..8] == dataset[..8];
    } else if |s| >= 8 {
      assert s[..8][|dataset|] == '.';
    }
  }

  lemma DistinctReadsBack(dataset: string, field: string)
    requires Portable(dataset) && Portable(field)
    ensures ParseMetric(MetricText(CountDistinct, dataset, field)) == Some(ParsedMetric(CountDistinct, dataset, field))
  {
    hide Trim, StartsDistinct, ParseArgument, ParseMetric, NamedAggregation, Portable;
    var name := dataset + "." + field;
    var argument := "DISTINCT " + name;
    FunctionNames(CountDistinct);
    PortableName(dataset, field);
    ParsesArgument("COUNT", dataset, field, true);
    DistinctPrefix(name);
    TrimSpace(name);
    assert argument[0] == 'D' && argument[|argument| - 1] == name[|name| - 1];
    TrimKeeps(argument);
    ParsesCall("COUNT", argument);
    assert MetricText(CountDistinct, dataset, field) == "COUNT" + "(" + argument + ")";
  }

  lemma PlainReadsBack(a: Aggregation, dataset: string, field: string)
    requires Portable(dataset) && Portable(field) && a != CountDistinct
    ensures ParseMetric(MetricText(a, dataset, field)) == Some(ParsedMetric(a, dataset, field)) <==> !StartsDistinct(dataset)
  {
    hide Trim, StartsDistinct, ParseArgument, ParseMetric, NamedAggregation, Portable, FunctionText;
    var name := dataset + "." + field;
    FunctionNames(a);
    PortableName(dataset, field);
    ParsesArgument(FunctionText(a), dataset, field, false);
    TrimKeeps(name);
    StartIsDatasets(dataset, field);
    ParsesCall(FunctionText(a), name);
    if StartsDistinct(dataset) {
      NinthChar(dataset, field);
    }
    assert FunctionText(a) + "(" + "" == FunctionText(a) + "(";
    assert MetricText(a, dataset, field) == FunctionText(a) + "(" + name + ")";
  }

  /**
   A printed metric expression parses to what was printed, if and only if the dataset of a metric without
   DISTINCT does not itself begin with that word.
   */
  lemma MetricReadsBack(a: Aggregation, dataset: string, field: string)
    requires Portable(dataset) && Portable(field)
    ensures ParseMetric(MetricText(a, dataset, field)) == Some(ParsedMetric(a, dataset, field))
        <==> (a != CountDistinct ==> !StartsDistinct(dataset))
  {
    hide ParseMetric, StartsDistinct;
    if a == CountDistinct {
      DistinctReadsBack(dataset, field);
    } else {
      PlainReadsBack(a, dataset, field);
    }
  }

  lemma PortableName(dataset: string, field: string)
    requires Portable(dataset) && Portable(field)
    ensures var name := dataset + "." + field; name != "" && !IsWhitespace(name[0]) && !IsWhitespace(name[|name| - 1])
  {
    PortableEnds(dataset);
    PortableEnds(field);
  }

  lemma NinthChar(dataset: string, field: string)
    requires Portable(dataset) && StartsDistinct(dataset)
    ensures var name := dataset + "." + field; |name| > 8 && !AsciiWhitespace(name[8])
  {
    if |dataset| > 8 {
      assert LetterOrDigit(dataset[8]);
    }
  }

  /** A parsed metric that is not a distinct count names a dataset that does not begin with DISTINCT. */
  lemma ParsedPlainly(text: string)
    requires ParseMetric(text).Some?
    ensures var p := ParseMetric(text).value; Portable(p.dataset) && Portable(p.field) && (p.aggregation != CountDistinct ==> !StartsDistinct(p.dataset))
  {
    hide Trim;
    var expression := Trim(text);
    var open := FirstOf(expression, '(').value;
    var argument := Trim(expression[open + 1..|expression| - 1]);
    if !StartsDistinct(argument) {
      var dot := FirstOf(argument, '.').value;
      if dot >= 8 {
        assert argument[..dot][..8] == argument[..8];
      }
    }
  }

  // ----- datasets -----

  lemma {:induction false} SplitPortable(schema: string, relation: string, database: string)
    requires Portable(schema) && Portable(relation)
    ensures ParseSource(schema + "." + relation, database) == Ok(Relation(schema, relation))
  {
    PortableEnds(schema);
    PortableEnds(relation);
    FirstAfter(schema, '.', relation);
    assert schema + "." + relation == schema + ['.'] + relation;
    assert SplitDots(relation) == [relation];
    assert SplitDots(schema + "." + relation) == [schema, relation];
  }

  /** What every imported field satisfies. */
  ghost predicate FieldSound(f: Field, columns: seq<Catalog.Column>, keys: seq<string>, typeOf: string -> Option<DataType>) {
    Portable(f.semanticName) && f.visible && f.relationship.None? && f.entityKey == (f.column in keys)
    && ImportField(ExportField(f), columns, keys, typeOf) == Ok(f)
  }

  /** Exporting a field and importing it again gives the field. */
  lemma FieldAgain(f: OsiField, columns: seq<Catalog.Column>, keys: seq<string>, typeOf: string -> Option<DataType>)
    requires Portable(f.name) && ImportField(f, columns, keys, typeOf).Ok?
    ensures FieldSound(ImportField(f, columns, keys, typeOf).value, columns, keys, typeOf)
  {
    PortableTrims(Trim(AnsiText(f.expression).value));
    hide Trim;
  }

  ghost predicate FieldsSound(fs: seq<Field>, columns: seq<Catalog.Column>, keys: seq<string>, typeOf: string -> Option<DataType>) {
    UniqueNames(fs, FieldName) && forall i :: 0 <= i < |fs| ==> FieldSound(fs[i], columns, keys, typeOf)
  }

  lemma {:induction false} ImportedFieldsSound(fs: seq<OsiField>, columns: seq<Catalog.Column>, keys: seq<string>, typeOf: string -> Option<DataType>)
    requires ImportFields(fs, columns, keys, typeOf).Ok?
    ensures FieldsSound(ImportFields(fs, columns, keys, typeOf).value, columns, keys, typeOf)
  {
    hide ImportField, Portable, FieldSound;
    if fs != [] {
      var before, f := fs[..|fs| - 1], fs[|fs| - 1];
      ImportedFieldsSound(before, columns, keys, typeOf);
      FieldAgain(f, columns, keys, typeOf);
      ImportedName'(f, columns, keys, typeOf);
      var fields := ImportFields(before, columns, keys, typeOf).value;
      assert forall i :: 0 <= i < |fields| ==> FieldName(fields[i]) != f.name by {
        assert forall i :: 0 <= i < |fields| ==> fields[i] in fields;
      }
    }
  }

  lemma ImportedName'(f: OsiField, columns: seq<Catalog.Column>, keys: seq<string>, typeOf: string -> Option<DataType>)
    requires ImportField(f, columns, keys, typeOf).Ok?
    ensures ImportField(f, columns, keys, typeOf).value.semanticName == f.name
  {
    hide Trim;
  }

  lemma FieldsStep(fs: seq<OsiField>, f: OsiField, before: seq<Field>, field: Field, columns: seq<Catalog.Column>, keys: seq<string>, typeOf: string -> Option<DataType>)
    requires ImportFields(fs, columns, keys, typeOf) == Ok(before) && Portable(f.name) && Lookup(before, FieldName, f.name).None?
    requires ImportField(f, columns, keys, typeOf) == Ok(field)
    ensures ImportFields(fs + [f], columns, keys, typeOf) == Ok(before + [field])
  {
    hide ImportField, Portable;
    assert (fs + [f])[..|fs|] == fs;
  }

  /** Sound fields with unique names import again, in any order. */
  lemma {:induction false} FieldsAgain(fs: seq<Field>, columns: seq<Catalog.Column>, keys: seq<string>, typeOf: string -> Option<DataType>)
    requires FieldsSound(fs, columns, keys, typeOf)
    ensures ImportFields(ExportFields(fs), columns, keys, typeOf) == Ok(fs)
  {
    hide ImportField, Portable, ImportFields;
    if fs == [] {
      NothingImported(columns, keys, typeOf);
      assert ExportFields(fs) == [];
    } else {
      var n := |fs| - 1;
      FieldsAgain(fs[..n], columns, keys, typeOf);
      assert FieldSound(fs[n], columns, keys, typeOf);
      assert forall i :: 0 <= i < n ==> FieldName(fs[i]) != FieldName(fs[n]);
      FieldsStep(ExportFields(fs[..n]), ExportField(fs[n]), fs[..n], fs[n], columns, keys, typeOf);
      assert ExportFields(fs) == ExportFields(fs[..n]) + [ExportField(fs[n])];
      assert fs[..n] + [fs[n]] == fs;
    }
  }

  lemma NothingImported(columns: seq<Catalog.Column>, keys: seq<string>, typeOf: string -> Option<DataType>)
    ensures ImportFields([], columns, keys, typeOf) == Ok([])
  {
  }

  lemma SoundPermutes(fs: seq<Field>, gs: seq<Field>, columns: seq<Catalog.Column>, keys: seq<string>, typeOf: string -> Option<DataType>)
    requires FieldsSound(fs, columns, keys, typeOf) && multiset(fs) == multiset(gs)
    ensures FieldsSound(gs, columns, keys, typeOf)
  {
    hide FieldSound;
    DiffProofs.UniqueAfterPermutation(fs, gs, FieldName);
    forall i | 0 <= i < |gs|
      ensures FieldSound(gs[i], columns, keys, typeOf)
    {
      SameElements(fs, gs, gs[i]);
      var j :| 0 <= j < |fs| && fs[j] == gs[i];
    }
  }

  lemma {:induction false} NoKeyColumns(fs: seq<Field>)
    requires forall i :: 0 <= i < |fs| ==> !fs[i].entityKey
    ensures KeyColumns(fs) == []
  {
    if fs != [] {
      NoKeyColumns(fs[..|fs| - 1]);
    }
  }

  lemma {:induction false} OneKeyColumn(fs: seq<Field>, key: string)
    requires forall i :: 0 <= i < |fs| ==> fs[i].entityKey == (fs[i].column == key)
    ensures KeyColumns(fs) == if KeyCovered(fs, key) then [key] else []
  {
    if fs != [] {
      var n := |fs| - 1;
      OneKeyColumn(fs[..n], key);
      if KeyCovered(fs[..n], key) {
        var i :| 0 <= i < n && fs[..n][i].column == key && fs[..n][i].entityKey;
        assert fs[i].column == key && fs[i].entityKey;
      } else {
        assert forall i :: 0 <= i < n ==> fs[i] == fs[..n][i];
      }
    }
  }

  lemma CoveredPermutes(fs: seq<Field>, gs: seq<Field>, key: string)
    requires multiset(fs) == multiset(gs) && KeyCovered(fs, key)
    ensures KeyCovered(gs, key)
  {
    var i :| 0 <= i < |fs| && fs[i].column == key && fs[i].entityKey;
    SameElements(fs, gs, fs[i]);
    var j :| 0 <= j < |gs| && gs[j] == fs[i];
  }

  /** What every imported dataset satisfies, and what its export is read from. */
  ghost predicate DatasetSound(b: Imported, catalog: Catalog.Snapshot, typeOf: string -> Option<DataType>) {
    && Portable(b.name) && UniqueNames(b.fields, FieldName)
    && (forall i :: 0 <= i < |b.fields| ==> b.fields[i].visible && b.fields[i].relationship.None?)
    && ImportDataset(OsiDataset(b.name, b.source.schema + "." + b.source.relation, KeyColumns(OwnByName(b)), [], ExportFields(OwnByName(b)), false), catalog, typeOf)
       == Ok(Imported(b.name, b.source, OwnByName(b), b.foreignKeys))
  }

  lemma DatasetAgain(d: OsiDataset, catalog: Catalog.Snapshot, typeOf: string -> Option<DataType>)
    requires Portable(d.name) && ImportDataset(d, catalog, typeOf).Ok?
    ensures DatasetSound(ImportDataset(d, catalog, typeOf).value, catalog, typeOf) && ImportDataset(d, catalog, typeOf).value.name == d.name
  {
    hide Portable, ImportFields, FieldSound, Sort, KeyColumns, KeyCovered;
    var b := ImportDataset(d, catalog, typeOf).value;
    var relation := Catalog.Find(catalog.relations, Catalog.RelationKey, [b.source.schema, b.source.relation]).value;
    var known := CatalogPrimaryKey(relation.constraints);
    var own := OwnByName(b);
    SourceParts(d.source, catalog.currentDatabase);
    SplitPortable(b.source.schema, b.source.relation, catalog.currentDatabase);
    ImportedFieldsSound(d.fields, relation.columns, known, typeOf);
    SoundPermutes(b.fields, own, relation.columns, known, typeOf);
    FieldsAgain(own, relation.columns, known, typeOf);
    KeysOfSound(b.fields, relation.columns, known, typeOf);
    KeysOfSound(own, relation.columns, known, typeOf);
    if |known| == 1 {
      CoveredPermutes(b.fields, own, known[0]);
    }
  }

  lemma SourceParts(source: string, database: string)
    requires ParseSource(source, database).Ok?
    ensures Portable(ParseSource(source, database).value.schema) && Portable(ParseSource(source, database).value.relation)
  {
  }

  lemma KeysOfSound(fs: seq<Field>, columns: seq<Catalog.Column>, known: seq<string>, typeOf: string -> Option<DataType>)
    requires FieldsSound(fs, columns, known, typeOf)
    ensures known == [] ==> KeyColumns(fs) == []
    ensures |known| == 1 ==> KeyColumns(fs) == if KeyCovered(fs, known[0]) then known else []
    ensures forall i :: 0 <= i < |fs| ==> fs[i].visible && fs[i].relationship.None?
  {
    assert forall i :: 0 <= i < |fs| ==> FieldSound(fs[i], columns, known, typeOf);
    if known == [] {
      NoKeyColumns(fs);
    } else if |known| == 1 {
      assert known == [known[0]];
      OneKeyColumn(fs, known[0]);
    }
  }
}
