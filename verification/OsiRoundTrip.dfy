/** The OSI round trip: relationships and metrics replayed in export order rebuild the same models. */
module OsiRoundTrip {
  import opened Prelude
  import opened Order
  import opened Bags
  import opened Semantic
  import opened Snapshots
  import Catalog
  import DiffProofs
  import opened Osi
  import opened OsiProofs

  // ----- imported datasets -----

  ghost predicate BasesSound(bases: seq<Imported>, catalog: Catalog.Snapshot, typeOf: string -> Option<DataType>) {
    UniqueNames(bases, ImportedName) && forall i :: 0 <= i < |bases| ==> DatasetSound(bases[i], catalog, typeOf)
  }

  lemma {:induction false} ImportedBasesSound(ds: seq<OsiDataset>, catalog: Catalog.Snapshot, typeOf: string -> Option<DataType>)
    requires ImportDatasets(ds, catalog, typeOf).Ok?
    ensures BasesSound(ImportDatasets(ds, catalog, typeOf).value, catalog, typeOf)
  {
    hide ImportDataset, Portable, DatasetSound;
    if ds != [] {
      var before, d := ds[..|ds| - 1], ds[|ds| - 1];
      ImportedBasesSound(before, catalog, typeOf);
      DatasetAgain(d, catalog, typeOf);
      var bs := ImportDatasets(before, catalog, typeOf).value;
      assert forall i :: 0 <= i < |bs| ==> bs[i] in bs;
    }
  }

  /** The same dataset with its fields in name order. */
  function Tidied(b: Imported): Imported {
    b.(fields := OwnByName(b))
  }

  lemma TidiedOwn(b: Imported)
    ensures OwnByName(Tidied(b)) == OwnByName(b)
  {
    SortSorts(b.fields, FieldKey);
    SortFixesSorted(OwnByName(b), FieldKey);
  }

  /** Two imports know the same datasets, up to the order of fields. */
  ghost predicate SameBases(bases: seq<Imported>, again: seq<Imported>) {
    forall name :: var b := Lookup(bases, ImportedName, name); Lookup(again, ImportedName, name) == if b.Some? then Some(Tidied(b.value)) else None
  }

  lemma SameMade(bases: seq<Imported>, again: seq<Imported>, r: OsiRelationship, m: OsiMetric, rel: Relationship)
    requires SameBases(bases, again)
    ensures MakeRelationship(again, r) == MakeRelationship(bases, r)
    ensures MakeMetric(again, m) == MakeMetric(bases, m)
    ensures Projection(again, rel) == Projection(bases, rel)
  {
    hide OwnByName, ParseMetric, Portable, Vouched;
    forall name
      ensures var b, c := Lookup(bases, ImportedName, name), Lookup(again, ImportedName, name);
        (b.Some? <==> c.Some?) && (b.Some? ==> c.value.name == b.value.name && c.value.source == b.value.source
                                               && c.value.foreignKeys == b.value.foreignKeys && OwnByName(c.value) == OwnByName(b.value))
    {
      var b := Lookup(bases, ImportedName, name);
      if b.Some? {
        TidiedOwn(b.value);
      }
    }
  }

  lemma {:induction false} SameProjections(bases: seq<Imported>, again: seq<Imported>, rels: seq<Relationship>)
    requires SameBases(bases, again)
    ensures Projections(again, rels) == Projections(bases, rels)
  {
    if rels != [] {
      SameProjections(bases, again, rels[..|rels| - 1]);
      SameMade(bases, again, OsiRelationship("", "", "", [], [], false), OsiMetric("", OsiExpression([]), false), rels[|rels| - 1]);
    }
  }

  // ----- relationships of one dataset -----

  lemma {:induction false} RelationshipSource(bases: seq<Imported>, rs: seq<OsiRelationship>, name: string, rel: Relationship) returns (r: OsiRelationship)
    requires rel in RelationshipsOf(bases, rs, name)
    ensures r in rs && r.from == name && MakeRelationship(bases, r) == Ok(rel)
  {
    hide MakeRelationship;
    var before, last := rs[..|rs| - 1], rs[|rs| - 1];
    if rel in RelationshipsOf(bases, before, name) {
      r := RelationshipSource(bases, before, name, rel);
      assert r in rs;
    } else {
      r := last;
    }
  }

  /** A relationship that was made is exported as it was written. */
  lemma ExportedAsWritten(bases: seq<Imported>, r: OsiRelationship)
    requires MakeRelationship(bases, r).Ok?
    ensures ExportRelationship(r.from, MakeRelationship(bases, r).value) == r
    ensures ExportableRelationship(MakeRelationship(bases, r).value)
    ensures MakeRelationship(bases, r).value.semanticName == r.name
  {
    hide Portable, OwnByName;
    assert r.fromColumns == [r.fromColumns[0]] && r.toColumns == [r.toColumns[0]];
  }

  lemma {:induction false} RelationshipNamesUnique(bases: seq<Imported>, rs: seq<OsiRelationship>, name: string)
    requires UniqueNames(rs, OsiRelationshipName)
    ensures UniqueNames(RelationshipsOf(bases, rs, name), RelationshipName)
  {
    hide MakeRelationship;
    if rs != [] {
      var before, last := rs[..|rs| - 1], rs[|rs| - 1];
      RelationshipNamesUnique(bases, before, name);
      if last.from == name && MakeRelationship(bases, last).Ok? {
        var earlier := RelationshipsOf(bases, before, name);
        ExportedAsWritten(bases, last);
        forall i | 0 <= i < |earlier|
          ensures earlier[i].semanticName != last.name
        {
          var r := RelationshipSource(bases, before, name, earlier[i]);
          ExportedAsWritten(bases, r);
          var k :| 0 <= k < |before| && before[k] == r;
          assert OsiRelationshipName(rs[k]) != OsiRelationshipName(rs[|rs| - 1]);
        }
      }
    }
  }

  // ----- the checks on relationships -----

  lemma {:induction false} PushFieldsExact(fields: seq<Field>, more: seq<Field>)
    requires UniqueNames(fields, FieldName)
    ensures PushFields(fields, more).Ok? <==> UniqueNames(fields + more, FieldName)
    decreases more
  {
    if more == [] {
      assert fields + more == fields;
    } else {
      var found := Lookup(fields, FieldName, more[0].semanticName);
      var longer := fields + [more[0]];
      assert longer + more[1..] == fields + more;
      if found.Some? {
        var i :| 0 <= i < |fields| && fields[i] == found.value;
        assert FieldName((fields + more)[i]) == FieldName((fields + more)[|fields|]);
      } else {
        assert forall i :: 0 <= i < |fields| ==> fields[i] in fields;
        PushFieldsExact(longer, more[1..]);
      }
    }
  }

  lemma FieldsStep(bases: seq<Imported>, rs: seq<OsiRelationship>, b: Imported)
    requires rs != []
    ensures var before, r := rs[..|rs| - 1], rs[|rs| - 1];
      FieldsOf(bases, rs, b) == FieldsOf(bases, before, b)
        + (if r.from == b.name && MakeRelationship(bases, r).Ok? then Projection(bases, MakeRelationship(bases, r).value) else [])
  {
    hide MakeRelationship, Projection;
    var before, r := rs[..|rs| - 1], rs[|rs| - 1];
    var earlier := RelationshipsOf(bases, before, b.name);
    if r.from == b.name && MakeRelationship(bases, r).Ok? {
      var all := earlier + [MakeRelationship(bases, r).value];
      assert all[..|all| - 1] == earlier;
      assert b.fields + (Projections(bases, earlier) + Projection(bases, MakeRelationship(bases, r).value))
          == (b.fields + Projections(bases, earlier)) + Projection(bases, MakeRelationship(bases, r).value);
    } else {
      assert earlier + [] == earlier;
      assert FieldsOf(bases, before, b) + [] == FieldsOf(bases, before, b);
    }
  }

  lemma FromFound(bases: seq<Imported>, r: OsiRelationship, b: Imported)
    requires MakeRelationship(bases, r).Ok? && UniqueNames(bases, ImportedName) && b in bases && r.from == b.name
    ensures Lookup(bases, ImportedName, r.from) == Some(b)
  {
    LookupUnique(bases, ImportedName, b);
  }

  lemma {:induction false} AllMade(bases: seq<Imported>, rs: seq<OsiRelationship>)
    requires CheckRelationships(bases, rs).Ok?
    ensures forall r :: r in rs ==> MakeRelationship(bases, r).Ok?
  {
    hide MakeRelationship, PushFields, Projection, FieldsOf;
    if rs != [] {
      AllMade(bases, rs[..|rs| - 1]);
      assert rs == rs[..|rs| - 1] + [rs[|rs| - 1]];
    }
  }

  /** Accepted relationships left every dataset with unique field names. */
  lemma {:induction false} ChecksHold(bases: seq<Imported>, rs: seq<OsiRelationship>, b: Imported)
    requires CheckRelationships(bases, rs).Ok? && UniqueNames(bases, ImportedName) && b in bases && UniqueNames(b.fields, FieldName)
    ensures UniqueNames(FieldsOf(bases, rs, b), FieldName)
  {
    if rs == [] {
      assert FieldsOf(bases, rs, b) == b.fields;
    } else {
      hide FieldsOf, MakeRelationship, PushFields, Projection, UniqueNames, RelationshipsOf;
      var before, r := rs[..|rs| - 1], rs[|rs| - 1];
      ChecksHold(bases, before, b);
      FieldsStep(bases, rs, b);
      if r.from == b.name {
        FromFound(bases, r, b);
        PushFieldsExact(FieldsOf(bases, before, b), Projection(bases, MakeRelationship(bases, r).value));
      } else {
        assert FieldsOf(bases, before, b) + [] == FieldsOf(bases, before, b);
      }
    }
  }

  lemma UniquePrefix(xs: seq<Field>, ys: seq<Field>)
    requires UniqueNames(xs + ys, FieldName)
    ensures UniqueNames(xs, FieldName)
  {
    assert forall i :: 0 <= i < |xs| ==> (xs + ys)[i] == xs[i];
  }

  ghost predicate AllFieldsUnique(bases: seq<Imported>, rs: seq<OsiRelationship>) {
    forall b :: b in bases ==> UniqueNames(FieldsOf(bases, rs, b), FieldName)
  }

  /** Conversely such relationships are accepted, whatever order they come in. */
  lemma {:induction false} ChecksPass(bases: seq<Imported>, rs: seq<OsiRelationship>)
    requires forall r :: r in rs ==> MakeRelationship(bases, r).Ok?
    requires UniqueNames(rs, OsiRelationshipName) && UniqueNames(bases, ImportedName) && AllFieldsUnique(bases, rs)
    ensures CheckRelationships(bases, rs).Ok?
  {
    hide MakeRelationship, PushFields, Projection, FieldsOf;
    if rs != [] {
      var before, r := rs[..|rs| - 1], rs[|rs| - 1];
      forall b | b in bases
        ensures UniqueNames(FieldsOf(bases, before, b), FieldName)
      {
        FieldsStep(bases, rs, b);
        UniquePrefix(FieldsOf(bases, before, b),
                     if r.from == b.name && MakeRelationship(bases, r).Ok? then Projection(bases, MakeRelationship(bases, r).value) else []);
      }
      ChecksPass(bases, before);
      LastCheckPasses(bases, rs);
    }
  }

  lemma LastCheckPasses(bases: seq<Imported>, rs: seq<OsiRelationship>)
    requires rs != [] && CheckRelationships(bases, rs[..|rs| - 1]).Ok? && MakeRelationship(bases, rs[|rs| - 1]).Ok?
    requires UniqueNames(rs, OsiRelationshipName) && UniqueNames(bases, ImportedName) && AllFieldsUnique(bases, rs) && AllFieldsUnique(bases, rs[..|rs| - 1])
    ensures CheckRelationships(bases, rs).Ok?
  {
    var before, r := rs[..|rs| - 1], rs[|rs| - 1];
    var rel, from := MakeRelationship(bases, r).value, Lookup(bases, ImportedName, r.from).value;
    hide MakeRelationship, PushFields, Projection, FieldsOf;
    FieldsStep(bases, rs, from);
    PushFieldsExact(FieldsOf(bases, before, from), Projection(bases, rel));
    var earlier := RelationshipsOf(bases, before, r.from);
    var found := Lookup(earlier, RelationshipName, r.name);
    assert forall k :: 0 <= k < |before| ==> OsiRelationshipName(before[k]) != OsiRelationshipName(rs[|rs| - 1]);
    if found.Some? {
      var q := RelationshipSource(bases, before, r.from, found.value);
      ExportedAsWritten(bases, q);
    }
  }

  // ----- metrics of one dataset -----

  lemma {:induction false} MetricSource(bases: seq<Imported>, ms: seq<OsiMetric>, name: string, metric: Metric) returns (m: OsiMetric)
    requires metric in MetricsOf(bases, ms, name)
    ensures m in ms && MakeMetric(bases, m) == Ok(OwnedMetric(name, metric))
  {
    hide MakeMetric;
    var before, last := ms[..|ms| - 1], ms[|ms| - 1];
    if metric in MetricsOf(bases, before, name) {
      m := MetricSource(bases, before, name, metric);
      assert m in ms;
    } else {
      m := last;
    }
  }

  /** A metric that was made is made again from its exported expression. */
  lemma MetricAgain(bases: seq<Imported>, m: OsiMetric)
    requires MakeMetric(bases, m).Ok?
    ensures var made := MakeMetric(bases, m).value;
      && MakeMetric(bases, ExportMetric(made.dataset, made.metric)) == Ok(made)
      && made.metric.semanticName == m.name && ExportableMetric(made.metric)
  {
    hide ParseMetric, OwnByName, Portable, StartsDistinct;
    var made := MakeMetric(bases, m).value;
    ParsedPlainly(AnsiText(m.expression).value);
    MetricReadsBack(made.metric.aggregation, made.dataset, made.metric.field);
  }

  lemma {:induction false} MetricNamesUnique(bases: seq<Imported>, ms: seq<OsiMetric>, name: string)
    requires UniqueNames(ms, OsiMetricName)
    ensures UniqueNames(MetricsOf(bases, ms, name), MetricName)
  {
    hide MakeMetric, ExportMetric;
    if ms != [] {
      var before, last := ms[..|ms| - 1], ms[|ms| - 1];
      MetricNamesUnique(bases, before, name);
      var made := MakeMetric(bases, last);
      if made.Ok? && made.value.dataset == name {
        var earlier := MetricsOf(bases, before, name);
        MetricAgain(bases, last);
        forall i | 0 <= i < |earlier|
          ensures earlier[i].semanticName != last.name
        {
          var m := MetricSource(bases, before, name, earlier[i]);
          MetricAgain(bases, m);
          var k :| 0 <= k < |before| && before[k] == m;
          assert OsiMetricName(ms[k]) != OsiMetricName(ms[|ms| - 1]);
        }
      }
    }
  }

  lemma {:induction false} MetricChecksHold(bases: seq<Imported>, ms: seq<OsiMetric>)
    requires CheckMetrics(bases, ms).Ok?
    ensures forall m :: m in ms ==> MakeMetric(bases, m).Ok?
  {
    hide MakeMetric, MetricsOf;
    if ms != [] {
      MetricChecksHold(bases, ms[..|ms| - 1]);
      assert ms == ms[..|ms| - 1] + [ms[|ms| - 1]];
    }
  }

  lemma {:induction false} MetricChecksPass(bases: seq<Imported>, ms: seq<OsiMetric>)
    requires (forall m :: m in ms ==> MakeMetric(bases, m).Ok?) && UniqueNames(ms, OsiMetricName)
    ensures CheckMetrics(bases, ms).Ok?
  {
    hide MakeMetric, ExportMetric;
    if ms != [] {
      var before, last := ms[..|ms| - 1], ms[|ms| - 1];
      MetricChecksPass(bases, before);
      var name := MakeMetric(bases, last).value.dataset;
      var found := Lookup(MetricsOf(bases, before, name), MetricName, last.name);
      assert forall k :: 0 <= k < |before| ==> OsiMetricName(before[k]) != OsiMetricName(ms[|ms| - 1]);
      if found.Some? {
        var m := MetricSource(bases, before, name, found.value);
        MetricAgain(bases, m);
      }
    }
  }

  // ----- own fields of a settled model -----

  /** The model a dataset becomes in the snapshot. */
  ghost function Settled(bases: seq<Imported>, rs: seq<OsiRelationship>, ms: seq<OsiMetric>, b: Imported): Model {
    NormalizedModel(FinalModel(bases, rs, ms, b))
  }

  lemma {:induction false} OwnAppend(xs: seq<Field>, ys: seq<Field>)
    ensures OwnFields(xs + ys) == OwnFields(xs) + OwnFields(ys)
  {
    if ys == [] {
      assert xs + ys == xs;
    } else {
      assert (xs + ys)[..|xs + ys| - 1] == xs + ys[..|ys| - 1];
      OwnAppend(xs, ys[..|ys| - 1]);
    }
  }

  lemma {:induction false} OwnKeepsOwn(xs: seq<Field>)
    requires forall i :: 0 <= i < |xs| ==> xs[i].relationship.None?
    ensures OwnFields(xs) == xs
  {
    if xs != [] {
      OwnKeepsOwn(xs[..|xs| - 1]);
      assert xs[..|xs| - 1] + [xs[|xs| - 1]] == xs;
    }
  }

  lemma {:induction false} OwnDropsJoined(xs: seq<Field>)
    requires forall i :: 0 <= i < |xs| ==> xs[i].relationship.Some?
    ensures OwnFields(xs) == []
  {
    if xs != [] {
      OwnDropsJoined(xs[..|xs| - 1]);
    }
  }

  lemma {:induction false} OwnCount(xs: seq<Field>, f: Field)
    ensures multiset(OwnFields(xs))[f] == if f.relationship.None? then multiset(xs)[f] else 0
  {
    if xs != [] {
      OwnCount(xs[..|xs| - 1], f);
      assert xs == xs[..|xs| - 1] + [xs[|xs| - 1]];
    }
  }

  lemma {:induction false} OwnSorted(xs: seq<Field>)
    requires Sorted(xs, FieldKey)
    ensures Sorted(OwnFields(xs), FieldKey)
    ensures forall f :: f in OwnFields(xs) ==> f in xs
  {
    if xs != [] {
      var before, last := xs[..|xs| - 1], xs[|xs| - 1];
      OwnSorted(before);
      assert forall f :: f in before ==> f in xs && KeyLeq(FieldKey(f), FieldKey(last));
    }
  }

  lemma {:induction false} ProjectionsJoined(bases: seq<Imported>, rels: seq<Relationship>)
    ensures forall i :: 0 <= i < |Projections(bases, rels)| ==> Projections(bases, rels)[i].relationship.Some? && Projections(bases, rels)[i].visible
  {
    if rels != [] {
      ProjectionsJoined(bases, rels[..|rels| - 1]);
    }
  }

  lemma OwnIsBase(bases: seq<Imported>, rs: seq<OsiRelationship>, b: Imported)
    requires forall i :: 0 <= i < |b.fields| ==> b.fields[i].relationship.None?
    ensures OwnFields(FieldsOf(bases, rs, b)) == b.fields
  {
    var projections := Projections(bases, RelationshipsOf(bases, rs, b.name));
    ProjectionsJoined(bases, RelationshipsOf(bases, rs, b.name));
    OwnAppend(b.fields, projections);
    OwnKeepsOwn(b.fields);
    OwnDropsJoined(projections);
  }

  /** Selecting the own fields and sorting commute. */
  lemma OwnOfSorted(all: seq<Field>)
    requires UniqueNames(OwnFields(all), FieldName)
    ensures OwnFields(Sort(all, FieldKey)) == Sort(OwnFields(all), FieldKey)
  {
    hide Sort, Sorted, OwnFields, UniqueNames, UniqueKeys;
    var sorted, own := Sort(all, FieldKey), OwnFields(all);
    SortSorts(all, FieldKey);
    SortSorts(own, FieldKey);
    OwnSorted(sorted);
    forall f
      ensures multiset(OwnFields(sorted))[f] == multiset(own)[f]
    {
      OwnCount(sorted, f);
      OwnCount(all, f);
    }
    assert multiset(OwnFields(sorted)) == multiset(own) == multiset(Sort(own, FieldKey));
    DiffProofs.UniqueAsKeys(own, FieldName, FieldKey);
    SortKeepsUnique(own, OwnFields(sorted), FieldKey);
    SortedUnique(OwnFields(sorted), Sort(own, FieldKey), FieldKey);
  }

  /** The own fields of the settled model are the dataset's, in name order. */
  lemma OwnOfSettled(bases: seq<Imported>, rs: seq<OsiRelationship>, ms: seq<OsiMetric>, b: Imported)
    requires UniqueNames(b.fields, FieldName) && forall i :: 0 <= i < |b.fields| ==> b.fields[i].relationship.None?
    ensures OwnFields(Settled(bases, rs, ms, b).fields) == OwnByName(b)
  {
    hide Sort, FieldsOf, OwnFields;
    OwnIsBase(bases, rs, b);
    OwnOfSorted(FieldsOf(bases, rs, b));
  }

  // ----- the exported collections -----

  ghost function ExportedDatasets(models: seq<Model>): (r: seq<OsiDataset>)
    ensures |r| == |models| && forall i :: 0 <= i < |models| ==> r[i] == ExportDataset(models[i])
  {
    seq(|models|, i requires 0 <= i < |models| => ExportDataset(models[i]))
  }

  ghost function ExportedRelationships(models: seq<Model>): seq<OsiRelationship> {
    if models == [] then []
    else ExportedRelationships(models[..|models| - 1]) + ExportRelationships(models[|models| - 1].semanticName, models[|models| - 1].relationships)
  }

  ghost function ExportedMetrics(models: seq<Model>): seq<OsiMetric> {
    if models == [] then []
    else ExportedMetrics(models[..|models| - 1]) + ExportMetrics(models[|models| - 1].semanticName, models[|models| - 1].metrics)
  }

  lemma {:induction false} ExportSucceeds(models: seq<Model>, name: string)
    requires forall i :: 0 <= i < |models| ==> Exportable(models[i])
    ensures ExportModels(models, name)
         == Ok(OsiModel(name, ExportedDatasets(models), ExportedRelationships(models), ExportedMetrics(models), false))
  {
    hide ExportDataset, Exportable;
    if models == [] {
      assert ExportedDatasets(models) == [];
    } else {
      var before := models[..|models| - 1];
      ExportSucceeds(before, name);
      assert ExportedDatasets(models) == ExportedDatasets(before) + [ExportDataset(models[|models| - 1])];
    }
  }

  // ----- a finished import -----

  /** Datasets, relationships and metrics that were accepted, and the models they settled into. */
  datatype Finished = Finished(
    bases: seq<Imported>,
    relationships: seq<OsiRelationship>,
    metrics: seq<OsiMetric>,
    models: seq<Model>,
    catalog: Catalog.Snapshot,
    typeOf: string -> Option<DataType>)

  ghost predicate SettledFrom(f: Finished, m: Model) {
    var b := Lookup(f.bases, ImportedName, m.semanticName);
    b.Some? && m == Settled(f.bases, f.relationships, f.metrics, b.value)
  }

  ghost predicate Sound(f: Finished) {
    && BasesSound(f.bases, f.catalog, f.typeOf)
    && UniqueNames(f.relationships, OsiRelationshipName) && UniqueNames(f.metrics, OsiMetricName)
    && (forall r :: r in f.relationships ==> MakeRelationship(f.bases, r).Ok?)
    && (forall m :: m in f.metrics ==> MakeMetric(f.bases, m).Ok?)
    && AllFieldsUnique(f.bases, f.relationships)
    && UniqueNames(f.models, ModelName) && Sorted(f.models, ModelKey)
    && (forall i :: 0 <= i < |f.models| ==> SettledFrom(f, f.models[i]))
    && (forall i :: 0 <= i < |f.bases| ==> Lookup(f.models, ModelName, f.bases[i].name).Some?)
  }

  lemma BaseFacts(f: Finished, m: Model) returns (b: Imported)
    requires Sound(f) && m in f.models
    ensures Lookup(f.bases, ImportedName, m.semanticName) == Some(b) && b in f.bases && b.name == m.semanticName && b.source == m.source
    ensures DatasetSound(b, f.catalog, f.typeOf) && m == Settled(f.bases, f.relationships, f.metrics, b)
    ensures UniqueNames(FieldsOf(f.bases, f.relationships, b), FieldName)
  {
    hide DatasetSound, MakeRelationship, MakeMetric, FieldsOf, Sorted, UniqueNames;
    var i :| 0 <= i < |f.models| && f.models[i] == m;
    assert SettledFrom(f, f.models[i]);
    b := Lookup(f.bases, ImportedName, m.semanticName).value;
    var j :| 0 <= j < |f.bases| && f.bases[j] == b;
  }

  /** The exported relationships of a model are, one by one, relationships of the document. */
  lemma RelationshipAgain(f: Finished, m: Model, rel: Relationship)
    requires Sound(f) && m in f.models && rel in m.relationships
    ensures var r := ExportRelationship(m.semanticName, rel);
      r in f.relationships && MakeRelationship(f.bases, r) == Ok(rel) && ExportableRelationship(rel)
  {
    hide Sound, MakeRelationship, FieldsOf, DatasetSound, ExportRelationship, ExportableRelationship;
    var b := BaseFacts(f, m);
    var made := RelationshipsOf(f.bases, f.relationships, b.name);
    SameElements(Sort(made, RelationshipKey), made, rel);
    var r := RelationshipSource(f.bases, f.relationships, b.name, rel);
    ExportedAsWritten(f.bases, r);
  }

  lemma MetricOfModel(f: Finished, m: Model, metric: Metric) returns (source: OsiMetric)
    requires Sound(f) && m in f.models && metric in m.metrics
    ensures source in f.metrics && MakeMetric(f.bases, source) == Ok(OwnedMetric(m.semanticName, metric)) && source.name == metric.semanticName
    ensures MakeMetric(f.bases, ExportMetric(m.semanticName, metric)) == Ok(OwnedMetric(m.semanticName, metric)) && ExportableMetric(metric)
  {
    hide Sound, MakeMetric, FieldsOf, DatasetSound, ExportMetric, ExportableMetric;
    var b := BaseFacts(f, m);
    var made := MetricsOf(f.bases, f.metrics, b.name);
    SameElements(Sort(made, MetricKey), made, metric);
    source := MetricSource(f.bases, f.metrics, b.name, metric);
    MetricAgain(f.bases, source);
  }

  lemma SettledIsExportable(f: Finished, m: Model)
    requires Sound(f) && m in f.models
    ensures Exportable(m)
  {
    hide Sound, MakeMetric, MakeRelationship, ExportableRelationship, ExportableMetric, Sort, RelationshipsOf, MetricsOf, FieldsOf, UniqueNames;
    hide ImportDataset, OwnByName, KeyColumns, ExportFields;
    var b := BaseFacts(f, m);
    assert m.fields == Sort(FieldsOf(f.bases, f.relationships, b), FieldKey);
    FieldsVisible(f, b);
    forall i | 0 <= i < |m.relationships|
      ensures ExportableRelationship(m.relationships[i])
    {
      RelationshipAgain(f, m, m.relationships[i]);
    }
    forall i | 0 <= i < |m.metrics|
      ensures ExportableMetric(m.metrics[i])
    {
      var source := MetricOfModel(f, m, m.metrics[i]);
    }
  }

  lemma FieldsVisible(f: Finished, b: Imported)
    requires forall i :: 0 <= i < |b.fields| ==> b.fields[i].visible
    ensures var fields := Sort(FieldsOf(f.bases, f.relationships, b), FieldKey); forall i :: 0 <= i < |fields| ==> fields[i].visible
  {
    hide Sort, RelationshipsOf, Projections;
    ProjectionsJoined(f.bases, RelationshipsOf(f.bases, f.relationships, b.name));
    var all := FieldsOf(f.bases, f.relationships, b);
    var fields := Sort(all, FieldKey);
    forall i | 0 <= i < |fields|
      ensures fields[i].visible
    {
      SameElements(fields, all, fields[i]);
      var j :| 0 <= j < |all| && all[j] == fields[i];
    }
  }

  // ----- datasets again -----

  ghost predicate Known(bases: seq<Imported>, models: seq<Model>) {
    forall i :: 0 <= i < |models| ==> Lookup(bases, ImportedName, models[i].semanticName).Some?
  }

  ghost function BasesAgain(bases: seq<Imported>, models: seq<Model>): (r: seq<Imported>)
    requires Known(bases, models)
    ensures |r| == |models|
    ensures forall i :: 0 <= i < |models| ==> r[i] == Tidied(Lookup(bases, ImportedName, models[i].semanticName).value)
    ensures forall i :: 0 <= i < |models| ==> r[i].name == models[i].semanticName
  {
    seq(|models|, i requires 0 <= i < |models| => Tidied(Lookup(bases, ImportedName, models[i].semanticName).value))
  }

  lemma AllKnown(f: Finished)
    requires Sound(f)
    ensures Known(f.bases, f.models)
  {
    hide BasesSound, AllFieldsUnique, MakeRelationship, MakeMetric, Settled;
    assert forall i :: 0 <= i < |f.models| ==> SettledFrom(f, f.models[i]);
  }

  lemma DatasetOfModel(f: Finished, m: Model)
    requires Sound(f) && m in f.models
    ensures Lookup(f.bases, ImportedName, m.semanticName).Some?
    ensures Portable(m.semanticName)
    ensures ImportDataset(ExportDataset(m), f.catalog, f.typeOf) == Ok(Tidied(Lookup(f.bases, ImportedName, m.semanticName).value))
    ensures ExportDataset(m).name == m.semanticName
  {
    hide Sound, ImportDataset, OwnByName, FieldsOf, Portable;
    var b := BaseFacts(f, m);
    OwnOfSettled(f.bases, f.relationships, f.metrics, b);
  }

  lemma DatasetsStep(ds: seq<OsiDataset>, d: OsiDataset, before: seq<Imported>, b: Imported, catalog: Catalog.Snapshot, typeOf: string -> Option<DataType>)
    requires ImportDatasets(ds, catalog, typeOf) == Ok(before) && Portable(d.name) && Lookup(before, ImportedName, d.name).None?
    requires ImportDataset(d, catalog, typeOf) == Ok(b)
    ensures ImportDatasets(ds + [d], catalog, typeOf) == Ok(before + [b])
  {
    hide ImportDataset, Portable;
    assert (ds + [d])[..|ds|] == ds;
  }

  lemma KnownPrefix(bases: seq<Imported>, models: seq<Model>, k: nat)
    requires 0 < k <= |models| && Known(bases, models[..k])
    ensures Known(bases, models[..k - 1]) && Lookup(bases, ImportedName, models[k - 1].semanticName).Some?
    ensures BasesAgain(bases, models[..k]) == BasesAgain(bases, models[..k - 1]) + [Tidied(Lookup(bases, ImportedName, models[k - 1].semanticName).value)]
    ensures ExportedDatasets(models[..k]) == ExportedDatasets(models[..k - 1]) + [ExportDataset(models[k - 1])]
  {
    hide OwnByName, ExportDataset;
    assert forall i :: 0 <= i < k - 1 ==> models[..k - 1][i] == models[..k][i];
    assert models[..k][k - 1] == models[k - 1];
  }

  lemma {:induction false} DatasetsAgain(f: Finished, k: nat)
    requires Sound(f) && k <= |f.models| && Known(f.bases, f.models[..k])
    ensures ImportDatasets(ExportedDatasets(f.models[..k]), f.catalog, f.typeOf) == Ok(BasesAgain(f.bases, f.models[..k]))
  {
    hide Sound, ImportDataset, ExportDataset, OwnByName, Portable, Known;
    if k == 0 {
      assert ExportedDatasets(f.models[..k]) == [] && BasesAgain(f.bases, f.models[..k]) == [];
    } else {
      var m := f.models[k - 1];
      KnownPrefix(f.bases, f.models, k);
      DatasetsAgain(f, k - 1);
      DatasetOfModel(f, m);
      EarlierNames(f, k);
      DatasetsStep(ExportedDatasets(f.models[..k - 1]), ExportDataset(m), BasesAgain(f.bases, f.models[..k - 1]),
                   Tidied(Lookup(f.bases, ImportedName, m.semanticName).value), f.catalog, f.typeOf);
    }
  }

  lemma EarlierNames(f: Finished, k: nat)
    requires Sound(f) && 0 < k <= |f.models| && Known(f.bases, f.models[..k - 1])
    ensures Lookup(BasesAgain(f.bases, f.models[..k - 1]), ImportedName, f.models[k - 1].semanticName).None?
  {
    hide BasesSound, AllFieldsUnique, MakeRelationship, MakeMetric, Settled, OwnByName;
    var before := BasesAgain(f.bases, f.models[..k - 1]);
    assert forall i :: 0 <= i < k - 1 ==> ModelName(f.models[i]) != ModelName(f.models[k - 1]);
    assert forall i :: 0 <= i < k - 1 ==> ImportedName(before[i]) == ModelName(f.models[i]);
  }

  lemma AgainUnique(f: Finished)
    requires Sound(f) && Known(f.bases, f.models)
    ensures UniqueNames(BasesAgain(f.bases, f.models), ImportedName)
  {
    hide BasesSound, AllFieldsUnique, MakeRelationship, MakeMetric, Settled, OwnByName;
    var again := BasesAgain(f.bases, f.models);
    forall i, j | 0 <= i < j < |again|
      ensures ImportedName(again[i]) != ImportedName(again[j])
    {
      assert ModelName(f.models[i]) != ModelName(f.models[j]);
    }
  }

  lemma ModelOfBase(f: Finished, b: Imported) returns (j: nat)
    requires Sound(f) && b in f.bases
    ensures j < |f.models| && f.models[j].semanticName == b.name
  {
    hide BasesSound, AllFieldsUnique, MakeRelationship, MakeMetric, Settled, Sorted;
    var i :| 0 <= i < |f.bases| && f.bases[i] == b;
    var m := Lookup(f.models, ModelName, f.bases[i].name).value;
    j :| 0 <= j < |f.models| && f.models[j] == m;
  }

  lemma FoundAgain(f: Finished, name: string)
    requires Sound(f) && Known(f.bases, f.models)
    ensures var b, c := Lookup(f.bases, ImportedName, name), Lookup(BasesAgain(f.bases, f.models), ImportedName, name);
      c == if b.Some? then Some(Tidied(b.value)) else None
  {
    AgainUnique(f);
    hide Sound, Tidied, UniqueNames, Known;
    if Lookup(f.bases, ImportedName, name).Some? {
      var j := ModelOfBase(f, Lookup(f.bases, ImportedName, name).value);
      LookupUnique(BasesAgain(f.bases, f.models), ImportedName, BasesAgain(f.bases, f.models)[j]);
    } else {
      NotFoundAgain(f.bases, f.models, name);
    }
  }

  lemma NotFoundAgain(bases: seq<Imported>, models: seq<Model>, name: string)
    requires Known(bases, models) && Lookup(bases, ImportedName, name).None?
    ensures Lookup(BasesAgain(bases, models), ImportedName, name).None?
  {
    hide Tidied, Known;
    KnownEach(bases, models);
    var again := BasesAgain(bases, models);
    forall x | x in again
      ensures ImportedName(x) != name
    {
      var j :| 0 <= j < |again| && again[j] == x;
      assert x.name == models[j].semanticName;
    }
  }

  lemma KnownEach(bases: seq<Imported>, models: seq<Model>)
    requires Known(bases, models)
    ensures forall j :: 0 <= j < |models| ==> Lookup(bases, ImportedName, models[j].semanticName).Some?
  {
  }

  lemma SameAgain(f: Finished)
    requires Sound(f) && Known(f.bases, f.models)
    ensures SameBases(f.bases, BasesAgain(f.bases, f.models))
  {
    hide Sound, Known, Tidied;
    forall name
      ensures var b := Lookup(f.bases, ImportedName, name);
        Lookup(BasesAgain(f.bases, f.models), ImportedName, name) == if b.Some? then Some(Tidied(b.value)) else None
    {
      FoundAgain(f, name);
    }
  }

  // ----- relationships and metrics again -----

  lemma RelationshipsOne(bases: seq<Imported>, before: seq<OsiRelationship>, r: OsiRelationship, name: string)
    ensures RelationshipsOf(bases, before + [r], name)
         == RelationshipsOf(bases, before, name) + (if r.from == name && MakeRelationship(bases, r).Ok? then [MakeRelationship(bases, r).value] else [])
  {
    hide MakeRelationship;
    assert (before + [r])[..|before|] == before;
  }

  lemma {:induction false} RelationshipsAppend(bases: seq<Imported>, before: seq<OsiRelationship>, from: string, rels: seq<Relationship>, name: string)
    requires forall i :: 0 <= i < |rels| ==> MakeRelationship(bases, ExportRelationship(from, rels[i])) == Ok(rels[i])
    ensures RelationshipsOf(bases, before + ExportRelationships(from, rels), name)
         == RelationshipsOf(bases, before, name) + (if name == from then rels else [])
  {
    hide MakeRelationship, RelationshipsOf;
    if rels == [] {
      assert before + ExportRelationships(from, rels) == before;
      assert RelationshipsOf(bases, before, name) + [] == RelationshipsOf(bases, before, name);
    } else {
      var n := |rels| - 1;
      var r := ExportRelationship(from, rels[n]);
      var most := before + ExportRelationships(from, rels[..n]);
      RelationshipsAppend(bases, before, from, rels[..n], name);
      assert before + ExportRelationships(from, rels) == most + [r];
      RelationshipsOne(bases, most, r, name);
      assert rels == rels[..n] + [rels[n]];
      assert r.from == from;
    }
  }

  lemma MetricsOne(bases: seq<Imported>, before: seq<OsiMetric>, m: OsiMetric, name: string)
    ensures var made := MakeMetric(bases, m);
      MetricsOf(bases, before + [m], name) == MetricsOf(bases, before, name) + (if made.Ok? && made.value.dataset == name then [made.value.metric] else [])
  {
    hide MakeMetric;
    assert (before + [m])[..|before|] == before;
  }

  lemma {:induction false} MetricsAppend(bases: seq<Imported>, before: seq<OsiMetric>, dataset: string, metrics: seq<Metric>, name: string)
    requires forall i :: 0 <= i < |metrics| ==> MakeMetric(bases, ExportMetric(dataset, metrics[i])) == Ok(OwnedMetric(dataset, metrics[i]))
    ensures MetricsOf(bases, before + ExportMetrics(dataset, metrics), name) == MetricsOf(bases, before, name) + (if name == dataset then metrics else [])
  {
    hide MakeMetric, ExportMetric, MetricsOf;
    if metrics == [] {
      assert before + ExportMetrics(dataset, metrics) == before;
      assert MetricsOf(bases, before, name) + [] == MetricsOf(bases, before, name);
    } else {
      var n := |metrics| - 1;
      var m := ExportMetric(dataset, metrics[n]);
      var most := before + ExportMetrics(dataset, metrics[..n]);
      MetricsAppend(bases, before, dataset, metrics[..n], name);
      assert before + ExportMetrics(dataset, metrics) == most + [m];
      MetricsOne(bases, most, m, name);
      assert metrics == metrics[..n] + [metrics[n]];
    }
  }

  /** Replayed from the export, every dataset gets back its own relationships, in order. */
  lemma {:induction false} RelationshipsReplayed(f: Finished, k: nat, j: nat)
    requires Sound(f) && k <= |f.models| && j < |f.models|
    ensures RelationshipsOf(f.bases, ExportedRelationships(f.models[..k]), f.models[j].semanticName) == if j < k then f.models[j].relationships else []
  {
    hide Sound, MakeRelationship, RelationshipsOf;
    if k == 0 {
      assert RelationshipsOf(f.bases, [], f.models[j].semanticName) == [] by {
        NothingReplayed(f.bases, f.models[j].semanticName);
      }
    } else {
      var m := f.models[k - 1];
      NamesDiffer(f, j, k - 1);
      RelationshipsReplayed(f, k - 1, j);
      assert f.models[..k][..k - 1] == f.models[..k - 1];
      forall i | 0 <= i < |m.relationships|
        ensures MakeRelationship(f.bases, ExportRelationship(m.semanticName, m.relationships[i])) == Ok(m.relationships[i])
      {
        RelationshipAgain(f, m, m.relationships[i]);
      }
      RelationshipsAppend(f.bases, ExportedRelationships(f.models[..k - 1]), m.semanticName, m.relationships, f.models[j].semanticName);
    }
  }

  lemma NothingReplayed(bases: seq<Imported>, name: string)
    ensures RelationshipsOf(bases, [], name) == [] && MetricsOf(bases, [], name) == []
  {
  }

  /** And its own metrics. */
  lemma {:induction false} MetricsReplayed(f: Finished, k: nat, j: nat)
    requires Sound(f) && k <= |f.models| && j < |f.models|
    ensures MetricsOf(f.bases, ExportedMetrics(f.models[..k]), f.models[j].semanticName) == if j < k then f.models[j].metrics else []
  {
    hide Sound, MakeMetric, ExportMetric, MetricsOf;
    if k == 0 {
      NothingReplayed(f.bases, f.models[j].semanticName);
    } else {
      var m := f.models[k - 1];
      NamesDiffer(f, j, k - 1);
      MetricsReplayed(f, k - 1, j);
      assert f.models[..k][..k - 1] == f.models[..k - 1];
      forall i | 0 <= i < |m.metrics|
        ensures MakeMetric(f.bases, ExportMetric(m.semanticName, m.metrics[i])) == Ok(OwnedMetric(m.semanticName, m.metrics[i]))
      {
        var source := MetricOfModel(f, m, m.metrics[i]);
      }
      MetricsAppend(f.bases, ExportedMetrics(f.models[..k - 1]), m.semanticName, m.metrics, f.models[j].semanticName);
    }
  }

  lemma NamesDiffer(f: Finished, i: nat, j: nat)
    requires Sound(f) && i < |f.models| && j < |f.models|
    ensures f.models[i].semanticName == f.models[j].semanticName <==> i == j
  {
    hide BasesSound, AllFieldsUnique, MakeRelationship, MakeMetric, Settled, Sorted;
    assert i < j ==> ModelName(f.models[i]) != ModelName(f.models[j]);
    assert j < i ==> ModelName(f.models[j]) != ModelName(f.models[i]);
  }

  /** The exported relationships are relationships of the document, none twice. */
  lemma {:induction false} ExportedRelationshipsSound(f: Finished, k: nat)
    requires Sound(f) && k <= |f.models|
    ensures forall r :: r in ExportedRelationships(f.models[..k]) ==> r in f.relationships && MakeRelationship(f.bases, r).Ok?
    ensures forall r :: r in ExportedRelationships(f.models[..k]) ==> exists j :: 0 <= j < k && f.models[j].semanticName == r.from
    ensures UniqueNames(ExportedRelationships(f.models[..k]), OsiRelationshipName)
  {
    hide Sound, MakeRelationship;
    if k > 0 {
      ExportedRelationshipsSound(f, k - 1);
      assert f.models[..k][..k - 1] == f.models[..k - 1];
      var m := f.models[k - 1];
      var before, more := ExportedRelationships(f.models[..k - 1]), ExportRelationships(m.semanticName, m.relationships);
      forall i | 0 <= i < |more|
        ensures more[i] in f.relationships && MakeRelationship(f.bases, more[i]).Ok? && more[i].from == f.models[k - 1].semanticName
      {
        RelationshipAgain(f, m, m.relationships[i]);
      }
      UniqueWithin(f, m);
      forall i, j | 0 <= i < |before| && 0 <= j < |more|
        ensures before[i].name != more[j].name
      {
        var q :| 0 <= q < k - 1 && f.models[q].semanticName == before[i].from;
        NamesDiffer(f, q, k - 1);
        SameNameSame(f, before[i], more[j]);
      }
      JoinUnique(before, more, OsiRelationshipName);
    }
  }

  lemma SameNameSame(f: Finished, a: OsiRelationship, b: OsiRelationship)
    requires Sound(f) && a in f.relationships && b in f.relationships
    ensures a.name == b.name ==> a == b
  {
    hide BasesSound, AllFieldsUnique, MakeRelationship, MakeMetric, Settled, Sorted;
    LookupUnique(f.relationships, OsiRelationshipName, a);
    LookupUnique(f.relationships, OsiRelationshipName, b);
  }

  lemma UniqueWithin(f: Finished, m: Model)
    requires Sound(f) && m in f.models
    ensures UniqueNames(ExportRelationships(m.semanticName, m.relationships), OsiRelationshipName)
    ensures UniqueNames(ExportMetrics(m.semanticName, m.metrics), OsiMetricName)
  {
    var b := BaseFacts(f, m);
    RelationshipNamesUnique(f.bases, f.relationships, b.name);
    MetricNamesUnique(f.bases, f.metrics, b.name);
    hide Sound, FieldsOf, Sort, UniqueNames, DatasetSound;
    DiffProofs.UniqueAfterPermutation(RelationshipsOf(f.bases, f.relationships, b.name), m.relationships, RelationshipName);
    DiffProofs.UniqueAfterPermutation(MetricsOf(f.bases, f.metrics, b.name), m.metrics, MetricName);
    ExportKeepsNames(m);
  }

  lemma ExportKeepsNames(m: Model)
    requires UniqueNames(m.relationships, RelationshipName) && UniqueNames(m.metrics, MetricName)
    ensures UniqueNames(ExportRelationships(m.semanticName, m.relationships), OsiRelationshipName)
    ensures UniqueNames(ExportMetrics(m.semanticName, m.metrics), OsiMetricName)
  {
    hide MetricText;
    assert forall i :: 0 <= i < |m.relationships| ==> OsiRelationshipName(ExportRelationship(m.semanticName, m.relationships[i])) == RelationshipName(m.relationships[i]);
    assert forall i :: 0 <= i < |m.metrics| ==> OsiMetricName(ExportMetric(m.semanticName, m.metrics[i])) == MetricName(m.metrics[i]);
  }

  lemma JoinUnique<T>(xs: seq<T>, ys: seq<T>, nameOf: T -> string)
    requires UniqueNames(xs, nameOf) && UniqueNames(ys, nameOf)
    requires forall i, j :: 0 <= i < |xs| && 0 <= j < |ys| ==> nameOf(xs[i]) != nameOf(ys[j])
    ensures UniqueNames(xs + ys, nameOf)
  {
  }

  /** The exported metrics are made again, and none has another's name. */
  lemma {:induction false} ExportedMetricsSound(f: Finished, k: nat)
    requires Sound(f) && k <= |f.models|
    ensures forall m :: m in ExportedMetrics(f.models[..k]) ==>
      exists j, source :: 0 <= j < k && Exports(f, j, source, m)
    ensures UniqueNames(ExportedMetrics(f.models[..k]), OsiMetricName)
  {
    hide Sound, MakeMetric, ExportMetric, Exports;
    if k > 0 {
      ExportedMetricsSound(f, k - 1);
      assert f.models[..k][..k - 1] == f.models[..k - 1];
      var m := f.models[k - 1];
      var before, more := ExportedMetrics(f.models[..k - 1]), ExportMetrics(m.semanticName, m.metrics);
      var last := k - 1;
      forall i | 0 <= i < |more|
        ensures exists source :: Exports(f, last, source, more[i])
      {
        var source := MetricOfModel(f, m, m.metrics[i]);
        ExportsOne(f, last, source, m.metrics[i]);
      }
      UniqueWithin(f, m);
      forall i, j | 0 <= i < |before| && 0 <= j < |more|
        ensures before[i].name != more[j].name
      {
        assert before[i] in before;
        var q, a :| 0 <= q < k - 1 && Exports(f, q, a, before[i]);
        var b := MetricOfModel(f, m, m.metrics[j]);
        ExportsOne(f, last, b, m.metrics[j]);
        ExportsApart(f, q, a, before[i], last, b, more[j]);
      }
      JoinUnique(before, more, OsiMetricName);
    }
  }

  /** An exported metric of model j, and the metric of the document it goes back to. */
  ghost predicate Exports(f: Finished, j: nat, source: OsiMetric, m: OsiMetric) {
    && j < |f.models| && source in f.metrics && source.name == m.name
    && MakeMetric(f.bases, source).Ok? && MakeMetric(f.bases, source).value.dataset == f.models[j].semanticName
    && MakeMetric(f.bases, m).Ok?
  }

  lemma ExportsOne(f: Finished, j: nat, source: OsiMetric, metric: Metric)
    requires j < |f.models| && source in f.metrics && source.name == metric.semanticName
    requires MakeMetric(f.bases, source) == Ok(OwnedMetric(f.models[j].semanticName, metric))
    requires MakeMetric(f.bases, ExportMetric(f.models[j].semanticName, metric)) == Ok(OwnedMetric(f.models[j].semanticName, metric))
    ensures Exports(f, j, source, ExportMetric(f.models[j].semanticName, metric))
  {
    hide MakeMetric, MetricText;
  }

  lemma ExportsApart(f: Finished, i: nat, a: OsiMetric, m: OsiMetric, j: nat, b: OsiMetric, n: OsiMetric)
    requires Sound(f) && Exports(f, i, a, m) && Exports(f, j, b, n) && i != j
    ensures m.name != n.name
  {
    NamesDiffer(f, i, j);
    hide BasesSound, AllFieldsUnique, MakeRelationship, MakeMetric, Settled, Sorted;
    if a.name == b.name {
      LookupUnique(f.metrics, OsiMetricName, a);
      LookupUnique(f.metrics, OsiMetricName, b);
      assert false;
    }
  }

  // ----- the same models again -----

  lemma {:induction false} SameRelationships(bases: seq<Imported>, again: seq<Imported>, rs: seq<OsiRelationship>, name: string)
    requires SameBases(bases, again)
    ensures RelationshipsOf(again, rs, name) == RelationshipsOf(bases, rs, name)
  {
    hide MakeRelationship, SameBases;
    if rs != [] {
      SameRelationships(bases, again, rs[..|rs| - 1], name);
      SameMade(bases, again, rs[|rs| - 1], OsiMetric("", OsiExpression([]), false), Relationship("", "", Relation("", ""), ManyToOne, Left, "", ""));
    }
  }

  lemma {:induction false} SameMetrics(bases: seq<Imported>, again: seq<Imported>, ms: seq<OsiMetric>, name: string)
    requires SameBases(bases, again)
    ensures MetricsOf(again, ms, name) == MetricsOf(bases, ms, name)
  {
    hide MakeMetric, SameBases;
    if ms != [] {
      SameMetrics(bases, again, ms[..|ms| - 1], name);
      SameMade(bases, again, OsiRelationship("", "", "", [], [], false), ms[|ms| - 1], Relationship("", "", Relation("", ""), ManyToOne, Left, "", ""));
    }
  }

  ghost function ProjectionFn(bases: seq<Imported>): Relationship -> multiset<Field> {
    (rel: Relationship) => multiset(Projection(bases, rel))
  }

  lemma {:induction false} ProjectionsBag(bases: seq<Imported>, rels: seq<Relationship>)
    ensures multiset(Projections(bases, rels)) == Bag(rels, ProjectionFn(bases))
  {
    hide Projection;
    if rels != [] {
      var before, last := rels[..|rels| - 1], rels[|rels| - 1];
      ProjectionsBag(bases, before);
      BagAppend(before, [last], ProjectionFn(bases));
      BagFirst(last, [], ProjectionFn(bases));
      assert [last] + [] == [last] && before + [last] == rels;
    }
  }

  /** Projected fields do not depend on the order of the relationships. */
  lemma ProjectionsPermute(bases: seq<Imported>, xs: seq<Relationship>, ys: seq<Relationship>)
    requires multiset(xs) == multiset(ys)
    ensures multiset(Projections(bases, xs)) == multiset(Projections(bases, ys))
  {
    ProjectionsBag(bases, xs);
    ProjectionsBag(bases, ys);
    BagPermutation(xs, ys, ProjectionFn(bases));
  }

  lemma RelationshipsSame(f: Finished, j: nat)
    requires Sound(f) && Known(f.bases, f.models) && j < |f.models|
    ensures RelationshipsOf(BasesAgain(f.bases, f.models), ExportedRelationships(f.models), f.models[j].semanticName) == f.models[j].relationships
  {
    hide Sound, Known, SameBases, RelationshipsOf;
    SameAgain(f);
    SameRelationships(f.bases, BasesAgain(f.bases, f.models), ExportedRelationships(f.models), f.models[j].semanticName);
    assert f.models[..|f.models|] == f.models;
    RelationshipsReplayed(f, |f.models|, j);
  }

  lemma FieldsBag(f: Finished, j: nat, b: Imported)
    requires Sound(f) && Known(f.bases, f.models) && j < |f.models|
    requires Lookup(f.bases, ImportedName, f.models[j].semanticName) == Some(b) && b.name == f.models[j].semanticName
    requires f.models[j] == Settled(f.bases, f.relationships, f.metrics, b)
    ensures var again := BasesAgain(f.bases, f.models);
      multiset(FieldsOf(again, ExportedRelationships(f.models), again[j])) == multiset(FieldsOf(f.bases, f.relationships, b))
  {
    var again, m := BasesAgain(f.bases, f.models), f.models[j];
    RelationshipsSame(f, j);
    SameAgain(f);
    hide Sound, Known, SameBases, Sort, Projections, RelationshipsOf, MetricsOf;
    var made := RelationshipsOf(f.bases, f.relationships, b.name);
    assert multiset(m.relationships) == multiset(made);
    SameProjections(f.bases, again, m.relationships);
    ProjectionsPermute(f.bases, made, m.relationships);
  }

  lemma FieldsPermuted(f: Finished, j: nat)
    requires Sound(f) && Known(f.bases, f.models) && j < |f.models|
    ensures var again, rs := BasesAgain(f.bases, f.models), ExportedRelationships(f.models);
      && RelationshipsOf(again, rs, f.models[j].semanticName) == f.models[j].relationships
      && Sort(FieldsOf(again, rs, again[j]), FieldKey) == f.models[j].fields
      && UniqueNames(FieldsOf(again, rs, again[j]), FieldName)
  {
    hide Sound, Known, DatasetSound, Sort, FieldsOf, RelationshipsOf, MetricsOf, UniqueNames, UniqueKeys, Tidied;
    var b := BaseFacts(f, f.models[j]);
    RelationshipsSame(f, j);
    FieldsBag(f, j, b);
    var again := BasesAgain(f.bases, f.models);
    var all, replayed := FieldsOf(f.bases, f.relationships, b), FieldsOf(again, ExportedRelationships(f.models), again[j]);
    DiffProofs.UniqueAsKeys(all, FieldName, FieldKey);
    DiffProofs.UniqueAfterPermutation(all, replayed, FieldName);
    SortCanonical(all, replayed, FieldKey);
  }

  lemma MetricsSame(f: Finished, j: nat)
    requires Sound(f) && Known(f.bases, f.models) && j < |f.models|
    ensures MetricsOf(BasesAgain(f.bases, f.models), ExportedMetrics(f.models), f.models[j].semanticName) == f.models[j].metrics
  {
    hide Sound, Known, SameBases, MetricsOf;
    SameAgain(f);
    SameMetrics(f.bases, BasesAgain(f.bases, f.models), ExportedMetrics(f.models), f.models[j].semanticName);
    assert f.models[..|f.models|] == f.models;
    MetricsReplayed(f, |f.models|, j);
  }

  /** A settled model is sorted already. */
  lemma SettledSorted(f: Finished, m: Model)
    requires Sound(f) && m in f.models
    ensures Sort(m.relationships, RelationshipKey) == m.relationships && Sort(m.metrics, MetricKey) == m.metrics
    ensures m.timezone.None? && m.queryable && m.writable.None?
  {
    hide Sound, Sort, FieldsOf, DatasetSound, UniqueNames;
    var b := BaseFacts(f, m);
    DiffProofs.SortTwice(RelationshipsOf(f.bases, f.relationships, b.name), RelationshipKey);
    DiffProofs.SortTwice(MetricsOf(f.bases, f.metrics, b.name), MetricKey);
  }

  /** Each dataset settles into the model it was exported from. */
  lemma SettledAgain(f: Finished, j: nat)
    requires Sound(f) && Known(f.bases, f.models) && j < |f.models|
    ensures var again := BasesAgain(f.bases, f.models);
      NormalizedModel(FinalModel(again, ExportedRelationships(f.models), ExportedMetrics(f.models), again[j])) == f.models[j]
  {
    hide Sound, Known, Sort, FieldsOf, RelationshipsOf, MetricsOf, DatasetSound, UniqueNames, Settled, OwnByName;
    var m := f.models[j];
    var b := BaseFacts(f, m);
    FieldsPermuted(f, j);
    MetricsSame(f, j);
    SettledSorted(f, m);
  }

  lemma FieldsUniqueAgain(f: Finished)
    requires Sound(f) && Known(f.bases, f.models)
    ensures AllFieldsUnique(BasesAgain(f.bases, f.models), ExportedRelationships(f.models))
  {
    hide Sound, Known, FieldsOf, UniqueNames, Sort;
    var again, rs := BasesAgain(f.bases, f.models), ExportedRelationships(f.models);
    forall b | b in again
      ensures UniqueNames(FieldsOf(again, rs, b), FieldName)
    {
      var j :| 0 <= j < |again| && again[j] == b;
      FieldsPermuted(f, j);
    }
  }

  lemma MadeAgain(bases: seq<Imported>, again: seq<Imported>, rs: seq<OsiRelationship>)
    requires SameBases(bases, again) && forall r :: r in rs ==> MakeRelationship(bases, r).Ok?
    ensures forall r :: r in rs ==> MakeRelationship(again, r).Ok?
  {
    hide SameBases, MakeRelationship;
    forall r | r in rs
      ensures MakeRelationship(again, r).Ok?
    {
      SameMade(bases, again, r, OsiMetric("", OsiExpression([]), false), Relationship("", "", Relation("", ""), ManyToOne, Left, "", ""));
    }
  }

  lemma RelationshipsAccepted(f: Finished)
    requires Sound(f) && Known(f.bases, f.models)
    ensures UniqueNames(ExportedRelationships(f.models), OsiRelationshipName)
    ensures CheckRelationships(BasesAgain(f.bases, f.models), ExportedRelationships(f.models)).Ok?
  {
    hide Sound, Known, SameBases, AllFieldsUnique, MakeRelationship, UniqueNames, CheckRelationships;
    assert f.models[..|f.models|] == f.models;
    ExportedRelationshipsSound(f, |f.models|);
    SameAgain(f);
    AgainUnique(f);
    FieldsUniqueAgain(f);
    MadeAgain(f.bases, BasesAgain(f.bases, f.models), ExportedRelationships(f.models));
    ChecksPass(BasesAgain(f.bases, f.models), ExportedRelationships(f.models));
  }

  lemma MetricsAccepted(f: Finished)
    requires Sound(f) && Known(f.bases, f.models)
    ensures UniqueNames(ExportedMetrics(f.models), OsiMetricName)
    ensures CheckMetrics(BasesAgain(f.bases, f.models), ExportedMetrics(f.models)).Ok?
  {
    hide Sound, Known, SameBases, MakeMetric, UniqueNames, CheckMetrics;
    var again, ms := BasesAgain(f.bases, f.models), ExportedMetrics(f.models);
    assert f.models[..|f.models|] == f.models;
    ExportedMetricsSound(f, |f.models|);
    SameAgain(f);
    forall m | m in ms
      ensures MakeMetric(again, m).Ok?
    {
      var j, source :| 0 <= j < |f.models| && Exports(f, j, source, m);
      SameMade(f.bases, again, OsiRelationship("", "", "", [], [], false), m, Relationship("", "", Relation("", ""), ManyToOne, Left, "", ""));
    }
    MetricChecksPass(again, ms);
  }

  ghost function Exported(f: Finished, name: string): OsiModel {
    OsiModel(name, ExportedDatasets(f.models), ExportedRelationships(f.models), ExportedMetrics(f.models), false)
  }

  lemma ReplaySucceeds(f: Finished, name: string)
    requires Sound(f) && Known(f.bases, f.models)
    ensures ImportModel(Exported(f, name), f.catalog, f.typeOf)
         == Ok(FinalModels(BasesAgain(f.bases, f.models), ExportedRelationships(f.models), ExportedMetrics(f.models)))
  {
    hide Sound, Known, FinalModel, CheckRelationships, CheckMetrics, ImportDatasets, UniqueNames;
    assert f.models[..|f.models|] == f.models;
    DatasetsAgain(f, |f.models|);
    RelationshipsAccepted(f);
    MetricsAccepted(f);
  }

  lemma SortedModels(f: Finished)
    requires Sound(f)
    ensures Sorted(f.models, ModelKey)
  {
  }

  lemma KeyKept(m: Model)
    ensures ModelKey(NormalizedModel(m)) == ModelKey(m)
  {
  }

  lemma ReplaySettles(f: Finished)
    requires Sound(f) && Known(f.bases, f.models)
    ensures var finals := FinalModels(BasesAgain(f.bases, f.models), ExportedRelationships(f.models), ExportedMetrics(f.models));
      NormalizedModels(Sort(finals, ModelKey)) == f.models
  {
    hide Sound, Known, FinalModel, NormalizedModel, ModelKey, Sort;
    var finals := FinalModels(BasesAgain(f.bases, f.models), ExportedRelationships(f.models), ExportedMetrics(f.models));
    SortedModels(f);
    forall i | 0 <= i < |finals|
      ensures NormalizedModel(finals[i]) == f.models[i] && ModelKey(finals[i]) == ModelKey(f.models[i])
    {
      SettledAgain(f, i);
      KeyKept(finals[i]);
    }
    SortFixesSorted(finals, ModelKey);
    assert NormalizedModels(finals) == f.models;
  }

  /** Importing the exported model succeeds and settles into the same models. */
  lemma ImportedAgain(f: Finished, name: string)
    requires Sound(f)
    ensures ImportModel(Exported(f, name), f.catalog, f.typeOf).Ok?
    ensures NormalizedModels(Sort(ImportModel(Exported(f, name), f.catalog, f.typeOf).value, ModelKey)) == f.models
  {
    AllKnown(f);
    hide Sound, Known, ImportModel, Sort;
    ReplaySucceeds(f, name);
    ReplaySettles(f);
  }

  // ----- the round trip -----

  /** Every successful import is finished in this sense. */
  lemma ImportIsSound(m: OsiModel, catalog: Catalog.Snapshot, typeOf: string -> Option<DataType>) returns (f: Finished)
    requires ImportModel(m, catalog, typeOf).Ok?
    ensures Sound(f) && f.catalog == catalog && f.typeOf == typeOf
    ensures f.models == NormalizedModels(Sort(ImportModel(m, catalog, typeOf).value, ModelKey))
  {
    var bases := ImportDatasets(m.datasets, catalog, typeOf).value;
    var finals := FinalModels(bases, m.relationships, m.metrics);
    f := Finished(bases, m.relationships, m.metrics, NormalizedModels(Sort(finals, ModelKey)), catalog, typeOf);
    hide ImportDatasets, CheckRelationships, CheckMetrics, MakeRelationship, MakeMetric, FinalModel, Sort, NormalizedModels;
    hide BasesSound, AllFieldsUnique, UniqueNames, Sorted, SettledFrom;
    ImportedBasesSound(m.datasets, catalog, typeOf);
    AllMade(bases, m.relationships);
    MetricChecksHold(bases, m.metrics);
    FieldsStayUnique(bases, m.relationships, catalog, typeOf);
    ModelsSettled(f, finals);
  }

  lemma FieldsStayUnique(bases: seq<Imported>, rs: seq<OsiRelationship>, catalog: Catalog.Snapshot, typeOf: string -> Option<DataType>)
    requires BasesSound(bases, catalog, typeOf) && CheckRelationships(bases, rs).Ok?
    ensures AllFieldsUnique(bases, rs) && UniqueNames(bases, ImportedName)
  {
    hide DatasetSound, CheckRelationships, FieldsOf;
    forall b | b in bases
      ensures UniqueNames(FieldsOf(bases, rs, b), FieldName)
    {
      var i :| 0 <= i < |bases| && bases[i] == b;
      BaseFieldsUnique(bases[i], catalog, typeOf);
      ChecksHold(bases, rs, b);
    }
  }

  lemma BaseFieldsUnique(b: Imported, catalog: Catalog.Snapshot, typeOf: string -> Option<DataType>)
    requires DatasetSound(b, catalog, typeOf)
    ensures UniqueNames(b.fields, FieldName)
  {
  }

  lemma ModelsSettled(f: Finished, finals: seq<Model>)
    requires UniqueNames(f.bases, ImportedName) && finals == FinalModels(f.bases, f.relationships, f.metrics)
    requires f.models == NormalizedModels(Sort(finals, ModelKey))
    ensures UniqueNames(f.models, ModelName) && Sorted(f.models, ModelKey)
    ensures forall i :: 0 <= i < |f.models| ==> SettledFrom(f, f.models[i])
    ensures forall i :: 0 <= i < |f.bases| ==> Lookup(f.models, ModelName, f.bases[i].name).Some?
  {
    hide Sort, NormalizedModel, FieldsOf, RelationshipsOf, MetricsOf;
    var sorted := Sort(finals, ModelKey);
    SortSorts(finals, ModelKey);
    DiffProofs.NormalizedModelsSorted(sorted);
    assert UniqueNames(finals, ModelName) by {
      assert forall i :: 0 <= i < |finals| ==> ModelName(finals[i]) == ImportedName(f.bases[i]);
    }
    DiffProofs.UniqueAfterPermutation(finals, sorted, ModelName);
    assert forall i :: 0 <= i < |sorted| ==> ModelName(f.models[i]) == ModelName(sorted[i]);
    forall i | 0 <= i < |f.models|
      ensures SettledFrom(f, f.models[i])
    {
      SameElements(sorted, finals, sorted[i]);
      var j :| 0 <= j < |finals| && finals[j] == sorted[i];
      LookupUnique(f.bases, ImportedName, f.bases[j]);
    }
    forall i | 0 <= i < |f.bases|
      ensures Lookup(f.models, ModelName, f.bases[i].name).Some?
    {
      SameElements(sorted, finals, finals[i]);
      var j :| 0 <= j < |sorted| && sorted[j] == finals[i];
      assert ModelName(f.models[j]) == f.bases[i].name && f.models[j] in f.models;
    }
  }

  /** Equal settled models give equal snapshots, hash included. */
  lemma HashedSame(xs: seq<Model>, ys: seq<Model>, hash: Snapshot -> string)
    requires NormalizedModels(Sort(xs, ModelKey)) == NormalizedModels(Sort(ys, ModelKey))
    ensures Hashed(xs, hash) == Hashed(ys, hash)
  {
  }

  lemma HashedFacts(models: seq<Model>, hash: Snapshot -> string)
    ensures var s := Hashed(models, hash);
      && s.schemaVersion == "1" && Normalized(s) == s && s.models == NormalizedModels(Sort(models, ModelKey))
      && hash(Normalized(s).(revisionHash := "")) == s.revisionHash
  {
    hide NormalizedModel, Sort;
    var n := Normalized(Snapshot("1", "", models));
    DiffProofs.NormalizedTwice(Snapshot("1", "", models));
    var s := Hashed(models, hash);
    assert Normalized(s) == Normalized(n).(revisionHash := s.revisionHash);
  }

  /**
   The OSI round trip. For every document that imports and has at least one dataset, exporting the
   snapshot with the same catalog under any portable name succeeds, and importing the exported
   document gives the identical snapshot, revision hash included.
   */
  lemma OsiRoundTrips(doc: OsiDocument, selected: Option<string>, name: string, c: Context)
    requires Import(doc, selected, c).Ok? && Import(doc, selected, c).value.models != [] && Portable(name)
    ensures var s := Import(doc, selected, c).value;
      Export(s, name, c).Ok? && Import(Export(s, name, c).value, None, c) == Ok(s)
  {
    hide ImportModel, ExportModels, Portable, Hashed, Sort, NormalizedModels;
    var m := SelectModel(doc.models, selected).value;
    var catalog := Catalog.ValidatedNormalized(c.catalog, c.catalogHash).value;
    var models := ImportModel(m, catalog, c.typeOf).value;
    var f := ImportIsSound(m, catalog, c.typeOf);
    var s := Hashed(models, c.hash);
    HashedFacts(models, c.hash);
    forall i | 0 <= i < |f.models|
      ensures Exportable(f.models[i])
    {
      SettledIsExportable(f, f.models[i]);
    }
    hide Sound, Exportable;
    ExportSucceeds(f.models, name);
    ImportedAgain(f, name);
    HashedSame(ImportModel(Exported(f, name), catalog, c.typeOf).value, models, c.hash);
    AloneImports(Exported(f, name), catalog, c);
  }

  lemma AloneImports(m: OsiModel, catalog: Catalog.Snapshot, c: Context)
    requires Portable(m.name) && !m.extended && Catalog.ValidatedNormalized(c.catalog, c.catalogHash) == Ok(catalog)
    requires ImportModel(m, catalog, c.typeOf).Ok?
    ensures Import(OsiDocument([m], false), None, c) == Ok(Hashed(ImportModel(m, catalog, c.typeOf).value, c.hash))
  {
    hide ImportModel, Hashed, Portable;
  }

  lemma ExportReadsNormal(s: Snapshot, name: string, c: Context)
    ensures Export(Normalized(s), name, c) == Export(s, name, c)
  {
    hide ExportModels, Import, NormalizedModels, Sort;
    DiffProofs.NormalizedTwice(s);
  }

  lemma ExportMeans(s: Snapshot, name: string, c: Context)
    requires Export(s, name, c).Ok?
    ensures Import(Export(s, name, c).value, None, c) == Ok(Normalized(s)) && Normalized(s).models != []
    ensures Portable(name)
  {
    hide Import, Normalized, Portable, Exportable;
    ExportedUnder(Normalized(s).models, name);
    AloneIsPortable(OsiDocument([ExportModels(Normalized(s).models, name).value], false), c);
  }

  lemma {:induction false} ExportedUnder(models: seq<Model>, name: string)
    requires ExportModels(models, name).Ok?
    ensures ExportModels(models, name).value.name == name
  {
  }

  lemma AloneIsPortable(doc: OsiDocument, c: Context)
    requires |doc.models| == 1 && Import(doc, None, c).Ok?
    ensures Portable(doc.models[0].name)
  {
    hide Portable, ImportModel;
  }

  /** A snapshot can be exported exactly if it holds a model and some document imports to it; what is exported does. */
  lemma ExportsExactly(s: Snapshot, name: string, c: Context)
    ensures Export(s, name, c).Ok? <==>
      (Portable(name) && Normalized(s).models != [] && exists doc, selected :: Import(doc, selected, c) == Ok(Normalized(s)))
    ensures Export(s, name, c).Ok? ==> Import(Export(s, name, c).value, None, c) == Ok(Normalized(s))
  {
    hide Import, Normalized, Portable, Export;
    if Export(s, name, c).Ok? {
      ExportMeans(s, name, c);
    }
    if Portable(name) && Normalized(s).models != [] {
      if doc, selected :| Import(doc, selected, c) == Ok(Normalized(s)) {
        OsiRoundTrips(doc, selected, name, c);
        ExportReadsNormal(s, name, c);
      }
    }
  }
}
