/** The importer as it runs: models are completed in place, relationship by relationship and metric by metric. */
module OsiImporter {
  import opened Prelude
  import opened Semantic
  import Catalog
  import opened Osi

  // ----- an error once found stays the result -----

  lemma {:induction false} DatasetErrorStays(ds: seq<OsiDataset>, k: nat, catalog: Catalog.Snapshot, typeOf: string -> Option<DataType>)
    requires k <= |ds| && ImportDatasets(ds[..k], catalog, typeOf).Err?
    ensures ImportDatasets(ds, catalog, typeOf) == ImportDatasets(ds[..k], catalog, typeOf)
    decreases |ds|
  {
    hide ImportDataset;
    if k < |ds| {
      assert ds[..|ds| - 1][..k] == ds[..k];
      DatasetErrorStays(ds[..|ds| - 1], k, catalog, typeOf);
    } else {
      assert ds[..k] == ds;
    }
  }

  lemma {:induction false} RelationshipErrorStays(bases: seq<Imported>, rs: seq<OsiRelationship>, k: nat)
    requires k <= |rs| && CheckRelationships(bases, rs[..k]).Err?
    ensures CheckRelationships(bases, rs) == CheckRelationships(bases, rs[..k])
    decreases |rs|
  {
    hide MakeRelationship, FieldsOf;
    if k < |rs| {
      assert rs[..|rs| - 1][..k] == rs[..k];
      RelationshipErrorStays(bases, rs[..|rs| - 1], k);
    } else {
      assert rs[..k] == rs;
    }
  }

  lemma {:induction false} MetricErrorStays(bases: seq<Imported>, ms: seq<OsiMetric>, k: nat)
    requires k <= |ms| && CheckMetrics(bases, ms[..k]).Err?
    ensures CheckMetrics(bases, ms) == CheckMetrics(bases, ms[..k])
    decreases |ms|
  {
    hide MakeMetric;
    if k < |ms| {
      assert ms[..|ms| - 1][..k] == ms[..k];
      MetricErrorStays(bases, ms[..|ms| - 1], k);
    } else {
      assert ms[..k] == ms;
    }
  }

  lemma {:induction false} BaseNamesUnique(ds: seq<OsiDataset>, catalog: Catalog.Snapshot, typeOf: string -> Option<DataType>)
    requires ImportDatasets(ds, catalog, typeOf).Ok?
    ensures UniqueNames(ImportDatasets(ds, catalog, typeOf).value, ImportedName)
  {
    if ds != [] {
      var before, d := ds[..|ds| - 1], ds[|ds| - 1];
      BaseNamesUnique(before, catalog, typeOf);
      assert ImportDataset(d, catalog, typeOf).value.name == d.name;
      hide ImportDataset;
      var bs := ImportDatasets(before, catalog, typeOf).value;
      assert forall i :: 0 <= i < |bs| ==> bs[i] in bs;
    }
  }

  // ----- the models as they stand after some relationships and metrics -----

  ghost predicate StandsAt(bases: seq<Imported>, rs: seq<OsiRelationship>, ms: seq<OsiMetric>, models: seq<Model>) {
    |models| == |bases| && forall i :: 0 <= i < |bases| ==> models[i] == FinalModel(bases, rs, ms, bases[i])
  }

  method IndexNamed(bases: seq<Imported>, name: string) returns (i: nat)
    requires Lookup(bases, ImportedName, name).Some?
    ensures i < |bases| && bases[i].name == name && Lookup(bases, ImportedName, name) == Some(bases[i])
  {
    i := 0;
    while bases[i].name != name
      invariant i < |bases| && Lookup(bases[i..], ImportedName, name) == Lookup(bases, ImportedName, name)
      decreases |bases| - i
    {
      assert bases[i..][1..] == bases[i + 1..];
      i := i + 1;
    }
  }

  /** Pushes projected fields one by one. */
  method PushProjected(fields: seq<Field>, more: seq<Field>) returns (r: Result<seq<Field>, OsiError>)
    ensures r == PushFields(fields, more)
    ensures r.Ok? ==> r.value == fields + more
  {
    var result := fields;
    for i := 0 to |more|
      invariant PushFields(fields, more) == PushFields(result, more[i..]) && result == fields + more[..i]
    {
      assert more[i..][1..] == more[i + 1..];
      if Lookup(result, FieldName, more[i].semanticName).Some? {
        return Err(InvalidRelationship);
      }
      result := result + [more[i]];
    }
    assert more[|more|..] == [] && more[..|more|] == more;
    return Ok(result);
  }

  lemma RelationshipStep(bases: seq<Imported>, rs: seq<OsiRelationship>, k: nat, ms: seq<OsiMetric>, models: seq<Model>, i: nat)
    requires k < |rs| && StandsAt(bases, rs[..k], ms, models) && UniqueNames(bases, ImportedName) && i < |bases|
    requires MakeRelationship(bases, rs[k]).Ok? && rs[k].from == bases[i].name
    ensures var rel := MakeRelationship(bases, rs[k]).value;
      StandsAt(bases, rs[..k + 1], ms, models[i := models[i].(relationships := models[i].relationships + [rel], fields := models[i].fields + Projection(bases, rel))])
  {
    hide MakeRelationship, Projection, MetricsOf;
    var rel := MakeRelationship(bases, rs[k]).value;
    assert rs[..k + 1][..k] == rs[..k];
    forall j | 0 <= j < |bases|
      ensures RelationshipsOf(bases, rs[..k + 1], bases[j].name) == RelationshipsOf(bases, rs[..k], bases[j].name) + (if j == i then [rel] else [])
      ensures FieldsOf(bases, rs[..k + 1], bases[j]) == FieldsOf(bases, rs[..k], bases[j]) + (if j == i then Projection(bases, rel) else [])
    {
      assert j < i ==> ImportedName(bases[j]) != ImportedName(bases[i]);
      assert i < j ==> ImportedName(bases[i]) != ImportedName(bases[j]);
      var earlier := RelationshipsOf(bases, rs[..k], bases[j].name);
      if j == i {
        ProjectionsStep(bases, bases[j].fields, earlier, rel);
      } else {
        assert earlier + [] == earlier;
        assert FieldsOf(bases, rs[..k], bases[j]) + [] == FieldsOf(bases, rs[..k], bases[j]);
      }
    }
  }

  lemma ProjectionsStep(bases: seq<Imported>, fields: seq<Field>, rels: seq<Relationship>, rel: Relationship)
    ensures fields + Projections(bases, rels + [rel]) == (fields + Projections(bases, rels)) + Projection(bases, rel)
  {
    hide Projection;
    assert (rels + [rel])[..|rels|] == rels;
  }

  /** `import_relationship`: completes the model the relationship starts from. */
  method ImportRelationship(bases: seq<Imported>, rs: seq<OsiRelationship>, k: nat, models: seq<Model>) returns (r: Result<seq<Model>, OsiError>)
    requires UniqueNames(bases, ImportedName) && k < |rs| && CheckRelationships(bases, rs[..k]).Ok? && StandsAt(bases, rs[..k], [], models)
    ensures r.Ok? ==> CheckRelationships(bases, rs[..k + 1]).Ok? && StandsAt(bases, rs[..k + 1], [], r.value)
    ensures r.Err? ==> CheckRelationships(bases, rs[..k + 1]) == Err(r.error)
  {
    hide MakeRelationship, Projection, UniqueNames, FieldsOf, RelationshipsOf, PushFields;
    assert rs[..k + 1][..k] == rs[..k];
    var made := MakeRelationship(bases, rs[k]);
    if made.Err? {
      return Err(made.error);
    }
    FromIsKnown(bases, rs[k]);
    var i := IndexNamed(bases, rs[k].from);
    if Lookup(models[i].relationships, RelationshipName, rs[k].name).Some? {
      return Err(DuplicateName("relationship", rs[k].name));
    }
    var pushed := PushProjected(models[i].fields, Projection(bases, made.value));
    if pushed.Err? {
      return Err(pushed.error);
    }
    RelationshipStep(bases, rs, k, [], models, i);
    return Ok(models[i := models[i].(relationships := models[i].relationships + [made.value], fields := pushed.value)]);
  }

  method ImportRelationships(bases: seq<Imported>, rs: seq<OsiRelationship>, start: seq<Model>) returns (r: Result<seq<Model>, OsiError>)
    requires UniqueNames(bases, ImportedName) && StandsAt(bases, [], [], start)
    ensures r.Ok? <==> CheckRelationships(bases, rs).Ok?
    ensures r.Ok? ==> StandsAt(bases, rs, [], r.value)
    ensures r.Err? ==> CheckRelationships(bases, rs) == Err(r.error)
  {
    hide StandsAt, UniqueNames, MakeRelationship, FieldsOf, RelationshipsOf, PushFields;
    var models := start;
    assert rs[..0] == [];
    for k := 0 to |rs|
      invariant CheckRelationships(bases, rs[..k]).Ok? && StandsAt(bases, rs[..k], [], models)
    {
      r := ImportRelationship(bases, rs, k, models);
      if r.Err? {
        RelationshipErrorStays(bases, rs, k + 1);
        return;
      }
      models := r.value;
    }
    assert rs[..|rs|] == rs;
    return Ok(models);
  }

  lemma FromIsKnown(bases: seq<Imported>, r: OsiRelationship)
    requires MakeRelationship(bases, r).Ok?
    ensures Lookup(bases, ImportedName, r.from).Some?
  {
  }

  lemma DatasetIsKnown(bases: seq<Imported>, m: OsiMetric)
    requires MakeMetric(bases, m).Ok?
    ensures Lookup(bases, ImportedName, MakeMetric(bases, m).value.dataset).Some?
  {
  }

  lemma MetricStep(bases: seq<Imported>, rs: seq<OsiRelationship>, ms: seq<OsiMetric>, k: nat, models: seq<Model>, i: nat)
    requires k < |ms| && StandsAt(bases, rs, ms[..k], models) && UniqueNames(bases, ImportedName) && i < |bases|
    requires MakeMetric(bases, ms[k]).Ok? && MakeMetric(bases, ms[k]).value.dataset == bases[i].name
    ensures StandsAt(bases, rs, ms[..k + 1], models[i := models[i].(metrics := models[i].metrics + [MakeMetric(bases, ms[k]).value.metric])])
  {
    hide MakeMetric, FieldsOf, RelationshipsOf;
    assert ms[..k + 1][..k] == ms[..k];
    forall j | 0 <= j < |bases|
      ensures MetricsOf(bases, ms[..k + 1], bases[j].name)
           == MetricsOf(bases, ms[..k], bases[j].name) + (if j == i then [MakeMetric(bases, ms[k]).value.metric] else [])
    {
      assert j < i ==> ImportedName(bases[j]) != ImportedName(bases[i]);
      assert i < j ==> ImportedName(bases[i]) != ImportedName(bases[j]);
    }
  }

  /** `import_metric`: adds the metric to the model it names. */
  method ImportMetric(bases: seq<Imported>, rs: seq<OsiRelationship>, ms: seq<OsiMetric>, k: nat, models: seq<Model>) returns (r: Result<seq<Model>, OsiError>)
    requires UniqueNames(bases, ImportedName) && k < |ms| && CheckMetrics(bases, ms[..k]).Ok? && StandsAt(bases, rs, ms[..k], models)
    ensures r.Ok? ==> CheckMetrics(bases, ms[..k + 1]).Ok? && StandsAt(bases, rs, ms[..k + 1], r.value)
    ensures r.Err? ==> CheckMetrics(bases, ms[..k + 1]) == Err(r.error)
  {
    hide MakeMetric, FieldsOf, RelationshipsOf, MetricsOf, UniqueNames;
    assert ms[..k + 1][..k] == ms[..k];
    var made := MakeMetric(bases, ms[k]);
    if made.Err? {
      return Err(made.error);
    }
    DatasetIsKnown(bases, ms[k]);
    var i := IndexNamed(bases, made.value.dataset);
    if Lookup(models[i].metrics, MetricName, ms[k].name).Some? {
      return Err(DuplicateName("metric", ms[k].name));
    }
    MetricStep(bases, rs, ms, k, models, i);
    return Ok(models[i := models[i].(metrics := models[i].metrics + [made.value.metric])]);
  }

  method ImportMetrics(bases: seq<Imported>, rs: seq<OsiRelationship>, ms: seq<OsiMetric>, start: seq<Model>) returns (r: Result<seq<Model>, OsiError>)
    requires UniqueNames(bases, ImportedName) && StandsAt(bases, rs, [], start)
    ensures r.Ok? <==> CheckMetrics(bases, ms).Ok?
    ensures r.Ok? ==> StandsAt(bases, rs, ms, r.value)
    ensures r.Err? ==> CheckMetrics(bases, ms) == Err(r.error)
  {
    hide StandsAt, UniqueNames, MakeMetric, MetricsOf;
    var models := start;
    assert ms[..0] == [];
    for k := 0 to |ms|
      invariant CheckMetrics(bases, ms[..k]).Ok? && StandsAt(bases, rs, ms[..k], models)
    {
      r := ImportMetric(bases, rs, ms, k, models);
      if r.Err? {
        MetricErrorStays(bases, ms, k + 1);
        return;
      }
      models := r.value;
    }
    assert ms[..|ms|] == ms;
    return Ok(models);
  }

  method ImportBases(ds: seq<OsiDataset>, catalog: Catalog.Snapshot, typeOf: string -> Option<DataType>) returns (r: Result<seq<Imported>, OsiError>)
    ensures r == ImportDatasets(ds, catalog, typeOf)
  {
    hide ImportDataset;
    var bases: seq<Imported> := [];
    for k := 0 to |ds|
      invariant ImportDatasets(ds[..k], catalog, typeOf) == Ok(bases)
    {
      assert ds[..k + 1][..k] == ds[..k];
      if !Portable(ds[k].name) {
        DatasetErrorStays(ds, k + 1, catalog, typeOf);
        return Err(InvalidIdentifier(ds[k].name));
      }
      if Lookup(bases, ImportedName, ds[k].name).Some? {
        DatasetErrorStays(ds, k + 1, catalog, typeOf);
        return Err(DuplicateName("dataset", ds[k].name));
      }
      var b := ImportDataset(ds[k], catalog, typeOf);
      if b.Err? {
        DatasetErrorStays(ds, k + 1, catalog, typeOf);
        return Err(b.error);
      }
      bases := bases + [b.value];
    }
    assert ds[..|ds|] == ds;
    return Ok(bases);
  }

  /** `ensure_unique_names`: the first name seen before, if there is one. */
  method EnsureUnique<T>(xs: seq<T>, nameOf: T -> string) returns (repeated: Option<string>)
    ensures repeated.None? <==> UniqueNames(xs, nameOf)
    ensures repeated.Some? ==> repeated.value == nameOf(xs[FirstRepeat(xs, nameOf)])
  {
    var seen: set<string> := {};
    for i := 0 to |xs|
      invariant UniqueNames(xs[..i], nameOf) && seen == set j | 0 <= j < i :: nameOf(xs[j])
    {
      if nameOf(xs[i]) in seen {
        RepeatIs(xs, nameOf, i);
        return Some(nameOf(xs[i]));
      }
      seen := seen + {nameOf(xs[i])};
    }
    assert xs[..|xs|] == xs;
    return None;
  }

  lemma RepeatIs<T>(xs: seq<T>, nameOf: T -> string, i: nat)
    requires i < |xs| && UniqueNames(xs[..i], nameOf) && exists j :: 0 <= j < i && nameOf(xs[j]) == nameOf(xs[i])
    ensures !UniqueNames(xs, nameOf) && FirstRepeat(xs, nameOf) == i
  {
    assert xs[..|xs|] == xs;
    forall n | i < n <= |xs|
      ensures !UniqueNames(xs[..n], nameOf)
    {
      RepeatStays(xs, nameOf, i, n);
    }
    var k := FirstRepeat(xs, nameOf);
    forall n | k < n <= |xs|
      ensures !UniqueNames(xs[..n], nameOf)
    {
      RepeatStays(xs, nameOf, k, n);
    }
  }

  lemma RepeatStays<T>(xs: seq<T>, nameOf: T -> string, i: nat, n: nat)
    requires i < n <= |xs| && exists j :: 0 <= j < i && nameOf(xs[j]) == nameOf(xs[i])
    ensures !UniqueNames(xs[..n], nameOf)
  {
    var j :| 0 <= j < i && nameOf(xs[j]) == nameOf(xs[i]);
    assert nameOf(xs[..n][j]) == nameOf(xs[..n][i]);
  }

  function EmptyModel(b: Imported): Model {
    Model(b.name, b.source, None, true, None, b.fields, [], [])
  }

  lemma StandsEmpty(bases: seq<Imported>)
    ensures StandsAt(bases, [], [], seq(|bases|, i requires 0 <= i < |bases| => EmptyModel(bases[i])))
  {
    forall b: Imported
      ensures FinalModel(bases, [], [], b) == EmptyModel(b)
    {
      assert b.fields + [] == b.fields;
    }
  }

  /** The loops of `import`, from datasets to finished models. */
  method ImportAll(m: OsiModel, catalog: Catalog.Snapshot, typeOf: string -> Option<DataType>) returns (r: Result<seq<Model>, OsiError>)
    ensures r == ImportModel(m, catalog, typeOf)
  {
    hide ImportDatasets, CheckRelationships, CheckMetrics, FinalModel;
    var bases :- ImportBases(m.datasets, catalog, typeOf);
    BaseNamesUnique(m.datasets, catalog, typeOf);
    var repeated := EnsureUnique(m.relationships, OsiRelationshipName);
    if repeated.Some? {
      return Err(DuplicateName("relationship", repeated.value));
    }
    repeated := EnsureUnique(m.metrics, OsiMetricName);
    if repeated.Some? {
      return Err(DuplicateName("metric", repeated.value));
    }
    StandsEmpty(bases);
    var models := seq(|bases|, i requires 0 <= i < |bases| => EmptyModel(bases[i]));
    var related :- ImportRelationships(bases, m.relationships, models);
    var finished :- ImportMetrics(bases, m.relationships, m.metrics, related);
    assert finished == FinalModels(bases, m.relationships, m.metrics);
    return Ok(finished);
  }
}
