/** The semantic diff of two snapshots and its compatibility verdict. */
module Diff {
  import opened Prelude
  import opened Order
  import opened Semantic
  import opened Snapshots

  datatype Compatibility = Compatible | Breaking

  datatype ChangeKind = Added | Removed | Modified

  datatype ObjectKind = ModelObject | FieldObject | MetricObject | RelationshipObject

  datatype Change = Change(path: string, objectKind: ObjectKind, kind: ChangeKind, compatibility: Compatibility)

  datatype Summary = Summary(total: nat, compatible: nat, breaking: nat)

  datatype SemanticDiff = SemanticDiff(
    fromRevision: string,
    toRevision: string,
    compatibility: Compatibility,
    summary: Summary,
    changes: seq<Change>)

  datatype DiffError = UnsupportedSnapshotVersion(version: string) | DuplicateObject(kind: string, name: string)

  /** `name` is the first name to come a second time. */
  ghost predicate FirstRepeat<T>(objects: seq<T>, nameOf: T -> string, name: string) {
    exists k :: 0 <= k < |objects| && nameOf(objects[k]) == name && RepeatsAt(objects, nameOf, k)
  }

  ghost predicate RepeatsAt<T>(objects: seq<T>, nameOf: T -> string, k: nat)
    requires k < |objects|
  {
    UniqueNames(objects[..k], nameOf) && exists j :: 0 <= j < k && nameOf(objects[j]) == nameOf(objects[k])
  }

  /** Builds the name index of a collection, refusing a name that occurs twice. */
  method NamedObjects<T>(objects: seq<T>, kind: string, nameOf: T -> string) returns (r: Result<map<string, T>, DiffError>)
    ensures r.Ok? <==> UniqueNames(objects, nameOf)
    ensures r.Ok? ==> forall n :: n in r.value <==> Lookup(objects, nameOf, n).Some?
    ensures r.Ok? ==> forall n :: n in r.value ==> Lookup(objects, nameOf, n) == Some(r.value[n])
    ensures r.Err? ==> r.error.DuplicateObject? && r.error.kind == kind && FirstRepeat(objects, nameOf, r.error.name)
  {
    var named: map<string, T> := map[];
    var i := 0;
    while i < |objects|
      invariant 0 <= i <= |objects|
      invariant forall n :: n in named <==> exists j :: 0 <= j < i && nameOf(objects[j]) == n
      invariant forall j :: 0 <= j < i ==> nameOf(objects[j]) in named && named[nameOf(objects[j])] == objects[j]
      invariant forall j, k :: 0 <= j < k < i ==> nameOf(objects[j]) != nameOf(objects[k])
    {
      var name := nameOf(objects[i]);
      if name in named {
        assert RepeatsAt(objects, nameOf, i);
        return Err(DuplicateObject(kind, name));
      }
      named := named[name := objects[i]];
      i := i + 1;
    }
    forall n
      ensures n in named <==> Lookup(objects, nameOf, n).Some?
      ensures n in named ==> Lookup(objects, nameOf, n) == Some(named[n])
    {
      if n in named {
        var j :| 0 <= j < i && nameOf(objects[j]) == n;
        LookupUnique(objects, nameOf, objects[j]);
      }
    }
    return Ok(named);
  }

  predicate ModelNamesUnique(m: Model) {
    && UniqueNames(m.fields, FieldName) && UniqueNames(m.metrics, MetricName) && UniqueNames(m.relationships, RelationshipName)
  }

  predicate Diffable(s: Snapshot) {
    && (s.schemaVersion == "1" || s.schemaVersion == "2")
    && UniqueNames(s.models, ModelName)
    && forall m :: m in s.models ==> ModelNamesUnique(m)
  }

  /** The first of a model's three collections with a repeated name, and that name. */
  ghost predicate ModelRefused(m: Model, e: DiffError) {
    && e.DuplicateObject?
    && if !UniqueNames(m.fields, FieldName) then e.kind == "field" && FirstRepeat(m.fields, FieldName, e.name)
       else if !UniqueNames(m.metrics, MetricName) then e.kind == "metric" && FirstRepeat(m.metrics, MetricName, e.name)
       else e.kind == "relationship" && FirstRepeat(m.relationships, RelationshipName, e.name)
  }

  /** The first check of a snapshot that fails: its version, its models' names, then model after model. */
  ghost predicate Refused(s: Snapshot, e: DiffError) {
    if s.schemaVersion != "1" && s.schemaVersion != "2" then e == UnsupportedSnapshotVersion(s.schemaVersion)
    else if !UniqueNames(s.models, ModelName) then e.DuplicateObject? && e.kind == "model" && FirstRepeat(s.models, ModelName, e.name)
    else
      exists i ::
        && 0 <= i < |s.models| && ModelRefused(s.models[i], e) && !ModelNamesUnique(s.models[i])
        && forall j :: 0 <= j < i ==> ModelNamesUnique(s.models[j])
  }

  // ----- one named collection -----

  /** What the first loop pushes for one object of the old collection. */
  function OldObjectChanges<T(==)>(prefix: string, kind: ObjectKind, x: T, after: seq<T>, nameOf: T -> string,
                                   visible: T -> bool, modified: (T, T) -> Compatibility): seq<Change>
  {
    match Lookup(after, nameOf, nameOf(x))
    case None => [Change(prefix + nameOf(x), kind, Removed, if visible(x) then Breaking else Compatible)]
    case Some(y) => if x != y then [Change(prefix + nameOf(x), kind, Modified, modified(x, y))] else []
  }

  function OldChanges<T(==)>(prefix: string, kind: ObjectKind, before: seq<T>, after: seq<T>, nameOf: T -> string,
                             visible: T -> bool, modified: (T, T) -> Compatibility): seq<Change>
  {
    if before == [] then []
    else OldChanges(prefix, kind, before[..|before| - 1], after, nameOf, visible, modified)
         + OldObjectChanges(prefix, kind, before[|before| - 1], after, nameOf, visible, modified)
  }

  function NewObjectChanges<T>(prefix: string, kind: ObjectKind, y: T, before: seq<T>, nameOf: T -> string): seq<Change> {
    if Lookup(before, nameOf, nameOf(y)).None? then [Change(prefix + nameOf(y), kind, Added, Compatible)] else []
  }

  function NewChanges<T>(prefix: string, kind: ObjectKind, before: seq<T>, after: seq<T>, nameOf: T -> string): seq<Change> {
    if after == [] then []
    else NewChanges(prefix, kind, before, after[..|after| - 1], nameOf)
         + NewObjectChanges(prefix, kind, after[|after| - 1], before, nameOf)
  }

  function NamedChanges<T(==)>(prefix: string, kind: ObjectKind, before: seq<T>, after: seq<T>, nameOf: T -> string,
                               visible: T -> bool, modified: (T, T) -> Compatibility): seq<Change>
  {
    OldChanges(prefix, kind, before, after, nameOf, visible, modified) + NewChanges(prefix, kind, before, after, nameOf)
  }

  lemma OldChangesStep<T>(prefix: string, kind: ObjectKind, before: seq<T>, i: nat, after: seq<T>, nameOf: T -> string,
                          visible: T -> bool, modified: (T, T) -> Compatibility)
    requires i < |before|
    ensures OldChanges(prefix, kind, before[..i + 1], after, nameOf, visible, modified)
            == OldChanges(prefix, kind, before[..i], after, nameOf, visible, modified)
               + OldObjectChanges(prefix, kind, before[i], after, nameOf, visible, modified)
  {
    assert before[..i + 1][..i] == before[..i];
  }

  lemma NewChangesStep<T>(prefix: string, kind: ObjectKind, before: seq<T>, after: seq<T>, i: nat, nameOf: T -> string)
    requires i < |after|
    ensures NewChanges(prefix, kind, before, after[..i + 1], nameOf)
            == NewChanges(prefix, kind, before, after[..i], nameOf) + NewObjectChanges(prefix, kind, after[i], before, nameOf)
  {
    assert after[..i + 1][..i] == after[..i];
  }

  method PushOld<T(==)>(prefix: string, kind: ObjectKind, before: seq<T>, after: seq<T>, nameOf: T -> string,
                        visible: T -> bool, modified: (T, T) -> Compatibility) returns (changes: seq<Change>)
    ensures changes == OldChanges(prefix, kind, before, after, nameOf, visible, modified)
  {
    changes := [];
    var i := 0;
    while i < |before|
      invariant 0 <= i <= |before|
      invariant changes == OldChanges(prefix, kind, before[..i], after, nameOf, visible, modified)
    {
      var x := before[i];
      OldChangesStep(prefix, kind, before, i, after, nameOf, visible, modified);
      match Lookup(after, nameOf, nameOf(x)) {
        case None =>
          changes := changes + [Change(prefix + nameOf(x), kind, Removed, if visible(x) then Breaking else Compatible)];
        case Some(y) =>
          if x != y {
            changes := changes + [Change(prefix + nameOf(x), kind, Modified, modified(x, y))];
          }
      }
      i := i + 1;
    }
    assert before[..i] == before;
  }

  method PushNew<T>(prefix: string, kind: ObjectKind, before: seq<T>, after: seq<T>, nameOf: T -> string) returns (changes: seq<Change>)
    ensures changes == NewChanges(prefix, kind, before, after, nameOf)
  {
    changes := [];
    var i := 0;
    while i < |after|
      invariant 0 <= i <= |after|
      invariant changes == NewChanges(prefix, kind, before, after[..i], nameOf)
    {
      NewChangesStep(prefix, kind, before, after, i, nameOf);
      if Lookup(before, nameOf, nameOf(after[i])).None? {
        changes := changes + [Change(prefix + nameOf(after[i]), kind, Added, Compatible)];
      }
      i := i + 1;
    }
    assert after[..i] == after;
  }

  /** `diff_named`: one loop over the old names, then one over the new ones. */
  method DiffNamed<T(==)>(prefix: string, kind: ObjectKind, before: seq<T>, after: seq<T>, nameOf: T -> string,
                          visible: T -> bool, modified: (T, T) -> Compatibility) returns (changes: seq<Change>)
    ensures changes == NamedChanges(prefix, kind, before, after, nameOf, visible, modified)
  {
    var older := PushOld(prefix, kind, before, after, nameOf, visible, modified);
    var newer := PushNew(prefix, kind, before, after, nameOf);
    changes := older + newer;
  }

  function FieldVisible(f: Field): bool { f.visible }

  function MetricVisible(m: Metric): bool { m.visible }

  function AlwaysVisible(r: Relationship): bool { true }

  function FieldCompatibility(before: Field, after: Field): Compatibility {
    if !before.visible && after.visible && before.dataType == after.dataType && before.column == after.column
       && before.relationship == after.relationship && before.timeDimension == after.timeDimension && before.entityKey == after.entityKey
    then Compatible else Breaking
  }

  function MetricCompatibility(before: Metric, after: Metric): Compatibility {
    if !before.visible && after.visible && before.dataType == after.dataType && before.aggregation == after.aggregation
       && before.field == after.field && before.filter == after.filter && before.additivity == after.additivity
       && before.aggregationAnchor == after.aggregationAnchor
    then Compatible else Breaking
  }

  function AlwaysBreaking(before: Relationship, after: Relationship): Compatibility { Breaking }

  // ----- models -----

  predicate SameMetadata(a: Model, b: Model) {
    a.source == b.source && a.timezone == b.timezone && a.queryable == b.queryable && a.writable == b.writable
  }

  function ModelCompatibility(before: Model, after: Model): Compatibility {
    if before.source != after.source || before.timezone != after.timezone || (before.queryable && !after.queryable)
       || (before.writable.Some? && before.writable != after.writable)
    then Breaking else Compatible
  }

  function OldModelChanges(x: Model, after: seq<Model>): seq<Change> {
    var path := "models." + x.semanticName;
    match Lookup(after, ModelName, x.semanticName)
    case None => [Change(path, ModelObject, Removed, Breaking)]
    case Some(y) =>
      (if SameMetadata(x, y) then [] else [Change(path, ModelObject, Modified, ModelCompatibility(x, y))])
      + NamedChanges(path + ".fields.", FieldObject, x.fields, y.fields, FieldName, FieldVisible, FieldCompatibility)
      + NamedChanges(path + ".metrics.", MetricObject, x.metrics, y.metrics, MetricName, MetricVisible, MetricCompatibility)
      + NamedChanges(path + ".relationships.", RelationshipObject, x.relationships, y.relationships, RelationshipName, AlwaysVisible, AlwaysBreaking)
  }

  function OldModelsChanges(before: seq<Model>, after: seq<Model>): seq<Change> {
    if before == [] then []
    else OldModelsChanges(before[..|before| - 1], after) + OldModelChanges(before[|before| - 1], after)
  }

  function AllChanges(before: Snapshot, after: Snapshot): seq<Change> {
    OldModelsChanges(before.models, after.models) + NewChanges("models.", ModelObject, before.models, after.models, ModelName)
  }

  function KindRank(k: ChangeKind): string {
    match k case Removed => "0" case Modified => "1" case Added => "2"
  }

  function ChangeKey(c: Change): seq<string> { [c.path, KindRank(c.kind)] }

  function CountBreaking(cs: seq<Change>): (n: nat)
    ensures n <= |cs|
    ensures n == 0 <==> forall c :: c in cs ==> c.compatibility == Compatible
  {
    if cs == [] then 0 else (if cs[0].compatibility == Breaking then 1 else 0) + CountBreaking(cs[1..])
  }

  function DiffOf(before: Snapshot, after: Snapshot): SemanticDiff {
    Summarized(before, after, Sort(AllChanges(Normalized(before), Normalized(after)), ChangeKey))
  }

  function Summarized(before: Snapshot, after: Snapshot, changes: seq<Change>): SemanticDiff {
    var breaking := CountBreaking(changes);
    SemanticDiff(before.revisionHash, after.revisionHash, if breaking == 0 then Compatible else Breaking,
                 Summary(|changes|, |changes| - breaking, breaking), changes)
  }

  /** The checks that precede a diff: a known version and unique names throughout. */
  method ValidateVersion(s: Snapshot) returns (r: Result<(), DiffError>)
    ensures r.Ok? <==> Diffable(s)
    ensures r.Err? ==> Refused(s, r.error)
  {
    hide FirstRepeat;
    if s.schemaVersion != "1" && s.schemaVersion != "2" {
      return Err(UnsupportedSnapshotVersion(s.schemaVersion));
    }
    var models := NamedObjects(s.models, "model", ModelName);
    if models.Err? {
      return Err(models.error);
    }
    var i := 0;
    while i < |s.models|
      invariant 0 <= i <= |s.models|
      invariant forall j :: 0 <= j < i ==> ModelNamesUnique(s.models[j])
    {
      assert s.models[i] in s.models;
      var fields := NamedObjects(s.models[i].fields, "field", FieldName);
      if fields.Err? {
        return Err(fields.error);
      }
      var metrics := NamedObjects(s.models[i].metrics, "metric", MetricName);
      if metrics.Err? {
        return Err(metrics.error);
      }
      var relationships := NamedObjects(s.models[i].relationships, "relationship", RelationshipName);
      if relationships.Err? {
        return Err(relationships.error);
      }
      i := i + 1;
    }
    return Ok(());
  }

  method DiffModel(x: Model, after: seq<Model>) returns (changes: seq<Change>)
    ensures changes == OldModelChanges(x, after)
  {
    var path := "models." + x.semanticName;
    match Lookup(after, ModelName, x.semanticName) {
      case None => return [Change(path, ModelObject, Removed, Breaking)];
      case Some(y) =>
        var metadata := if SameMetadata(x, y) then [] else [Change(path, ModelObject, Modified, ModelCompatibility(x, y))];
        var fields := DiffNamed(path + ".fields.", FieldObject, x.fields, y.fields, FieldName, FieldVisible, FieldCompatibility);
        var metrics := DiffNamed(path + ".metrics.", MetricObject, x.metrics, y.metrics, MetricName, MetricVisible, MetricCompatibility);
        var relationships := DiffNamed(path + ".relationships.", RelationshipObject, x.relationships, y.relationships, RelationshipName, AlwaysVisible, AlwaysBreaking);
        return metadata + fields + metrics + relationships;
    }
  }

  lemma OldModelsStep(before: seq<Model>, i: nat, after: seq<Model>)
    requires i < |before|
    ensures OldModelsChanges(before[..i + 1], after) == OldModelsChanges(before[..i], after) + OldModelChanges(before[i], after)
  {
    assert before[..i + 1][..i] == before[..i];
  }

  method DiffModels(before: seq<Model>, after: seq<Model>) returns (changes: seq<Change>)
    ensures changes == OldModelsChanges(before, after)
  {
    changes := [];
    var i := 0;
    while i < |before|
      invariant 0 <= i <= |before|
      invariant changes == OldModelsChanges(before[..i], after)
    {
      OldModelsStep(before, i, after);
      var own := DiffModel(before[i], after);
      changes := changes + own;
      i := i + 1;
    }
    assert before[..i] == before;
  }

  method DiffNormalized(before: Snapshot, after: Snapshot) returns (changes: seq<Change>)
    ensures changes == Sort(AllChanges(before, after), ChangeKey)
  {
    changes := DiffModels(before.models, after.models);
    var added := PushNew("models.", ModelObject, before.models, after.models, ModelName);
    changes := Sort(changes + added, ChangeKey);
  }

  /** `diff_snapshots`: refused for the first check that fails, on the old snapshot before the new one. */
  method DiffSnapshots(before: Snapshot, after: Snapshot) returns (r: Result<SemanticDiff, DiffError>)
    ensures r.Ok? <==> Diffable(before) && Diffable(after)
    ensures r.Ok? ==> r.value == DiffOf(before, after)
    ensures r.Err? ==> Refused(if Diffable(before) then after else before, r.error)
  {
    hide Diffable, Refused, Normalized, AllChanges, Summarized;
    var checked := ValidateVersion(before);
    if checked.Err? {
      return Err(checked.error);
    }
    checked := ValidateVersion(after);
    if checked.Err? {
      return Err(checked.error);
    }
    var older := Normalize(before);
    var newer := Normalize(after);
    var changes := DiffNormalized(older, newer);
    return Ok(Summarized(before, after, changes));
  }
}
