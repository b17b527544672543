/** What a semantic diff reports: exactly one thing for each place in which two snapshots differ, and what it says there. */
module DiffExact {
  import opened Prelude
  import opened Order
  import opened Bags
  import opened Semantic
  import opened Snapshots
  import opened Diff
  import opened DiffProofs
  import opened DiffPaths

  // ----- the change at a place -----

  /** What is reported of an object that one or both snapshots have under a name. */
  ghost function ObjectChange<T>(path: string, kind: ObjectKind, before: Option<T>, after: Option<T>, visible: T -> bool, harmless: (T, T) -> bool): Option<Change> {
    if before.None? then if after.None? then None else Some(Change(path, kind, Added, Compatible))
    else if after.None? then Some(Change(path, kind, Removed, if visible(before.value) then Breaking else Compatible))
    else if before.value == after.value then None
    else Some(Change(path, kind, Modified, if harmless(before.value, after.value) then Compatible else Breaking))
  }

  ghost predicate SeenField(f: Field) { f.visible }

  ghost predicate SeenMetric(m: Metric) { m.visible }

  ghost predicate SeenAlways(r: Relationship) { true }

  /** Only made visible; whether it is nullable plays no part. */
  ghost predicate FieldShown(x: Field, y: Field) {
    !x.visible && y == x.(visible := true, nullable := y.nullable)
  }

  ghost predicate MetricShown(x: Metric, y: Metric) {
    !x.visible && y == x.(visible := true)
  }

  ghost predicate Never(x: Relationship, y: Relationship) { false }

  /** The write policy, whatever the order of its fields and conflict fields. */
  ghost function Policy(m: Model): Option<WritableModel> {
    if m.writable.None? then None else Some(NormalizedWritable(m.writable.value))
  }

  ghost predicate SameModelData(x: Model, y: Model) {
    y.source == x.source && y.timezone == x.timezone && y.queryable == x.queryable && Policy(y) == Policy(x)
  }

  /** A model may become queryable, and writable, but not lose or change anything. */
  ghost predicate ModelShown(x: Model, y: Model) {
    y.source == x.source && y.timezone == x.timezone && (x.queryable ==> y.queryable) && (x.writable.Some? ==> Policy(y) == Policy(x))
  }

  ghost function ModelChange(path: string, before: Option<Model>, after: Option<Model>): Option<Change> {
    if before.None? then if after.None? then None else Some(Change(path, ModelObject, Added, Compatible))
    else if after.None? then Some(Change(path, ModelObject, Removed, Breaking))
    else if SameModelData(before.value, after.value) then None
    else Some(Change(path, ModelObject, Modified, if ModelShown(before.value, after.value) then Compatible else Breaking))
  }

  ghost function MemberChange(path: string, kind: MemberKind, x: Model, y: Model, name: string): Option<Change> {
    match kind
    case FieldObject => ObjectChange(path, kind, Lookup(x.fields, FieldName, name), Lookup(y.fields, FieldName, name), SeenField, FieldShown)
    case MetricObject => ObjectChange(path, kind, Lookup(x.metrics, MetricName, name), Lookup(y.metrics, MetricName, name), SeenMetric, MetricShown)
    case RelationshipObject =>
      ObjectChange(path, kind, Lookup(x.relationships, RelationshipName, name), Lookup(y.relationships, RelationshipName, name), SeenAlways, Never)
  }

  /** The change at a place; members are looked at only in models both snapshots have. */
  ghost function SemanticChangeAt(before: Snapshot, after: Snapshot, p: Place): Option<Change> {
    var x, y := Lookup(before.models, ModelName, p.model), Lookup(after.models, ModelName, p.model);
    match p
    case ModelAt(_) => ModelChange(PathOf(p), x, y)
    case MemberAt(_, kind, name) => if x.Some? && y.Some? then MemberChange(PathOf(p), kind, x.value, y.value, name) else None
  }

  // ----- one collection -----

  lemma {:induction false} OldMembers<T>(prefix: string, kind: ObjectKind, before: seq<T>, after: seq<T>, nameOf: T -> string,
                                         visible: T -> bool, modified: (T, T) -> Compatibility, c: Change)
    ensures c in OldChanges(prefix, kind, before, after, nameOf, visible, modified)
      <==> exists x :: x in before && c in OldObjectChanges(prefix, kind, x, after, nameOf, visible, modified)
  {
    if before != [] {
      var n := |before| - 1;
      OldMembers(prefix, kind, before[..n], after, nameOf, visible, modified, c);
      assert before == before[..n] + [before[n]];
    }
  }

  lemma {:induction false} NewMembers<T>(prefix: string, kind: ObjectKind, before: seq<T>, after: seq<T>, nameOf: T -> string, c: Change)
    ensures c in NewChanges(prefix, kind, before, after, nameOf)
      <==> exists y :: y in after && c in NewObjectChanges(prefix, kind, y, before, nameOf)
  {
    if after != [] {
      var n := |after| - 1;
      NewMembers(prefix, kind, before, after[..n], nameOf, c);
      assert after == after[..n] + [after[n]];
    }
  }

  ghost predicate Agrees<T(!new)>(nameOf: T -> string, visible: T -> bool, seen: T -> bool, modified: (T, T) -> Compatibility, harmless: (T, T) -> bool) {
    && (forall x :: visible(x) == seen(x))
    && forall x, y :: nameOf(x) == nameOf(y) ==> (modified(x, y) == Compatible <==> harmless(x, y))
  }

  lemma OldObjectExact<T(!new)>(prefix: string, kind: ObjectKind, before: seq<T>, after: seq<T>, nameOf: T -> string,
                                visible: T -> bool, seen: T -> bool, modified: (T, T) -> Compatibility, harmless: (T, T) -> bool, x: T, c: Change)
    requires UniqueNames(before, nameOf) && x in before && Agrees(nameOf, visible, seen, modified, harmless)
    ensures c in OldObjectChanges(prefix, kind, x, after, nameOf, visible, modified)
      <==> ObjectChange(prefix + nameOf(x), kind, Lookup(before, nameOf, nameOf(x)), Lookup(after, nameOf, nameOf(x)), seen, harmless) == Some(c)
  {
    LookupUnique(before, nameOf, x);
    var y := Lookup(after, nameOf, nameOf(x));
    if y.Some? {
      assert modified(x, y.value) == Compatible <==> harmless(x, y.value);
    }
  }

  lemma NewObjectExact<T>(prefix: string, kind: ObjectKind, before: seq<T>, after: seq<T>, nameOf: T -> string,
                          seen: T -> bool, harmless: (T, T) -> bool, y: T, c: Change)
    requires UniqueNames(after, nameOf) && y in after && Lookup(before, nameOf, nameOf(y)).None?
    ensures c in NewObjectChanges(prefix, kind, y, before, nameOf)
      <==> ObjectChange(prefix + nameOf(y), kind, Lookup(before, nameOf, nameOf(y)), Lookup(after, nameOf, nameOf(y)), seen, harmless) == Some(c)
  {
    LookupUnique(after, nameOf, y);
  }

  ghost function NamedChange<T>(prefix: string, kind: ObjectKind, before: seq<T>, after: seq<T>, nameOf: T -> string,
                                seen: T -> bool, harmless: (T, T) -> bool, name: string): Option<Change> {
    ObjectChange(prefix + name, kind, Lookup(before, nameOf, name), Lookup(after, nameOf, name), seen, harmless)
  }

  /** The two loops over one collection push exactly the change of every name. */
  lemma NamedExact<T(!new)>(prefix: string, kind: ObjectKind, before: seq<T>, after: seq<T>, nameOf: T -> string,
                            visible: T -> bool, seen: T -> bool, modified: (T, T) -> Compatibility, harmless: (T, T) -> bool, c: Change)
    requires UniqueNames(before, nameOf) && UniqueNames(after, nameOf) && Agrees(nameOf, visible, seen, modified, harmless)
    ensures c in NamedChanges(prefix, kind, before, after, nameOf, visible, modified)
      <==> exists name :: NamedChange(prefix, kind, before, after, nameOf, seen, harmless, name) == Some(c)
  {
    hide OldObjectChanges, NewObjectChanges, ObjectChange, OldChanges, NewChanges, Agrees;
    OldMembers(prefix, kind, before, after, nameOf, visible, modified, c);
    NewMembers(prefix, kind, before, after, nameOf, c);
    if x :| x in before && c in OldObjectChanges(prefix, kind, x, after, nameOf, visible, modified) {
      OldObjectExact(prefix, kind, before, after, nameOf, visible, seen, modified, harmless, x, c);
      assert NamedChange(prefix, kind, before, after, nameOf, seen, harmless, nameOf(x)) == Some(c);
    }
    if y :| y in after && c in NewObjectChanges(prefix, kind, y, before, nameOf) {
      NewIsNew(prefix, kind, before, nameOf, y, c);
      NewObjectExact(prefix, kind, before, after, nameOf, seen, harmless, y, c);
      assert NamedChange(prefix, kind, before, after, nameOf, seen, harmless, nameOf(y)) == Some(c);
    }
    if name :| NamedChange(prefix, kind, before, after, nameOf, seen, harmless, name) == Some(c) {
      NameIsPushed(prefix, kind, before, after, nameOf, visible, seen, modified, harmless, name, c);
    }
  }

  lemma NewIsNew<T>(prefix: string, kind: ObjectKind, before: seq<T>, nameOf: T -> string, y: T, c: Change)
    requires c in NewObjectChanges(prefix, kind, y, before, nameOf)
    ensures Lookup(before, nameOf, nameOf(y)).None?
  {
  }

  lemma NameIsPushed<T(!new)>(prefix: string, kind: ObjectKind, before: seq<T>, after: seq<T>, nameOf: T -> string, visible: T -> bool,
                              seen: T -> bool, modified: (T, T) -> Compatibility, harmless: (T, T) -> bool, name: string, c: Change)
    requires UniqueNames(before, nameOf) && UniqueNames(after, nameOf) && Agrees(nameOf, visible, seen, modified, harmless)
    requires NamedChange(prefix, kind, before, after, nameOf, seen, harmless, name) == Some(c)
    ensures (exists x :: x in before && c in OldObjectChanges(prefix, kind, x, after, nameOf, visible, modified))
      || exists y :: y in after && c in NewObjectChanges(prefix, kind, y, before, nameOf)
  {
    hide OldObjectChanges, NewObjectChanges, Agrees;
    var x, y := Lookup(before, nameOf, name), Lookup(after, nameOf, name);
    if x.Some? {
      OldObjectExact(prefix, kind, before, after, nameOf, visible, seen, modified, harmless, x.value, c);
    } else {
      assert y.Some?;
      NewObjectExact(prefix, kind, before, after, nameOf, seen, harmless, y.value, c);
    }
  }

  /** The order of the collections does not matter. */
  lemma NamedReordered<T>(prefix: string, kind: ObjectKind, before: seq<T>, before': seq<T>, after: seq<T>, after': seq<T>, nameOf: T -> string,
                          seen: T -> bool, harmless: (T, T) -> bool, name: string)
    requires UniqueNames(before, nameOf) && multiset(before) == multiset(before') && UniqueNames(after, nameOf) && multiset(after) == multiset(after')
    ensures NamedChange(prefix, kind, before', after', nameOf, seen, harmless, name) == NamedChange(prefix, kind, before, after, nameOf, seen, harmless, name)
  {
    LookupPermutation(before, before', nameOf, name);
    LookupPermutation(after, after', nameOf, name);
  }

  // ----- the verdicts, attribute by attribute -----

  lemma FieldsAgree()
    ensures Agrees(FieldName, FieldVisible, SeenField, FieldCompatibility, FieldShown)
  {
  }

  lemma MetricsAgree()
    ensures Agrees(MetricName, MetricVisible, SeenMetric, MetricCompatibility, MetricShown)
  {
  }

  lemma RelationshipsAgree()
    ensures Agrees(RelationshipName, AlwaysVisible, SeenAlways, AlwaysBreaking, Never)
  {
  }

  // ----- one model -----

  lemma MemberPath(model: string, kind: MemberKind, name: string)
    ensures PathOf(MemberAt(model, kind, name)) == MemberPrefix(model, kind) + name
  {
    hide Separator;
    assert "models." + model + Separator(kind) + name == "models." + (model + Separator(kind) + name);
  }

  ghost predicate MemberReported(x: Model, y: Model, kind: MemberKind, c: Change) {
    exists name :: MemberChange(PathOf(MemberAt(x.semanticName, kind, name)), kind, x, y, name) == Some(c)
  }

  lemma FieldsExact(x: Model, y: Model, c: Change)
    requires ModelNamesUnique(x) && ModelNamesUnique(y)
    ensures c in NamedChanges("models." + x.semanticName + ".fields.", FieldObject, NormalizedModel(x).fields, NormalizedModel(y).fields, FieldName, FieldVisible, FieldCompatibility)
      <==> MemberReported(x, y, FieldObject, c)
  {
    hide NamedChanges, ObjectChange, PathOf, Sort;
    var prefix := MemberPrefix(x.semanticName, FieldObject);
    var a, b := NormalizedModel(x).fields, NormalizedModel(y).fields;
    NormalizedModelUnique(x);
    NormalizedModelUnique(y);
    FieldsAgree();
    hide Agrees;
    NamedExact(prefix, FieldObject, a, b, FieldName, FieldVisible, SeenField, FieldCompatibility, FieldShown, c);
    forall name
      ensures NamedChange(prefix, FieldObject, a, b, FieldName, SeenField, FieldShown, name) == MemberChange(PathOf(MemberAt(x.semanticName, FieldObject, name)), FieldObject, x, y, name)
    {
      NamedReordered(prefix, FieldObject, x.fields, a, y.fields, b, FieldName, SeenField, FieldShown, name);
      MemberPath(x.semanticName, FieldObject, name);
    }
  }

  lemma MetricsExact(x: Model, y: Model, c: Change)
    requires ModelNamesUnique(x) && ModelNamesUnique(y)
    ensures c in NamedChanges("models." + x.semanticName + ".metrics.", MetricObject, NormalizedModel(x).metrics, NormalizedModel(y).metrics, MetricName, MetricVisible, MetricCompatibility)
      <==> MemberReported(x, y, MetricObject, c)
  {
    hide NamedChanges, ObjectChange, PathOf, Sort;
    var prefix := MemberPrefix(x.semanticName, MetricObject);
    var a, b := NormalizedModel(x).metrics, NormalizedModel(y).metrics;
    NormalizedModelUnique(x);
    NormalizedModelUnique(y);
    MetricsAgree();
    hide Agrees;
    NamedExact(prefix, MetricObject, a, b, MetricName, MetricVisible, SeenMetric, MetricCompatibility, MetricShown, c);
    forall name
      ensures NamedChange(prefix, MetricObject, a, b, MetricName, SeenMetric, MetricShown, name) == MemberChange(PathOf(MemberAt(x.semanticName, MetricObject, name)), MetricObject, x, y, name)
    {
      NamedReordered(prefix, MetricObject, x.metrics, a, y.metrics, b, MetricName, SeenMetric, MetricShown, name);
      MemberPath(x.semanticName, MetricObject, name);
    }
  }

  lemma RelationshipsExact(x: Model, y: Model, c: Change)
    requires ModelNamesUnique(x) && ModelNamesUnique(y)
    ensures c in NamedChanges("models." + x.semanticName + ".relationships.", RelationshipObject, NormalizedModel(x).relationships, NormalizedModel(y).relationships, RelationshipName, AlwaysVisible, AlwaysBreaking)
      <==> MemberReported(x, y, RelationshipObject, c)
  {
    hide NamedChanges, ObjectChange, PathOf, Sort;
    var prefix := MemberPrefix(x.semanticName, RelationshipObject);
    var a, b := NormalizedModel(x).relationships, NormalizedModel(y).relationships;
    NormalizedModelUnique(x);
    NormalizedModelUnique(y);
    RelationshipsAgree();
    hide Agrees;
    NamedExact(prefix, RelationshipObject, a, b, RelationshipName, AlwaysVisible, SeenAlways, AlwaysBreaking, Never, c);
    forall name
      ensures NamedChange(prefix, RelationshipObject, a, b, RelationshipName, SeenAlways, Never, name) == MemberChange(PathOf(MemberAt(x.semanticName, RelationshipObject, name)), RelationshipObject, x, y, name)
    {
      NamedReordered(prefix, RelationshipObject, x.relationships, a, y.relationships, b, RelationshipName, SeenAlways, Never, name);
      MemberPath(x.semanticName, RelationshipObject, name);
    }
  }

  /** What one old model adds to the diff: its own change, and the changes of its members if it is still there. */
  ghost predicate ModelReported(x: Model, y: Option<Model>, c: Change) {
    || ModelChange(PathOf(ModelAt(x.semanticName)), Some(x), y) == Some(c)
    || (y.Some? && exists kind: MemberKind :: MemberReported(x, y.value, kind, c))
  }

  lemma OldModelExact(x: Model, y: Option<Model>, after: seq<Model>, c: Change)
    requires ModelNamesUnique(x) && (y.Some? ==> ModelNamesUnique(y.value))
    requires Lookup(after, ModelName, x.semanticName) == (match y case None => None case Some(m) => Some(NormalizedModel(m)))
    ensures c in OldModelChanges(NormalizedModel(x), after) <==> ModelReported(x, y, c)
  {
    hide NamedChanges, MemberReported, ModelNamesUnique;
    var path := "models." + x.semanticName;
    assert PathOf(ModelAt(x.semanticName)) == path;
    hide PathOf;
    if y.Some? {
      FieldsExact(x, y.value, c);
      MetricsExact(x, y.value, c);
      RelationshipsExact(x, y.value, c);
      var a, b := NormalizedModel(x), NormalizedModel(y.value);
      MetadataExact(x, y.value);
      hide SameMetadata, SameModelData, ModelCompatibility, ModelShown, NormalizedModel;
      KindsExact(x, y.value, c);
    }
  }

  lemma KindsExact(x: Model, y: Model, c: Change)
    ensures (exists kind: MemberKind :: MemberReported(x, y, kind, c))
      <==> MemberReported(x, y, FieldObject, c) || MemberReported(x, y, MetricObject, c) || MemberReported(x, y, RelationshipObject, c)
  {
    hide MemberReported;
    if kind: MemberKind :| MemberReported(x, y, kind, c) {
      assert kind == FieldObject || kind == MetricObject || kind == RelationshipObject;
    }
  }

  lemma MetadataExact(x: Model, y: Model)
    ensures SameMetadata(NormalizedModel(x), NormalizedModel(y)) <==> SameModelData(x, y)
    ensures ModelCompatibility(NormalizedModel(x), NormalizedModel(y)) == Compatible <==> ModelShown(x, y)
  {
    hide Sort, NormalizedWritable;
  }

  // ----- whole snapshots -----

  lemma {:induction false} OldModelsMembers(before: seq<Model>, after: seq<Model>, c: Change)
    ensures c in OldModelsChanges(before, after) <==> exists x :: x in before && c in OldModelChanges(x, after)
  {
    hide OldModelChanges;
    if before != [] {
      var n := |before| - 1;
      OldModelsMembers(before[..n], after, c);
      assert before == before[..n] + [before[n]];
    }
  }

  ghost predicate Reported(before: Snapshot, after: Snapshot, c: Change) {
    exists p: Place :: SemanticChangeAt(before, after, p) == Some(c)
  }

  lemma OldReported(before: Snapshot, after: Snapshot, x: Model, c: Change)
    requires Diffable(before) && x in before.models && ModelReported(x, Lookup(after.models, ModelName, x.semanticName), c)
    ensures Reported(before, after, c)
  {
    hide PathOf, ModelChange, MemberChange;
    LookupUnique(before.models, ModelName, x);
    var y := Lookup(after.models, ModelName, x.semanticName);
    if ModelChange(PathOf(ModelAt(x.semanticName)), Some(x), y) == Some(c) {
      assert SemanticChangeAt(before, after, ModelAt(x.semanticName)) == Some(c);
    } else {
      var kind: MemberKind :| MemberReported(x, y.value, kind, c);
      var name :| MemberChange(PathOf(MemberAt(x.semanticName, kind, name)), kind, x, y.value, name) == Some(c);
      assert SemanticChangeAt(before, after, MemberAt(x.semanticName, kind, name)) == Some(c);
    }
  }

  lemma ReportedOld(before: Snapshot, after: Snapshot, p: Place, c: Change)
    requires SemanticChangeAt(before, after, p) == Some(c) && Lookup(before.models, ModelName, p.model).Some?
    ensures ModelReported(Lookup(before.models, ModelName, p.model).value, Lookup(after.models, ModelName, p.model), c)
  {
    hide PathOf, ModelChange, MemberChange;
    var x, y := Lookup(before.models, ModelName, p.model).value, Lookup(after.models, ModelName, p.model);
    assert x.semanticName == p.model;
    if p.ModelAt? {
      assert p == ModelAt(x.semanticName);
    } else {
      assert p == MemberAt(x.semanticName, p.kind, p.name);
      assert MemberReported(x, y.value, p.kind, c);
    }
  }

  lemma OldPart(before: Snapshot, after: Snapshot, c: Change)
    requires Diffable(before) && Diffable(after)
    ensures c in OldModelsChanges(Normalized(before).models, Normalized(after).models)
      <==> exists x :: x in before.models && ModelReported(x, Lookup(after.models, ModelName, x.semanticName), c)
  {
    hide NormalizedModel, OldModelChanges, ModelReported, ModelNamesUnique, OldModelsChanges;
    var a, b := Normalized(before).models, Normalized(after).models;
    OldModelsMembers(a, b, c);
    forall x | x in before.models
      ensures NormalizedModel(x) in a && (c in OldModelChanges(NormalizedModel(x), b) <==> ModelReported(x, Lookup(after.models, ModelName, x.semanticName), c))
    {
      NormalizedMembers(before, x);
      LookupNormalized(after, x.semanticName);
      OldModelExact(x, Lookup(after.models, ModelName, x.semanticName), b, c);
    }
    if n :| n in a && c in OldModelChanges(n, b) {
      var x := NormalizedOrigin(before, n);
    }
  }

  ghost predicate AddedModel(before: Snapshot, y: Model, c: Change) {
    Lookup(before.models, ModelName, y.semanticName).None? && c == Change(PathOf(ModelAt(y.semanticName)), ModelObject, Added, Compatible)
  }

  /** New models are reported as added, and nothing else of them. */
  lemma NewPart(before: Snapshot, after: Snapshot, c: Change)
    requires Diffable(before) && Diffable(after)
    ensures c in NewChanges("models.", ModelObject, Normalized(before).models, Normalized(after).models, ModelName)
      <==> exists y :: y in after.models && AddedModel(before, y, c)
  {
    hide NormalizedModel, NewChanges, Diffable;
    var a, b := Normalized(before).models, Normalized(after).models;
    NewMembers("models.", ModelObject, a, b, ModelName, c);
    DiffableNames(before);
    if n :| n in b && c in NewObjectChanges("models.", ModelObject, n, a, ModelName) {
      var y := NormalizedOrigin(after, n);
      LookupNormalized(before, y.semanticName);
    }
    if y :| y in after.models && AddedModel(before, y, c) {
      NormalizedMembers(after, y);
      LookupNormalized(before, y.semanticName);
      assert c in NewObjectChanges("models.", ModelObject, NormalizedModel(y), a, ModelName);
    }
  }

  lemma DiffableNames(s: Snapshot)
    requires Diffable(s)
    ensures UniqueNames(s.models, ModelName)
  {
  }

  lemma NewReported(before: Snapshot, after: Snapshot, c: Change)
    requires Diffable(after)
    ensures (exists y :: y in after.models && AddedModel(before, y, c))
      <==> exists p: Place :: Lookup(before.models, ModelName, p.model).None? && SemanticChangeAt(before, after, p) == Some(c)
  {
    hide PathOf;
    if y :| y in after.models && AddedModel(before, y, c) {
      LookupUnique(after.models, ModelName, y);
      var p := ModelAt(y.semanticName);
      assert Lookup(before.models, ModelName, p.model).None? && SemanticChangeAt(before, after, p) == Some(c);
    }
    if p: Place :| Lookup(before.models, ModelName, p.model).None? && SemanticChangeAt(before, after, p) == Some(c) {
      var y := Lookup(after.models, ModelName, p.model).value;
      assert p == ModelAt(y.semanticName);
    }
  }

  /** The diff holds a change if and only if it is the change at some place. */
  lemma SemanticDiffExact(before: Snapshot, after: Snapshot, c: Change)
    requires Diffable(before) && Diffable(after)
    ensures c in DiffOf(before, after).changes <==> exists p: Place :: SemanticChangeAt(before, after, p) == Some(c)
  {
    hide OldModelsChanges, NewChanges, Diffable, ModelReported, SemanticChangeAt, PathOf, Normalized;
    var a, b := Normalized(before), Normalized(after);
    SameElements(AllChanges(a, b), DiffOf(before, after).changes, c);
    OldPart(before, after, c);
    NewPart(before, after, c);
    NewReported(before, after, c);
    if x :| x in before.models && ModelReported(x, Lookup(after.models, ModelName, x.semanticName), c) {
      OldReported(before, after, x, c);
    }
    if p: Place :| SemanticChangeAt(before, after, p) == Some(c) {
      if Lookup(before.models, ModelName, p.model).Some? {
        ReportedOld(before, after, p, c);
        var x := Lookup(before.models, ModelName, p.model).value;
        assert x in before.models && ModelReported(x, Lookup(after.models, ModelName, x.semanticName), c);
      }
    }
  }

  // ----- the frame around the changes -----

  ghost predicate IsBreaking(c: Change) { c.compatibility == Breaking }

  lemma {:induction false} BreakingCounted(cs: seq<Change>)
    ensures CountBreaking(cs) == |Positions(cs, IsBreaking)|
  {
    hide Positions;
    if cs == [] {
      NoPositions(cs, IsBreaking);
    } else {
      BreakingCounted(cs[1..]);
      PositionsFirst(cs, IsBreaking);
    }
  }

  /** Removed before modified before added. */
  function Rank(k: ChangeKind): nat {
    match k case Removed => 0 case Modified => 1 case Added => 2
  }

  ghost predicate InOrder(c: Change, d: Change) {
    if c.path != d.path then NameLeq(c.path, d.path) else Rank(c.kind) <= Rank(d.kind)
  }

  lemma KeysInOrder(c: Change, d: Change)
    requires KeyLeq(ChangeKey(c), ChangeKey(d))
    ensures InOrder(c, d)
  {
    if c.path == d.path {
      assert ChangeKey(c)[1..] == [KindRank(c.kind)] && ChangeKey(d)[1..] == [KindRank(d.kind)];
      assert KeyLeq([KindRank(c.kind)], [KindRank(d.kind)]);
      RanksInOrder(c.kind, d.kind);
    }
  }

  lemma RanksInOrder(j: ChangeKind, k: ChangeKind)
    requires KeyLeq([KindRank(j)], [KindRank(k)])
    ensures Rank(j) <= Rank(k)
  {
    assert KindRank(j) != KindRank(k) ==> NameLeq(KindRank(j), KindRank(k));
  }

  ghost predicate BreaksAt(before: Snapshot, after: Snapshot, p: Place) {
    var c := SemanticChangeAt(before, after, p);
    c.Some? && c.value.compatibility == Breaking
  }

  /** Revisions, order, counts and verdict: the verdict is Breaking exactly when some place has a breaking change. */
  lemma SemanticDiffFrame(before: Snapshot, after: Snapshot)
    requires Diffable(before) && Diffable(after)
    ensures var d := DiffOf(before, after);
      && d.fromRevision == before.revisionHash && d.toRevision == after.revisionHash
      && (forall i, j :: 0 <= i < j < |d.changes| ==> InOrder(d.changes[i], d.changes[j]))
      && d.summary.total == |d.changes| == d.summary.compatible + d.summary.breaking && d.summary.breaking == |Positions(d.changes, IsBreaking)|
      && (d.compatibility == Breaking <==> exists p: Place :: BreaksAt(before, after, p))
  {
    hide Diffable, SemanticChangeAt, AllChanges, Normalized, KeyLeq;
    var d, all := DiffOf(before, after), AllChanges(Normalized(before), Normalized(after));
    BreakingCounted(d.changes);
    SortSorts(all, ChangeKey);
    forall i, j | 0 <= i < j < |d.changes|
      ensures InOrder(d.changes[i], d.changes[j])
    {
      KeysInOrder(d.changes[i], d.changes[j]);
    }
    if c :| c in d.changes && c.compatibility == Breaking {
      SemanticDiffExact(before, after, c);
      var p: Place :| SemanticChangeAt(before, after, p) == Some(c);
      assert BreaksAt(before, after, p);
    }
    if p: Place :| BreaksAt(before, after, p) {
      SemanticDiffExact(before, after, SemanticChangeAt(before, after, p).value);
    }
  }

  // ----- what compatibility keeps, attribute by attribute -----

  ghost predicate FieldKept(f: Field, y: Model) {
    match Lookup(y.fields, FieldName, f.semanticName) case None => !f.visible case Some(g) => g == f || FieldShown(f, g)
  }

  ghost predicate MetricKept(m: Metric, y: Model) {
    match Lookup(y.metrics, MetricName, m.semanticName) case None => !m.visible case Some(n) => n == m || MetricShown(m, n)
  }

  /** What a compatible successor of a model is: nothing visible is lost and nothing is altered but by being shown. */
  ghost predicate Succeeds(x: Model, y: Model) {
    && ModelShown(x, y)
    && (forall f :: f in x.fields ==> FieldKept(f, y))
    && (forall m :: m in x.metrics ==> MetricKept(m, y))
    && (forall r :: r in x.relationships ==> Lookup(y.relationships, RelationshipName, r.semanticName) == Some(r))
  }

  lemma CompatibleModelIs(x: Model, y: Model)
    ensures CompatibleModel(x, y) <==> Succeeds(x, y)
  {
    hide Sort, NormalizedModel, SameMetadata, SameModelData, ModelCompatibility, ModelShown;
    MetadataExact(x, y);
    FieldsAgree();
    MetricsAgree();
    forall f | f in x.fields
      ensures Kept(f, y.fields, FieldName, FieldVisible, FieldCompatibility) <==> FieldKept(f, y)
    {
    }
    forall m | m in x.metrics
      ensures Kept(m, y.metrics, MetricName, MetricVisible, MetricCompatibility) <==> MetricKept(m, y)
    {
    }
    forall r | r in x.relationships
      ensures Kept(r, y.relationships, RelationshipName, AlwaysVisible, AlwaysBreaking) <==> Lookup(y.relationships, RelationshipName, r.semanticName) == Some(r)
    {
    }
  }

  /** The verdict in the snapshots' own terms. */
  lemma VerdictSpelled(before: Snapshot, after: Snapshot)
    requires Diffable(before) && Diffable(after)
    ensures DiffOf(before, after).compatibility == Compatible
      <==> forall x :: x in before.models ==> var y := Lookup(after.models, ModelName, x.semanticName); y.Some? && Succeeds(x, y.value)
  {
    hide DiffOf, Diffable, CompatibleModel, Succeeds;
    VerdictExact(before, after);
    forall x | x in before.models && Lookup(after.models, ModelName, x.semanticName).Some?
      ensures CompatibleModel(x, Lookup(after.models, ModelName, x.semanticName).value) <==> Succeeds(x, Lookup(after.models, ModelName, x.semanticName).value)
    {
      CompatibleModelIs(x, Lookup(after.models, ModelName, x.semanticName).value);
    }
  }
}
