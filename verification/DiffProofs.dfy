/** Canonical form, exactness of the diff, and what its verdict says about the two snapshots. */
module DiffProofs {
  import opened Prelude
  import opened Order
  import opened Bags
  import opened Semantic
  import opened Snapshots
  import opened Diff

  // ----- sorting and names -----

  lemma UniqueAsKeys<T>(xs: seq<T>, nameOf: T -> string, key: T -> seq<string>)
    requires UniqueNames(xs, nameOf) && forall x :: x in xs ==> key(x) != [] && key(x)[0] == nameOf(x)
    ensures UniqueKeys(xs, key)
  {
    forall i, j | 0 <= i < j < |xs|
      ensures key(xs[i]) != key(xs[j])
    {
      assert key(xs[i])[0] == nameOf(xs[i]) && key(xs[j])[0] == nameOf(xs[j]);
    }
  }

  function NameKeyOf<T>(nameOf: T -> string): T -> seq<string> {
    x => [nameOf(x)]
  }

  lemma UniqueAfterPermutation<T>(xs: seq<T>, ys: seq<T>, nameOf: T -> string)
    requires UniqueNames(xs, nameOf) && multiset(xs) == multiset(ys)
    ensures UniqueNames(ys, nameOf)
  {
    var key := NameKeyOf(nameOf);
    UniqueAsKeys(xs, nameOf, key);
    SortKeepsUnique(xs, ys, key);
    forall i, j | 0 <= i < j < |ys|
      ensures nameOf(ys[i]) != nameOf(ys[j])
    {
      assert key(ys[i]) != key(ys[j]);
    }
  }

  /** With unique names, lookup does not depend on the order of the collection. */
  lemma LookupPermutation<T>(xs: seq<T>, ys: seq<T>, nameOf: T -> string, n: string)
    requires UniqueNames(xs, nameOf) && multiset(xs) == multiset(ys)
    ensures Lookup(ys, nameOf, n) == Lookup(xs, nameOf, n)
  {
    UniqueAfterPermutation(xs, ys, nameOf);
    var a, b := Lookup(xs, nameOf, n), Lookup(ys, nameOf, n);
    if a.Some? {
      SameElements(xs, ys, a.value);
      LookupUnique(ys, nameOf, a.value);
    } else if b.Some? {
      SameElements(xs, ys, b.value);
    }
  }

  // ----- the normal form -----

  lemma SortTwice<T>(xs: seq<T>, key: T -> seq<string>)
    ensures Sort(Sort(xs, key), key) == Sort(xs, key)
  {
    SortSorts(xs, key);
    SortFixesSorted(Sort(xs, key), key);
  }

  lemma NormalizedModelTwice(m: Model)
    ensures NormalizedModel(NormalizedModel(m)) == NormalizedModel(m)
  {
    SortTwice(m.fields, FieldKey);
    SortTwice(m.metrics, MetricKey);
    SortTwice(m.relationships, RelationshipKey);
    if m.writable.Some? {
      SortTwice(m.writable.value.fields, WritableFieldKey);
      if m.writable.value.upsert.Some? {
        SortTwice(m.writable.value.upsert.value.conflictFields, NameKey);
      }
    }
  }

  lemma NormalizedModelsSorted(ms: seq<Model>)
    requires Sorted(ms, ModelKey)
    ensures Sorted(NormalizedModels(ms), ModelKey)
  {
    forall i, j | 0 <= i < j < |ms|
      ensures KeyLeq(ModelKey(NormalizedModels(ms)[i]), ModelKey(NormalizedModels(ms)[j]))
    {
      assert KeyLeq(ModelKey(ms[i]), ModelKey(ms[j]));
    }
  }

  /** Normalizing is idempotent. */
  lemma NormalizedTwice(s: Snapshot)
    ensures Normalized(Normalized(s)) == Normalized(s)
  {
    hide NormalizedModel;
    var sorted := Sort(s.models, ModelKey);
    SortSorts(s.models, ModelKey);
    NormalizedModelsSorted(sorted);
    var once := NormalizedModels(sorted);
    SortFixesSorted(once, ModelKey);
    forall i | 0 <= i < |once|
      ensures NormalizedModels(once)[i] == once[i]
    {
      NormalizedModelTwice(sorted[i]);
    }
    assert NormalizedModels(once) == once;
  }

  /** The same model with its collections in another order; `returning` keeps its order. */
  ghost predicate ReorderedWritable(a: WritableModel, b: WritableModel) {
    && multiset(a.fields) == multiset(b.fields)
    && a.upsert.Some? == b.upsert.Some?
    && (a.upsert.Some? ==> multiset(a.upsert.value.conflictFields) == multiset(b.upsert.value.conflictFields))
    && b == a.(fields := b.fields, upsert := b.upsert)
  }

  ghost predicate ReorderedModel(a: Model, b: Model) {
    && multiset(a.fields) == multiset(b.fields)
    && multiset(a.metrics) == multiset(b.metrics)
    && multiset(a.relationships) == multiset(b.relationships)
    && a.writable.Some? == b.writable.Some?
    && (a.writable.Some? ==> ReorderedWritable(a.writable.value, b.writable.value))
    && b == a.(fields := b.fields, metrics := b.metrics, relationships := b.relationships, writable := b.writable)
  }

  /** Every collection of the model is in the order of its names. */
  ghost predicate Arranged(m: Model) {
    && Sorted(m.fields, FieldKey) && Sorted(m.metrics, MetricKey) && Sorted(m.relationships, RelationshipKey)
    && (m.writable.Some? ==> Sorted(m.writable.value.fields, WritableFieldKey))
    && (m.writable.Some? && m.writable.value.upsert.Some? ==> Sorted(m.writable.value.upsert.value.conflictFields, NameKey))
  }

  lemma ModelArranged(m: Model)
    ensures ReorderedModel(m, NormalizedModel(m)) && Arranged(NormalizedModel(m))
  {
    SortSorts(m.fields, FieldKey);
    SortSorts(m.metrics, MetricKey);
    SortSorts(m.relationships, RelationshipKey);
    if m.writable.Some? {
      SortSorts(m.writable.value.fields, WritableFieldKey);
      if m.writable.value.upsert.Some? {
        SortSorts(m.writable.value.upsert.value.conflictFields, NameKey);
      }
    }
  }

  /** The normal form is the same models in order, each with its own collections in order, and nothing else. */
  lemma NormalFormIs(s: Snapshot) returns (models: seq<Model>)
    ensures multiset(models) == multiset(s.models) && Sorted(models, ModelKey)
    ensures var n := Normalized(s);
      && n.schemaVersion == s.schemaVersion && n.revisionHash == s.revisionHash && |n.models| == |models|
      && forall i :: 0 <= i < |models| ==> ReorderedModel(models[i], n.models[i]) && Arranged(n.models[i])
  {
    hide NormalizedModel, ReorderedModel, Arranged;
    models := Sort(s.models, ModelKey);
    SortSorts(s.models, ModelKey);
    forall i | 0 <= i < |models|
      ensures ReorderedModel(models[i], Normalized(s).models[i]) && Arranged(Normalized(s).models[i])
    {
      ModelArranged(models[i]);
    }
  }

  ghost predicate WritableNamesUnique(w: WritableModel) {
    UniqueKeys(w.fields, WritableFieldKey) && (w.upsert.Some? ==> UniqueKeys(w.upsert.value.conflictFields, NameKey))
  }

  ghost predicate AllNamesUnique(m: Model) {
    ModelNamesUnique(m) && (m.writable.Some? ==> WritableNamesUnique(m.writable.value))
  }

  lemma ReorderedModelNormalizes(a: Model, b: Model)
    requires ReorderedModel(a, b) && AllNamesUnique(a)
    ensures NormalizedModel(a) == NormalizedModel(b)
  {
    hide UniqueNames, UniqueKeys, Sort, WritableNamesUnique, ReorderedWritable, NormalizedWritable;
    UniqueAsKeys(a.fields, FieldName, FieldKey);
    UniqueAsKeys(a.metrics, MetricName, MetricKey);
    UniqueAsKeys(a.relationships, RelationshipName, RelationshipKey);
    SortCanonical(a.fields, b.fields, FieldKey);
    SortCanonical(a.metrics, b.metrics, MetricKey);
    SortCanonical(a.relationships, b.relationships, RelationshipKey);
    if a.writable.Some? {
      ReorderedWritableNormalizes(a.writable.value, b.writable.value);
    }
  }

  lemma ReorderedWritableNormalizes(u: WritableModel, w: WritableModel)
    requires ReorderedWritable(u, w) && WritableNamesUnique(u)
    ensures NormalizedWritable(u) == NormalizedWritable(w)
  {
    hide UniqueKeys, Sort;
    SortCanonical(u.fields, w.fields, WritableFieldKey);
    if u.upsert.Some? {
      SortCanonical(u.upsert.value.conflictFields, w.upsert.value.conflictFields, NameKey);
    }
  }

  /** Any reordering, of the models and inside each of them. */
  ghost predicate Reordered(a: Snapshot, b: Snapshot, middle: seq<Model>) {
    && a.schemaVersion == b.schemaVersion && a.revisionHash == b.revisionHash
    && |middle| == |a.models| && (forall i :: 0 <= i < |middle| ==> ReorderedModel(a.models[i], middle[i]))
    && multiset(middle) == multiset(b.models)
  }

  ghost function NormalizedFn(): Model -> multiset<Model> {
    m => multiset{NormalizedModel(m)}
  }

  lemma {:induction false} NormalizedModelsAsBag(xs: seq<Model>)
    ensures multiset(NormalizedModels(xs)) == Bag(xs, NormalizedFn())
  {
    hide NormalizedModel;
    if xs != [] {
      NormalizedModelsAsBag(xs[1..]);
      var n, rest := NormalizedModel(xs[0]), NormalizedModels(xs[1..]);
      assert NormalizedFn()(xs[0]) == multiset{n};
      assert NormalizedModels(xs) == [n] + rest;
      assert multiset([n] + rest) == multiset{n} + multiset(rest);
    }
  }

  lemma NormalizedModelsBag(xs: seq<Model>, ys: seq<Model>)
    requires multiset(xs) == multiset(ys)
    ensures multiset(NormalizedModels(xs)) == multiset(NormalizedModels(ys))
  {
    NormalizedModelsAsBag(xs);
    NormalizedModelsAsBag(ys);
    BagPermutation(xs, ys, NormalizedFn());
  }

  /** Normalizing before or after sorting the models is the same. */
  lemma NormalizedModelsCommute(ms: seq<Model>)
    requires UniqueNames(ms, ModelName)
    ensures NormalizedModels(Sort(ms, ModelKey)) == Sort(NormalizedModels(ms), ModelKey)
  {
    hide NormalizedModel;
    var n := NormalizedModels(ms);
    SortSorts(ms, ModelKey);
    NormalizedModelsSorted(Sort(ms, ModelKey));
    NormalizedModelsBag(Sort(ms, ModelKey), ms);
    assert forall i :: 0 <= i < |n| ==> ModelName(n[i]) == ModelName(ms[i]);
    assert UniqueNames(n, ModelName);
    UniqueAsKeys(n, ModelName, ModelKey);
    SortKeepsUnique(n, Sort(n, ModelKey), ModelKey);
    SortSorts(n, ModelKey);
    SortedUnique(Sort(n, ModelKey), NormalizedModels(Sort(ms, ModelKey)), ModelKey);
  }

  lemma NamesSurvive(ms: seq<Model>, ns: seq<Model>)
    requires |ms| == |ns| && forall i :: 0 <= i < |ms| ==> ms[i].semanticName == ns[i].semanticName
    requires UniqueNames(ms, ModelName)
    ensures UniqueNames(ns, ModelName)
  {
    forall i, j | 0 <= i < j < |ns|
      ensures ModelName(ns[i]) != ModelName(ns[j])
    {
      assert ModelName(ms[i]) != ModelName(ms[j]);
    }
  }

  lemma ReorderedModelsNormalize(ms: seq<Model>, ns: seq<Model>)
    requires |ms| == |ns| && forall i :: 0 <= i < |ms| ==> ReorderedModel(ms[i], ns[i]) && AllNamesUnique(ms[i])
    ensures NormalizedModels(ms) == NormalizedModels(ns)
  {
    hide NormalizedModel, AllNamesUnique, ReorderedModel;
    forall i | 0 <= i < |ms|
      ensures NormalizedModels(ms)[i] == NormalizedModels(ns)[i]
    {
      ReorderedModelNormalizes(ms[i], ns[i]);
    }
  }

  lemma PermutedModelsNormalize(ms: seq<Model>, ns: seq<Model>)
    requires multiset(ms) == multiset(ns) && UniqueNames(ms, ModelName)
    ensures NormalizedModels(Sort(ms, ModelKey)) == NormalizedModels(Sort(ns, ModelKey))
  {
    UniqueAsKeys(ms, ModelName, ModelKey);
    SortCanonical(ms, ns, ModelKey);
  }

  /** With unique names the normal form, and so the hash input, does not see any reordering. */
  lemma NormalFormCanonical(a: Snapshot, b: Snapshot, middle: seq<Model>)
    requires Reordered(a, b, middle)
    requires UniqueNames(a.models, ModelName) && forall m :: m in a.models ==> AllNamesUnique(m)
    ensures Normalized(a) == Normalized(b)
  {
    hide NormalizedModel, AllNamesUnique;
    assert forall i :: 0 <= i < |a.models| ==> a.models[i] in a.models;
    ReorderedModelsNormalize(a.models, middle);
    NamesSurvive(a.models, middle);
    NormalizedModelsCommute(a.models);
    NormalizedModelsCommute(middle);
    PermutedModelsNormalize(middle, b.models);
  }

  // ----- one collection -----

  ghost predicate AllCompatible(cs: seq<Change>) {
    forall i :: 0 <= i < |cs| ==> cs[i].compatibility == Compatible
  }

  lemma AllCompatibleAppend(a: seq<Change>, b: seq<Change>)
    ensures AllCompatible(a + b) <==> AllCompatible(a) && AllCompatible(b)
  {
    if AllCompatible(a + b) {
      assert forall i :: 0 <= i < |b| ==> b[i] == (a + b)[|a| + i];
      assert forall i :: 0 <= i < |a| ==> a[i] == (a + b)[i];
    }
  }

  ghost predicate Kept<T>(x: T, after: seq<T>, nameOf: T -> string, visible: T -> bool, modified: (T, T) -> Compatibility) {
    match Lookup(after, nameOf, nameOf(x))
    case None => !visible(x)
    case Some(y) => x == y || modified(x, y) == Compatible
  }

  ghost predicate AllKept<T>(before: seq<T>, after: seq<T>, nameOf: T -> string, visible: T -> bool, modified: (T, T) -> Compatibility) {
    forall x :: x in before ==> Kept(x, after, nameOf, visible, modified)
  }

  lemma OldObjectVerdict<T>(prefix: string, kind: ObjectKind, x: T, after: seq<T>, nameOf: T -> string,
                            visible: T -> bool, modified: (T, T) -> Compatibility)
    ensures AllCompatible(OldObjectChanges(prefix, kind, x, after, nameOf, visible, modified)) <==> Kept(x, after, nameOf, visible, modified)
  {
    var cs := OldObjectChanges(prefix, kind, x, after, nameOf, visible, modified);
    if cs != [] {
      assert AllCompatible(cs) <==> cs[0].compatibility == Compatible;
    }
  }

  lemma {:induction false} OldChangesVerdict<T>(prefix: string, kind: ObjectKind, before: seq<T>, after: seq<T>, nameOf: T -> string,
                                                visible: T -> bool, modified: (T, T) -> Compatibility)
    ensures AllCompatible(OldChanges(prefix, kind, before, after, nameOf, visible, modified)) <==> AllKept(before, after, nameOf, visible, modified)
  {
    if before != [] {
      var n := |before| - 1;
      OldChangesVerdict(prefix, kind, before[..n], after, nameOf, visible, modified);
      AllCompatibleAppend(OldChanges(prefix, kind, before[..n], after, nameOf, visible, modified),
                          OldObjectChanges(prefix, kind, before[n], after, nameOf, visible, modified));
      OldObjectVerdict(prefix, kind, before[n], after, nameOf, visible, modified);
      assert forall x :: x in before <==> x in before[..n] || x == before[n];
    }
  }

  lemma {:induction false} NewChangesCompatible<T>(prefix: string, kind: ObjectKind, before: seq<T>, after: seq<T>, nameOf: T -> string)
    ensures AllCompatible(NewChanges(prefix, kind, before, after, nameOf))
  {
    if after != [] {
      NewChangesCompatible(prefix, kind, before, after[..|after| - 1], nameOf);
    }
  }

  lemma NamedVerdict<T>(prefix: string, kind: ObjectKind, before: seq<T>, after: seq<T>, nameOf: T -> string,
                        visible: T -> bool, modified: (T, T) -> Compatibility)
    ensures AllCompatible(NamedChanges(prefix, kind, before, after, nameOf, visible, modified)) <==> AllKept(before, after, nameOf, visible, modified)
  {
    OldChangesVerdict(prefix, kind, before, after, nameOf, visible, modified);
    NewChangesCompatible(prefix, kind, before, after, nameOf);
    AllCompatibleAppend(OldChanges(prefix, kind, before, after, nameOf, visible, modified), NewChanges(prefix, kind, before, after, nameOf));
  }

  ghost predicate SameNamed<T>(before: seq<T>, after: seq<T>, nameOf: T -> string) {
    && (forall x :: x in before ==> Lookup(after, nameOf, nameOf(x)) == Some(x))
    && (forall y :: y in after ==> Lookup(before, nameOf, nameOf(y)).Some?)
  }

  lemma {:induction false} OldChangesEmpty<T>(prefix: string, kind: ObjectKind, before: seq<T>, after: seq<T>, nameOf: T -> string,
                                              visible: T -> bool, modified: (T, T) -> Compatibility)
    ensures OldChanges(prefix, kind, before, after, nameOf, visible, modified) == []
      <==> forall x :: x in before ==> Lookup(after, nameOf, nameOf(x)) == Some(x)
  {
    if before != [] {
      var n := |before| - 1;
      OldChangesEmpty(prefix, kind, before[..n], after, nameOf, visible, modified);
      assert OldObjectChanges(prefix, kind, before[n], after, nameOf, visible, modified) == [] <==> Lookup(after, nameOf, nameOf(before[n])) == Some(before[n]);
      assert before == before[..n] + [before[n]];
    }
  }

  lemma {:induction false} NewChangesEmpty<T>(prefix: string, kind: ObjectKind, before: seq<T>, after: seq<T>, nameOf: T -> string)
    ensures NewChanges(prefix, kind, before, after, nameOf) == []
      <==> forall y :: y in after ==> Lookup(before, nameOf, nameOf(y)).Some?
  {
    if after != [] {
      var n := |after| - 1;
      NewChangesEmpty(prefix, kind, before, after[..n], nameOf);
      assert forall y :: y in after <==> y in after[..n] || y == after[n];
    }
  }

  lemma NamedEmpty<T>(prefix: string, kind: ObjectKind, before: seq<T>, after: seq<T>, nameOf: T -> string,
                      visible: T -> bool, modified: (T, T) -> Compatibility)
    ensures NamedChanges(prefix, kind, before, after, nameOf, visible, modified) == [] <==> SameNamed(before, after, nameOf)
  {
    OldChangesEmpty(prefix, kind, before, after, nameOf, visible, modified);
    NewChangesEmpty(prefix, kind, before, after, nameOf);
  }

  /** Two sorted collections with unique names hold the same objects exactly when they are equal. */
  lemma {:induction false} SameNamedSorted<T>(xs: seq<T>, ys: seq<T>, nameOf: T -> string, key: T -> seq<string>)
    requires UniqueNames(xs, nameOf) && UniqueNames(ys, nameOf) && Sorted(xs, key) && Sorted(ys, key)
    requires forall x :: x in xs || x in ys ==> key(x) != [] && key(x)[0] == nameOf(x)
    ensures SameNamed(xs, ys, nameOf) <==> xs == ys
  {
    if xs == ys {
      forall x | x in xs
        ensures Lookup(ys, nameOf, nameOf(x)) == Some(x)
      {
        LookupUnique(xs, nameOf, x);
      }
    }
    if SameNamed(xs, ys, nameOf) {
      UniqueAsKeys(xs, nameOf, key);
      forall x
        ensures multiset(xs)[x] == multiset(ys)[x]
      {
        SameMembers(xs, ys, nameOf, x);
        OnceIn(xs, nameOf, x);
        OnceIn(ys, nameOf, x);
      }
      SortedUnique(xs, ys, key);
    }
  }

  lemma SameMembers<T>(xs: seq<T>, ys: seq<T>, nameOf: T -> string, x: T)
    requires SameNamed(xs, ys, nameOf) && UniqueNames(ys, nameOf)
    ensures x in xs <==> x in ys
  {
    if x in ys {
      var w := Lookup(xs, nameOf, nameOf(x)).value;
      LookupUnique(ys, nameOf, x);
    }
  }

  lemma OnceIn<T>(xs: seq<T>, nameOf: T -> string, x: T)
    requires UniqueNames(xs, nameOf)
    ensures multiset(xs)[x] == if x in xs then 1 else 0
  {
    if x in xs {
      var i :| 0 <= i < |xs| && xs[i] == x;
      UniqueAsKeys(xs, nameOf, NameKeyOf(nameOf));
      OccursOnce(xs, i, NameKeyOf(nameOf));
    }
  }

  // ----- models and snapshots -----

  ghost predicate CompatibleModel(x: Model, y: Model) {
    && ModelCompatibility(NormalizedModel(x), NormalizedModel(y)) == Compatible
    && AllKept(x.fields, y.fields, FieldName, FieldVisible, FieldCompatibility)
    && AllKept(x.metrics, y.metrics, MetricName, MetricVisible, MetricCompatibility)
    && AllKept(x.relationships, y.relationships, RelationshipName, AlwaysVisible, AlwaysBreaking)
  }

  ghost predicate CompatibleSnapshots(before: Snapshot, after: Snapshot) {
    forall x :: x in before.models ==>
      var y := Lookup(after.models, ModelName, x.semanticName);
      y.Some? && CompatibleModel(x, y.value)
  }

  lemma AllKeptPermutation<T>(xs: seq<T>, xs': seq<T>, ys: seq<T>, ys': seq<T>, nameOf: T -> string, visible: T -> bool, modified: (T, T) -> Compatibility)
    requires multiset(xs) == multiset(xs') && multiset(ys) == multiset(ys') && UniqueNames(ys, nameOf)
    ensures AllKept(xs, ys, nameOf, visible, modified) <==> AllKept(xs', ys', nameOf, visible, modified)
  {
    forall x
      ensures x in xs <==> x in xs'
      ensures Kept(x, ys, nameOf, visible, modified) <==> Kept(x, ys', nameOf, visible, modified)
    {
      SameElements(xs, xs', x);
      LookupPermutation(ys, ys', nameOf, nameOf(x));
    }
  }

  lemma OldModelVerdict(x: Model, y: Model, after: seq<Model>)
    requires ModelNamesUnique(x) && ModelNamesUnique(y)
    requires Lookup(after, ModelName, x.semanticName) == Some(NormalizedModel(y))
    ensures AllCompatible(OldModelChanges(NormalizedModel(x), after)) <==> CompatibleModel(x, y)
  {
    hide Kept, NamedChanges, AllKept, AllCompatible;
    var a, b := NormalizedModel(x), NormalizedModel(y);
    var path := "models." + a.semanticName;
    var meta := if SameMetadata(a, b) then [] else [Change(path, ModelObject, Modified, ModelCompatibility(a, b))];
    var fs := NamedChanges(path + ".fields.", FieldObject, a.fields, b.fields, FieldName, FieldVisible, FieldCompatibility);
    var ms := NamedChanges(path + ".metrics.", MetricObject, a.metrics, b.metrics, MetricName, MetricVisible, MetricCompatibility);
    var rs := NamedChanges(path + ".relationships.", RelationshipObject, a.relationships, b.relationships, RelationshipName, AlwaysVisible, AlwaysBreaking);
    NamedVerdict(path + ".fields.", FieldObject, a.fields, b.fields, FieldName, FieldVisible, FieldCompatibility);
    NamedVerdict(path + ".metrics.", MetricObject, a.metrics, b.metrics, MetricName, MetricVisible, MetricCompatibility);
    NamedVerdict(path + ".relationships.", RelationshipObject, a.relationships, b.relationships, RelationshipName, AlwaysVisible, AlwaysBreaking);
    AllKeptPermutation(x.fields, a.fields, y.fields, b.fields, FieldName, FieldVisible, FieldCompatibility);
    AllKeptPermutation(x.metrics, a.metrics, y.metrics, b.metrics, MetricName, MetricVisible, MetricCompatibility);
    AllKeptPermutation(x.relationships, a.relationships, y.relationships, b.relationships, RelationshipName, AlwaysVisible, AlwaysBreaking);
    FourParts(meta, fs, ms, rs);
    MetadataVerdict(a, b, meta);
  }

  lemma MetadataVerdict(a: Model, b: Model, meta: seq<Change>)
    requires meta == if SameMetadata(a, b) then [] else [Change("models." + a.semanticName, ModelObject, Modified, ModelCompatibility(a, b))]
    ensures AllCompatible(meta) <==> ModelCompatibility(a, b) == Compatible
  {
    if meta != [] {
      assert AllCompatible(meta) <==> meta[0].compatibility == Compatible;
    }
  }

  lemma FourParts(a: seq<Change>, b: seq<Change>, c: seq<Change>, d: seq<Change>)
    ensures AllCompatible(a + b + c + d) <==> AllCompatible(a) && AllCompatible(b) && AllCompatible(c) && AllCompatible(d)
  {
    AllCompatibleAppend(a, b);
    AllCompatibleAppend(a + b, c);
    AllCompatibleAppend(a + b + c, d);
  }

  lemma LookupNormalized(s: Snapshot, n: string)
    requires UniqueNames(s.models, ModelName)
    ensures Lookup(Normalized(s).models, ModelName, n)
            == match Lookup(s.models, ModelName, n) case None => None case Some(m) => Some(NormalizedModel(m))
  {
    hide NormalizedModel;
    var sorted := Sort(s.models, ModelKey);
    LookupPermutation(s.models, sorted, ModelName, n);
    LookupMapped(sorted, n);
  }

  lemma {:induction false} LookupMapped(ms: seq<Model>, n: string)
    ensures Lookup(NormalizedModels(ms), ModelName, n)
            == match Lookup(ms, ModelName, n) case None => None case Some(m) => Some(NormalizedModel(m))
  {
    hide NormalizedModel;
    if ms != [] {
      LookupMapped(ms[1..], n);
      assert NormalizedModels(ms)[1..] == NormalizedModels(ms[1..]);
    }
  }

  ghost predicate ModelVerdict(x: Model, after: seq<Model>) {
    AllCompatible(OldModelChanges(x, after))
  }

  lemma {:induction false} OldModelsVerdict(before: seq<Model>, after: seq<Model>)
    ensures AllCompatible(OldModelsChanges(before, after)) <==> forall x :: x in before ==> ModelVerdict(x, after)
  {
    hide OldModelChanges;
    if before != [] {
      var n := |before| - 1;
      OldModelsVerdict(before[..n], after);
      AllCompatibleAppend(OldModelsChanges(before[..n], after), OldModelChanges(before[n], after));
      assert ModelVerdict(before[n], after) <==> AllCompatible(OldModelChanges(before[n], after));
      assert before == before[..n] + [before[n]];
    }
  }

  lemma NormalizedMembers(s: Snapshot, x: Model)
    ensures x in s.models ==> NormalizedModel(x) in Normalized(s).models
  {
    hide NormalizedModel;
    var sorted := Sort(s.models, ModelKey);
    SameElements(s.models, sorted, x);
    if x in sorted {
      var i :| 0 <= i < |sorted| && sorted[i] == x;
      assert NormalizedModels(sorted)[i] == NormalizedModel(x);
    }
  }

  lemma NormalizedOrigin(s: Snapshot, n: Model) returns (x: Model)
    requires n in Normalized(s).models
    ensures x in s.models && n == NormalizedModel(x)
  {
    hide NormalizedModel;
    var sorted := Sort(s.models, ModelKey);
    var i :| 0 <= i < |sorted| && NormalizedModels(sorted)[i] == n;
    x := sorted[i];
    SameElements(s.models, sorted, x);
  }

  lemma ModelVerdictExact(x: Model, before: Snapshot, after: Snapshot)
    requires Diffable(before) && Diffable(after) && x in before.models
    ensures ModelVerdict(NormalizedModel(x), Normalized(after).models)
      <==> var y := Lookup(after.models, ModelName, x.semanticName); y.Some? && CompatibleModel(x, y.value)
  {
    hide NormalizedModel;
    LookupNormalized(after, x.semanticName);
    var y := Lookup(after.models, ModelName, x.semanticName);
    if y.Some? {
      OldModelVerdict(x, y.value, Normalized(after).models);
    } else {
      assert OldModelChanges(NormalizedModel(x), Normalized(after).models)[0].compatibility == Breaking;
    }
  }

  lemma CountVerdict(cs: seq<Change>, ds: seq<Change>)
    requires multiset(cs) == multiset(ds)
    ensures CountBreaking(ds) == 0 <==> AllCompatible(cs)
  {
    forall c
      ensures c in cs <==> c in ds
    {
      SameElements(cs, ds, c);
    }
    if CountBreaking(ds) == 0 {
      assert forall i :: 0 <= i < |cs| ==> cs[i] in cs;
    }
  }

  /** The verdict is exactly that nothing visible was removed and nothing kept was altered, other than by being made visible. */
  lemma VerdictExact(before: Snapshot, after: Snapshot)
    requires Diffable(before) && Diffable(after)
    ensures DiffOf(before, after).compatibility == Compatible <==> CompatibleSnapshots(before, after)
  {
    hide NormalizedModel, CompatibleModel, ModelNamesUnique, ModelVerdict;
    var a, b := Normalized(before), Normalized(after);
    var changes := AllChanges(a, b);
    CountVerdict(changes, Sort(changes, ChangeKey));
    NewChangesCompatible("models.", ModelObject, a.models, b.models, ModelName);
    AllCompatibleAppend(OldModelsChanges(a.models, b.models), NewChanges("models.", ModelObject, a.models, b.models, ModelName));
    OldModelsVerdict(a.models, b.models);
    if CompatibleSnapshots(before, after) {
      forall n | n in a.models
        ensures ModelVerdict(n, b.models)
      {
        var x := NormalizedOrigin(before, n);
        ModelVerdictExact(x, before, after);
      }
    }
    if forall n :: n in a.models ==> ModelVerdict(n, b.models) {
      forall x | x in before.models
        ensures var y := Lookup(after.models, ModelName, x.semanticName); y.Some? && CompatibleModel(x, y.value)
      {
        NormalizedMembers(before, x);
        ModelVerdictExact(x, before, after);
      }
    }
  }

  // ----- no change means no difference -----

  lemma NormalizedModelUnique(m: Model)
    requires ModelNamesUnique(m)
    ensures ModelNamesUnique(NormalizedModel(m))
  {
    var n := NormalizedModel(m);
    UniqueAfterPermutation(m.fields, n.fields, FieldName);
    UniqueAfterPermutation(m.metrics, n.metrics, MetricName);
    UniqueAfterPermutation(m.relationships, n.relationships, RelationshipName);
  }

  /** Two normalized models of one name give no change exactly when they are equal. */
  lemma OldModelEmpty(x: Model, y: Model, after: seq<Model>)
    requires ModelNamesUnique(x) && ModelNamesUnique(y) && x.semanticName == y.semanticName
    requires Lookup(after, ModelName, x.semanticName) == Some(NormalizedModel(y))
    ensures OldModelChanges(NormalizedModel(x), after) == [] <==> NormalizedModel(x) == NormalizedModel(y)
  {
    var a, b := NormalizedModel(x), NormalizedModel(y);
    NormalizedModelUnique(x);
    NormalizedModelUnique(y);
    SortSorts(x.fields, FieldKey);
    SortSorts(y.fields, FieldKey);
    SortSorts(x.metrics, MetricKey);
    SortSorts(y.metrics, MetricKey);
    SortSorts(x.relationships, RelationshipKey);
    SortSorts(y.relationships, RelationshipKey);
    CollectionsEmpty(a, b, after);
  }

  lemma CollectionsEmpty(a: Model, b: Model, after: seq<Model>)
    requires ModelNamesUnique(a) && ModelNamesUnique(b) && a.semanticName == b.semanticName
    requires Lookup(after, ModelName, a.semanticName) == Some(b)
    requires Sorted(a.fields, FieldKey) && Sorted(b.fields, FieldKey) && Sorted(a.metrics, MetricKey) && Sorted(b.metrics, MetricKey)
    requires Sorted(a.relationships, RelationshipKey) && Sorted(b.relationships, RelationshipKey)
    ensures OldModelChanges(a, after) == [] <==> a == b
  {
    hide NamedChanges, SameNamed, Sorted;
    var path := "models." + a.semanticName;
    NamedEmpty(path + ".fields.", FieldObject, a.fields, b.fields, FieldName, FieldVisible, FieldCompatibility);
    NamedEmpty(path + ".metrics.", MetricObject, a.metrics, b.metrics, MetricName, MetricVisible, MetricCompatibility);
    NamedEmpty(path + ".relationships.", RelationshipObject, a.relationships, b.relationships, RelationshipName, AlwaysVisible, AlwaysBreaking);
    SameNamedSorted(a.fields, b.fields, FieldName, FieldKey);
    SameNamedSorted(a.metrics, b.metrics, MetricName, MetricKey);
    SameNamedSorted(a.relationships, b.relationships, RelationshipName, RelationshipKey);
  }

  ghost predicate NoModelChange(x: Model, after: seq<Model>) {
    OldModelChanges(x, after) == []
  }

  lemma {:induction false} OldModelsEmpty(before: seq<Model>, after: seq<Model>)
    ensures OldModelsChanges(before, after) == [] <==> forall x :: x in before ==> NoModelChange(x, after)
  {
    hide OldModelChanges;
    if before != [] {
      var n := |before| - 1;
      OldModelsEmpty(before[..n], after);
      assert NoModelChange(before[n], after) <==> OldModelChanges(before[n], after) == [];
      assert before == before[..n] + [before[n]];
    }
  }

  lemma NoModelChangeExact(x: Model, before: Snapshot, after: Snapshot)
    requires Diffable(before) && Diffable(after) && x in before.models
    ensures NoModelChange(NormalizedModel(x), Normalized(after).models)
      <==> Lookup(Normalized(after).models, ModelName, x.semanticName) == Some(NormalizedModel(x))
  {
    hide NormalizedModel, ModelNamesUnique;
    LookupNormalized(after, x.semanticName);
    var y := Lookup(after.models, ModelName, x.semanticName);
    if y.Some? {
      OldModelEmpty(x, y.value, Normalized(after).models);
    }
  }

  lemma NormalizedNames(s: Snapshot)
    requires UniqueNames(s.models, ModelName)
    ensures UniqueNames(Normalized(s).models, ModelName) && Sorted(Normalized(s).models, ModelKey)
  {
    hide NormalizedModel;
    var sorted := Sort(s.models, ModelKey);
    UniqueAfterPermutation(s.models, sorted, ModelName);
    NamesSurvive(sorted, NormalizedModels(sorted));
    SortSorts(s.models, ModelKey);
    NormalizedModelsSorted(sorted);
  }

  /** The diff is empty exactly when the normalized models are equal. */
  lemma EmptyDiffExact(before: Snapshot, after: Snapshot)
    requires Diffable(before) && Diffable(after)
    ensures DiffOf(before, after).changes == [] <==> Normalized(before).models == Normalized(after).models
  {
    hide NormalizedModel, ModelNamesUnique, NoModelChange;
    var a, b := Normalized(before), Normalized(after);
    var changes := AllChanges(a, b);
    assert |Sort(changes, ChangeKey)| == |multiset(Sort(changes, ChangeKey))| == |multiset(changes)| == |changes|;
    OldModelsEmpty(a.models, b.models);
    NewChangesEmpty("models.", ModelObject, a.models, b.models, ModelName);
    NormalizedNames(before);
    NormalizedNames(after);
    SameNamedSorted(a.models, b.models, ModelName, ModelKey);
    forall n | n in a.models
      ensures NoModelChange(n, b.models) <==> Lookup(b.models, ModelName, ModelName(n)) == Some(n)
    {
      var x := NormalizedOrigin(before, n);
      NoModelChangeExact(x, before, after);
    }
  }
}
