/** Which object a path of the semantic diff names: paths are joined with dots and names are not escaped. */
module DiffPaths {
  import opened Prelude
  import opened Order
  import opened Semantic
  import opened Snapshots
  import opened Diff
  import opened DiffProofs

  type MemberKind = k: ObjectKind | k != ModelObject witness FieldObject

  /** A model, or a field, metric or relationship of one. */
  datatype Place = ModelAt(model: string) | MemberAt(model: string, kind: MemberKind, name: string)

  function Separator(kind: MemberKind): string {
    match kind
    case FieldObject => ".fields."
    case MetricObject => ".metrics."
    case RelationshipObject => ".relationships."
  }

  function PlaceText(p: Place): string {
    match p
    case ModelAt(model) => model
    case MemberAt(model, kind, name) => model + Separator(kind) + name
  }

  function PathOf(p: Place): string {
    "models." + PlaceText(p)
  }

  /** Model name x lies where the members of model y are named. */
  predicate Overlaps(x: string, y: string) {
    || y + Separator(FieldObject) <= x + "."
    || y + Separator(MetricObject) <= x + "."
    || y + Separator(RelationshipObject) <= x + "."
  }

  // ----- two places -----

  lemma SamePath(p: Place, q: Place)
    ensures PathOf(p) == PathOf(q) <==> PlaceText(p) == PlaceText(q)
  {
    hide PlaceText;
    if PathOf(p) == PathOf(q) {
      assert PathOf(p)[7..] == PlaceText(p) && PathOf(q)[7..] == PlaceText(q);
    }
  }

  lemma SeparatorShape(kind: MemberKind)
    ensures var s := Separator(kind);
      && |s| >= 3 && s[0] == '.' && s[|s| - 1] == '.' && forall i :: 0 < i < |s| - 1 ==> s[i] != '.'
  {
  }

  /** Separators differ in their second letter. */
  lemma SeparatorsDiffer(a: MemberKind, b: MemberKind)
    ensures Separator(a)[1] == Separator(b)[1] <==> a == b
  {
  }

  /** Within one model a path names one object. */
  lemma OneModelExact(p: Place, q: Place)
    requires p.model == q.model
    ensures PathOf(p) == PathOf(q) <==> p == q
  {
    SamePath(p, q);
    var n := |p.model|;
    if p.MemberAt? && q.MemberAt? {
      SeparatorsDiffer(p.kind, q.kind);
      SeparatorShape(p.kind);
      SeparatorShape(q.kind);
      hide Separator;
      assert PlaceText(p)[n + 1] == Separator(p.kind)[1] && PlaceText(q)[n + 1] == Separator(q.kind)[1];
      assert PlaceText(p)[n + |Separator(p.kind)|..] == p.name && PlaceText(q)[n + |Separator(q.kind)|..] == q.name;
    }
  }

  lemma PrefixesOf(s: string, a: string, b: string)
    requires a <= s && b <= s && |a| <= |b|
    ensures a <= b
  {
    assert b == s[..|b|];
  }

  /** After the dot that begins a separator, the next dot is the one that ends it. */
  lemma NextDot(y: string, sep: string, s: string, n: nat)
    requires y + sep <= s && forall i :: 0 < i < |sep| - 1 ==> sep[i] != '.'
    requires |y| < n < |s| && s[n] == '.'
    ensures n >= |y| + |sep| - 1
  {
    assert n < |y| + |sep| ==> s[n] == sep[n - |y|];
  }

  /** A place of a longer model name with the text of a place of a shorter one lies inside that one. */
  lemma LongerOverlaps(p: Place, q: Place)
    requires PlaceText(p) == PlaceText(q) && |p.model| > |q.model|
    ensures Overlaps(p.model, q.model)
  {
    var x, y, s := p.model, q.model, PlaceText(p);
    assert q.MemberAt?;
    var sep := Separator(q.kind);
    SeparatorShape(q.kind);
    assert y + sep <= s;
    if p.ModelAt? {
      assert y + sep <= x + ".";
    } else {
      SeparatorShape(p.kind);
      assert s[|x|] == Separator(p.kind)[0];
      assert x + "." <= s;
      NextDot(y, sep, s, |x|);
      PrefixesOf(s, y + sep, x + ".");
    }
  }

  lemma SameLength(p: Place, q: Place)
    requires PlaceText(p) == PlaceText(q) && |p.model| == |q.model|
    ensures p.model == q.model
  {
    assert p.model == PlaceText(p)[..|p.model|] && q.model == PlaceText(q)[..|q.model|];
  }

  /** Inside another model's names, every member has a namesake there. */
  lemma OverlapClashes(x: string, y: string) returns (p: Place, q: Place)
    requires Overlaps(x, y)
    ensures p.MemberAt? && q.MemberAt? && p.model == x && q.model == y && PathOf(p) == PathOf(q)
  {
    var kind: MemberKind :=
      if y + Separator(FieldObject) <= x + "." then FieldObject
      else if y + Separator(MetricObject) <= x + "." then MetricObject
      else RelationshipObject;
    p := MemberAt(x, FieldObject, "");
    var s := PlaceText(p);
    var n := |y + Separator(kind)|;
    assert x + "." <= s;
    assert y + Separator(kind) <= s;
    q := MemberAt(y, kind, s[n..]);
  }

  /** Two models have objects with one path exactly when the name of one lies among the members of the other. */
  lemma ClashExactly(x: string, y: string)
    requires x != y
    ensures (exists p: Place, q: Place :: p.model == x && q.model == y && PathOf(p) == PathOf(q)) <==> Overlaps(x, y) || Overlaps(y, x)
  {
    if p: Place, q: Place :| p.model == x && q.model == y && PathOf(p) == PathOf(q) {
      SamePath(p, q);
      if |x| > |y| {
        LongerOverlaps(p, q);
      } else if |y| > |x| {
        LongerOverlaps(q, p);
      } else {
        SameLength(p, q);
      }
    }
    if Overlaps(x, y) {
      var p, q := OverlapClashes(x, y);
    } else if Overlaps(y, x) {
      var q, p := OverlapClashes(y, x);
    }
  }

  lemma OverlapHasDot(x: string, y: string, kind: MemberKind)
    requires y + Separator(kind) <= x + "."
    ensures '.' in x
  {
    SeparatorShape(kind);
    assert (x + ".")[|y|] == (y + Separator(kind))[|y|];
    assert x[|y|] == '.';
  }

  /** No model name with a dot, no clash. */
  lemma DotFreeApart(x: string, y: string)
    requires '.' !in x
    ensures !Overlaps(x, y)
  {
    if Overlaps(x, y) {
      var kind: MemberKind :=
        if y + Separator(FieldObject) <= x + "." then FieldObject
        else if y + Separator(MetricObject) <= x + "." then MetricObject
        else RelationshipObject;
      OverlapHasDot(x, y, kind);
    }
  }

  // ----- the changes of a diff -----

  ghost predicate UniquePaths(cs: seq<Change>) {
    forall i, j :: 0 <= i < j < |cs| ==> cs[i].path != cs[j].path
  }

  ghost predicate Apart(a: seq<Change>, b: seq<Change>) {
    forall c, d :: c in a && d in b ==> c.path != d.path
  }

  lemma UniqueAppend(a: seq<Change>, b: seq<Change>)
    requires UniquePaths(a) && UniquePaths(b) && Apart(a, b)
    ensures UniquePaths(a + b)
  {
    forall i, j | 0 <= i < j < |a + b|
      ensures (a + b)[i].path != (a + b)[j].path
    {
      assert i < |a| ==> (a + b)[i] in a;
      assert j >= |a| ==> (a + b)[j] in b;
    }
  }

  ghost predicate Reports<T>(prefix: string, objects: seq<T>, nameOf: T -> string, c: Change) {
    exists x :: x in objects && c.path == prefix + nameOf(x)
  }

  lemma PrefixedPaths(prefix: string, a: string, b: string)
    requires prefix + a == prefix + b
    ensures a == b
  {
    assert (prefix + a)[|prefix|..] == a && (prefix + b)[|prefix|..] == b;
  }

  lemma LastNameNew<T>(xs: seq<T>, nameOf: T -> string, n: nat)
    requires n + 1 == |xs| && UniqueNames(xs, nameOf)
    ensures UniqueNames(xs[..n], nameOf) && forall x :: x in xs[..n] ==> nameOf(x) != nameOf(xs[n])
  {
  }

  lemma {:induction false} OldPaths<T>(prefix: string, kind: ObjectKind, before: seq<T>, after: seq<T>, nameOf: T -> string,
                                       visible: T -> bool, modified: (T, T) -> Compatibility)
    requires UniqueNames(before, nameOf)
    ensures var cs := OldChanges(prefix, kind, before, after, nameOf, visible, modified);
      UniquePaths(cs) && forall c :: c in cs ==> Reports(prefix, before, nameOf, c)
  {
    if before != [] {
      var n := |before| - 1;
      var x := before[n];
      var cs, own := OldChanges(prefix, kind, before[..n], after, nameOf, visible, modified), OldObjectChanges(prefix, kind, x, after, nameOf, visible, modified);
      LastNameNew(before, nameOf, n);
      OldPaths(prefix, kind, before[..n], after, nameOf, visible, modified);
      assert forall d :: d in own ==> d.path == prefix + nameOf(x);
      assert before == before[..n] + [x];
      forall c, d | c in cs && d in own
        ensures c.path != d.path
      {
        var y :| y in before[..n] && c.path == prefix + nameOf(y);
        if c.path == d.path {
          PrefixedPaths(prefix, nameOf(y), nameOf(x));
        }
      }
      forall c | c in cs
        ensures Reports(prefix, before, nameOf, c)
      {
        var y :| y in before[..n] && c.path == prefix + nameOf(y);
      }
      UniqueAppend(cs, own);
    }
  }

  ghost predicate ReportsNew<T>(prefix: string, before: seq<T>, after: seq<T>, nameOf: T -> string, c: Change) {
    exists x :: x in after && Lookup(before, nameOf, nameOf(x)).None? && c.path == prefix + nameOf(x)
  }

  lemma {:induction false} NewPaths<T>(prefix: string, kind: ObjectKind, before: seq<T>, after: seq<T>, nameOf: T -> string)
    requires UniqueNames(after, nameOf)
    ensures var cs := NewChanges(prefix, kind, before, after, nameOf);
      UniquePaths(cs) && forall c :: c in cs ==> ReportsNew(prefix, before, after, nameOf, c)
  {
    if after != [] {
      var n := |after| - 1;
      var x := after[n];
      var cs, own := NewChanges(prefix, kind, before, after[..n], nameOf), NewObjectChanges(prefix, kind, x, before, nameOf);
      LastNameNew(after, nameOf, n);
      NewPaths(prefix, kind, before, after[..n], nameOf);
      assert forall d :: d in own ==> d.path == prefix + nameOf(x);
      assert after == after[..n] + [x];
      forall c, d | c in cs && d in own
        ensures c.path != d.path
      {
        var y :| y in after[..n] && Lookup(before, nameOf, nameOf(y)).None? && c.path == prefix + nameOf(y);
        if c.path == d.path {
          PrefixedPaths(prefix, nameOf(y), nameOf(x));
        }
      }
      forall c | c in cs
        ensures ReportsNew(prefix, before, after, nameOf, c)
      {
        var y :| y in after[..n] && Lookup(before, nameOf, nameOf(y)).None? && c.path == prefix + nameOf(y);
      }
      UniqueAppend(cs, own);
    }
  }

  /** In one collection every name is reported at most once, under the collection's prefix. */
  lemma NamedPaths<T>(prefix: string, kind: ObjectKind, before: seq<T>, after: seq<T>, nameOf: T -> string,
                      visible: T -> bool, modified: (T, T) -> Compatibility)
    requires UniqueNames(before, nameOf) && UniqueNames(after, nameOf)
    ensures var cs := NamedChanges(prefix, kind, before, after, nameOf, visible, modified);
      UniquePaths(cs) && forall c :: c in cs ==> prefix <= c.path
  {
    hide OldChanges, NewChanges;
    OldPaths(prefix, kind, before, after, nameOf, visible, modified);
    NewPaths(prefix, kind, before, after, nameOf);
    var older, newer := OldChanges(prefix, kind, before, after, nameOf, visible, modified), NewChanges(prefix, kind, before, after, nameOf);
    forall c, d | c in older && d in newer
      ensures c.path != d.path
    {
      var x :| x in before && c.path == prefix + nameOf(x);
      var y :| y in after && Lookup(before, nameOf, nameOf(y)).None? && d.path == prefix + nameOf(y);
      if c.path == d.path {
        PrefixedPaths(prefix, nameOf(x), nameOf(y));
      }
    }
    UniqueAppend(older, newer);
  }

  /** The change is about the model of that name, or about one of its members. */
  ghost predicate About(c: Change, model: string) {
    exists p: Place :: p.model == model && c.path == PathOf(p)
  }

  function MemberPrefix(model: string, kind: MemberKind): string {
    "models." + model + Separator(kind)
  }

  ghost predicate AboutMembers(cs: seq<Change>, model: string, kind: MemberKind) {
    forall c :: c in cs ==> MemberPrefix(model, kind) <= c.path
  }

  lemma MemberPlace(c: Change, model: string, kind: MemberKind) returns (p: Place)
    requires MemberPrefix(model, kind) <= c.path
    ensures p == MemberAt(model, kind, c.path[|MemberPrefix(model, kind)|..]) && c.path == PathOf(p)
  {
    hide Separator;
    var prefix := MemberPrefix(model, kind);
    p := MemberAt(model, kind, c.path[|prefix|..]);
    assert c.path == prefix + p.name;
    assert "models." + model + Separator(kind) + p.name == "models." + (model + Separator(kind) + p.name);
  }

  lemma MembersApart(a: seq<Change>, b: seq<Change>, model: string, j: MemberKind, k: MemberKind)
    requires AboutMembers(a, model, j) && AboutMembers(b, model, k) && j != k
    ensures Apart(a, b)
  {
    forall c, d | c in a && d in b
      ensures c.path != d.path
    {
      var p := MemberPlace(c, model, j);
      var q := MemberPlace(d, model, k);
      OneModelExact(p, q);
    }
  }

  lemma ModelApart(a: seq<Change>, b: seq<Change>, model: string, k: MemberKind)
    requires AboutMembers(b, model, k) && forall c :: c in a ==> c.path == PathOf(ModelAt(model))
    ensures Apart(a, b)
  {
    forall c, d | c in a && d in b
      ensures c.path != d.path
    {
      var q := MemberPlace(d, model, k);
      OneModelExact(ModelAt(model), q);
    }
  }

  lemma ApartAppend(a: seq<Change>, b: seq<Change>, c: seq<Change>)
    requires Apart(a, c) && Apart(b, c)
    ensures Apart(a + b, c)
  {
  }

  lemma FourApart(meta: seq<Change>, fields: seq<Change>, metrics: seq<Change>, relationships: seq<Change>, model: string)
    requires forall c :: c in meta ==> c.path == PathOf(ModelAt(model))
    requires AboutMembers(fields, model, FieldObject) && AboutMembers(metrics, model, MetricObject) && AboutMembers(relationships, model, RelationshipObject)
    requires UniquePaths(meta) && UniquePaths(fields) && UniquePaths(metrics) && UniquePaths(relationships)
    ensures UniquePaths(meta + fields + metrics + relationships)
  {
    hide UniquePaths, Apart, AboutMembers;
    ModelApart(meta, fields, model, FieldObject);
    ModelApart(meta, metrics, model, MetricObject);
    ModelApart(meta, relationships, model, RelationshipObject);
    MembersApart(fields, metrics, model, FieldObject, MetricObject);
    MembersApart(fields, relationships, model, FieldObject, RelationshipObject);
    MembersApart(metrics, relationships, model, MetricObject, RelationshipObject);
    UniqueAppend(meta, fields);
    ApartAppend(meta, fields, metrics);
    UniqueAppend(meta + fields, metrics);
    ApartAppend(meta, fields, relationships);
    ApartAppend(meta + fields, metrics, relationships);
    UniqueAppend(meta + fields + metrics, relationships);
  }

  lemma AboutMember(c: Change, model: string, kind: MemberKind)
    requires MemberPrefix(model, kind) <= c.path
    ensures About(c, model)
  {
    var p := MemberPlace(c, model, kind);
  }

  /** All changes of one model name different objects of it. */
  lemma OldModelPaths(x: Model, after: seq<Model>)
    requires ModelNamesUnique(x) && forall m :: m in after ==> ModelNamesUnique(m)
    ensures var cs := OldModelChanges(x, after); UniquePaths(cs) && forall c :: c in cs ==> About(c, x.semanticName)
  {
    var n := x.semanticName;
    var found := Lookup(after, ModelName, n);
    if found.None? {
      assert OldModelChanges(x, after)[0].path == PathOf(ModelAt(n));
    } else {
      var y := found.value;
      assert ModelNamesUnique(y);
      hide NamedChanges, UniquePaths, About;
      var path := "models." + n;
      assert path + ".fields." == MemberPrefix(n, FieldObject) && path + ".metrics." == MemberPrefix(n, MetricObject)
          && path + ".relationships." == MemberPrefix(n, RelationshipObject);
      var meta := if SameMetadata(x, y) then [] else [Change(path, ModelObject, Modified, ModelCompatibility(x, y))];
      var fields := NamedChanges(path + ".fields.", FieldObject, x.fields, y.fields, FieldName, FieldVisible, FieldCompatibility);
      var metrics := NamedChanges(path + ".metrics.", MetricObject, x.metrics, y.metrics, MetricName, MetricVisible, MetricCompatibility);
      var relationships := NamedChanges(path + ".relationships.", RelationshipObject, x.relationships, y.relationships, RelationshipName, AlwaysVisible, AlwaysBreaking);
      NamedPaths(path + ".fields.", FieldObject, x.fields, y.fields, FieldName, FieldVisible, FieldCompatibility);
      NamedPaths(path + ".metrics.", MetricObject, x.metrics, y.metrics, MetricName, MetricVisible, MetricCompatibility);
      NamedPaths(path + ".relationships.", RelationshipObject, x.relationships, y.relationships, RelationshipName, AlwaysVisible, AlwaysBreaking);
      ModelPlaces(meta, fields, metrics, relationships, n);
    }
  }

  lemma ModelPlaces(meta: seq<Change>, fields: seq<Change>, metrics: seq<Change>, relationships: seq<Change>, model: string)
    requires |meta| <= 1 && forall c :: c in meta ==> c.path == "models." + model
    requires AboutMembers(fields, model, FieldObject) && AboutMembers(metrics, model, MetricObject) && AboutMembers(relationships, model, RelationshipObject)
    requires UniquePaths(fields) && UniquePaths(metrics) && UniquePaths(relationships)
    ensures var cs := meta + fields + metrics + relationships;
      UniquePaths(cs) && forall c :: c in cs ==> About(c, model)
  {
    hide MemberPrefix, Apart;
    assert forall c :: c in meta ==> c.path == PathOf(ModelAt(model));
    FourApart(meta, fields, metrics, relationships, model);
    forall c | c in meta + fields + metrics + relationships
      ensures About(c, model)
    {
      if c in fields {
        AboutMember(c, model, FieldObject);
      } else if c in metrics {
        AboutMember(c, model, MetricObject);
      } else if c in relationships {
        AboutMember(c, model, RelationshipObject);
      }
    }
  }

  /** Model names none of which lies among the members of another. */
  ghost predicate NamesApart(names: set<string>) {
    forall x, y :: x in names && y in names && x != y ==> !Overlaps(x, y)
  }

  lemma ModelsApart(a: seq<Change>, b: seq<Change>, x: string, y: string)
    requires x != y && !Overlaps(x, y) && !Overlaps(y, x)
    requires (forall c :: c in a ==> About(c, x)) && forall d :: d in b ==> About(d, y)
    ensures Apart(a, b)
  {
    ClashExactly(x, y);
  }

  ghost function NamesIn(models: seq<Model>): set<string> {
    set m | m in models :: m.semanticName
  }

  ghost predicate AboutSome(c: Change, models: seq<Model>) {
    exists m :: m in models && About(c, m.semanticName)
  }

  lemma {:induction false} OldModelsPaths(before: seq<Model>, after: seq<Model>)
    requires UniqueNames(before, ModelName) && NamesApart(NamesIn(before))
    requires (forall m :: m in before ==> ModelNamesUnique(m)) && forall m :: m in after ==> ModelNamesUnique(m)
    ensures var cs := OldModelsChanges(before, after); UniquePaths(cs) && forall c :: c in cs ==> AboutSome(c, before)
  {
    hide OldModelChanges, About, ModelNamesUnique, Overlaps;
    if before != [] {
      var n := |before| - 1;
      var x := before[n];
      assert before == before[..n] + [x];
      LastNameNew(before, ModelName, n);
      OldModelsPaths(before[..n], after);
      OldModelPaths(x, after);
      var cs, own := OldModelsChanges(before[..n], after), OldModelChanges(x, after);
      forall c, d | c in cs && d in own
        ensures c.path != d.path
      {
        var y :| y in before[..n] && About(c, y.semanticName);
        ModelsApart([c], [d], y.semanticName, x.semanticName);
      }
      UniqueAppend(cs, own);
      forall c | c in cs
        ensures AboutSome(c, before)
      {
        var y :| y in before[..n] && About(c, y.semanticName);
      }
      assert forall c :: c in own ==> x in before && About(c, x.semanticName);
    }
  }

  lemma AllPaths(before: Snapshot, after: Snapshot)
    requires Diffable(before) && Diffable(after) && NamesApart(NamesIn(before.models) + NamesIn(after.models))
    ensures UniquePaths(AllChanges(before, after))
  {
    hide UniquePaths, OldModelsChanges, NewChanges, ModelNamesUnique, Overlaps, About;
    OldModelsPaths(before.models, after.models);
    NewPaths("models.", ModelObject, before.models, after.models, ModelName);
    var older, newer := OldModelsChanges(before.models, after.models), NewChanges("models.", ModelObject, before.models, after.models, ModelName);
    forall c, d | c in older && d in newer
      ensures c.path != d.path
    {
      var x :| x in before.models && About(c, x.semanticName);
      var y :| y in after.models && Lookup(before.models, ModelName, ModelName(y)).None? && d.path == "models." + ModelName(y);
      AboutModel(d, y.semanticName);
      ModelsApart([c], [d], x.semanticName, y.semanticName);
    }
    UniqueAppend(older, newer);
  }

  lemma AboutModel(d: Change, model: string)
    requires d.path == "models." + model
    ensures About(d, model)
  {
    assert d.path == PathOf(ModelAt(model));
  }

  function PathKey(c: Change): string { c.path }

  /**
   If no model's name lies among another's members, every path of a semantic diff names one object: no two
   changes of the diff share a path. Names without dots are always apart.
   */
  lemma SemanticPathsUnique(before: Snapshot, after: Snapshot)
    requires Diffable(before) && Diffable(after) && NamesApart(NamesIn(before.models) + NamesIn(after.models))
    ensures UniquePaths(DiffOf(before, after).changes)
  {
    hide UniquePaths, AllChanges, Overlaps, Diffable;
    var a, b := Normalized(before), Normalized(after);
    NormalizedDiffable(before);
    NormalizedDiffable(after);
    AllPaths(a, b);
    SortedPaths(AllChanges(a, b));
  }

  lemma SortedPaths(cs: seq<Change>)
    requires UniquePaths(cs)
    ensures UniquePaths(Sort(cs, ChangeKey))
  {
    assert UniqueNames(cs, PathKey);
    UniqueAfterPermutation(cs, Sort(cs, ChangeKey), PathKey);
    var sorted := Sort(cs, ChangeKey);
    forall i, j | 0 <= i < j < |sorted|
      ensures sorted[i].path != sorted[j].path
    {
      assert PathKey(sorted[i]) != PathKey(sorted[j]);
    }
  }

  lemma NormalizedDiffable(s: Snapshot)
    requires Diffable(s)
    ensures Diffable(Normalized(s)) && NamesIn(Normalized(s).models) == NamesIn(s.models)
  {
    hide NormalizedModel, ModelNamesUnique;
    NormalizedNames(s);
    var a := Normalized(s).models;
    forall n | n in a
      ensures ModelNamesUnique(n) && n.semanticName in NamesIn(s.models)
    {
      var x := NormalizedOrigin(s, n);
      NormalizedModelUnique(x);
    }
    forall x | x in s.models
      ensures x.semanticName in NamesIn(a)
    {
      NormalizedMembers(s, x);
    }
  }

  // ----- names that are not apart -----

  /** A model with one member and nothing else. */
  function Holding(p: Place): Model
    requires p.MemberAt?
  {
    var bare := Bare(p.model);
    match p.kind
    case FieldObject => bare.(fields := [Field(p.name, TextType, "c", None, false, false, true, true)])
    case MetricObject => bare.(metrics := [Metric(p.name, IntegerType, Count, "f", None, None, None, true)])
    case RelationshipObject => bare.(relationships := [Relationship(p.name, "m", Relation("s", "t"), ManyToOne, Left, "a", "b")])
  }

  function Bare(name: string): Model {
    Model(name, Relation("s", "r"), None, true, None, [], [], [])
  }

  function TwoModels(a: Model, b: Model): Snapshot {
    Snapshot("1", "", [a, b])
  }

  lemma SortOne<T>(xs: seq<T>, key: T -> seq<string>)
    requires |xs| <= 1
    ensures Sort(xs, key) == xs
  {
    var ys := Sort(xs, key);
    assert |ys| == |multiset(ys)| == |multiset(xs)| == |xs|;
    if |xs| == 1 {
      assert ys[0] in multiset(ys);
      assert ys == xs;
    }
  }

  lemma NormalAlready(m: Model)
    requires |m.fields| <= 1 && |m.metrics| <= 1 && |m.relationships| <= 1 && m.writable.None?
    ensures NormalizedModel(m) == m
  {
    SortOne(m.fields, FieldKey);
    SortOne(m.metrics, MetricKey);
    SortOne(m.relationships, RelationshipKey);
  }

  lemma OneLost<T>(prefix: string, kind: ObjectKind, x: T, nameOf: T -> string, visible: T -> bool, modified: (T, T) -> Compatibility)
    returns (c: Change)
    ensures c in NamedChanges(prefix, kind, [x], [], nameOf, visible, modified) && c.path == prefix + nameOf(x)
  {
    var xs := [x];
    c := Change(prefix + nameOf(x), kind, Removed, if visible(x) then Breaking else Compatible);
    assert xs[..|xs| - 1] == [];
    assert OldChanges(prefix, kind, xs, [], nameOf, visible, modified) == [c];
    assert NewChanges(prefix, kind, xs, [], nameOf) == [];
  }

  /** The changes of each collection of a model are among the model's changes. */
  lemma PartsIncluded(x: Model, y: Model, after: seq<Model>, c: Change)
    requires Lookup(after, ModelName, x.semanticName) == Some(y)
    requires var path := "models." + x.semanticName;
      || c in NamedChanges(path + ".fields.", FieldObject, x.fields, y.fields, FieldName, FieldVisible, FieldCompatibility)
      || c in NamedChanges(path + ".metrics.", MetricObject, x.metrics, y.metrics, MetricName, MetricVisible, MetricCompatibility)
      || c in NamedChanges(path + ".relationships.", RelationshipObject, x.relationships, y.relationships, RelationshipName, AlwaysVisible, AlwaysBreaking)
    ensures c in OldModelChanges(x, after)
  {
    hide NamedChanges;
  }

  lemma PathParts(p: Place)
    requires p.MemberAt?
    ensures PathOf(p) == "models." + p.model + Separator(p.kind) + p.name
  {
    hide Separator;
  }

  /** Losing its only member, a model reports that member's path. */
  lemma LossReported(p: Place, after: seq<Model>)
    requires p.MemberAt? && Lookup(after, ModelName, p.model) == Some(Bare(p.model))
    ensures exists c :: c in OldModelChanges(Holding(p), after) && c.path == PathOf(p)
  {
    hide NamedChanges, OldModelChanges, PathOf;
    PathParts(p);
    var x, path := Holding(p), "models." + p.model;
    var lost: Change;
    match p.kind
    case FieldObject =>
      lost := OneLost(path + ".fields.", FieldObject, x.fields[0], FieldName, FieldVisible, FieldCompatibility);
      PartsIncluded(x, Bare(p.model), after, lost);
    case MetricObject =>
      lost := OneLost(path + ".metrics.", MetricObject, x.metrics[0], MetricName, MetricVisible, MetricCompatibility);
      PartsIncluded(x, Bare(p.model), after, lost);
    case RelationshipObject =>
      lost := OneLost(path + ".relationships.", RelationshipObject, x.relationships[0], RelationshipName, AlwaysVisible, AlwaysBreaking);
      PartsIncluded(x, Bare(p.model), after, lost);
  }

  lemma TwoModelsDiffable(a: Model, b: Model)
    requires a.semanticName != b.semanticName && ModelNamesUnique(a) && ModelNamesUnique(b)
    ensures Diffable(TwoModels(a, b)) && NamesIn(TwoModels(a, b).models) == {a.semanticName, b.semanticName}
    ensures var ms := TwoModels(a, b).models; Lookup(ms, ModelName, a.semanticName) == Some(a) && Lookup(ms, ModelName, b.semanticName) == Some(b)
  {
    var s := TwoModels(a, b);
    assert ModelName(s.models[0]) == a.semanticName && ModelName(s.models[1]) == b.semanticName;
    assert s.models[1..] == [b];
    assert s.models[0] in s.models && s.models[1] in s.models;
  }

  lemma SortTwo(a: Model, b: Model)
    ensures Sort([a, b], ModelKey) == [a, b] || Sort([a, b], ModelKey) == [b, a]
  {
    var ys := Sort([a, b], ModelKey);
    assert |ys| == |multiset(ys)| == |multiset([a, b])| == 2;
    assert ys == [ys[0], ys[1]];
    assert multiset([ys[0], ys[1]]) == multiset{a, b};
    assert ys[0] in multiset(ys);
    assert multiset{a, b} - multiset{ys[0]} == multiset{ys[1]};
    if ys[0] == a {
      assert multiset{a, b} - multiset{a} == multiset{b};
      assert ys[1] in multiset{b};
    } else {
      assert multiset{a, b} - multiset{b} == multiset{a};
      assert ys[1] in multiset{a};
    }
  }

  lemma TwoModelsChanges(first: Model, second: Model, after: seq<Model>)
    ensures OldModelsChanges([first, second], after) == OldModelChanges(first, after) + OldModelChanges(second, after)
  {
    hide OldModelChanges;
    var ms := [first, second];
    assert ms[..0] == [] && ms[..2] == ms;
    OldModelsStep(ms, 0, after);
    OldModelsStep(ms, 1, after);
  }

  lemma PathTwice(a: seq<Change>, b: seq<Change>, rest: seq<Change>, path: string)
    requires (exists c :: c in a && c.path == path) && exists d :: d in b && d.path == path
    ensures !UniquePaths(a + b + rest)
  {
    var c :| c in a && c.path == path;
    var d :| d in b && d.path == path;
    var i :| 0 <= i < |a| && a[i] == c;
    var j :| 0 <= j < |b| && b[j] == d;
    var cs := a + b + rest;
    assert cs[i] == c && cs[|a| + j] == d;
  }

  /** Two models that each report the path make it a path reported twice. */
  lemma ReportedTwice(first: Model, second: Model, after: Snapshot, path: string, before: Snapshot)
    requires before.models == [first, second]
    requires exists c :: c in OldModelChanges(first, after.models) && c.path == path
    requires exists d :: d in OldModelChanges(second, after.models) && d.path == path
    ensures !UniquePaths(AllChanges(before, after))
  {
    hide OldModelChanges, OldModelsChanges, NewChanges, UniquePaths;
    TwoModelsChanges(first, second, after.models);
    PathTwice(OldModelChanges(first, after.models), OldModelChanges(second, after.models),
              NewChanges("models.", ModelObject, before.models, after.models, ModelName), path);
  }

  lemma HoldingShape(p: Place)
    requires p.MemberAt?
    ensures var m := Holding(p);
      && m.semanticName == p.model && ModelNamesUnique(m) && m.writable.None?
      && |m.fields| <= 1 && |m.metrics| <= 1 && |m.relationships| <= 1
  {
  }

  lemma BareModels(x: string, y: string)
    requires x != y
    ensures var s := TwoModels(Bare(x), Bare(y));
      && Diffable(s) && NamesIn(s.models) == {x, y}
      && Lookup(Normalized(s).models, ModelName, x) == Some(Bare(x)) && Lookup(Normalized(s).models, ModelName, y) == Some(Bare(y))
  {
    hide Normalized, NormalizedModel;
    TwoModelsDiffable(Bare(x), Bare(y));
    LookupNormalized(TwoModels(Bare(x), Bare(y)), x);
    LookupNormalized(TwoModels(Bare(x), Bare(y)), y);
    NormalAlready(Bare(x));
    NormalAlready(Bare(y));
  }

  /** A diff of two snapshots with these two models in which the path of p and q occurs twice. */
  lemma BothLost(p: Place, q: Place) returns (before: Snapshot, after: Snapshot)
    requires p.MemberAt? && q.MemberAt? && p.model != q.model && PathOf(p) == PathOf(q)
    ensures Diffable(before) && Diffable(after) && NamesIn(before.models) + NamesIn(after.models) == {p.model, q.model}
    ensures !UniquePaths(DiffOf(before, after).changes)
  {
    hide Diffable, UniquePaths, AllChanges, Normalized, Holding, OldModelChanges, PathOf, ModelNamesUnique, Lookup, TwoModels, NamesIn;
    var x, y := Holding(p), Holding(q);
    before, after := TwoModels(x, y), TwoModels(Bare(p.model), Bare(q.model));
    HoldingShape(p);
    HoldingShape(q);
    TwoModelsDiffable(x, y);
    BareModels(p.model, q.model);
    NormalTwo(x, y);
    var a, b := Normalized(before), Normalized(after);
    LossReported(p, b.models);
    LossReported(q, b.models);
    if a.models == [x, y] {
      ReportedTwice(x, y, b, PathOf(p), a);
    } else {
      ReportedTwice(y, x, b, PathOf(p), a);
    }
    if UniquePaths(DiffOf(before, after).changes) {
      UnsortedPaths(AllChanges(a, b));
    }
  }

  lemma NormalTwo(x: Model, y: Model)
    requires |x.fields| <= 1 && |x.metrics| <= 1 && |x.relationships| <= 1 && x.writable.None?
    requires |y.fields| <= 1 && |y.metrics| <= 1 && |y.relationships| <= 1 && y.writable.None?
    ensures Normalized(TwoModels(x, y)).models == [x, y] || Normalized(TwoModels(x, y)).models == [y, x]
  {
    hide NormalizedModel, Sort;
    NormalAlready(x);
    NormalAlready(y);
    SortTwo(x, y);
    assert NormalizedModels([x, y]) == [x, y] && NormalizedModels([y, x]) == [y, x];
  }

  lemma UnsortedPaths(cs: seq<Change>)
    requires UniquePaths(Sort(cs, ChangeKey))
    ensures UniquePaths(cs)
  {
    var sorted := Sort(cs, ChangeKey);
    assert UniqueNames(sorted, PathKey);
    UniqueAfterPermutation(sorted, cs, PathKey);
    forall i, j | 0 <= i < j < |cs|
      ensures cs[i].path != cs[j].path
    {
      assert PathKey(cs[i]) != PathKey(cs[j]);
    }
  }

  /** Two model names keep all paths of all diffs apart exactly when neither lies among the members of the other. */
  lemma SemanticPathsExactly(x: string, y: string)
    requires x != y
    ensures (forall before, after ::
               Diffable(before) && Diffable(after) && NamesIn(before.models) + NamesIn(after.models) <= {x, y} ==>
               UniquePaths(DiffOf(before, after).changes))
      <==> !Overlaps(x, y) && !Overlaps(y, x)
  {
    hide Diffable, UniquePaths, DiffOf, PathOf;
    if !Overlaps(x, y) && !Overlaps(y, x) {
      forall before, after | Diffable(before) && Diffable(after) && NamesIn(before.models) + NamesIn(after.models) <= {x, y}
        ensures UniquePaths(DiffOf(before, after).changes)
      {
        SemanticPathsUnique(before, after);
      }
    } else {
      var p, q;
      if Overlaps(x, y) {
        p, q := OverlapClashes(x, y);
      } else {
        p, q := OverlapClashes(y, x);
      }
      var before, after := BothLost(p, q);
      assert NamesIn(before.models) + NamesIn(after.models) == {x, y};
    }
  }

  /** Field b of model a and the model a.fields.b have one path. */
  lemma DottedNameClashes()
    ensures Overlaps("a.fields.b", "a") && PathOf(MemberAt("a", FieldObject, "b")) == PathOf(ModelAt("a.fields.b"))
  {
  }
}
