/**
 The models of an imported document: relationships on vouched foreign keys, fields seen through them and
 metrics, each traced back to the line of the document it comes from.
 */
module OsiModels {
  import opened Prelude
  import opened Order
  import opened Semantic
  import opened Snapshots
  import Catalog
  import DiffProofs
  import opened Osi
  import opened OsiGrammar
  import opened OsiImporter
  import OsiRoundTrip
  import opened OsiExact

  // ----- imported datasets -----

  /** A column is a key wherever it is shown. */
  ghost predicate KeysUniform(fields: seq<Field>) {
    forall f, g :: f in fields && g in fields && f.column == g.column ==> f.entityKey == g.entityKey
  }

  ghost predicate BaseHolds(catalog: Catalog.Snapshot, b: Imported) {
    KeysKnown(catalog, b) && UniqueNames(b.fields, FieldName) && KeysUniform(b.fields)
  }

  ghost predicate BasesHold(catalog: Catalog.Snapshot, bases: seq<Imported>) {
    UniqueNames(bases, ImportedName) && forall b :: b in bases ==> BaseHolds(catalog, b)
  }

  lemma FieldsHold(fs: seq<OsiField>, relation: Catalog.Relation, key: seq<string>, types: Types, own: seq<Field>)
    requires FieldsFrom(fs, relation, key, types, own)
    ensures UniqueNames(own, FieldName) && KeysUniform(own)
  {
    forall i | 0 <= i < |own|
      ensures own[i].semanticName == fs[i].name && own[i].entityKey == (own[i].column in key)
    {
      assert FieldMaker(relation, key, types)(fs[i], own[i]);
    }
    forall i, j | 0 <= i < j < |own|
      ensures FieldName(own[i]) != FieldName(own[j])
    {
      assert NewName(fs, OsiFieldName, j);
      assert OsiFieldName(fs[i]) != OsiFieldName(fs[j]);
    }
  }

  lemma ImportedHolds(ds: seq<OsiDataset>, catalog: Catalog.Snapshot, types: Types, bases: seq<Imported>)
    requires ImportDatasets(ds, catalog, types) == Ok(bases)
    ensures BasesHold(catalog, bases)
  {
    hide ImportDatasets, OwnedUnder, SourceIs, RelationOf, KeysUniform, UniqueNames, Selectable;
    BaseNamesUnique(ds, catalog, types);
    AllKeysKnown(ds, catalog, types);
    DatasetsExactly(ds, catalog, types);
    var os := AllOwned(bases);
    forall b | b in bases
      ensures BaseHolds(catalog, b)
    {
      var i :| 0 <= i < |bases| && bases[i] == b;
      assert DatasetMaker(catalog, types)(ds[i], os[i]);
      var key :| OwnedUnder(ds[i], RelationOf(catalog, b.source).value, key, types, b.fields);
      OwnedFields(ds[i], RelationOf(catalog, b.source).value, key, types, b.fields);
      FieldsHold(ds[i].fields, RelationOf(catalog, b.source).value, key, types, b.fields);
    }
  }

  lemma OwnedFields(d: OsiDataset, relation: Catalog.Relation, key: seq<string>, types: Types, fields: seq<Field>)
    requires OwnedUnder(d, relation, key, types, fields)
    ensures FieldsFrom(d.fields, relation, key, types, fields)
  {
  }

  // ----- relationships -----

  ghost function OwnedNamed(os: seq<Owned>, name: string): Option<Owned> {
    Lookup(os, OwnedName, name)
  }

  ghost predicate ShowsColumn(o: Owned, column: string) {
    exists f :: f in o.fields && f.column == column
  }

  ghost predicate ShowsKey(o: Owned, column: string) {
    exists f :: f in o.fields && f.column == column && f.entityKey
  }

  /** A reliable foreign key leads from one column to the other. */
  ghost predicate Leads(catalog: Catalog.Snapshot, from: Relation, column: string, to: Relation, referenced: string) {
    RelationOf(catalog, from).Some? && ForeignKey(RelationOf(catalog, from).value.constraints, KeyFact([column], to, [referenced]))
  }

  /** What a relationship of the document becomes. */
  ghost predicate RelationshipFrom(os: seq<Owned>, catalog: Catalog.Snapshot, r: OsiRelationship, rel: Relationship) {
    && Portable(r.name) && !r.extended && r.fromColumns == [rel.fromColumn] && r.toColumns == [rel.toColumn]
    && rel.semanticName == r.name && rel.targetModel == r.to && rel.cardinality == ManyToOne && rel.joinType == Left
    && var from, to := OwnedNamed(os, r.from), OwnedNamed(os, r.to);
    && from.Some? && to.Some? && rel.target == to.value.source
    && ShowsColumn(from.value, rel.fromColumn) && ShowsKey(to.value, rel.toColumn)
    && Leads(catalog, from.value.source, rel.fromColumn, to.value.source, rel.toColumn)
  }

  ghost function RelationshipError(r: OsiRelationship): OsiError {
    if !Portable(r.name) then InvalidIdentifier(r.name)
    else if r.extended then UnsupportedExtension
    else if |r.fromColumns| != 1 || |r.toColumns| != 1 then CompositeRelationship
    else InvalidRelationship
  }

  lemma {:induction false} WithColumnNone(fields: seq<Field>, column: string)
    ensures WithColumn(fields, column).None? ==> forall f :: f in fields ==> f.column != column
  {
    if fields != [] {
      WithColumnNone(fields[1..], column);
      assert fields == [fields[0]] + fields[1..];
    }
  }

  lemma OwnMember(b: Imported, f: Field)
    ensures f in OwnByName(b) <==> f in b.fields
  {
    SameElements(OwnByName(b), b.fields, f);
  }

  lemma ColumnShown(b: Imported, column: string)
    requires KeysUniform(b.fields)
    ensures WithColumn(OwnByName(b), column).Some? <==> ShowsColumn(OwnedOf(b), column)
    ensures WithColumn(OwnByName(b), column).Some? && WithColumn(OwnByName(b), column).value.entityKey <==> ShowsKey(OwnedOf(b), column)
  {
    hide OwnByName;
    WithColumnNone(OwnByName(b), column);
    var found := WithColumn(OwnByName(b), column);
    if found.Some? {
      OwnMember(b, found.value);
    }
    if f :| f in b.fields && f.column == column {
      OwnMember(b, f);
    }
    if f :| f in b.fields && f.column == column && f.entityKey {
      OwnMember(b, f);
    }
  }

  lemma LeadsExactly(catalog: Catalog.Snapshot, b: Imported, column: string, to: Relation, referenced: string)
    requires KeysKnown(catalog, b)
    ensures Vouched(b.foreignKeys, column, to, referenced) <==> Leads(catalog, b.source, column, to, referenced)
  {
    hide RelationOf, ForeignKey;
    ForeignKeysExactly(RelationOf(catalog, b.source).value.constraints, KeyFact([column], to, [referenced]));
  }

  lemma BaseNamed(catalog: Catalog.Snapshot, bases: seq<Imported>, name: string)
    requires BasesHold(catalog, bases)
    ensures var b, o := Lookup(bases, ImportedName, name), OwnedNamed(AllOwned(bases), name);
      (b.Some? <==> o.Some?) && (b.Some? ==> o.value == OwnedOf(b.value) && BaseHolds(catalog, b.value))
  {
    hide BaseHolds;
    OwnedLookup(bases, name);
  }

  lemma RelationshipExactly(catalog: Catalog.Snapshot, bases: seq<Imported>, r: OsiRelationship, rel: Relationship)
    requires BasesHold(catalog, bases)
    ensures MakeRelationship(bases, r) == Ok(rel) <==> RelationshipFrom(AllOwned(bases), catalog, r, rel)
    ensures MakeRelationship(bases, r).Err? ==> MakeRelationship(bases, r).error == RelationshipError(r)
  {
    hide Portable, OwnByName, KeysUniform, Leads, Vouched, ShowsColumn, ShowsKey, BasesHold, KeysKnown, UniqueNames, OwnedNamed;
    BaseNamed(catalog, bases, r.from);
    BaseNamed(catalog, bases, r.to);
    if |r.fromColumns| == 1 && |r.toColumns| == 1 {
      assert r.fromColumns == [r.fromColumns[0]] && r.toColumns == [r.toColumns[0]];
      var from, to := Lookup(bases, ImportedName, r.from), Lookup(bases, ImportedName, r.to);
      if from.Some? && to.Some? {
        ColumnShown(to.value, r.toColumns[0]);
        ColumnShown(from.value, r.fromColumns[0]);
        LeadsExactly(catalog, from.value, r.fromColumns[0], to.value.source, r.toColumns[0]);
      }
    }
  }

  // ----- fields seen through a relationship -----

  ghost function JoinedName(r: OsiRelationship, f: Field): string {
    r.name + "_" + f.semanticName
  }

  /** The target's field under the prefixed name: its column, type and nullability, never a key. */
  ghost predicate SeenAs(r: OsiRelationship, f: Field, p: Field) {
    && p.semanticName == JoinedName(r, f) && p.relationship == Some(r.name) && p.column == f.column
    && p.dataType == f.dataType && p.nullable == f.nullable && p.timeDimension == f.timeDimension
    && p.visible && !p.entityKey
  }

  ghost predicate TargetShows(os: seq<Owned>, r: OsiRelationship, f: Field) {
    OwnedNamed(os, r.to).Some? && f in OwnedNamed(os, r.to).value.fields
  }

  ghost predicate SeenThrough(os: seq<Owned>, r: OsiRelationship, p: Field) {
    exists f :: TargetShows(os, r, f) && SeenAs(r, f, p)
  }

  lemma ProjectedSeen(r: OsiRelationship, f: Field, p: Field)
    ensures p == Projected(r.name, f) <==> SeenAs(r, f, p)
  {
  }

  lemma ProjectionExactly(catalog: Catalog.Snapshot, bases: seq<Imported>, r: OsiRelationship, rel: Relationship, p: Field)
    requires BasesHold(catalog, bases) && rel.semanticName == r.name && rel.targetModel == r.to
    ensures p in Projection(bases, rel) <==> SeenThrough(AllOwned(bases), r, p)
  {
    hide BasesHold, OwnByName, OwnedNamed, SeenAs, Projected;
    BaseNamed(catalog, bases, r.to);
    var to := Lookup(bases, ImportedName, r.to);
    if to.Some? {
      var own := OwnByName(to.value);
      if p in Projection(bases, rel) {
        var i :| 0 <= i < |own| && Projection(bases, rel)[i] == p;
        OwnMember(to.value, own[i]);
        ProjectedSeen(r, own[i], p);
        assert TargetShows(AllOwned(bases), r, own[i]);
      }
      if f :| TargetShows(AllOwned(bases), r, f) && SeenAs(r, f, p) {
        OwnMember(to.value, f);
        ProjectedSeen(r, f, p);
        var i :| 0 <= i < |own| && own[i] == f;
        assert Projection(bases, rel)[i] == p;
      }
    }
  }

  lemma ProjectionNames(catalog: Catalog.Snapshot, bases: seq<Imported>, rel: Relationship)
    requires BasesHold(catalog, bases)
    ensures UniqueNames(Projection(bases, rel), FieldName)
  {
    hide OwnByName;
    var to := Lookup(bases, ImportedName, rel.targetModel);
    if to.Some? {
      var own, ps := OwnByName(to.value), Projection(bases, rel);
      OwnUnique(to.value);
      forall i, j | 0 <= i < j < |ps|
        ensures FieldName(ps[i]) != FieldName(ps[j])
      {
        assert FieldName(own[i]) != FieldName(own[j]);
        PrefixInjective(rel.semanticName + "_", own[i].semanticName, own[j].semanticName);
      }
    }
  }

  lemma OwnUnique(b: Imported)
    requires UniqueNames(b.fields, FieldName)
    ensures UniqueNames(OwnByName(b), FieldName)
  {
    DiffProofs.UniqueAfterPermutation(b.fields, OwnByName(b), FieldName);
  }

  lemma PrefixInjective(prefix: string, a: string, b: string)
    ensures prefix + a == prefix + b ==> a == b
  {
    assert (prefix + a)[|prefix|..] == a && (prefix + b)[|prefix|..] == b;
  }

  // ----- all fields of a model -----

  /** Seen through one of the first relationships of a dataset. */
  ghost predicate SeenBefore(os: seq<Owned>, rs: seq<OsiRelationship>, k: nat, name: string, p: Field) {
    exists j: nat :: j < k && j < |rs| && rs[j].from == name && SeenThrough(os, rs[j], p)
  }

  ghost predicate Made(os: seq<Owned>, catalog: Catalog.Snapshot, r: OsiRelationship) {
    exists rel :: RelationshipFrom(os, catalog, r, rel)
  }

  ghost predicate AllMade(os: seq<Owned>, catalog: Catalog.Snapshot, rs: seq<OsiRelationship>) {
    forall i: nat :: i < |rs| ==> Made(os, catalog, rs[i])
  }

  lemma MadeOk(catalog: Catalog.Snapshot, bases: seq<Imported>, r: OsiRelationship)
    requires BasesHold(catalog, bases)
    ensures MakeRelationship(bases, r).Ok? <==> Made(AllOwned(bases), catalog, r)
    ensures MakeRelationship(bases, r).Ok? ==> RelationshipFrom(AllOwned(bases), catalog, r, MakeRelationship(bases, r).value)
    ensures MakeRelationship(bases, r).Err? ==> MakeRelationship(bases, r).error == RelationshipError(r)
  {
    hide MakeRelationship, RelationshipFrom, RelationshipError, BasesHold;
    var made := MakeRelationship(bases, r);
    if made.Ok? {
      RelationshipExactly(catalog, bases, r, made.value);
    } else {
      forall rel
        ensures !RelationshipFrom(AllOwned(bases), catalog, r, rel) && made.error == RelationshipError(r)
      {
        RelationshipExactly(catalog, bases, r, rel);
      }
      RelationshipExactly(catalog, bases, r, Relationship("", "", Relation("", ""), ManyToOne, Left, "", ""));
    }
  }

  lemma MadeNames(os: seq<Owned>, catalog: Catalog.Snapshot, r: OsiRelationship, rel: Relationship)
    requires RelationshipFrom(os, catalog, r, rel)
    ensures rel.semanticName == r.name && rel.targetModel == r.to && OwnedNamed(os, r.from).Some? && OwnedNamed(os, r.to).Some?
  {
  }

  lemma SeenStep(os: seq<Owned>, rs: seq<OsiRelationship>, name: string, p: Field)
    requires rs != []
    ensures var n := |rs| - 1;
      SeenBefore(os, rs, |rs|, name, p) <==> SeenBefore(os, rs[..n], n, name, p) || (rs[n].from == name && SeenThrough(os, rs[n], p))
  {
    hide SeenThrough;
    var n := |rs| - 1;
    assert forall j :: 0 <= j < n ==> rs[..n][j] == rs[j];
  }

  /** A model's fields are its own and those seen through its relationships. */
  lemma {:induction false} FieldsMember(catalog: Catalog.Snapshot, bases: seq<Imported>, rs: seq<OsiRelationship>, b: Imported, p: Field)
    requires BasesHold(catalog, bases) && AllMade(AllOwned(bases), catalog, rs)
    ensures p in FieldsOf(bases, rs, b) <==> p in b.fields || SeenBefore(AllOwned(bases), rs, |rs|, b.name, p)
  {
    hide BasesHold, RelationshipFrom, MakeRelationship, SeenThrough, Projection;
    if rs == [] {
      assert FieldsOf(bases, rs, b) == b.fields;
    } else {
      var n := |rs| - 1;
      hide Made;
      assert forall j :: 0 <= j < n ==> rs[..n][j] == rs[j];
      FieldsMember(catalog, bases, rs[..n], b, p);
      OsiRoundTrip.FieldsStep(bases, rs, b);
      SeenStep(AllOwned(bases), rs, b.name, p);
      MadeOk(catalog, bases, rs[n]);
      var rel := MakeRelationship(bases, rs[n]).value;
      MadeNames(AllOwned(bases), catalog, rs[n], rel);
      ProjectionExactly(catalog, bases, rs[n], rel, p);
    }
  }

  // ----- which relationships are accepted -----

  /** A field of the dataset, or one seen through an earlier relationship, has the name. */
  ghost predicate Taken(os: seq<Owned>, rs: seq<OsiRelationship>, k: nat, name: string, field: string) {
    || (OwnedNamed(os, name).Some? && exists f :: f in OwnedNamed(os, name).value.fields && f.semanticName == field)
    || (exists j: nat, f :: j < k && j < |rs| && rs[j].from == name && TargetShows(os, rs[j], f) && JoinedName(rs[j], f) == field)
  }

  /** It would show a field under a name in use. */
  ghost predicate Clashes(os: seq<Owned>, rs: seq<OsiRelationship>, k: nat)
    requires k < |rs|
  {
    exists f :: TargetShows(os, rs[k], f) && Taken(os, rs, k, rs[k].from, JoinedName(rs[k], f))
  }

  ghost predicate Joinable(os: seq<Owned>, catalog: Catalog.Snapshot, rs: seq<OsiRelationship>, k: nat)
    requires k < |rs|
  {
    Made(os, catalog, rs[k]) && !Clashes(os, rs, k)
  }

  ghost predicate AllJoinable(os: seq<Owned>, catalog: Catalog.Snapshot, rs: seq<OsiRelationship>) {
    forall k: nat :: k < |rs| ==> Joinable(os, catalog, rs, k)
  }

  /** The first relationship that is not accepted. */
  ghost predicate JoinStops(os: seq<Owned>, catalog: Catalog.Snapshot, rs: seq<OsiRelationship>, k: nat, e: OsiError) {
    && k < |rs| && (forall j: nat :: j < k ==> Joinable(os, catalog, rs, j)) && !Joinable(os, catalog, rs, k)
    && e == if Made(os, catalog, rs[k]) then InvalidRelationship else RelationshipError(rs[k])
  }

  lemma TakenPrefix(os: seq<Owned>, rs: seq<OsiRelationship>, n: nat, k: nat, name: string, field: string)
    requires k <= n <= |rs|
    ensures Taken(os, rs[..n], k, name, field) <==> Taken(os, rs, k, name, field)
  {
    hide TargetShows, JoinedName, OwnedNamed;
    if j: nat, f :| j < k && rs[j].from == name && TargetShows(os, rs[j], f) && JoinedName(rs[j], f) == field {
      assert rs[..n][j] == rs[j];
    }
  }

  lemma JoinablePrefix(os: seq<Owned>, catalog: Catalog.Snapshot, rs: seq<OsiRelationship>, n: nat, k: nat)
    requires k < n <= |rs|
    ensures rs[..n][k] == rs[k] && (Joinable(os, catalog, rs[..n], k) <==> Joinable(os, catalog, rs, k))
  {
    hide TargetShows, JoinedName, Taken, Made;
    forall f
      ensures Taken(os, rs[..n], k, rs[k].from, JoinedName(rs[k], f)) <==> Taken(os, rs, k, rs[k].from, JoinedName(rs[k], f))
    {
      TakenPrefix(os, rs, n, k, rs[k].from, JoinedName(rs[k], f));
    }
  }

  /** Names in use are the names of the fields so far. */
  lemma TakenExactly(catalog: Catalog.Snapshot, bases: seq<Imported>, rs: seq<OsiRelationship>, b: Imported, field: string)
    requires BasesHold(catalog, bases) && AllMade(AllOwned(bases), catalog, rs) && Lookup(bases, ImportedName, b.name) == Some(b)
    ensures Taken(AllOwned(bases), rs, |rs|, b.name, field) <==> exists p :: p in FieldsOf(bases, rs, b) && p.semanticName == field
  {
    hide BasesHold, AllMade, FieldsOf, TargetShows, Made;
    var os := AllOwned(bases);
    BaseNamed(catalog, bases, b.name);
    if f :| f in b.fields && f.semanticName == field {
      FieldsMember(catalog, bases, rs, b, f);
    }
    if j: nat, f :| j < |rs| && rs[j].from == b.name && TargetShows(os, rs[j], f) && JoinedName(rs[j], f) == field {
      var p := Projected(rs[j].name, f);
      ProjectedSeen(rs[j], f, p);
      assert SeenThrough(os, rs[j], p);
      FieldsMember(catalog, bases, rs, b, p);
    }
    if p :| p in FieldsOf(bases, rs, b) && p.semanticName == field {
      FieldsMember(catalog, bases, rs, b, p);
      if p !in b.fields {
        var j: nat :| j < |rs| && rs[j].from == b.name && SeenThrough(os, rs[j], p);
        var f :| TargetShows(os, rs[j], f) && SeenAs(rs[j], f, p);
      }
    }
  }

  lemma UniqueTogether(xs: seq<Field>, ys: seq<Field>)
    requires UniqueNames(xs, FieldName) && UniqueNames(ys, FieldName)
    ensures UniqueNames(xs + ys, FieldName) <==> forall x, y :: x in xs && y in ys ==> x.semanticName != y.semanticName
  {
    var all := xs + ys;
    if UniqueNames(all, FieldName) {
      forall x, y | x in xs && y in ys
        ensures x.semanticName != y.semanticName
      {
        var i :| 0 <= i < |xs| && xs[i] == x;
        var j :| 0 <= j < |ys| && ys[j] == y;
        assert FieldName(all[i]) != FieldName(all[|xs| + j]);
      }
    }
  }

  /** Pushing the fields of a relationship fails exactly on a clash. */
  lemma PushExactly(catalog: Catalog.Snapshot, bases: seq<Imported>, rs: seq<OsiRelationship>, k: nat, rel: Relationship, b: Imported)
    requires BasesHold(catalog, bases) && k < |rs| && AllMade(AllOwned(bases), catalog, rs[..k]) && Lookup(bases, ImportedName, rs[k].from) == Some(b)
    requires rel.semanticName == rs[k].name && rel.targetModel == rs[k].to && UniqueNames(FieldsOf(bases, rs[..k], b), FieldName)
    ensures PushFields(FieldsOf(bases, rs[..k], b), Projection(bases, rel)).Ok? <==> !Clashes(AllOwned(bases), rs, k)
  {
    hide BasesHold, AllMade, FieldsOf, Projection, UniqueNames, Taken, PushFields, SeenAs, TargetShows, Projected;
    var os, fields, more := AllOwned(bases), FieldsOf(bases, rs[..k], b), Projection(bases, rel);
    ProjectionNames(catalog, bases, rel);
    OsiRoundTrip.PushFieldsExact(fields, more);
    UniqueTogether(fields, more);
    if f :| TargetShows(os, rs[k], f) && Taken(os, rs, k, rs[k].from, JoinedName(rs[k], f)) {
      var p := Projected(rs[k].name, f);
      ProjectedSeen(rs[k], f, p);
      ProjectionExactly(catalog, bases, rs[k], rel, p);
      TakenPrefix(os, rs, k, k, b.name, JoinedName(rs[k], f));
      TakenExactly(catalog, bases, rs[..k], b, JoinedName(rs[k], f));
      SeenName(rs[k], f, p);
    }
    if x, p :| x in fields && p in more && x.semanticName == p.semanticName {
      ProjectionExactly(catalog, bases, rs[k], rel, p);
      var f :| TargetShows(os, rs[k], f) && SeenAs(rs[k], f, p);
      SeenName(rs[k], f, p);
      TakenExactly(catalog, bases, rs[..k], b, JoinedName(rs[k], f));
      TakenPrefix(os, rs, k, k, b.name, JoinedName(rs[k], f));
    }
  }

  lemma SeenName(r: OsiRelationship, f: Field, p: Field)
    requires SeenAs(r, f, p)
    ensures p.semanticName == JoinedName(r, f)
  {
  }

  lemma NameFree(bases: seq<Imported>, rs: seq<OsiRelationship>)
    requires rs != [] && UniqueNames(rs, OsiRelationshipName)
    ensures Lookup(RelationshipsOf(bases, rs[..|rs| - 1], rs[|rs| - 1].from), RelationshipName, rs[|rs| - 1].name).None?
  {
    hide MakeRelationship, RelationshipsOf;
    var n := |rs| - 1;
    forall rel | rel in RelationshipsOf(bases, rs[..n], rs[n].from)
      ensures RelationshipName(rel) != rs[n].name
    {
      var q := OsiRoundTrip.RelationshipSource(bases, rs[..n], rs[n].from, rel);
      OsiRoundTrip.ExportedAsWritten(bases, q);
      var k :| 0 <= k < n && rs[..n][k] == q;
      assert OsiRelationshipName(rs[k]) != OsiRelationshipName(rs[n]);
    }
  }

  lemma JoinablesMade(os: seq<Owned>, catalog: Catalog.Snapshot, rs: seq<OsiRelationship>)
    requires AllJoinable(os, catalog, rs)
    ensures AllMade(os, catalog, rs)
  {
    hide Made, Clashes;
    forall i: nat | i < |rs|
      ensures Made(os, catalog, rs[i])
    {
      assert Joinable(os, catalog, rs, i);
    }
  }

  lemma StopsEarlier(os: seq<Owned>, catalog: Catalog.Snapshot, rs: seq<OsiRelationship>, n: nat, e: OsiError)
    requires n <= |rs| && exists k: nat :: JoinStops(os, catalog, rs[..n], k, e)
    ensures exists k: nat :: JoinStops(os, catalog, rs, k, e)
    ensures !AllJoinable(os, catalog, rs)
  {
    hide Joinable, Made;
    var k: nat :| JoinStops(os, catalog, rs[..n], k, e);
    forall j: nat | j <= k
      ensures rs[..n][j] == rs[j] && (Joinable(os, catalog, rs[..n], j) <==> Joinable(os, catalog, rs, j))
    {
      JoinablePrefix(os, catalog, rs, n, j);
    }
    assert JoinStops(os, catalog, rs, k, e);
  }

  /** The last of some relationships, the others being accepted. */
  lemma LastRelationship(catalog: Catalog.Snapshot, bases: seq<Imported>, rs: seq<OsiRelationship>)
    requires BasesHold(catalog, bases) && UniqueNames(rs, OsiRelationshipName) && rs != []
    requires CheckRelationships(bases, rs[..|rs| - 1]).Ok? && AllJoinable(AllOwned(bases), catalog, rs[..|rs| - 1])
    ensures var n := |rs| - 1; var r := CheckRelationships(bases, rs);
      && (r.Ok? <==> Joinable(AllOwned(bases), catalog, rs, n))
      && (r.Err? ==> r.error == if Made(AllOwned(bases), catalog, rs[n]) then InvalidRelationship else RelationshipError(rs[n]))
  {
    hide BasesHold, AllJoinable, FieldsOf, Projection, UniqueNames, PushFields, MakeRelationship, RelationshipsOf, Made, Clashes, RelationshipFrom;
    var n, os := |rs| - 1, AllOwned(bases);
    MadeOk(catalog, bases, rs[n]);
    if Made(os, catalog, rs[n]) {
      var rel := MakeRelationship(bases, rs[n]).value;
      MadeNames(os, catalog, rs[n], rel);
      BaseNamed(catalog, bases, rs[n].from);
      var b := Lookup(bases, ImportedName, rs[n].from).value;
      NameFree(bases, rs);
      JoinablesMade(os, catalog, rs[..n]);
      BaseUnique(catalog, bases, b);
      OsiRoundTrip.ChecksHold(bases, rs[..n], b);
      PushExactly(catalog, bases, rs, n, rel, b);
      PushError(FieldsOf(bases, rs[..n], b), Projection(bases, rel));
    }
  }

  lemma BaseUnique(catalog: Catalog.Snapshot, bases: seq<Imported>, b: Imported)
    requires BasesHold(catalog, bases) && b in bases
    ensures UniqueNames(bases, ImportedName) && UniqueNames(b.fields, FieldName)
  {
  }

  lemma {:induction false} PushError(fields: seq<Field>, more: seq<Field>)
    ensures PushFields(fields, more).Err? ==> PushFields(fields, more).error == InvalidRelationship
    decreases more
  {
    if more != [] {
      PushError(fields + [more[0]], more[1..]);
    }
  }

  /** Relationships are accepted exactly if each is vouched for and shows fields under free names. */
  lemma {:induction false} RelationshipsExactly(catalog: Catalog.Snapshot, bases: seq<Imported>, rs: seq<OsiRelationship>)
    requires BasesHold(catalog, bases) && UniqueNames(rs, OsiRelationshipName)
    ensures CheckRelationships(bases, rs).Ok? <==> AllJoinable(AllOwned(bases), catalog, rs)
    ensures CheckRelationships(bases, rs).Err? ==> exists k: nat :: JoinStops(AllOwned(bases), catalog, rs, k, CheckRelationships(bases, rs).error)
  {
    hide BasesHold, FieldsOf, Projection, PushFields, MakeRelationship, RelationshipsOf, Made, Joinable;
    if rs != [] {
      var n, os := |rs| - 1, AllOwned(bases);
      RelationshipsExactly(catalog, bases, rs[..n]);
      var before, r := CheckRelationships(bases, rs[..n]), CheckRelationships(bases, rs);
      if before.Err? {
        StopsEarlier(os, catalog, rs, n, before.error);
      } else {
        LastRelationship(catalog, bases, rs);
        forall j: nat | j < n
          ensures Joinable(os, catalog, rs, j)
        {
          JoinablePrefix(os, catalog, rs, n, j);
        }
        if r.Err? {
          assert JoinStops(os, catalog, rs, n, r.error);
        }
      }
    }
  }

  // ----- metrics -----

  /** Keys are counted, numbers added and averaged, and all but truth values compared. */
  ghost predicate Measures(a: Aggregation, f: Field) {
    match a
    case Count => f.entityKey
    case CountDistinct => f.entityKey
    case Sum => f.dataType == IntegerType || f.dataType == NumericType
    case Avg => f.dataType == IntegerType || f.dataType == NumericType
    case Min => f.dataType != BooleanType
    case Max => f.dataType != BooleanType
  }

  /** Counts are integers, averages and sums numeric, extremes of the field's own type. */
  ghost function MeasuredType(a: Aggregation, f: Field): DataType {
    if a == Count || a == CountDistinct then IntegerType
    else if a == Avg || a == Sum then NumericType
    else f.dataType
  }

  ghost predicate DatasetShows(os: seq<Owned>, dataset: string, f: Field) {
    OwnedNamed(os, dataset).Some? && f in OwnedNamed(os, dataset).value.fields
  }

  ghost predicate ExpressionSpells(e: OsiExpression, a: Aggregation, dataset: string, field: string) {
    exists text :: Ansi(e, text) && Spells(text, a, dataset, field)
  }

  /** What a metric of the document becomes, and for which dataset. */
  ghost predicate MetricFrom(os: seq<Owned>, m: OsiMetric, dataset: string, metric: Metric) {
    && Portable(m.name) && !m.extended && ExpressionSpells(m.expression, metric.aggregation, dataset, metric.field)
    && metric.semanticName == m.name && metric.filter.None? && metric.additivity.None? && metric.aggregationAnchor.None? && metric.visible
    && exists f :: DatasetShows(os, dataset, f) && f.semanticName == metric.field && Measures(metric.aggregation, f) && metric.dataType == MeasuredType(metric.aggregation, f)
  }

  /** A count of a field that is no key. */
  ghost predicate CountsOther(os: seq<Owned>, e: OsiExpression) {
    exists a, dataset, f: Field :: (a == Count || a == CountDistinct) && ExpressionSpells(e, a, dataset, f.semanticName) && DatasetShows(os, dataset, f) && !f.entityKey
  }

  ghost function MetricError(os: seq<Owned>, m: OsiMetric): OsiError {
    if !Portable(m.name) then InvalidIdentifier(m.name)
    else if m.extended then UnsupportedExtension
    else if forall text :: !Ansi(m.expression, text) then UnsupportedExpression
    else if CountsOther(os, m.expression) then CountRequiresEntityKey
    else UnsupportedMetricExpression
  }

  lemma SpelledParse(e: OsiExpression, a: Aggregation, dataset: string, field: string)
    ensures ExpressionSpells(e, a, dataset, field) <==> AnsiText(e).Some? && ParseMetric(AnsiText(e).value) == Some(ParsedMetric(a, dataset, field))
  {
    hide ParseMetric, Spells;
    if AnsiText(e).Some? {
      assert Ansi(e, AnsiText(e).value);
      MetricTextExactly(AnsiText(e).value, a, dataset, field);
    }
  }

  lemma FieldShown(catalog: Catalog.Snapshot, bases: seq<Imported>, dataset: string, f: Field)
    requires BasesHold(catalog, bases)
    ensures DatasetShows(AllOwned(bases), dataset, f) <==> Lookup(bases, ImportedName, dataset).Some? && Lookup(OwnByName(Lookup(bases, ImportedName, dataset).value), FieldName, f.semanticName) == Some(f)
  {
    hide OwnByName;
    BaseNamed(catalog, bases, dataset);
    var b := Lookup(bases, ImportedName, dataset);
    if b.Some? {
      OwnMember(b.value, f);
      OwnUnique(b.value);
      if f in OwnByName(b.value) {
        LookupUnique(OwnByName(b.value), FieldName, f);
      }
    }
  }

  lemma MeasuresAgree(a: Aggregation, f: Field)
    ensures Measures(a, f) <==> ((a == Count || a == CountDistinct) ==> f.entityKey) && AggregateSupports(a, f.dataType)
    ensures Measures(a, f) ==> ExpectedType(a, f.dataType) == MeasuredType(a, f)
  {
  }

  lemma MetricMade(catalog: Catalog.Snapshot, bases: seq<Imported>, m: OsiMetric)
    requires BasesHold(catalog, bases)
    ensures var r := MakeMetric(bases, m);
      && (r.Ok? ==> MetricFrom(AllOwned(bases), m, r.value.dataset, r.value.metric))
      && (r.Err? ==> r.error == MetricError(AllOwned(bases), m))
  {
    hide BasesHold, ParseMetric, ExpressionSpells, DatasetShows, Portable, OwnByName, Measures, AggregateSupports, ExpectedType, MeasuredType;
    var os := AllOwned(bases);
    if AnsiText(m.expression).Some? {
      assert Ansi(m.expression, AnsiText(m.expression).value);
    }
    forall a, dataset, field
      ensures ExpressionSpells(m.expression, a, dataset, field) <==> AnsiText(m.expression).Some? && ParseMetric(AnsiText(m.expression).value) == Some(ParsedMetric(a, dataset, field))
    {
      SpelledParse(m.expression, a, dataset, field);
    }
    forall dataset, f: Field
      ensures DatasetShows(os, dataset, f) <==> Lookup(bases, ImportedName, dataset).Some? && Lookup(OwnByName(Lookup(bases, ImportedName, dataset).value), FieldName, f.semanticName) == Some(f)
    {
      FieldShown(catalog, bases, dataset, f);
    }
    forall a, f: Field
      ensures Measures(a, f) <==> ((a == Count || a == CountDistinct) ==> f.entityKey) && AggregateSupports(a, f.dataType)
      ensures Measures(a, f) ==> ExpectedType(a, f.dataType) == MeasuredType(a, f)
    {
      MeasuresAgree(a, f);
    }
  }

  lemma MetricIsMade(catalog: Catalog.Snapshot, bases: seq<Imported>, m: OsiMetric, dataset: string, metric: Metric)
    requires BasesHold(catalog, bases) && MetricFrom(AllOwned(bases), m, dataset, metric)
    ensures MakeMetric(bases, m) == Ok(OwnedMetric(dataset, metric))
  {
    hide BasesHold, ParseMetric, ExpressionSpells, DatasetShows, Portable, OwnByName, Measures, AggregateSupports, ExpectedType, MeasuredType;
    var f :| DatasetShows(AllOwned(bases), dataset, f) && f.semanticName == metric.field && Measures(metric.aggregation, f) && metric.dataType == MeasuredType(metric.aggregation, f);
    SpelledParse(m.expression, metric.aggregation, dataset, metric.field);
    FieldShown(catalog, bases, dataset, f);
    MeasuresAgree(metric.aggregation, f);
  }

  ghost predicate Measured(os: seq<Owned>, m: OsiMetric) {
    exists dataset, metric :: MetricFrom(os, m, dataset, metric)
  }

  lemma MetricExactly(catalog: Catalog.Snapshot, bases: seq<Imported>, m: OsiMetric)
    requires BasesHold(catalog, bases)
    ensures MakeMetric(bases, m).Ok? <==> Measured(AllOwned(bases), m)
    ensures MakeMetric(bases, m).Err? ==> MakeMetric(bases, m).error == MetricError(AllOwned(bases), m)
  {
    hide BasesHold, MetricFrom, MakeMetric, MetricError;
    MetricMade(catalog, bases, m);
    if dataset, metric :| MetricFrom(AllOwned(bases), m, dataset, metric) {
      MetricIsMade(catalog, bases, m, dataset, metric);
    }
  }

  ghost predicate AllMeasured(os: seq<Owned>, ms: seq<OsiMetric>) {
    forall k: nat :: k < |ms| ==> Measured(os, ms[k])
  }

  ghost predicate MetricStops(os: seq<Owned>, ms: seq<OsiMetric>, k: nat, e: OsiError) {
    k < |ms| && (forall j: nat :: j < k ==> Measured(os, ms[j])) && !Measured(os, ms[k]) && e == MetricError(os, ms[k])
  }

  lemma MetricNameFree(bases: seq<Imported>, ms: seq<OsiMetric>, name: string)
    requires ms != [] && UniqueNames(ms, OsiMetricName)
    ensures Lookup(MetricsOf(bases, ms[..|ms| - 1], name), MetricName, ms[|ms| - 1].name).None?
  {
    hide MakeMetric, MetricsOf, ExportMetric;
    var n := |ms| - 1;
    forall metric | metric in MetricsOf(bases, ms[..n], name)
      ensures MetricName(metric) != ms[n].name
    {
      var q := OsiRoundTrip.MetricSource(bases, ms[..n], name, metric);
      OsiRoundTrip.MetricAgain(bases, q);
      var k :| 0 <= k < n && ms[..n][k] == q;
      assert OsiMetricName(ms[k]) != OsiMetricName(ms[n]);
    }
  }

  /** Metrics are accepted exactly if each is spelled out over a field it can measure. */
  lemma {:induction false} MetricsExactly(catalog: Catalog.Snapshot, bases: seq<Imported>, ms: seq<OsiMetric>)
    requires BasesHold(catalog, bases) && UniqueNames(ms, OsiMetricName)
    ensures CheckMetrics(bases, ms).Ok? <==> AllMeasured(AllOwned(bases), ms)
    ensures CheckMetrics(bases, ms).Err? ==> exists k: nat :: MetricStops(AllOwned(bases), ms, k, CheckMetrics(bases, ms).error)
  {
    hide BasesHold, MakeMetric, MetricsOf, Measured, MetricError;
    if ms != [] {
      var n, os := |ms| - 1, AllOwned(bases);
      MetricsExactly(catalog, bases, ms[..n]);
      var before, r := CheckMetrics(bases, ms[..n]), CheckMetrics(bases, ms);
      assert forall j :: 0 <= j < n ==> ms[..n][j] == ms[j];
      if before.Err? {
        var k: nat :| MetricStops(os, ms[..n], k, before.error);
        assert ms[..n][k] == ms[k];
        assert MetricStops(os, ms, k, r.error);
      } else {
        MetricExactly(catalog, bases, ms[n]);
        if MakeMetric(bases, ms[n]).Ok? {
          MetricNameFree(bases, ms, MakeMetric(bases, ms[n]).value.dataset);
        } else {
          assert forall j: nat :: j < n ==> Measured(os, ms[..n][j]);
          assert MetricStops(os, ms, n, r.error);
        }
      }
    }
  }

  // ----- finished models -----

  ghost predicate RelationshipOf(os: seq<Owned>, catalog: Catalog.Snapshot, rs: seq<OsiRelationship>, name: string, rel: Relationship) {
    exists i: nat :: i < |rs| && rs[i].from == name && RelationshipFrom(os, catalog, rs[i], rel)
  }

  ghost predicate MetricOf(os: seq<Owned>, ms: seq<OsiMetric>, name: string, metric: Metric) {
    exists i: nat :: i < |ms| && MetricFrom(os, ms[i], name, metric)
  }

  lemma {:induction false} RelationshipMember(catalog: Catalog.Snapshot, bases: seq<Imported>, rs: seq<OsiRelationship>, name: string, rel: Relationship)
    requires BasesHold(catalog, bases)
    ensures rel in RelationshipsOf(bases, rs, name) <==> RelationshipOf(AllOwned(bases), catalog, rs, name, rel)
  {
    hide BasesHold, MakeRelationship, RelationshipFrom;
    if rs != [] {
      hide RelationshipOf;
      RelationshipMember(catalog, bases, rs[..|rs| - 1], name, rel);
      RelationshipExactly(catalog, bases, rs[|rs| - 1], rel);
      RelationshipNext(AllOwned(bases), catalog, rs, name, rel);
    }
  }

  lemma RelationshipNext(os: seq<Owned>, catalog: Catalog.Snapshot, rs: seq<OsiRelationship>, name: string, rel: Relationship)
    requires rs != []
    ensures var n := |rs| - 1;
      RelationshipOf(os, catalog, rs, name, rel) <==> RelationshipOf(os, catalog, rs[..n], name, rel) || (rs[n].from == name && RelationshipFrom(os, catalog, rs[n], rel))
  {
    hide RelationshipFrom;
    assert forall j :: 0 <= j < |rs| - 1 ==> rs[..|rs| - 1][j] == rs[j];
  }

  lemma MetricNext(os: seq<Owned>, ms: seq<OsiMetric>, name: string, metric: Metric)
    requires ms != []
    ensures var n := |ms| - 1;
      MetricOf(os, ms, name, metric) <==> MetricOf(os, ms[..n], name, metric) || MetricFrom(os, ms[n], name, metric)
  {
    hide MetricFrom;
    assert forall j :: 0 <= j < |ms| - 1 ==> ms[..|ms| - 1][j] == ms[j];
  }

  lemma {:induction false} MetricMember(catalog: Catalog.Snapshot, bases: seq<Imported>, ms: seq<OsiMetric>, name: string, metric: Metric)
    requires BasesHold(catalog, bases)
    ensures metric in MetricsOf(bases, ms, name) <==> MetricOf(AllOwned(bases), ms, name, metric)
  {
    hide BasesHold, MakeMetric, MetricFrom;
    if ms != [] {
      hide MetricOf;
      var n, os := |ms| - 1, AllOwned(bases);
      MetricMember(catalog, bases, ms[..n], name, metric);
      MetricMade(catalog, bases, ms[n]);
      if MetricFrom(os, ms[n], name, metric) {
        MetricIsMade(catalog, bases, ms[n], name, metric);
      }
      MetricNext(os, ms, name, metric);
    }
  }

  /** The model of a dataset: each collection in name order, with exactly what the document gives it. */
  ghost predicate ModelFrom(os: seq<Owned>, catalog: Catalog.Snapshot, m: OsiModel, o: Owned, x: Model) {
    && x.semanticName == o.name && x.source == o.source && x.timezone.None? && x.queryable && x.writable.None?
    && Sorted(x.fields, FieldKey) && UniqueNames(x.fields, FieldName)
    && Sorted(x.relationships, RelationshipKey) && UniqueNames(x.relationships, RelationshipName)
    && Sorted(x.metrics, MetricKey) && UniqueNames(x.metrics, MetricName)
    && (forall f :: f in x.fields <==> f in o.fields || SeenBefore(os, m.relationships, |m.relationships|, o.name, f))
    && (forall rel :: rel in x.relationships <==> RelationshipOf(os, catalog, m.relationships, o.name, rel))
    && (forall metric :: metric in x.metrics <==> MetricOf(os, m.metrics, o.name, metric))
  }

  lemma SortedCollection<T>(xs: seq<T>, key: T -> seq<string>, nameOf: T -> string, x: T)
    requires UniqueNames(xs, nameOf)
    ensures Sorted(Sort(xs, key), key) && UniqueNames(Sort(xs, key), nameOf) && (x in Sort(xs, key) <==> x in xs)
  {
    SortSorts(xs, key);
    DiffProofs.UniqueAfterPermutation(xs, Sort(xs, key), nameOf);
    SameElements(xs, Sort(xs, key), x);
  }

  lemma FieldsSettled(catalog: Catalog.Snapshot, bases: seq<Imported>, m: OsiModel, b: Imported)
    requires BasesHold(catalog, bases) && b in bases && CheckRelationships(bases, m.relationships).Ok? && UniqueNames(m.relationships, OsiRelationshipName)
    ensures var fields := Sort(FieldsOf(bases, m.relationships, b), FieldKey);
      && Sorted(fields, FieldKey) && UniqueNames(fields, FieldName)
      && forall f :: f in fields <==> f in b.fields || SeenBefore(AllOwned(bases), m.relationships, |m.relationships|, b.name, f)
  {
    hide BasesHold, CheckRelationships, FieldsOf, Sort, Sorted, UniqueNames, SeenBefore;
    var rs := m.relationships;
    RelationshipsExactly(catalog, bases, rs);
    JoinablesMade(AllOwned(bases), catalog, rs);
    BaseUnique(catalog, bases, b);
    OsiRoundTrip.ChecksHold(bases, rs, b);
    SortedCollection(FieldsOf(bases, rs, b), FieldKey, FieldName, Field("", TextType, "", None, false, false, false, false));
    forall f
      ensures f in Sort(FieldsOf(bases, rs, b), FieldKey) <==> f in b.fields || SeenBefore(AllOwned(bases), rs, |rs|, b.name, f)
    {
      FieldsMember(catalog, bases, rs, b, f);
      SortedCollection(FieldsOf(bases, rs, b), FieldKey, FieldName, f);
    }
  }

  lemma RelationshipsSettled(catalog: Catalog.Snapshot, bases: seq<Imported>, rs: seq<OsiRelationship>, name: string)
    requires BasesHold(catalog, bases) && UniqueNames(rs, OsiRelationshipName)
    ensures var rels := Sort(RelationshipsOf(bases, rs, name), RelationshipKey);
      && Sorted(rels, RelationshipKey) && UniqueNames(rels, RelationshipName)
      && forall rel :: rel in rels <==> RelationshipOf(AllOwned(bases), catalog, rs, name, rel)
  {
    hide BasesHold, RelationshipsOf, Sort, Sorted, UniqueNames, RelationshipOf;
    OsiRoundTrip.RelationshipNamesUnique(bases, rs, name);
    SortedCollection(RelationshipsOf(bases, rs, name), RelationshipKey, RelationshipName, Relationship("", "", Relation("", ""), ManyToOne, Left, "", ""));
    forall rel
      ensures rel in Sort(RelationshipsOf(bases, rs, name), RelationshipKey) <==> RelationshipOf(AllOwned(bases), catalog, rs, name, rel)
    {
      RelationshipMember(catalog, bases, rs, name, rel);
      SortedCollection(RelationshipsOf(bases, rs, name), RelationshipKey, RelationshipName, rel);
    }
  }

  lemma MetricsSettled(catalog: Catalog.Snapshot, bases: seq<Imported>, ms: seq<OsiMetric>, name: string)
    requires BasesHold(catalog, bases) && UniqueNames(ms, OsiMetricName)
    ensures var metrics := Sort(MetricsOf(bases, ms, name), MetricKey);
      && Sorted(metrics, MetricKey) && UniqueNames(metrics, MetricName)
      && forall metric :: metric in metrics <==> MetricOf(AllOwned(bases), ms, name, metric)
  {
    hide BasesHold, MetricsOf, Sort, Sorted, UniqueNames, MetricOf;
    OsiRoundTrip.MetricNamesUnique(bases, ms, name);
    SortedCollection(MetricsOf(bases, ms, name), MetricKey, MetricName, Metric("", TextType, Count, "", None, None, None, false));
    forall metric
      ensures metric in Sort(MetricsOf(bases, ms, name), MetricKey) <==> MetricOf(AllOwned(bases), ms, name, metric)
    {
      MetricMember(catalog, bases, ms, name, metric);
      SortedCollection(MetricsOf(bases, ms, name), MetricKey, MetricName, metric);
    }
  }

  lemma ModelSettled(catalog: Catalog.Snapshot, bases: seq<Imported>, m: OsiModel, b: Imported)
    requires BasesHold(catalog, bases) && b in bases && CheckRelationships(bases, m.relationships).Ok?
    requires UniqueNames(m.relationships, OsiRelationshipName) && UniqueNames(m.metrics, OsiMetricName)
    ensures ModelFrom(AllOwned(bases), catalog, m, OwnedOf(b), NormalizedModel(FinalModel(bases, m.relationships, m.metrics, b)))
  {
    hide BasesHold, CheckRelationships, FieldsOf, RelationshipsOf, MetricsOf, Sort, Sorted, UniqueNames, MetricOf, RelationshipOf, SeenBefore;
    FieldsSettled(catalog, bases, m, b);
    RelationshipsSettled(catalog, bases, m.relationships, b.name);
    MetricsSettled(catalog, bases, m.metrics, b.name);
  }

  // ----- one semantic model -----

  /** The first name that was used before. */
  ghost predicate RepeatsAt<T>(xs: seq<T>, nameOf: T -> string, i: nat) {
    i < |xs| && UniqueNames(xs[..i], nameOf) && exists j :: 0 <= j < i && nameOf(xs[j]) == nameOf(xs[i])
  }

  ghost predicate RepeatError<T>(xs: seq<T>, nameOf: T -> string, kind: string, e: OsiError) {
    exists i: nat :: RepeatsAt(xs, nameOf, i) && e == DuplicateName(kind, nameOf(xs[i]))
  }

  /** All datasets, relationships and metrics are accepted. */
  ghost predicate ModelAccepted(m: OsiModel, catalog: Catalog.Snapshot, types: Types, os: seq<Owned>) {
    && DatasetsFrom(m.datasets, catalog, types, os)
    && UniqueNames(m.relationships, OsiRelationshipName) && UniqueNames(m.metrics, OsiMetricName)
    && AllJoinable(os, catalog, m.relationships) && AllMeasured(os, m.metrics)
  }

  ghost predicate PartRefused(m: OsiModel, catalog: Catalog.Snapshot, os: seq<Owned>, e: OsiError) {
    if !AllJoinable(os, catalog, m.relationships) then exists k: nat :: JoinStops(os, catalog, m.relationships, k, e)
    else exists k: nat :: MetricStops(os, m.metrics, k, e)
  }

  /** The first thing that is not accepted. */
  ghost predicate ModelRefused(m: OsiModel, catalog: Catalog.Snapshot, types: Types, e: OsiError) {
    if forall os :: !DatasetsFrom(m.datasets, catalog, types, os) then DatasetsRefused(m.datasets, catalog, types, e)
    else if !UniqueNames(m.relationships, OsiRelationshipName) then RepeatError(m.relationships, OsiRelationshipName, "relationship", e)
    else if !UniqueNames(m.metrics, OsiMetricName) then RepeatError(m.metrics, OsiMetricName, "metric", e)
    else exists os :: DatasetsFrom(m.datasets, catalog, types, os) && PartRefused(m, catalog, os, e)
  }

  lemma RepeatFound<T>(xs: seq<T>, nameOf: T -> string, kind: string)
    requires !UniqueNames(xs, nameOf)
    ensures RepeatError(xs, nameOf, kind, DuplicateName(kind, nameOf(xs[FirstRepeat(xs, nameOf)])))
  {
    hide UniqueNames, FirstRepeat;
    assert RepeatsAt(xs, nameOf, FirstRepeat(xs, nameOf));
  }

  lemma NamesRepeat(m: OsiModel)
    ensures !UniqueNames(m.relationships, OsiRelationshipName) ==>
      RepeatError(m.relationships, OsiRelationshipName, "relationship", DuplicateName("relationship", m.relationships[FirstRepeat(m.relationships, OsiRelationshipName)].name))
    ensures !UniqueNames(m.metrics, OsiMetricName) ==>
      RepeatError(m.metrics, OsiMetricName, "metric", DuplicateName("metric", m.metrics[FirstRepeat(m.metrics, OsiMetricName)].name))
  {
    hide UniqueNames, FirstRepeat, RepeatError;
    if !UniqueNames(m.relationships, OsiRelationshipName) {
      RepeatFound(m.relationships, OsiRelationshipName, "relationship");
    }
    if !UniqueNames(m.metrics, OsiMetricName) {
      RepeatFound(m.metrics, OsiMetricName, "metric");
    }
  }

  /** A semantic model is imported exactly if all its parts are accepted, and otherwise the first failing one is reported. */
  lemma ModelExactly(m: OsiModel, catalog: Catalog.Snapshot, types: Types)
    ensures var r := ImportModel(m, catalog, types);
      && (r.Ok? <==> exists os :: ModelAccepted(m, catalog, types, os))
      && (r.Err? ==> ModelRefused(m, catalog, types, r.error))
  {
    hide ImportDatasets, CheckRelationships, CheckMetrics, FinalModels, FirstRepeat, UniqueNames, DatasetsFrom, DatasetsRefused, AllJoinable, AllMeasured, JoinStops, MetricStops, RepeatError, BasesHold;
    DatasetsExactly(m.datasets, catalog, types);
    NamesRepeat(m);
    var bases := ImportDatasets(m.datasets, catalog, types);
    forall os | DatasetsFrom(m.datasets, catalog, types, os)
      ensures bases.Ok? && os == AllOwned(bases.value)
    {
      DatasetsAreImported(m.datasets, catalog, types, os);
    }
    if bases.Ok? {
      ImportedHolds(m.datasets, catalog, types, bases.value);
      if UniqueNames(m.relationships, OsiRelationshipName) && UniqueNames(m.metrics, OsiMetricName) {
        RelationshipsExactly(catalog, bases.value, m.relationships);
        MetricsExactly(catalog, bases.value, m.metrics);
        if AllJoinable(AllOwned(bases.value), catalog, m.relationships) && AllMeasured(AllOwned(bases.value), m.metrics) {
          assert ModelAccepted(m, catalog, types, AllOwned(bases.value));
        }
      }
    }
  }

  // ----- the snapshot -----

  ghost predicate HasModel(os: seq<Owned>, catalog: Catalog.Snapshot, m: OsiModel, o: Owned, models: seq<Model>) {
    exists x :: x in models && ModelFrom(os, catalog, m, o, x)
  }

  /** One model for each dataset, in name order, under the hash of the whole. */
  ghost predicate SnapshotFrom(os: seq<Owned>, catalog: Catalog.Snapshot, m: OsiModel, hash: Snapshot -> string, s: Snapshot) {
    && s.schemaVersion == "1" && s.revisionHash == hash(s.(revisionHash := ""))
    && |s.models| == |os| && Sorted(s.models, ModelKey) && UniqueNames(s.models, ModelName)
    && forall o :: o in os ==> HasModel(os, catalog, m, o, s.models)
  }

  lemma NormalizedMember(models: seq<Model>, x: Model)
    requires x in models
    ensures NormalizedModel(x) in NormalizedModels(Sort(models, ModelKey))
  {
    hide Sort, NormalizedModel;
    var sorted := Sort(models, ModelKey);
    SameElements(models, sorted, x);
    var i :| 0 <= i < |sorted| && sorted[i] == x;
    assert NormalizedModels(sorted)[i] == NormalizedModel(x);
  }

  lemma ModelsSorted(models: seq<Model>)
    requires UniqueNames(models, ModelName)
    ensures var r := NormalizedModels(Sort(models, ModelKey)); |r| == |models| && Sorted(r, ModelKey) && UniqueNames(r, ModelName)
  {
    hide Sort, NormalizedModel;
    var sorted := Sort(models, ModelKey);
    SortSorts(models, ModelKey);
    DiffProofs.UniqueAfterPermutation(models, sorted, ModelName);
    assert |multiset(sorted)| == |multiset(models)|;
    var r := NormalizedModels(sorted);
    forall i, j | 0 <= i < j < |r|
      ensures KeyLeq(ModelKey(r[i]), ModelKey(r[j])) && ModelName(r[i]) != ModelName(r[j])
    {
      assert KeyLeq(ModelKey(sorted[i]), ModelKey(sorted[j])) && ModelName(sorted[i]) != ModelName(sorted[j]);
    }
  }

  lemma FinalUnique(bases: seq<Imported>, rs: seq<OsiRelationship>, ms: seq<OsiMetric>)
    requires UniqueNames(bases, ImportedName)
    ensures UniqueNames(FinalModels(bases, rs, ms), ModelName)
  {
    hide FieldsOf, MetricsOf, RelationshipsOf;
    var models := FinalModels(bases, rs, ms);
    forall i, j | 0 <= i < j < |models|
      ensures ModelName(models[i]) != ModelName(models[j])
    {
      assert ImportedName(bases[i]) != ImportedName(bases[j]);
    }
  }

  lemma BaseSettled(catalog: Catalog.Snapshot, bases: seq<Imported>, m: OsiModel, i: nat)
    requires BasesHold(catalog, bases) && i < |bases| && CheckRelationships(bases, m.relationships).Ok?
    requires UniqueNames(m.relationships, OsiRelationshipName) && UniqueNames(m.metrics, OsiMetricName)
    ensures HasModel(AllOwned(bases), catalog, m, OwnedOf(bases[i]), NormalizedModels(Sort(FinalModels(bases, m.relationships, m.metrics), ModelKey)))
  {
    hide BasesHold, CheckRelationships, ModelFrom, FinalModel, UniqueNames, Sort, NormalizedModel;
    ModelSettled(catalog, bases, m, bases[i]);
    var models := FinalModels(bases, m.relationships, m.metrics);
    assert models[i] in models;
    NormalizedMember(models, models[i]);
  }

  lemma SnapshotExactly(m: OsiModel, catalog: Catalog.Snapshot, types: Types, hash: Snapshot -> string, os: seq<Owned>)
    requires ModelAccepted(m, catalog, types, os)
    ensures ImportModel(m, catalog, types).Ok? && SnapshotFrom(os, catalog, m, hash, Hashed(ImportModel(m, catalog, types).value, hash))
  {
    hide ImportDatasets, CheckRelationships, CheckMetrics, FinalModels, FinalModel, Hashed, Sort, Sorted, NormalizedModels, HasModel, AllJoinable, AllMeasured, BasesHold, DatasetsFrom;
    DatasetsAreImported(m.datasets, catalog, types, os);
    var bases := ImportDatasets(m.datasets, catalog, types).value;
    ImportedHolds(m.datasets, catalog, types, bases);
    RelationshipsExactly(catalog, bases, m.relationships);
    MetricsExactly(catalog, bases, m.metrics);
    var models := FinalModels(bases, m.relationships, m.metrics);
    OsiRoundTrip.HashedFacts(models, hash);
    BaseNamesUnique(m.datasets, catalog, types);
    FinalUnique(bases, m.relationships, m.metrics);
    ModelsSorted(models);
    FinalCount(bases, m);
    forall o | o in os
      ensures HasModel(os, catalog, m, o, NormalizedModels(Sort(models, ModelKey)))
    {
      var i :| 0 <= i < |os| && os[i] == o;
      BaseSettled(catalog, bases, m, i);
    }
  }

  lemma FinalCount(bases: seq<Imported>, m: OsiModel)
    ensures |FinalModels(bases, m.relationships, m.metrics)| == |bases|
  {
  }

  // ----- the whole document -----

  ghost predicate Chosen(doc: OsiDocument, selected: Option<string>, m: OsiModel) {
    match selected
    case Some(name) => m in doc.models && m.name == name
    case None => doc.models == [m]
  }

  ghost predicate CatalogStands(c: Context) {
    c.catalog.schemaVersion == "2" && c.catalogHash(Catalog.Normalized(c.catalog).(fingerprint := "")) == c.catalog.fingerprint
  }

  /** The document can be imported: this semantic model is chosen, and its datasets bring these fields. */
  ghost predicate Importable(doc: OsiDocument, selected: Option<string>, c: Context, m: OsiModel, os: seq<Owned>) {
    && !doc.extended && UniqueNames(doc.models, OsiModelName) && Chosen(doc, selected, m)
    && Portable(m.name) && !m.extended && CatalogStands(c)
    && ModelAccepted(m, Catalog.Normalized(c.catalog), c.typeOf, os)
  }

  ghost predicate ChosenRefused(m: OsiModel, c: Context, e: OsiError) {
    if !Portable(m.name) then e == InvalidIdentifier(m.name)
    else if m.extended then e == UnsupportedExtension
    else if c.catalog.schemaVersion != "2" then e == InvalidCatalog(Catalog.UnsupportedSchemaVersion(c.catalog.schemaVersion))
    else if !CatalogStands(c) then e == InvalidCatalog(Catalog.InvalidFingerprint)
    else ModelRefused(m, Catalog.Normalized(c.catalog), c.typeOf, e)
  }

  ghost predicate ImportRefused(doc: OsiDocument, selected: Option<string>, c: Context, e: OsiError) {
    if doc.extended then e == UnsupportedExtension
    else if !UniqueNames(doc.models, OsiModelName) then RepeatError(doc.models, OsiModelName, "semantic model", e)
    else if forall m :: !Chosen(doc, selected, m) then e == if selected.Some? then SemanticModelNotFound else AmbiguousSemanticModel
    else exists m :: Chosen(doc, selected, m) && ChosenRefused(m, c, e)
  }

  lemma ChosenExactly(doc: OsiDocument, selected: Option<string>, m: OsiModel)
    requires UniqueNames(doc.models, OsiModelName)
    ensures SelectModel(doc.models, selected) == Ok(m) <==> Chosen(doc, selected, m)
    ensures SelectModel(doc.models, selected).Err? ==> SelectModel(doc.models, selected).error == if selected.Some? then SemanticModelNotFound else AmbiguousSemanticModel
  {
    if selected.Some? && m in doc.models {
      LookupUnique(doc.models, OsiModelName, m);
    }
  }

  lemma ChosenImports(doc: OsiDocument, selected: Option<string>, c: Context, m: OsiModel)
    requires !doc.extended && UniqueNames(doc.models, OsiModelName) && SelectModel(doc.models, selected) == Ok(m)
    ensures var r, catalog := Import(doc, selected, c), Catalog.Normalized(c.catalog);
      && (r.Ok? <==> Portable(m.name) && !m.extended && CatalogStands(c) && ImportModel(m, catalog, c.typeOf).Ok?)
      && (r.Ok? ==> r.value == Hashed(ImportModel(m, catalog, c.typeOf).value, c.hash))
      && (r.Err? ==> ChosenRefused(m, c, r.error))
  {
    hide ImportModel, ModelRefused, ModelAccepted, Hashed, SelectModel, UniqueNames, Portable, Catalog.Normalized;
    ModelExactly(m, Catalog.Normalized(c.catalog), c.typeOf);
  }

  /** A document is imported exactly if it is importable, and otherwise the first failing check is reported. */
  lemma ImportsExactly(doc: OsiDocument, selected: Option<string>, c: Context)
    ensures Import(doc, selected, c).Ok? <==> exists m, os :: Importable(doc, selected, c, m, os)
    ensures Import(doc, selected, c).Err? ==> ImportRefused(doc, selected, c, Import(doc, selected, c).error)
  {
    hide ImportModel, ModelAccepted, ChosenRefused, Hashed, SelectModel, UniqueNames, Portable, Catalog.Normalized, CatalogStands, RepeatError, FirstRepeat, Chosen;
    var r := Import(doc, selected, c);
    if !doc.extended && UniqueNames(doc.models, OsiModelName) {
      forall m
        ensures SelectModel(doc.models, selected) == Ok(m) <==> Chosen(doc, selected, m)
      {
        ChosenExactly(doc, selected, m);
      }
      ChosenExactly(doc, selected, OsiModel("", [], [], [], false));
      var chosen := SelectModel(doc.models, selected);
      if chosen.Ok? {
        ChosenImports(doc, selected, c, chosen.value);
        ModelExactly(chosen.value, Catalog.Normalized(c.catalog), c.typeOf);
        if os :| ModelAccepted(chosen.value, Catalog.Normalized(c.catalog), c.typeOf, os) {
          assert r.Ok? ==> Importable(doc, selected, c, chosen.value, os);
        }
      }
    } else if !doc.extended {
      RepeatFound(doc.models, OsiModelName, "semantic model");
    }
  }

  /** What is imported is the snapshot the document and the catalog describe. */
  lemma ImportHolds(doc: OsiDocument, selected: Option<string>, c: Context, m: OsiModel, os: seq<Owned>)
    requires Importable(doc, selected, c, m, os)
    ensures Import(doc, selected, c).Ok?
    ensures SnapshotFrom(os, Catalog.Normalized(c.catalog), m, c.hash, Import(doc, selected, c).value)
  {
    hide ImportModel, ModelAccepted, Hashed, SelectModel, UniqueNames, Portable, Catalog.Normalized, CatalogStands, Chosen, SnapshotFrom, Import;
    ChosenExactly(doc, selected, m);
    SnapshotExactly(m, Catalog.Normalized(c.catalog), c.typeOf, c.hash, os);
    ChosenImports(doc, selected, c, m);
  }
}
