/** What a catalog diff says, in the catalogs' own attributes: values, kinds, verdicts, counts and refusals. */
module CatalogExact {
  import opened Prelude
  import opened Order
  import opened Bags
  import opened Catalog
  import opened CatalogProofs

  // ----- what stands at a place -----

  /** The last element with a property, as collecting into a map keeps it. */
  ghost function Last<T>(xs: seq<T>, matches: T -> bool): Option<T> {
    if xs == [] then None
    else if matches(xs[|xs| - 1]) then Some(xs[|xs| - 1])
    else Last(xs[..|xs| - 1], matches)
  }

  lemma {:induction false} LastIsFind<T(!new)>(xs: seq<T>, matches: T -> bool, keyOf: T -> seq<string>, key: seq<string>)
    requires forall x :: matches(x) <==> keyOf(x) == key
    ensures Last(xs, matches) == Find(xs, keyOf, key)
  {
    if xs != [] {
      LastIsFind(xs[..|xs| - 1], matches, keyOf, key);
    }
  }

  ghost function FunctionIs(schema: string, name: string, arguments: string): Function -> bool {
    (f: Function) => f.schema == schema && f.name == name && f.identityArguments == arguments
  }

  ghost function RelationIs(schema: string, name: string): Relation -> bool {
    (r: Relation) => r.schema == schema && r.name == name
  }

  ghost function ColumnIs(name: string): Column -> bool {
    (c: Column) => c.name == name
  }

  /** Constraints are told apart by kind and name. */
  ghost function ConstraintIs(tag: string): Constraint -> bool {
    (c: Constraint) => tag == (if c.kind == PrimaryKey then "primary_key" else if c.kind == Unique then "unique" else if c.kind == ForeignKey then "foreign_key" else "check")
                  + (":" + c.name)
  }

  ghost function PolicyIs(name: string): Policy -> bool {
    (p: Policy) => p.name == name
  }

  ghost function RelationNamed(c: Snapshot, schema: string, name: string): Option<Relation> {
    Last(c.relations, RelationIs(schema, name))
  }

  ghost function ContextValueAt(c: Snapshot, name: string): Option<Payload> {
    if name == "server_version_num" then Some(NumberValue(c.serverVersionNum))
    else if name == "role_context" then Some(ContextValue(c.roleContext))
    else if name == "role_graph_fingerprint" then Some(TextValue(c.roleGraphFingerprint))
    else if name == "object_privilege_fingerprint" then Some(TextValue(c.objectPrivilegeFingerprint))
    else None
  }

  ghost function PartValueAt(r: Relation, section: string, tag: string): Option<Payload> {
    if section == "columns" then (match Last(r.columns, ColumnIs(tag)) case None => None case Some(c) => Some(ColumnValue(c)))
    else if section == "constraints" then (match Last(r.constraints, ConstraintIs(tag)) case None => None case Some(c) => Some(ConstraintValue(c)))
    else if section == "policies" then (match Last(r.policies, PolicyIs(tag)) case None => None case Some(p) => Some(PolicyValue(p)))
    else None
  }

  ghost function InsideValueAt(r: Relation, place: seq<string>): Option<Payload> {
    if |place| == 1 then PropertyAt(r, place[0]) else if |place| == 2 then PartValueAt(r, place[0], place[1]) else None
  }

  /** The value at a place; a relation only one catalog has stands as a whole, one that both have is looked into. */
  ghost function CatalogValueAt(c: Snapshot, other: Snapshot, place: seq<string>): Option<Payload> {
    if |place| == 1 then ContextValueAt(c, place[0])
    else if |place| == 4 && place[0] == "functions" then
      (match Last(c.functions, FunctionIs(place[1], place[2], place[3])) case None => None case Some(f) => Some(FunctionValue(f)))
    else if |place| >= 3 && place[0] == "relations" then
      (match RelationNamed(c, place[1], place[2])
       case None => None
       case Some(r) =>
         if RelationNamed(other, place[1], place[2]).Some? then InsideValueAt(r, place[3..])
         else if |place| == 3 then Some(RelationValue(r))
         else None)
    else None
  }

  // ----- the change at a place -----

  /** A column may gain or lose a comment under review; anything else about it is breaking. */
  ghost predicate OnlyCommented(x: Payload, y: Payload) {
    x.ColumnValue? && y.ColumnValue? && y.column == x.column.(comment := y.column.comment)
  }

  ghost function CatalogVerdict(place: seq<string>, x: Option<Payload>, y: Option<Payload>): Compatibility {
    if |place| == 3 || (|place| == 5 && place[3] == "columns") then
      // new relations and columns break nothing
      if x.None? then Compatible
      else if |place| == 5 && y.Some? && OnlyCommented(x.value, y.value) then ReviewRequired
      else Breaking
    else if |place| == 5 && place[3] == "constraints" && x.None? then ReviewRequired
    else if place == ["server_version_num"] || (|place| == 4 && place[0] == "relations" && place[3] == "comment") then ReviewRequired
    else Breaking
  }

  ghost function CatalogChangeAt(b: Snapshot, a: Snapshot, place: seq<string>): Option<Change> {
    var x, y := CatalogValueAt(b, a, place), CatalogValueAt(a, b, place);
    if x == y then None
    else if x.None? then Some(Change(PathText(place), PlaceKind(place), Added, CatalogVerdict(place, x, y), None, y))
    else if y.None? then Some(Change(PathText(place), PlaceKind(place), Removed, CatalogVerdict(place, x, y), x, None))
    else Some(Change(PathText(place), PlaceKind(place), Modified, CatalogVerdict(place, x, y), x, y))
  }

  lemma FunctionsNamed(fs: seq<Function>, key: seq<string>)
    requires |key| == 3
    ensures Last(fs, FunctionIs(key[0], key[1], key[2])) == Find(fs, FunctionKey, key)
  {
    forall f: Function
      ensures FunctionIs(key[0], key[1], key[2])(f) <==> FunctionKey(f) == key
    {
    }
    LastIsFind(fs, FunctionIs(key[0], key[1], key[2]), FunctionKey, key);
  }

  lemma RelationsNamed(c: Snapshot, schema: string, name: string)
    ensures RelationNamed(c, schema, name) == RelationAt(c, schema, name)
  {
    forall r: Relation
      ensures RelationIs(schema, name)(r) <==> RelationKey(r) == [schema, name]
    {
      assert RelationKey(r)[0] == r.schema && RelationKey(r)[1] == r.name;
    }
    LastIsFind(c.relations, RelationIs(schema, name), RelationKey, [schema, name]);
  }

  lemma ColumnsNamed(cs: seq<Column>, name: string)
    ensures Last(cs, ColumnIs(name)) == Find(cs, ColumnKey, [name])
  {
    forall c: Column
      ensures ColumnIs(name)(c) <==> ColumnKey(c) == [name]
    {
      assert ColumnKey(c)[0] == c.name;
    }
    LastIsFind(cs, ColumnIs(name), ColumnKey, [name]);
  }

  lemma ConstraintsNamed(cs: seq<Constraint>, tag: string)
    ensures Last(cs, ConstraintIs(tag)) == Find(cs, ConstraintKey, [tag])
  {
    forall c: Constraint
      ensures ConstraintIs(tag)(c) <==> ConstraintKey(c) == [tag]
    {
      LabelIs(c);
      assert ConstraintKey(c)[0] == ConstraintKey(c)[0];
    }
    LastIsFind(cs, ConstraintIs(tag), ConstraintKey, [tag]);
  }

  lemma LabelIs(c: Constraint)
    ensures |ConstraintKey(c)| == 1
    ensures ConstraintKey(c)[0]
      == (if c.kind == PrimaryKey then "primary_key" else if c.kind == Unique then "unique" else if c.kind == ForeignKey then "foreign_key" else "check") + (":" + c.name)
  {
    assert "primary_key:" + c.name == "primary_key" + (":" + c.name);
    assert "unique:" + c.name == "unique" + (":" + c.name);
    assert "foreign_key:" + c.name == "foreign_key" + (":" + c.name);
    assert "check:" + c.name == "check" + (":" + c.name);
  }

  lemma PoliciesNamed(ps: seq<Policy>, name: string)
    ensures Last(ps, PolicyIs(name)) == Find(ps, PolicyKey, [name])
  {
    forall p: Policy
      ensures PolicyIs(name)(p) <==> PolicyKey(p) == [name]
    {
      assert PolicyKey(p)[0] == p.name;
    }
    LastIsFind(ps, PolicyIs(name), PolicyKey, [name]);
  }

  lemma InsideIs(r: Relation, place: seq<string>)
    ensures InsideValueAt(r, place) == WithinAt(r, place)
  {
    hide Last, Find, ColumnIs, ConstraintIs, PolicyIs;
    if |place| == 2 {
      ColumnsNamed(r.columns, place[1]);
      ConstraintsNamed(r.constraints, place[1]);
      PoliciesNamed(r.policies, place[1]);
    }
  }

  lemma ValueIs(c: Snapshot, other: Snapshot, place: seq<string>)
    ensures CatalogValueAt(c, other, place) == ValueAt(c, other, place)
  {
    hide Last, Find, FunctionIs, RelationNamed, InsideValueAt, WithinAt;
    if |place| == 4 && place[0] == "functions" {
      FunctionsNamed(c.functions, place[1..]);
    } else if |place| >= 3 && place[0] == "relations" {
      RelationsNamed(c, place[1], place[2]);
      RelationsNamed(other, place[1], place[2]);
      var r := RelationNamed(c, place[1], place[2]);
      if r.Some? {
        InsideIs(r.value, place[3..]);
      }
    }
  }

  /** At a place with two columns they have the same name. */
  lemma ColumnNames(b: Snapshot, a: Snapshot, place: seq<string>)
    requires |place| == 5 && place[3] == "columns" && ValueAt(b, a, place).Some?
    ensures ValueAt(b, a, place).value.ColumnValue? && ValueAt(b, a, place).value.column.name == place[4]
  {
    hide Find, ConstraintKey;
    var r := RelationAt(b, place[1], place[2]).value;
    assert place[3..][0] == place[3] && place[3..][1] == place[4];
    assert Find(r.columns, ColumnKey, [place[4]]).Some?;
    assert ColumnKey(Find(r.columns, ColumnKey, [place[4]]).value)[0] == place[4];
  }

  lemma VerdictIs(b: Snapshot, a: Snapshot, place: seq<string>)
    requires ValueAt(b, a, place) != ValueAt(a, b, place)
    ensures CatalogVerdict(place, ValueAt(b, a, place), ValueAt(a, b, place)) == VerdictAt(place, ValueAt(b, a, place), ValueAt(a, b, place))
  {
    var x, y := ValueAt(b, a, place), ValueAt(a, b, place);
    if |place| == 5 && place[3] == "columns" {
      if x.Some? {
        ColumnNames(b, a, place);
      }
      if y.Some? {
        ColumnNames(a, b, place);
      }
      hide ValueAt;
    } else {
      hide ValueAt;
      assert |place| == 1 ==> place == [place[0]];
    }
  }

  lemma ChangeIs(b: Snapshot, a: Snapshot, place: seq<string>)
    ensures CatalogChangeAt(b, a, place) == ChangeAt(b, a, place)
  {
    hide CatalogValueAt, ValueAt, PathText, PlaceKind, VerdictAt, CatalogVerdict;
    ValueIs(b, a, place);
    ValueIs(a, b, place);
    if ValueAt(b, a, place) != ValueAt(a, b, place) {
      VerdictIs(b, a, place);
    }
  }

  // ----- the whole diff -----

  ghost function Verdict(k: Compatibility): Change -> bool {
    (c: Change) => c.compatibility == k
  }

  lemma {:induction false} Counted(cs: seq<Change>, k: Compatibility)
    ensures Count(cs, k) == |Positions(cs, Verdict(k))|
  {
    hide Positions;
    if cs == [] {
      NoPositions(cs, Verdict(k));
    } else {
      Counted(cs[1..], k);
      PositionsFirst(cs, Verdict(k));
    }
  }

  /** The first reason to refuse: each capture's version and fingerprint, then a different database or role. */
  ghost function Refusal(before: Snapshot, after: Snapshot, hash: Snapshot -> string): Option<CatalogDiffError> {
    if before.schemaVersion != "2" then Some(InvalidSource(UnsupportedSchemaVersion(before.schemaVersion)))
    else if before.fingerprint != hash(Normalized(before).(fingerprint := "")) then Some(InvalidSource(InvalidFingerprint))
    else if after.schemaVersion != "2" then Some(InvalidTarget(UnsupportedSchemaVersion(after.schemaVersion)))
    else if after.fingerprint != hash(Normalized(after).(fingerprint := "")) then Some(InvalidTarget(InvalidFingerprint))
    else if before.currentDatabase != after.currentDatabase || before.currentRole != after.currentRole then Some(ContextMismatch)
    else None
  }

  ghost predicate Says(d: CatalogDiff, k: Compatibility) {
    exists c :: c in d.changes && c.compatibility == k
  }

  /** Exactly the changes of all places, in path order, each path once. */
  ghost predicate ReportsPlaces(d: CatalogDiff, b: Snapshot, a: Snapshot) {
    && (forall c :: c in d.changes <==> exists place :: CatalogChangeAt(b, a, place) == Some(c))
    && (forall i, j :: 0 <= i < j < |d.changes| ==> d.changes[i].path != d.changes[j].path && NameLeq(d.changes[i].path, d.changes[j].path))
  }

  ghost predicate Summed(d: CatalogDiff) {
    && d.summary.total == |d.changes|
    && d.summary.compatible == |Positions(d.changes, Verdict(Compatible))|
    && d.summary.reviewRequired == |Positions(d.changes, Verdict(ReviewRequired))|
    && d.summary.breaking == |Positions(d.changes, Verdict(Breaking))|
  }

  lemma {:induction false} DedupSorted<T>(xs: seq<T>, key: T -> seq<string>)
    requires Sorted(xs, key)
    ensures Sorted(Dedup(xs), key)
  {
    if |xs| > 1 {
      DedupSorted(xs[1..], key);
      if xs[0] != xs[1] {
        var rest := Dedup(xs[1..]);
        forall j | 0 <= j < |rest|
          ensures KeyLeq(key(xs[0]), key(rest[j]))
        {
          DedupElements(xs[1..], rest[j]);
          var k :| 1 <= k < |xs| && xs[k] == rest[j];
        }
      }
    }
  }

  lemma InPathOrder(b: Snapshot, a: Snapshot)
    ensures var cs := ChangesOf(b, a); forall i, j :: 0 <= i < j < |cs| ==> cs[i].path != cs[j].path && NameLeq(cs[i].path, cs[j].path)
  {
    hide RawChanges, KeyLeq;
    var cs := ChangesOf(b, a);
    CatalogDiffExact(b, a);
    SortSorts(RawChanges(b, a), ChangeKey);
    DedupSorted(Sort(RawChanges(b, a), ChangeKey), ChangeKey);
    forall i, j | 0 <= i < j < |cs|
      ensures NameLeq(cs[i].path, cs[j].path)
    {
      PathFirst(cs[i], cs[j]);
    }
  }

  lemma PathFirst(c: Change, d: Change)
    requires KeyLeq(ChangeKey(c), ChangeKey(d)) && c.path != d.path
    ensures NameLeq(c.path, d.path)
  {
    assert ChangeKey(c)[0] == c.path && ChangeKey(d)[0] == d.path;
  }

  lemma ReportedExactly(d: CatalogDiff, b: Snapshot, a: Snapshot)
    requires d.changes == ChangesOf(b, a)
    ensures ReportsPlaces(d, b, a)
  {
    hide ChangesOf, CatalogChangeAt, ChangeAt;
    CatalogDiffExact(b, a);
    InPathOrder(b, a);
    forall c
      ensures c in d.changes <==> exists place :: CatalogChangeAt(b, a, place) == Some(c)
    {
      PlacesAgree(b, a, c);
    }
  }

  lemma SummedExactly(d: CatalogDiff)
    requires d.summary == Summarize(d.changes) && d.compatibility == Overall(d.summary)
    ensures Summed(d)
    ensures d.compatibility == Breaking <==> Says(d, Breaking)
    ensures d.compatibility == ReviewRequired <==> !Says(d, Breaking) && Says(d, ReviewRequired)
  {
    hide Count, Positions;
    Counted(d.changes, Compatible);
    Counted(d.changes, ReviewRequired);
    Counted(d.changes, Breaking);
    CountsAddUp(d.changes);
  }

  lemma DiffUnfolds(before: Snapshot, after: Snapshot, hash: Snapshot -> string)
    ensures Refusal(before, after, hash).Some? ==> DiffOf(before, after, hash) == Err(Refusal(before, after, hash).value)
    ensures Refusal(before, after, hash).None? ==> var r := DiffOf(before, after, hash);
      && r.Ok? && r.value.fromFingerprint == before.fingerprint && r.value.toFingerprint == after.fingerprint
      && r.value.changes == ChangesOf(Normalized(before), Normalized(after))
      && r.value.summary == Summarize(r.value.changes) && r.value.compatibility == Overall(r.value.summary)
  {
    hide ChangesOf, NormalizedContext, Sort, Mapped, Summarize, Overall;
  }

  /**
   The whole diff: refused for the first of its reasons; otherwise it reports exactly the changes of all places under
   both inputs' fingerprints, counts them by verdict, and its own verdict is the worst of theirs.
   */
  lemma CatalogDiffSpelled(before: Snapshot, after: Snapshot, hash: Snapshot -> string)
    ensures Refusal(before, after, hash).Some? ==> DiffOf(before, after, hash) == Err(Refusal(before, after, hash).value)
    ensures Refusal(before, after, hash).None? ==> var r := DiffOf(before, after, hash);
      && r.Ok? && r.value.fromFingerprint == before.fingerprint && r.value.toFingerprint == after.fingerprint
      && ReportsPlaces(r.value, Normalized(before), Normalized(after)) && Summed(r.value)
      && (r.value.compatibility == Breaking <==> Says(r.value, Breaking))
      && (r.value.compatibility == ReviewRequired <==> !Says(r.value, Breaking) && Says(r.value, ReviewRequired))
  {
    hide DiffOf, ChangesOf, Normalized, Summarize, Overall, Refusal, ReportsPlaces, Summed, Says;
    DiffUnfolds(before, after, hash);
    if Refusal(before, after, hash).None? {
      ReportedExactly(DiffOf(before, after, hash).value, Normalized(before), Normalized(after));
      SummedExactly(DiffOf(before, after, hash).value);
    }
  }

  lemma PlacesAgree(b: Snapshot, a: Snapshot, c: Change)
    ensures (exists place :: CatalogChangeAt(b, a, place) == Some(c)) <==> exists place :: ChangeAt(b, a, place) == Some(c)
  {
    hide CatalogChangeAt, ChangeAt;
    forall place
      ensures CatalogChangeAt(b, a, place) == ChangeAt(b, a, place)
    {
      ChangeIs(b, a, place);
    }
  }

  // ----- the normal form -----

  ghost predicate Ascending(names: seq<string>) {
    forall i, j :: 0 <= i < j < |names| ==> names[i] != names[j] && NameLeq(names[i], names[j])
  }

  lemma {:induction false} DedupAscends<T>(xs: seq<T>, key: T -> seq<string>)
    requires Sorted(xs, key) && forall x, y :: x in xs && y in xs && key(x) == key(y) ==> x == y
    ensures Sorted(Dedup(xs), key) && UniqueKeys(Dedup(xs), key) && forall x :: x in Dedup(xs) <==> x in xs
  {
    DedupSorted(xs, key);
    DedupUnique(xs, key);
    forall x
      ensures x in Dedup(xs) <==> x in xs
    {
      DedupElements(xs, x);
    }
  }

  lemma SortedSet<T>(xs: seq<T>, key: T -> seq<string>)
    requires forall x, y :: x in xs && y in xs && key(x) == key(y) ==> x == y
    ensures var n := Dedup(Sort(xs, key)); Sorted(n, key) && UniqueKeys(n, key) && forall x :: x in n <==> x in xs
  {
    hide UniqueKeys, Sorted, Dedup, Sort;
    var sorted := Sort(xs, key);
    SortSorts(xs, key);
    forall x, y | x in sorted && y in sorted && key(x) == key(y)
      ensures x == y
    {
      SameElements(sorted, xs, x);
      SameElements(sorted, xs, y);
    }
    DedupAscends(sorted, key);
    forall x
      ensures x in Dedup(sorted) <==> x in xs
    {
      SameElements(sorted, xs, x);
    }
  }

  /** Roles are listed once each, in order. */
  lemma RolesNormal(roles: seq<string>)
    ensures Ascending(NormalizedRoles(roles)) && forall r :: r in NormalizedRoles(roles) <==> r in roles
  {
    forall x, y | x in roles && y in roles && NameKey(x) == NameKey(y)
      ensures x == y
    {
      assert NameKey(x)[0] == x && NameKey(y)[0] == y;
    }
    SortedSet(roles, NameKey);
    hide Sort, Dedup;
    var n := NormalizedRoles(roles);
    forall i, j | 0 <= i < j < |n|
      ensures n[i] != n[j] && NameLeq(n[i], n[j])
    {
      assert KeyLeq(NameKey(n[i]), NameKey(n[j])) && NameKey(n[i]) != NameKey(n[j]);
      assert NameKey(n[i])[0] == n[i] && NameKey(n[j])[0] == n[j];
    }
  }

  ghost predicate ContextIs(c: RoleContext, n: RoleContext) {
    && n == c.(effectiveRoles := n.effectiveRoles, settableRoles := n.settableRoles)
    && Ascending(n.effectiveRoles) && Ascending(n.settableRoles)
    && (forall r :: r in n.effectiveRoles <==> r in c.effectiveRoles) && forall r :: r in n.settableRoles <==> r in c.settableRoles
  }

  lemma ContextNormal(c: RoleContext)
    ensures ContextIs(c, NormalizedContext(c))
  {
    hide NormalizedRoles;
    RolesNormal(c.effectiveRoles);
    RolesNormal(c.settableRoles);
  }

  ghost predicate AuthorizationIs(c: Option<RoleContext>, n: Option<RoleContext>) {
    if c.None? then n.None? else n.Some? && ContextIs(c.value, n.value)
  }

  /** By grantee, then grantor, then whether it may be passed on, plain grants first. */
  ghost predicate GrantBefore(g: FunctionGrant, h: FunctionGrant) {
    if g.grantee != h.grantee then NameLeq(g.grantee, h.grantee)
    else if g.grantor != h.grantor then NameLeq(g.grantor, h.grantor)
    else !g.grantable && h.grantable
  }

  lemma GrantKeys(g: FunctionGrant, h: FunctionGrant)
    ensures GrantKey(g) == GrantKey(h) ==> g == h
    ensures KeyLeq(GrantKey(g), GrantKey(h)) && g != h ==> GrantBefore(g, h)
  {
    hide KeyLeq, NameLeq;
    var x, y := GrantKey(g), GrantKey(h);
    assert x[0] == g.grantee && y[0] == h.grantee && x[1] == g.grantor && y[1] == h.grantor;
    assert x[2] == Flag(g.grantable) && y[2] == Flag(h.grantable);
    FlagOrder(g.grantable, h.grantable);
    KeyOfThree(g.grantee, g.grantor, Flag(g.grantable), h.grantee, h.grantor, Flag(h.grantable));
  }

  function Flag(b: bool): string { if b then "1" else "0" }

  lemma FlagOrder(p: bool, q: bool)
    ensures Flag(p) == Flag(q) <==> p == q
    ensures NameLeq(Flag(p), Flag(q)) <==> (p ==> q)
  {
    assert Flag(true)[0] == '1' && Flag(false)[0] == '0';
    assert Flag(p)[1..] == "" && Flag(q)[1..] == "";
  }

  ghost predicate FunctionNormalOf(f: Function, n: Function) {
    && n == f.(ownerAuthorization := n.ownerAuthorization, grants := n.grants) && AuthorizationIs(f.ownerAuthorization, n.ownerAuthorization)
    && (forall g :: g in n.grants <==> g in f.grants)
    && forall i, j :: 0 <= i < j < |n.grants| ==> GrantBefore(n.grants[i], n.grants[j])
  }

  lemma FunctionNormal(f: Function)
    ensures FunctionNormalOf(f, NormalizedFunction(f))
  {
    hide GrantKey, KeyLeq, GrantBefore, NormalizedContext, ContextIs;
    if f.ownerAuthorization.Some? {
      ContextNormal(f.ownerAuthorization.value);
    }
    forall x, y | x in f.grants && y in f.grants && GrantKey(x) == GrantKey(y)
      ensures x == y
    {
      GrantKeys(x, y);
    }
    SortedSet(f.grants, GrantKey);
    hide Sort, Dedup;
    var n := NormalizedFunction(f);
    forall i, j | 0 <= i < j < |n.grants|
      ensures GrantBefore(n.grants[i], n.grants[j])
    {
      GrantKeys(n.grants[i], n.grants[j]);
      assert GrantKey(n.grants[i]) != GrantKey(n.grants[j]);
    }
  }

  ghost predicate ViewIs(v: Option<ViewFacts>, n: Option<ViewFacts>) {
    if v.None? then n.None?
    else n.Some? && n.value == v.value.(ownerAuthorization := n.value.ownerAuthorization) && AuthorizationIs(v.value.ownerAuthorization, n.value.ownerAuthorization)
  }

  /** By ordinal, then name. */
  ghost predicate ColumnBefore(c: Column, d: Column) {
    if c.ordinal != d.ordinal then c.ordinal < d.ordinal else c.name == d.name || NameLeq(c.name, d.name)
  }

  /** Primary keys, unique keys, foreign keys, checks; then by name. */
  ghost predicate ConstraintBefore(c: Constraint, d: Constraint) {
    if c.kind != d.kind then c.kind == PrimaryKey || d.kind == Check || (c.kind == Unique && d.kind == ForeignKey)
    else c.name == d.name || NameLeq(c.name, d.name)
  }

  /** By name, then ALL, SELECT, INSERT, UPDATE, DELETE. */
  ghost predicate PolicyBefore(p: Policy, q: Policy) {
    if p.name != q.name then NameLeq(p.name, q.name)
    else p.command == q.command || p.command == ForAll || q.command == ForDelete
         || (p.command == ForSelect && q.command != ForAll) || (p.command == ForInsert && q.command == ForUpdate)
  }

  /** The same policy, its roles in order. */
  ghost predicate PolicyNormalOf(p: Policy, n: Policy) {
    n == p.(roles := n.roles) && multiset(n.roles) == multiset(p.roles) && forall i, j :: 0 <= i < j < |n.roles| ==> n.roles[i] == n.roles[j] || NameLeq(n.roles[i], n.roles[j])
  }

  /** One normal form for every element, and nothing else. */
  ghost predicate Corresponds<T>(xs: seq<T>, ns: seq<T>, normal: (T, T) -> bool) {
    && |ns| == |xs|
    && (forall n :: n in ns ==> exists x :: x in xs && normal(x, n))
    && (forall x :: x in xs ==> exists n :: n in ns && normal(x, n))
  }

  ghost predicate InOrder<T>(xs: seq<T>, before: (T, T) -> bool) {
    forall i, j :: 0 <= i < j < |xs| ==> before(xs[i], xs[j])
  }

  ghost predicate RelationNormalOf(r: Relation, n: Relation) {
    && n == r.(view := n.view, columns := n.columns, constraints := n.constraints, policies := n.policies) && ViewIs(r.view, n.view)
    && multiset(n.columns) == multiset(r.columns) && multiset(n.constraints) == multiset(r.constraints)
    && Corresponds(r.policies, n.policies, PolicyNormalOf)
    && InOrder(n.columns, ColumnBefore) && InOrder(n.constraints, ConstraintBefore) && InOrder(n.policies, PolicyBefore)
  }

  /** Ordinals fit into 32 bits. */
  ghost predicate OrdinalsFit(r: Relation) {
    forall c :: c in r.columns ==> c.ordinal < 4_294_967_296
  }

  lemma ColumnKeys(c: Column, d: Column)
    requires c.ordinal < 4_294_967_296 && d.ordinal < 4_294_967_296 && KeyLeq(ColumnOrder(c), ColumnOrder(d))
    ensures ColumnBefore(c, d)
  {
    hide KeyLeq, NameLeq, OrdinalKey;
    OrdinalKeyOrders(c.ordinal, d.ordinal);
    OrdinalKeyOrders(d.ordinal, c.ordinal);
    KeyOfTwo(OrdinalKey(c.ordinal), c.name, OrdinalKey(d.ordinal), d.name);
    NameReflexive(OrdinalKey(c.ordinal));
  }

  lemma {:induction false} NameReflexive(a: string)
    ensures NameLeq(a, a)
  {
    NameTotal(a, a);
  }

  lemma RankOrder(m: nat, n: nat)
    requires m < 10 && n < 10
    ensures RankText(m) == RankText(n) <==> m == n
    ensures NameLeq(RankText(m), RankText(n)) <==> m <= n
  {
    assert RankText(m)[0] as int == '0' as int + m && RankText(n)[0] as int == '0' as int + n;
    assert RankText(m)[1..] == "" && RankText(n)[1..] == "";
  }

  lemma ConstraintKeys(c: Constraint, d: Constraint)
    requires KeyLeq(ConstraintOrder(c), ConstraintOrder(d))
    ensures ConstraintBefore(c, d)
  {
    hide KeyLeq, NameLeq, RankText;
    RankOrder(KindRank(c.kind), KindRank(d.kind));
    KeyOfTwo(RankText(KindRank(c.kind)), c.name, RankText(KindRank(d.kind)), d.name);
  }

  lemma PolicyKeys(p: Policy, q: Policy)
    requires KeyLeq(PolicyOrder(p), PolicyOrder(q))
    ensures PolicyBefore(p, q)
  {
    hide KeyLeq, NameLeq, RankText;
    RankOrder(CommandRank(p.command), CommandRank(q.command));
    KeyOfTwo(p.name, RankText(CommandRank(p.command)), q.name, RankText(CommandRank(q.command)));
  }

  lemma PolicyNormal(p: Policy)
    ensures PolicyNormalOf(p, NormalizedPolicy(p))
  {
    hide KeyLeq, NameLeq;
    SortSorts(p.roles, NameKey);
    hide Sort;
    var n := Sort(p.roles, NameKey);
    forall i, j | 0 <= i < j < |n|
      ensures n[i] == n[j] || NameLeq(n[i], n[j])
    {
      assert KeyLeq(NameKey(n[i]), NameKey(n[j]));
      NameKeys(n[i], n[j]);
    }
  }

  lemma NameKeys(a: string, b: string)
    requires KeyLeq(NameKey(a), NameKey(b))
    ensures a == b || NameLeq(a, b)
  {
    assert NameKey(a)[0] == a && NameKey(b)[0] == b;
  }

  lemma PoliciesNormal(r: Relation)
    ensures var n := NormalizedRelation(r); Corresponds(r.policies, n.policies, PolicyNormalOf) && InOrder(n.policies, PolicyBefore)
  {
    hide PolicyNormalOf, PolicyBefore, PolicyOrder, NormalizedPolicy, KeyLeq, NormalizedView;
    var mapped := Mapped(r.policies, NormalizedPolicy);
    var n := Sort(mapped, PolicyOrder);
    SortSorts(mapped, PolicyOrder);
    assert |n| == |multiset(n)| == |multiset(mapped)| == |mapped|;
    forall p | p in n
      ensures exists o :: o in r.policies && PolicyNormalOf(o, p)
    {
      SameElements(n, mapped, p);
      var i :| 0 <= i < |mapped| && mapped[i] == p;
      PolicyNormal(r.policies[i]);
    }
    forall o | o in r.policies
      ensures exists p :: p in n && PolicyNormalOf(o, p)
    {
      var i :| 0 <= i < |r.policies| && r.policies[i] == o;
      SameElements(n, mapped, mapped[i]);
      assert mapped[i] in mapped;
      PolicyNormal(o);
    }
    forall i, j | 0 <= i < j < |n|
      ensures PolicyBefore(n[i], n[j])
    {
      PolicyKeys(n[i], n[j]);
    }
  }

  lemma ColumnsNormal(r: Relation)
    requires OrdinalsFit(r)
    ensures var n := NormalizedRelation(r); InOrder(n.columns, ColumnBefore) && InOrder(n.constraints, ConstraintBefore)
  {
    hide ColumnBefore, ConstraintBefore, ColumnOrder, ConstraintOrder, KeyLeq, NormalizedView, NormalizedPolicy;
    SortSorts(r.columns, ColumnOrder);
    SortSorts(r.constraints, ConstraintOrder);
    var n := NormalizedRelation(r);
    hide Sort;
    forall i, j | 0 <= i < j < |n.columns|
      ensures ColumnBefore(n.columns[i], n.columns[j])
    {
      SameElements(n.columns, r.columns, n.columns[i]);
      SameElements(n.columns, r.columns, n.columns[j]);
      assert n.columns[i] in n.columns && n.columns[j] in n.columns;
      ColumnKeys(n.columns[i], n.columns[j]);
    }
    forall i, j | 0 <= i < j < |n.constraints|
      ensures ConstraintBefore(n.constraints[i], n.constraints[j])
    {
      ConstraintKeys(n.constraints[i], n.constraints[j]);
    }
  }

  /** A relation's normal form: the same contents, each collection in its order. */
  lemma RelationNormal(r: Relation)
    requires OrdinalsFit(r)
    ensures RelationNormalOf(r, NormalizedRelation(r))
  {
    hide ColumnBefore, ConstraintBefore, PolicyBefore, PolicyNormalOf, NormalizedContext, ContextIs, Corresponds, InOrder;
    ColumnsNormal(r);
    PoliciesNormal(r);
    if r.view.Some? && r.view.value.ownerAuthorization.Some? {
      ContextNormal(r.view.value.ownerAuthorization.value);
    }
    hide Sort, Mapped;
  }

  ghost predicate FunctionBefore(f: Function, g: Function) {
    if f.schema != g.schema then NameLeq(f.schema, g.schema)
    else if f.name != g.name then NameLeq(f.name, g.name)
    else f.identityArguments == g.identityArguments || NameLeq(f.identityArguments, g.identityArguments)
  }

  /** Relations in order of schema and name. */
  ghost predicate RelationBefore(r: Relation, s: Relation) {
    if r.schema != s.schema then NameLeq(r.schema, s.schema) else r.name == s.name || NameLeq(r.name, s.name)
  }

  ghost predicate CatalogNormalOf(c: Snapshot, n: Snapshot) {
    && n == c.(roleContext := n.roleContext, functions := n.functions, relations := n.relations) && ContextIs(c.roleContext, n.roleContext)
    && Corresponds(c.functions, n.functions, FunctionNormalOf) && Corresponds(c.relations, n.relations, RelationNormalOf)
    && InOrder(n.functions, FunctionBefore) && InOrder(n.relations, RelationBefore)
  }

  lemma FunctionsNormal(c: Snapshot)
    ensures var n := Sort(Mapped(c.functions, NormalizedFunction), FunctionKey);
      Corresponds(c.functions, n, FunctionNormalOf) && InOrder(n, FunctionBefore)
  {
    hide FunctionNormalOf, FunctionBefore, NormalizedFunction, KeyLeq;
    var mapped := Mapped(c.functions, NormalizedFunction);
    var n := Sort(mapped, FunctionKey);
    SortSorts(mapped, FunctionKey);
    assert |n| == |multiset(n)| == |multiset(mapped)| == |mapped|;
    forall f | f in n
      ensures exists o :: o in c.functions && FunctionNormalOf(o, f)
    {
      SameElements(n, mapped, f);
      var i :| 0 <= i < |mapped| && mapped[i] == f;
      FunctionNormal(c.functions[i]);
    }
    forall o | o in c.functions
      ensures exists f :: f in n && FunctionNormalOf(o, f)
    {
      var i :| 0 <= i < |c.functions| && c.functions[i] == o;
      SameElements(n, mapped, mapped[i]);
      assert mapped[i] in mapped;
      FunctionNormal(o);
    }
    forall i, j | 0 <= i < j < |n|
      ensures FunctionBefore(n[i], n[j])
    {
      FunctionKeys(n[i], n[j]);
    }
  }

  lemma FunctionKeys(f: Function, g: Function)
    requires KeyLeq(FunctionKey(f), FunctionKey(g))
    ensures FunctionBefore(f, g)
  {
    hide KeyLeq, NameLeq;
    KeyOfThree(f.schema, f.name, f.identityArguments, g.schema, g.name, g.identityArguments);
  }

  lemma RelationKeys(r: Relation, s: Relation)
    requires KeyLeq(RelationOrder(r), RelationOrder(s))
    ensures RelationBefore(r, s)
  {
    hide KeyLeq, NameLeq, RankText;
    KeyOfThree(r.schema, r.name, RankText(RelationKindRank(r.kind)), s.schema, s.name, RankText(RelationKindRank(s.kind)));
  }

  lemma RelationsNormal(c: Snapshot)
    requires forall r :: r in c.relations ==> OrdinalsFit(r)
    ensures var n := Sort(Mapped(c.relations, NormalizedRelation), RelationOrder);
      Corresponds(c.relations, n, RelationNormalOf) && InOrder(n, RelationBefore)
  {
    hide RelationNormalOf, RelationBefore, NormalizedRelation, KeyLeq, OrdinalsFit, RelationOrder;
    var mapped := Mapped(c.relations, NormalizedRelation);
    var n := Sort(mapped, RelationOrder);
    SortSorts(mapped, RelationOrder);
    assert |n| == |multiset(n)| == |multiset(mapped)| == |mapped|;
    forall r | r in n
      ensures exists o :: o in c.relations && RelationNormalOf(o, r)
    {
      SameElements(n, mapped, r);
      var i :| 0 <= i < |mapped| && mapped[i] == r;
      assert c.relations[i] in c.relations;
      RelationNormal(c.relations[i]);
    }
    forall o | o in c.relations
      ensures exists r :: r in n && RelationNormalOf(o, r)
    {
      var i :| 0 <= i < |c.relations| && c.relations[i] == o;
      SameElements(n, mapped, mapped[i]);
      assert mapped[i] in mapped;
      RelationNormal(o);
    }
    forall i, j | 0 <= i < j < |n|
      ensures RelationBefore(n[i], n[j])
    {
      RelationKeys(n[i], n[j]);
    }
  }

  /** What `normalize` makes of a capture: nothing added, lost or changed, roles and grants once each, and every list in its order. */
  lemma CatalogNormal(c: Snapshot)
    requires forall r :: r in c.relations ==> OrdinalsFit(r)
    ensures CatalogNormalOf(c, Normalized(c))
  {
    hide FunctionNormalOf, RelationNormalOf, FunctionBefore, RelationBefore, ContextIs, NormalizedContext, Sort, Mapped, OrdinalsFit, Corresponds, InOrder;
    ContextNormal(c.roleContext);
    FunctionsNormal(c);
    RelationsNormal(c);
  }
}
