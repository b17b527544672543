/** The captured database catalog, its canonical form, and the diff of two captures. */
module Catalog {
  import opened Prelude
  import opened Order

  // ----- the captured catalog -----

  datatype RoleContext = RoleContext(inherit: bool, superuser: bool, bypassRls: bool, effectiveRoles: seq<string>, settableRoles: seq<string>)

  datatype FunctionKind = PlainFunction | WindowFunction | AggregateFunction

  datatype FunctionGrant = FunctionGrant(grantor: string, grantee: string, grantable: bool)

  datatype Function = Function(
    schema: string,
    name: string,
    identityArguments: string,
    kind: FunctionKind,
    definitionHash: string,
    owner: string,
    ownerAuthorization: Option<RoleContext>,
    grants: seq<FunctionGrant>)

  datatype RelationKind = Table | PartitionedTable | View | MaterializedView | ForeignTable

  datatype ViewFacts = ViewFacts(definitionHash: string, securityInvoker: bool, securityBarrier: bool, ownerAuthorization: Option<RoleContext>)

  datatype GrantHints = GrantHints(schemaUsage: bool, tableSelect: bool, anyColumnSelect: bool)

  datatype RowSecurity = RowSecurity(enabled: bool, forced: bool)

  datatype Column = Column(name: string, ordinal: nat, dataType: string, nullable: bool, comment: Option<string>, selectGrant: bool)

  datatype ConstraintKind = PrimaryKey | Unique | ForeignKey | Check

  /** `details` stands for the attributes that are only ever compared as a whole. */
  datatype Constraint = Constraint(
    kind: ConstraintKind,
    name: string,
    columns: seq<string>,
    enforced: bool,
    period: bool,
    validated: bool,
    referencedSchema: string,
    referencedName: string,
    referencedColumns: seq<string>,
    details: string)

  datatype PolicyCommand = ForAll | ForSelect | ForInsert | ForUpdate | ForDelete

  datatype Policy = Policy(
    name: string,
    command: PolicyCommand,
    permissive: bool,
    roles: seq<string>,
    usingExpressionHash: Option<string>,
    withCheckExpressionHash: Option<string>)

  datatype Relation = Relation(
    schema: string,
    name: string,
    kind: RelationKind,
    owner: string,
    view: Option<ViewFacts>,
    comment: Option<string>,
    grants: GrantHints,
    rls: RowSecurity,
    columns: seq<Column>,
    constraints: seq<Constraint>,
    policies: seq<Policy>)

  datatype Snapshot = Snapshot(
    schemaVersion: string,
    serverVersionNum: nat,
    currentDatabase: string,
    currentRole: string,
    roleContext: RoleContext,
    roleGraphFingerprint: string,
    objectPrivilegeFingerprint: string,
    functions: seq<Function>,
    relations: seq<Relation>,
    fingerprint: string)

  // ----- the canonical form -----

  /** Removes elements equal to their predecessor. */
  function Dedup<T(==)>(xs: seq<T>): seq<T> {
    if |xs| <= 1 then xs
    else if xs[0] == xs[1] then Dedup(xs[1..])
    else [xs[0]] + Dedup(xs[1..])
  }

  /** An order-preserving key for a 32-bit number. */
  function OrdinalKey(n: nat): string {
    if n < 4_294_967_296 then [(n / 1_000_000) as char, (n / 1000 % 1000) as char, (n % 1000) as char] else ""
  }

  lemma TripleOrder(x: string, y: string)
    requires |x| == |y| == 3
    ensures NameLeq(x, y) <==> if x[0] != y[0] then x[0] < y[0] else if x[1] != y[1] then x[1] < y[1] else x[2] <= y[2]
  {
    assert x[1..][1..][1..] == [];
    assert NameLeq(x[1..][1..], y[1..][1..]) <==> x[2] <= y[2];
    assert NameLeq(x[1..], y[1..]) <==> if x[1] != y[1] then x[1] < y[1] else x[2] <= y[2];
  }

  lemma Thousands(n: nat)
    ensures n == 1_000_000 * (n / 1_000_000) + 1000 * (n / 1000 % 1000) + n % 1000
  {
    assert n / 1000 / 1000 == n / 1_000_000;
  }

  lemma OrdinalKeyOrders(a: nat, b: nat)
    requires a < 4_294_967_296 && b < 4_294_967_296
    ensures NameLeq(OrdinalKey(a), OrdinalKey(b)) <==> a <= b
  {
    hide NameLeq;
    TripleOrder(OrdinalKey(a), OrdinalKey(b));
    Thousands(a);
    Thousands(b);
  }

  function RankText(n: nat): string
    requires n < 10
  {
    [('0' as int + n) as char]
  }

  function NormalizedRoles(roles: seq<string>): seq<string> {
    Dedup(Sort(roles, NameKey))
  }

  function NormalizedContext(c: RoleContext): RoleContext {
    c.(effectiveRoles := NormalizedRoles(c.effectiveRoles), settableRoles := NormalizedRoles(c.settableRoles))
  }

  function NormalizedAuthorization(c: Option<RoleContext>): Option<RoleContext> {
    if c.Some? then Some(NormalizedContext(c.value)) else None
  }

  function GrantKey(g: FunctionGrant): seq<string> { [g.grantee, g.grantor, if g.grantable then "1" else "0"] }

  function NormalizedFunction(f: Function): Function {
    f.(ownerAuthorization := NormalizedAuthorization(f.ownerAuthorization), grants := Dedup(Sort(f.grants, GrantKey)))
  }

  function FunctionKey(f: Function): seq<string> { [f.schema, f.name, f.identityArguments] }

  function ColumnKey(c: Column): seq<string> { [c.name] }

  function ColumnOrder(c: Column): seq<string> { [OrdinalKey(c.ordinal), c.name] }

  function KindRank(k: ConstraintKind): nat {
    match k case PrimaryKey => 0 case Unique => 1 case ForeignKey => 2 case Check => 3
  }

  function ConstraintOrder(c: Constraint): seq<string> { [RankText(KindRank(c.kind)), c.name] }

  /** `constraint_key`. */
  function ConstraintKey(c: Constraint): seq<string> {
    match c.kind
    case PrimaryKey => ["primary_key:" + c.name]
    case Unique => ["unique:" + c.name]
    case ForeignKey => ["foreign_key:" + c.name]
    case Check => ["check:" + c.name]
  }

  function CommandRank(c: PolicyCommand): nat {
    match c case ForAll => 0 case ForSelect => 1 case ForInsert => 2 case ForUpdate => 3 case ForDelete => 4
  }

  function NormalizedPolicy(p: Policy): Policy { p.(roles := Sort(p.roles, NameKey)) }

  function PolicyKey(p: Policy): seq<string> { [p.name] }

  function PolicyOrder(p: Policy): seq<string> { [p.name, RankText(CommandRank(p.command))] }

  function NormalizedView(v: Option<ViewFacts>): Option<ViewFacts> {
    if v.Some? then Some(v.value.(ownerAuthorization := NormalizedAuthorization(v.value.ownerAuthorization))) else None
  }

  function Mapped<T>(xs: seq<T>, f: T -> T): (r: seq<T>)
    ensures |r| == |xs| && forall i :: 0 <= i < |xs| ==> r[i] == f(xs[i])
  {
    seq(|xs|, i requires 0 <= i < |xs| => f(xs[i]))
  }

  function NormalizedRelation(r: Relation): Relation {
    r.(view := NormalizedView(r.view),
       columns := Sort(r.columns, ColumnOrder),
       constraints := Sort(r.constraints, ConstraintOrder),
       policies := Sort(Mapped(r.policies, NormalizedPolicy), PolicyOrder))
  }

  function RelationKey(r: Relation): seq<string> { [r.schema, r.name] }

  function RelationKindRank(k: RelationKind): nat {
    match k case Table => 0 case PartitionedTable => 1 case View => 2 case MaterializedView => 3 case ForeignTable => 4
  }

  function RelationOrder(r: Relation): seq<string> { [r.schema, r.name, RankText(RelationKindRank(r.kind))] }

  /** `normalize`. */
  function Normalized(c: Snapshot): Snapshot {
    c.(roleContext := NormalizedContext(c.roleContext),
       functions := Sort(Mapped(c.functions, NormalizedFunction), FunctionKey),
       relations := Sort(Mapped(c.relations, NormalizedRelation), RelationOrder))
  }

  datatype CatalogError = UnsupportedSchemaVersion(version: string) | InvalidFingerprint

  /** `hash` stands for SHA-256 over the serialized snapshot. */
  function ValidatedNormalized(c: Snapshot, hash: Snapshot -> string): Result<Snapshot, CatalogError> {
    if c.schemaVersion != "2" then Err(UnsupportedSchemaVersion(c.schemaVersion))
    else if hash(Normalized(c).(fingerprint := "")) != c.fingerprint then Err(InvalidFingerprint)
    else Ok(Normalized(c))
  }

  // ----- paths -----

  function ReplaceChar(s: string, c: char, with: string): string {
    if s == "" then "" else (if s[0] == c then with else [s[0]]) + ReplaceChar(s[1..], c, with)
  }

  /** `path_segment`: the escaping of sections 3 and 4 of RFC 6901. */
  function PathSegment(s: string): string {
    ReplaceChar(ReplaceChar(s, '~', "~0"), '/', "~1")
  }

  /** A path with the given unescaped segments. */
  function PathText(segments: seq<string>): string {
    if segments == [] then "" else "/" + PathSegment(segments[0]) + PathText(segments[1..])
  }

  // ----- changes -----

  datatype Compatibility = Compatible | ReviewRequired | Breaking

  datatype ObjectKind = ContextObject | FunctionObject | RelationObject | ColumnObject | ConstraintObject | PolicyObject

  datatype ChangeKind = Added | Removed | Modified

  /** The serialized value of an object; serialization is injective. */
  datatype Payload =
    | NumberValue(number: nat)
    | TextValue(text: string)
    | ContextValue(context: RoleContext)
    | FunctionValue(function_: Function)
    | RelationValue(relation: Relation)
    | KindValue(kind: RelationKind)
    | ViewValue(view: Option<ViewFacts>)
    | CommentValue(comment: Option<string>)
    | GrantsValue(grants: GrantHints)
    | RlsValue(rls: RowSecurity)
    | ColumnValue(column: Column)
    | ConstraintValue(constraint: Constraint)
    | PolicyValue(policy: Policy)

  datatype Change = Change(
    path: string,
    objectKind: ObjectKind,
    kind: ChangeKind,
    compatibility: Compatibility,
    before: Option<Payload>,
    after: Option<Payload>)

  datatype Summary = Summary(total: nat, compatible: nat, reviewRequired: nat, breaking: nat)

  datatype CatalogDiff = CatalogDiff(
    fromFingerprint: string,
    toFingerprint: string,
    compatibility: Compatibility,
    summary: Summary,
    changes: seq<Change>)

  datatype CatalogDiffError = InvalidSource(cause: CatalogError) | InvalidTarget(cause: CatalogError) | ContextMismatch

  function Modification(path: string, objectKind: ObjectKind, compatibility: Compatibility, before: Payload, after: Payload): seq<Change> {
    if before == after then [] else [Change(path, objectKind, Modified, compatibility, Some(before), Some(after))]
  }

  // ----- keyed collections -----

  /** The last object with a key, as collecting into a map keeps it. */
  function Find<T>(xs: seq<T>, keyOf: T -> seq<string>, key: seq<string>): (r: Option<T>)
    ensures r.Some? ==> r.value in xs && keyOf(r.value) == key
    ensures r.None? ==> forall x :: x in xs ==> keyOf(x) != key
  {
    if xs == [] then None
    else if keyOf(xs[|xs| - 1]) == key then Some(xs[|xs| - 1])
    else Find(xs[..|xs| - 1], keyOf, key)
  }

  function Itself(key: seq<string>): seq<string> { key }

  function KeysOf<T>(xs: seq<T>, keyOf: T -> seq<string>): (r: seq<seq<string>>)
    ensures |r| == |xs| && forall i :: 0 <= i < |xs| ==> r[i] == keyOf(xs[i])
  {
    seq(|xs|, i requires 0 <= i < |xs| => keyOf(xs[i]))
  }

  /** The keys of the ordered map, in order and each once. */
  function OrderedKeys<T>(xs: seq<T>, keyOf: T -> seq<string>): seq<seq<string>> {
    Dedup(Sort(KeysOf(xs, keyOf), Itself))
  }

  /** The keys of both maps chained: a key they share comes twice. */
  function Visits<T>(left: seq<T>, right: seq<T>, keyOf: T -> seq<string>): seq<seq<string>> {
    OrderedKeys(left, keyOf) + OrderedKeys(right, keyOf)
  }

  function Wrapped<T>(x: Option<T>, wrap: T -> Payload): Option<Payload> {
    if x.Some? then Some(wrap(x.value)) else None
  }

  function KindOf<T>(x: Option<T>, y: Option<T>): ChangeKind {
    if x.None? then Added else if y.None? then Removed else Modified
  }

  /** How one kind of object is reported: its place, its serialization and its verdicts. */
  datatype Reporter<!T> = Reporter(
    base: string,
    objectKind: ObjectKind,
    keyOf: T -> seq<string>,
    wrap: T -> Payload,
    verdict: (Option<T>, Option<T>) -> Compatibility)

  /** What one visit of a key pushes. */
  function VisitChanges<T(==)>(rep: Reporter<T>, left: seq<T>, right: seq<T>, key: seq<string>): seq<Change> {
    var x, y := Find(left, rep.keyOf, key), Find(right, rep.keyOf, key);
    if x == y then []
    else [Change(rep.base + PathText(key), rep.objectKind, KindOf(x, y), rep.verdict(x, y), Wrapped(x, rep.wrap), Wrapped(y, rep.wrap))]
  }

  function VisitAll<T(==)>(rep: Reporter<T>, left: seq<T>, right: seq<T>, keys: seq<seq<string>>): seq<Change> {
    if keys == [] then [] else VisitAll(rep, left, right, keys[..|keys| - 1]) + VisitChanges(rep, left, right, keys[|keys| - 1])
  }

  function KeyedChanges<T(==)>(rep: Reporter<T>, left: seq<T>, right: seq<T>): seq<Change> {
    VisitAll(rep, left, right, Visits(left, right, rep.keyOf))
  }

  /** `diff_functions`, `diff_columns`, `diff_constraints` and `diff_policies`: one loop over the chained keys. */
  method DiffKeyed<T(==)>(rep: Reporter<T>, left: seq<T>, right: seq<T>) returns (changes: seq<Change>)
    ensures changes == KeyedChanges(rep, left, right)
  {
    hide Visits, PathText;
    changes := [];
    var keys := Visits(left, right, rep.keyOf);
    for i := 0 to |keys|
      invariant changes == VisitAll(rep, left, right, keys[..i])
    {
      assert keys[..i + 1][..i] == keys[..i];
      var x, y := Find(left, rep.keyOf, keys[i]), Find(right, rep.keyOf, keys[i]);
      if x != y {
        changes := changes + [Change(rep.base + PathText(keys[i]), rep.objectKind, KindOf(x, y), rep.verdict(x, y), Wrapped(x, rep.wrap), Wrapped(y, rep.wrap))];
      }
    }
    assert keys[..|keys|] == keys;
  }

  // ----- verdicts -----

  function FunctionVerdict(x: Option<Function>, y: Option<Function>): Compatibility { Breaking }

  function ColumnVerdict(x: Option<Column>, y: Option<Column>): Compatibility {
    if x.None? then Compatible
    else if y.None? then Breaking
    else if x.value.dataType != y.value.dataType || x.value.nullable != y.value.nullable
            || x.value.selectGrant != y.value.selectGrant || x.value.ordinal != y.value.ordinal then Breaking
    else ReviewRequired
  }

  function ConstraintVerdict(x: Option<Constraint>, y: Option<Constraint>): Compatibility {
    if x.None? then ReviewRequired else Breaking
  }

  function PolicyVerdict(x: Option<Policy>, y: Option<Policy>): Compatibility { Breaking }

  function RelationVerdict(x: Option<Relation>, y: Option<Relation>): Compatibility {
    if x.None? then Compatible else Breaking
  }

  function WrapFunction(f: Function): Payload { FunctionValue(f) }

  function WrapColumn(c: Column): Payload { ColumnValue(c) }

  function WrapConstraint(c: Constraint): Payload { ConstraintValue(c) }

  function WrapPolicy(p: Policy): Payload { PolicyValue(p) }

  function WrapRelation(r: Relation): Payload { RelationValue(r) }

  function FunctionReporter(): Reporter<Function> {
    Reporter("/functions", FunctionObject, FunctionKey, WrapFunction, FunctionVerdict)
  }

  function ColumnReporter(base: string): Reporter<Column> {
    Reporter(base + "/columns", ColumnObject, ColumnKey, WrapColumn, ColumnVerdict)
  }

  function ConstraintReporter(base: string): Reporter<Constraint> {
    Reporter(base + "/constraints", ConstraintObject, ConstraintKey, WrapConstraint, ConstraintVerdict)
  }

  function PolicyReporter(base: string): Reporter<Policy> {
    Reporter(base + "/policies", PolicyObject, PolicyKey, WrapPolicy, PolicyVerdict)
  }

  // ----- relations -----

  /** `relation_path`. */
  function RelationPath(key: seq<string>): string {
    "/relations" + PathText(key)
  }

  function PropertyChanges(base: string, before: Relation, after: Relation): seq<Change> {
    Modification(base + "/kind", RelationObject, Breaking, KindValue(before.kind), KindValue(after.kind))
    + Modification(base + "/owner", RelationObject, Breaking, TextValue(before.owner), TextValue(after.owner))
    + Modification(base + "/view", RelationObject, Breaking, ViewValue(before.view), ViewValue(after.view))
    + Modification(base + "/comment", RelationObject, ReviewRequired, CommentValue(before.comment), CommentValue(after.comment))
    + Modification(base + "/grants", RelationObject, Breaking, GrantsValue(before.grants), GrantsValue(after.grants))
    + Modification(base + "/rls", RelationObject, Breaking, RlsValue(before.rls), RlsValue(after.rls))
  }

  /** `diff_relation`. */
  function RelationChanges(before: Relation, after: Relation): seq<Change> {
    var base := RelationPath(RelationKey(before));
    PropertyChanges(base, before, after)
    + KeyedChanges(ColumnReporter(base), before.columns, after.columns)
    + KeyedChanges(ConstraintReporter(base), before.constraints, after.constraints)
    + KeyedChanges(PolicyReporter(base), before.policies, after.policies)
  }

  function RelationVisit(left: seq<Relation>, right: seq<Relation>, key: seq<string>): seq<Change> {
    var x, y := Find(left, RelationKey, key), Find(right, RelationKey, key);
    if x.Some? && y.Some? then RelationChanges(x.value, y.value)
    else if x.None? && y.None? then []
    else [Change(RelationPath(key), RelationObject, KindOf(x, y), RelationVerdict(x, y), Wrapped(x, WrapRelation), Wrapped(y, WrapRelation))]
  }

  function RelationVisits(left: seq<Relation>, right: seq<Relation>, keys: seq<seq<string>>): seq<Change> {
    if keys == [] then [] else RelationVisits(left, right, keys[..|keys| - 1]) + RelationVisit(left, right, keys[|keys| - 1])
  }

  const SERVER_VERSION: string := "server_version_num"
  const ROLE_CONTEXT: string := "role_context"
  const ROLE_GRAPH: string := "role_graph_fingerprint"
  const OBJECT_PRIVILEGES: string := "object_privilege_fingerprint"

  function ContextChanges(b: Snapshot, a: Snapshot): seq<Change> {
    Modification("/" + SERVER_VERSION, ContextObject, ReviewRequired, NumberValue(b.serverVersionNum), NumberValue(a.serverVersionNum))
    + Modification("/" + ROLE_CONTEXT, ContextObject, Breaking, ContextValue(b.roleContext), ContextValue(a.roleContext))
    + Modification("/" + ROLE_GRAPH, ContextObject, Breaking, TextValue(b.roleGraphFingerprint), TextValue(a.roleGraphFingerprint))
    + Modification("/" + OBJECT_PRIVILEGES, ContextObject, Breaking, TextValue(b.objectPrivilegeFingerprint), TextValue(a.objectPrivilegeFingerprint))
  }

  /** Everything the loops push, shared keys twice. */
  function RawChanges(b: Snapshot, a: Snapshot): seq<Change> {
    ContextChanges(b, a)
    + KeyedChanges(FunctionReporter(), b.functions, a.functions)
    + RelationVisits(b.relations, a.relations, Visits(b.relations, a.relations, RelationKey))
  }

  method DiffRelation(before: Relation, after: Relation) returns (changes: seq<Change>)
    ensures changes == RelationChanges(before, after)
  {
    hide KeyedChanges, PropertyChanges, PathText;
    var base := RelationPath(RelationKey(before));
    var columns := DiffKeyed(ColumnReporter(base), before.columns, after.columns);
    var constraints := DiffKeyed(ConstraintReporter(base), before.constraints, after.constraints);
    var policies := DiffKeyed(PolicyReporter(base), before.policies, after.policies);
    changes := PropertyChanges(base, before, after) + columns + constraints + policies;
  }

  method DiffRelations(left: seq<Relation>, right: seq<Relation>) returns (changes: seq<Change>)
    ensures changes == RelationVisits(left, right, Visits(left, right, RelationKey))
  {
    hide Visits, PathText, RelationChanges;
    changes := [];
    var keys := Visits(left, right, RelationKey);
    for i := 0 to |keys|
      invariant changes == RelationVisits(left, right, keys[..i])
    {
      assert keys[..i + 1][..i] == keys[..i];
      var x, y := Find(left, RelationKey, keys[i]), Find(right, RelationKey, keys[i]);
      if x.Some? && y.Some? {
        var within := DiffRelation(x.value, y.value);
        changes := changes + within;
      } else if x.Some? || y.Some? {
        changes := changes + [Change(RelationPath(keys[i]), RelationObject, KindOf(x, y), RelationVerdict(x, y), Wrapped(x, WrapRelation), Wrapped(y, WrapRelation))];
      }
    }
    assert keys[..|keys|] == keys;
  }

  // ----- the result -----

  function ChangeRank(k: ChangeKind): nat {
    match k case Removed => 0 case Modified => 1 case Added => 2
  }

  function ChangeKey(c: Change): seq<string> { [c.path, RankText(ChangeRank(c.kind))] }

  function Count(changes: seq<Change>, c: Compatibility): nat {
    if changes == [] then 0 else Count(changes[1..], c) + (if changes[0].compatibility == c then 1 else 0)
  }

  function Summarize(changes: seq<Change>): Summary {
    Summary(|changes|, Count(changes, Compatible), Count(changes, ReviewRequired), Count(changes, Breaking))
  }

  function Overall(s: Summary): Compatibility {
    if s.breaking > 0 then Breaking else if s.reviewRequired > 0 then ReviewRequired else Compatible
  }

  function ChangesOf(b: Snapshot, a: Snapshot): seq<Change> {
    Dedup(Sort(RawChanges(b, a), ChangeKey))
  }

  function DiffOf(before: Snapshot, after: Snapshot, hash: Snapshot -> string): Result<CatalogDiff, CatalogDiffError> {
    match ValidatedNormalized(before, hash)
    case Err(e) => Err(InvalidSource(e))
    case Ok(b) =>
      match ValidatedNormalized(after, hash)
      case Err(e) => Err(InvalidTarget(e))
      case Ok(a) =>
        if b.currentDatabase != a.currentDatabase || b.currentRole != a.currentRole then Err(ContextMismatch)
        else
          var changes := ChangesOf(b, a);
          var summary := Summarize(changes);
          Ok(CatalogDiff(b.fingerprint, a.fingerprint, Overall(summary), summary, changes))
  }

  /** `diff_catalogs`. */
  method DiffCatalogs(before: Snapshot, after: Snapshot, hash: Snapshot -> string) returns (r: Result<CatalogDiff, CatalogDiffError>)
    ensures r == DiffOf(before, after, hash)
  {
    var b :- FailingSource(ValidatedNormalized(before, hash));
    var a :- FailingTarget(ValidatedNormalized(after, hash));
    if b.currentDatabase != a.currentDatabase || b.currentRole != a.currentRole {
      return Err(ContextMismatch);
    }
    var functions := DiffKeyed(FunctionReporter(), b.functions, a.functions);
    var relations := DiffRelations(b.relations, a.relations);
    var changes := ContextChanges(b, a) + functions + relations;
    changes := Dedup(Sort(changes, ChangeKey));
    var summary := Summarize(changes);
    return Ok(CatalogDiff(b.fingerprint, a.fingerprint, Overall(summary), summary, changes));
  }

  function FailingSource(r: Result<Snapshot, CatalogError>): Result<Snapshot, CatalogDiffError> {
    match r case Ok(s) => Ok(s) case Err(e) => Err(InvalidSource(e))
  }

  function FailingTarget(r: Result<Snapshot, CatalogError>): Result<Snapshot, CatalogDiffError> {
    match r case Ok(s) => Ok(s) case Err(e) => Err(InvalidTarget(e))
  }
}
