/** The catalog diff is exact: one change per place where the two catalogs differ, and none anywhere else. */
module CatalogProofs {
  import opened Prelude
  import opened Order
  import opened Catalog

  // ----- paths name places -----

  /** The escaping of one character. */
  function EscapeChar(c: char): string {
    if c == '~' then "~0" else if c == '/' then "~1" else [c]
  }

  lemma {:induction false} ReplaceAppend(s: string, t: string, c: char, with: string)
    ensures ReplaceChar(s + t, c, with) == ReplaceChar(s, c, with) + ReplaceChar(t, c, with)
  {
    if s == "" {
      assert s + t == t;
    } else {
      assert (s + t)[1..] == s[1..] + t;
      ReplaceAppend(s[1..], t, c, with);
    }
  }

  lemma ReplaceOne(c: char, d: char, with: string)
    ensures ReplaceChar([c], d, with) == if c == d then with else [c]
  {
    assert [c][1..] == "";
  }

  /** The two replacements in sequence escape character by character: the second never sees the first's work. */
  lemma SegmentStep(s: string)
    requires s != ""
    ensures PathSegment(s) == EscapeChar(s[0]) + PathSegment(s[1..])
  {
    var first := if s[0] == '~' then "~0" else [s[0]];
    var rest := ReplaceChar(s[1..], '~', "~0");
    ReplaceAppend(first, rest, '/', "~1");
    ReplaceOne(s[0], '/', "~1");
    if s[0] == '~' {
      assert "~0" == ['~'] + ['0'];
      ReplaceAppend(['~'], ['0'], '/', "~1");
      ReplaceOne('~', '/', "~1");
      ReplaceOne('0', '/', "~1");
    }
  }

  /** Decoding as section 4 of RFC 6901 describes it. */
  function Unescape(s: string): string {
    if |s| >= 2 && s[0] == '~' && s[1] == '1' then "/" + Unescape(s[2..])
    else if |s| >= 2 && s[0] == '~' && s[1] == '0' then "~" + Unescape(s[2..])
    else if s == "" then ""
    else [s[0]] + Unescape(s[1..])
  }

  predicate NoSlash(s: string) {
    forall i :: 0 <= i < |s| ==> s[i] != '/'
  }

  /** Escaping is undone exactly by decoding, and leaves no separator in a segment. */
  lemma {:induction false} SegmentRoundTrip(s: string)
    ensures Unescape(PathSegment(s)) == s && NoSlash(PathSegment(s))
  {
    if s != "" {
      SegmentStep(s);
      SegmentRoundTrip(s[1..]);
      var e, rest := EscapeChar(s[0]), PathSegment(s[1..]);
      assert (e + rest)[|e|..] == rest;
      assert [s[0]] + s[1..] == s;
    }
  }

  lemma {:induction false} PlainSegment(s: string)
    requires NoSlash(s) && forall i :: 0 <= i < |s| ==> s[i] != '~'
    ensures PathSegment(s) == s
  {
    if s != "" {
      SegmentStep(s);
      PlainSegment(s[1..]);
    }
  }

  lemma SplitNotShorter(x: string, p: string, y: string, q: string)
    requires NoSlash(y) && (p == "" || p[0] == '/') && x + p == y + q
    ensures |x| >= |y|
  {
    var s := x + p;
    assert forall i :: 0 <= i < |y| ==> s[i] == y[i];
    assert p != "" ==> s[|x|] == '/';
  }

  lemma SplitUnique(x: string, p: string, y: string, q: string)
    requires NoSlash(x) && NoSlash(y) && (p == "" || p[0] == '/') && (q == "" || q[0] == '/') && x + p == y + q
    ensures x == y && p == q
  {
    SplitNotShorter(x, p, y, q);
    SplitNotShorter(y, q, x, p);
    assert x == (x + p)[..|x|] && y == (y + q)[..|y|];
    assert p == (x + p)[|x|..] && q == (y + q)[|y|..];
  }

  lemma PathHead(a: seq<string>)
    ensures a == [] <==> PathText(a) == ""
    ensures a != [] ==> PathText(a)[0] == '/' && PathText(a)[1..] == PathSegment(a[0]) + PathText(a[1..]) && a == [a[0]] + a[1..]
  {
    if a != [] {
      SlashFirst(PathSegment(a[0]), PathText(a[1..]));
    }
  }

  lemma SlashFirst(segment: string, rest: string)
    ensures var s := "/" + segment + rest; s != "" && s[0] == '/' && s[1..] == segment + rest
  {
    assert "/" + segment + rest == "/" + (segment + rest);
  }

  /** Different places have different paths. */
  lemma {:induction false} PathsInjective(a: seq<string>, b: seq<string>)
    requires PathText(a) == PathText(b)
    ensures a == b
  {
    hide PathText, PathSegment, Unescape, NoSlash;
    PathHead(a);
    PathHead(b);
    if a != [] && b != [] {
      SegmentRoundTrip(a[0]);
      SegmentRoundTrip(b[0]);
      PathHead(a[1..]);
      PathHead(b[1..]);
      SplitUnique(PathSegment(a[0]), PathText(a[1..]), PathSegment(b[0]), PathText(b[1..]));
      PathsInjective(a[1..], b[1..]);
    }
  }

  lemma {:induction false} PathAppend(a: seq<string>, b: seq<string>)
    ensures PathText(a + b) == PathText(a) + PathText(b)
  {
    if a == [] {
      assert a + b == b;
    } else {
      assert (a + b)[1..] == a[1..] + b;
      PathAppend(a[1..], b);
    }
  }

  lemma PathOfOne(s: string)
    ensures PathText([s]) == "/" + PathSegment(s)
  {
    assert [s][1..] == [];
    assert PathText([s]) == "/" + PathSegment(s) + "";
  }

  predicate Plain(s: string) {
    '/' !in s && '~' !in s
  }

  lemma PlainPath(s: string)
    requires Plain(s)
    ensures PathText([s]) == "/" + s
  {
    PathOfOne(s);
    PlainSegment(s);
  }

  // ----- what stands at a place before and after -----

  ghost function RelationAt(c: Snapshot, schema: string, name: string): Option<Relation> {
    Find(c.relations, RelationKey, [schema, name])
  }

  ghost function ContextAt(c: Snapshot, name: string): Option<Payload> {
    if name == SERVER_VERSION then Some(NumberValue(c.serverVersionNum))
    else if name == ROLE_CONTEXT then Some(ContextValue(c.roleContext))
    else if name == ROLE_GRAPH then Some(TextValue(c.roleGraphFingerprint))
    else if name == OBJECT_PRIVILEGES then Some(TextValue(c.objectPrivilegeFingerprint))
    else None
  }

  ghost function PropertyAt(r: Relation, name: string): Option<Payload> {
    if name == "kind" then Some(KindValue(r.kind))
    else if name == "owner" then Some(TextValue(r.owner))
    else if name == "view" then Some(ViewValue(r.view))
    else if name == "comment" then Some(CommentValue(r.comment))
    else if name == "grants" then Some(GrantsValue(r.grants))
    else if name == "rls" then Some(RlsValue(r.rls))
    else None
  }

  ghost function PartAt(r: Relation, section: string, key: string): Option<Payload> {
    if section == "columns" then Wrapped(Find(r.columns, ColumnKey, [key]), WrapColumn)
    else if section == "constraints" then Wrapped(Find(r.constraints, ConstraintKey, [key]), WrapConstraint)
    else if section == "policies" then Wrapped(Find(r.policies, PolicyKey, [key]), WrapPolicy)
    else None
  }

  /** Inside a relation that both catalogs have. */
  ghost function WithinAt(r: Relation, place: seq<string>): Option<Payload> {
    if |place| == 1 then PropertyAt(r, place[0])
    else if |place| == 2 then PartAt(r, place[0], place[1])
    else None
  }

  /**
   The value at a place, seen against the other catalog: a relation only one catalog has is
   reported as a whole, one that both have is looked into.
   */
  ghost function ValueAt(c: Snapshot, other: Snapshot, place: seq<string>): Option<Payload> {
    if |place| == 1 then ContextAt(c, place[0])
    else if |place| == 4 && place[0] == "functions" then Wrapped(Find(c.functions, FunctionKey, place[1..]), WrapFunction)
    else if |place| >= 3 && place[0] == "relations" then
      var r, s := RelationAt(c, place[1], place[2]), RelationAt(other, place[1], place[2]);
      if r.Some? && s.Some? then WithinAt(r.value, place[3..])
      else if |place| == 3 then Wrapped(r, WrapRelation)
      else None
    else None
  }

  ghost function PlaceKind(place: seq<string>): ObjectKind {
    if |place| == 1 then ContextObject
    else if |place| == 3 then RelationObject
    else if |place| == 4 then (if place[0] == "functions" then FunctionObject else RelationObject)
    else if |place| == 5 && place[3] == "columns" then ColumnObject
    else if |place| == 5 && place[3] == "constraints" then ConstraintObject
    else PolicyObject
  }

  /** The verdict table. */
  ghost function VerdictAt(place: seq<string>, x: Option<Payload>, y: Option<Payload>): Compatibility {
    if |place| == 1 then (if place[0] == SERVER_VERSION then ReviewRequired else Breaking)
    else if |place| == 3 then (if x.None? then Compatible else Breaking)
    else if |place| == 4 then (if place[0] == "relations" && place[3] == "comment" then ReviewRequired else Breaking)
    else if |place| == 5 && place[3] == "columns" then
      if x.None? then Compatible
      else if y.None? then Breaking
      else if x.value.ColumnValue? && y.value.ColumnValue? then ColumnVerdict(Some(x.value.column), Some(y.value.column))
      else Breaking
    else if |place| == 5 && place[3] == "constraints" then (if x.None? then ReviewRequired else Breaking)
    else Breaking
  }

  /** The change to report at a place: one if the values differ, none otherwise. */
  ghost function ChangeAt(b: Snapshot, a: Snapshot, place: seq<string>): Option<Change> {
    var x, y := ValueAt(b, a, place), ValueAt(a, b, place);
    if x == y then None
    else Some(Change(PathText(place), PlaceKind(place), KindOf(x, y), VerdictAt(place, x, y), x, y))
  }

  // ----- visiting keyed collections -----

  lemma {:induction false} DedupElements<T>(xs: seq<T>, x: T)
    ensures x in Dedup(xs) <==> x in xs
  {
    if |xs| > 1 {
      DedupElements(xs[1..], x);
      assert xs == [xs[0]] + xs[1..];
    }
  }

  lemma OrderedKeysExact<T>(xs: seq<T>, keyOf: T -> seq<string>, key: seq<string>)
    ensures key in OrderedKeys(xs, keyOf) <==> Find(xs, keyOf, key).Some?
  {
    var keys := KeysOf(xs, keyOf);
    DedupElements(Sort(keys, Itself), key);
    SameElements(Sort(keys, Itself), keys, key);
    if key in keys {
      var i :| 0 <= i < |keys| && keys[i] == key;
      assert xs[i] in xs && keyOf(xs[i]) == key;
    }
    if Find(xs, keyOf, key).Some? {
      var i :| 0 <= i < |xs| && xs[i] == Find(xs, keyOf, key).value;
      assert keys[i] == key;
    }
  }

  lemma VisitsExact<T>(left: seq<T>, right: seq<T>, keyOf: T -> seq<string>, key: seq<string>)
    ensures key in Visits(left, right, keyOf) <==> Find(left, keyOf, key).Some? || Find(right, keyOf, key).Some?
  {
    OrderedKeysExact(left, keyOf, key);
    OrderedKeysExact(right, keyOf, key);
  }

  lemma {:induction false} VisitAllExact<T>(rep: Reporter<T>, left: seq<T>, right: seq<T>, keys: seq<seq<string>>, c: Change)
    ensures c in VisitAll(rep, left, right, keys) <==> exists key :: key in keys && c in VisitChanges(rep, left, right, key)
  {
    hide VisitChanges;
    if keys != [] {
      var n := |keys| - 1;
      VisitAllExact(rep, left, right, keys[..n], c);
      assert keys == keys[..n] + [keys[n]];
    }
  }

  /** Although shared keys are visited twice, what is pushed is exactly what differs. */
  lemma KeyedExact<T>(rep: Reporter<T>, left: seq<T>, right: seq<T>, c: Change)
    ensures c in KeyedChanges(rep, left, right) <==> exists key :: c in VisitChanges(rep, left, right, key)
  {
    var keys := Visits(left, right, rep.keyOf);
    VisitAllExact(rep, left, right, keys, c);
    if key :| c in VisitChanges(rep, left, right, key) {
      VisitsExact(left, right, rep.keyOf, key);
    }
  }

  lemma {:induction false} RelationVisitsExact(left: seq<Relation>, right: seq<Relation>, keys: seq<seq<string>>, c: Change)
    ensures c in RelationVisits(left, right, keys) <==> exists key :: key in keys && c in RelationVisit(left, right, key)
  {
    hide RelationVisit;
    if keys != [] {
      var n := |keys| - 1;
      RelationVisitsExact(left, right, keys[..n], c);
      assert keys == keys[..n] + [keys[n]];
    }
  }

  // ----- every push is the change at a place, and every such change is pushed -----

  predicate ContextName(name: string) {
    name in {SERVER_VERSION, ROLE_CONTEXT, ROLE_GRAPH, OBJECT_PRIVILEGES}
  }

  lemma ContextOne(b: Snapshot, a: Snapshot, name: string, verdict: Compatibility, x: Payload, y: Payload, c: Change)
    requires ContextAt(b, name) == Some(x) && ContextAt(a, name) == Some(y) && PathText([name]) == "/" + name
    requires verdict == if name == SERVER_VERSION then ReviewRequired else Breaking
    ensures c in Modification("/" + name, ContextObject, verdict, x, y) <==> ChangeAt(b, a, [name]) == Some(c)
  {
    hide PathText, ContextAt;
  }

  lemma ContextParts(b: Snapshot, a: Snapshot, c: Change)
    ensures c in Modification("/" + SERVER_VERSION, ContextObject, ReviewRequired, NumberValue(b.serverVersionNum), NumberValue(a.serverVersionNum))
        <==> ChangeAt(b, a, [SERVER_VERSION]) == Some(c)
    ensures c in Modification("/" + ROLE_CONTEXT, ContextObject, Breaking, ContextValue(b.roleContext), ContextValue(a.roleContext))
        <==> ChangeAt(b, a, [ROLE_CONTEXT]) == Some(c)
    ensures c in Modification("/" + ROLE_GRAPH, ContextObject, Breaking, TextValue(b.roleGraphFingerprint), TextValue(a.roleGraphFingerprint))
        <==> ChangeAt(b, a, [ROLE_GRAPH]) == Some(c)
    ensures c in Modification("/" + OBJECT_PRIVILEGES, ContextObject, Breaking, TextValue(b.objectPrivilegeFingerprint), TextValue(a.objectPrivilegeFingerprint))
        <==> ChangeAt(b, a, [OBJECT_PRIVILEGES]) == Some(c)
  {
    ContextNames();
    hide PathText, Plain, Modification, ChangeAt;
    PlainPath(SERVER_VERSION);
    PlainPath(ROLE_CONTEXT);
    PlainPath(ROLE_GRAPH);
    PlainPath(OBJECT_PRIVILEGES);
    ContextOne(b, a, SERVER_VERSION, ReviewRequired, NumberValue(b.serverVersionNum), NumberValue(a.serverVersionNum), c);
    ContextOne(b, a, ROLE_CONTEXT, Breaking, ContextValue(b.roleContext), ContextValue(a.roleContext), c);
    ContextOne(b, a, ROLE_GRAPH, Breaking, TextValue(b.roleGraphFingerprint), TextValue(a.roleGraphFingerprint), c);
    ContextOne(b, a, OBJECT_PRIVILEGES, Breaking, TextValue(b.objectPrivilegeFingerprint), TextValue(a.objectPrivilegeFingerprint), c);
  }

  lemma ContextExact(b: Snapshot, a: Snapshot, c: Change)
    ensures c in ContextChanges(b, a) <==> exists name: string :: ChangeAt(b, a, [name]) == Some(c)
  {
    hide Modification, ChangeAt;
    ContextParts(b, a, c);
    if name: string :| ChangeAt(b, a, [name]) == Some(c) {
      OnlyContextNames(b, a, name);
    }
  }

  lemma OnlyContextNames(b: Snapshot, a: Snapshot, name: string)
    requires ChangeAt(b, a, [name]).Some?
    ensures ContextName(name)
  {
    hide PathText;
  }

  lemma ContextNames()
    ensures forall name :: ContextName(name) ==> Plain(name)
  {
  }

  lemma FunctionsExact(b: Snapshot, a: Snapshot, c: Change)
    ensures c in KeyedChanges(FunctionReporter(), b.functions, a.functions)
        <==> exists key: seq<string> :: |key| == 3 && ChangeAt(b, a, ["functions"] + key) == Some(c)
  {
    hide PathText, KeyedChanges;
    KeyedExact(FunctionReporter(), b.functions, a.functions, c);
    forall key: seq<string>
      ensures c in VisitChanges(FunctionReporter(), b.functions, a.functions, key) <==> |key| == 3 && ChangeAt(b, a, ["functions"] + key) == Some(c)
    {
      FunctionPlace(key);
      assert (["functions"] + key)[1..] == key;
    }
  }

  lemma FunctionPlace(key: seq<string>)
    ensures PathText(["functions"] + key) == "/functions" + PathText(key)
  {
    hide PathText;
    PathAppend(["functions"], key);
    PlainPath("functions");
  }

  // ----- inside a relation that both catalogs have -----

  ghost function WithinChange(r: Relation, s: Relation, suffix: seq<string>): Option<Change> {
    var place := ["relations", r.schema, r.name] + suffix;
    var x, y := WithinAt(r, suffix), WithinAt(s, suffix);
    if x == y then None
    else Some(Change(PathText(place), PlaceKind(place), KindOf(x, y), VerdictAt(place, x, y), x, y))
  }

  lemma RelationPlace(schema: string, name: string, suffix: seq<string>)
    ensures PathText(["relations", schema, name] + suffix) == RelationPath([schema, name]) + PathText(suffix)
  {
    hide PathText;
    PathAppend(["relations"], [schema, name]);
    PathAppend(["relations", schema, name], suffix);
    PlainPath("relations");
    assert ["relations"] + [schema, name] == ["relations", schema, name];
  }

  lemma PropertyOne(r: Relation, s: Relation, name: string, path: string, verdict: Compatibility, x: Payload, y: Payload, c: Change)
    requires PropertyAt(r, name) == Some(x) && PropertyAt(s, name) == Some(y) && Plain(name)
    requires path == RelationPath(RelationKey(r)) + ("/" + name)
    requires verdict == if name == "comment" then ReviewRequired else Breaking
    ensures c in Modification(path, RelationObject, verdict, x, y) <==> WithinChange(r, s, [name]) == Some(c)
  {
    hide PathText, PropertyAt;
    RelationPlace(r.schema, r.name, [name]);
    PlainPath(name);
    var place := ["relations", r.schema, r.name] + [name];
    assert |place| == 4 && place[3] == name;
  }

  predicate PropertyName(name: string) {
    name in {"kind", "owner", "view", "comment", "grants", "rls"}
  }

  lemma PropertyNames()
    ensures forall name :: PropertyName(name) ==> Plain(name)
  {
  }

  lemma OnlyPropertyNames(r: Relation, s: Relation, name: string)
    requires WithinChange(r, s, [name]).Some?
    ensures PropertyName(name)
  {
    hide PathText;
  }

  lemma PropertiesExact(r: Relation, s: Relation, c: Change)
    ensures c in PropertyChanges(RelationPath(RelationKey(r)), r, s) <==> exists name: string :: WithinChange(r, s, [name]) == Some(c)
  {
    hide PathText, Plain, Modification, WithinChange, RelationPath;
    var base := RelationPath(RelationKey(r));
    PropertyNames();
    assert "/" + "kind" == "/kind" && "/" + "owner" == "/owner" && "/" + "view" == "/view";
    assert "/" + "comment" == "/comment" && "/" + "grants" == "/grants" && "/" + "rls" == "/rls";
    PropertyOne(r, s, "kind", base + "/kind", Breaking, KindValue(r.kind), KindValue(s.kind), c);
    PropertyOne(r, s, "owner", base + "/owner", Breaking, TextValue(r.owner), TextValue(s.owner), c);
    PropertyOne(r, s, "view", base + "/view", Breaking, ViewValue(r.view), ViewValue(s.view), c);
    PropertyOne(r, s, "comment", base + "/comment", ReviewRequired, CommentValue(r.comment), CommentValue(s.comment), c);
    PropertyOne(r, s, "grants", base + "/grants", Breaking, GrantsValue(r.grants), GrantsValue(s.grants), c);
    PropertyOne(r, s, "rls", base + "/rls", Breaking, RlsValue(r.rls), RlsValue(s.rls), c);
    if name: string :| WithinChange(r, s, [name]) == Some(c) {
      OnlyPropertyNames(r, s, name);
    }
  }

  lemma PartPlace(r: Relation, section: string, key: seq<string>)
    requires Plain(section)
    ensures PathText(["relations", r.schema, r.name] + ([section] + key)) == RelationPath(RelationKey(r)) + ("/" + section) + PathText(key)
  {
    hide PathText, Plain;
    RelationPlace(r.schema, r.name, [section] + key);
    PathAppend([section], key);
    PlainPath(section);
  }

  lemma ColumnsExact(r: Relation, s: Relation, c: Change)
    ensures c in KeyedChanges(ColumnReporter(RelationPath(RelationKey(r))), r.columns, s.columns)
        <==> exists name: string :: WithinChange(r, s, ["columns", name]) == Some(c)
  {
    hide PathText, KeyedChanges, RelationPath;
    var rep := ColumnReporter(RelationPath(RelationKey(r)));
    KeyedExact(rep, r.columns, s.columns, c);
    if key :| c in VisitChanges(rep, r.columns, s.columns, key) {
      assert key == [key[0]];
      ColumnVisit(r, s, key[0], c);
    }
    if name: string :| WithinChange(r, s, ["columns", name]) == Some(c) {
      ColumnVisit(r, s, name, c);
    }
  }

  lemma ColumnVisit(r: Relation, s: Relation, name: string, c: Change)
    ensures c in VisitChanges(ColumnReporter(RelationPath(RelationKey(r))), r.columns, s.columns, [name])
        <==> WithinChange(r, s, ["columns", name]) == Some(c)
  {
    hide PathText, RelationPath;
    PartPlace(r, "columns", [name]);
    assert ["columns"] + [name] == ["columns", name] && "/" + "columns" == "/columns";
    var place := ["relations", r.schema, r.name] + ["columns", name];
    assert |place| == 5 && place[3] == "columns";
  }

  lemma ConstraintsExact(r: Relation, s: Relation, c: Change)
    ensures c in KeyedChanges(ConstraintReporter(RelationPath(RelationKey(r))), r.constraints, s.constraints)
        <==> exists name: string :: WithinChange(r, s, ["constraints", name]) == Some(c)
  {
    hide PathText, KeyedChanges, RelationPath;
    var rep := ConstraintReporter(RelationPath(RelationKey(r)));
    KeyedExact(rep, r.constraints, s.constraints, c);
    if key :| c in VisitChanges(rep, r.constraints, s.constraints, key) {
      assert key == [key[0]];
      ConstraintVisit(r, s, key[0], c);
    }
    if name: string :| WithinChange(r, s, ["constraints", name]) == Some(c) {
      ConstraintVisit(r, s, name, c);
    }
  }

  lemma ConstraintVisit(r: Relation, s: Relation, name: string, c: Change)
    ensures c in VisitChanges(ConstraintReporter(RelationPath(RelationKey(r))), r.constraints, s.constraints, [name])
        <==> WithinChange(r, s, ["constraints", name]) == Some(c)
  {
    hide PathText, RelationPath;
    PartPlace(r, "constraints", [name]);
    assert ["constraints"] + [name] == ["constraints", name] && "/" + "constraints" == "/constraints";
    var place := ["relations", r.schema, r.name] + ["constraints", name];
    assert |place| == 5 && place[3] == "constraints";
  }

  lemma PoliciesExact(r: Relation, s: Relation, c: Change)
    ensures c in KeyedChanges(PolicyReporter(RelationPath(RelationKey(r))), r.policies, s.policies)
        <==> exists name: string :: WithinChange(r, s, ["policies", name]) == Some(c)
  {
    hide PathText, KeyedChanges, RelationPath;
    var rep := PolicyReporter(RelationPath(RelationKey(r)));
    KeyedExact(rep, r.policies, s.policies, c);
    if key :| c in VisitChanges(rep, r.policies, s.policies, key) {
      assert key == [key[0]];
      PolicyVisit(r, s, key[0], c);
    }
    if name: string :| WithinChange(r, s, ["policies", name]) == Some(c) {
      PolicyVisit(r, s, name, c);
    }
  }

  lemma PolicyVisit(r: Relation, s: Relation, name: string, c: Change)
    ensures c in VisitChanges(PolicyReporter(RelationPath(RelationKey(r))), r.policies, s.policies, [name])
        <==> WithinChange(r, s, ["policies", name]) == Some(c)
  {
    hide PathText, RelationPath;
    PartPlace(r, "policies", [name]);
    assert ["policies"] + [name] == ["policies", name] && "/" + "policies" == "/policies";
    var place := ["relations", r.schema, r.name] + ["policies", name];
    assert |place| == 5 && place[3] == "policies";
  }

  lemma WithinShape(r: Relation, s: Relation, suffix: seq<string>)
    requires WithinChange(r, s, suffix).Some?
    ensures |suffix| == 1 || |suffix| == 2
    ensures |suffix| == 1 ==> suffix == [suffix[0]]
    ensures |suffix| == 2 ==> suffix == [suffix[0], suffix[1]] && suffix[0] in {"columns", "constraints", "policies"}
  {
    hide PathText;
  }

  /** `diff_relation` reports exactly what differs inside. */
  lemma WithinExact(r: Relation, s: Relation, c: Change)
    ensures c in RelationChanges(r, s) <==> exists suffix :: WithinChange(r, s, suffix) == Some(c)
  {
    hide PropertyChanges, KeyedChanges, WithinChange, RelationPath;
    PropertiesExact(r, s, c);
    ColumnsExact(r, s, c);
    ConstraintsExact(r, s, c);
    PoliciesExact(r, s, c);
    if suffix :| WithinChange(r, s, suffix) == Some(c) {
      WithinShape(r, s, suffix);
    }
  }

  // ----- all relations -----

  lemma BothHave(b: Snapshot, a: Snapshot, schema: string, name: string, suffix: seq<string>)
    requires RelationAt(b, schema, name).Some? && RelationAt(a, schema, name).Some?
    ensures ChangeAt(b, a, ["relations", schema, name] + suffix)
         == WithinChange(RelationAt(b, schema, name).value, RelationAt(a, schema, name).value, suffix)
  {
    hide PathText, PlaceKind, VerdictAt, WithinAt;
    var place := ["relations", schema, name] + suffix;
    assert place[1] == schema && place[2] == name && place[3..] == suffix && |place| >= 3 && place[0] == "relations";
    assert place[0] != "functions";
  }

  lemma OneHas(b: Snapshot, a: Snapshot, schema: string, name: string, suffix: seq<string>)
    requires RelationAt(b, schema, name).None? || RelationAt(a, schema, name).None?
    ensures var x, y := RelationAt(b, schema, name), RelationAt(a, schema, name);
      ChangeAt(b, a, ["relations", schema, name] + suffix)
      == if suffix != [] || x == y then None
         else Some(Change(RelationPath([schema, name]), RelationObject, KindOf(x, y), RelationVerdict(x, y), Wrapped(x, WrapRelation), Wrapped(y, WrapRelation)))
  {
    hide PathText, RelationPath, WithinAt;
    RelationPlace(schema, name, suffix);
    var place := ["relations", schema, name] + suffix;
    assert place[1] == schema && place[2] == name && place[0] == "relations" && place[0] != "functions";
    if suffix == [] {
      PathOfNone();
      assert place == ["relations", schema, name];
      assert RelationPath([schema, name]) + "" == RelationPath([schema, name]);
    }
  }

  lemma PathOfNone()
    ensures PathText([]) == ""
  {
  }

  lemma RelationVisitExact(b: Snapshot, a: Snapshot, schema: string, name: string, c: Change)
    ensures c in RelationVisit(b.relations, a.relations, [schema, name])
        <==> exists suffix: seq<string> :: ChangeAt(b, a, ["relations", schema, name] + suffix) == Some(c)
  {
    hide PathText, RelationPath, RelationChanges, ChangeAt, WithinChange;
    var x, y := RelationAt(b, schema, name), RelationAt(a, schema, name);
    if x.Some? && y.Some? {
      WithinExact(x.value, y.value, c);
      forall suffix: seq<string>
        ensures ChangeAt(b, a, ["relations", schema, name] + suffix) == WithinChange(x.value, y.value, suffix)
      {
        BothHave(b, a, schema, name, suffix);
      }
    } else {
      forall suffix: seq<string>
        ensures ChangeAt(b, a, ["relations", schema, name] + suffix) == Some(c) <==>
          suffix == [] && x != y
          && c == Change(RelationPath([schema, name]), RelationObject, KindOf(x, y), RelationVerdict(x, y), Wrapped(x, WrapRelation), Wrapped(y, WrapRelation))
      {
        OneHas(b, a, schema, name, suffix);
      }
      assert c in RelationVisit(b.relations, a.relations, [schema, name]) <==> ChangeAt(b, a, ["relations", schema, name] + []) == Some(c);
    }
  }

  lemma RelationsExact(b: Snapshot, a: Snapshot, c: Change)
    ensures c in RelationVisits(b.relations, a.relations, Visits(b.relations, a.relations, RelationKey))
        <==> exists schema: string, name: string, suffix: seq<string> :: ChangeAt(b, a, ["relations", schema, name] + suffix) == Some(c)
  {
    hide PathText, ChangeAt, RelationVisits, Visits, RelationChanges;
    var keys := Visits(b.relations, a.relations, RelationKey);
    RelationVisitsExact(b.relations, a.relations, keys, c);
    if key :| key in keys && c in RelationVisit(b.relations, a.relations, key) {
      VisitsExact(b.relations, a.relations, RelationKey, key);
      assert key == [key[0], key[1]];
      RelationVisitExact(b, a, key[0], key[1], c);
    }
    if schema: string, name: string, suffix: seq<string> :| ChangeAt(b, a, ["relations", schema, name] + suffix) == Some(c) {
      RelationVisitExact(b, a, schema, name, c);
      VisitsExact(b.relations, a.relations, RelationKey, [schema, name]);
    }
  }

  lemma PlaceShape(b: Snapshot, a: Snapshot, place: seq<string>)
    requires ChangeAt(b, a, place).Some?
    ensures |place| == 1 || (|place| == 4 && place[0] == "functions") || (|place| >= 3 && place[0] == "relations")
    ensures |place| == 1 ==> place == [place[0]]
    ensures |place| == 4 && place[0] == "functions" ==> place == ["functions"] + place[1..]
    ensures |place| >= 3 && place[0] == "relations" ==> place == ["relations", place[1], place[2]] + place[3..]
  {
    hide PathText;
  }

  /** The places of a change, by section. */
  lemma PlacesSplit(b: Snapshot, a: Snapshot, c: Change)
    ensures (exists place :: ChangeAt(b, a, place) == Some(c)) <==>
      || (exists name: string :: ChangeAt(b, a, [name]) == Some(c))
      || (exists key: seq<string> :: |key| == 3 && ChangeAt(b, a, ["functions"] + key) == Some(c))
      || (exists schema: string, name: string, suffix: seq<string> :: ChangeAt(b, a, ["relations", schema, name] + suffix) == Some(c))
  {
    hide ChangeAt;
    if place :| ChangeAt(b, a, place) == Some(c) {
      PlaceShape(b, a, place);
    }
  }

  /** What the loops push is exactly the change at every place where the catalogs differ. */
  lemma RawExact(b: Snapshot, a: Snapshot, c: Change)
    ensures c in RawChanges(b, a) <==> exists place :: ChangeAt(b, a, place) == Some(c)
  {
    hide ContextChanges, KeyedChanges, RelationVisits, ChangeAt, Visits;
    ContextExact(b, a, c);
    FunctionsExact(b, a, c);
    RelationsExact(b, a, c);
    PlacesSplit(b, a, c);
  }

  // ----- sorting and removing duplicates -----

  /** Once equal elements are adjacent, each remains once. */
  lemma {:induction false} DedupUnique<T>(xs: seq<T>, key: T -> seq<string>)
    requires Sorted(xs, key) && forall x, y :: x in xs && y in xs && key(x) == key(y) ==> x == y
    ensures UniqueKeys(Dedup(xs), key)
  {
    if |xs| > 1 {
      DedupUnique(xs[1..], key);
      if xs[0] != xs[1] {
        var rest := Dedup(xs[1..]);
        forall j | 0 <= j < |rest|
          ensures key(rest[j]) != key(xs[0])
        {
          DedupElements(xs[1..], rest[j]);
          var k :| 1 <= k < |xs| && xs[k] == rest[j];
          if key(xs[k]) == key(xs[0]) {
            assert xs[k] == xs[0];
            BetweenEqual(xs, key, k);
            assert false;
          }
        }
      }
    }
  }

  lemma BetweenEqual<T>(xs: seq<T>, key: T -> seq<string>, k: nat)
    requires Sorted(xs, key) && forall x, y :: x in xs && y in xs && key(x) == key(y) ==> x == y
    requires 1 <= k < |xs| && xs[k] == xs[0]
    ensures xs[1] == xs[0]
  {
    if k > 1 {
      KeyTotal(key(xs[0]), key(xs[1]));
      assert KeyLeq(key(xs[1]), key(xs[k]));
    }
  }

  lemma ResultElements(b: Snapshot, a: Snapshot, c: Change)
    ensures c in ChangesOf(b, a) <==> c in RawChanges(b, a)
  {
    var raw := RawChanges(b, a);
    DedupElements(Sort(raw, ChangeKey), c);
    SameElements(Sort(raw, ChangeKey), raw, c);
  }

  lemma SamePathSameChange(b: Snapshot, a: Snapshot, c: Change, d: Change)
    requires c in RawChanges(b, a) && d in RawChanges(b, a) && c.path == d.path
    ensures c == d
  {
    hide RawChanges;
    RawExact(b, a, c);
    RawExact(b, a, d);
    var p :| ChangeAt(b, a, p) == Some(c);
    var q :| ChangeAt(b, a, q) == Some(d);
    PathsInjective(p, q);
  }

  lemma ResultPathsUnique(b: Snapshot, a: Snapshot)
    ensures forall i, j :: 0 <= i < j < |ChangesOf(b, a)| ==> ChangesOf(b, a)[i].path != ChangesOf(b, a)[j].path
  {
    hide RawChanges;
    var raw, result := RawChanges(b, a), ChangesOf(b, a);
    var sorted := Sort(raw, ChangeKey);
    SortSorts(raw, ChangeKey);
    forall c, d | c in sorted && d in sorted && ChangeKey(c) == ChangeKey(d)
      ensures c == d
    {
      SameElements(sorted, raw, c);
      SameElements(sorted, raw, d);
      assert ChangeKey(c)[0] == c.path && ChangeKey(d)[0] == d.path;
      SamePathSameChange(b, a, c, d);
    }
    DedupUnique(sorted, ChangeKey);
    forall i, j | 0 <= i < j < |result|
      ensures result[i].path != result[j].path
    {
      ResultElements(b, a, result[i]);
      ResultElements(b, a, result[j]);
      if result[i].path == result[j].path {
        SamePathSameChange(b, a, result[i], result[j]);
        assert false;
      }
    }
  }

  /**
   The diff is exact. Every reported change is the change at the one place its path names, every place where the
   catalogs differ is reported, and no path is reported twice.
   */
  lemma CatalogDiffExact(b: Snapshot, a: Snapshot)
    ensures forall c :: c in ChangesOf(b, a) <==> exists place :: ChangeAt(b, a, place) == Some(c)
    ensures forall i, j :: 0 <= i < j < |ChangesOf(b, a)| ==> ChangesOf(b, a)[i].path != ChangesOf(b, a)[j].path
    ensures forall place :: (exists c :: c in ChangesOf(b, a) && c.path == PathText(place)) <==> ValueAt(b, a, place) != ValueAt(a, b, place)
  {
    hide RawChanges, ChangesOf;
    ResultPathsUnique(b, a);
    forall c
      ensures c in ChangesOf(b, a) <==> exists place :: ChangeAt(b, a, place) == Some(c)
    {
      ResultElements(b, a, c);
      RawExact(b, a, c);
    }
    forall place
      ensures (exists c :: c in ChangesOf(b, a) && c.path == PathText(place)) <==> ValueAt(b, a, place) != ValueAt(a, b, place)
    {
      if c :| c in ChangesOf(b, a) && c.path == PathText(place) {
        var p :| ChangeAt(b, a, p) == Some(c);
        PathsInjective(p, place);
      }
      if ValueAt(b, a, place) != ValueAt(a, b, place) {
        var c := ChangeAt(b, a, place).value;
        assert ChangeAt(b, a, place) == Some(c);
        assert c in ChangesOf(b, a) && c.path == PathText(place);
      }
    }
  }

  /** The three counts add up to the total, and each is positive exactly if there is such a change. */
  lemma {:induction false} CountsAddUp(changes: seq<Change>)
    ensures Count(changes, Compatible) + Count(changes, ReviewRequired) + Count(changes, Breaking) == |changes|
    ensures forall k :: Count(changes, k) > 0 <==> exists c :: c in changes && c.compatibility == k
  {
    if changes != [] {
      CountsAddUp(changes[1..]);
      assert changes == [changes[0]] + changes[1..];
    }
  }

  // ----- no change means the same canonical form -----

  lemma FindUnique<T>(xs: seq<T>, keyOf: T -> seq<string>, x: T)
    requires UniqueKeys(xs, keyOf) && x in xs
    ensures Find(xs, keyOf, keyOf(x)) == Some(x)
  {
    var r := Find(xs, keyOf, keyOf(x));
    var i :| 0 <= i < |xs| && xs[i] == x;
    var j :| 0 <= j < |xs| && xs[j] == r.value;
  }

  lemma BagOf<T>(xs: seq<T>, keyOf: T -> seq<string>, x: T)
    requires UniqueKeys(xs, keyOf)
    ensures multiset(xs)[x] == if x in xs then 1 else 0
  {
    if x in xs {
      var i :| 0 <= i < |xs| && xs[i] == x;
      OccursOnce(xs, i, keyOf);
    } else {
      assert x !in multiset(xs);
    }
  }

  /** Two sorted collections with unique keys that agree under every key are the same. */
  lemma SameUnderEveryKey<T>(xs: seq<T>, ys: seq<T>, keyOf: T -> seq<string>, order: T -> seq<string>)
    requires UniqueKeys(xs, keyOf) && UniqueKeys(ys, keyOf) && Sorted(xs, order) && Sorted(ys, order)
    requires forall x, y :: x in xs && y in xs && order(x) == order(y) ==> keyOf(x) == keyOf(y)
    requires forall key :: Find(xs, keyOf, key) == Find(ys, keyOf, key)
    ensures xs == ys
  {
    forall x
      ensures multiset(xs)[x] == multiset(ys)[x]
    {
      BagOf(xs, keyOf, x);
      BagOf(ys, keyOf, x);
      if x in xs {
        FindUnique(xs, keyOf, x);
        assert Find(ys, keyOf, keyOf(x)) == Some(x);
      } else if x in ys {
        FindUnique(ys, keyOf, x);
      }
    }
    assert multiset(xs) == multiset(ys);
    assert UniqueKeys(xs, order);
    SortedUnique(xs, ys, order);
  }

  ghost predicate UniqueRelation(r: Relation) {
    UniqueKeys(r.columns, ColumnKey) && UniqueKeys(r.constraints, ConstraintKey) && UniqueKeys(r.policies, PolicyKey)
  }

  /** Names are unique, as PostgreSQL guarantees of a captured catalog. */
  ghost predicate UniqueCatalog(c: Snapshot) {
    && UniqueKeys(c.functions, FunctionKey) && UniqueKeys(c.relations, RelationKey)
    && forall i :: 0 <= i < |c.relations| ==> UniqueRelation(c.relations[i])
  }

  ghost predicate CanonicalRelation(r: Relation) {
    && UniqueRelation(r)
    && Sorted(r.columns, ColumnOrder) && Sorted(r.constraints, ConstraintOrder) && Sorted(r.policies, PolicyOrder)
  }

  ghost predicate CanonicalCatalog(c: Snapshot) {
    && UniqueKeys(c.functions, FunctionKey) && Sorted(c.functions, FunctionKey)
    && UniqueKeys(c.relations, RelationKey) && Sorted(c.relations, RelationOrder)
    && forall r :: r in c.relations ==> CanonicalRelation(r)
  }

  lemma MappedUnique<T>(xs: seq<T>, f: T -> T, key: T -> seq<string>)
    requires UniqueKeys(xs, key) && forall x :: x in xs ==> key(f(x)) == key(x)
    ensures UniqueKeys(Mapped(xs, f), key)
  {
    var ys := Mapped(xs, f);
    forall i, j | 0 <= i < j < |ys|
      ensures key(ys[i]) != key(ys[j])
    {
      assert key(ys[i]) == key(xs[i]) && key(ys[j]) == key(xs[j]);
    }
  }

  lemma NormalRelation(r: Relation)
    requires UniqueRelation(r)
    ensures CanonicalRelation(NormalizedRelation(r))
  {
    hide UniqueKeys, Sorted, NormalizedView;
    SortSorts(r.columns, ColumnOrder);
    SortSorts(r.constraints, ConstraintOrder);
    var policies := Mapped(r.policies, NormalizedPolicy);
    SortSorts(policies, PolicyOrder);
    MappedUnique(r.policies, NormalizedPolicy, PolicyKey);
    SortKeepsUnique(r.columns, Sort(r.columns, ColumnOrder), ColumnKey);
    SortKeepsUnique(r.constraints, Sort(r.constraints, ConstraintOrder), ConstraintKey);
    SortKeepsUnique(policies, Sort(policies, PolicyOrder), PolicyKey);
  }

  lemma NormalFunctions(fs: seq<Function>)
    requires UniqueKeys(fs, FunctionKey)
    ensures var ns := Sort(Mapped(fs, NormalizedFunction), FunctionKey); UniqueKeys(ns, FunctionKey) && Sorted(ns, FunctionKey)
  {
    hide UniqueKeys, Sorted, Sort;
    var functions := Mapped(fs, NormalizedFunction);
    SortSorts(functions, FunctionKey);
    MappedUnique(fs, NormalizedFunction, FunctionKey);
    SortKeepsUnique(functions, Sort(functions, FunctionKey), FunctionKey);
  }

  lemma NormalRelations(rs: seq<Relation>)
    requires UniqueKeys(rs, RelationKey) && forall i :: 0 <= i < |rs| ==> UniqueRelation(rs[i])
    ensures var ns := Sort(Mapped(rs, NormalizedRelation), RelationOrder);
      UniqueKeys(ns, RelationKey) && Sorted(ns, RelationOrder) && forall r :: r in ns ==> CanonicalRelation(r)
  {
    hide UniqueKeys, Sorted, Sort, CanonicalRelation, UniqueRelation;
    var relations := Mapped(rs, NormalizedRelation);
    var ns := Sort(relations, RelationOrder);
    SortSorts(relations, RelationOrder);
    MappedUnique(rs, NormalizedRelation, RelationKey);
    SortKeepsUnique(relations, ns, RelationKey);
    hide NormalizedRelation;
    forall r | r in ns
      ensures CanonicalRelation(r)
    {
      SameElements(ns, relations, r);
      var i :| 0 <= i < |relations| && relations[i] == r;
      NormalRelation(rs[i]);
    }
  }

  lemma NormalIsCanonical(c: Snapshot)
    requires UniqueCatalog(c)
    ensures CanonicalCatalog(Normalized(c))
  {
    hide UniqueKeys, Sorted, Sort, CanonicalRelation, UniqueRelation, NormalizedContext, NormalizedRelation, NormalizedFunction;
    NormalFunctions(c.functions);
    NormalRelations(c.relations);
  }

  /** Relations under the same key that agree at every place inside are the same. */
  lemma SameInside(r: Relation, s: Relation)
    requires RelationKey(r) == RelationKey(s) && CanonicalRelation(r) && CanonicalRelation(s)
    requires forall suffix :: WithinAt(r, suffix) == WithinAt(s, suffix)
    ensures r == s
  {
    hide UniqueKeys, Sorted;
    assert RelationKey(r)[0] == r.schema && RelationKey(r)[1] == r.name && RelationKey(s)[0] == s.schema && RelationKey(s)[1] == s.name;
    assert WithinAt(r, ["kind"]) == WithinAt(s, ["kind"]) && WithinAt(r, ["owner"]) == WithinAt(s, ["owner"]);
    assert WithinAt(r, ["view"]) == WithinAt(s, ["view"]) && WithinAt(r, ["comment"]) == WithinAt(s, ["comment"]);
    assert WithinAt(r, ["grants"]) == WithinAt(s, ["grants"]) && WithinAt(r, ["rls"]) == WithinAt(s, ["rls"]);
    SameColumns(r, s);
    SameConstraints(r, s);
    SamePolicies(r, s);
  }

  lemma SameColumns(r: Relation, s: Relation)
    requires CanonicalRelation(r) && CanonicalRelation(s)
    requires forall suffix :: WithinAt(r, suffix) == WithinAt(s, suffix)
    ensures r.columns == s.columns
  {
    forall key
      ensures Find(r.columns, ColumnKey, key) == Find(s.columns, ColumnKey, key)
    {
      if |key| == 1 {
        assert WithinAt(r, ["columns", key[0]]) == WithinAt(s, ["columns", key[0]]);
        assert key == [key[0]];
      }
    }
    forall x, y | ColumnOrder(x) == ColumnOrder(y)
      ensures ColumnKey(x) == ColumnKey(y)
    {
      assert ColumnOrder(x)[1] == ColumnOrder(y)[1];
    }
    SameUnderEveryKey(r.columns, s.columns, ColumnKey, ColumnOrder);
  }

  lemma SameConstraintAt(r: Relation, s: Relation, key: seq<string>)
    requires forall suffix :: WithinAt(r, suffix) == WithinAt(s, suffix)
    ensures Find(r.constraints, ConstraintKey, key) == Find(s.constraints, ConstraintKey, key)
  {
    hide ConstraintKey;
    if |key| == 1 {
      assert WithinAt(r, ["constraints", key[0]]) == WithinAt(s, ["constraints", key[0]]);
      assert key == [key[0]];
    } else {
      NoSuchConstraint(r.constraints, key);
      NoSuchConstraint(s.constraints, key);
    }
  }

  lemma NoSuchConstraint(cs: seq<Constraint>, key: seq<string>)
    requires |key| != 1
    ensures Find(cs, ConstraintKey, key).None?
  {
  }

  lemma SameConstraints(r: Relation, s: Relation)
    requires CanonicalRelation(r) && CanonicalRelation(s)
    requires forall suffix :: WithinAt(r, suffix) == WithinAt(s, suffix)
    ensures r.constraints == s.constraints
  {
    hide WithinAt, ConstraintKey, ConstraintOrder, UniqueKeys, Sorted;
    forall key
      ensures Find(r.constraints, ConstraintKey, key) == Find(s.constraints, ConstraintKey, key)
    {
      SameConstraintAt(r, s, key);
    }
    forall x, y | ConstraintOrder(x) == ConstraintOrder(y)
      ensures ConstraintKey(x) == ConstraintKey(y)
    {
      ConstraintOrderTells(x, y);
    }
    SameUnderEveryKey(r.constraints, s.constraints, ConstraintKey, ConstraintOrder);
  }

  lemma ConstraintOrderTells(x: Constraint, y: Constraint)
    requires ConstraintOrder(x) == ConstraintOrder(y)
    ensures ConstraintKey(x) == ConstraintKey(y)
  {
    assert ConstraintOrder(x)[0] == ConstraintOrder(y)[0] && ConstraintOrder(x)[1] == ConstraintOrder(y)[1];
    assert RankText(KindRank(x.kind))[0] == RankText(KindRank(y.kind))[0];
  }

  lemma SamePolicies(r: Relation, s: Relation)
    requires CanonicalRelation(r) && CanonicalRelation(s)
    requires forall suffix :: WithinAt(r, suffix) == WithinAt(s, suffix)
    ensures r.policies == s.policies
  {
    forall key
      ensures Find(r.policies, PolicyKey, key) == Find(s.policies, PolicyKey, key)
    {
      if |key| == 1 {
        assert WithinAt(r, ["policies", key[0]]) == WithinAt(s, ["policies", key[0]]);
        assert key == [key[0]];
      }
    }
    forall x, y | PolicyOrder(x) == PolicyOrder(y)
      ensures PolicyKey(x) == PolicyKey(y)
    {
      assert PolicyOrder(x)[0] == PolicyOrder(y)[0];
    }
    SameUnderEveryKey(r.policies, s.policies, PolicyKey, PolicyOrder);
  }

  lemma SameFunctions(b: Snapshot, a: Snapshot)
    requires CanonicalCatalog(b) && CanonicalCatalog(a)
    requires forall place :: ValueAt(b, a, place) == ValueAt(a, b, place)
    ensures b.functions == a.functions
  {
    forall key
      ensures Find(b.functions, FunctionKey, key) == Find(a.functions, FunctionKey, key)
    {
      if |key| == 3 {
        var place := ["functions"] + key;
        assert ValueAt(b, a, place) == ValueAt(a, b, place);
        assert place[1..] == key;
      }
    }
    SameUnderEveryKey(b.functions, a.functions, FunctionKey, FunctionKey);
  }

  lemma SameRelationAt(b: Snapshot, a: Snapshot, schema: string, name: string)
    requires CanonicalCatalog(b) && CanonicalCatalog(a)
    requires forall place :: ValueAt(b, a, place) == ValueAt(a, b, place)
    ensures RelationAt(b, schema, name) == RelationAt(a, schema, name)
  {
    hide UniqueKeys, Sorted, CanonicalRelation, WithinAt;
    var r, s := RelationAt(b, schema, name), RelationAt(a, schema, name);
    if r.Some? && s.Some? {
      forall suffix
        ensures WithinAt(r.value, suffix) == WithinAt(s.value, suffix)
      {
        InsideValue(b, a, schema, name, suffix);
        InsideValue(a, b, schema, name, suffix);
        var place := ["relations", schema, name] + suffix;
        assert ValueAt(b, a, place) == ValueAt(a, b, place);
      }
      SameInside(r.value, s.value);
    } else {
      var place := ["relations", schema, name];
      assert ValueAt(b, a, place) == ValueAt(a, b, place);
      WholeValue(b, a, schema, name);
      WholeValue(a, b, schema, name);
    }
  }

  lemma InsideValue(c: Snapshot, other: Snapshot, schema: string, name: string, suffix: seq<string>)
    requires RelationAt(c, schema, name).Some? && RelationAt(other, schema, name).Some?
    ensures ValueAt(c, other, ["relations", schema, name] + suffix) == WithinAt(RelationAt(c, schema, name).value, suffix)
  {
    hide WithinAt;
    var place := ["relations", schema, name] + suffix;
    assert place[1] == schema && place[2] == name && place[3..] == suffix && place[0] == "relations" && place[0] != "functions";
  }

  lemma WholeValue(c: Snapshot, other: Snapshot, schema: string, name: string)
    requires RelationAt(c, schema, name).None? || RelationAt(other, schema, name).None?
    ensures ValueAt(c, other, ["relations", schema, name]) == Wrapped(RelationAt(c, schema, name), WrapRelation)
  {
  }

  lemma SameRelations(b: Snapshot, a: Snapshot)
    requires CanonicalCatalog(b) && CanonicalCatalog(a)
    requires forall place :: ValueAt(b, a, place) == ValueAt(a, b, place)
    ensures b.relations == a.relations
  {
    forall key
      ensures Find(b.relations, RelationKey, key) == Find(a.relations, RelationKey, key)
    {
      if |key| == 2 {
        assert key == [key[0], key[1]];
        SameRelationAt(b, a, key[0], key[1]);
      }
    }
    hide ValueAt, CanonicalRelation;
    forall x, y | RelationOrder(x) == RelationOrder(y)
      ensures RelationKey(x) == RelationKey(y)
    {
      assert RelationOrder(x)[0] == RelationOrder(y)[0] && RelationOrder(x)[1] == RelationOrder(y)[1];
    }
    SameUnderEveryKey(b.relations, a.relations, RelationKey, RelationOrder);
  }

  lemma NoChangeExact(b: Snapshot, a: Snapshot)
    ensures ChangesOf(b, a) == [] <==> forall place :: ValueAt(b, a, place) == ValueAt(a, b, place)
  {
    CatalogDiffExact(b, a);
    hide ChangesOf, ValueAt;
    if ChangesOf(b, a) != [] {
      var c := ChangesOf(b, a)[0];
      var place :| ChangeAt(b, a, place) == Some(c);
      assert ValueAt(b, a, place) != ValueAt(a, b, place);
    }
    if place :| ValueAt(b, a, place) != ValueAt(a, b, place) {
      var c :| c in ChangesOf(b, a) && c.path == PathText(place);
    }
  }

  /** For catalogs with unique names, no change is reported exactly when the canonical forms agree apart from the fingerprint. */
  lemma EmptyDiffExact(before: Snapshot, after: Snapshot, hash: Snapshot -> string)
    requires UniqueCatalog(before) && UniqueCatalog(after) && DiffOf(before, after, hash).Ok?
    ensures DiffOf(before, after, hash).value.changes == []
        <==> Normalized(before).(fingerprint := "") == Normalized(after).(fingerprint := "")
  {
    hide CanonicalCatalog, UniqueCatalog, ChangesOf, ValueAt, Summarize;
    var b, a := Normalized(before), Normalized(after);
    NormalIsCanonical(before);
    NormalIsCanonical(after);
    NoChangeExact(b, a);
    assert b.schemaVersion == a.schemaVersion && b.currentDatabase == a.currentDatabase && b.currentRole == a.currentRole;
    hide Normalized;
    if b.(fingerprint := "") == a.(fingerprint := "") {
      forall place
        ensures ValueAt(b, a, place) == ValueAt(a, b, place)
      {
        SameValues(b, a, place);
      }
    }
    if ChangesOf(b, a) == [] {
      SameCanonical(b, a);
    }
  }

  lemma SameCanonical(b: Snapshot, a: Snapshot)
    requires CanonicalCatalog(b) && CanonicalCatalog(a)
    requires forall place :: ValueAt(b, a, place) == ValueAt(a, b, place)
    ensures b.functions == a.functions && b.relations == a.relations && b.serverVersionNum == a.serverVersionNum && b.roleContext == a.roleContext
    ensures b.roleGraphFingerprint == a.roleGraphFingerprint && b.objectPrivilegeFingerprint == a.objectPrivilegeFingerprint
  {
    SameFunctions(b, a);
    SameRelations(b, a);
    assert ValueAt(b, a, [SERVER_VERSION]) == ValueAt(a, b, [SERVER_VERSION]);
    assert ValueAt(b, a, [ROLE_CONTEXT]) == ValueAt(a, b, [ROLE_CONTEXT]);
    assert ValueAt(b, a, [ROLE_GRAPH]) == ValueAt(a, b, [ROLE_GRAPH]);
    assert ValueAt(b, a, [OBJECT_PRIVILEGES]) == ValueAt(a, b, [OBJECT_PRIVILEGES]);
  }

  lemma SameValues(b: Snapshot, a: Snapshot, place: seq<string>)
    requires b.(fingerprint := "") == a.(fingerprint := "")
    ensures ValueAt(b, a, place) == ValueAt(a, b, place)
  {
  }
}
