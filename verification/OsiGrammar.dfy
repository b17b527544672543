/** The texts of OSI documents as a grammar: column expressions, metric expressions and the names of relations. */
module OsiGrammar {
  import opened Prelude
  import opened Semantic
  import opened Osi
  import opened OsiProofs

  // ----- names -----

  const UPPER := "ABCDEFGHIJKLMNOPQRSTUVWXYZ"

  const LOWER := "abcdefghijklmnopqrstuvwxyz"

  const DIGITS := "0123456789"

  lemma UpperExactly(c: char)
    ensures c in UPPER <==> 'A' <= c <= 'Z'
  {
    if 'A' <= c <= 'Z' {
      assert UPPER[c as int - 'A' as int] == c;
    }
  }

  lemma LowerExactly(c: char)
    ensures c in LOWER <==> 'a' <= c <= 'z'
  {
    if 'a' <= c <= 'z' {
      assert LOWER[c as int - 'a' as int] == c;
    }
  }

  lemma DigitExactly(c: char)
    ensures c in DIGITS <==> '0' <= c <= '9'
  {
    if '0' <= c <= '9' {
      assert DIGITS[c as int - '0' as int] == c;
    }
  }

  ghost predicate NameStart(c: char) {
    c in UPPER || c in LOWER || c == '_'
  }

  /** A portable name is an ASCII letter or underscore followed by letters, underscores and digits. */
  lemma PortableExactly(s: string)
    ensures Portable(s) <==> s != "" && NameStart(s[0]) && forall i :: 0 <= i < |s| ==> NameStart(s[i]) || s[i] in DIGITS
  {
    forall c: char
      ensures Letter(c) <==> NameStart(c)
      ensures LetterOrDigit(c) <==> NameStart(c) || c in DIGITS
    {
      UpperExactly(c);
      LowerExactly(c);
      DigitExactly(c);
    }
    hide Letter, LetterOrDigit, NameStart;
  }

  // ----- blanks around a text -----

  ghost predicate Around(text: string, core: string) {
    exists a, b :: Blank(a) && Blank(b) && text == a + core + b
  }

  /** No white space at either end. */
  ghost predicate Solid(s: string) {
    s != "" ==> !IsWhitespace(s[0]) && !IsWhitespace(s[|s| - 1])
  }

  lemma {:induction false} TrimStartIs(a: string, s: string)
    requires Blank(a) && (s != "" ==> !IsWhitespace(s[0]))
    ensures TrimStart(a + s) == s
  {
    if a == "" {
      assert a + s == s;
    } else {
      assert (a + s)[1..] == a[1..] + s && (a + s)[0] == a[0];
      TrimStartIs(a[1..], s);
    }
  }

  lemma {:induction false} TrimEndIs(s: string, b: string)
    requires Blank(b) && (s != "" ==> !IsWhitespace(s[|s| - 1]))
    ensures TrimEnd(s + b) == s
  {
    if b == "" {
      assert s + b == s;
    } else {
      var t := s + b;
      assert t[..|t| - 1] == s + b[..|b| - 1] && t[|t| - 1] == b[|b| - 1];
      TrimEndIs(s, b[..|b| - 1]);
    }
  }

  lemma BlankJoins(a: string, b: string)
    requires Blank(a) && Blank(b)
    ensures Blank(a + b)
  {
  }

  /** Trimming takes away exactly the blanks around a text. */
  lemma TrimIs(a: string, s: string, b: string)
    requires Blank(a) && Blank(b) && Solid(s)
    ensures Trim(a + s + b) == s
  {
    if s == "" {
      BlankJoins(a, b);
      assert a + s + b == (a + b) + s;
      TrimStartIs(a + b, s);
    } else {
      assert a + s + b == a + (s + b) && (s + b)[0] == s[0];
      TrimStartIs(a, s + b);
      TrimEndIs(s, b);
    }
  }

  lemma {:induction false} TrimStartSplits(t: string) returns (a: string)
    ensures Blank(a) && t == a + TrimStart(t) && (TrimStart(t) != "" ==> !IsWhitespace(TrimStart(t)[0]))
  {
    a := "";
    if t != "" && IsWhitespace(t[0]) {
      var rest := TrimStartSplits(t[1..]);
      a := [t[0]] + rest;
      assert t == [t[0]] + t[1..];
    }
  }

  lemma {:induction false} TrimEndSplits(t: string) returns (b: string)
    ensures Blank(b) && t == TrimEnd(t) + b && (TrimEnd(t) != "" ==> !IsWhitespace(TrimEnd(t)[|TrimEnd(t)| - 1]))
  {
    b := "";
    if t != "" && IsWhitespace(t[|t| - 1]) {
      var rest := TrimEndSplits(t[..|t| - 1]);
      b := rest + [t[|t| - 1]];
      assert t == t[..|t| - 1] + [t[|t| - 1]];
    }
  }

  lemma TrimSplits(t: string) returns (a: string, b: string)
    ensures Blank(a) && Blank(b) && t == a + Trim(t) + b && Solid(Trim(t))
  {
    a := TrimStartSplits(t);
    b := TrimEndSplits(TrimStart(t));
    if Trim(t) != "" {
      assert TrimStart(t)[0] == Trim(t)[0];
    }
  }

  lemma TrimExactly(text: string, core: string)
    requires Solid(core)
    ensures Around(text, core) <==> Trim(text) == core
  {
    hide Trim, Solid, Blank;
    if Trim(text) == core {
      var a, b := TrimSplits(text);
    }
    if a, b :| Blank(a) && Blank(b) && text == a + core + b {
      TrimIs(a, core, b);
    }
  }

  lemma PortableSolid(name: string)
    requires Portable(name)
    ensures Solid(name)
  {
    PortableEnds(name);
  }

  /** A column expression: a name, with blanks around it. */
  lemma ColumnExactly(text: string, name: string)
    requires Portable(name)
    ensures Around(text, name) <==> Trim(text) == name
  {
    PortableSolid(name);
    TrimExactly(text, name);
  }

  // ----- metric expressions -----

  ghost function Word(a: Aggregation): string {
    match a
    case Count => "count"
    case CountDistinct => "count"
    case Sum => "sum"
    case Min => "min"
    case Max => "max"
    case Avg => "avg"
  }

  /** word ( argument ), with blanks before, between and after. */
  ghost predicate Calls(text: string, word: string, argument: string) {
    exists a, b, c :: Blank(a) && Blank(b) && Blank(c) && text == a + word + b + "(" + argument + ")" + c
  }

  /** dataset.field, the dataset not beginning with the word DISTINCT. */
  ghost predicate PlainArgument(argument: string, dataset: string, field: string) {
    Portable(dataset) && Portable(field) && !StartsDistinct(dataset) && Around(argument, dataset + "." + field)
  }

  /** DISTINCT, a blank beginning with an ASCII one, and dataset.field. */
  ghost predicate DistinctArgument(argument: string, dataset: string, field: string) {
    && Portable(dataset) && Portable(field)
    && exists word, gap :: SameIgnoringCase(word, "distinct") && Blank(gap) && gap != "" && AsciiWhitespace(gap[0]) && Around(argument, word + gap + (dataset + "." + field))
  }

  /** The text stands for an aggregation of a field of a dataset. */
  ghost predicate Spells(text: string, a: Aggregation, dataset: string, field: string) {
    exists word, argument ::
      && Calls(text, word, argument) && SameIgnoringCase(word, Word(a))
      && if a == CountDistinct then DistinctArgument(argument, dataset, field) else PlainArgument(argument, dataset, field)
  }

  lemma LowerInjective(c: char, d: char)
    requires 'a' <= d <= 'z' && Lower(c) == Lower(d)
    ensures Letter(c)
  {
  }

  lemma WordLetters(word: string, w: string)
    requires SameIgnoringCase(word, w) && forall i :: 0 <= i < |w| ==> 'a' <= w[i] <= 'z'
    ensures forall i :: 0 <= i < |word| ==> Letter(word[i])
  {
    forall i | 0 <= i < |word|
      ensures Letter(word[i])
    {
      LowerInjective(word[i], w[i]);
    }
  }

  lemma WordApart(word: string, v: string, w: string, i: nat)
    requires SameIgnoringCase(word, v) && i < |v| && i < |w| && 'a' <= v[i] <= 'z' && 'a' <= w[i] <= 'z' && v[i] != w[i]
    ensures !SameIgnoringCase(word, w)
  {
  }

  lemma WordOf(word: string, distinct: bool, a: Aggregation)
    ensures NamedAggregation(word, distinct) == Some(a) <==> SameIgnoringCase(word, Word(a)) && (distinct <==> a == CountDistinct)
  {
    hide SameIgnoringCase;
    if SameIgnoringCase(word, "count") {
      WordApart(word, "count", "sum", 0);
      WordApart(word, "count", "min", 0);
      WordApart(word, "count", "max", 0);
      WordApart(word, "count", "avg", 0);
    } else if SameIgnoringCase(word, "sum") {
      WordApart(word, "sum", "min", 0);
      WordApart(word, "sum", "max", 0);
      WordApart(word, "sum", "avg", 0);
    } else if SameIgnoringCase(word, "min") {
      WordApart(word, "min", "max", 1);
      WordApart(word, "min", "avg", 0);
    } else if SameIgnoringCase(word, "max") {
      WordApart(word, "max", "avg", 0);
    }
  }

  lemma ArgumentParts(word: string, argument: string, distinct: bool)
    requires ParseArgument(word, argument, distinct).Some?
    ensures var p := ParseArgument(word, argument, distinct).value;
      && Portable(p.dataset) && Portable(p.field) && argument == p.dataset + "." + p.field
      && SameIgnoringCase(word, Word(p.aggregation)) && (distinct <==> p.aggregation == CountDistinct)
  {
    hide Portable, SameIgnoringCase;
    var p := ParseArgument(word, argument, distinct).value;
    WordOf(word, distinct, p.aggregation);
    var dot := FirstOf(argument, '.').value;
    assert argument == argument[..dot] + "." + argument[dot + 1..];
  }

  // ----- what is parsed was spelled -----

  /** The pieces the parser cuts a text into. */
  ghost function Opened(text: string): Option<(string, string)> {
    var expression := Trim(text);
    match FirstOf(expression, '(')
    case None => None
    case Some(open) =>
      if expression[|expression| - 1] != ')' then None
      else Some((Trim(expression[..open]), Trim(expression[open + 1..|expression| - 1])))
  }

  ghost function Read(word: string, argument: string): Option<ParsedMetric> {
    if !StartsDistinct(argument) then ParseArgument(word, argument, false)
    else if |argument| == 8 || !AsciiWhitespace(argument[8]) then None
    else ParseArgument(word, Trim(argument[8..]), true)
  }

  lemma ParsesInSteps(text: string)
    ensures ParseMetric(text) == match Opened(text) case None => None case Some(p) => Read(p.0, p.1)
  {
    hide Trim, StartsDistinct, ParseArgument, AsciiWhitespace;
  }

  lemma OpenedCalls(text: string) returns (raw: string)
    requires Opened(text).Some?
    ensures var (word, argument) := Opened(text).value; Calls(text, word, raw) && Around(raw, argument) && Solid(argument)
  {
    hide Trim, Blank, Solid;
    var expression := Trim(text);
    var open := FirstOf(expression, '(').value;
    raw := expression[open + 1..|expression| - 1];
    var a, c := TrimSplits(text);
    var x, b := TrimSplits(expression[..open]);
    var y, z := TrimSplits(raw);
    assert expression == expression[..open] + "(" + raw + ")";
    CallOf(text, a, x, Trim(expression[..open]), b, raw, c);
  }

  lemma CallOf(text: string, a: string, x: string, word: string, b: string, raw: string, c: string)
    requires Blank(a) && Blank(x) && Blank(b) && Blank(c) && text == a + (x + word + b + "(" + raw + ")") + c
    ensures Calls(text, word, raw)
  {
    hide Blank;
    BlankJoins(a, x);
    var t1 := word + b;
    var t2 := t1 + "(";
    var t3 := t2 + raw;
    var t4 := t3 + ")";
    Regroup(x, word, b);
    Regroup(x, t1, "(");
    Regroup(x, t2, raw);
    Regroup(x, t3, ")");
    Regroup(a, x, t4);
    Regroup(a + x, word, b);
    Regroup(a + x, t1, "(");
    Regroup(a + x, t2, raw);
    Regroup(a + x, t3, ")");
  }

  lemma Regroup(a: string, b: string, c: string)
    ensures (a + b) + c == a + (b + c)
  {
  }

  lemma AroundGrows(text: string, core: string, head: string, middle: string, tail: string)
    requires Around(text, core) && core == head + middle + tail && Blank(tail)
    ensures Around(text, head + middle)
  {
    hide Blank;
    var a, b :| Blank(a) && Blank(b) && text == a + core + b;
    BlankJoins(tail, b);
    assert text == a + (head + middle) + (tail + b);
  }

  lemma FirstOfThree(a: string, b: string, c: string)
    requires b != ""
    ensures (a + b + c)[0] == if a == "" then b[0] else a[0]
  {
  }

  lemma DistinctRead(raw: string, word: string, argument: string)
    requires Around(raw, argument) && StartsDistinct(argument) && |argument| > 8 && AsciiWhitespace(argument[8])
    requires ParseArgument(word, Trim(argument[8..]), true).Some?
    ensures var p := ParseArgument(word, Trim(argument[8..]), true).value;
      SameIgnoringCase(word, Word(p.aggregation)) && p.aggregation == CountDistinct && DistinctArgument(raw, p.dataset, p.field)
  {
    hide Trim, ParseArgument, Around, SameIgnoringCase;
    var p := ParseArgument(word, Trim(argument[8..]), true).value;
    ArgumentParts(word, Trim(argument[8..]), true);
    var gap, tail := TrimSplits(argument[8..]);
    var name := p.dataset + "." + p.field;
    PortableName(p.dataset, p.field);
    assert (gap + name + tail)[0] == argument[8];
    assert IsWhitespace(argument[8]);
    FirstOfThree(gap, name, tail);
    assert argument == (argument[..8] + gap) + name + tail;
    AroundGrows(raw, argument, argument[..8] + gap, name, tail);
  }

  lemma PlainRead(raw: string, word: string, argument: string)
    requires Around(raw, argument) && !StartsDistinct(argument) && ParseArgument(word, argument, false).Some?
    ensures var p := ParseArgument(word, argument, false).value;
      SameIgnoringCase(word, Word(p.aggregation)) && p.aggregation != CountDistinct && PlainArgument(raw, p.dataset, p.field)
  {
    hide ParseArgument, Around, SameIgnoringCase, StartsDistinct, Portable;
    var p := ParseArgument(word, argument, false).value;
    ArgumentParts(word, argument, false);
    StartIsDatasets(p.dataset, p.field);
  }

  lemma ParsedIsSpelled(text: string)
    requires ParseMetric(text).Some?
    ensures var p := ParseMetric(text).value; Spells(text, p.aggregation, p.dataset, p.field)
  {
    hide ParseMetric, Opened, ParseArgument, Around, Trim, Calls, PlainArgument, DistinctArgument, Solid, SameIgnoringCase, AsciiWhitespace;
    ParsesInSteps(text);
    var (word, argument) := Opened(text).value;
    var raw := OpenedCalls(text);
    if StartsDistinct(argument) {
      DistinctRead(raw, word, argument);
    } else {
      PlainRead(raw, word, argument);
    }
  }

  // ----- what is spelled is parsed -----

  lemma AggregationLetters(word: string, a: Aggregation)
    requires SameIgnoringCase(word, Word(a))
    ensures word != "" && (forall i :: 0 <= i < |word| ==> Letter(word[i])) && Solid(word)
  {
    WordLetters(word, Word(a));
    assert Letter(word[0]) && Letter(word[|word| - 1]);
  }

  lemma CoreOpens(word: string, b: string, raw: string)
    requires Solid(word) && Blank(b) && forall i :: 0 <= i < |word| ==> Letter(word[i])
    ensures var core := word + b + "(" + raw + ")";
      FirstOf(core, '(') == Some(|word + b|) && core[..|word + b|] == word + b && core[|word + b| + 1..|core| - 1] == raw && Trim(word + b) == word
  {
    hide Trim, Solid;
    var core := word + b + "(" + raw + ")";
    assert core == (word + b) + ['('] + (raw + ")");
    assert forall i :: 0 <= i < |word + b| ==> (word + b)[i] != '(';
    FirstAfter(word + b, '(', raw + ")");
    BlankNothing();
    assert "" + word + b == word + b;
    TrimIs("", word, b);
  }

  lemma CoreTrims(text: string, a: string, word: string, b: string, raw: string, c: string)
    requires Blank(a) && Blank(c) && word != "" && Solid(word) && text == a + word + b + "(" + raw + ")" + c
    ensures Trim(text) == word + b + "(" + raw + ")"
  {
    hide Trim, Blank;
    var core := word + b + "(" + raw + ")";
    assert text == a + core + c;
    assert core[0] == word[0] && core[|core| - 1] == ')';
    TrimIs(a, core, c);
  }

  lemma CallOpens(text: string, word: string, raw: string)
    requires Calls(text, word, raw) && word != "" && Solid(word) && forall i :: 0 <= i < |word| ==> Letter(word[i])
    ensures Opened(text) == Some((word, Trim(raw)))
  {
    hide Trim, Solid, Blank, Letter, FirstOf;
    var a, b, c :| Blank(a) && Blank(b) && Blank(c) && text == a + word + b + "(" + raw + ")" + c;
    CoreTrims(text, a, word, b, raw, c);
    CoreOpens(word, b, raw);
  }

  lemma PlainReads(word: string, raw: string, dataset: string, field: string, a: Aggregation)
    requires PlainArgument(raw, dataset, field) && SameIgnoringCase(word, Word(a)) && a != CountDistinct
    ensures Read(word, Trim(raw)) == Some(ParsedMetric(a, dataset, field))
  {
    hide Trim, StartsDistinct, Around, ParseArgument, Portable, SameIgnoringCase, NamedAggregation;
    PortableName(dataset, field);
    TrimExactly(raw, dataset + "." + field);
    StartIsDatasets(dataset, field);
    ParsesArgument(word, dataset, field, false);
    WordOf(word, false, a);
  }

  lemma DistinctTrims(raw: string, d: string, gap: string, name: string)
    requires SameIgnoringCase(d, "distinct") && Blank(gap) && gap != "" && Around(raw, d + gap + name) && name != "" && Solid(name)
    ensures var argument := Trim(raw);
      StartsDistinct(argument) && |argument| > 8 && argument[8] == gap[0] && Trim(argument[8..]) == name
  {
    hide Trim, Around, Blank;
    var core := d + gap + name;
    WordLetters(d, "distinct");
    assert Letter(d[0]);
    assert core[0] == d[0] && core[|core| - 1] == name[|name| - 1];
    TrimExactly(raw, core);
    assert core[..8] == d && core[8] == gap[0] && core[8..] == gap + name;
    hide SameIgnoringCase;
    assert gap + name == gap + name + "";
    BlankNothing();
    TrimIs(gap, name, "");
  }

  lemma DistinctReads(word: string, raw: string, dataset: string, field: string)
    requires DistinctArgument(raw, dataset, field) && SameIgnoringCase(word, "count")
    ensures Read(word, Trim(raw)) == Some(ParsedMetric(CountDistinct, dataset, field))
  {
    hide Trim, Around, Portable, Blank, ParseArgument, NamedAggregation, SameIgnoringCase, StartsDistinct, AsciiWhitespace;
    var d, gap :| SameIgnoringCase(d, "distinct") && Blank(gap) && gap != "" && AsciiWhitespace(gap[0]) && Around(raw, d + gap + (dataset + "." + field));
    PortableName(dataset, field);
    DistinctTrims(raw, d, gap, dataset + "." + field);
    ParsesArgument(word, dataset, field, true);
    WordOf(word, true, CountDistinct);
  }

  lemma BlankNothing()
    ensures Blank("")
  {
  }

  /** The parser accepts exactly the metric expressions of the grammar, and reads them as they are meant. */
  lemma MetricTextExactly(text: string, a: Aggregation, dataset: string, field: string)
    ensures ParseMetric(text) == Some(ParsedMetric(a, dataset, field)) <==> Spells(text, a, dataset, field)
  {
    hide ParseMetric, Read, Opened, Calls, PlainArgument, DistinctArgument, SameIgnoringCase, Trim;
    if ParseMetric(text) == Some(ParsedMetric(a, dataset, field)) {
      ParsedIsSpelled(text);
    }
    if Spells(text, a, dataset, field) {
      var word, raw :|
        && Calls(text, word, raw) && SameIgnoringCase(word, Word(a))
        && if a == CountDistinct then DistinctArgument(raw, dataset, field) else PlainArgument(raw, dataset, field);
      ParsesInSteps(text);
      AggregationLetters(word, a);
      CallOpens(text, word, raw);
      if a == CountDistinct {
        DistinctReads(word, raw, dataset, field);
      } else {
        PlainReads(word, raw, dataset, field, a);
      }
    }
  }

  // ----- names of relations -----

  ghost predicate Dotless(s: string) {
    forall i :: 0 <= i < |s| ==> s[i] != '.'
  }

  ghost predicate NamesRelation(text: string, r: Relation) {
    Portable(r.schema) && Portable(r.relation) && text == r.schema + "." + r.relation
  }

  ghost predicate NamesIn(source: string, database: string, r: Relation) {
    Dotless(database) && exists text :: NamesRelation(text, r) && source == database + "." + text
  }

  /** schema.relation, or the same in the current database. */
  ghost predicate SourceIs(source: string, database: string, r: Relation) {
    NamesRelation(source, r) || NamesIn(source, database, r)
  }

  /** A relation of another database. */
  ghost predicate Elsewhere(source: string, database: string) {
    exists other, r :: other != database && NamesIn(source, other, r)
  }

  lemma PortableDotless(name: string)
    requires Portable(name)
    ensures Dotless(name)
  {
    PortableEnds(name);
  }

  lemma SplitsFirst(a: string, rest: string)
    requires Dotless(a)
    ensures SplitDots(a + "." + rest) == [a] + SplitDots(rest)
  {
    assert a + "." + rest == a + ['.'] + rest;
    FirstAfter(a, '.', rest);
  }

  lemma SplitsLast(a: string)
    requires Dotless(a)
    ensures SplitDots(a) == [a]
  {
  }

  lemma SplitsRelation(text: string, r: Relation)
    requires NamesRelation(text, r)
    ensures SplitDots(text) == [r.schema, r.relation]
  {
    hide SplitDots, Portable;
    PortableDotless(r.schema);
    PortableDotless(r.relation);
    SplitsFirst(r.schema, r.relation);
    SplitsLast(r.relation);
  }

  lemma SourceParses(source: string, database: string, current: string, r: Relation)
    requires NamesIn(source, database, r)
    ensures ParseSource(source, current) == if database == current then Ok(r) else Err(DatabaseMismatch)
  {
    hide SplitDots, Portable;
    var text :| NamesRelation(text, r) && source == database + "." + text;
    SplitsRelation(text, r);
    SplitsFirst(database, text);
    assert SplitDots(source) == [database, r.schema, r.relation];
  }

  lemma ShortParses(source: string, current: string, r: Relation)
    requires NamesRelation(source, r)
    ensures ParseSource(source, current) == Ok(r)
  {
    hide SplitDots, Portable;
    SplitsRelation(source, r);
  }

  lemma SplitHead(s: string)
    ensures var p := SplitDots(s);
      if |p| == 1 then s == p[0]
      else Dotless(p[0]) && exists rest :: SplitDots(rest) == p[1..] && s == p[0] + "." + rest
  {
    var i := FirstOf(s, '.');
    if i.Some? {
      var rest := s[i.value + 1..];
      assert s == s[..i.value] + "." + rest;
      assert SplitDots(rest) == SplitDots(s)[1..];
    }
  }

  lemma TwoPartsJoin(s: string)
    requires |SplitDots(s)| == 2
    ensures var p := SplitDots(s); s == p[0] + "." + p[1] && Dotless(p[0])
  {
    hide SplitDots;
    var p := SplitDots(s);
    SplitHead(s);
    var rest :| SplitDots(rest) == p[1..] && s == p[0] + "." + rest;
    SplitHead(rest);
    assert p[1..][0] == p[1];
  }

  /** Three or fewer parts make up the text again. */
  lemma PartsJoin(s: string)
    ensures var p := SplitDots(s);
      && (|p| == 2 ==> s == p[0] + "." + p[1] && Dotless(p[0]))
      && (|p| == 3 ==> s == p[0] + "." + (p[1] + "." + p[2]) && Dotless(p[0]))
  {
    hide SplitDots;
    var p := SplitDots(s);
    if |p| == 2 {
      TwoPartsJoin(s);
    } else if |p| == 3 {
      SplitHead(s);
      var rest :| SplitDots(rest) == p[1..] && s == p[0] + "." + rest;
      TwoPartsJoin(rest);
      assert p[1..][0] == p[1] && p[1..][1] == p[2];
    }
  }

  /** A parsed source is a relation name, in another database if that is the error. */
  lemma ParsedSource(source: string, database: string)
    ensures var p := ParseSource(source, database);
      && (p.Ok? ==> SourceIs(source, database, p.value))
      && (p.Err? && p.error == DatabaseMismatch ==> Elsewhere(source, database))
      && (p.Err? ==> p.error == DatabaseMismatch || p.error == InvalidSource)
  {
    hide SplitDots, Portable;
    var p := SplitDots(source);
    PartsJoin(source);
    if |p| == 3 && Portable(p[1]) && Portable(p[2]) {
      assert NamesRelation(p[1] + "." + p[2], Relation(p[1], p[2]));
      assert NamesIn(source, p[0], Relation(p[1], p[2]));
    }
  }

  lemma ParsesSource(source: string, database: string, r: Relation)
    requires SourceIs(source, database, r)
    ensures ParseSource(source, database) == Ok(r)
  {
    hide ParseSource;
    if NamesRelation(source, r) {
      ShortParses(source, database, r);
    } else {
      SourceParses(source, database, database, r);
    }
  }

  /** A source is accepted exactly if it names a relation of the database, and the mismatch is told from other texts. */
  lemma SourceExactly(source: string, database: string, r: Relation)
    ensures ParseSource(source, database) == Ok(r) <==> SourceIs(source, database, r)
    ensures ParseSource(source, database).Err? ==> ParseSource(source, database).error == if Elsewhere(source, database) then DatabaseMismatch else InvalidSource
  {
    hide ParseSource, SourceIs, NamesIn;
    ParsedSource(source, database);
    if SourceIs(source, database, r) {
      ParsesSource(source, database, r);
    }
    if other, q :| other != database && NamesIn(source, other, q) {
      SourceParses(source, other, database, q);
    }
  }
}
