/** Printed FROM clauses read back, and what indenting them does to the names inside. */
module FromTextProofs {
  import opened Prelude
  import opened Semantic
  import opened Relational
  import opened SqlText
  import opened SqlTextProofs

  // ----- lexing a FROM clause -----

  function TableTokens(r: Relation): seq<Token> {
    [Quoted(r.schema)] + [Dot] + [Quoted(r.relation)]
  }

  function AliasTokens(alias: nat): seq<Token> {
    [Word("AS")] + [Word(AliasText(alias))]
  }

  function JoinTokens(join: Join, alias: nat): seq<Token> {
    [Word(JoinWord(join.kind))] + [Word("JOIN")] + (TableTokens(join.target) + AliasTokens(alias))
    + ([Word("ON")] + ItemTokens(Column(0, join.fromColumn)) + [Operator(Eq)] + ItemTokens(Column(alias, join.toColumn)))
  }

  function JoinsTokens(joins: seq<Join>, alias: nat): seq<Token> {
    if joins == [] then [] else JoinTokens(joins[0], alias) + JoinsTokens(joins[1..], alias + 1)
  }

  function WhereTokens(condition: Option<Pred>): seq<Token>
    requires condition.Some? ==> Printable(condition.value)
  {
    if condition.Some? then [Word("WHERE")] + PredTokens(condition.value) else []
  }

  function FromTokens(src: Source): seq<Token>
    requires PrintableFrom(src)
  {
    [Word("FROM")] + (TableTokens(src.base) + AliasTokens(0)) + JoinsTokens(src.joins, 1) + WhereTokens(src.condition)
  }

  lemma LexLine(rest: string)
    ensures Lexes("\n", [], rest)
  {
    assert ("\n" + rest)[1..] == rest;
    if Lex(rest).Some? {
      assert [] + Lex(rest).value == Lex(rest).value;
    }
  }

  lemma LexTable(r: Relation, rest: string)
    requires Delimited(rest)
    ensures Lexes(TableText(r), TableTokens(r), rest)
  {
    hide Lexes, Escape;
    var a, b := QuoteIdentifier(r.schema), QuoteIdentifier(r.relation);
    LexQuoted(r.schema, "." + (b + rest));
    LexMark(".", Dot, b + rest);
    LexQuoted(r.relation, rest);
    Then(a, [Quoted(r.schema)], ".", [Dot], b + rest);
    Then(a + ".", [Quoted(r.schema)] + [Dot], b, [Quoted(r.relation)], rest);
  }

  lemma AliasIsWord(alias: nat)
    ensures IsWord(AliasText(alias)) && IsAlias(AliasText(alias)) && TextNat(AliasText(alias)[1..]) == alias
  {
    hide TextNat, NatText;
    assert AliasText(alias)[1..] == NatText(alias);
    NumberRoundTrip(alias);
  }

  /** Text, then a table under its alias. */
  lemma ThenNamed(a: string, ta: seq<Token>, r: Relation, alias: nat, rest: string)
    requires Lexes(a, ta, TableText(r) + (" " + ("AS" + (" " + (AliasText(alias) + rest))))) && Delimited(rest)
    ensures Lexes(a + TableText(r) + " " + "AS" + " " + AliasText(alias), ta + (TableTokens(r) + AliasTokens(alias)), rest)
  {
    hide Lexes, TableText, TableTokens, AliasText;
    var t, tt, w := TableText(r), TableTokens(r), AliasText(alias);
    var r1 := " " + (w + rest);
    var r2 := " " + ("AS" + r1);
    AliasIsWord(alias);
    LexTable(r, r2);
    Then(a, ta, t, tt, r2);
    ThenWord(a + t, ta + tt, "AS", r1);
    ThenWord(a + t + " " + "AS", ta + tt + [Word("AS")], w, rest);
    assert ta + tt + [Word("AS")] + [Word(w)] == ta + (tt + AliasTokens(alias));
  }

  lemma LexOn(alias: nat, from: string, to: string, rest: string)
    requires Delimited(rest)
    ensures Lexes("ON" + " " + ColumnText(0, from) + " " + "=" + " " + ColumnText(alias, to),
                  [Word("ON")] + ItemTokens(Column(0, from)) + [Operator(Eq)] + ItemTokens(Column(alias, to)), rest)
  {
    hide Lexes, ColumnText, ItemTokens, OperatorText;
    var a, ta, b, tb := ColumnText(0, from), ItemTokens(Column(0, from)), ColumnText(alias, to), ItemTokens(Column(alias, to));
    var r1 := " " + (b + rest);
    var r2 := " " + ("=" + r1);
    LexWord("ON", " " + (a + r2));
    ThenSpace("ON", [Word("ON")], a + r2);
    LexItem(Column(0, from), r2);
    Then("ON" + " ", [Word("ON")], a, ta, r2);
    ThenSpace("ON" + " " + a, [Word("ON")] + ta, "=" + r1);
    LexEquals(r1);
    Then("ON" + " " + a + " ", [Word("ON")] + ta, "=", [Operator(Eq)], r1);
    ThenSpace("ON" + " " + a + " " + "=", [Word("ON")] + ta + [Operator(Eq)], b + rest);
    LexItem(Column(alias, to), rest);
    Then("ON" + " " + a + " " + "=" + " ", [Word("ON")] + ta + [Operator(Eq)], b, tb, rest);
  }

  lemma LexEquals(rest: string)
    requires rest != "" && rest[0] == ' '
    ensures Lexes("=", [Operator(Eq)], rest)
  {
    LexOperator(Eq, rest);
  }

  lemma JoinWordIsWord(kind: JoinType)
    ensures IsWord(JoinWord(kind))
  {
  }

  lemma LexJoin(join: Join, alias: nat, rest: string)
    requires Delimited(rest)
    ensures Lexes(JoinText(join, alias), JoinTokens(join, alias), rest)
  {
    hide Lexes, TableText, TableTokens, AliasText, AliasTokens, ColumnText, ItemTokens, JoinWord;
    var k, t, w := JoinWord(join.kind), TableText(join.target), AliasText(alias);
    var tt := TableTokens(join.target) + AliasTokens(alias);
    var on := "ON" + " " + ColumnText(0, join.fromColumn) + " " + "=" + " " + ColumnText(alias, join.toColumn);
    var ton := [Word("ON")] + ItemTokens(Column(0, join.fromColumn)) + [Operator(Eq)] + ItemTokens(Column(alias, join.toColumn));
    var r0 := " " + (on + rest);
    var r1 := t + (" " + ("AS" + (" " + (w + r0))));
    JoinWordIsWord(join.kind);
    LexWord(k, " " + ("JOIN" + (" " + r1)));
    ThenWord(k, [Word(k)], "JOIN", " " + r1);
    ThenSpace(k + " " + "JOIN", [Word(k)] + [Word("JOIN")], r1);
    ThenNamed(k + " " + "JOIN" + " ", [Word(k)] + [Word("JOIN")], join.target, alias, r0);
    var head := k + " " + "JOIN" + " " + t + " " + "AS" + " " + w;
    ThenSpace(head, [Word(k)] + [Word("JOIN")] + tt, on + rest);
    LexOn(alias, join.fromColumn, join.toColumn, rest);
    Then(head + " ", [Word(k)] + [Word("JOIN")] + tt, on, ton, rest);
    JoinTextGroups(join, alias);
  }

  lemma JoinTextGroups(join: Join, alias: nat)
    ensures JoinText(join, alias)
         == (JoinWord(join.kind) + " " + "JOIN" + " " + TableText(join.target) + " " + "AS" + " " + AliasText(alias) + " ")
            + ("ON" + " " + ColumnText(0, join.fromColumn) + " " + "=" + " " + ColumnText(alias, join.toColumn))
  {
    hide TableText, AliasText, ColumnText, JoinWord;
    var a := JoinWord(join.kind) + " " + "JOIN" + " " + TableText(join.target) + " " + "AS" + " " + AliasText(alias) + " ";
    RegroupOn(a, ColumnText(0, join.fromColumn), ColumnText(alias, join.toColumn));
  }

  lemma RegroupOn(a: string, x: string, y: string)
    ensures a + "ON" + " " + x + " " + "=" + " " + y == a + ("ON" + " " + x + " " + "=" + " " + y)
  {
  }

  lemma {:induction false} LexJoins(joins: seq<Join>, alias: nat, rest: string)
    requires Delimited(rest)
    ensures Lexes(JoinsText(joins, alias), JoinsTokens(joins, alias), rest)
    decreases |joins|
  {
    hide Lexes, JoinText, JoinTokens;
    if joins == [] {
      LexNothing(rest);
    } else {
      var j, more := JoinText(joins[0], alias), JoinsText(joins[1..], alias + 1);
      LexJoins(joins[1..], alias + 1, rest);
      JoinsDelimited(joins[1..], alias + 1, rest);
      LexJoin(joins[0], alias, more + rest);
      LexLine(j + (more + rest));
      Then("\n", [], j, JoinTokens(joins[0], alias), more + rest);
      assert [] + JoinTokens(joins[0], alias) == JoinTokens(joins[0], alias);
      Then("\n" + j, JoinTokens(joins[0], alias), more, JoinsTokens(joins[1..], alias + 1), rest);
    }
  }

  lemma LexNothing(rest: string)
    ensures Lexes("", [], rest)
  {
    assert "" + rest == rest;
    if Lex(rest).Some? {
      assert [] + Lex(rest).value == Lex(rest).value;
    }
  }

  lemma JoinsDelimited(joins: seq<Join>, alias: nat, rest: string)
    requires Delimited(rest)
    ensures Delimited(JoinsText(joins, alias) + rest)
  {
    hide JoinText;
    if joins == [] {
      assert JoinsText(joins, alias) + rest == rest;
    } else {
      assert (JoinsText(joins, alias) + rest)[0] == '\n';
    }
  }

  function WhereText(condition: Option<Pred>): string
    requires condition.Some? ==> Printable(condition.value)
  {
    if condition.Some? then "\n" + "WHERE" + " " + PredText(condition.value) else ""
  }

  lemma LexWhere(condition: Option<Pred>)
    requires condition.Some? ==> Printable(condition.value)
    ensures Lexes(WhereText(condition), WhereTokens(condition), "")
  {
    hide Lexes, PredText, PredTokens;
    if condition.None? {
      LexNothing("");
    } else {
      var p := PredText(condition.value);
      LexWord("WHERE", " " + (p + ""));
      LexLine("WHERE" + (" " + (p + "")));
      Then("\n", [], "WHERE", [Word("WHERE")], " " + (p + ""));
      assert [] + [Word("WHERE")] == [Word("WHERE")];
      ThenSpace("\n" + "WHERE", [Word("WHERE")], p + "");
      LexPred(condition.value, "");
      Then("\n" + "WHERE" + " ", [Word("WHERE")], p, PredTokens(condition.value), "");
    }
  }

  /** The text of a FROM clause lexes to its tokens. */
  lemma LexFrom(src: Source)
    requires PrintableFrom(src)
    ensures Lex(FromText(src)) == Some(FromTokens(src))
  {
    hide Lexes, TableText, TableTokens, AliasText, AliasTokens, JoinsText, JoinsTokens, WhereText, WhereTokens, Lex;
    var t, w := TableText(src.base), AliasText(0);
    var tt := TableTokens(src.base) + AliasTokens(0);
    var joins, where_ := JoinsText(src.joins, 1), WhereText(src.condition);
    var tj, tw := JoinsTokens(src.joins, 1), WhereTokens(src.condition);
    LexWhere(src.condition);
    WhereDelimited(src.condition);
    LexJoins(src.joins, 1, where_ + "");
    JoinsDelimited(src.joins, 1, where_ + "");
    var r0 := joins + (where_ + "");
    var r1 := t + (" " + ("AS" + (" " + (w + r0))));
    LexWord("FROM", " " + r1);
    ThenSpace("FROM", [Word("FROM")], r1);
    ThenNamed("FROM" + " ", [Word("FROM")], src.base, 0, r0);
    var head := "FROM" + " " + t + " " + "AS" + " " + w;
    Then(head, [Word("FROM")] + tt, joins, tj, where_ + "");
    Then(head + joins, [Word("FROM")] + tt + tj, where_, tw, "");
    FromGroups(src);
    WholeText(FromText(src), FromTokens(src));
  }

  lemma FromGroups(src: Source)
    requires PrintableFrom(src)
    ensures FromText(src) == "FROM" + " " + TableText(src.base) + " " + "AS" + " " + AliasText(0) + JoinsText(src.joins, 1) + WhereText(src.condition)
    ensures FromTokens(src) == [Word("FROM")] + (TableTokens(src.base) + AliasTokens(0)) + JoinsTokens(src.joins, 1) + WhereTokens(src.condition)
  {
    hide TableText, AliasText, JoinsText, PredText;
  }

  lemma WhereDelimited(condition: Option<Pred>)
    requires condition.Some? ==> Printable(condition.value)
    ensures Delimited(WhereText(condition) + "")
  {
    hide PredText;
    assert condition.Some? ==> (WhereText(condition) + "")[0] == '\n';
  }

  lemma WholeText(text: string, ts: seq<Token>)
    requires Lexes(text, ts, "")
    ensures Lex(text) == Some(ts)
  {
    assert text + "" == text;
    assert Lex("") == Some([]);
    assert ts + [] == ts;
  }

  // ----- parsing a FROM clause -----

  lemma ParsesNamed(r: Relation, alias: nat, rest: seq<Token>)
    ensures ParseNamed((TableTokens(r) + AliasTokens(alias)) + rest, alias) == Some((r, rest))
  {
    hide AliasText, TextNat;
    AliasIsWord(alias);
    var ts := (TableTokens(r) + AliasTokens(alias)) + rest;
    assert ts[3..] == AliasTokens(alias) + rest;
    assert (AliasTokens(alias) + rest)[2..] == rest;
  }

  lemma ParsesOn(alias: nat, from: string, to: string, rest: seq<Token>)
    ensures ParseOn(([Word("ON")] + ItemTokens(Column(0, from)) + [Operator(Eq)] + ItemTokens(Column(alias, to))) + rest, alias)
         == Some(((from, to), rest))
  {
    hide ParseItem, ItemTokens;
    var left, right := ItemTokens(Column(0, from)), ItemTokens(Column(alias, to));
    var after := [Operator(Eq)] + (right + rest);
    var ts := ([Word("ON")] + left + [Operator(Eq)] + right) + rest;
    assert ts == [Word("ON")] + (left + after);
    assert ts[1..] == left + after;
    ParsesItem(Column(0, from), after);
    assert after[1..] == right + rest;
    ParsesItem(Column(alias, to), rest);
  }

  lemma ParsesJoin(join: Join, alias: nat, rest: seq<Token>)
    ensures ParseJoin(JoinTokens(join, alias) + rest, alias) == Some((join, rest))
  {
    hide ParseNamed, ParseOn, TableTokens, AliasTokens, ItemTokens;
    var table := TableTokens(join.target) + AliasTokens(alias);
    var on := [Word("ON")] + ItemTokens(Column(0, join.fromColumn)) + [Operator(Eq)] + ItemTokens(Column(alias, join.toColumn));
    var ts := JoinTokens(join, alias) + rest;
    assert ts == [Word(JoinWord(join.kind))] + [Word("JOIN")] + (table + (on + rest));
    assert ts[2..] == table + (on + rest);
    ParsesNamed(join.target, alias, on + rest);
    ParsesOn(alias, join.fromColumn, join.toColumn, rest);
    JoinWords();
  }

  lemma JoinWords()
    ensures Word("INNER") != Word("LEFT") && Word("INNER") != Word("WHERE") && Word("LEFT") != Word("WHERE")
  {
    assert |"INNER"| == 5 && |"LEFT"| == 4 && |"WHERE"| == 5 && "INNER"[0] != "WHERE"[0];
  }

  /** A clause that may follow a condition is none of the words inside the FROM clause. */
  lemma ClosingWords(rest: seq<Token>)
    requires Closes(rest) && rest != []
    ensures rest[0] != Word("INNER") && rest[0] != Word("LEFT") && rest[0] != Word("WHERE") && rest[0] != Word("AND") && rest[0] != Word("OR")
  {
    assert "GROUP"[0] == 'G' && "ORDER"[0] == 'O' && "LIMIT"[0] == 'L';
    assert "INNER"[0] == 'I' && "WHERE"[0] == 'W' && "AND"[0] == 'A';
    assert |"LIMIT"| == 5 && |"LEFT"| == 4 && |"ORDER"| == 5 && |"OR"| == 2;
  }

  lemma {:induction false} ParsesJoins(joins: seq<Join>, alias: nat, rest: seq<Token>)
    requires rest == [] || (rest[0] != Word("INNER") && rest[0] != Word("LEFT"))
    ensures ParseJoins(JoinsTokens(joins, alias) + rest, alias) == Some((joins, rest))
    decreases |joins|
  {
    hide ParseJoin, JoinTokens;
    if joins == [] {
      assert JoinsTokens(joins, alias) + rest == rest;
    } else {
      var more := JoinsTokens(joins[1..], alias + 1) + rest;
      var ts := JoinsTokens(joins, alias) + rest;
      assert ts == JoinTokens(joins[0], alias) + more;
      ParsesJoin(joins[0], alias, more);
      FirstOfJoin(joins[0], alias, more);
      ParsesJoins(joins[1..], alias + 1, rest);
      assert [joins[0]] + joins[1..] == joins;
    }
  }

  lemma FirstOfJoin(join: Join, alias: nat, rest: seq<Token>)
    ensures JoinTokens(join, alias) + rest != []
    ensures var first := (JoinTokens(join, alias) + rest)[0]; first == Word("INNER") || first == Word("LEFT")
  {
  }

  lemma ParsesWhere(condition: Option<Pred>, rest: seq<Token>)
    requires Closes(rest) && (condition.Some? ==> Printable(condition.value))
    ensures ParseWhere(WhereTokens(condition) + rest) == Some((if condition.Some? then Some(Collapse(condition.value)) else None, rest))
  {
    hide ParseOr, ParseAnd, ParseNot, PredTokens;
    if rest != [] {
      ClosingWords(rest);
    }
    if condition.Some? {
      var p, ts := condition.value, PredTokens(condition.value) + rest;
      ParsesPred(p, rest);
      OperandOfOr(ts, Collapse(p), rest);
      ConditionAlone(ts, Collapse(p), rest);
      assert (WhereTokens(condition) + rest)[1..] == ts;
    } else {
      assert WhereTokens(condition) + rest == rest;
    }
  }

  /** The FROM clause with one-argument AND and OR replaced by their argument. */
  function CollapseFrom(src: Source): Source
    requires src.From?
  {
    src.(condition := if src.condition.Some? then Some(Collapse(src.condition.value)) else None)
  }

  lemma ParsesFrom(src: Source, rest: seq<Token>)
    requires PrintableFrom(src) && Closes(rest)
    ensures ParseFrom(FromTokens(src) + rest) == Some((CollapseFrom(src), rest))
  {
    hide ParseNamed, ParseJoins, ParseWhere, TableTokens, AliasTokens, JoinsTokens, WhereTokens;
    var table, joins, where_ := TableTokens(src.base) + AliasTokens(0), JoinsTokens(src.joins, 1), WhereTokens(src.condition) + rest;
    var ts := FromTokens(src) + rest;
    FromGroups(src);
    assert ts == [Word("FROM")] + (table + (joins + where_));
    assert ts[1..] == table + (joins + where_);
    ParsesNamed(src.base, 0, joins + where_);
    FirstOfWhere(src.condition, rest);
    ParsesJoins(src.joins, 1, where_);
    ParsesWhere(src.condition, rest);
  }

  lemma FirstOfWhere(condition: Option<Pred>, rest: seq<Token>)
    requires Closes(rest) && (condition.Some? ==> Printable(condition.value))
    ensures var ts := WhereTokens(condition) + rest; ts == [] || (ts[0] != Word("INNER") && ts[0] != Word("LEFT"))
  {
    hide PredTokens;
    JoinWords();
    if rest != [] {
      ClosingWords(rest);
    }
    if condition.None? {
      assert WhereTokens(condition) + rest == rest;
    }
  }

  /** As it is rendered, every FROM clause reads back. */
  lemma FromReadsBack(src: Source)
    requires PrintableFrom(src)
    ensures ReadFrom(FromText(src)) == Some(CollapseFrom(src))
  {
    hide Lex, ParseFrom, FromText, FromTokens;
    LexFrom(src);
    ParsesFrom(src, []);
    assert FromTokens(src) + [] == FromTokens(src);
  }

  // ----- indentation -----

  lemma {:induction false} IndentAppend(a: string, b: string)
    ensures Indent(a + b) == Indent(a) + Indent(b)
  {
    if a == "" {
      assert a + b == b;
    } else {
      assert (a + b)[1..] == a[1..] + b;
      IndentAppend(a[1..], b);
    }
  }

  lemma IndentCut(s: string, n: nat)
    requires n <= |s|
    ensures Indent(s) == Indent(s[..n]) + Indent(s[n..])
  {
    assert s == s[..n] + s[n..];
    IndentAppend(s[..n], s[n..]);
  }

  lemma IndentHead(s: string)
    ensures Indent(s) == "" <==> s == ""
    ensures s != "" ==> Indent(s)[0] == s[0]
  {
  }

  /** Indentation leaves a text alone exactly when it has no newline. */
  lemma {:induction false} IndentExactly(s: string)
    ensures |Indent(s)| >= |s|
    ensures Indent(s) == s <==> '\n' !in s
  {
    if s != "" {
      IndentExactly(s[1..]);
      assert s == [s[0]] + s[1..];
      if s[0] == '\n' {
        assert |Indent(s)| > |s|;
      } else {
        assert Indent(s) == [s[0]] + Indent(s[1..]);
        assert Indent(s)[1..] == Indent(s[1..]);
      }
    }
  }

  lemma IndentPlain(a: string, rest: string)
    requires '\n' !in a
    ensures Indent(a + rest) == a + Indent(rest)
  {
    IndentAppend(a, rest);
    IndentExactly(a);
  }

  function IndentToken(t: Token): Token {
    if t.Quoted? then Quoted(Indent(t.identifier)) else t
  }

  function IndentTokens(ts: seq<Token>): (r: seq<Token>)
    ensures |r| == |ts| && forall i :: 0 <= i < |ts| ==> r[i] == IndentToken(ts[i])
  {
    seq(|ts|, i requires 0 <= i < |ts| => IndentToken(ts[i]))
  }

  function IndentLexed(r: Option<seq<Token>>): Option<seq<Token>> {
    match r case None => None case Some(ts) => Some(IndentTokens(ts))
  }

  lemma IndentPrepend(t: Token, r: Option<seq<Token>>)
    ensures IndentLexed(Prepend([t], r)) == Prepend([IndentToken(t)], IndentLexed(r))
  {
    if r.Some? {
      assert IndentTokens([t] + r.value) == [IndentToken(t)] + IndentTokens(r.value);
    }
  }

  /** Inside quotes the newline is indented like any other. */
  lemma {:induction false} ReadIndented(s: string)
    ensures ReadsIndented(s)
    decreases |s|
  {
    if s == "" {
    } else {
      hide ReadsIndented;
      if s[0] == '\n' {
        ReadIndented(s[1..]);
        IndentedNewline(s);
      } else if s[0] != '"' {
        ReadIndented(s[1..]);
        IndentedOrdinary(s);
      } else if |s| > 1 && s[1] == '"' {
        ReadIndented(s[2..]);
        IndentedDoubled(s);
      } else {
        IndentedEnd(s);
      }
    }
  }

  lemma PrefixStep(s: string, k: nat, n: nat)
    requires k <= |s| && n <= |s| - k
    ensures s[..k + n] == s[..k] + s[k..][..n]
    ensures Indent(s[..k + n]) == Indent(s[..k]) + Indent(s[k..][..n])
  {
    assert s[..k + n] == s[..k] + s[k..][..n];
    IndentAppend(s[..k], s[k..][..n]);
  }

  lemma IndentOne(c: char)
    ensures Indent([c]) == if c == '\n' then "\n  " else [c]
  {
    assert [c][1..] == "";
  }

  /** One more ordinary character in front. */
  function ReadAfter(r: Option<(string, nat)>, c: char): Option<(string, nat)> {
    match r case None => None case Some(x) => Some(([c] + x.0, 1 + x.1))
  }

  lemma ReadOrdinary(c: char, more: string)
    requires c != '"'
    ensures ReadQuoted([c] + more) == ReadAfter(ReadQuoted(more), c)
  {
    assert ([c] + more)[1..] == more;
  }

  /** What reading an indented text gives, told from what reading the text gives. */
  ghost predicate ReadsIndented(s: string) {
    match ReadQuoted(s)
    case None => ReadQuoted(Indent(s)).None?
    case Some(r) => ReadQuoted(Indent(s)) == Some((Indent(r.0), |Indent(s[..r.1])|))
  }

  lemma IndentedNewline(s: string)
    requires s != "" && s[0] == '\n' && ReadsIndented(s[1..])
    ensures ReadsIndented(s)
  {
    hide ReadQuoted;
    var rest := s[1..];
    var more := Indent(rest);
    assert s == ['\n'] + rest;
    assert Indent(s) == ['\n'] + ([' '] + ([' '] + more));
    ReadOrdinary('\n', rest);
    ReadOrdinary(' ', more);
    ReadOrdinary(' ', [' '] + more);
    ReadOrdinary('\n', [' '] + ([' '] + more));
    if ReadQuoted(rest).Some? {
      var (c, n) := ReadQuoted(rest).value;
      NewlineInFront(s, c, n);
    }
  }

  lemma NewlineIndented(c: string)
    ensures Indent(['\n'] + c) == ['\n'] + ([' '] + ([' '] + Indent(c)))
  {
    IndentOne('\n');
    IndentAppend(['\n'], c);
    hide Indent;
    assert "\n  " + Indent(c) == ['\n'] + ([' '] + ([' '] + Indent(c)));
  }

  lemma NewlineInFront(s: string, c: string, n: nat)
    requires s != "" && s[0] == '\n' && n <= |s| - 1
    ensures Indent(['\n'] + c) == ['\n'] + ([' '] + ([' '] + Indent(c)))
    ensures |Indent(s[..1 + n])| == 3 + |Indent(s[1..][..n])|
  {
    hide Indent;
    PrefixStep(s, 1, n);
    assert s[..1] == ['\n'];
    IndentOne('\n');
    NewlineIndented(c);
  }

  lemma IndentedOrdinary(s: string)
    requires s != "" && s[0] != '\n' && s[0] != '"' && ReadsIndented(s[1..])
    ensures ReadsIndented(s)
  {
    hide ReadQuoted;
    var rest := s[1..];
    assert s == [s[0]] + rest;
    assert Indent(s) == [s[0]] + Indent(rest);
    ReadOrdinary(s[0], rest);
    ReadOrdinary(s[0], Indent(rest));
    if ReadQuoted(rest).Some? {
      var (c, n) := ReadQuoted(rest).value;
      PrefixStep(s, 1, n);
      assert s[..1] == [s[0]];
      IndentOne(s[0]);
      IndentAppend([s[0]], c);
    }
  }

  lemma ReadDoubled(more: string)
    ensures ReadQuoted("\"\"" + more) == match ReadQuoted(more) case None => None case Some(x) => Some((['"'] + x.0, 2 + x.1))
  {
    assert ("\"\"" + more)[2..] == more;
  }

  lemma IndentedDoubled(s: string)
    requires |s| > 1 && s[0] == '"' && s[1] == '"' && ReadsIndented(s[2..])
    ensures ReadsIndented(s)
  {
    hide ReadQuoted;
    var rest := s[2..];
    assert s == "\"\"" + rest;
    IndentPlain("\"\"", rest);
    ReadDoubled(rest);
    ReadDoubled(Indent(rest));
    if ReadQuoted(rest).Some? {
      var (c, n) := ReadQuoted(rest).value;
      PrefixStep(s, 2, n);
      assert s[..2] == "\"\"";
      IndentExactly("\"\"");
      IndentOne('"');
      IndentAppend(['"'], c);
    }
  }

  lemma IndentedEnd(s: string)
    requires s != "" && s[0] == '"' && (|s| == 1 || s[1] != '"')
    ensures ReadsIndented(s)
  {
    IndentHead(s[1..]);
    assert Indent(s) == ['"'] + Indent(s[1..]);
    assert s[..1] == ['"'];
    IndentOne('"');
  }

  lemma SpaceSkips(c: char, rest: string)
    requires IsSpace(c)
    ensures Lex([c] + rest) == Lex(rest)
  {
    assert ([c] + rest)[1..] == rest;
  }

  lemma IndentedSpace(s: string)
    requires s != "" && IsSpace(s[0])
    ensures Lex(Indent(s)) == Lex(Indent(s[1..]))
  {
    hide Lex;
    var more := Indent(s[1..]);
    if s[0] == '\n' {
      assert Indent(s) == ['\n'] + ([' '] + ([' '] + more));
      SpaceSkips('\n', [' '] + ([' '] + more));
      SpaceSkips(' ', [' '] + more);
      SpaceSkips(' ', more);
    } else {
      assert Indent(s) == [s[0]] + more;
      SpaceSkips(s[0], more);
    }
  }

  /** A run of characters without newlines is found again. */
  lemma IndentedSpan(s: string, class_: char -> bool)
    requires !class_('\n')
    ensures var n := Span(s, class_); Span(Indent(s), class_) == n && n <= |Indent(s)| && Indent(s)[..n] == s[..n] && Indent(s)[n..] == Indent(s[n..])
  {
    var n := Span(s, class_);
    var a, b := s[..n], s[n..];
    assert '\n' !in a;
    assert s == a + b;
    IndentPlain(a, b);
    IndentHead(b);
    SpanExact(a, Indent(b), class_);
  }

  lemma LexDollar(s: string)
    requires s != "" && s[0] == '$'
    ensures var n := Span(s[1..], IsDigit); Lex(s) == if n == 0 then None else Prepend([Placeholder(TextNat(s[1..][..n]))], Lex(s[1 + n..]))
  {
    hide TextNat, Span, ReadQuoted;
  }

  lemma LexDollarThen(rest: string)
    ensures var n := Span(rest, IsDigit);
      Lex(['$'] + rest) == if n == 0 then None else Prepend([Placeholder(TextNat(rest[..n]))], Lex(rest[n..]))
  {
    hide Lex, TextNat, Span;
    LexDollar(['$'] + rest);
    TailAfter('$', rest, Span(rest, IsDigit));
  }

  lemma DollarIndents(s: string)
    requires s != "" && s[0] == '$'
    ensures s == ['$'] + s[1..] && Indent(s) == ['$'] + Indent(s[1..])
    ensures s[1 + Span(s[1..], IsDigit)..] == s[1..][Span(s[1..], IsDigit)..]
  {
    hide Span;
  }

  lemma IndentedPlaceholder(s: string)
    requires s != "" && s[0] == '$' && Lex(Indent(s[1 + Span(s[1..], IsDigit)..])) == IndentLexed(Lex(s[1 + Span(s[1..], IsDigit)..]))
    ensures Lex(Indent(s)) == IndentLexed(Lex(s))
  {
    hide Lex, TextNat, Span, Indent, IndentLexed;
    var rest := s[1..];
    var n := Span(rest, IsDigit);
    DollarIndents(s);
    IndentedSpan(rest, IsDigit);
    LexDollarThen(rest);
    LexDollarThen(Indent(rest));
    if n > 0 {
      IndentPrepend(Placeholder(TextNat(rest[..n])), Lex(rest[n..]));
    } else {
      NothingLexed();
    }
  }

  lemma NothingLexed()
    ensures IndentLexed(None) == None
  {
  }

  lemma TailAfter(c: char, rest: string, n: nat)
    requires n <= |rest|
    ensures ([c] + rest)[1..] == rest && ([c] + rest)[1 + n..] == rest[n..]
  {
  }

  lemma LexWordStep(s: string)
    requires s != "" && IsWordChar(s[0]) && !IsDigit(s[0])
    ensures var n := Span(s, IsWordChar); Lex(s) == Prepend([Word(s[..n])], Lex(s[n..]))
  {
  }

  lemma IndentedWord(s: string)
    requires s != "" && IsWordChar(s[0]) && !IsDigit(s[0]) && Lex(Indent(s[Span(s, IsWordChar)..])) == IndentLexed(Lex(s[Span(s, IsWordChar)..]))
    ensures Lex(Indent(s)) == IndentLexed(Lex(s))
  {
    hide Lex, Indent;
    var n := Span(s, IsWordChar);
    IndentedSpan(s, IsWordChar);
    IndentHead(s);
    LexWordStep(s);
    LexWordStep(Indent(s));
    IndentPrepend(Word(s[..n]), Lex(s[n..]));
  }

  lemma NumberAdvances(s: string)
    requires s != "" && IsDigit(s[0])
    ensures 0 < Span(s, IsDigit)
  {
  }

  lemma LexNumberStep(s: string)
    requires s != "" && IsDigit(s[0])
    ensures var n := Span(s, IsDigit); Lex(s) == Prepend([Number(TextNat(s[..n]))], Lex(s[n..]))
  {
    hide TextNat, Span, ReadQuoted, ReadText;
  }

  lemma IndentedNumber(s: string)
    requires s != "" && IsDigit(s[0]) && Lex(Indent(s[Span(s, IsDigit)..])) == IndentLexed(Lex(s[Span(s, IsDigit)..]))
    ensures Lex(Indent(s)) == IndentLexed(Lex(s))
  {
    hide Lex, Indent, TextNat;
    var n := Span(s, IsDigit);
    IndentedSpan(s, IsDigit);
    IndentHead(s);
    LexNumberStep(s);
    LexNumberStep(Indent(s));
    IndentPrepend(Number(TextNat(s[..n])), Lex(s[n..]));
  }

  lemma LexApostrophe(s: string)
    requires s != "" && s[0] == '\''
    ensures var r := ReadText(s[1..]); Lex(s) == if r.None? then None else Prepend([Text(s[1..][..r.value])], Lex(s[2 + r.value..]))
  {
    hide TextNat, Span, ReadQuoted, ReadText;
  }

  lemma LexTextThen(rest: string)
    ensures var r := ReadText(rest); Lex(['\''] + rest) == if r.None? then None else Prepend([Text(rest[..r.value])], Lex(rest[1 + r.value..]))
  {
    hide Lex, ReadText;
    LexApostrophe(['\''] + rest);
    TailAfter('\'', rest, if ReadText(rest).Some? then 1 + ReadText(rest).value else 0);
  }

  /** A text literal has no newline, so it is read again. */
  lemma TextIndents(rest: string)
    ensures ReadText(Indent(rest)) == ReadText(rest)
    ensures ReadText(rest).Some? ==> var n := ReadText(rest).value;
      n < |Indent(rest)| && Indent(rest)[..n] == rest[..n] && Indent(rest)[n + 1..] == Indent(rest[n + 1..])
  {
    var n := Span(rest, IsWordChar);
    IndentedSpan(rest, IsWordChar);
    var tail := rest[n..];
    IndentHead(tail);
    if tail != "" && tail[0] == '\'' {
      assert Indent(tail) == ['\''] + Indent(tail[1..]);
      IndentHead(tail[1..]);
      assert tail[1..] == rest[n + 1..];
      assert Indent(rest)[n + 1..] == Indent(rest)[n..][1..];
      assert Indent(rest)[n..][1..] == Indent(tail[1..]);
      assert |tail| > 1 ==> tail[1..][0] == rest[n + 1];
      assert Indent(tail[1..]) != "" ==> Indent(rest)[n + 1] == Indent(tail[1..])[0];
    }
    assert tail != "" ==> Indent(rest)[n] == Indent(tail)[0] && rest[n] == tail[0];
  }

  lemma ApostropheIndents(s: string)
    requires s != "" && s[0] == '\''
    ensures s == ['\''] + s[1..] && Indent(s) == ['\''] + Indent(s[1..])
  {
  }

  lemma IndentedText(s: string)
    requires s != "" && s[0] == '\''
    requires ReadText(s[1..]).Some? ==> var n := 2 + ReadText(s[1..]).value; Lex(Indent(s[n..])) == IndentLexed(Lex(s[n..]))
    ensures Lex(Indent(s)) == IndentLexed(Lex(s))
  {
    hide Lex, ReadText, Indent, IndentLexed;
    var rest := s[1..];
    ApostropheIndents(s);
    LexTextThen(rest);
    LexTextThen(Indent(rest));
    TextIndents(rest);
    if ReadText(rest).Some? {
      var n := ReadText(rest).value;
      assert s[2 + n..] == rest[1 + n..];
      IndentPrepend(Text(rest[..n]), Lex(rest[1 + n..]));
    } else {
      NothingLexed();
    }
  }

  lemma LexQuote(s: string)
    requires s != "" && s[0] == '"'
    ensures var r := ReadQuoted(s[1..]); Lex(s) == if r.None? then None else Prepend([Quoted(r.value.0)], Lex(s[1 + r.value.1..]))
  {
    hide ReadQuoted, TextNat, Span;
  }

  lemma LexQuoteThen(rest: string)
    ensures var r := ReadQuoted(rest); Lex(['"'] + rest) == if r.None? then None else Prepend([Quoted(r.value.0)], Lex(rest[r.value.1..]))
  {
    hide Lex, ReadQuoted;
    LexQuote(['"'] + rest);
    TailAfter('"', rest, if ReadQuoted(rest).Some? then ReadQuoted(rest).value.1 else 0);
  }

  lemma QuoteIndents(s: string)
    requires s != "" && s[0] == '"'
    ensures s == ['"'] + s[1..] && Indent(s) == ['"'] + Indent(s[1..])
  {
  }

  lemma IndentedQuoted(s: string)
    requires s != "" && s[0] == '"'
    requires ReadQuoted(s[1..]).Some? ==> var n := 1 + ReadQuoted(s[1..]).value.1; Lex(Indent(s[n..])) == IndentLexed(Lex(s[n..]))
    ensures Lex(Indent(s)) == IndentLexed(Lex(s))
  {
    hide Lex, ReadQuoted, Indent, IndentLexed;
    var rest := s[1..];
    QuoteIndents(s);
    LexQuoteThen(rest);
    LexQuoteThen(Indent(rest));
    ReadIndented(rest);
    if ReadQuoted(rest).Some? {
      var (c, n) := ReadQuoted(rest).value;
      TailAfter('"', rest, n);
      IndentCut(rest, n);
      IndentPrepend(Quoted(c), Lex(rest[n..]));
    } else {
      NothingLexed();
    }
  }

  lemma LexOperatorStep(s: string)
    requires ReadOperator(s).Some?
    ensures var r := ReadOperator(s).value; Lex(s) == Prepend([Operator(r.0)], Lex(s[r.1..]))
  {
  }

  lemma IndentedOperator(s: string)
    requires ReadOperator(s).Some? && Lex(Indent(s[ReadOperator(s).value.1..])) == IndentLexed(Lex(s[ReadOperator(s).value.1..]))
    ensures Lex(Indent(s)) == IndentLexed(Lex(s))
  {
    hide Lex;
    var (op, n) := ReadOperator(s).value;
    var a, b := s[..n], s[n..];
    assert s == a + b && '\n' !in a;
    IndentPlain(a, b);
    IndentHead(b);
    hide Indent;
    assert ReadOperator(Indent(s)) == Some((op, n));
    assert Indent(s)[n..] == Indent(b);
    LexOperatorStep(s);
    LexOperatorStep(Indent(s));
    IndentPrepend(Operator(op), Lex(b));
  }

  predicate Marks(mark: string, t: Token) {
    || (mark == "(" && t == LeftParen) || (mark == ")" && t == RightParen) || (mark == "," && t == Comma) || (mark == "." && t == Dot)
    || (mark == "::" && t == CastMark)
  }

  lemma LexMarkStep(mark: string, t: Token, rest: string)
    requires Marks(mark, t)
    ensures Lex(mark + rest) == Prepend([t], Lex(rest))
  {
    assert (mark + rest)[|mark|..] == rest;
  }

  lemma IndentedMark(s: string, mark: string, t: Token, rest: string)
    requires s == mark + rest && Marks(mark, t) && Lex(Indent(rest)) == IndentLexed(Lex(rest))
    ensures Lex(Indent(s)) == IndentLexed(Lex(s))
  {
    hide Lex;
    assert '\n' !in mark;
    IndentPlain(mark, rest);
    LexMarkStep(mark, t, rest);
    LexMarkStep(mark, t, Indent(rest));
    IndentPrepend(t, Lex(rest));
  }

  /** The first characters decide that a text does not lex. */
  lemma Refused(s: string)
    requires s != "" && !IsSpace(s[0]) && s[0] !in {'(', ')', ',', '.', '$', '"', '\''} && ReadOperator(s).None? && !IsWordChar(s[0])
    requires s[0] == ':' ==> |s| == 1 || s[1] != ':'
    ensures Lex(s) == None
  {
    hide ReadOperator, ReadQuoted, ReadText, IsSpace;
  }

  lemma NoOperator(s: string, t: string)
    requires s != "" && t != "" && s[0] == t[0] && ReadOperator(s).None?
    ensures ReadOperator(t).None?
  {
  }

  /** Text that does not lex does not lex indented either. */
  lemma IndentedRefused(s: string)
    requires s != "" && !IsSpace(s[0]) && s[0] !in {'(', ')', ',', '.', '$', '"', '\''} && ReadOperator(s).None? && !IsWordChar(s[0])
    requires s[0] == ':' ==> |s| == 1 || s[1] != ':'
    ensures Lex(Indent(s)) == None && Lex(s) == None
  {
    hide Lex, ReadOperator;
    IndentHead(s);
    IndentHead(s[1..]);
    assert Indent(s) == [s[0]] + Indent(s[1..]);
    NoOperator(s, Indent(s));
    hide Indent;
    Refused(s);
    Refused(Indent(s));
  }

  lemma NothingIndented()
    ensures Lex(Indent("")) == IndentLexed(Lex(""))
  {
    assert IndentTokens([]) == [];
  }

  /** Indenting a text changes its tokens in the quoted names only. */
  lemma {:induction false} LexIndented(s: string)
    ensures Lex(Indent(s)) == IndentLexed(Lex(s))
    decreases |s|
  {
    hide Indent, ReadQuoted, ReadText, Lex, IndentLexed, ReadOperator;
    if s == "" {
      NothingIndented();
    } else if IsSpace(s[0]) {
      LexIndented(s[1..]);
      IndentedSpace(s);
      assert s == [s[0]] + s[1..];
      SpaceSkips(s[0], s[1..]);
    } else if s[0] == '(' || s[0] == ')' || s[0] == ',' || s[0] == '.' {
      LexIndented(s[1..]);
      assert s == [s[0]] + s[1..];
      IndentedMark(s, [s[0]], if s[0] == '(' then LeftParen else if s[0] == ')' then RightParen else if s[0] == ',' then Comma else Dot, s[1..]);
    } else if s[0] == ':' && |s| > 1 && s[1] == ':' {
      LexIndented(s[2..]);
      assert s == "::" + s[2..];
      IndentedMark(s, "::", CastMark, s[2..]);
    } else if s[0] == '$' {
      LexIndented(s[1 + Span(s[1..], IsDigit)..]);
      IndentedPlaceholder(s);
    } else if s[0] == '"' {
      if ReadQuoted(s[1..]).Some? {
        LexIndented(s[1 + ReadQuoted(s[1..]).value.1..]);
      }
      IndentedQuoted(s);
    } else if ReadOperator(s).Some? {
      OperatorAdvances(s);
      LexIndented(s[ReadOperator(s).value.1..]);
      IndentedOperator(s);
    } else if IsWordChar(s[0]) && !IsDigit(s[0]) {
      WordAdvances(s);
      LexIndented(s[Span(s, IsWordChar)..]);
      IndentedWord(s);
    } else if IsDigit(s[0]) {
      NumberAdvances(s);
      LexIndented(s[Span(s, IsDigit)..]);
      IndentedNumber(s);
    } else if s[0] == '\'' {
      if ReadText(s[1..]).Some? {
        LexIndented(s[2 + ReadText(s[1..]).value..]);
      }
      IndentedText(s);
    } else {
      IndentedRefused(s);
      assert IndentLexed(None) == None by {
        RefusedStays();
      }
    }
  }

  lemma RefusedStays()
    ensures IndentLexed(None) == None
  {
  }

  lemma OperatorAdvances(s: string)
    requires ReadOperator(s).Some?
    ensures 0 < ReadOperator(s).value.1 <= |s|
  {
  }

  lemma WordAdvances(s: string)
    requires s != "" && IsWordChar(s[0])
    ensures 0 < Span(s, IsWordChar)
  {
  }

  // ----- the names an indented clause is about -----

  function IndentItem(e: Expr): Expr {
    if e.Column? then Column(e.alias, Indent(e.column)) else e
  }

  function IndentPred(p: Pred): Pred
    decreases p
  {
    match p
    case PAnd(args) => PAnd(IndentAll(args))
    case POr(args) => POr(IndentAll(args))
    case PNot(arg) => PNot(IndentPred(arg))
    case PCompare(op, left, right) => PCompare(op, IndentItem(left), right)
    case PIn(item, options) => PIn(IndentItem(item), options)
    case PIsNull(item) => PIsNull(IndentItem(item))
    case PIsNotNull(item) => PIsNotNull(IndentItem(item))
  }

  function IndentAll(args: seq<Pred>): (r: seq<Pred>)
    ensures |r| == |args|
    decreases args
  {
    if args == [] then [] else [IndentPred(args[0])] + IndentAll(args[1..])
  }

  function IndentRelation(r: Relation): Relation {
    Relation(Indent(r.schema), Indent(r.relation))
  }

  function IndentJoin(j: Join): Join {
    Join(j.kind, IndentRelation(j.target), Indent(j.fromColumn), Indent(j.toColumn))
  }

  function IndentJoins(joins: seq<Join>): (r: seq<Join>)
    ensures |r| == |joins| && forall i :: 0 <= i < |joins| ==> r[i] == IndentJoin(joins[i])
  {
    if joins == [] then [] else [IndentJoin(joins[0])] + IndentJoins(joins[1..])
  }

  function IndentFrom(src: Source): Source
    requires src.From?
  {
    From(IndentRelation(src.base), IndentJoins(src.joins), if src.condition.Some? then Some(IndentPred(src.condition.value)) else None)
  }

  lemma TokensJoin(a: seq<Token>, b: seq<Token>)
    ensures IndentTokens(a + b) == IndentTokens(a) + IndentTokens(b)
  {
  }

  lemma TokensOne(t: Token)
    ensures IndentTokens([t]) == [IndentToken(t)]
  {
  }

  lemma TokensPlain(ts: seq<Token>)
    requires forall i :: 0 <= i < |ts| ==> !ts[i].Quoted?
    ensures IndentTokens(ts) == ts
  {
  }

  lemma ItemIndents(e: Expr)
    requires e.Column?
    ensures IndentTokens(ItemTokens(e)) == ItemTokens(IndentItem(e))
  {
    hide NatText, Indent;
  }

  lemma {:induction false} OptionsPlain(options: seq<Expr>)
    requires forall i :: 0 <= i < |options| ==> options[i].Param?
    ensures forall i :: 0 <= i < |OptionsTokens(options)| ==> !OptionsTokens(options)[i].Quoted?
  {
    if options != [] {
      OptionsPlain(options[1..]);
    }
  }

  lemma ComparandPlain(e: Expr)
    requires Comparand(e)
    ensures IndentTokens(ComparandTokens(e)) == ComparandTokens(e)
  {
    TokensPlain(ComparandTokens(e));
  }

  lemma {:induction false} PredIndents(p: Pred)
    requires Printable(p)
    ensures Printable(IndentPred(p)) && IndentTokens(PredTokens(p)) == PredTokens(IndentPred(p))
    decreases p
  {
    hide Indent, ItemTokens, ComparandTokens, OptionsTokens, IndentTokens;
    match p
    case PAnd(args) => GroupIndents(args, "AND");
    case POr(args) => GroupIndents(args, "OR");
    case PNot(arg) =>
      PredIndents(arg);
      NotIndents(PredTokens(arg));
    case PCompare(op, left, right) =>
      ItemIndents(left);
      ComparandPlain(right);
      CompareIndents(ItemTokens(left), op, ComparandTokens(right));
    case PIn(item, options) =>
      ItemIndents(item);
      OptionsPlain(options);
      TokensPlain(OptionsTokens(options));
      MemberIndents(ItemTokens(item), OptionsTokens(options));
    case PIsNull(item) =>
      ItemIndents(item);
      NullIndents(ItemTokens(item));
    case PIsNotNull(item) =>
      ItemIndents(item);
      NullIndents(ItemTokens(item));
  }

  lemma NotIndents(ts: seq<Token>)
    ensures IndentTokens([Word("NOT")] + [LeftParen] + ts + [RightParen]) == [Word("NOT")] + [LeftParen] + IndentTokens(ts) + [RightParen]
  {
  }

  lemma CompareIndents(item: seq<Token>, op: ComparisonOperator, right: seq<Token>)
    ensures IndentTokens(item + [Operator(op)] + right) == IndentTokens(item) + [Operator(op)] + IndentTokens(right)
  {
  }

  lemma MemberIndents(item: seq<Token>, options: seq<Token>)
    ensures IndentTokens(item + [Word("IN")] + [LeftParen] + options + [RightParen])
         == IndentTokens(item) + [Word("IN")] + [LeftParen] + IndentTokens(options) + [RightParen]
  {
  }

  lemma NullIndents(item: seq<Token>)
    ensures IndentTokens(item + [Word("IS")] + [Word("NULL")]) == IndentTokens(item) + [Word("IS")] + [Word("NULL")]
    ensures IndentTokens(item + [Word("IS")] + [Word("NOT")] + [Word("NULL")]) == IndentTokens(item) + [Word("IS")] + [Word("NOT")] + [Word("NULL")]
  {
  }

  lemma {:induction false} ArgumentsIndent(args: seq<Pred>, operator: string)
    requires AllPrintable(args)
    ensures AllPrintable(IndentAll(args)) && IndentTokens(ArgumentsTokens(args, operator)) == ArgumentsTokens(IndentAll(args), operator)
    decreases args, 0
  {
    hide IndentTokens, PredTokens, IndentPred, Printable;
    if args == [] {
      TokensPlain([]);
    } else {
      PredIndents(args[0]);
      ArgumentsIndent(args[1..], operator);
      assert IndentAll(args)[1..] == IndentAll(args[1..]);
      if |args| > 1 {
        SeparatedIndents(PredTokens(args[0]), operator, ArgumentsTokens(args[1..], operator));
      }
    }
  }

  lemma SeparatedIndents(a: seq<Token>, operator: string, b: seq<Token>)
    ensures IndentTokens(a + [Word(operator)] + b) == IndentTokens(a) + [Word(operator)] + IndentTokens(b)
  {
  }

  lemma {:induction false} GroupIndents(args: seq<Pred>, operator: string)
    requires AllPrintable(args)
    ensures AllPrintable(IndentAll(args))
    ensures IndentTokens([LeftParen] + ArgumentsTokens(args, operator) + [RightParen]) == [LeftParen] + ArgumentsTokens(IndentAll(args), operator) + [RightParen]
    decreases args, 1
  {
    ArgumentsIndent(args, operator);
    hide ArgumentsTokens;
    ParenthesesIndent(ArgumentsTokens(args, operator));
  }

  lemma ParenthesesIndent(ts: seq<Token>)
    ensures IndentTokens([LeftParen] + ts + [RightParen]) == [LeftParen] + IndentTokens(ts) + [RightParen]
  {
  }

  lemma TableIndents(r: Relation)
    ensures IndentTokens(TableTokens(r)) == TableTokens(IndentRelation(r))
  {
    hide Indent;
  }

  lemma NamedIndents(r: Relation, alias: nat)
    ensures IndentTokens(TableTokens(r) + AliasTokens(alias)) == TableTokens(IndentRelation(r)) + AliasTokens(alias)
  {
    hide TableTokens, AliasText;
    TableIndents(r);
    TokensJoin(TableTokens(r), AliasTokens(alias));
    TokensPlain(AliasTokens(alias));
  }

  lemma OnIndents(a: seq<Token>, b: seq<Token>)
    ensures IndentTokens([Word("ON")] + a + [Operator(Eq)] + b) == [Word("ON")] + IndentTokens(a) + [Operator(Eq)] + IndentTokens(b)
  {
  }

  lemma JoinIndents(join: Join, alias: nat)
    ensures IndentTokens(JoinTokens(join, alias)) == JoinTokens(IndentJoin(join), alias)
  {
    hide TableTokens, AliasTokens, ItemTokens, IndentTokens, Indent;
    var named := TableTokens(join.target) + AliasTokens(alias);
    var left, right := ItemTokens(Column(0, join.fromColumn)), ItemTokens(Column(alias, join.toColumn));
    NamedIndents(join.target, alias);
    ItemIndents(Column(0, join.fromColumn));
    ItemIndents(Column(alias, join.toColumn));
    OnIndents(left, right);
    PrefixIndents(join.kind, named, [Word("ON")] + left + [Operator(Eq)] + right);
  }

  lemma PrefixIndents(kind: JoinType, a: seq<Token>, b: seq<Token>)
    ensures IndentTokens([Word(JoinWord(kind))] + [Word("JOIN")] + a + b) == [Word(JoinWord(kind))] + [Word("JOIN")] + IndentTokens(a) + IndentTokens(b)
  {
  }

  lemma {:induction false} JoinsIndent(joins: seq<Join>, alias: nat)
    ensures IndentTokens(JoinsTokens(joins, alias)) == JoinsTokens(IndentJoins(joins), alias)
    decreases |joins|
  {
    hide JoinTokens;
    if joins == [] {
      TokensPlain([]);
    } else {
      JoinIndents(joins[0], alias);
      JoinsIndent(joins[1..], alias + 1);
      TokensJoin(JoinTokens(joins[0], alias), JoinsTokens(joins[1..], alias + 1));
      assert IndentJoins(joins)[1..] == IndentJoins(joins[1..]);
    }
  }

  lemma FromIndents(src: Source)
    requires PrintableFrom(src)
    ensures PrintableFrom(IndentFrom(src)) && IndentTokens(FromTokens(src)) == FromTokens(IndentFrom(src))
  {
    hide TableTokens, AliasTokens, JoinsTokens, IndentTokens, PredTokens, IndentPred, IndentJoins;
    var named, joins, where_ := TableTokens(src.base) + AliasTokens(0), JoinsTokens(src.joins, 1), WhereTokens(src.condition);
    NamedIndents(src.base, 0);
    JoinsIndent(src.joins, 1);
    if src.condition.Some? {
      PredIndents(src.condition.value);
      TokensOne(Word("WHERE"));
      TokensJoin([Word("WHERE")], PredTokens(src.condition.value));
    } else {
      TokensPlain(where_);
    }
    TokensOne(Word("FROM"));
    TokensJoin([Word("FROM")] + named + joins, where_);
    TokensJoin([Word("FROM")] + named, joins);
    TokensJoin([Word("FROM")], named);
  }

  // ----- exactly when nothing changes -----

  function ColumnsOf(p: Pred): seq<string>
    decreases p
  {
    match p
    case PAnd(args) => AllColumns(args)
    case POr(args) => AllColumns(args)
    case PNot(arg) => ColumnsOf(arg)
    case PCompare(_, left, _) => ItemColumn(left)
    case PIn(item, _) => ItemColumn(item)
    case PIsNull(item) => ItemColumn(item)
    case PIsNotNull(item) => ItemColumn(item)
  }

  function AllColumns(args: seq<Pred>): seq<string>
    decreases args
  {
    if args == [] then [] else ColumnsOf(args[0]) + AllColumns(args[1..])
  }

  function ItemColumn(e: Expr): seq<string> {
    if e.Column? then [e.column] else []
  }

  function IndentNames(names: seq<string>): (r: seq<string>)
    ensures |r| == |names| && forall i :: 0 <= i < |names| ==> r[i] == Indent(names[i])
  {
    seq(|names|, i requires 0 <= i < |names| => Indent(names[i]))
  }

  predicate NoNewlines(names: seq<string>) {
    forall i :: 0 <= i < |names| ==> '\n' !in names[i]
  }

  lemma NamesExactly(names: seq<string>)
    ensures IndentNames(names) == names <==> NoNewlines(names)
  {
    forall i | 0 <= i < |names|
      ensures Indent(names[i]) == names[i] <==> '\n' !in names[i]
    {
      IndentExactly(names[i]);
    }
    if IndentNames(names) == names {
      assert forall i :: 0 <= i < |names| ==> Indent(names[i]) == names[i];
    }
  }

  lemma {:induction false} ColumnsIndent(p: Pred)
    ensures ColumnsOf(IndentPred(p)) == IndentNames(ColumnsOf(p))
    decreases p
  {
    hide Indent;
    match p
    case PAnd(args) => AllColumnsIndent(args);
    case POr(args) => AllColumnsIndent(args);
    case PNot(arg) => ColumnsIndent(arg);
    case _ =>
  }

  lemma {:induction false} AllColumnsIndent(args: seq<Pred>)
    ensures AllColumns(IndentAll(args)) == IndentNames(AllColumns(args))
    decreases args
  {
    hide Indent, ColumnsOf;
    if args != [] {
      ColumnsIndent(args[0]);
      AllColumnsIndent(args[1..]);
      assert IndentAll(args)[1..] == IndentAll(args[1..]);
    }
  }

  lemma {:induction false} CollapseKeepsColumns(p: Pred)
    ensures ColumnsOf(Collapse(p)) == ColumnsOf(p)
    decreases p
  {
    match p
    case PAnd(args) =>
      if |args| == 1 {
        CollapseKeepsColumns(args[0]);
        OneArgument(args);
      } else {
        CollapseAllKeepsColumns(args);
      }
    case POr(args) =>
      if |args| == 1 {
        CollapseKeepsColumns(args[0]);
        OneArgument(args);
      } else {
        CollapseAllKeepsColumns(args);
      }
    case PNot(arg) => CollapseKeepsColumns(arg);
    case _ =>
  }

  lemma OneArgument(args: seq<Pred>)
    requires |args| == 1
    ensures AllColumns(args) == ColumnsOf(args[0])
  {
    hide ColumnsOf;
    assert args[1..] == [];
    assert ColumnsOf(args[0]) + [] == ColumnsOf(args[0]);
  }

  lemma {:induction false} CollapseAllKeepsColumns(args: seq<Pred>)
    ensures AllColumns(CollapseAll(args)) == AllColumns(args)
    decreases args
  {
    hide ColumnsOf, Collapse;
    if args != [] {
      CollapseKeepsColumns(args[0]);
      CollapseAllKeepsColumns(args[1..]);
      assert CollapseAll(args)[1..] == CollapseAll(args[1..]);
    }
  }

  lemma {:induction false} PlainPred(p: Pred)
    requires NoNewlines(ColumnsOf(p))
    ensures IndentPred(p) == p
    decreases p
  {
    match p
    case PAnd(args) => PlainPreds(args);
    case POr(args) => PlainPreds(args);
    case PNot(arg) => PlainPred(arg);
    case PCompare(_, left, _) => PlainItem(left);
    case PIn(item, _) => PlainItem(item);
    case PIsNull(item) => PlainItem(item);
    case PIsNotNull(item) => PlainItem(item);
  }

  lemma PlainItem(e: Expr)
    requires NoNewlines(ItemColumn(e))
    ensures IndentItem(e) == e
  {
    if e.Column? {
      assert '\n' !in ItemColumn(e)[0];
      IndentExactly(e.column);
    }
  }

  lemma {:induction false} PlainPreds(args: seq<Pred>)
    requires NoNewlines(AllColumns(args))
    ensures IndentAll(args) == args
    decreases args
  {
    hide ColumnsOf, IndentPred;
    if args != [] {
      NoNewlinesSplit(ColumnsOf(args[0]), AllColumns(args[1..]));
      PlainPred(args[0]);
      PlainPreds(args[1..]);
      assert [args[0]] + args[1..] == args;
    }
  }

  lemma NoNewlinesSplit(a: seq<string>, b: seq<string>)
    ensures NoNewlines(a + b) <==> NoNewlines(a) && NoNewlines(b)
  {
    if NoNewlines(a + b) {
      assert forall i :: 0 <= i < |a| ==> (a + b)[i] == a[i];
      assert forall i :: 0 <= i < |b| ==> (a + b)[|a| + i] == b[i];
    }
  }

  /** After indentation a predicate is about the same columns exactly when none of their names has a newline. */
  lemma IndentedPredExactly(p: Pred)
    ensures Collapse(IndentPred(p)) == Collapse(p) <==> NoNewlines(ColumnsOf(p))
  {
    hide Collapse, ColumnsOf, IndentPred;
    ColumnsIndent(p);
    CollapseKeepsColumns(p);
    CollapseKeepsColumns(IndentPred(p));
    NamesExactly(ColumnsOf(p));
    if NoNewlines(ColumnsOf(p)) {
      PlainPred(p);
    }
  }

  /** Indented predicate text reads back to itself exactly then. */
  lemma IndentedPredicateReads(p: Pred)
    requires Printable(p)
    ensures Printable(IndentPred(p)) && Read(Indent(PredText(p))) == Some(Collapse(IndentPred(p)))
    ensures Read(Indent(PredText(p))) == Some(Collapse(p)) <==> NoNewlines(ColumnsOf(p))
  {
    hide Collapse, ColumnsOf, IndentPred, Lex, ParseNot, ParseOr, PredText, PredTokens, Indent;
    PredIndents(p);
    LexPred(p, "");
    WholeText(PredText(p), PredTokens(p));
    LexIndented(PredText(p));
    var q := IndentPred(p);
    var ts := PredTokens(q);
    ParsesPred(q, []);
    assert ts + [] == ts;
    OperandOfOr(ts, Collapse(q), []);
    ConditionAlone(ts, Collapse(q), []);
    IndentedPredExactly(p);
  }

  // ----- the whole clause -----

  function RelationNames(r: Relation): seq<string> { [r.schema, r.relation] }

  function JoinNames(j: Join): seq<string> { [j.target.schema, j.target.relation, j.fromColumn, j.toColumn] }

  function JoinsNames(joins: seq<Join>): seq<string> {
    if joins == [] then [] else JoinNames(joins[0]) + JoinsNames(joins[1..])
  }

  /** Every name a FROM clause mentions. */
  function FromNames(src: Source): seq<string>
    requires src.From?
  {
    RelationNames(src.base) + JoinsNames(src.joins) + (if src.condition.Some? then ColumnsOf(src.condition.value) else [])
  }

  lemma RelationExactly(r: Relation)
    ensures IndentRelation(r) == r <==> NoNewlines(RelationNames(r))
  {
    IndentExactly(r.schema);
    IndentExactly(r.relation);
    var names := RelationNames(r);
    assert names[0] == r.schema && names[1] == r.relation;
    hide Indent;
  }

  lemma JoinExactly(j: Join)
    ensures IndentJoin(j) == j <==> NoNewlines(JoinNames(j))
  {
    IndentExactly(j.target.schema);
    IndentExactly(j.target.relation);
    IndentExactly(j.fromColumn);
    IndentExactly(j.toColumn);
    var names := JoinNames(j);
    assert names[0] == j.target.schema && names[1] == j.target.relation && names[2] == j.fromColumn && names[3] == j.toColumn;
    hide Indent;
  }

  lemma {:induction false} JoinsExactly(joins: seq<Join>)
    ensures IndentJoins(joins) == joins <==> NoNewlines(JoinsNames(joins))
  {
    hide IndentJoin, JoinNames, NoNewlines;
    if joins == [] {
      NoNames();
    } else {
      JoinExactly(joins[0]);
      JoinsExactly(joins[1..]);
      NoNewlinesSplit(JoinNames(joins[0]), JoinsNames(joins[1..]));
      assert joins == [joins[0]] + joins[1..];
      assert IndentJoins(joins)[1..] == IndentJoins(joins[1..]);
    }
  }

  lemma NoNames()
    ensures NoNewlines([])
  {
  }

  lemma FromExactly(src: Source)
    requires src.From?
    ensures CollapseFrom(IndentFrom(src)) == CollapseFrom(src) <==> NoNewlines(FromNames(src))
  {
    hide IndentRelation, IndentJoins, IndentPred, Collapse, ColumnsOf, RelationNames, JoinsNames, NoNewlines;
    RelationExactly(src.base);
    JoinsExactly(src.joins);
    var columns := if src.condition.Some? then ColumnsOf(src.condition.value) else [];
    if src.condition.Some? {
      IndentedPredExactly(src.condition.value);
    } else {
      NoNames();
    }
    NoNewlinesSplit(RelationNames(src.base) + JoinsNames(src.joins), columns);
    NoNewlinesSplit(RelationNames(src.base), JoinsNames(src.joins));
  }

  /** The indented FROM clause is read with every name indented, and so as itself exactly when no name in it has a newline. */
  lemma IndentedFromReads(src: Source)
    requires PrintableFrom(src)
    ensures ReadFrom(Indent(FromText(src))) == Some(CollapseFrom(IndentFrom(src)))
    ensures ReadFrom(Indent(FromText(src))) == Some(CollapseFrom(src)) <==> NoNewlines(FromNames(src))
  {
    hide Lex, ParseFrom, FromText, FromTokens, Indent, IndentFrom, CollapseFrom, FromNames;
    LexFrom(src);
    LexIndented(FromText(src));
    FromIndents(src);
    ParsesFrom(IndentFrom(src), []);
    assert FromTokens(IndentFrom(src)) + [] == FromTokens(IndentFrom(src));
    FromExactly(src);
  }

  /** Collapsing the condition does not change which rows a FROM clause yields. */
  lemma CollapsedFromSame(src: Source, ps: seq<CompiledParameter>, it: Interpretation, db: Database)
    requires src.From?
    ensures SourceRows(CollapseFrom(src), ps, it, db) == SourceRows(src, ps, it, db)
  {
    if src.condition.Some? {
      PassingSame(src.condition.value, JoinAll(db, src.joins, Singletons(Table(db, src.base))), ps, it);
    }
  }

  lemma {:induction false} PassingSame(p: Pred, tuples: seq<seq<Row>>, ps: seq<CompiledParameter>, it: Interpretation)
    ensures Passing(Some(Collapse(p)), tuples, ps, it) == Passing(Some(p), tuples, ps, it)
  {
    hide Collapse;
    if tuples != [] {
      CollapseMeansSame(p, Joined(tuples[0]), ps, it);
      PassingSame(p, tuples[1..], ps, it);
    }
  }
}
