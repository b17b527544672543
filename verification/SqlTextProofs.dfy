/** Printed predicates read back: the text of a rendered filter lexes and parses to a predicate with the same meaning. */
module SqlTextProofs {
  import opened Prelude
  import opened Semantic
  import opened Relational
  import opened SqlText

  // ----- lexing one token off the front -----

  /** A number is read back as printed. */
  lemma {:induction false} NumberRoundTrip(n: nat)
    ensures TextNat(NatText(n)) == n
  {
    if n >= 10 {
      NumberRoundTrip(n / 10);
      var s := NatText(n);
      assert s[..|s| - 1] == NatText(n / 10);
    }
  }

  lemma ReadOne(c: char, more: string, s: string, n: nat)
    requires ReadQuoted(more) == Some((s, n))
    ensures c != '"' ==> ReadQuoted([c] + more) == Some(([c] + s, 1 + n))
    ensures ReadQuoted("\"\"" + more) == Some((['"'] + s, 2 + n))
  {
    assert ([c] + more)[1..] == more;
    assert ("\"\"" + more)[2..] == more;
  }

  function EscapedChar(c: char): string {
    if c == '"' then "\"\"" else [c]
  }

  lemma EscapeStep(s: string, rest: string)
    requires s != ""
    ensures Escape(s) + "\"" + rest == EscapedChar(s[0]) + (Escape(s[1..]) + "\"" + rest)
    ensures |Escape(s)| == |EscapedChar(s[0])| + |Escape(s[1..])| && [s[0]] + s[1..] == s
  {
    var c, more := EscapedChar(s[0]), Escape(s[1..]);
    assert Escape(s) == c + more;
    hide Escape, EscapedChar;
    Regroup(c, more, "\"", rest);
  }

  lemma Regroup(a: string, b: string, c: string, d: string)
    ensures (a + b) + c + d == a + (b + c + d)
  {
  }

  /** Doubling quotes is undone exactly by reading a quoted identifier, for every string. */
  lemma {:induction false} QuotedRoundTrip(s: string, rest: string)
    requires rest == "" || rest[0] != '"'
    ensures ReadQuoted(Escape(s) + "\"" + rest) == Some((s, |Escape(s)| + 1))
  {
    if s == "" {
      assert Escape(s) + "\"" + rest == "\"" + rest;
    } else {
      hide ReadQuoted, Escape;
      QuotedRoundTrip(s[1..], rest);
      ReadOne(s[0], Escape(s[1..]) + "\"" + rest, s[1..], |Escape(s[1..])| + 1);
      EscapeStep(s, rest);
    }
  }

  /** No two identifiers are quoted alike. */
  lemma QuotingInjective(a: string, b: string)
    ensures QuoteIdentifier(a) == QuoteIdentifier(b) <==> a == b
  {
    QuotedRoundTrip(a, "");
    QuotedRoundTrip(b, "");
    assert QuoteIdentifier(a)[1..] == Escape(a) + "\"" + "";
    assert QuoteIdentifier(b)[1..] == Escape(b) + "\"" + "";
  }

  /** Lexing this text before that rest yields these tokens and then the rest's. */
  ghost predicate Lexes(text: string, ts: seq<Token>, rest: string) {
    Lex(text + rest) == Prepend(ts, Lex(rest))
  }

  /** Pieces that lex one by one lex together. */
  lemma Then(a: string, ta: seq<Token>, b: string, tb: seq<Token>, rest: string)
    requires Lexes(a, ta, b + rest) && Lexes(b, tb, rest)
    ensures Lexes(a + b, ta + tb, rest)
  {
    hide Lex;
    assert (a + b) + rest == a + (b + rest);
    if Lex(rest).Some? {
      assert ta + (tb + Lex(rest).value) == (ta + tb) + Lex(rest).value;
    }
  }

  lemma ThenSpace(a: string, ta: seq<Token>, rest: string)
    requires Lexes(a, ta, " " + rest)
    ensures Lexes(a + " ", ta, rest)
  {
    assert (a + " ") + rest == a + (" " + rest);
    assert (" " + rest)[1..] == rest;
  }

  lemma LexQuoted(s: string, rest: string)
    requires rest == "" || rest[0] != '"'
    ensures Lexes(QuoteIdentifier(s), [Quoted(s)], rest)
  {
    hide ReadQuoted, Escape;
    QuotedRoundTrip(s, rest);
    var text := QuoteIdentifier(s) + rest;
    assert text[1..] == Escape(s) + "\"" + rest;
    assert text[1 + (|Escape(s)| + 1)..] == rest;
  }

  predicate IsWord(w: string) {
    w != "" && !IsDigit(w[0]) && forall i :: 0 <= i < |w| ==> IsWordChar(w[i])
  }

  lemma {:induction false} SpanExact(a: string, rest: string, class_: char -> bool)
    requires (forall i :: 0 <= i < |a| ==> class_(a[i])) && (rest == "" || !class_(rest[0]))
    ensures Span(a + rest, class_) == |a|
  {
    if a == "" {
      assert a + rest == rest;
    } else {
      SpanExact(a[1..], rest, class_);
      assert (a + rest)[1..] == a[1..] + rest;
    }
  }

  lemma LexWord(w: string, rest: string)
    requires IsWord(w) && (rest == "" || !IsWordChar(rest[0]))
    ensures Lexes(w, [Word(w)], rest)
  {
    var text := w + rest;
    assert text[0] == w[0] && IsWordChar(w[0]);
    SpanExact(w, rest, IsWordChar);
    assert text[..|w|] == w && text[|w|..] == rest;
  }

  lemma LexPlaceholder(position: nat, rest: string)
    requires rest == "" || !IsDigit(rest[0])
    ensures Lexes(PlaceholderText(position), [Placeholder(position)], rest)
  {
    hide TextNat, NatText;
    var digits := NatText(position);
    var text := PlaceholderText(position) + rest;
    assert text[1..] == digits + rest;
    SpanExact(digits, rest, IsDigit);
    assert text[1..][..|digits|] == digits && text[1 + |digits|..] == rest;
    NumberRoundTrip(position);
  }

  lemma LexOperator(op: ComparisonOperator, rest: string)
    requires rest != "" && rest[0] == ' '
    ensures Lexes(OperatorText(op), [Operator(op)], rest)
  {
    var text := OperatorText(op) + rest;
    assert text[|OperatorText(op)|..] == rest;
    assert text[|OperatorText(op)|] == ' ';
  }

  lemma LexMark(mark: string, t: Token, rest: string)
    requires (mark == "(" && t == LeftParen) || (mark == ")" && t == RightParen) || (mark == "," && t == Comma) || (mark == "." && t == Dot)
    ensures Lexes(mark, [t], rest)
  {
    assert (mark + rest)[1..] == rest;
  }

  lemma LexCast(name: string, rest: string)
    requires IsWord(name) && (rest == "" || !IsWordChar(rest[0]))
    ensures Lexes(CastText(name), [CastMark] + [Word(name)], rest)
  {
    assert ("::" + (name + rest))[2..] == name + rest;
    LexWord(name, rest);
    Then("::", [CastMark], name, [Word(name)], rest);
  }

  // ----- lexing the pieces of a predicate -----

  /** What may follow a piece of a predicate: nothing, a space, a closing parenthesis, a comma or a new line. */
  predicate Delimited(rest: string) {
    rest == "" || rest[0] == ' ' || rest[0] == ')' || rest[0] == ',' || rest[0] == '\n'
  }

  function CastTokens(name: string): seq<Token> {
    [CastMark] + [Word(name)]
  }

  function ParameterTokens(position: nat, t: DataType): seq<Token> {
    if t == TextType then [Placeholder(position)] + CastTokens("text")
    else [Placeholder(position)] + CastTokens("text") + CastTokens(TypeName(t))
  }

  function ItemTokens(e: Expr): seq<Token>
    requires e.Column?
  {
    [Word("t" + NatText(e.alias))] + [Dot] + [Quoted(e.column)]
  }

  function DayStartTokens(zone: nat, day: nat): seq<Token> {
    [Word("timezone")] + [LeftParen] + ParameterTokens(zone, TextType) + [Comma] + ParameterTokens(day, DateType) + CastTokens("timestamp") + [RightParen]
  }

  function ComparandTokens(e: Expr): seq<Token>
    requires Comparand(e)
  {
    match e
    case Param(position, t) => ParameterTokens(position, t)
    case DayStart(zone, day) => DayStartTokens(zone, day)
  }

  function OptionsTokens(options: seq<Expr>): seq<Token>
    requires forall i :: 0 <= i < |options| ==> options[i].Param?
  {
    if options == [] then []
    else if |options| == 1 then ParameterTokens(options[0].position, options[0].cast)
    else ParameterTokens(options[0].position, options[0].cast) + [Comma] + OptionsTokens(options[1..])
  }

  function PredTokens(p: Pred): seq<Token>
    requires Printable(p)
    decreases p
  {
    match p
    case PAnd(args) => [LeftParen] + ArgumentsTokens(args, "AND") + [RightParen]
    case POr(args) => [LeftParen] + ArgumentsTokens(args, "OR") + [RightParen]
    case PNot(arg) => [Word("NOT")] + [LeftParen] + PredTokens(arg) + [RightParen]
    case PCompare(op, left, right) => ItemTokens(left) + [Operator(op)] + ComparandTokens(right)
    case PIn(item, options) => ItemTokens(item) + [Word("IN")] + [LeftParen] + OptionsTokens(options) + [RightParen]
    case PIsNull(item) => ItemTokens(item) + [Word("IS")] + [Word("NULL")]
    case PIsNotNull(item) => ItemTokens(item) + [Word("IS")] + [Word("NOT")] + [Word("NULL")]
  }

  function ArgumentsTokens(args: seq<Pred>, operator: string): seq<Token>
    requires AllPrintable(args)
    decreases args
  {
    if args == [] then []
    else if |args| == 1 then PredTokens(args[0])
    else PredTokens(args[0]) + [Word(operator)] + ArgumentsTokens(args[1..], operator)
  }

  lemma TypeNameIsWord(t: DataType)
    ensures IsWord(TypeName(t)) && TypeNamed(TypeName(t)) == Some(t)
  {
  }

  lemma LexParameter(position: nat, t: DataType, rest: string)
    requires rest == "" || !IsWordChar(rest[0])
    ensures Lexes(ParameterText(position, t), ParameterTokens(position, t), rest)
  {
    hide Lexes;
    var last := if t == TextType then rest else CastText(TypeName(t)) + rest;
    LexPlaceholder(position, CastText("text") + last);
    LexCast("text", last);
    Then(PlaceholderText(position), [Placeholder(position)], CastText("text"), CastTokens("text"), last);
    if t != TextType {
      TypeNameIsWord(t);
      LexCast(TypeName(t), rest);
      Then(PlaceholderText(position) + CastText("text"), [Placeholder(position)] + CastTokens("text"), CastText(TypeName(t)), CastTokens(TypeName(t)), rest);
    }
  }

  lemma LexItem(e: Expr, rest: string)
    requires e.Column? && Delimited(rest)
    ensures Lexes(ItemText(e), ItemTokens(e), rest)
  {
    hide Lexes, NatText, Escape;
    var alias, quoted := "t" + NatText(e.alias), QuoteIdentifier(e.column);
    assert IsWord(alias);
    LexWord(alias, "." + (quoted + rest));
    LexMark(".", Dot, quoted + rest);
    LexQuoted(e.column, rest);
    Then(alias, [Word(alias)], ".", [Dot], quoted + rest);
    Then(alias + ".", [Word(alias)] + [Dot], quoted, [Quoted(e.column)], rest);
  }

  lemma LexZone(zone: nat, rest: string)
    ensures Lexes("timezone" + "(" + ParameterText(zone, TextType) + "," + " ", [Word("timezone")] + [LeftParen] + ParameterTokens(zone, TextType) + [Comma], rest)
  {
    hide Lexes, ParameterText, ParameterTokens;
    var z, tz := ParameterText(zone, TextType), ParameterTokens(zone, TextType);
    var r0 := " " + rest;
    var r1 := "," + r0;
    var r2 := z + r1;
    LexWord("timezone", "(" + r2);
    LexMark("(", LeftParen, r2);
    LexParameter(zone, TextType, r1);
    LexMark(",", Comma, r0);
    Then("timezone", [Word("timezone")], "(", [LeftParen], r2);
    Then("timezone" + "(", [Word("timezone")] + [LeftParen], z, tz, r1);
    Then("timezone" + "(" + z, [Word("timezone")] + [LeftParen] + tz, ",", [Comma], r0);
    ThenSpace("timezone" + "(" + z + ",", [Word("timezone")] + [LeftParen] + tz + [Comma], rest);
  }

  lemma LexDayStart(zone: nat, day: nat, rest: string)
    ensures Lexes(DayStartText(zone, day), DayStartTokens(zone, day), rest)
  {
    hide Lexes, ParameterText, ParameterTokens, CastTokens;
    var a := "timezone" + "(" + ParameterText(zone, TextType) + "," + " ";
    var ta := [Word("timezone")] + [LeftParen] + ParameterTokens(zone, TextType) + [Comma];
    var d, td := ParameterText(day, DateType), ParameterTokens(day, DateType);
    var c, tc := CastText("timestamp"), CastTokens("timestamp");
    var r1 := ")" + rest;
    LexMark(")", RightParen, rest);
    CastLexes("timestamp", r1);
    LexParameter(day, DateType, c + r1);
    LexZone(zone, d + (c + r1));
    Then(a, ta, d, td, c + r1);
    Then(a + d, ta + td, c, tc, r1);
    Then(a + d + c, ta + td + tc, ")", [RightParen], rest);
  }

  lemma CastLexes(name: string, rest: string)
    requires IsWord(name) && (rest == "" || !IsWordChar(rest[0]))
    ensures Lexes(CastText(name), CastTokens(name), rest)
  {
    LexCast(name, rest);
  }

  lemma LexComparand(e: Expr, rest: string)
    requires Comparand(e) && Delimited(rest)
    ensures Lexes(ComparandText(e), ComparandTokens(e), rest)
  {
    match e
    case Param(position, t) => LexParameter(position, t, rest);
    case DayStart(zone, day) => LexDayStart(zone, day, rest);
  }

  lemma {:induction false} LexOptions(options: seq<Expr>, rest: string)
    requires options != [] && (forall i :: 0 <= i < |options| ==> options[i].Param?) && Delimited(rest)
    ensures Lexes(OptionsText(options), OptionsTokens(options), rest)
  {
    hide Lexes, ParameterText, ParameterTokens;
    var text, ts := ParameterText(options[0].position, options[0].cast), ParameterTokens(options[0].position, options[0].cast);
    if |options| == 1 {
      LexParameter(options[0].position, options[0].cast, rest);
    } else {
      var more := OptionsText(options[1..]);
      LexOptions(options[1..], rest);
      LexParameter(options[0].position, options[0].cast, "," + (" " + (more + rest)));
      LexMark(",", Comma, " " + (more + rest));
      Then(text, ts, ",", [Comma], " " + (more + rest));
      ThenSpace(text + ",", ts + [Comma], more + rest);
      Then(text + "," + " ", ts + [Comma], more, OptionsTokens(options[1..]), rest);
    }
  }

  /** Text, a space and a keyword. */
  lemma ThenWord(a: string, ta: seq<Token>, w: string, rest: string)
    requires IsWord(w) && (rest == "" || !IsWordChar(rest[0]))
    requires Lexes(a, ta, " " + (w + rest))
    ensures Lexes(a + " " + w, ta + [Word(w)], rest)
  {
    hide Lexes;
    ThenSpace(a, ta, w + rest);
    LexWord(w, rest);
    Then(a + " ", ta, w, [Word(w)], rest);
  }

  lemma LexParenthesised(a: string, ta: seq<Token>, text: string, ts: seq<Token>, rest: string)
    requires Lexes(a, ta, "(" + (text + (")" + rest))) && Lexes(text, ts, ")" + rest)
    ensures Lexes(a + "(" + text + ")", ta + [LeftParen] + ts + [RightParen], rest)
  {
    hide Lexes;
    LexMark("(", LeftParen, text + (")" + rest));
    LexMark(")", RightParen, rest);
    Then(a, ta, "(", [LeftParen], text + (")" + rest));
    Then(a + "(", ta + [LeftParen], text, ts, ")" + rest);
    Then(a + "(" + text, ta + [LeftParen] + ts, ")", [RightParen], rest);
  }

  lemma LexGroup(text: string, ts: seq<Token>, rest: string)
    requires Lexes(text, ts, ")" + rest)
    ensures Lexes("(" + text + ")", [LeftParen] + ts + [RightParen], rest)
  {
    hide Lexes;
    LexMark("(", LeftParen, text + (")" + rest));
    LexMark(")", RightParen, rest);
    Then("(", [LeftParen], text, ts, ")" + rest);
    Then("(" + text, [LeftParen] + ts, ")", [RightParen], rest);
  }

  lemma LexCompare(op: ComparisonOperator, left: Expr, right: Expr, rest: string)
    requires left.Column? && Comparand(right) && Delimited(rest)
    ensures Lexes(ItemText(left) + " " + OperatorText(op) + " " + ComparandText(right), ItemTokens(left) + [Operator(op)] + ComparandTokens(right), rest)
  {
    hide Lexes, ItemText, ItemTokens, ComparandText, ComparandTokens, OperatorText;
    var a, ta, o, c := ItemText(left), ItemTokens(left), OperatorText(op), ComparandText(right);
    var r1 := " " + (c + rest);
    LexItem(left, " " + (o + r1));
    ThenSpace(a, ta, o + r1);
    LexOperator(op, r1);
    Then(a + " ", ta, o, [Operator(op)], r1);
    ThenSpace(a + " " + o, ta + [Operator(op)], c + rest);
    LexComparand(right, rest);
    Then(a + " " + o + " ", ta + [Operator(op)], c, ComparandTokens(right), rest);
  }

  lemma LexMember(item: Expr, options: seq<Expr>, rest: string)
    requires item.Column? && options != [] && forall i :: 0 <= i < |options| ==> options[i].Param?
    ensures Lexes(ItemText(item) + " " + "IN" + " " + "(" + OptionsText(options) + ")",
                  ItemTokens(item) + [Word("IN")] + [LeftParen] + OptionsTokens(options) + [RightParen], rest)
  {
    hide Lexes, ItemText, ItemTokens, OptionsText, OptionsTokens;
    var a, ta, text := ItemText(item), ItemTokens(item), OptionsText(options);
    var r1 := "(" + (text + (")" + rest));
    LexItem(item, " " + ("IN" + (" " + r1)));
    ThenWord(a, ta, "IN", " " + r1);
    ThenSpace(a + " " + "IN", ta + [Word("IN")], r1);
    LexOptions(options, ")" + rest);
    LexParenthesised(a + " " + "IN" + " ", ta + [Word("IN")], text, OptionsTokens(options), rest);
  }

  lemma LexNullTests(item: Expr, rest: string)
    requires item.Column? && Delimited(rest)
    ensures Lexes(ItemText(item) + " " + "IS" + " " + "NULL", ItemTokens(item) + [Word("IS")] + [Word("NULL")], rest)
    ensures Lexes(ItemText(item) + " " + "IS" + " " + "NOT" + " " + "NULL", ItemTokens(item) + [Word("IS")] + [Word("NOT")] + [Word("NULL")], rest)
  {
    hide Lexes, ItemText, ItemTokens;
    var a, ta := ItemText(item), ItemTokens(item);
    var r1 := " " + ("NULL" + rest);
    LexItem(item, " " + ("IS" + r1));
    ThenWord(a, ta, "IS", r1);
    ThenWord(a + " " + "IS", ta + [Word("IS")], "NULL", rest);
    var r2 := " " + ("NOT" + r1);
    LexItem(item, " " + ("IS" + r2));
    ThenWord(a, ta, "IS", r2);
    ThenWord(a + " " + "IS", ta + [Word("IS")], "NOT", r1);
    ThenWord(a + " " + "IS" + " " + "NOT", ta + [Word("IS")] + [Word("NOT")], "NULL", rest);
  }

  /** The text of a predicate lexes to its tokens, whatever delimiter follows. */
  lemma {:induction false} LexPred(p: Pred, rest: string)
    requires Printable(p) && Delimited(rest)
    ensures Lexes(PredText(p), PredTokens(p), rest)
    decreases p
  {
    hide Lexes;
    match p
    case PAnd(args) =>
      LexArguments(args, "AND", ")" + rest);
      LexGroup(ArgumentsText(args, "AND"), ArgumentsTokens(args, "AND"), rest);
    case POr(args) =>
      LexArguments(args, "OR", ")" + rest);
      LexGroup(ArgumentsText(args, "OR"), ArgumentsTokens(args, "OR"), rest);
    case PNot(arg) =>
      LexPred(arg, ")" + rest);
      LexWord("NOT", " " + ("(" + (PredText(arg) + (")" + rest))));
      ThenSpace("NOT", [Word("NOT")], "(" + (PredText(arg) + (")" + rest)));
      LexParenthesised("NOT" + " ", [Word("NOT")], PredText(arg), PredTokens(arg), rest);
    case PCompare(op, left, right) => LexCompare(op, left, right, rest);
    case PIn(item, options) => LexMember(item, options, rest);
    case PIsNull(item) => LexNullTests(item, rest);
    case PIsNotNull(item) => LexNullTests(item, rest);
  }

  lemma {:induction false} LexArguments(args: seq<Pred>, operator: string, rest: string)
    requires args != [] && AllPrintable(args) && Delimited(rest) && IsWord(operator)
    ensures Lexes(ArgumentsText(args, operator), ArgumentsTokens(args, operator), rest)
    decreases args
  {
    hide Lexes, PredText, PredTokens;
    if |args| == 1 {
      LexPred(args[0], rest);
    } else {
      var a, ta, more := PredText(args[0]), PredTokens(args[0]), ArgumentsText(args[1..], operator);
      var r1 := " " + (more + rest);
      LexArguments(args[1..], operator, rest);
      LexPred(args[0], " " + (operator + r1));
      ThenWord(a, ta, operator, r1);
      ThenSpace(a + " " + operator, ta + [Word(operator)], more + rest);
      Then(a + " " + operator + " ", ta + [Word(operator)], more, ArgumentsTokens(args[1..], operator), rest);
    }
  }

  // ----- parsing the tokens -----

  /** The predicate the reader builds: one-argument AND and OR are just their argument. */
  function Collapse(p: Pred): Pred
    decreases p
  {
    match p
    case PAnd(args) => if |args| == 1 then Collapse(args[0]) else PAnd(CollapseAll(args))
    case POr(args) => if |args| == 1 then Collapse(args[0]) else POr(CollapseAll(args))
    case PNot(arg) => PNot(Collapse(arg))
    case _ => p
  }

  function CollapseAll(args: seq<Pred>): (r: seq<Pred>)
    ensures |r| == |args|
    decreases args
  {
    if args == [] then [] else [Collapse(args[0])] + CollapseAll(args[1..])
  }

  /** What may follow a whole condition: nothing, a closing parenthesis or another clause. */
  predicate Closes(rest: seq<Token>) {
    rest == [] || rest[0] == RightParen || rest[0] == Word("GROUP") || rest[0] == Word("ORDER") || rest[0] == Word("LIMIT")
  }

  /** What may follow a predicate. */
  predicate Ends(rest: seq<Token>) {
    Closes(rest) || rest[0] == Word("AND") || rest[0] == Word("OR")
  }

  lemma ParseCast(name: string, rest: seq<Token>)
    ensures Casts(CastTokens(name) + rest) == ([name] + Casts(rest).0, Casts(rest).1)
  {
    assert (CastTokens(name) + rest)[2..] == rest;
  }

  predicate NoCast(rest: seq<Token>) {
    rest == [] || rest[0] != CastMark
  }

  lemma ParsesText(position: nat, rest: seq<Token>)
    requires NoCast(rest)
    ensures ParseParameter(ParameterTokens(position, TextType) + rest) == Some((Param(position, TextType), rest))
  {
    hide TypeNamed, TypeName, Casts;
    var ts := ParameterTokens(position, TextType) + rest;
    ParsesCasts(TextType, rest);
    assert ts[1..] == CastTokens("text") + rest;
  }

  lemma ParsesTyped(position: nat, t: DataType, rest: seq<Token>)
    requires NoCast(rest) && t != TextType
    ensures ParseParameter(ParameterTokens(position, t) + rest) == Some((Param(position, t), rest))
  {
    hide TypeNamed, TypeName, Casts;
    var ts := ParameterTokens(position, t) + rest;
    TypeNameIsWord(t);
    ParsesCasts(t, rest);
    assert ts[1..] == CastTokens("text") + (CastTokens(TypeName(t)) + rest);
    assert |["text", TypeName(t)]| != |["text"]|;
  }

  lemma ParsesParameter(position: nat, t: DataType, rest: seq<Token>)
    requires NoCast(rest)
    ensures ParseParameter(ParameterTokens(position, t) + rest) == Some((Param(position, t), rest))
  {
    hide ParseParameter, ParameterTokens;
    if t == TextType {
      ParsesText(position, rest);
    } else {
      ParsesTyped(position, t, rest);
    }
  }

  lemma ParsesCasts(t: DataType, rest: seq<Token>)
    requires NoCast(rest)
    ensures Casts(CastTokens("text") + rest) == (["text"], rest)
    ensures Casts(CastTokens("text") + (CastTokens(TypeName(t)) + rest)) == (["text", TypeName(t)], rest)
  {
    hide TypeName, CastTokens;
    ParseCast("text", rest);
    ParseCast("text", CastTokens(TypeName(t)) + rest);
    ParseCast(TypeName(t), rest);
    assert ["text"] + [] == ["text"];
    assert ["text"] + ([TypeName(t)] + []) == ["text", TypeName(t)];
  }

  lemma DayCasts(rest: seq<Token>)
    ensures Casts(CastTokens("text") + (CastTokens("date") + (CastTokens("timestamp") + ([RightParen] + rest)))) == (["text", "date", "timestamp"], [RightParen] + rest)
  {
    hide CastTokens;
    var end := [RightParen] + rest;
    ParseCast("text", CastTokens("date") + (CastTokens("timestamp") + end));
    ParseCast("date", CastTokens("timestamp") + end);
    ParseCast("timestamp", end);
    assert Casts(end) == ([], end);
    assert ["text"] + (["date"] + (["timestamp"] + [])) == ["text", "date", "timestamp"];
  }

  lemma DayStartSplits(zone: nat, day: nat, rest: seq<Token>)
    ensures var casts := CastTokens("text") + (CastTokens("date") + (CastTokens("timestamp") + ([RightParen] + rest)));
      DayStartTokens(zone, day) + rest
      == [Word("timezone"), LeftParen, Placeholder(zone)] + (CastTokens("text") + ([Comma, Placeholder(day)] + casts))
  {
  }

  lemma ParsesDayStart(zone: nat, day: nat, rest: seq<Token>)
    ensures ParseDayStart(DayStartTokens(zone, day) + rest) == Some((DayStart(zone, day), rest))
  {
    hide Casts, CastTokens, DayStartTokens;
    var ts, end := DayStartTokens(zone, day) + rest, [RightParen] + rest;
    var casts := CastTokens("text") + (CastTokens("date") + (CastTokens("timestamp") + end));
    var second := [Comma, Placeholder(day)] + casts;
    DayStartSplits(zone, day, rest);
    assert ts[3..] == CastTokens("text") + second;
    ParsesCasts(TextType, second);
    assert second[2..] == casts;
    DayCasts(rest);
    assert end[1..] == rest;
  }

  lemma ParsesItem(e: Expr, rest: seq<Token>)
    requires e.Column?
    ensures ParseItem(ItemTokens(e) + rest) == Some((e, rest))
  {
    hide TextNat, NatText;
    var ts := ItemTokens(e) + rest;
    assert ts[3..] == rest;
    assert ts[0].text[1..] == NatText(e.alias);
    NumberRoundTrip(e.alias);
  }

  lemma {:induction false} ParsesOptions(options: seq<Expr>, rest: seq<Token>)
    requires options != [] && (forall i :: 0 <= i < |options| ==> options[i].Param?)
    ensures ParseOptions(OptionsTokens(options) + ([RightParen] + rest)) == Some((options, [RightParen] + rest))
  {
    hide ParseParameter, ParameterTokens;
    var end := [RightParen] + rest;
    var e := options[0];
    if |options| == 1 {
      ParsesParameter(e.position, e.cast, end);
      assert options == [e];
    } else {
      var more := OptionsTokens(options[1..]) + end;
      assert OptionsTokens(options) + end == ParameterTokens(e.position, e.cast) + ([Comma] + more);
      ParsesParameter(e.position, e.cast, [Comma] + more);
      assert ([Comma] + more)[1..] == more;
      ParsesOptions(options[1..], rest);
      assert [e] + options[1..] == options;
    }
  }

  lemma ParsesCompare(op: ComparisonOperator, left: Expr, right: Expr, rest: seq<Token>)
    requires left.Column? && Comparand(right) && NoCast(rest)
    ensures ParseTest(left, [Operator(op)] + (ComparandTokens(right) + rest)) == Some((PCompare(op, left, right), rest))
  {
    hide ParseParameter, ParseDayStart, DayStartTokens, ParameterTokens;
    var after := [Operator(op)] + (ComparandTokens(right) + rest);
    assert after[1..] == ComparandTokens(right) + rest;
    match right
    case Param(position, t) =>
      ParsesParameter(position, t, rest);
      assert (ParameterTokens(position, t) + rest)[0].Placeholder? by {
        FirstTokens(position, t, 0, 0);
      }
    case DayStart(zone, day) =>
      ParsesDayStart(zone, day, rest);
      assert (DayStartTokens(zone, day) + rest)[0].Word? by {
        FirstTokens(0, TextType, zone, day);
      }
  }

  lemma FirstTokens(position: nat, t: DataType, zone: nat, day: nat)
    ensures ParameterTokens(position, t) != [] && ParameterTokens(position, t)[0].Placeholder?
    ensures DayStartTokens(zone, day) != [] && DayStartTokens(zone, day)[0].Word?
  {
  }

  lemma TestOfMember(item: Expr, inner: seq<Token>, es: seq<Expr>, rest: seq<Token>)
    requires ParseOptions(inner) == Some((es, [RightParen] + rest))
    ensures ParseTest(item, [Word("IN")] + [LeftParen] + inner) == Some((PIn(item, es), rest))
  {
    hide ParseOptions, ParseComparand;
    var after := [Word("IN")] + [LeftParen] + inner;
    assert !after[0].Operator? && after[0] == Word("IN") && after[1] == LeftParen;
    assert after[2..] == inner;
    assert ([RightParen] + rest)[1..] == rest;
  }

  lemma ParsesMember(item: Expr, options: seq<Expr>, rest: seq<Token>)
    requires options != [] && (forall i :: 0 <= i < |options| ==> options[i].Param?)
    ensures ParseTest(item, [Word("IN")] + [LeftParen] + (OptionsTokens(options) + ([RightParen] + rest))) == Some((PIn(item, options), rest))
  {
    hide ParseTest, ParseOptions, OptionsTokens;
    ParsesOptions(options, rest);
    TestOfMember(item, OptionsTokens(options) + ([RightParen] + rest), options, rest);
  }

  lemma ParsesNullTests(item: Expr, rest: seq<Token>)
    ensures ParseTest(item, [Word("IS")] + [Word("NULL")] + rest) == Some((PIsNull(item), rest))
    ensures ParseTest(item, [Word("IS")] + [Word("NOT")] + [Word("NULL")] + rest) == Some((PIsNotNull(item), rest))
  {
    assert ([Word("IS")] + [Word("NULL")] + rest)[2..] == rest;
    assert ([Word("IS")] + [Word("NOT")] + [Word("NULL")] + rest)[3..] == rest;
  }

  /** A test is an operand of AND. */
  lemma TestIsOperand(ts: seq<Token>, item: Expr, after: seq<Token>, p: Pred, rest: seq<Token>)
    requires item.Column? && ts == ItemTokens(item) + after && ParseTest(item, after) == Some((p, rest))
    ensures ParseNot(ts) == Some((p, rest))
  {
    hide ParseTest, ParseItem, NatText;
    ParsesItem(item, after);
    assert ts[0].text[0] == 't' && Word("NOT").text[0] == 'N';
    assert ParsePrimary(ts) == Some((p, rest));
  }

  lemma ParsesTest(p: Pred, rest: seq<Token>)
    requires Printable(p) && (p.PCompare? || p.PIn? || p.PIsNull? || p.PIsNotNull?) && Ends(rest)
    ensures ParseNot(PredTokens(p) + rest) == Some((p, rest))
  {
    hide ParseTest, ParseNot, ItemTokens, ComparandTokens, OptionsTokens;
    var ts := PredTokens(p) + rest;
    match p
    case PCompare(op, left, right) =>
      var after := [Operator(op)] + (ComparandTokens(right) + rest);
      ParsesCompare(op, left, right, rest);
      assert ts == ItemTokens(left) + after;
      TestIsOperand(ts, left, after, p, rest);
    case PIn(item, options) =>
      var after := [Word("IN")] + [LeftParen] + (OptionsTokens(options) + ([RightParen] + rest));
      ParsesMember(item, options, rest);
      assert ts == ItemTokens(item) + after;
      TestIsOperand(ts, item, after, p, rest);
    case PIsNull(item) =>
      var after := [Word("IS")] + [Word("NULL")] + rest;
      ParsesNullTests(item, rest);
      assert ts == ItemTokens(item) + after;
      TestIsOperand(ts, item, after, p, rest);
    case PIsNotNull(item) =>
      var after := [Word("IS")] + [Word("NOT")] + [Word("NULL")] + rest;
      ParsesNullTests(item, rest);
      assert ts == ItemTokens(item) + after;
      TestIsOperand(ts, item, after, p, rest);
  }

  lemma NotBefore(inner: seq<Token>, p: Pred, rest: seq<Token>)
    requires ParseNot(inner) == Some((p, rest))
    ensures ParseNot([Word("NOT")] + inner) == Some((PNot(p), rest))
  {
    hide ParsePrimary;
    assert ([Word("NOT")] + inner)[1..] == inner;
  }

  /** A printed predicate is read as one operand of AND, whatever may follow it. */
  lemma {:induction false} ParsesPred(p: Pred, rest: seq<Token>)
    requires Printable(p) && Ends(rest)
    ensures ParseNot(PredTokens(p) + rest) == Some((Collapse(p), rest))
    decreases p, 1
  {
    hide ParseNot, ParseOr, ArgumentsTokens, CollapseAll;
    var ts := PredTokens(p) + rest;
    match p
    case PAnd(args) =>
      ParsesAnd(args, rest);
      ParsesGroup(ts, ArgumentsTokens(args, "AND"), Collapse(p), rest);
    case POr(args) =>
      ParsesOr(args, rest);
      ParsesGroup(ts, ArgumentsTokens(args, "OR"), Collapse(p), rest);
    case PNot(arg) =>
      var inner := [LeftParen] + PredTokens(arg) + [RightParen] + rest;
      ParsesAlone(arg, rest);
      ParsesGroup(inner, PredTokens(arg), Collapse(arg), rest);
      NotBefore(inner, Collapse(arg), rest);
      assert ts == [Word("NOT")] + inner;
    case _ =>
      ParsesTest(p, rest);
  }

  /** Parentheses around a condition make it an operand. */
  lemma ParsesGroup(ts: seq<Token>, inner: seq<Token>, p: Pred, rest: seq<Token>)
    requires ts == [LeftParen] + inner + [RightParen] + rest
    requires ParseOr(inner + ([RightParen] + rest)) == Some((p, [RightParen] + rest))
    ensures ParseNot(ts) == Some((p, rest))
  {
    hide ParseOr;
    assert ts[1..] == inner + ([RightParen] + rest);
    assert ([RightParen] + rest)[1..] == rest;
  }

  /** An operand that is not followed by AND is a whole operand of OR. */
  lemma OperandOfOr(ts: seq<Token>, p: Pred, rest: seq<Token>)
    requires ParseNot(ts) == Some((p, rest)) && (rest == [] || rest[0] != Word("AND"))
    ensures ParseAnd(ts) == Some((p, rest))
  {
    hide ParseNot;
    assert ParseAndList(ts) == Some(([p], rest));
  }

  lemma ConditionAlone(ts: seq<Token>, p: Pred, rest: seq<Token>)
    requires ParseAnd(ts) == Some((p, rest)) && (rest == [] || rest[0] != Word("OR"))
    ensures ParseOr(ts) == Some((p, rest))
  {
    hide ParseAnd;
    assert ParseOrList(ts) == Some(([p], rest));
  }

  /** A lone operand passes through the levels of AND and OR. */
  lemma ParsesAlone(p: Pred, rest: seq<Token>)
    requires Printable(p)
    ensures ParseOr(PredTokens(p) + ([RightParen] + rest)) == Some((Collapse(p), [RightParen] + rest))
    decreases p, 2
  {
    ParsesPred(p, [RightParen] + rest);
    OperandOfOr(PredTokens(p) + ([RightParen] + rest), Collapse(p), [RightParen] + rest);
    ConditionAlone(PredTokens(p) + ([RightParen] + rest), Collapse(p), [RightParen] + rest);
  }

  lemma {:induction false} ParsesAndList(args: seq<Pred>, rest: seq<Token>)
    requires args != [] && AllPrintable(args)
    ensures ParseAndList(ArgumentsTokens(args, "AND") + ([RightParen] + rest)) == Some((CollapseAll(args), [RightParen] + rest))
    decreases args, 2
  {
    hide ParseNot, PredTokens, Collapse;
    var end := [RightParen] + rest;
    if |args| == 1 {
      ParsesPred(args[0], end);
      assert CollapseAll(args) == [Collapse(args[0])];
    } else {
      var more := ArgumentsTokens(args[1..], "AND") + end;
      assert ArgumentsTokens(args, "AND") + end == PredTokens(args[0]) + ([Word("AND")] + more);
      ParsesPred(args[0], [Word("AND")] + more);
      assert ([Word("AND")] + more)[1..] == more;
      ParsesAndList(args[1..], rest);
    }
  }

  lemma {:induction false} ParsesOrList(args: seq<Pred>, rest: seq<Token>)
    requires args != [] && AllPrintable(args)
    ensures ParseOrList(ArgumentsTokens(args, "OR") + ([RightParen] + rest)) == Some((CollapseAll(args), [RightParen] + rest))
    decreases args, 2
  {
    hide ParseAnd, PredTokens, Collapse;
    var end := [RightParen] + rest;
    if |args| == 1 {
      ParsesPred(args[0], end);
      OperandOfOr(PredTokens(args[0]) + end, Collapse(args[0]), end);
      assert CollapseAll(args) == [Collapse(args[0])];
    } else {
      var more := ArgumentsTokens(args[1..], "OR") + end;
      assert ArgumentsTokens(args, "OR") + end == PredTokens(args[0]) + ([Word("OR")] + more);
      ParsesPred(args[0], [Word("OR")] + more);
      OperandOfOr(PredTokens(args[0]) + ([Word("OR")] + more), Collapse(args[0]), [Word("OR")] + more);
      assert ([Word("OR")] + more)[1..] == more;
      ParsesOrList(args[1..], rest);
    }
  }

  lemma ParsesAnd(args: seq<Pred>, rest: seq<Token>)
    requires args != [] && AllPrintable(args)
    ensures ParseOr(ArgumentsTokens(args, "AND") + ([RightParen] + rest)) == Some((Collapse(PAnd(args)), [RightParen] + rest))
    decreases args, 3
  {
    ParsesAndList(args, rest);
    var ts, end := ArgumentsTokens(args, "AND") + ([RightParen] + rest), [RightParen] + rest;
    assert |args| == 1 ==> CollapseAll(args) == [Collapse(args[0])];
    assert ParseAnd(ts) == Some((Collapse(PAnd(args)), end)) by {
      hide ParseAndList;
    }
    ConditionAlone(ts, Collapse(PAnd(args)), end);
  }

  lemma ParsesOr(args: seq<Pred>, rest: seq<Token>)
    requires args != [] && AllPrintable(args)
    ensures ParseOr(ArgumentsTokens(args, "OR") + ([RightParen] + rest)) == Some((Collapse(POr(args)), [RightParen] + rest))
    decreases args, 3
  {
    ParsesOrList(args, rest);
    hide ParseOrList;
  }

  // ----- meaning -----

  /** Collapsing does not change what a predicate evaluates to. */
  lemma {:induction false} CollapseMeansSame(p: Pred, s: Scope, ps: seq<CompiledParameter>, it: Interpretation)
    ensures EvalPred(Collapse(p), s, ps, it) == EvalPred(p, s, ps, it)
    decreases p
  {
    match p
    case PAnd(args) =>
      if |args| == 1 {
        CollapseMeansSame(args[0], s, ps, it);
        assert EvalAnd(args[1..], s, ps, it) == True;
      } else {
        CollapseAllMeansSame(args, s, ps, it);
      }
    case POr(args) =>
      if |args| == 1 {
        CollapseMeansSame(args[0], s, ps, it);
        assert EvalOr(args[1..], s, ps, it) == False;
      } else {
        CollapseAllMeansSame(args, s, ps, it);
      }
    case PNot(arg) => CollapseMeansSame(arg, s, ps, it);
    case _ =>
  }

  lemma {:induction false} CollapseAllMeansSame(args: seq<Pred>, s: Scope, ps: seq<CompiledParameter>, it: Interpretation)
    ensures EvalAnd(CollapseAll(args), s, ps, it) == EvalAnd(args, s, ps, it)
    ensures EvalOr(CollapseAll(args), s, ps, it) == EvalOr(args, s, ps, it)
    decreases args
  {
    if args != [] {
      CollapseMeansSame(args[0], s, ps, it);
      CollapseAllMeansSame(args[1..], s, ps, it);
      assert CollapseAll(args)[1..] == CollapseAll(args[1..]);
    }
  }

  /** Reading the printed text gives a predicate with the same value on every row and every parameter list. */
  lemma PrintedPredicateReadsBack(p: Pred)
    requires Printable(p)
    ensures Read(PredText(p)) == Some(Collapse(p))
    ensures forall s, ps, it :: EvalPred(Collapse(p), s, ps, it) == EvalPred(p, s, ps, it)
  {
    LexPred(p, "");
    assert PredText(p) + "" == PredText(p);
    assert Lex("") == Some([]);
    ParsesPred(p, []);
    assert PredTokens(p) + [] == PredTokens(p);
    OperandOfOr(PredTokens(p), Collapse(p), []);
    ConditionAlone(PredTokens(p), Collapse(p), []);
    hide ParseOr, Lex;
    forall s, ps, it
      ensures EvalPred(Collapse(p), s, ps, it) == EvalPred(p, s, ps, it)
    {
      CollapseMeansSame(p, s, ps, it);
    }
  }
}
