/** Sent statements read back: every clause of the text lexes and parses to what was compiled. */
module StatementTextProofs {
  import opened Prelude
  import opened Semantic
  import opened Relational
  import opened Compiler
  import opened SqlText
  import opened SqlTextProofs
  import opened FromTextProofs
  import opened StatementText

  // ----- lexing is compositional -----

  /** Text that cannot continue the token before it. */
  predicate Breaks(rest: string) {
    rest == "" || IsSpace(rest[0]) || rest[0] in {'(', ')', ',', '.', ':'}
  }

  lemma {:induction false} SpanBreaks(s: string, rest: string, class_: char -> bool)
    requires rest == "" || !class_(rest[0])
    ensures Span(s + rest, class_) == Span(s, class_)
    decreases |s|
  {
    if s == "" {
      assert s + rest == rest;
    } else if class_(s[0]) {
      SpanBreaks(s[1..], rest, class_);
      assert (s + rest)[1..] == s[1..] + rest;
    }
  }

  lemma BreaksEnd(rest: string)
    requires Breaks(rest) && rest != ""
    ensures !IsWordChar(rest[0]) && !IsDigit(rest[0]) && rest[0] != '"' && rest[0] != '\''
  {
  }

  lemma CutBefore(s: string, rest: string, n: nat)
    requires n <= |s|
    ensures (s + rest)[..n] == s[..n] && (s + rest)[n..] == s[n..] + rest
  {
  }

  lemma ReadEnd(more: string)
    requires more == "" || more[0] != '"'
    ensures ReadQuoted(['"'] + more) == Some(("", 1))
  {
  }

  lemma {:induction false} QuotedBreaks(s: string, rest: string)
    requires ReadQuoted(s).Some? && (rest == "" || rest[0] != '"')
    ensures ReadQuoted(s + rest) == ReadQuoted(s)
    decreases |s|
  {
    hide ReadQuoted;
    if s == "" {
      NothingRead();
    } else if s[0] != '"' {
      var more := s[1..];
      assert s == [s[0]] + more && s + rest == [s[0]] + (more + rest);
      ReadOrdinary(s[0], more);
      ReadOrdinary(s[0], more + rest);
      QuotedBreaks(more, rest);
    } else if |s| > 1 && s[1] == '"' {
      var more := s[2..];
      assert s == "\"\"" + more && s + rest == "\"\"" + (more + rest);
      ReadDoubled(more);
      ReadDoubled(more + rest);
      QuotedBreaks(more, rest);
    } else {
      var more := s[1..];
      assert s == ['"'] + more && s + rest == ['"'] + (more + rest);
      ReadEnd(more);
      ReadEnd(more + rest);
    }
  }

  lemma NothingRead()
    ensures ReadQuoted("") == None
  {
  }

  lemma PrependMore(ts: seq<Token>, more: seq<Token>, r: Option<seq<Token>>)
    ensures Prepend(ts + more, r) == Prepend(ts, Prepend(more, r))
  {
    if r.Some? {
      assert ts + more + r.value == ts + (more + r.value);
    }
  }

  /** One token taken from the front of a text is taken from the front of the longer text. */
  lemma TokenBreaks(s: string, tail: string, t: Token, rest: string)
    requires Lex(s) == Prepend([t], Lex(tail)) && Lex(s + rest) == Prepend([t], Lex(tail + rest))
    requires Lex(s).Some? && (Lex(tail).Some? ==> Lexes(tail, Lex(tail).value, rest))
    ensures Lexes(s, Lex(s).value, rest)
  {
    hide Lex;
    PrependMore([t], Lex(tail).value, Lex(rest));
  }

  lemma MarkBreaks(s: string, mark: string, t: Token, tail: string, rest: string)
    requires s == mark + tail && Marks(mark, t) && Lex(s).Some? && (Lex(tail).Some? ==> Lexes(tail, Lex(tail).value, rest))
    ensures Lexes(s, Lex(s).value, rest)
  {
    hide Lex, Lexes;
    LexMarkStep(mark, t, tail);
    LexMarkStep(mark, t, tail + rest);
    assert s + rest == mark + (tail + rest);
    TokenBreaks(s, tail, t, rest);
  }

  lemma PlaceholderBreaks(s: string, rest: string)
    requires s != "" && s[0] == '$' && Lex(s).Some? && Breaks(rest)
    requires var tail := s[1..][Span(s[1..], IsDigit)..]; Lex(tail).Some? ==> Lexes(tail, Lex(tail).value, rest)
    ensures Lexes(s, Lex(s).value, rest)
  {
    hide Lex, Lexes, TextNat, Span;
    var after := s[1..];
    var n := Span(after, IsDigit);
    assert s == ['$'] + after && s + rest == ['$'] + (after + rest);
    LexDollarThen(after);
    LexDollarThen(after + rest);
    if rest != "" {
      BreaksEnd(rest);
    }
    SpanBreaks(after, rest, IsDigit);
    CutBefore(after, rest, n);
    TokenBreaks(s, after[n..], Placeholder(TextNat(after[..n])), rest);
  }

  lemma QuoteBreaks(s: string, rest: string)
    requires s != "" && s[0] == '"' && Lex(s).Some? && Breaks(rest)
    requires ReadQuoted(s[1..]).Some? ==>
      var tail := s[1..][ReadQuoted(s[1..]).value.1..]; Lex(tail).Some? ==> Lexes(tail, Lex(tail).value, rest)
    ensures Lexes(s, Lex(s).value, rest)
  {
    hide Lex, Lexes, ReadQuoted;
    var after := s[1..];
    assert s == ['"'] + after && s + rest == ['"'] + (after + rest);
    LexQuoteThen(after);
    LexQuoteThen(after + rest);
    var (c, n) := ReadQuoted(after).value;
    QuotedBreaks(after, rest);
    CutBefore(after, rest, n);
    TokenBreaks(s, after[n..], Quoted(c), rest);
  }

  lemma OperatorBreaks(s: string, rest: string)
    requires ReadOperator(s).Some? && Lex(s).Some? && Breaks(rest)
    requires var tail := s[ReadOperator(s).value.1..]; Lex(tail).Some? ==> Lexes(tail, Lex(tail).value, rest)
    ensures Lexes(s, Lex(s).value, rest)
  {
    hide Lex, Lexes;
    var (op, n) := ReadOperator(s).value;
    assert ReadOperator(s + rest) == Some((op, n));
    assert (s + rest)[n..] == s[n..] + rest;
    LexOperatorStep(s);
    LexOperatorStep(s + rest);
    TokenBreaks(s, s[n..], Operator(op), rest);
  }

  lemma WordBreaks(s: string, rest: string)
    requires s != "" && IsWordChar(s[0]) && !IsDigit(s[0]) && Lex(s).Some? && Breaks(rest)
    requires var tail := s[Span(s, IsWordChar)..]; Lex(tail).Some? ==> Lexes(tail, Lex(tail).value, rest)
    ensures Lexes(s, Lex(s).value, rest)
  {
    hide Lex, Lexes, Span;
    var n := Span(s, IsWordChar);
    LexWordStep(s);
    LexWordStep(s + rest);
    if rest != "" {
      BreaksEnd(rest);
    }
    SpanBreaks(s, rest, IsWordChar);
    CutBefore(s, rest, n);
    TokenBreaks(s, s[n..], Word(s[..n]), rest);
  }

  lemma NumberBreaks(s: string, rest: string)
    requires s != "" && IsDigit(s[0]) && Lex(s).Some? && Breaks(rest)
    requires var tail := s[Span(s, IsDigit)..]; Lex(tail).Some? ==> Lexes(tail, Lex(tail).value, rest)
    ensures Lexes(s, Lex(s).value, rest)
  {
    hide Lex, Lexes, Span, TextNat;
    var n := Span(s, IsDigit);
    LexNumberStep(s);
    LexNumberStep(s + rest);
    if rest != "" {
      BreaksEnd(rest);
    }
    SpanBreaks(s, rest, IsDigit);
    CutBefore(s, rest, n);
    TokenBreaks(s, s[n..], Number(TextNat(s[..n])), rest);
  }

  lemma NextBreaks(s: string, rest: string, n: nat)
    requires n < |s| && Breaks(rest)
    ensures (s + rest)[n] == s[n]
    ensures n + 1 == |s| || s[n + 1] != '\'' ==> n + 1 == |s + rest| || (s + rest)[n + 1] != '\''
  {
    if n + 1 == |s| && rest != "" {
      assert (s + rest)[n + 1] == rest[0];
    }
  }

  lemma ReadTextBreaks(s: string, rest: string)
    requires ReadText(s).Some? && Breaks(rest)
    ensures ReadText(s + rest) == ReadText(s)
    ensures var n := ReadText(s).value; (s + rest)[..n] == s[..n] && (s + rest)[1 + n..] == s[1 + n..] + rest
  {
    if rest != "" {
      BreaksEnd(rest);
    }
    SpanBreaks(s, rest, IsWordChar);
    var n := ReadText(s).value;
    NextBreaks(s, rest, n);
    CutBefore(s, rest, n);
    CutBefore(s, rest, 1 + n);
    hide Span, Breaks;
  }

  lemma TextBreaks(s: string, rest: string)
    requires s != "" && s[0] == '\'' && Lex(s).Some? && Breaks(rest)
    requires ReadText(s[1..]).Some? ==>
      var tail := s[1..][1 + ReadText(s[1..]).value..]; Lex(tail).Some? ==> Lexes(tail, Lex(tail).value, rest)
    ensures Lexes(s, Lex(s).value, rest)
  {
    hide Lex, Lexes, ReadText;
    var after := s[1..];
    assert s == ['\''] + after && s + rest == ['\''] + (after + rest);
    LexTextThen(after);
    LexTextThen(after + rest);
    ReadTextBreaks(after, rest);
    var n := ReadText(after).value;
    TokenBreaks(s, after[1 + n..], Text(after[..n]), rest);
  }

  lemma SpaceBreaks(s: string, rest: string)
    requires s != "" && IsSpace(s[0]) && Lex(s).Some? && (Lex(s[1..]).Some? ==> Lexes(s[1..], Lex(s[1..]).value, rest))
    ensures Lexes(s, Lex(s).value, rest)
  {
    hide Lex;
    assert s == [s[0]] + s[1..] && s + rest == [s[0]] + (s[1..] + rest);
    SpaceSkips(s[0], s[1..]);
    SpaceSkips(s[0], s[1..] + rest);
  }

  lemma NothingBreaks(rest: string)
    ensures Lex("") == Some([]) && Lexes("", [], rest)
  {
    LexNothing(rest);
  }

  lemma RefusedText(s: string)
    requires s != "" && !IsSpace(s[0]) && s[0] !in {'(', ')', ',', '.', '$', '"', '\''} && ReadOperator(s).None? && !IsWordChar(s[0])
    requires s[0] == ':' ==> |s| == 1 || s[1] != ':'
    ensures Lex(s) == None
  {
    hide ReadQuoted, Span, TextNat, ReadText;
  }

  /** A text that lexes by itself lexes the same before anything that cannot continue its last token. */
  lemma {:induction false} LexBreaks(s: string, rest: string)
    requires Lex(s).Some? && Breaks(rest)
    ensures Lexes(s, Lex(s).value, rest)
    decreases |s|
  {
    hide ReadQuoted, ReadText, Lex, Lexes, ReadOperator, Span, Breaks;
    if s == "" {
      NothingBreaks(rest);
    } else if IsSpace(s[0]) {
      if Lex(s[1..]).Some? {
        LexBreaks(s[1..], rest);
      }
      SpaceBreaks(s, rest);
    } else if s[0] == '(' || s[0] == ')' || s[0] == ',' || s[0] == '.' {
      assert s == [s[0]] + s[1..];
      if Lex(s[1..]).Some? {
        LexBreaks(s[1..], rest);
      }
      MarkBreaks(s, [s[0]], if s[0] == '(' then LeftParen else if s[0] == ')' then RightParen else if s[0] == ',' then Comma else Dot, s[1..], rest);
    } else if s[0] == ':' && |s| > 1 && s[1] == ':' {
      assert s == "::" + s[2..];
      if Lex(s[2..]).Some? {
        LexBreaks(s[2..], rest);
      }
      MarkBreaks(s, "::", CastMark, s[2..], rest);
    } else if s[0] == '$' {
      var tail := s[1..][Span(s[1..], IsDigit)..];
      if Lex(tail).Some? {
        LexBreaks(tail, rest);
      }
      PlaceholderBreaks(s, rest);
    } else if s[0] == '"' {
      if ReadQuoted(s[1..]).Some? {
        var tail := s[1..][ReadQuoted(s[1..]).value.1..];
        if Lex(tail).Some? {
          LexBreaks(tail, rest);
        }
      }
      QuoteBreaks(s, rest);
    } else if ReadOperator(s).Some? {
      OperatorAdvances(s);
      var tail := s[ReadOperator(s).value.1..];
      if Lex(tail).Some? {
        LexBreaks(tail, rest);
      }
      OperatorBreaks(s, rest);
    } else if IsWordChar(s[0]) && !IsDigit(s[0]) {
      WordAdvances(s);
      var tail := s[Span(s, IsWordChar)..];
      if Lex(tail).Some? {
        LexBreaks(tail, rest);
      }
      WordBreaks(s, rest);
    } else if IsDigit(s[0]) {
      NumberAdvances(s);
      var tail := s[Span(s, IsDigit)..];
      if Lex(tail).Some? {
        LexBreaks(tail, rest);
      }
      NumberBreaks(s, rest);
    } else if s[0] == '\'' {
      if ReadText(s[1..]).Some? {
        var tail := s[1..][1 + ReadText(s[1..]).value..];
        if Lex(tail).Some? {
          LexBreaks(tail, rest);
        }
      }
      TextBreaks(s, rest);
    } else {
      RefusedText(s);
    }
  }

  // ----- gluing texts that lex by themselves -----

  ghost predicate Reads(text: string, ts: seq<Token>) {
    Lex(text) == Some(ts)
  }

  lemma Glue(a: string, ta: seq<Token>, b: string, tb: seq<Token>)
    requires Reads(a, ta) && Reads(b, tb) && Breaks(b)
    ensures Reads(a + b, ta + tb)
  {
    LexBreaks(a, b);
  }

  lemma SpaceBefore(b: string, tb: seq<Token>)
    requires Reads(b, tb)
    ensures Reads(" " + b, tb) && Reads("\n" + b, tb) && Reads("\n  " + b, tb)
  {
    hide Lex;
    assert "\n  " + b == ['\n'] + ([' '] + ([' '] + b));
    SpaceSkips(' ', b);
    SpaceSkips('\n', b);
    SpaceSkips(' ', [' '] + b);
    SpaceSkips('\n', [' '] + ([' '] + b));
  }

  lemma MarkBefore(mark: string, t: Token, b: string, tb: seq<Token>)
    requires Marks(mark, t) && Reads(b, tb)
    ensures Reads(mark + b, [t] + tb)
  {
    hide Lex;
    LexMarkStep(mark, t, b);
  }

  lemma GlueSpaced(a: string, ta: seq<Token>, b: string, tb: seq<Token>)
    requires Reads(a, ta) && Reads(b, tb)
    ensures Reads(Spaced(a, b), ta + tb) && Reads(Lined(a, b), ta + tb) && Reads(Inset(a, b), ta + tb)
  {
    hide Reads;
    SpaceBefore(b, tb);
    Glue(a, ta, " " + b, tb);
    Glue(a, ta, "\n" + b, tb);
    Glue(a, ta, "\n  " + b, tb);
  }

  lemma GlueListed(a: string, ta: seq<Token>, b: string, tb: seq<Token>)
    requires Reads(a, ta) && Reads(b, tb)
    ensures Reads(Listed(a, b), ta + ([Comma] + tb))
  {
    hide Reads;
    SpaceBefore(b, tb);
    MarkBefore(",", Comma, " " + b, tb);
    Glue(a, ta, "," + (" " + b), [Comma] + tb);
  }

  lemma Closed(b: string, tb: seq<Token>)
    requires Reads(b, tb)
    ensures Reads(b + ")", tb + [RightParen]) && Reads("(" + (b + ")"), [LeftParen] + (tb + [RightParen]))
  {
    hide Reads;
    LexEmpty();
    MarkBefore(")", RightParen, "", []);
    assert ")" + "" == ")" && [RightParen] + [] == [RightParen];
    Glue(b, tb, ")", [RightParen]);
    MarkBefore("(", LeftParen, b + ")", tb + [RightParen]);
  }

  lemma LexEmpty()
    ensures Reads("", [])
  {
  }

  lemma LexWordAlone(w: string)
    requires IsWord(w)
    ensures Reads(w, [Word(w)])
  {
    LexWord(w, "");
    WholeText(w, [Word(w)]);
  }

  lemma GlueCalled(w: string, inner: string, ti: seq<Token>)
    requires IsWord(w) && Reads(inner, ti)
    ensures Reads(Called(w, inner), [Word(w)] + ([LeftParen] + (ti + [RightParen])))
  {
    hide Reads;
    LexWordAlone(w);
    Closed(inner, ti);
    Glue(w, [Word(w)], "(" + (inner + ")"), [LeftParen] + (ti + [RightParen]));
  }

  lemma LexQuotedAlone(name: string)
    ensures Reads(QuoteIdentifier(name), [Quoted(name)])
  {
    hide Lex;
    LexQuoted(name, "");
    WholeText(QuoteIdentifier(name), [Quoted(name)]);
  }

  lemma LexParameterAlone(position: nat, t: DataType)
    ensures Reads(ParameterText(position, t), ParameterTokens(position, t))
  {
    hide Lex, ParameterText, ParameterTokens;
    LexParameter(position, t, "");
    WholeText(ParameterText(position, t), ParameterTokens(position, t));
  }

  lemma LexColumnAlone(alias: nat, column: string)
    ensures Reads(ColumnText(alias, column), ItemTokens(Column(alias, column)))
  {
    hide Lex, ColumnText, ItemTokens;
    LexItem(Column(alias, column), "");
    WholeText(ColumnText(alias, column), ItemTokens(Column(alias, column)));
  }

  lemma LexNumberAlone(n: nat)
    ensures Reads(NatText(n), [Number(n)])
  {
    hide TextNat, NatText;
    var digits := NatText(n);
    LexNumberStep(digits);
    assert digits + "" == digits;
    SpanExact(digits, "", IsDigit);
    assert digits[..|digits|] == digits && digits[|digits|..] == "";
    NumberRoundTrip(n);
    LexEmpty();
    assert [Number(n)] + [] == [Number(n)];
  }

  lemma LexEqualsAlone()
    ensures Reads("=", [Operator(Eq)])
  {
    LexOperatorStep("=");
    LexEmpty();
    assert "="[1..] == "" && [Operator(Eq)] + [] == [Operator(Eq)];
  }

  // ----- expressions -----

  function BaseTokens(e: Expr, columns: Columns): seq<Token>
    requires PrintableBase(e, columns)
  {
    if columns.None? then ItemTokens(e) else [Word("a")] + ([Dot] + [Quoted(columns.value[e.index])])
  }

  lemma LexBase(e: Expr, columns: Columns)
    requires PrintableBase(e, columns)
    ensures Reads(BaseText(e, columns), BaseTokens(e, columns))
  {
    hide Reads, ColumnText, ItemTokens;
    if columns.None? {
      LexColumnAlone(e.alias, e.column);
    } else {
      var name := columns.value[e.index];
      LexQuotedAlone(name);
      MarkBefore(".", Dot, QuoteIdentifier(name), [Quoted(name)]);
      LexWordAlone("a");
      Glue("a", [Word("a")], "." + QuoteIdentifier(name), [Dot] + [Quoted(name)]);
    }
  }

  function CalledTokens(w: string, inner: seq<Token>): seq<Token> {
    [Word(w)] + ([LeftParen] + (inner + [RightParen]))
  }

  function ListedTokens(a: seq<Token>, b: seq<Token>): seq<Token> {
    a + ([Comma] + b)
  }

  function LocalTokens(zone: nat, arg: seq<Token>): seq<Token> {
    CalledTokens("timezone", ListedTokens(ParameterTokens(zone, TextType), arg))
  }

  function TruncTokens(g: TimeGrain, arg: seq<Token>): seq<Token> {
    CalledTokens("date_trunc", ListedTokens([Text(GrainName(g))], arg)) + CastTokens("date")
  }

  function KeyTokens(e: Expr, columns: Columns): seq<Token>
    requires PrintableKey(e, columns)
  {
    match e
    case Trunc(grain, arg) => TruncTokens(grain, BaseTokens(arg, columns))
    case LocalTrunc(grain, zone, arg) => TruncTokens(grain, LocalTokens(zone, BaseTokens(arg, columns)))
    case _ => BaseTokens(e, columns)
  }

  lemma LexGrain(g: TimeGrain)
    ensures Reads(GrainText(g), [Text(GrainName(g))])
  {
    var name := GrainName(g);
    assert forall i :: 0 <= i < |name| ==> IsWordChar(name[i]);
    hide GrainName, Lex;
    var after := name + "'";
    SpanExact(name, "'", IsWordChar);
    assert after[..|name|] == name && after[|name| + 1..] == "";
    LexTextThen(after);
    assert ['\''] + after == GrainText(g);
    LexEmpty();
    assert [Text(name)] + [] == [Text(name)];
  }

  lemma LexTrunc(g: TimeGrain, arg: string, ta: seq<Token>)
    requires Reads(arg, ta)
    ensures Reads(Called("date_trunc", Listed(GrainText(g), arg)) + CastText("date"), TruncTokens(g, ta))
  {
    hide Reads, GrainText, GrainName, Called, Listed;
    LexGrain(g);
    GlueListed(GrainText(g), [Text(GrainName(g))], arg, ta);
    GlueCalled("date_trunc", Listed(GrainText(g), arg), ListedTokens([Text(GrainName(g))], ta));
    LexCastAlone("date");
    Glue(Called("date_trunc", Listed(GrainText(g), arg)), CalledTokens("date_trunc", ListedTokens([Text(GrainName(g))], ta)), CastText("date"), CastTokens("date"));
  }

  lemma LexCastAlone(name: string)
    requires IsWord(name)
    ensures Reads(CastText(name), CastTokens(name))
  {
    hide Lex;
    LexCast(name, "");
    WholeText(CastText(name), [CastMark] + [Word(name)]);
  }

  lemma LexLocal(zone: nat, arg: string, ta: seq<Token>)
    requires Reads(arg, ta)
    ensures Reads(Called("timezone", Listed(ParameterText(zone, TextType), arg)), LocalTokens(zone, ta))
  {
    hide Reads, ParameterText, ParameterTokens, Called, Listed;
    LexParameterAlone(zone, TextType);
    GlueListed(ParameterText(zone, TextType), ParameterTokens(zone, TextType), arg, ta);
    GlueCalled("timezone", Listed(ParameterText(zone, TextType), arg), ListedTokens(ParameterTokens(zone, TextType), ta));
  }

  lemma LexKey(e: Expr, columns: Columns)
    requires PrintableKey(e, columns)
    ensures Reads(KeyText(e, columns), KeyTokens(e, columns))
  {
    hide Reads, BaseText, BaseTokens, TruncTokens, LocalTokens, Called, Listed, GrainText;
    match e
    case Trunc(grain, arg) =>
      LexBase(arg, columns);
      LexTrunc(grain, BaseText(arg, columns), BaseTokens(arg, columns));
    case LocalTrunc(grain, zone, arg) =>
      LexBase(arg, columns);
      LexLocal(zone, BaseText(arg, columns), BaseTokens(arg, columns));
      LexTrunc(grain, Called("timezone", Listed(ParameterText(zone, TextType), BaseText(arg, columns))), LocalTokens(zone, BaseTokens(arg, columns)));
    case _ =>
      LexBase(e, columns);
  }

  function EqualTokens(left: Expr, right: Expr): seq<Token>
    requires PrintableEqual(left, right)
  {
    ItemTokens(left) + ([Operator(Eq)] + ParameterTokens(right.position, right.cast))
  }

  lemma LexEqual(left: Expr, right: Expr)
    requires PrintableEqual(left, right)
    ensures Reads(EqualText(left, right), EqualTokens(left, right))
  {
    hide Reads, ColumnText, ItemTokens, ParameterText, ParameterTokens, Spaced;
    LexParameterAlone(right.position, right.cast);
    LexEqualsAlone();
    GlueSpaced("=", [Operator(Eq)], ParameterText(right.position, right.cast), ParameterTokens(right.position, right.cast));
    LexColumnAlone(left.alias, left.column);
    GlueSpaced(ColumnText(left.alias, left.column), ItemTokens(left), Spaced("=", ParameterText(right.position, right.cast)), [Operator(Eq)] + ParameterTokens(right.position, right.cast));
  }

  function CaseTokens(equal: seq<Token>, result: seq<Token>): seq<Token> {
    [Word("CASE")] + ([Word("WHEN")] + (equal + ([Word("THEN")] + (result + [Word("END")]))))
  }

  function ArgumentTokens(e: Expr, columns: Columns): seq<Token>
    requires PrintableArgument(e, columns)
  {
    if e.CaseEqual? then CaseTokens(EqualTokens(e.left, e.right), BaseTokens(e.result, columns)) else BaseTokens(e, columns)
  }

  lemma WordBefore(w: string, b: string, tb: seq<Token>)
    requires IsWord(w) && Reads(b, tb)
    ensures Reads(Spaced(w, b), [Word(w)] + tb)
  {
    hide Reads;
    LexWordAlone(w);
    GlueSpaced(w, [Word(w)], b, tb);
  }

  lemma LexCase(equal: string, te: seq<Token>, result: string, tr: seq<Token>)
    requires Reads(equal, te) && Reads(result, tr)
    ensures Reads(Spaced("CASE", Spaced("WHEN", Spaced(equal, Spaced("THEN", Spaced(result, "END"))))), CaseTokens(te, tr))
  {
    hide Reads, Spaced;
    LexWordAlone("END");
    GlueSpaced(result, tr, "END", [Word("END")]);
    WordBefore("THEN", Spaced(result, "END"), tr + [Word("END")]);
    var then_, tt := Spaced("THEN", Spaced(result, "END")), [Word("THEN")] + (tr + [Word("END")]);
    GlueSpaced(equal, te, then_, tt);
    WordBefore("WHEN", Spaced(equal, then_), te + tt);
    WordBefore("CASE", Spaced("WHEN", Spaced(equal, then_)), [Word("WHEN")] + (te + tt));
  }

  lemma LexArgument(e: Expr, columns: Columns)
    requires PrintableArgument(e, columns)
    ensures Reads(ArgumentText(e, columns), ArgumentTokens(e, columns))
  {
    hide Reads, Spaced, EqualText, EqualTokens, BaseText, BaseTokens, CaseTokens;
    if e.CaseEqual? {
      LexEqual(e.left, e.right);
      LexBase(e.result, columns);
      LexCase(EqualText(e.left, e.right), EqualTokens(e.left, e.right), BaseText(e.result, columns), BaseTokens(e.result, columns));
    } else {
      LexBase(e, columns);
    }
  }

  function CallTokens(agg: AggregateExpr, columns: Columns): seq<Token>
    requires PrintableAggregate(agg, columns)
  {
    var arg := ArgumentTokens(agg.arg, columns);
    CalledTokens(AggregateWord(agg.fn), if agg.fn == CountDistinct then [Word("DISTINCT")] + arg else arg)
  }

  lemma LexCall(agg: AggregateExpr, columns: Columns)
    requires PrintableAggregate(agg, columns)
    ensures Reads(CallText(agg, columns), CallTokens(agg, columns))
  {
    hide Reads, Spaced, Called, ArgumentText, ArgumentTokens;
    LexArgument(agg.arg, columns);
    var arg, ta := ArgumentText(agg.arg, columns), ArgumentTokens(agg.arg, columns);
    WordBefore("DISTINCT", arg, ta);
    assert IsWord(AggregateWord(agg.fn));
    GlueCalled(AggregateWord(agg.fn), if agg.fn == CountDistinct then Spaced("DISTINCT", arg) else arg, if agg.fn == CountDistinct then [Word("DISTINCT")] + ta else ta);
  }

  function FilterTokens(equal: seq<Token>): seq<Token> {
    [Word("FILTER")] + ([LeftParen] + (([Word("WHERE")] + equal) + [RightParen]))
  }

  function AggregateTokens(agg: AggregateExpr, columns: Columns): seq<Token>
    requires PrintableAggregate(agg, columns)
  {
    if agg.filter.None? then CallTokens(agg, columns)
    else CallTokens(agg, columns) + FilterTokens(EqualTokens(agg.filter.value.0, agg.filter.value.1))
  }

  lemma LexFiltered(equal: string, te: seq<Token>)
    requires Reads(equal, te)
    ensures Reads(Spaced("FILTER", "(" + (Spaced("WHERE", equal) + ")")), FilterTokens(te))
  {
    hide Reads, Spaced;
    WordBefore("WHERE", equal, te);
    Closed(Spaced("WHERE", equal), [Word("WHERE")] + te);
    WordBefore("FILTER", "(" + (Spaced("WHERE", equal) + ")"), [LeftParen] + (([Word("WHERE")] + te) + [RightParen]));
  }

  lemma LexAggregate(agg: AggregateExpr, columns: Columns)
    requires PrintableAggregate(agg, columns)
    ensures Reads(AggregateText(agg, columns), AggregateTokens(agg, columns))
  {
    hide Reads, Spaced, CallText, CallTokens, EqualText, EqualTokens, FilterTokens;
    LexCall(agg, columns);
    if agg.filter.Some? {
      var equal, te := EqualText(agg.filter.value.0, agg.filter.value.1), EqualTokens(agg.filter.value.0, agg.filter.value.1);
      LexEqual(agg.filter.value.0, agg.filter.value.1);
      LexFiltered(equal, te);
      GlueSpaced(CallText(agg, columns), CallTokens(agg, columns), Spaced("FILTER", "(" + (Spaced("WHERE", equal) + ")")), FilterTokens(te));
    }
  }

  // ----- the SELECT list -----

  function ValueTokens(item: SelectItem, columns: Columns): seq<Token>
    requires PrintableItem(item, columns)
  {
    match item case KeyItem(e, _) => KeyTokens(e, columns) case AggregateItem(agg, _) => AggregateTokens(agg, columns)
  }

  function SelectItemTokens(item: SelectItem, columns: Columns): seq<Token>
    requires PrintableItem(item, columns)
  {
    ValueTokens(item, columns) + ([Word("AS")] + [Quoted(item.name)])
  }

  lemma LexSelectItem(item: SelectItem, columns: Columns)
    requires PrintableItem(item, columns)
    ensures Reads(SelectItemText(item, columns), SelectItemTokens(item, columns))
  {
    hide Reads, Spaced, KeyText, KeyTokens, AggregateText, AggregateTokens;
    LexQuotedAlone(item.name);
    WordBefore("AS", QuoteIdentifier(item.name), [Quoted(item.name)]);
    match item
    case KeyItem(e, name) =>
      LexKey(e, columns);
      GlueSpaced(KeyText(e, columns), KeyTokens(e, columns), Spaced("AS", QuoteIdentifier(name)), [Word("AS")] + [Quoted(name)]);
    case AggregateItem(agg, name) =>
      LexAggregate(agg, columns);
      GlueSpaced(AggregateText(agg, columns), AggregateTokens(agg, columns), Spaced("AS", QuoteIdentifier(name)), [Word("AS")] + [Quoted(name)]);
  }

  function ItemsTokens(items: seq<SelectItem>, columns: Columns): seq<Token>
    requires items != [] && PrintableItems(items, columns)
  {
    if |items| == 1 then SelectItemTokens(items[0], columns)
    else ListedTokens(SelectItemTokens(items[0], columns), ItemsTokens(items[1..], columns))
  }

  lemma {:induction false} LexItems(items: seq<SelectItem>, columns: Columns)
    requires items != [] && PrintableItems(items, columns)
    ensures Reads(ItemsText(items, columns), ItemsTokens(items, columns))
    decreases |items|
  {
    hide Reads, Listed, SelectItemText, SelectItemTokens;
    LexSelectItem(items[0], columns);
    if |items| > 1 {
      LexItems(items[1..], columns);
      GlueListed(SelectItemText(items[0], columns), SelectItemTokens(items[0], columns), ItemsText(items[1..], columns), ItemsTokens(items[1..], columns));
    }
  }

  // ----- the other clauses -----

  function PositionsTokens(from: nat, count: nat): seq<Token>
    requires count > 0
    decreases count
  {
    if count == 1 then [Number(from)] else ListedTokens([Number(from)], PositionsTokens(from + 1, count - 1))
  }

  lemma {:induction false} LexPositions(from: nat, count: nat)
    requires count > 0
    ensures Reads(PositionsText(from, count), PositionsTokens(from, count))
    decreases count
  {
    hide Reads, Listed, NatText;
    LexNumberAlone(from);
    if count > 1 {
      LexPositions(from + 1, count - 1);
      GlueListed(NatText(from), [Number(from)], PositionsText(from + 1, count - 1), PositionsTokens(from + 1, count - 1));
    }
  }

  function GroupTokens(count: nat): seq<Token> {
    if count == 0 then [] else [Word("GROUP")] + ([Word("BY")] + PositionsTokens(1, count))
  }

  lemma LexGroup(count: nat)
    requires count > 0
    ensures Reads(GroupText(count), GroupTokens(count))
  {
    hide Reads, Spaced, PositionsText, PositionsTokens;
    LexPositions(1, count);
    WordBefore("BY", PositionsText(1, count), PositionsTokens(1, count));
    WordBefore("GROUP", Spaced("BY", PositionsText(1, count)), [Word("BY")] + PositionsTokens(1, count));
  }

  function TermTokens(o: OrderBy): seq<Token> {
    [Quoted(o.outputReference)] + [Word(DirectionWord(o.direction))]
  }

  function TermsTokens(orderBy: seq<OrderBy>): seq<Token>
    requires orderBy != []
  {
    if |orderBy| == 1 then TermTokens(orderBy[0]) else ListedTokens(TermTokens(orderBy[0]), TermsTokens(orderBy[1..]))
  }

  lemma {:induction false} LexTerms(orderBy: seq<OrderBy>)
    requires orderBy != []
    ensures Reads(TermsText(orderBy), TermsTokens(orderBy))
    decreases |orderBy|
  {
    hide Reads, Listed, Spaced, QuoteIdentifier;
    var o := orderBy[0];
    LexQuotedAlone(o.outputReference);
    assert IsWord(DirectionWord(o.direction));
    LexWordAlone(DirectionWord(o.direction));
    GlueSpaced(QuoteIdentifier(o.outputReference), [Quoted(o.outputReference)], DirectionWord(o.direction), [Word(DirectionWord(o.direction))]);
    if |orderBy| > 1 {
      LexTerms(orderBy[1..]);
      GlueListed(TermText(o), TermTokens(o), TermsText(orderBy[1..]), TermsTokens(orderBy[1..]));
    }
  }

  function OrderTokens(orderBy: seq<OrderBy>): seq<Token> {
    if orderBy == [] then [] else [Word("ORDER")] + ([Word("BY")] + TermsTokens(orderBy))
  }

  lemma LexOrder(orderBy: seq<OrderBy>)
    requires orderBy != []
    ensures Reads(OrderText(orderBy), OrderTokens(orderBy))
  {
    hide Reads, Spaced, TermsText, TermsTokens;
    LexTerms(orderBy);
    WordBefore("BY", TermsText(orderBy), TermsTokens(orderBy));
    WordBefore("ORDER", Spaced("BY", TermsText(orderBy)), [Word("BY")] + TermsTokens(orderBy));
  }

  function LimitTokens(position: nat): seq<Token> {
    [Word("LIMIT")] + ParameterTokens(position, IntegerType)
  }

  lemma LexLimit(position: nat)
    ensures Reads(LimitText(position), LimitTokens(position))
  {
    hide Reads, ParameterText, ParameterTokens;
    LexParameterAlone(position, IntegerType);
    WordBefore("LIMIT", ParameterText(position, IntegerType), ParameterTokens(position, IntegerType));
  }

  function EndTokens(count: nat, orderBy: seq<OrderBy>, limit: nat): seq<Token> {
    GroupTokens(count) + (OrderTokens(orderBy) + LimitTokens(limit))
  }

  lemma LexEnd(count: nat, orderBy: seq<OrderBy>, limit: nat)
    ensures Reads(GroupAndEndText(count, orderBy, limit), EndTokens(count, orderBy, limit))
  {
    hide Reads, Lined, GroupText, OrderText, LimitText, LimitTokens;
    var end, te := EndText(orderBy, limit), OrderTokens(orderBy) + LimitTokens(limit);
    LexLimit(limit);
    if orderBy == [] {
      assert te == LimitTokens(limit);
    } else {
      LexOrder(orderBy);
      GlueSpaced(OrderText(orderBy), OrderTokens(orderBy), LimitText(limit), LimitTokens(limit));
    }
    assert Reads(end, te);
    if count == 0 {
      assert EndTokens(count, orderBy, limit) == te;
    } else {
      LexGroup(count);
      GlueSpaced(GroupText(count), GroupTokens(count), end, te);
    }
  }

  // ----- parsing expressions -----

  lemma ExpectNext<T>(x: T, token: Token, rest: seq<Token>)
    ensures Expect(Some((x, [token] + rest)), token) == Some((x, rest))
  {
    assert ([token] + rest)[1..] == rest;
  }

  predicate Distinct(columns: Columns) {
    columns.Some? ==> NoDuplicates(columns.value)
  }

  lemma ParsesBase(e: Expr, columns: Columns, rest: seq<Token>)
    requires PrintableBase(e, columns) && Distinct(columns)
    ensures ParseBase(BaseTokens(e, columns) + rest, columns) == Some((e, rest))
  {
    hide ParseItem, ItemTokens;
    if columns.None? {
      ParsesItem(e, rest);
    } else {
      var ts, name := BaseTokens(e, columns) + rest, columns.value[e.index];
      assert ts[3..] == rest;
      assert name in columns.value && IndexOf(columns.value, name) == e.index;
    }
  }

  /** A column begins with its alias, which is none of the words that begin something else. */
  lemma BaseBegins(e: Expr, columns: Columns, rest: seq<Token>)
    requires PrintableBase(e, columns)
    ensures var ts := BaseTokens(e, columns) + rest;
      && ts != [] && !BeginsAggregate(ts)
      && ts[0] != Word("date_trunc") && ts[0] != Word("timezone") && ts[0] != Word("CASE") && ts[0] != Word("DISTINCT")
  {
    hide NatText;
    var w := (BaseTokens(e, columns) + rest)[0].text;
    if columns.None? {
      assert w[0] == 't' && |w| > 1 && IsDigit(w[1]) && !IsDigit("timezone"[1]);
    } else {
      assert |w| == 1;
    }
  }

  lemma ParsesLocal(zone: nat, arg: Expr, columns: Columns, rest: seq<Token>)
    requires PrintableBase(arg, columns) && Distinct(columns)
    ensures ParseLocal(LocalTokens(zone, BaseTokens(arg, columns)) + rest, columns) == Some(((zone, arg), rest))
  {
    hide ParseBase, BaseTokens, ParseParameter, ParameterTokens;
    var p, base := ParameterTokens(zone, TextType), BaseTokens(arg, columns);
    var ts := LocalTokens(zone, base) + rest;
    var after := base + ([RightParen] + rest);
    assert ts == [Word("timezone")] + ([LeftParen] + (p + ([Comma] + after)));
    assert ts[2..] == p + ([Comma] + after);
    ParsesParameter(zone, TextType, [Comma] + after);
    ExpectNext(Param(zone, TextType), Comma, after);
    ParsesBase(arg, columns, [RightParen] + rest);
    ExpectNext(arg, RightParen, rest);
  }

  lemma GrainsNamed(g: TimeGrain)
    ensures GrainNamed(GrainName(g)) == Some(g)
  {
    assert |"day"| == 3 && |"week"| == 4 && |"month"| == 5 && |"quarter"| == 7 && |"year"| == 4 && "week"[0] != "year"[0];
  }

  function TruncEnd(rest: seq<Token>): seq<Token> {
    [RightParen] + (CastTokens("date") + rest)
  }

  lemma TruncSplits(g: TimeGrain, arg: seq<Token>, rest: seq<Token>)
    ensures var ts := TruncTokens(g, arg) + rest;
      && |ts| >= 4 && ts[0] == Word("date_trunc") && ts[1] == LeftParen && ts[2] == Text(GrainName(g)) && ts[3] == Comma
      && ts[4..] == arg + TruncEnd(rest)
  {
    hide GrainName;
    var ts := TruncTokens(g, arg) + rest;
    assert ts == [Word("date_trunc")] + ([LeftParen] + ([Text(GrainName(g))] + ([Comma] + (arg + TruncEnd(rest)))));
  }

  lemma TruncCloses(e: Expr, rest: seq<Token>)
    ensures Expect(Expect(Expect(Some((e, TruncEnd(rest))), RightParen), CastMark), Word("date")) == Some((e, rest))
  {
    hide Expect;
    assert CastTokens("date") + rest == [CastMark] + ([Word("date")] + rest);
    ExpectNext(e, RightParen, CastTokens("date") + rest);
    ExpectNext(e, CastMark, [Word("date")] + rest);
    ExpectNext(e, Word("date"), rest);
  }

  /** date_trunc around an argument that has been read. */
  lemma ParsesTrunc(g: TimeGrain, arg: seq<Token>, columns: Columns, e: Expr, rest: seq<Token>)
    requires arg != []
    requires if arg[0] == Word("timezone") then
        e.LocalTrunc? && e.grain == g && ParseLocal(arg + TruncEnd(rest), columns) == Some(((e.zone, e.arg), TruncEnd(rest)))
      else
        e.Trunc? && e.grain == g && ParseBase(arg + TruncEnd(rest), columns) == Some((e.arg, TruncEnd(rest)))
    ensures ParseTrunc(TruncTokens(g, arg) + rest, columns) == Some((e, rest))
  {
    hide ParseLocal, ParseBase, GrainNamed, GrainName, TruncTokens, TruncEnd, Expect;
    GrainsNamed(g);
    TruncSplits(g, arg, rest);
    TruncCloses(e, rest);
    assert (arg + TruncEnd(rest))[0] == arg[0];
  }

  lemma ParsesKey(e: Expr, columns: Columns, rest: seq<Token>)
    requires PrintableKey(e, columns) && Distinct(columns)
    ensures ParseKey(KeyTokens(e, columns) + rest, columns) == Some((e, rest)) && !BeginsAggregate(KeyTokens(e, columns) + rest)
  {
    hide ParseTrunc, ParseBase, ParseLocal, BaseTokens;
    var end := TruncEnd(rest);
    assert |"date_trunc"| == 10;
    match e
    case Trunc(grain, arg) =>
      var base := BaseTokens(arg, columns);
      BaseBegins(arg, columns, []);
      assert base + [] == base;
      ParsesBase(arg, columns, end);
      ParsesTrunc(grain, base, columns, e, rest);
      assert (KeyTokens(e, columns) + rest)[0] == Word("date_trunc");
    case LocalTrunc(grain, zone, arg) =>
      var local := LocalTokens(zone, BaseTokens(arg, columns));
      ParsesLocal(zone, arg, columns, end);
      ParsesTrunc(grain, local, columns, e, rest);
      assert (KeyTokens(e, columns) + rest)[0] == Word("date_trunc");
    case _ =>
      BaseBegins(e, columns, rest);
      ParsesBase(e, columns, rest);
  }

  lemma ParsesEqual(left: Expr, right: Expr, rest: seq<Token>)
    requires PrintableEqual(left, right) && NoCast(rest)
    ensures ParseEqual(EqualTokens(left, right) + rest) == Some(((left, right), rest))
  {
    hide ParseItem, ItemTokens, ParseParameter, ParameterTokens;
    var p := ParameterTokens(right.position, right.cast);
    var ts := EqualTokens(left, right) + rest;
    assert ts == ItemTokens(left) + ([Operator(Eq)] + (p + rest));
    ParsesItem(left, [Operator(Eq)] + (p + rest));
    ExpectNext(left, Operator(Eq), p + rest);
    ParsesParameter(right.position, right.cast, rest);
  }

  lemma ParsesCase(e: Expr, columns: Columns, rest: seq<Token>)
    requires e.CaseEqual? && PrintableArgument(e, columns) && Distinct(columns)
    ensures ParseCase(ArgumentTokens(e, columns) + rest, columns) == Some((e, rest))
  {
    hide ParseEqual, EqualTokens, ParseBase, BaseTokens;
    var equal, base := EqualTokens(e.left, e.right), BaseTokens(e.result, columns);
    var ts := ArgumentTokens(e, columns) + rest;
    var after := base + ([Word("END")] + rest);
    assert ts == [Word("CASE")] + ([Word("WHEN")] + (equal + ([Word("THEN")] + after)));
    assert ts[2..] == equal + ([Word("THEN")] + after);
    ParsesEqual(e.left, e.right, [Word("THEN")] + after);
    ExpectNext((e.left, e.right), Word("THEN"), after);
    ParsesBase(e.result, columns, [Word("END")] + rest);
    ExpectNext(e.result, Word("END"), rest);
  }

  lemma ParsesArgument(e: Expr, columns: Columns, rest: seq<Token>)
    requires PrintableArgument(e, columns) && Distinct(columns)
    ensures ParseArgument(ArgumentTokens(e, columns) + rest, columns) == Some((e, rest))
    ensures ArgumentTokens(e, columns) != [] && ArgumentTokens(e, columns)[0] != Word("DISTINCT")
  {
    hide ParseCase, ParseBase, BaseTokens;
    if e.CaseEqual? {
      ParsesCase(e, columns, rest);
      assert "CASE"[0] != "DISTINCT"[0];
    } else {
      BaseBegins(e, columns, []);
      assert BaseTokens(e, columns) + [] == BaseTokens(e, columns);
      ParsesBase(e, columns, rest);
    }
  }

  lemma AggregatesNamed(fn: Aggregation)
    ensures AggregateNamed(AggregateWord(fn)) == Some(if fn == CountDistinct then Count else fn)
  {
    assert "sum"[0] == 's' && "min"[0] == 'm' && "max"[0] == 'm' && "avg"[0] == 'a' && "count"[0] == 'c' && "min"[1] != "max"[1];
  }

  lemma ParsesCall(agg: AggregateExpr, columns: Columns, rest: seq<Token>)
    requires PrintableAggregate(agg, columns) && Distinct(columns)
    ensures ParseCall(CallTokens(agg, columns) + rest, columns) == Some((agg.(filter := None), rest)) && BeginsAggregate(CallTokens(agg, columns) + rest)
  {
    hide ParseArgument, ArgumentTokens, AggregateNamed, AggregateWord;
    AggregatesNamed(agg.fn);
    var arg, end := ArgumentTokens(agg.arg, columns), [RightParen] + rest;
    var ts := CallTokens(agg, columns) + rest;
    ParsesArgument(agg.arg, columns, end);
    ExpectNext(agg.arg, RightParen, rest);
    if agg.fn == CountDistinct {
      assert ts == [Word(AggregateWord(agg.fn))] + ([LeftParen] + ([Word("DISTINCT")] + (arg + end)));
      assert ts[2..] == [Word("DISTINCT")] + (arg + end);
      assert ts[2..][1..] == arg + end;
    } else {
      assert ts == [Word(AggregateWord(agg.fn))] + ([LeftParen] + (arg + end));
      assert ts[2..] == arg + end;
      assert (arg + end)[0] == arg[0];
    }
  }

  lemma ParsesFilter(agg: AggregateExpr, left: Expr, right: Expr, rest: seq<Token>)
    requires PrintableEqual(left, right)
    ensures ParseFiltered(agg, FilterTokens(EqualTokens(left, right)) + rest) == Some((agg.(filter := Some((left, right))), rest))
  {
    hide ParseEqual, EqualTokens;
    var equal := EqualTokens(left, right);
    var ts := FilterTokens(equal) + rest;
    assert ts == [Word("FILTER")] + ([LeftParen] + ([Word("WHERE")] + (equal + ([RightParen] + rest))));
    assert ts[3..] == equal + ([RightParen] + rest);
    ParsesEqual(left, right, [RightParen] + rest);
    ExpectNext((left, right), RightParen, rest);
  }

  lemma ParsesAggregate(agg: AggregateExpr, columns: Columns, rest: seq<Token>)
    requires PrintableAggregate(agg, columns) && Distinct(columns) && rest != [] && rest[0] != Word("FILTER")
    ensures ParseAggregate(AggregateTokens(agg, columns) + rest, columns) == Some((agg, rest)) && BeginsAggregate(AggregateTokens(agg, columns) + rest)
  {
    hide ParseCall, CallTokens, BeginsAggregate, FilterTokens, EqualTokens;
    var call := CallTokens(agg, columns);
    if agg.filter.None? {
      ParsesCall(agg, columns, rest);
      assert agg.(filter := None) == agg;
    } else {
      var filter := FilterTokens(EqualTokens(agg.filter.value.0, agg.filter.value.1));
      ParsesCall(agg, columns, filter + rest);
      assert AggregateTokens(agg, columns) + rest == call + (filter + rest);
      ParsesFilter(agg.(filter := None), agg.filter.value.0, agg.filter.value.1, rest);
    }
  }

  // ----- parsing the SELECT list -----

  lemma ParsesName(name: string, rest: seq<Token>)
    ensures ParseName(([Word("AS")] + [Quoted(name)]) + rest) == Some((name, rest))
  {
    assert (([Word("AS")] + [Quoted(name)]) + rest)[2..] == rest;
  }

  lemma ParsesOne(item: SelectItem, columns: Columns, rest: seq<Token>)
    requires PrintableItem(item, columns) && Distinct(columns)
    ensures ParseOne(SelectItemTokens(item, columns) + rest, columns) == Some((item, rest))
  {
    hide ParseKey, ParseAggregate, KeyTokens, AggregateTokens, BeginsAggregate, ParseName;
    var name := ([Word("AS")] + [Quoted(item.name)]) + rest;
    assert SelectItemTokens(item, columns) + rest == ValueTokens(item, columns) + name;
    ParsesName(item.name, rest);
    assert |"AS"| != |"FILTER"|;
    match item
    case KeyItem(e, _) => ParsesKey(e, columns, name);
    case AggregateItem(agg, _) => ParsesAggregate(agg, columns, name);
  }

  lemma {:induction false} ParsesItems(items: seq<SelectItem>, columns: Columns, rest: seq<Token>)
    requires items != [] && PrintableItems(items, columns) && Distinct(columns) && (rest == [] || rest[0] != Comma)
    ensures ParseItems(ItemsTokens(items, columns) + rest, columns) == Some((items, rest))
    decreases |items|
  {
    hide ParseOne, SelectItemTokens;
    var first := SelectItemTokens(items[0], columns);
    if |items| == 1 {
      ParsesOne(items[0], columns, rest);
      assert items == [items[0]];
    } else {
      var more := ItemsTokens(items[1..], columns) + rest;
      assert ItemsTokens(items, columns) + rest == first + ([Comma] + more);
      ParsesOne(items[0], columns, [Comma] + more);
      ParsesItems(items[1..], columns, rest);
      assert ([Comma] + more)[1..] == more;
      assert [items[0]] + items[1..] == items;
    }
  }

  // ----- parsing the other clauses -----

  lemma OneCounted(from: nat)
    ensures Counted(from, 1) == [from]
  {
    assert Counted(from, 1) == [from] + Counted(from + 1, 0);
  }

  lemma {:induction false} ParsesPositions(from: nat, count: nat, rest: seq<Token>)
    requires count > 0 && (rest == [] || rest[0] != Comma)
    ensures ParsePositions(PositionsTokens(from, count) + rest) == Some((Counted(from, count), rest))
    decreases count
  {
    var ts := PositionsTokens(from, count) + rest;
    if count == 1 {
      assert ts[1..] == rest;
      assert ts == [Number(from)] + rest;
      OneCounted(from);
    } else {
      ParsesPositions(from + 1, count - 1, rest);
      assert ts == [Number(from)] + ([Comma] + (PositionsTokens(from + 1, count - 1) + rest));
      assert ts[2..] == PositionsTokens(from + 1, count - 1) + rest;
    }
  }

  lemma ParsesGroups(count: nat, rest: seq<Token>)
    requires rest != [] && rest[0] != Comma && rest[0] != Word("GROUP")
    ensures ParseGroups(GroupTokens(count) + rest) == Some((Counted(1, count), rest))
  {
    hide ParsePositions, PositionsTokens;
    var ts := GroupTokens(count) + rest;
    if count == 0 {
      assert ts == rest;
    } else {
      ParsesPositions(1, count, rest);
      assert ts == [Word("GROUP")] + ([Word("BY")] + (PositionsTokens(1, count) + rest));
      assert ts[2..] == PositionsTokens(1, count) + rest;
    }
  }

  lemma DirectionsNamed(d: SortDirection)
    ensures DirectionNamed(DirectionWord(d)) == Some(d)
  {
    assert |"ASC"| != |"DESC"|;
  }

  lemma TermFirst(o: OrderBy, more: seq<Token>)
    ensures var ts := TermTokens(o) + more;
      |ts| == 2 + |more| && ts[0] == Quoted(o.outputReference) && ts[1] == Word(DirectionWord(o.direction)) && ts[2..] == more
  {
    hide DirectionWord;
  }

  lemma LastTerm(o: OrderBy, rest: seq<Token>)
    requires rest == [] || rest[0] != Comma
    ensures ParseTerms(TermTokens(o) + rest) == Some(([o], rest))
  {
    hide DirectionNamed, DirectionWord, TermTokens;
    var ts := TermTokens(o) + rest;
    DirectionsNamed(o.direction);
    TermFirst(o, rest);
    assert rest != [] ==> ts[2] == ts[2..][0];
  }

  lemma TermBefore(o: OrderBy, more: seq<Token>, orderBy: seq<OrderBy>, rest: seq<Token>)
    requires ParseTerms(more) == Some((orderBy, rest))
    ensures ParseTerms(TermTokens(o) + ([Comma] + more)) == Some(([o] + orderBy, rest))
  {
    hide DirectionNamed, DirectionWord, TermTokens;
    var ts := TermTokens(o) + ([Comma] + more);
    DirectionsNamed(o.direction);
    TermFirst(o, [Comma] + more);
    assert ts[2] == ts[2..][0] && ts[3..] == ts[2..][1..] && ([Comma] + more)[1..] == more;
  }

  lemma {:induction false} ParsesTerms(orderBy: seq<OrderBy>, rest: seq<Token>)
    requires orderBy != [] && (rest == [] || rest[0] != Comma)
    ensures ParseTerms(TermsTokens(orderBy) + rest) == Some((orderBy, rest))
    decreases |orderBy|
  {
    hide ParseTerms, TermTokens;
    var o := orderBy[0];
    if |orderBy| == 1 {
      LastTerm(o, rest);
      assert orderBy == [o];
    } else {
      var more := TermsTokens(orderBy[1..]) + rest;
      ParsesTerms(orderBy[1..], rest);
      assert TermsTokens(orderBy) + rest == TermTokens(o) + ([Comma] + more);
      TermBefore(o, more, orderBy[1..], rest);
      assert [o] + orderBy[1..] == orderBy;
    }
  }

  lemma ParsesOrder(orderBy: seq<OrderBy>, rest: seq<Token>)
    requires rest != [] && rest[0] != Comma && rest[0] != Word("ORDER")
    ensures ParseOrder(OrderTokens(orderBy) + rest) == Some((orderBy, rest))
  {
    hide ParseTerms, TermsTokens;
    var ts := OrderTokens(orderBy) + rest;
    if orderBy == [] {
      assert ts == rest;
    } else {
      ParsesTerms(orderBy, rest);
      assert ts == [Word("ORDER")] + ([Word("BY")] + (TermsTokens(orderBy) + rest));
      assert ts[2..] == TermsTokens(orderBy) + rest;
    }
  }

  lemma ParsesLimit(position: nat)
    ensures ParseLimit(LimitTokens(position)) == Some((position, []))
  {
    hide ParseParameter, ParameterTokens;
    var p := ParameterTokens(position, IntegerType);
    ParsesParameter(position, IntegerType, []);
    assert p + [] == p;
    assert LimitTokens(position)[1..] == p;
  }

  // ----- whole statements -----

  lemma {:induction false} KeysLead(items: seq<SelectItem>, keys: seq<Expr>)
    requires |keys| <= |items| && (|keys| == |items| || items[|keys|].AggregateItem?)
    requires forall i :: 0 <= i < |keys| ==> items[i].KeyItem? && items[i].expr == keys[i]
    ensures LeadingKeys(items) == keys
    decreases |keys|
  {
    if keys != [] {
      KeysLead(items[1..], keys[1..]);
      assert keys == [keys[0]] + keys[1..];
    }
  }

  lemma {:induction false} AggregatesFollow(items: seq<SelectItem>, aggs: seq<AggregateExpr>)
    requires |aggs| == |items| && forall i :: 0 <= i < |aggs| ==> items[i] == AggregateItem(aggs[i], items[i].name)
    ensures Aggregates(items) == Some(aggs)
  {
    if items != [] {
      AggregatesFollow(items[1..], aggs[1..]);
      assert aggs == [aggs[0]] + aggs[1..];
    }
  }

  lemma ItemsLead(q: Select, names: seq<string>)
    requires |names| == |q.keys| + |q.aggregates|
    ensures LeadingKeys(ItemsOf(q, names)) == q.keys
    ensures Aggregates(ItemsOf(q, names)[|q.keys|..]) == Some(q.aggregates)
  {
    hide ItemsOf, LeadingKeys, Aggregates;
    var items, n := ItemsOf(q, names), |q.keys|;
    KeysLead(items, q.keys);
    var rest := items[n..];
    forall i | 0 <= i < |q.aggregates|
      ensures rest[i] == AggregateItem(q.aggregates[i], rest[i].name)
    {
      assert rest[i] == items[n + i];
    }
    AggregatesFollow(rest, q.aggregates);
  }

  /** The SELECT list of a stage says what its keys and aggregates are. */
  lemma SelectsBack(q: Select, names: seq<string>, source: Source)
    requires |names| == |q.keys| + |q.aggregates|
    ensures SelectOf(ItemsOf(q, names), Counted(1, |q.keys|), source) == Some(q.(source := source))
    ensures ItemNames(ItemsOf(q, names)) == names
  {
    hide Counted, ItemsOf, LeadingKeys, Aggregates;
    ItemsLead(q, names);
  }

  function TablesTokens(items: seq<Token>, from: seq<Token>): seq<Token> {
    [Word("SELECT")] + (items + from)
  }

  lemma ParsesTables(items: seq<SelectItem>, src: Source, rest: seq<Token>)
    requires items != [] && PrintableItems(items, None) && PrintableFrom(src) && Closes(rest)
    ensures ParseTables(TablesTokens(ItemsTokens(items, None), FromTokens(src)) + rest) == Some((Head(items, CollapseFrom(src)), rest))
  {
    hide ParseItems, ItemsTokens, ParseFrom, FromTokens, CollapseFrom, PrintableItems, PrintableFrom;
    var list, from := ItemsTokens(items, None), FromTokens(src);
    var ts := TablesTokens(list, from) + rest;
    FromBegins(src);
    assert ts == [Word("SELECT")] + (list + (from + rest));
    assert ts[1..] == list + (from + rest);
    ParsesItems(items, None, from + rest);
    ParsesFrom(src, rest);
  }

  lemma FromBegins(src: Source)
    requires PrintableFrom(src)
    ensures FromTokens(src) != [] && FromTokens(src)[0] == Word("FROM")
  {
    hide PredTokens, JoinsTokens, TableTokens, AliasTokens;
  }

  lemma EndBegins(count: nat, orderBy: seq<OrderBy>, limit: nat)
    ensures Closes(EndTokens(count, orderBy, limit))
    ensures var ts := OrderTokens(orderBy) + LimitTokens(limit); ts != [] && ts[0] != Comma && ts[0] != Word("GROUP")
    ensures LimitTokens(limit) != [] && LimitTokens(limit)[0] == Word("LIMIT") && Word("LIMIT") != Word("ORDER")
  {
    hide PositionsTokens, TermsTokens, ParameterTokens;
    assert "ORDER"[0] != "GROUP"[0] && "LIMIT"[0] != "GROUP"[0] && "LIMIT"[0] != "ORDER"[0];
    var order := OrderTokens(orderBy) + LimitTokens(limit);
    assert order[0] == if orderBy == [] then Word("LIMIT") else Word("ORDER");
    assert EndTokens(count, orderBy, limit)[0] == if count == 0 then order[0] else Word("GROUP");
  }

  lemma ParsesEnd(q: Select, names: seq<string>, source: Source, orderBy: seq<OrderBy>, limit: nat)
    requires |names| == |q.keys| + |q.aggregates|
    ensures ParseEnd(Head(ItemsOf(q, names), source), EndTokens(|q.keys|, orderBy, limit)) == Some(Sent(Statement(q.(source := source), orderBy, limit), names))
  {
    hide ParseGroups, ParseOrder, ParseLimit, GroupTokens, OrderTokens, LimitTokens, SelectOf;
    EndBegins(|q.keys|, orderBy, limit);
    ParsesGroups(|q.keys|, OrderTokens(orderBy) + LimitTokens(limit));
    ParsesOrder(orderBy, LimitTokens(limit));
    ParsesLimit(limit);
    SelectsBack(q, names, source);
  }

  lemma FlatReads(q: Select, names: seq<string>, orderBy: seq<OrderBy>, limit: nat)
    requires PrintableFrom(q.source) && PrintableStage(q, names, None)
    ensures ReadStatement(FlatText(q, names, GroupAndEndText(|q.keys|, orderBy, limit)))
      == Some(Sent(Statement(q.(source := CollapseFrom(q.source)), orderBy, limit), names))
  {
    hide Lex, Lined, Spaced, ItemsText, ItemsTokens, FromText, FromTokens, GroupAndEndText, EndTokens, ParseTables, ParseEnd, PrintableItems;
    var items, end, te := ItemsOf(q, names), GroupAndEndText(|q.keys|, orderBy, limit), EndTokens(|q.keys|, orderBy, limit);
    var list, tl, from, tf := ItemsText(items, None), ItemsTokens(items, None), FromText(q.source), FromTokens(q.source);
    LexItems(items, None);
    LexFrom(q.source);
    LexEnd(|q.keys|, orderBy, limit);
    GlueSpaced(from, tf, end, te);
    GlueSpaced(list, tl, Lined(from, end), tf + te);
    WordBefore("SELECT", Lined(list, Lined(from, end)), tl + (tf + te));
    var ts := TablesTokens(tl, tf) + te;
    assert [Word("SELECT")] + (tl + (tf + te)) == ts;
    EndBegins(|q.keys|, orderBy, limit);
    ParsesTables(items, q.source, te);
    ParsesEnd(q, names, CollapseFrom(q.source), orderBy, limit);
    assert ts[0] == Word("SELECT") && "SELECT"[0] != "WITH"[0];
  }

  // ----- the two stages -----

  lemma InnerNamesDiffer(dimensions: nat, i: nat, j: nat)
    requires i != j
    ensures InnerName(dimensions, i) != InnerName(dimensions, j)
  {
    hide NatText, TextNat;
    var a, b := InnerName(dimensions, i), InnerName(dimensions, j);
    assert a[2] == if i < dimensions then 'd' else if i == dimensions then 'a' else 'm';
    assert b[2] == if j < dimensions then 'd' else if j == dimensions then 'a' else 'm';
    if i < dimensions && j < dimensions {
      NumberRoundTrip(i);
      NumberRoundTrip(j);
      assert a[3..] == NatText(i) && b[3..] == NatText(j);
    } else if i > dimensions && j > dimensions {
      NumberRoundTrip(i - dimensions - 1);
      NumberRoundTrip(j - dimensions - 1);
      assert a[3..] == NatText(i - dimensions - 1) && b[3..] == NatText(j - dimensions - 1);
    }
  }

  lemma InnerNamesDistinct(inner: Select)
    requires inner.keys != []
    ensures NoDuplicates(InnerNamesOf(inner))
  {
    hide InnerName;
    var names := InnerNamesOf(inner);
    forall i, j | 0 <= i < j < |names|
      ensures names[i] != names[j]
    {
      InnerNamesDiffer(|inner.keys| - 1, i, j);
    }
  }

  function InnerTokens(inner: Select): seq<Token>
    requires inner.keys != [] && PrintableFrom(inner.source) && PrintableStage(inner, InnerNamesOf(inner), None)
  {
    TablesTokens(ItemsTokens(ItemsOf(inner, InnerNamesOf(inner)), None), IndentTokens(FromTokens(inner.source))) + GroupTokens(|inner.keys|)
  }

  lemma LexInner(inner: Select)
    requires inner.keys != [] && PrintableFrom(inner.source) && PrintableStage(inner, InnerNamesOf(inner), None)
    ensures Reads(InnerText(inner), InnerTokens(inner))
  {
    hide Lex, Inset, Spaced, ItemsText, ItemsTokens, FromText, FromTokens, GroupText, GroupTokens, IndentTokens, Indent, PrintableItems, PrintableFrom, InnerNamesOf;
    var items := ItemsOf(inner, InnerNamesOf(inner));
    var list, tl, from, tf := ItemsText(items, None), ItemsTokens(items, None), Indent(FromText(inner.source)), IndentTokens(FromTokens(inner.source));
    var group, tg := GroupText(|inner.keys|), GroupTokens(|inner.keys|);
    LexItems(items, None);
    LexFrom(inner.source);
    LexIndented(FromText(inner.source));
    assert Reads(from, tf);
    LexGroup(|inner.keys|);
    GlueSpaced(from, tf, group, tg);
    GlueSpaced(list, tl, Inset(from, group), tf + tg);
    WordBefore("SELECT", Inset(list, Inset(from, group)), tl + (tf + tg));
    assert [Word("SELECT")] + (tl + (tf + tg)) == TablesTokens(tl, tf) + tg;
  }

  lemma ParsesInner(inner: Select, rest: seq<Token>)
    requires inner.keys != [] && PrintableFrom(inner.source) && PrintableStage(inner, InnerNamesOf(inner), None)
    ensures ParseInner([LeftParen] + (InnerTokens(inner) + ([RightParen] + rest)))
      == Some(((inner.(source := CollapseFrom(IndentFrom(inner.source))), InnerNamesOf(inner)), rest))
  {
    hide ItemsTokens, FromTokens, ParseTables, ParseGroups, SelectOf, IndentTokens, CollapseFrom, PrintableItems, IndentFrom, InnerNamesOf, PositionsTokens;
    var n, names := |inner.keys|, InnerNamesOf(inner);
    var items := ItemsOf(inner, names);
    var src, close := IndentFrom(inner.source), [RightParen] + rest;
    FromIndents(inner.source);
    var tables := TablesTokens(ItemsTokens(items, None), FromTokens(src));
    var ts := [LeftParen] + (InnerTokens(inner) + close);
    assert ts[1..] == tables + (GroupTokens(n) + close);
    assert (GroupTokens(n) + close)[0] == Word("GROUP");
    ParsesTables(items, src, GroupTokens(n) + close);
    ParsesGroups(n, close);
    ExpectNext(Counted(1, n), RightParen, rest);
    SelectsBack(inner, names, CollapseFrom(src));
  }

  function OuterTokens(q: Select, names: seq<string>, columns: seq<string>, end: seq<Token>): seq<Token>
    requires PrintableStage(q, names, Some(columns))
  {
    [Word("SELECT")] + (ItemsTokens(ItemsOf(q, names), Some(columns)) + ([Word("FROM")] + ([Quoted(INNER_STAGE)] + ([Word("AS")] + ([Word("a")] + end)))))
  }

  lemma StageBefore(b: string, tb: seq<Token>)
    requires Reads(b, tb)
    ensures Reads(Spaced(QuoteIdentifier(INNER_STAGE), b), [Quoted(INNER_STAGE)] + tb)
  {
    hide Reads, QuoteIdentifier;
    LexQuotedAlone(INNER_STAGE);
    GlueSpaced(QuoteIdentifier(INNER_STAGE), [Quoted(INNER_STAGE)], b, tb);
  }

  lemma LexFromStage(end: string, te: seq<Token>)
    requires Reads(end, te)
    ensures Reads(Spaced("FROM", Spaced(QuoteIdentifier(INNER_STAGE), Spaced("AS", Lined("a", end)))),
                  [Word("FROM")] + ([Quoted(INNER_STAGE)] + ([Word("AS")] + ([Word("a")] + te))))
  {
    hide Reads, Lined, Spaced, QuoteIdentifier;
    LexWordAlone("a");
    GlueSpaced("a", [Word("a")], end, te);
    WordBefore("AS", Lined("a", end), [Word("a")] + te);
    StageBefore(Spaced("AS", Lined("a", end)), [Word("AS")] + ([Word("a")] + te));
    WordBefore("FROM", Spaced(QuoteIdentifier(INNER_STAGE), Spaced("AS", Lined("a", end))), [Quoted(INNER_STAGE)] + ([Word("AS")] + ([Word("a")] + te)));
  }

  lemma LexOuter(q: Select, names: seq<string>, columns: seq<string>, end: string, te: seq<Token>)
    requires PrintableStage(q, names, Some(columns)) && Reads(end, te)
    ensures Reads(OuterText(q, names, columns, end), OuterTokens(q, names, columns, te))
  {
    hide Reads, Lined, Spaced, ItemsText, ItemsTokens, PrintableItems, QuoteIdentifier;
    var items := ItemsOf(q, names);
    var list, tl := ItemsText(items, Some(columns)), ItemsTokens(items, Some(columns));
    var from, tf := Spaced("FROM", Spaced(QuoteIdentifier(INNER_STAGE), Spaced("AS", Lined("a", end)))),
      [Word("FROM")] + ([Quoted(INNER_STAGE)] + ([Word("AS")] + ([Word("a")] + te)));
    LexItems(items, Some(columns));
    LexFromStage(end, te);
    GlueSpaced(list, tl, from, tf);
    WordBefore("SELECT", Lined(list, from), tl + tf);
  }

  lemma ParsesOuter(q: Select, names: seq<string>, inner: Select, columns: seq<string>, rest: seq<Token>)
    requires PrintableStage(q, names, Some(columns)) && NoDuplicates(columns)
    ensures ParseDerived(OuterTokens(q, names, columns, rest), inner, columns) == Some((Head(ItemsOf(q, names), Stage(inner)), rest))
  {
    hide ParseItems, ItemsTokens, PrintableItems;
    var list := ItemsTokens(ItemsOf(q, names), Some(columns));
    var ts := OuterTokens(q, names, columns, rest);
    var from := [Word("FROM")] + ([Quoted(INNER_STAGE)] + ([Word("AS")] + ([Word("a")] + rest)));
    assert ts[1..] == list + from;
    ParsesItems(ItemsOf(q, names), Some(columns), from);
    assert from[4..] == rest;
  }

  function WithTokens(inner: seq<Token>, outer: seq<Token>): seq<Token> {
    [Word("WITH")] + ([Quoted(INNER_STAGE)] + ([Word("AS")] + ([LeftParen] + (inner + ([RightParen] + outer)))))
  }

  lemma LexWith(inner: string, ti: seq<Token>, outer: string, to: seq<Token>)
    requires Reads(inner, ti) && Reads(outer, to)
    ensures Reads(Spaced("WITH", Spaced(QuoteIdentifier(INNER_STAGE), Spaced("AS", "(" + ("\n  " + Lined(inner, ")" + ("\n" + outer)))))), WithTokens(ti, to))
  {
    hide Reads, Spaced, Lined, QuoteIdentifier;
    LexSubquery(inner, ti, outer, to);
    var group, tg := "(" + ("\n  " + Lined(inner, ")" + ("\n" + outer))), [LeftParen] + (ti + ([RightParen] + to));
    WordBefore("AS", group, tg);
    StageBefore(Spaced("AS", group), [Word("AS")] + tg);
    WordBefore("WITH", Spaced(QuoteIdentifier(INNER_STAGE), Spaced("AS", group)), [Quoted(INNER_STAGE)] + ([Word("AS")] + tg));
  }

  lemma LexSubquery(inner: string, ti: seq<Token>, outer: string, to: seq<Token>)
    requires Reads(inner, ti) && Reads(outer, to)
    ensures Reads("(" + ("\n  " + Lined(inner, ")" + ("\n" + outer))), [LeftParen] + (ti + ([RightParen] + to)))
  {
    hide Reads, Lined;
    SpaceBefore(outer, to);
    MarkBefore(")", RightParen, "\n" + outer, to);
    var close, tc := ")" + ("\n" + outer), [RightParen] + to;
    GlueSpaced(inner, ti, close, tc);
    SpaceBefore(Lined(inner, close), ti + tc);
    MarkBefore("(", LeftParen, "\n  " + Lined(inner, close), ti + tc);
  }

  /** The statement the text of a compiled one says: with its condition collapsed and, behind the wrapper, its FROM clause's names indented. */
  function AsSent(st: Statement): Statement
    requires st.query.source.From? || st.query.source.inner.source.From?
  {
    st.(query := st.query.(source :=
      match st.query.source
      case From(_, _, _) => CollapseFrom(st.query.source)
      case Stage(inner) => Stage(inner.(source := CollapseFrom(IndentFrom(inner.source))))))
  }

  function WrappedTokens(st: Statement, names: seq<string>): seq<Token>
    requires PrintableStatement(st, names) && st.query.source.Stage?
  {
    var inner := st.query.source.inner;
    WithTokens(InnerTokens(inner), OuterTokens(st.query, names, InnerNamesOf(inner), EndTokens(|st.query.keys|, st.orderBy, st.limit)))
  }

  lemma LexWrapped(st: Statement, names: seq<string>)
    requires PrintableStatement(st, names) && st.query.source.Stage?
    ensures Reads(SentText(st, names), WrappedTokens(st, names))
  {
    hide Reads, Lined, Spaced, InnerText, InnerTokens, OuterText, OuterTokens, GroupAndEndText, EndTokens, WithTokens,
         InnerNamesOf, PrintableFrom, PrintableStage, QuoteIdentifier;
    var q, inner := st.query, st.query.source.inner;
    var columns := InnerNamesOf(inner);
    var end, te := GroupAndEndText(|q.keys|, st.orderBy, st.limit), EndTokens(|q.keys|, st.orderBy, st.limit);
    LexEnd(|q.keys|, st.orderBy, st.limit);
    LexInner(inner);
    LexOuter(q, names, columns, end, te);
    LexWith(InnerText(inner), InnerTokens(inner), OuterText(q, names, columns, end), OuterTokens(q, names, columns, te));
  }

  lemma ParsesWrapped(st: Statement, names: seq<string>)
    requires PrintableStatement(st, names) && st.query.source.Stage? && st.query.source.inner.source.From?
    ensures ParseStatement(WrappedTokens(st, names)) == Some(Sent(AsSent(st), names))
  {
    hide InnerTokens, OuterTokens, EndTokens, ParseInner, ParseDerived, ParseEnd, ParseTables, InnerNamesOf, PrintableFrom, PrintableStage, CollapseFrom;
    var q, inner := st.query, st.query.source.inner;
    var columns, te := InnerNamesOf(inner), EndTokens(|q.keys|, st.orderBy, st.limit);
    StagePrintable(st, names);
    var ti, to := InnerTokens(inner), OuterTokens(q, names, columns, te);
    var ts := WithTokens(ti, to);
    assert ts[3..] == [LeftParen] + (ti + ([RightParen] + to));
    ParsesInner(inner, to);
    InnerNamesDistinct(inner);
    var read := inner.(source := CollapseFrom(IndentFrom(inner.source)));
    ParsesOuter(q, names, read, columns, te);
    ParsesEnd(q, names, Stage(read), st.orderBy, st.limit);
  }

  lemma StagePrintable(st: Statement, names: seq<string>)
    requires PrintableStatement(st, names) && st.query.source.Stage?
    ensures |names| == |st.query.keys| + |st.query.aggregates| && PrintableFrom(st.query.source.inner.source) && st.query.source.inner.source.From?
  {
  }

  lemma FlatSent(st: Statement, names: seq<string>)
    requires PrintableStatement(st, names) && st.query.source.From?
    ensures PrintableFrom(st.query.source) && PrintableStage(st.query, names, None)
    ensures SentText(st, names) == FlatText(st.query, names, GroupAndEndText(|st.query.keys|, st.orderBy, st.limit))
    ensures AsSent(st) == Statement(st.query.(source := CollapseFrom(st.query.source)), st.orderBy, st.limit)
  {
    hide FlatText, GroupAndEndText, PrintableFrom, PrintableStage;
  }

  /** Every printable statement, as sent, is read as itself, but for the indented names behind the wrapper. */
  lemma StatementReads(st: Statement, names: seq<string>)
    requires PrintableStatement(st, names)
    ensures ReadStatement(SentText(st, names)) == Some(Sent(AsSent(st), names))
  {
    hide SentText, FlatText, Lex, ParseStatement;
    if st.query.source.Stage? {
      StagePrintable(st, names);
      LexWrapped(st, names);
      ParsesWrapped(st, names);
    } else {
      FlatSent(st, names);
      FlatReads(st.query, names, st.orderBy, st.limit);
    }
  }
}
