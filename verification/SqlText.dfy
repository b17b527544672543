/**
 The text of rendered predicates and FROM clauses, the indentation the anchored plan applies to it,
 and a reader for it: lexical structure, then PostgreSQL's precedence.
 */
module SqlText {
  import opened Prelude
  import opened Semantic
  import opened Relational

  // ----- decimal numbers -----

  function NatText(n: nat): (s: string)
    ensures s != "" && forall i :: 0 <= i < |s| ==> IsDigit(s[i])
  {
    if n < 10 then [Digit(n)] else NatText(n / 10) + [Digit(n % 10)]
  }

  function TextNat(s: string): nat
    requires forall i :: 0 <= i < |s| ==> IsDigit(s[i])
  {
    if s == "" then 0 else 10 * TextNat(s[..|s| - 1]) + DigitValue(s[|s| - 1])
  }

  // ----- printing -----

  function Escape(s: string): string {
    if s == "" then "" else (if s[0] == '"' then "\"\"" else [s[0]]) + Escape(s[1..])
  }

  /** `quote_identifier`. */
  function QuoteIdentifier(s: string): string {
    "\"" + Escape(s) + "\""
  }

  function TypeName(t: DataType): string {
    match t
    case BooleanType => "boolean"
    case IntegerType => "bigint"
    case NumericType => "numeric"
    case TextType => "text"
    case DateType => "date"
    case TimestampType => "timestamp"
    case TimestampTzType => "timestamptz"
  }

  function PlaceholderText(position: nat): string {
    "$" + NatText(position)
  }

  function CastText(name: string): string {
    "::" + name
  }

  /** `render_parameter`. */
  function ParameterText(position: nat, t: DataType): string {
    if t == TextType then PlaceholderText(position) + CastText("text")
    else PlaceholderText(position) + CastText("text") + CastText(TypeName(t))
  }

  /** The start of a day in a timezone. */
  function DayStartText(zone: nat, day: nat): string {
    "timezone" + "(" + ParameterText(zone, TextType) + "," + " " + ParameterText(day, DateType) + CastText("timestamp") + ")"
  }

  function OperatorText(op: ComparisonOperator): string {
    match op
    case Eq => "="
    case NotEq => "<>"
    case Gt => ">"
    case Gte => ">="
    case Lt => "<"
    case Lte => "<="
  }

  function ColumnText(alias: nat, column: string): string {
    "t" + NatText(alias) + "." + QuoteIdentifier(column)
  }

  /** The expressions a filter is rendered to. */
  predicate Comparand(e: Expr) {
    e.Param? || e.DayStart?
  }

  function ComparandText(e: Expr): string
    requires Comparand(e)
  {
    match e
    case Param(position, t) => ParameterText(position, t)
    case DayStart(zone, day) => DayStartText(zone, day)
  }

  function OptionsText(options: seq<Expr>): string
    requires forall i :: 0 <= i < |options| ==> options[i].Param?
  {
    if options == [] then ""
    else if |options| == 1 then ParameterText(options[0].position, options[0].cast)
    else ParameterText(options[0].position, options[0].cast) + "," + " " + OptionsText(options[1..])
  }

  /** Predicates as filters are rendered: logical nodes and IN lists are not empty. */
  predicate Printable(p: Pred)
    decreases p
  {
    match p
    case PAnd(args) => args != [] && forall i :: 0 <= i < |args| ==> Printable(args[i])
    case POr(args) => args != [] && forall i :: 0 <= i < |args| ==> Printable(args[i])
    case PNot(arg) => Printable(arg)
    case PCompare(_, left, right) => left.Column? && Comparand(right)
    case PIn(item, options) => item.Column? && options != [] && forall i :: 0 <= i < |options| ==> options[i].Param?
    case PIsNull(item) => item.Column?
    case PIsNotNull(item) => item.Column?
  }

  predicate AllPrintable(args: seq<Pred>)
    decreases args
  {
    forall i :: 0 <= i < |args| ==> Printable(args[i])
  }

  function ItemText(e: Expr): string
    requires e.Column?
  {
    ColumnText(e.alias, e.column)
  }

  /** `render_filter`, down to characters. */
  function PredText(p: Pred): string
    requires Printable(p)
    decreases p
  {
    match p
    case PAnd(args) => "(" + ArgumentsText(args, "AND") + ")"
    case POr(args) => "(" + ArgumentsText(args, "OR") + ")"
    case PNot(arg) => "NOT" + " " + "(" + PredText(arg) + ")"
    case PCompare(op, left, right) => ItemText(left) + " " + OperatorText(op) + " " + ComparandText(right)
    case PIn(item, options) => ItemText(item) + " " + "IN" + " " + "(" + OptionsText(options) + ")"
    case PIsNull(item) => ItemText(item) + " " + "IS" + " " + "NULL"
    case PIsNotNull(item) => ItemText(item) + " " + "IS" + " " + "NOT" + " " + "NULL"
  }

  /** `render_logical`, without its parentheses. */
  function ArgumentsText(args: seq<Pred>, operator: string): string
    requires AllPrintable(args)
    decreases args
  {
    if args == [] then ""
    else if |args| == 1 then PredText(args[0])
    else PredText(args[0]) + " " + operator + " " + ArgumentsText(args[1..], operator)
  }

  // ----- the FROM clause -----

  function TableText(r: Relation): string {
    QuoteIdentifier(r.schema) + "." + QuoteIdentifier(r.relation)
  }

  function AliasText(alias: nat): string {
    "t" + NatText(alias)
  }

  function JoinWord(kind: JoinType): string {
    match kind case Inner => "INNER" case Left => "LEFT"
  }

  function JoinText(join: Join, alias: nat): string {
    JoinWord(join.kind) + " " + "JOIN" + " " + TableText(join.target) + " " + "AS" + " " + AliasText(alias) + " " + "ON" + " "
    + ColumnText(0, join.fromColumn) + " " + "=" + " " + ColumnText(alias, join.toColumn)
  }

  /** One line per join; the i-th join has alias t{i+1}. */
  function JoinsText(joins: seq<Join>, alias: nat): string {
    if joins == [] then "" else "\n" + JoinText(joins[0], alias) + JoinsText(joins[1..], alias + 1)
  }

  predicate PrintableFrom(src: Source) {
    src.From? && (src.condition.Some? ==> Printable(src.condition.value))
  }

  /** `render_from_joins_and_filter`. */
  function FromText(src: Source): string
    requires PrintableFrom(src)
  {
    "FROM" + " " + TableText(src.base) + " " + "AS" + " " + AliasText(0) + JoinsText(src.joins, 1)
    + (if src.condition.Some? then "\n" + "WHERE" + " " + PredText(src.condition.value) else "")
  }

  /** What the anchored plan does to its FROM clause: `replace('\n', "\n  ")`, wherever the newline is. */
  function Indent(s: string): string {
    if s == "" then "" else (if s[0] == '\n' then "\n  " else [s[0]]) + Indent(s[1..])
  }

  /** The characters of the FROM clause as the statement carries them. */
  function SentFrom(src: Source, anchored: bool): string
    requires PrintableFrom(src)
  {
    if anchored then Indent(FromText(src)) else FromText(src)
  }

  // ----- lexing -----

  /** The white space of SQL. */
  predicate IsSpace(c: char) {
    c == ' ' || c == '\n' || c == '\t' || c == '\r' || c as int == 11 || c as int == 12
  }

  datatype Token =
    | LeftParen | RightParen | Comma | Dot | CastMark
    | Operator(op: ComparisonOperator)
    | Word(text: string)
    | Quoted(identifier: string)
    | Placeholder(position: nat)
    | Number(value: nat)
    | Text(content: string)

  predicate IsWordChar(c: char) {
    'a' <= c <= 'z' || 'A' <= c <= 'Z' || IsDigit(c) || c == '_'
  }

  /** How far the text stays within a class of characters. */
  function Span(s: string, class_: char -> bool): (n: nat)
    ensures n <= |s| && (forall i :: 0 <= i < n ==> class_(s[i])) && (n < |s| ==> !class_(s[n]))
  {
    if s == "" || !class_(s[0]) then 0 else 1 + Span(s[1..], class_)
  }

  /** The content of a quoted identifier after its opening quote, and how many characters it took. */
  function ReadQuoted(s: string): (r: Option<(string, nat)>)
    ensures r.Some? ==> 0 < r.value.1 <= |s|
  {
    if s == "" then None
    else if s[0] != '"' then
      (match ReadQuoted(s[1..]) case None => None case Some(r) => Some(([s[0]] + r.0, 1 + r.1)))
    else if |s| > 1 && s[1] == '"' then
      (match ReadQuoted(s[2..]) case None => None case Some(r) => Some((['"'] + r.0, 2 + r.1)))
    else Some(("", 1))
  }

  function Prepend(ts: seq<Token>, r: Option<seq<Token>>): Option<seq<Token>> {
    match r case None => None case Some(rest) => Some(ts + rest)
  }

  function ReadOperator(s: string): Option<(ComparisonOperator, nat)> {
    if s == "" then None
    else if s[0] == '=' then Some((Eq, 1))
    else if s[0] == '<' then
      if |s| > 1 && s[1] == '>' then Some((NotEq, 2)) else if |s| > 1 && s[1] == '=' then Some((Lte, 2)) else Some((Lt, 1))
    else if s[0] == '>' then
      if |s| > 1 && s[1] == '=' then Some((Gte, 2)) else Some((Gt, 1))
    else None
  }

  /** The length of a text literal after its opening quote; literals of word characters are all that is ever sent. */
  function ReadText(s: string): (r: Option<nat>)
    ensures r.Some? ==> r.value < |s|
  {
    var n := Span(s, IsWordChar);
    if n < |s| && s[n] == '\'' && (n + 1 == |s| || s[n + 1] != '\'') then Some(n) else None
  }

  /** Splits text into tokens, each as long as it can be. */
  function Lex(s: string): Option<seq<Token>>
    decreases |s|
  {
    if s == "" then Some([])
    else if IsSpace(s[0]) then Lex(s[1..])
    else if s[0] == '(' then Prepend([LeftParen], Lex(s[1..]))
    else if s[0] == ')' then Prepend([RightParen], Lex(s[1..]))
    else if s[0] == ',' then Prepend([Comma], Lex(s[1..]))
    else if s[0] == '.' then Prepend([Dot], Lex(s[1..]))
    else if s[0] == ':' then if |s| > 1 && s[1] == ':' then Prepend([CastMark], Lex(s[2..])) else None
    else if s[0] == '$' then
      var n := Span(s[1..], IsDigit);
      if n == 0 then None else Prepend([Placeholder(TextNat(s[1..][..n]))], Lex(s[1 + n..]))
    else if s[0] == '"' then
      (match ReadQuoted(s[1..]) case None => None case Some(r) => Prepend([Quoted(r.0)], Lex(s[1 + r.1..])))
    else if ReadOperator(s).Some? then
      var r := ReadOperator(s).value;
      Prepend([Operator(r.0)], Lex(s[r.1..]))
    else if IsWordChar(s[0]) && !IsDigit(s[0]) then
      var n := Span(s, IsWordChar);
      Prepend([Word(s[..n])], Lex(s[n..]))
    else if IsDigit(s[0]) then
      var n := Span(s, IsDigit);
      Prepend([Number(TextNat(s[..n]))], Lex(s[n..]))
    else if s[0] == '\'' then
      (match ReadText(s[1..]) case None => None case Some(n) => Prepend([Text(s[1..][..n])], Lex(s[2 + n..])))
    else None
  }

  // ----- parsing -----

  /** The type names of a chain of casts. */
  function Casts(ts: seq<Token>): (r: (seq<string>, seq<Token>))
    ensures |r.1| <= |ts|
  {
    if |ts| >= 2 && ts[0] == CastMark && ts[1].Word? then
      var rest := Casts(ts[2..]);
      ([ts[1].text] + rest.0, rest.1)
    else ([], ts)
  }

  function TypeNamed(name: string): Option<DataType> {
    if name == "boolean" then Some(BooleanType)
    else if name == "bigint" then Some(IntegerType)
    else if name == "numeric" then Some(NumericType)
    else if name == "text" then Some(TextType)
    else if name == "date" then Some(DateType)
    else if name == "timestamp" then Some(TimestampType)
    else if name == "timestamptz" then Some(TimestampTzType)
    else None
  }

  type Parsed<T> = Option<(T, seq<Token>)>

  function ParseParameter(ts: seq<Token>): (r: Parsed<Expr>)
    ensures r.Some? ==> |r.value.1| < |ts|
  {
    if ts == [] || !ts[0].Placeholder? then None
    else
      var (names, rest) := Casts(ts[1..]);
      if names == ["text"] then Some((Param(ts[0].position, TextType), rest))
      else if |names| == 2 && names[0] == "text" && TypeNamed(names[1]).Some? then Some((Param(ts[0].position, TypeNamed(names[1]).value), rest))
      else None
  }

  function ParseDayStart(ts: seq<Token>): (r: Parsed<Expr>)
    ensures r.Some? ==> |r.value.1| < |ts|
  {
    if |ts| < 3 || ts[0] != Word("timezone") || ts[1] != LeftParen || !ts[2].Placeholder? then None
    else
      var (zone, rest) := Casts(ts[3..]);
      if zone != ["text"] || |rest| < 2 || rest[0] != Comma || !rest[1].Placeholder? then None
      else
        var (day, end) := Casts(rest[2..]);
        if day != ["text", "date", "timestamp"] || end == [] || end[0] != RightParen then None
        else Some((DayStart(ts[2].position, rest[1].position), end[1..]))
  }

  predicate IsAlias(word: string) {
    |word| > 1 && word[0] == 't' && forall i :: 1 <= i < |word| ==> IsDigit(word[i])
  }

  function ParseItem(ts: seq<Token>): (r: Parsed<Expr>)
    ensures r.Some? ==> |r.value.1| < |ts|
  {
    if |ts| >= 3 && ts[0].Word? && IsAlias(ts[0].text) && ts[1] == Dot && ts[2].Quoted?
    then Some((Column(TextNat(ts[0].text[1..]), ts[2].identifier), ts[3..]))
    else None
  }

  function ParseComparand(ts: seq<Token>): (r: Parsed<Expr>)
    ensures r.Some? ==> |r.value.1| < |ts|
  {
    if ts != [] && ts[0].Word? then ParseDayStart(ts) else ParseParameter(ts)
  }

  function ParseOptions(ts: seq<Token>): (r: Parsed<seq<Expr>>)
    ensures r.Some? ==> |r.value.1| < |ts|
    decreases |ts|
  {
    match ParseParameter(ts)
    case None => None
    case Some((e, rest)) =>
      if rest == [] || rest[0] != Comma then Some(([e], rest))
      else match ParseOptions(rest[1..])
        case None => None
        case Some((more, end)) => Some(([e] + more, end))
  }

  /** What may follow an item: a comparison, IN, IS NULL or IS NOT NULL. */
  function ParseTest(item: Expr, ts: seq<Token>): (r: Parsed<Pred>)
    ensures r.Some? ==> |r.value.1| < |ts|
  {
    if ts == [] then None
    else if ts[0].Operator? then
      (match ParseComparand(ts[1..]) case None => None case Some((e, rest)) => Some((PCompare(ts[0].op, item, e), rest)))
    else if |ts| >= 2 && ts[0] == Word("IN") && ts[1] == LeftParen then
      (match ParseOptions(ts[2..])
       case None => None
       case Some((es, rest)) => if rest != [] && rest[0] == RightParen then Some((PIn(item, es), rest[1..])) else None)
    else if |ts| >= 2 && ts[0] == Word("IS") && ts[1] == Word("NULL") then Some((PIsNull(item), ts[2..]))
    else if |ts| >= 3 && ts[0] == Word("IS") && ts[1] == Word("NOT") && ts[2] == Word("NULL") then Some((PIsNotNull(item), ts[3..]))
    else None
  }

  /** A parenthesised condition or a test. */
  function ParsePrimary(ts: seq<Token>): (r: Parsed<Pred>)
    ensures r.Some? ==> |r.value.1| < |ts|
    decreases |ts|, 0
  {
    if ts != [] && ts[0] == LeftParen then
      (match ParseOr(ts[1..])
       case None => None
       case Some((p, rest)) => if rest != [] && rest[0] == RightParen then Some((p, rest[1..])) else None)
    else match ParseItem(ts)
      case None => None
      case Some((item, rest)) => ParseTest(item, rest)
  }

  /** NOT binds tighter than AND. */
  function ParseNot(ts: seq<Token>): (r: Parsed<Pred>)
    ensures r.Some? ==> |r.value.1| < |ts|
    decreases |ts|, 1
  {
    if ts != [] && ts[0] == Word("NOT") then
      (match ParseNot(ts[1..]) case None => None case Some((p, rest)) => Some((PNot(p), rest)))
    else ParsePrimary(ts)
  }

  function ParseAndList(ts: seq<Token>): (r: Parsed<seq<Pred>>)
    ensures r.Some? ==> |r.value.1| < |ts| && r.value.0 != []
    decreases |ts|, 2
  {
    match ParseNot(ts)
    case None => None
    case Some((p, rest)) =>
      if rest == [] || rest[0] != Word("AND") then Some(([p], rest))
      else match ParseAndList(rest[1..])
        case None => None
        case Some((more, end)) => Some(([p] + more, end))
  }

  /** AND binds tighter than OR. */
  function ParseAnd(ts: seq<Token>): (r: Parsed<Pred>)
    ensures r.Some? ==> |r.value.1| < |ts|
    decreases |ts|, 3
  {
    match ParseAndList(ts)
    case None => None
    case Some((ps, rest)) => Some((if |ps| == 1 then ps[0] else PAnd(ps), rest))
  }

  function ParseOrList(ts: seq<Token>): (r: Parsed<seq<Pred>>)
    ensures r.Some? ==> |r.value.1| < |ts| && r.value.0 != []
    decreases |ts|, 4
  {
    match ParseAnd(ts)
    case None => None
    case Some((p, rest)) =>
      if rest == [] || rest[0] != Word("OR") then Some(([p], rest))
      else match ParseOrList(rest[1..])
        case None => None
        case Some((more, end)) => Some(([p] + more, end))
  }

  function ParseOr(ts: seq<Token>): (r: Parsed<Pred>)
    ensures r.Some? ==> |r.value.1| < |ts|
    decreases |ts|, 5
  {
    match ParseOrList(ts)
    case None => None
    case Some((ps, rest)) => Some((if |ps| == 1 then ps[0] else POr(ps), rest))
  }

  /** A whole WHERE condition. */
  function Read(s: string): Option<Pred> {
    match Lex(s)
    case None => None
    case Some(ts) =>
      match ParseOr(ts)
      case None => None
      case Some((p, rest)) => if rest == [] then Some(p) else None
  }

  // ----- reading a FROM clause -----

  function ParseTable(ts: seq<Token>): (r: Parsed<Relation>)
    ensures r.Some? ==> |r.value.1| < |ts|
  {
    if |ts| >= 3 && ts[0].Quoted? && ts[1] == Dot && ts[2].Quoted?
    then Some((Relation(ts[0].identifier, ts[2].identifier), ts[3..]))
    else None
  }

  /** A table under its alias. */
  function ParseNamed(ts: seq<Token>, alias: nat): (r: Parsed<Relation>)
    ensures r.Some? ==> |r.value.1| < |ts|
  {
    match ParseTable(ts)
    case None => None
    case Some((table, rest)) =>
      if |rest| >= 2 && rest[0] == Word("AS") && rest[1].Word? && IsAlias(rest[1].text) && TextNat(rest[1].text[1..]) == alias
      then Some((table, rest[2..]))
      else None
  }

  /** ON t0."a" = t{alias}."b" */
  function ParseOn(ts: seq<Token>, alias: nat): (r: Parsed<(string, string)>)
    ensures r.Some? ==> |r.value.1| < |ts|
  {
    if ts == [] || ts[0] != Word("ON") then None
    else match ParseItem(ts[1..])
      case None => None
      case Some((left, rest)) =>
        if rest == [] || rest[0] != Operator(Eq) || left.alias != 0 then None
        else match ParseItem(rest[1..])
          case None => None
          case Some((right, end)) => if right.alias == alias then Some(((left.column, right.column), end)) else None
  }

  function ParseJoin(ts: seq<Token>, alias: nat): (r: Parsed<Join>)
    ensures r.Some? ==> |r.value.1| < |ts|
  {
    if |ts| < 2 || (ts[0] != Word("INNER") && ts[0] != Word("LEFT")) || ts[1] != Word("JOIN") then None
    else match ParseNamed(ts[2..], alias)
      case None => None
      case Some((table, rest)) =>
        match ParseOn(rest, alias)
        case None => None
        case Some((columns, end)) => Some((Join(if ts[0] == Word("INNER") then Inner else Left, table, columns.0, columns.1), end))
  }

  function ParseJoins(ts: seq<Token>, alias: nat): (r: Parsed<seq<Join>>)
    ensures r.Some? ==> |r.value.1| <= |ts|
    decreases |ts|
  {
    if ts == [] || (ts[0] != Word("INNER") && ts[0] != Word("LEFT")) then Some(([], ts))
    else match ParseJoin(ts, alias)
      case None => None
      case Some((join, rest)) =>
        match ParseJoins(rest, alias + 1)
        case None => None
        case Some((more, end)) => Some(([join] + more, end))
  }

  function ParseWhere(ts: seq<Token>): (r: Parsed<Option<Pred>>)
    ensures r.Some? ==> |r.value.1| <= |ts|
  {
    if ts == [] || ts[0] != Word("WHERE") then Some((None, ts))
    else match ParseOr(ts[1..])
      case None => None
      case Some((p, rest)) => Some((Some(p), rest))
  }

  function ParseFrom(ts: seq<Token>): (r: Parsed<Source>)
    ensures r.Some? ==> |r.value.1| < |ts| && r.value.0.From?
  {
    if ts == [] || ts[0] != Word("FROM") then None
    else match ParseNamed(ts[1..], 0)
      case None => None
      case Some((base, rest)) =>
        match ParseJoins(rest, 1)
        case None => None
        case Some((joins, more)) =>
          match ParseWhere(more)
          case None => None
          case Some((condition, end)) => Some((From(base, joins, condition), end))
  }

  /** A whole FROM clause, with its joins and its condition. */
  function ReadFrom(s: string): Option<Source> {
    match Lex(s)
    case None => None
    case Some(ts) =>
      match ParseFrom(ts)
      case None => None
      case Some((src, rest)) => if rest == [] then Some(src) else None
  }
}
