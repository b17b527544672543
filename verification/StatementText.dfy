/**
 The text of whole statements as it is sent: SELECT list, FROM clause, GROUP BY, ORDER BY and LIMIT, flat or
 behind the two-stage wrapper; and a reader that resolves positions and names as PostgreSQL does.
 */
module StatementText {
  import opened Prelude
  import opened Semantic
  import opened Relational
  import opened Compiler
  import opened SqlText

  // ----- putting text together -----

  function Spaced(a: string, b: string): string { a + (" " + b) }

  function Lined(a: string, b: string): string { a + ("\n" + b) }

  /** A line of the inner stage. */
  function Inset(a: string, b: string): string { a + ("\n  " + b) }

  function Listed(a: string, b: string): string { a + ("," + (" " + b)) }

  function Called(name: string, inner: string): string { name + ("(" + (inner + ")")) }

  // ----- expressions -----

  function GrainName(g: TimeGrain): string {
    match g
    case Day => "day"
    case Week => "week"
    case Month => "month"
    case Quarter => "quarter"
    case Year => "year"
  }

  function GrainText(g: TimeGrain): string {
    "'" + (GrainName(g) + "'")
  }

  const INNER_STAGE: string := "__postgresem_anchor_groups"

  /** What columns are written against: the tables, or the named outputs of the inner stage. */
  type Columns = Option<seq<string>>

  predicate PrintableBase(e: Expr, columns: Columns) {
    if columns.None? then e.Column? else e.Output? && e.index < |columns.value|
  }

  function BaseText(e: Expr, columns: Columns): string
    requires PrintableBase(e, columns)
  {
    if columns.None? then ColumnText(e.alias, e.column) else "a" + ("." + QuoteIdentifier(columns.value[e.index]))
  }

  predicate PrintableKey(e: Expr, columns: Columns) {
    match e
    case Trunc(_, arg) => PrintableBase(arg, columns)
    case LocalTrunc(_, _, arg) => PrintableBase(arg, columns)
    case _ => PrintableBase(e, columns)
  }

  /** `render_dimension`. */
  function KeyText(e: Expr, columns: Columns): string
    requires PrintableKey(e, columns)
  {
    match e
    case Trunc(grain, arg) => Called("date_trunc", Listed(GrainText(grain), BaseText(arg, columns))) + CastText("date")
    case LocalTrunc(grain, zone, arg) =>
      Called("date_trunc", Listed(GrainText(grain), Called("timezone", Listed(ParameterText(zone, TextType), BaseText(arg, columns)))))
      + CastText("date")
    case _ => BaseText(e, columns)
  }

  predicate PrintableEqual(left: Expr, right: Expr) {
    left.Column? && right.Param?
  }

  function EqualText(left: Expr, right: Expr): string
    requires PrintableEqual(left, right)
  {
    Spaced(ColumnText(left.alias, left.column), Spaced("=", ParameterText(right.position, right.cast)))
  }

  predicate PrintableArgument(e: Expr, columns: Columns) {
    if e.CaseEqual? then PrintableEqual(e.left, e.right) && PrintableBase(e.result, columns) else PrintableBase(e, columns)
  }

  function ArgumentText(e: Expr, columns: Columns): string
    requires PrintableArgument(e, columns)
  {
    if e.CaseEqual? then
      Spaced("CASE", Spaced("WHEN", Spaced(EqualText(e.left, e.right), Spaced("THEN", Spaced(BaseText(e.result, columns), "END")))))
    else BaseText(e, columns)
  }

  function AggregateWord(fn: Aggregation): string {
    match fn
    case Count => "count"
    case CountDistinct => "count"
    case Sum => "sum"
    case Min => "min"
    case Max => "max"
    case Avg => "avg"
  }

  predicate PrintableAggregate(agg: AggregateExpr, columns: Columns) {
    PrintableArgument(agg.arg, columns) && (agg.filter.Some? ==> PrintableEqual(agg.filter.value.0, agg.filter.value.1))
  }

  function CallText(agg: AggregateExpr, columns: Columns): string
    requires PrintableAggregate(agg, columns)
  {
    var arg := ArgumentText(agg.arg, columns);
    Called(AggregateWord(agg.fn), if agg.fn == CountDistinct then Spaced("DISTINCT", arg) else arg)
  }

  /** `render_metric`, `render_anchor_metric_input` and `render_outer_metric`. */
  function AggregateText(agg: AggregateExpr, columns: Columns): string
    requires PrintableAggregate(agg, columns)
  {
    var call := CallText(agg, columns);
    if agg.filter.None? then call
    else Spaced(call, Spaced("FILTER", "(" + (Spaced("WHERE", EqualText(agg.filter.value.0, agg.filter.value.1)) + ")")))
  }

  // ----- the SELECT list -----

  datatype SelectItem = KeyItem(expr: Expr, name: string) | AggregateItem(aggregate: AggregateExpr, name: string)

  predicate PrintableItem(item: SelectItem, columns: Columns) {
    match item
    case KeyItem(e, _) => PrintableKey(e, columns)
    case AggregateItem(agg, _) => PrintableAggregate(agg, columns)
  }

  predicate PrintableItems(items: seq<SelectItem>, columns: Columns) {
    forall i :: 0 <= i < |items| ==> PrintableItem(items[i], columns)
  }

  function SelectItemText(item: SelectItem, columns: Columns): string
    requires PrintableItem(item, columns)
  {
    Spaced(match item case KeyItem(e, _) => KeyText(e, columns) case AggregateItem(agg, _) => AggregateText(agg, columns),
           Spaced("AS", QuoteIdentifier(item.name)))
  }

  function ItemsText(items: seq<SelectItem>, columns: Columns): string
    requires items != [] && PrintableItems(items, columns)
  {
    if |items| == 1 then SelectItemText(items[0], columns)
    else Listed(SelectItemText(items[0], columns), ItemsText(items[1..], columns))
  }

  // ----- the other clauses -----

  /** `positional_group_by`, from the given position on. */
  function PositionsText(from: nat, count: nat): string
    requires count > 0
    decreases count
  {
    if count == 1 then NatText(from) else Listed(NatText(from), PositionsText(from + 1, count - 1))
  }

  function GroupText(count: nat): string
    requires count > 0
  {
    Spaced("GROUP", Spaced("BY", PositionsText(1, count)))
  }

  function DirectionWord(d: SortDirection): string {
    match d case Asc => "ASC" case Desc => "DESC"
  }

  function TermText(o: OrderBy): string {
    Spaced(QuoteIdentifier(o.outputReference), DirectionWord(o.direction))
  }

  function TermsText(orderBy: seq<OrderBy>): string
    requires orderBy != []
  {
    if |orderBy| == 1 then TermText(orderBy[0]) else Listed(TermText(orderBy[0]), TermsText(orderBy[1..]))
  }

  function OrderText(orderBy: seq<OrderBy>): string
    requires orderBy != []
  {
    Spaced("ORDER", Spaced("BY", TermsText(orderBy)))
  }

  function LimitText(position: nat): string {
    Spaced("LIMIT", ParameterText(position, IntegerType))
  }

  /** `append_order_and_limit`, after its first newline. */
  function EndText(orderBy: seq<OrderBy>, limit: nat): string {
    if orderBy == [] then LimitText(limit) else Lined(OrderText(orderBy), LimitText(limit))
  }

  function GroupAndEndText(count: nat, orderBy: seq<OrderBy>, limit: nat): string {
    if count == 0 then EndText(orderBy, limit) else Lined(GroupText(count), EndText(orderBy, limit))
  }

  // ----- statements -----

  /** The SELECT list of a stage: its keys, then its aggregates, under these names. */
  function ItemsOf(q: Select, names: seq<string>): (items: seq<SelectItem>)
    requires |names| == |q.keys| + |q.aggregates|
    ensures |items| == |names|
    ensures forall i :: 0 <= i < |q.keys| ==> items[i] == KeyItem(q.keys[i], names[i])
    ensures forall i :: |q.keys| <= i < |names| ==> items[i] == AggregateItem(q.aggregates[i - |q.keys|], names[i])
  {
    seq(|q.keys|, i requires 0 <= i < |q.keys| => KeyItem(q.keys[i], names[i]))
    + seq(|q.aggregates|, i requires 0 <= i < |q.aggregates| => AggregateItem(q.aggregates[i], names[|q.keys| + i]))
  }

  /** The names of the inner stage's columns: dimensions, the anchor, then metric inputs. */
  function InnerName(dimensions: nat, i: nat): string {
    if i < dimensions then "__d" + NatText(i) else if i == dimensions then "__anchor" else "__m" + NatText(i - dimensions - 1)
  }

  function InnerNames(dimensions: nat, metrics: nat): (names: seq<string>)
    ensures |names| == dimensions + 1 + metrics && forall i :: 0 <= i < |names| ==> names[i] == InnerName(dimensions, i)
  {
    seq(dimensions + 1 + metrics, i requires 0 <= i < dimensions + 1 + metrics => InnerName(dimensions, i))
  }

  predicate PrintableStage(q: Select, names: seq<string>, columns: Columns) {
    |names| == |q.keys| + |q.aggregates| && names != [] && PrintableItems(ItemsOf(q, names), columns)
  }

  /** The inner stage groups by its dimensions and its anchor. */
  function InnerNamesOf(inner: Select): seq<string>
    requires inner.keys != []
  {
    InnerNames(|inner.keys| - 1, |inner.aggregates|)
  }

  predicate PrintableStatement(st: Statement, names: seq<string>) {
    match st.query.source
    case From(_, _, _) => PrintableFrom(st.query.source) && PrintableStage(st.query, names, None)
    case Stage(inner) =>
      && inner.keys != [] && PrintableFrom(inner.source) && PrintableStage(inner, InnerNamesOf(inner), None)
      && PrintableStage(st.query, names, Some(InnerNamesOf(inner)))
  }

  function FlatText(q: Select, names: seq<string>, end: string): string
    requires PrintableFrom(q.source) && PrintableStage(q, names, None)
  {
    Spaced("SELECT", Lined(ItemsText(ItemsOf(q, names), None), Lined(FromText(q.source), end)))
  }

  /** The inner stage, its FROM clause indented. */
  function InnerText(inner: Select): string
    requires inner.keys != [] && PrintableFrom(inner.source) && PrintableStage(inner, InnerNamesOf(inner), None)
  {
    Spaced("SELECT", Inset(ItemsText(ItemsOf(inner, InnerNamesOf(inner)), None), Inset(Indent(FromText(inner.source)), GroupText(|inner.keys|))))
  }

  function OuterText(q: Select, names: seq<string>, columns: seq<string>, end: string): string
    requires PrintableStage(q, names, Some(columns))
  {
    Spaced("SELECT", Lined(ItemsText(ItemsOf(q, names), Some(columns)),
                           Spaced("FROM", Spaced(QuoteIdentifier(INNER_STAGE), Spaced("AS", Lined("a", end))))))
  }

  /** The statement as it is sent, under the names of its output columns. */
  function SentText(st: Statement, names: seq<string>): string
    requires PrintableStatement(st, names)
  {
    var end := GroupAndEndText(|st.query.keys|, st.orderBy, st.limit);
    match st.query.source
    case From(_, _, _) => FlatText(st.query, names, end)
    case Stage(inner) =>
      Spaced("WITH", Spaced(QuoteIdentifier(INNER_STAGE), Spaced("AS",
        "(" + ("\n  " + Lined(InnerText(inner), ")" + ("\n" + OuterText(st.query, names, InnerNamesOf(inner), end)))))))
  }

  // ----- reading expressions -----

  function ParseBase(ts: seq<Token>, columns: Columns): (r: Parsed<Expr>)
    ensures r.Some? ==> |r.value.1| < |ts|
  {
    match columns
    case None => ParseItem(ts)
    case Some(names) =>
      if |ts| >= 3 && ts[0] == Word("a") && ts[1] == Dot && ts[2].Quoted? && ts[2].identifier in names
      then Some((Output(IndexOf(names, ts[2].identifier)), ts[3..]))
      else None
  }

  /** One token that must come next. */
  function Expect<T>(r: Parsed<T>, token: Token): (s: Parsed<T>)
    ensures s.Some? ==> r.Some? && |s.value.1| < |r.value.1|
  {
    match r
    case None => None
    case Some((x, rest)) => if rest != [] && rest[0] == token then Some((x, rest[1..])) else None
  }

  function GrainNamed(name: string): Option<TimeGrain> {
    if name == "day" then Some(Day)
    else if name == "week" then Some(Week)
    else if name == "month" then Some(Month)
    else if name == "quarter" then Some(Quarter)
    else if name == "year" then Some(Year)
    else None
  }

  /** timezone(zone, column) */
  function ParseLocal(ts: seq<Token>, columns: Columns): (r: Parsed<(nat, Expr)>)
    ensures r.Some? ==> |r.value.1| < |ts|
  {
    if |ts| < 2 || ts[0] != Word("timezone") || ts[1] != LeftParen then None
    else match Expect(ParseParameter(ts[2..]), Comma)
      case None => None
      case Some((zone, rest)) =>
        if zone.cast != TextType then None
        else match Expect(ParseBase(rest, columns), RightParen)
          case None => None
          case Some((e, end)) => Some(((zone.position, e), end))
  }

  /** date_trunc('grain', e)::date */
  function ParseTrunc(ts: seq<Token>, columns: Columns): (r: Parsed<Expr>)
    ensures r.Some? ==> |r.value.1| < |ts|
  {
    if |ts| < 4 || ts[1] != LeftParen || !ts[2].Text? || ts[3] != Comma || GrainNamed(ts[2].content).None? then None
    else
      var grain, rest := GrainNamed(ts[2].content).value, ts[4..];
      var e := if rest != [] && rest[0] == Word("timezone") then
          (match ParseLocal(rest, columns) case None => None case Some((x, end)) => Some((LocalTrunc(grain, x.0, x.1), end)))
        else
          (match ParseBase(rest, columns) case None => None case Some((x, end)) => Some((Trunc(grain, x), end)));
      Expect(Expect(Expect(e, RightParen), CastMark), Word("date"))
  }

  function ParseKey(ts: seq<Token>, columns: Columns): (r: Parsed<Expr>)
    ensures r.Some? ==> |r.value.1| < |ts|
  {
    if ts != [] && ts[0] == Word("date_trunc") then ParseTrunc(ts, columns) else ParseBase(ts, columns)
  }

  /** column = parameter */
  function ParseEqual(ts: seq<Token>): (r: Parsed<(Expr, Expr)>)
    ensures r.Some? ==> |r.value.1| < |ts|
  {
    match Expect(ParseItem(ts), Operator(Eq))
    case None => None
    case Some((left, rest)) =>
      match ParseParameter(rest)
      case None => None
      case Some((right, end)) => Some(((left, right), end))
  }

  function ParseCase(ts: seq<Token>, columns: Columns): (r: Parsed<Expr>)
    ensures r.Some? ==> |r.value.1| < |ts|
  {
    if |ts| < 2 || ts[1] != Word("WHEN") then None
    else match Expect(ParseEqual(ts[2..]), Word("THEN"))
      case None => None
      case Some((equal, rest)) =>
        match Expect(ParseBase(rest, columns), Word("END"))
        case None => None
        case Some((e, end)) => Some((CaseEqual(equal.0, equal.1, e), end))
  }

  function ParseArgument(ts: seq<Token>, columns: Columns): (r: Parsed<Expr>)
    ensures r.Some? ==> |r.value.1| < |ts|
  {
    if ts != [] && ts[0] == Word("CASE") then ParseCase(ts, columns) else ParseBase(ts, columns)
  }

  function AggregateNamed(word: string): Option<Aggregation> {
    if word == "count" then Some(Count)
    else if word == "sum" then Some(Sum)
    else if word == "min" then Some(Min)
    else if word == "max" then Some(Max)
    else if word == "avg" then Some(Avg)
    else None
  }

  /** fn(e), or fn(DISTINCT e) */
  function ParseCall(ts: seq<Token>, columns: Columns): (r: Parsed<AggregateExpr>)
    ensures r.Some? ==> |r.value.1| < |ts|
  {
    if |ts| < 2 || !ts[0].Word? || AggregateNamed(ts[0].text).None? || ts[1] != LeftParen then None
    else
      var fn, rest := AggregateNamed(ts[0].text).value, ts[2..];
      if rest != [] && rest[0] == Word("DISTINCT") then
        if fn != Count then None
        else
          (match Expect(ParseArgument(rest[1..], columns), RightParen)
           case None => None
           case Some((e, end)) => Some((AggregateExpr(CountDistinct, e, None), end)))
      else
        (match Expect(ParseArgument(rest, columns), RightParen)
         case None => None
         case Some((e, end)) => Some((AggregateExpr(fn, e, None), end)))
  }

  /** FILTER (WHERE column = parameter), if it is there */
  function ParseFiltered(agg: AggregateExpr, ts: seq<Token>): (r: Parsed<AggregateExpr>)
    ensures r.Some? ==> |r.value.1| <= |ts|
  {
    if ts == [] || ts[0] != Word("FILTER") then Some((agg, ts))
    else if |ts| < 3 || ts[1] != LeftParen || ts[2] != Word("WHERE") then None
    else match Expect(ParseEqual(ts[3..]), RightParen)
      case None => None
      case Some((equal, end)) => Some((agg.(filter := Some(equal)), end))
  }

  function ParseAggregate(ts: seq<Token>, columns: Columns): (r: Parsed<AggregateExpr>)
    ensures r.Some? ==> |r.value.1| < |ts|
  {
    match ParseCall(ts, columns)
    case None => None
    case Some((agg, rest)) => ParseFiltered(agg, rest)
  }

  /** AS "name" */
  function ParseName(ts: seq<Token>): (r: Parsed<string>)
    ensures r.Some? ==> |r.value.1| < |ts|
  {
    if |ts| >= 2 && ts[0] == Word("AS") && ts[1].Quoted? then Some((ts[1].identifier, ts[2..])) else None
  }

  predicate BeginsAggregate(ts: seq<Token>) {
    ts != [] && ts[0].Word? && AggregateNamed(ts[0].text).Some?
  }

  function ParseOne(ts: seq<Token>, columns: Columns): (r: Parsed<SelectItem>)
    ensures r.Some? ==> |r.value.1| < |ts|
  {
    if BeginsAggregate(ts) then
      (match ParseAggregate(ts, columns)
       case None => None
       case Some((agg, rest)) =>
         match ParseName(rest) case None => None case Some((name, end)) => Some((AggregateItem(agg, name), end)))
    else
      (match ParseKey(ts, columns)
       case None => None
       case Some((e, rest)) =>
         match ParseName(rest) case None => None case Some((name, end)) => Some((KeyItem(e, name), end)))
  }

  function ParseItems(ts: seq<Token>, columns: Columns): (r: Parsed<seq<SelectItem>>)
    ensures r.Some? ==> |r.value.1| < |ts|
    decreases |ts|
  {
    match ParseOne(ts, columns)
    case None => None
    case Some((item, rest)) =>
      if rest == [] || rest[0] != Comma then Some(([item], rest))
      else match ParseItems(rest[1..], columns)
        case None => None
        case Some((more, end)) => Some(([item] + more, end))
  }

  // ----- reading the other clauses -----

  function ParsePositions(ts: seq<Token>): (r: Parsed<seq<nat>>)
    ensures r.Some? ==> |r.value.1| < |ts|
    decreases |ts|
  {
    if ts == [] || !ts[0].Number? then None
    else if |ts| == 1 || ts[1] != Comma then Some(([ts[0].value], ts[1..]))
    else match ParsePositions(ts[2..])
      case None => None
      case Some((more, end)) => Some(([ts[0].value] + more, end))
  }

  function ParseGroups(ts: seq<Token>): (r: Parsed<seq<nat>>)
    ensures r.Some? ==> |r.value.1| <= |ts|
  {
    if ts == [] || ts[0] != Word("GROUP") then Some(([], ts))
    else if |ts| < 2 || ts[1] != Word("BY") then None
    else ParsePositions(ts[2..])
  }

  function DirectionNamed(word: string): Option<SortDirection> {
    if word == "ASC" then Some(Asc) else if word == "DESC" then Some(Desc) else None
  }

  function ParseTerms(ts: seq<Token>): (r: Parsed<seq<OrderBy>>)
    ensures r.Some? ==> |r.value.1| < |ts|
    decreases |ts|
  {
    if |ts| < 2 || !ts[0].Quoted? || !ts[1].Word? || DirectionNamed(ts[1].text).None? then None
    else
      var term := OrderBy(ts[0].identifier, DirectionNamed(ts[1].text).value);
      if |ts| == 2 || ts[2] != Comma then Some(([term], ts[2..]))
      else match ParseTerms(ts[3..])
        case None => None
        case Some((more, end)) => Some(([term] + more, end))
  }

  function ParseOrder(ts: seq<Token>): (r: Parsed<seq<OrderBy>>)
    ensures r.Some? ==> |r.value.1| <= |ts|
  {
    if ts == [] || ts[0] != Word("ORDER") then Some(([], ts))
    else if |ts| < 2 || ts[1] != Word("BY") then None
    else ParseTerms(ts[2..])
  }

  function ParseLimit(ts: seq<Token>): Parsed<nat> {
    if ts == [] || ts[0] != Word("LIMIT") then None
    else match ParseParameter(ts[1..])
      case None => None
      case Some((e, rest)) => if e.cast == IntegerType then Some((e.position, rest)) else None
  }

  // ----- reading statements -----

  function LeadingKeys(items: seq<SelectItem>): (r: seq<Expr>)
    ensures |r| <= |items|
  {
    if items == [] || !items[0].KeyItem? then [] else [items[0].expr] + LeadingKeys(items[1..])
  }

  function Aggregates(items: seq<SelectItem>): Option<seq<AggregateExpr>> {
    if items == [] then Some([])
    else if !items[0].AggregateItem? then None
    else match Aggregates(items[1..])
      case None => None
      case Some(more) => Some([items[0].aggregate] + more)
  }

  function Counted(from: nat, count: nat): seq<nat>
    decreases count
  {
    if count == 0 then [] else [from] + Counted(from + 1, count - 1)
  }

  function ItemNames(items: seq<SelectItem>): (names: seq<string>)
    ensures |names| == |items| && forall i :: 0 <= i < |items| ==> names[i] == items[i].name
  {
    seq(|items|, i requires 0 <= i < |items| => items[i].name)
  }

  /** Keys must be the leading items, and exactly those that are grouped by. */
  function SelectOf(items: seq<SelectItem>, groups: seq<nat>, source: Source): Option<Select> {
    var keys := LeadingKeys(items);
    match Aggregates(items[|keys|..])
    case None => None
    case Some(aggregates) => if groups == Counted(1, |keys|) then Some(Select(source, keys, aggregates)) else None
  }

  datatype Head = Head(items: seq<SelectItem>, source: Source)

  /** SELECT items FROM tables */
  function ParseTables(ts: seq<Token>): (r: Parsed<Head>)
    ensures r.Some? ==> |r.value.1| < |ts|
  {
    if ts == [] || ts[0] != Word("SELECT") then None
    else match ParseItems(ts[1..], None)
      case None => None
      case Some((items, rest)) =>
        match ParseFrom(rest)
        case None => None
        case Some((src, end)) => Some((Head(items, src), end))
  }

  /** SELECT items FROM inner AS a */
  function ParseDerived(ts: seq<Token>, inner: Select, names: seq<string>): (r: Parsed<Head>)
    ensures r.Some? ==> |r.value.1| < |ts|
  {
    if ts == [] || ts[0] != Word("SELECT") then None
    else match ParseItems(ts[1..], Some(names))
      case None => None
      case Some((items, rest)) =>
        if |rest| >= 4 && rest[0] == Word("FROM") && rest[1] == Quoted(INNER_STAGE) && rest[2] == Word("AS") && rest[3] == Word("a")
        then Some((Head(items, Stage(inner)), rest[4..]))
        else None
  }

  /** The statement and the names of its output columns. */
  datatype Sent = Sent(statement: Statement, names: seq<string>)

  function ParseEnd(head: Head, ts: seq<Token>): Option<Sent> {
    match ParseGroups(ts)
    case None => None
    case Some((groups, rest)) =>
      match ParseOrder(rest)
      case None => None
      case Some((orderBy, more)) =>
        match ParseLimit(more)
        case None => None
        case Some((limit, end)) =>
          match SelectOf(head.items, groups, head.source)
          case None => None
          case Some(q) => if end == [] then Some(Sent(Statement(q, orderBy, limit), ItemNames(head.items))) else None
  }

  /** ( SELECT ... GROUP BY ... ), under the names of its items */
  function ParseInner(ts: seq<Token>): (r: Parsed<(Select, seq<string>)>)
    ensures r.Some? ==> |r.value.1| < |ts|
  {
    if ts == [] || ts[0] != LeftParen then None
    else match ParseTables(ts[1..])
      case None => None
      case Some((head, rest)) =>
        match Expect(ParseGroups(rest), RightParen)
        case None => None
        case Some((groups, end)) =>
          match SelectOf(head.items, groups, head.source)
          case None => None
          case Some(q) => Some(((q, ItemNames(head.items)), end))
  }

  function ParseStatement(ts: seq<Token>): Option<Sent> {
    if |ts| >= 3 && ts[0] == Word("WITH") && ts[1] == Quoted(INNER_STAGE) && ts[2] == Word("AS") then
      (match ParseInner(ts[3..])
       case None => None
       case Some((inner, rest)) =>
         match ParseDerived(rest, inner.0, inner.1)
         case None => None
         case Some((head, end)) => ParseEnd(head, end))
    else
      match ParseTables(ts)
      case None => None
      case Some((head, end)) => ParseEnd(head, end)
  }

  /** What a statement's text says. */
  function ReadStatement(s: string): Option<Sent> {
    match Lex(s) case None => None case Some(ts) => ParseStatement(ts)
  }
}
