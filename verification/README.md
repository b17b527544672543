# postgresem, modelled and proved in Dafny

postgresem is a semantic gateway in front of PostgreSQL. A client sends a typed query (LSQ) or
mutation (LSM) about published models; the gateway compiles it to one parameterized statement
and executes it under guards. This project models the parts of the gateway whose correctness is
hard to see from any single function, and proves what they are for:

- **The query compiler.** A compiled query is a small relational tree with a meaning of its own
  (three-valued predicates, joins, grouping, the six aggregates). Both plans, the flat `GROUP BY`
  and the anchored two-stage one, are proved equal to one reference: the query's groups, each
  metric over each base row that reaches the group, counted once; the rows returned under ORDER BY and LIMIT are exactly
  those the query asks for. The whole text sent, from WITH or SELECT to LIMIT, is proved to read back through a lexer and a
  parser with SQL's precedence, exactly when names survive the indentation of the anchored plan; so the theorem holds from
  the request, through its validation, to the rows that may come back for the characters sent. Which queries compile, the error
  of the first check that fails, the output schema and the lineage are told by the query and the snapshot alone.
- **Snapshots, diff and compatibility.** The normal form is canonical, the semantic diff holds exactly one change for each place
  where the snapshots differ, with kind and verdict told by their attributes, and a
  compatible successor compiles every old query to the same statement, parameters, schema and
  lineage, exactly as far as a stated condition on the new snapshot holds.
- **The catalog diff.** Although shared keys are visited twice, the result holds one change per differing place and none elsewhere; kinds,
  verdicts, counts and refusals are told by the captures.
- **Mutations.** A mutation compiles exactly under stated conditions. The update and conflict sets split the input fields, every cell
  has its own position, an insert appends one row per input row, and an upsert changes updatable columns of matching rows and nothing else. The idempotent execution protocol
  applies a key's change at most once over every history of retries, rollbacks and lost acknowledgements.
- **OSI import and export.** What an import holds is told by the document and the catalog, as are the refusals; export undoes import
  for every importable document, and exactly the snapshots some document imports to can be exported.
- **Server protocols.** Rate limiting, permit conservation, cancellation and line framing, over every history,
  interleaving or chunking.

Values are `NULL` or a real: numbers stand for themselves, any other type for its rank in its own
order. `date_trunc`, time zones and casts are functions nothing is known about. SHA-256 is a function parameter. Where the source mutates state
(parameter lists, buckets, cancellation state, buffered input, change lists, models under import) the model has
classes or methods with loops, each proved against a function on values; lemmas speak about those functions.

`dafny verify dfyconfig.toml` checks everything.

## Layout

| files | content |
|---|---|
| `Prelude`, `Bags`, `Order` | options, results, lookup, bag sums, the sort every ordered collection relies on |
| `Semantic`, `Snapshots`, `Relational`, `Meaning` | snapshots and queries, their normal form, PostgreSQL's part of the meaning, the reference meaning of a query |
| `Compiler`, `Renderer`, `RenderingProofs`, `JoinProofs`, `PlanProofs`, `QueryTheorem`, `AnswerTheorem` | the query compiler and the theorem that its statements answer the query |
| `Acceptance`, `OutputExact` | which queries compile, why the others do not, and the schema and lineage that come with a statement |
| `ResultOrder` | which groups a statement returns under ORDER BY and LIMIT, and in which order |
| `SqlText`, `SqlTextProofs`, `FromTextProofs`, `FilterText` | the text of filters and FROM clauses, its reader, indentation, and what the text means |
| `LsqValidation` | the checks a query passes before it is compiled |
| `StatementText`, `StatementTextProofs`, `Gateway` | whole statements as sent, their reader, and the way from request to rows |
| `Diff`, `DiffProofs`, `DiffExact`, `DiffPaths`, `CompatibilityProofs` | the semantic diff, what its changes hold and its paths name, and what compatibility guarantees |
| `Catalog`, `CatalogProofs`, `CatalogExact` | the catalog, its normal form and its diff, in the captures' own attributes |
| `Mutation`, `MutationExact`, `UpsertProofs`, `Idempotency` | the mutation compiler, what it accepts, inserts and returns, the upsert frame, the execution protocol |
| `Osi`, `OsiImporter`, `OsiProofs`, `OsiRoundTrip` | OSI import, export and round trip |
| `OsiGrammar`, `OsiExact`, `OsiModels` | the texts of OSI documents as a grammar, and what an import holds |
| `RateLimiter`, `Admission`, `Cancellation`, `LineReader` | the server protocols |
| `Counterexamples` | accepted inputs on which a promise fails |

Main results: `AnswerTheorem.CompiledQueryAnswers`, `ResultOrder.CompiledQueryReturns`, `Gateway.SentStatementAnswers`, `Acceptance.CompilesExactly`, `OutputExact.CompiledOutputs`, `FilterText.FilterTextMeans`, `FilterText.SentFromAnswers`,
`FromTextProofs.LexIndented`, `DiffPaths.SemanticPathsExactly`, `CompatibilityProofs.CompatibilitySound`,
`CompatibilityProofs.CompatibleSuccessor`, `DiffExact.SemanticDiffExact`, `CatalogProofs.CatalogDiffExact`, `CatalogExact.CatalogDiffSpelled`, `CatalogProofs.EmptyDiffExact`,
`MutationExact.MutationCompilesExactly`, `MutationExact.InsertAppends`, `UpsertProofs.UpsertFrame`, `UpsertProofs.UpsertTwice`, `Idempotency.AtMostOnce`, `Idempotency.RepliesAgree`, `OsiRoundTrip.OsiRoundTrips`, `OsiModels.ImportsExactly`, `OsiModels.ImportHolds`,
`RateLimiter.RefusedExactly`, `Admission.ConnectionsBounded`, `Cancellation.NoLostCancellation`, `LineReader.ReadAll`.

## Where the source falls short of a promise

- A diff is `Compatible` when a hidden field disappears, although a visible metric may be defined over
  it; `CompatibilityProofs.HiddenFieldRemovalBreaks` is such a pair of snapshots, and `CompatibilityProofs.CompatibilitySound` gives the
  exact condition under which an old query still compiles.
- The anchored plan indents its FROM clause by replacing every newline, those inside quoted names included. A filter
  on a column whose name holds a newline is sent with another column name: `Counterexamples.NewlineColumnMisread` is an accepted
  query for every such name. The text sent reads back as compiled if and only if no name in the FROM clause holds a
  newline (`FromTextProofs.IndentedFromReads`, `Gateway.StatementReadsExactly`); the flat plan sends its text unchanged.
- `IN` is not the disjunction of equalities for a date literal against a `timestamptz` field: only comparisons apply the model
  timezone. `Counterexamples.ListedDayMisses` has two accepted queries and an event one of them misses whenever the two readings of
  the date differ; `RenderingProofs.InIsOrOfEqsExactly` gives the exact condition.
- Repeating an upsert is not idempotent when a conflict column may be NULL: `Counterexamples.NullKeyAddsRows` is an accepted request that
  inserts every time, and `UpsertProofs.UpsertTwice` gives the exact condition.
- Paths of the semantic diff are joined with dots and not escaped, so field `b` of model `a` and a model named `a.fields.b` share
  one (`DiffPaths.DottedNameClashes`); `DiffPaths.SemanticPathsExactly` says which names can clash.

## Model

| member | source | states |
|---|---|---|
| AnswerTheorem.CompiledQueryAnswers | crates/postgresem-compiler/src/compiler.rs:225-232 | for every accepted query and every database whose entity keys are keys, the emitted statement's groups are exactly the query's groups and each metric aggregates each base row that reaches the group once; parameters are numbered and the limit is bound |
| Acceptance.CompilesExactly | crates/postgresem-compiler/src/compiler.rs:225-510 | a query compiles if and only if version, hash, limits and model stand, every field, metric, tested literal and order reference it names is served, the relationships it uses lead to keys, a fan-out has one common anchor, and no timezone is missing; otherwise the error is that of the first check that fails |
| Acceptance.DimensionsExactly | crates/postgresem-compiler/src/compiler.rs:272-295 | dimensions are visible fields, with a grain only on time dimensions of a date or timestamp type; the first that is not is reported |
| Acceptance.MetricsExactly | crates/postgresem-compiler/src/compiler.rs:297-381 | metrics are visible, over an own field of the fitting type, counted only over keys, filtered by a fitting literal and carrying the metadata of their version; the first that is not is reported |
| Acceptance.FilterExactly | crates/postgresem-compiler/src/compiler.rs:527-640 | a filter is accepted exactly if each of its tests names a visible field and fitting literals; the first test in the order written that does not is reported |
| Acceptance.RelationshipsExactly | crates/postgresem-compiler/src/compiler.rs:403-452 | used relationships are known, not many-to-many, lead to the source of their target model, and join on a key on their one side; the first that does not is reported |
| Acceptance.AnchorsExactly | crates/postgresem-compiler/src/compiler.rs:457-498 | all metrics of a fan-out have one anchor, local filters and no semi-additivity; the first that does not fit in is reported |
| Acceptance.RendersExactly | crates/postgresem-compiler/src/compiler.rs:984-1106 | a validated query renders exactly if no truncated or day-compared instant lacks a timezone |
| Snapshots.HashTextExactly | crates/postgresem-compiler/src/compiler.rs:1230-1236 | a revision hash is well formed exactly if it is the prefix and 64 lower-case hexadecimal digits |
| OutputExact.CompiledOutputs | crates/postgresem-compiler/src/compiler.rs:654-731 | the output schema lists dimensions and metrics under their own names and types, a truncated dimension as a date; the lineage holds the metrics in order, their anchors, the used relationships and the models read in name order, and exactly the columns of the fields read and joined on |
| Prelude.LookupIsFirst | crates/postgresem-compiler/src/compiler.rs:512-519 | lookup by name finds the first element of that name, or there is none |
| ResultOrder.CompiledQueryReturns | crates/postgresem-compiler/src/compiler.rs:950-975 | for every query that passes validation and compiles, rows may come back from the statement, in that order, if and only if they are the rows of as many of the query's groups as the limit allows, in the requested order with NULL largest, and no group that must come earlier is missing |
| ResultOrder.ReturnsResults | crates/postgresem-compiler/src/compiler.rs:950-975 | the same for every compiled query with distinct output names, validated or not |
| ResultOrder.ListedExactly | crates/postgresem-compiler/src/compiler.rs:950-975 | the first groups of a sorted listing are exactly the sets no other group precedes |
| ResultOrder.OrdersAgree | crates/postgresem-compiler/src/compiler.rs:387-401 | ordering by output columns is ordering by the outputs the query names |
| AnswerTheorem.FlatAnswers | crates/postgresem-compiler/src/compiler.rs:742-786 | the flat plan evaluates to the reference meaning |
| AnswerTheorem.AnchoredAnswers | crates/postgresem-compiler/src/compiler.rs:788-870 | the anchored plan evaluates to the reference meaning, however many joined rows match |
| AnswerTheorem.AnchorFacts | crates/postgresem-compiler/src/compiler.rs:457-498 | an accepted query with fan-out has one anchor shared by all metrics, a direct entity key of the base model |
| QueryTheorem.FlatGrain | crates/postgresem-compiler/src/compiler.rs:403-456 | without one-to-many joins every base row appears at most once among the joined rows |
| QueryTheorem.FlatGrainExact | crates/postgresem-compiler/src/compiler.rs:872-916 | exactly once under left joins without a filter |
| QueryTheorem.FlatInput | crates/postgresem-compiler/src/compiler.rs:1009-1036 | the bag of values a flat aggregate sees is the bag of contributions of base rows |
| QueryTheorem.InnerValue | crates/postgresem-compiler/src/compiler.rs:918-936 | within one anchor group the inner `max` sees only copies of the base row's own input, and returns it |
| QueryTheorem.AnchoredInput | crates/postgresem-compiler/src/compiler.rs:938-948 | the bag an outer aggregate sees equals the bag of contributions, up to NULLs |
| QueryTheorem.ReachedIsContribution | crates/postgresem-compiler/src/compiler.rs:918-948 | `CASE WHEN p` and `FILTER (WHERE p)` differ by NULLs only |
| Relational.AggregateIgnoresNull | crates/postgresem-compiler/src/compiler.rs:938-948 | none of the six aggregates sees a NULL |
| Relational.SumInAnyOrder | crates/postgresem-compiler/src/compiler.rs:938-948 | adding the values of a bag one by one, in whatever order, gives its total |
| PlanProofs.UsedNames | crates/postgresem-compiler/src/compiler.rs:521-525 | the joined relationships are exactly those the query mentions, each once, in name order |
| PlanProofs.CombinationHasRow | crates/postgresem-compiler/src/compiler.rs:872-916 | every qualifying combination of a base row with partners is a row of the FROM clause |
| PlanProofs.RowIsCombination | crates/postgresem-compiler/src/compiler.rs:872-916 | every row of the FROM clause is a qualifying combination |
| PlanProofs.GroupsViaRows | crates/postgresem-compiler/src/compiler.rs:977-1007 | the group keys that occur are the groups of the query |
| Compiler.SelectAnchor | crates/postgresem-compiler/src/compiler.rs:457-498 | the loop over metrics finds the one common anchor or the error of the first offending metric |
| RenderingProofs.PushBinds | crates/postgresem-compiler/src/compiler.rs:1150-1168 | pushing keeps positions equal to places and (type, value) pairs distinct, only extends the list, and binds the literal at the returned position |
| RenderingProofs.FilterGrows | crates/postgresem-compiler/src/compiler.rs:1038-1121 | rendering a filter only extends the parameter list and keeps it numbered |
| RenderingProofs.FilterMeans | crates/postgresem-compiler/src/compiler.rs:1038-1121 | under the final parameter list the rendered predicate has the three-valued result of the source filter on its literals |
| RenderingProofs.DimensionsMean | crates/postgresem-compiler/src/compiler.rs:984-1007 | rendered dimensions evaluate to the query's dimension values |
| RenderingProofs.MetricPartsMean | crates/postgresem-compiler/src/compiler.rs:1009-1036 | rendered metric fields and filters evaluate to the metric's own |
| RenderingProofs.InIsOrOfEqsExactly | crates/postgresem-compiler/src/compiler.rs:1064-1096 | membership is the disjunction of equalities if and only if no date literal meets a timestamptz field |
| Renderer.Renderer.PushParameter | crates/postgresem-compiler/src/compiler.rs:1150-1168 | the search loop and push leave the list the value function gives |
| Renderer.Renderer.RenderField | crates/postgresem-compiler/src/compiler.rs:1123-1144 | the shared state after rendering a field is the functional one |
| Renderer.Renderer.RenderFilter | crates/postgresem-compiler/src/compiler.rs:1038-1106 | rendering with shared mutable state computes the functional rendering, errors included |
| Renderer.Renderer.RenderLogical | crates/postgresem-compiler/src/compiler.rs:1108-1121 | arguments are rendered left to right with the state threaded through |
| SqlTextProofs.QuotedRoundTrip | crates/postgresem-compiler/src/compiler.rs:1222-1224 | unquoting undoes `quote_identifier` for every string |
| SqlTextProofs.QuotingInjective | crates/postgresem-compiler/src/compiler.rs:1222-1224 | no two identifiers are quoted alike |
| SqlTextProofs.LexPred | crates/postgresem-compiler/src/compiler.rs:1038-1144 | predicate text lexes to its tokens whatever delimiter follows |
| SqlTextProofs.ParsesPred | crates/postgresem-compiler/src/compiler.rs:1108-1121 | its tokens parse, with NOT before AND before OR, to the predicate with one-argument nodes collapsed |
| SqlTextProofs.PrintedPredicateReadsBack | crates/postgresem-compiler/src/compiler.rs:1038-1144 | reading the printed text gives a predicate with the same value on all rows and parameters |
| FilterText.RenderedIsPrintable | crates/postgresem-compiler/src/lsq.rs:233-240 | validated filters render to predicates without empty argument lists |
| FilterText.FilterTextMeans | crates/postgresem-compiler/src/compiler.rs:1038-1121 | the text of an accepted filter, read back, has the meaning of the query's filter: always as the flat plan sends it, and as the anchored plan sends it if and only if no column name in it holds a newline |
| FilterText.SentFromAnswers | crates/postgresem-compiler/src/compiler.rs:742-870 | the FROM clause as sent reads back as compiled, always on the flat plan and exactly when no name in it holds a newline on the anchored one, and the statement with the clause as read answers the query |
| Gateway.SentStatementAnswers | crates/postgresem-compiler/src/compiler.rs:642-740 | for every query that passes validation and compiles, the whole text sent reads back as the compiled statement under its output names if and only if it is flat or no name in its FROM clause holds a newline, and then the rows that may come back for the text are exactly the query's results, on every database whose entity keys are keys |
| Gateway.CompileRequest | crates/postgresem/src/executor.rs:361-372 | a request is accepted exactly when the conditions on the query and those on query and snapshot hold, the refusal is that of the first check that fails, and the returned text and parameters answer the query |
| Gateway.CompiledIsPrintable | crates/postgresem-compiler/src/compiler.rs:742-870 | every accepted query compiles to a statement the printer covers, under the query's own output names |
| Gateway.StatementReadsExactly | crates/postgresem-compiler/src/compiler.rs:742-870 | a whole statement reads back as itself if and only if it is flat or no name in its FROM clause holds a newline |
| StatementTextProofs.StatementReads | crates/postgresem-compiler/src/compiler.rs:742-1036 | SELECT list, FROM clause, GROUP BY positions, ORDER BY names, LIMIT and the two-stage wrapper read back, names in the inner FROM clause indented |
| StatementTextProofs.LexBreaks | crates/postgresem-compiler/src/compiler.rs:850-862 | a text that lexes by itself lexes to the same tokens before anything that cannot continue its last token |
| StatementTextProofs.ParsesItems | crates/postgresem-compiler/src/compiler.rs:748-776 | the tokens of a SELECT list parse to its items and their names |
| StatementTextProofs.SelectsBack | crates/postgresem-compiler/src/compiler.rs:977-982 | grouping by the leading positions makes exactly the dimensions keys and the rest aggregates |
| FromTextProofs.FromReadsBack | crates/postgresem-compiler/src/compiler.rs:872-916 | tables, aliases, joins, ON clauses and condition read back from the printed FROM clause |
| FromTextProofs.LexIndented | crates/postgresem-compiler/src/compiler.rs:855 | for every text, replacing newlines changes the tokens inside quoted names and nowhere else |
| FromTextProofs.IndentedPredicateReads | crates/postgresem-compiler/src/compiler.rs:855 | an indented predicate reads back to itself if and only if no column name in it holds a newline, and to the predicate on the indented names in any case |
| FromTextProofs.IndentedFromReads | crates/postgresem-compiler/src/compiler.rs:855 | the same for the whole FROM clause and all its names |
| Counterexamples.NewlineColumnMisread | crates/postgresem-compiler/src/compiler.rs:855-862 | for every column name with a newline, an accepted anchored query whose sent condition is on another column |
| Counterexamples.ListedDayMisses | crates/postgresem-compiler/src/compiler.rs:1064-1096 | two queries that pass validation and compile, one by membership and one by equality, and a database on which they agree if and only if the plain cast of the date is the start of the day in the model's timezone |
| Counterexamples.NullKeyAddsRows | crates/postgresem-compiler/src/mutation.rs:410-431 | an accepted upsert with a NULL in its nullable key that adds a row each time |
| LsqValidation.ValidateQuery | crates/postgresem-compiler/src/lsq.rs:168-213 | accepts exactly the queries of version 1 with a model, a projection, a limit of 1 to 10000 or none, distinct non-blank references and order references, and a filter within its bounds; otherwise the first failing check is reported |
| LsqValidation.ValidateReferences | crates/postgresem-compiler/src/lsq.rs:187-207 | references are accepted exactly when all are non-blank and distinct; otherwise the first offending one is reported |
| LsqValidation.ValidateFilter | crates/postgresem-compiler/src/lsq.rs:223-264 | accepts exactly the well-shaped trees within depth 16 and 128 nodes, grows the counter by the tree's size, and otherwise reports the first failing check of the first failing node in the order written |
| LsqValidation.ValidateArguments | crates/postgresem-compiler/src/lsq.rs:233-240 | the argument loop with its shared counter accepts exactly when all nodes below pass, and reports the first that does not |
| LsqValidation.ValidateMembers | crates/postgresem-compiler/src/lsq.rs:242-250 | IN lists hold 1 to 100 readable values, and the first unreadable one is reported by its type |
| LsqValidation.PassesExactly | crates/postgresem-compiler/src/lsq.rs:223-264 | every node passes its checks exactly when the tree is within both bounds and well shaped |
| LsqValidation.ValidTimestamp | crates/postgresem-compiler/src/lsq.rs:353-399 | accepts exactly the printed instants of section 5.6 of RFC 3339 with upper-case T and Z, seconds at most 59 and Gregorian days; all slices are in bounds |
| LsqValidation.DatesExact | crates/postgresem-compiler/src/lsq.rs:328-351 | accepts exactly the printed days of the Gregorian calendar |
| LsqValidation.LeapYears | crates/postgresem-compiler/src/lsq.rs:410-416 | the division-based test is the Gregorian rule |
| LsqValidation.ParsesFour | crates/postgresem-compiler/src/lsq.rs:401-408 | the checked digit fold inverts four-digit printing |
| LsqValidation.NumericsExact | crates/postgresem-compiler/src/lsq.rs:296-322 | accepts exactly plain decimal numerals without superfluous zeros |
| LsqValidation.LiteralWellFormed | crates/postgresem-compiler/src/lsq.rs:275-284 | a literal passes exactly when its text reads as a value of its type |
| Snapshots.Normalize | crates/postgresem-compiler/src/semantic.rs:186-216 | the sorting loop computes the normal form |
| DiffProofs.NormalizedTwice | crates/postgresem-compiler/src/semantic.rs:186-216 | normalizing is idempotent |
| DiffProofs.NormalFormIs | crates/postgresem-compiler/src/semantic.rs:186-216 | the normal form has the same models in key order, each with the same fields, metrics, relationships and write policy in name order, and nothing else changed |
| DiffProofs.NormalFormCanonical | crates/postgresem-compiler/src/semantic.rs:186-223 | with unique names, any reordering of any collection gives the same normal form and hash input |
| Diff.NamedObjects | crates/postgresem-compiler/src/diff.rs:202-218 | the name index exists exactly when names are unique, and then is lookup; otherwise the first name to come a second time is reported |
| Diff.DiffNamed | crates/postgresem-compiler/src/diff.rs:306-358 | the two loops push what the function says, for all of old and new names |
| Diff.ValidateVersion | crates/postgresem-compiler/src/diff.rs:181-196 | a snapshot passes exactly when its version is known and all names are unique, and otherwise the first failing check is reported |
| Diff.DiffSnapshots | crates/postgresem-compiler/src/diff.rs:82-179 | the whole diff; refused exactly when a snapshot fails its checks, with the error of the first failing check, on the old snapshot before the new one |
| DiffExact.SemanticDiffExact | crates/postgresem-compiler/src/diff.rs:95-179 | a change is reported if and only if it is the change at some place: added, removed or modified according to which snapshot has the object, with the verdict its attributes give |
| DiffExact.SemanticDiffFrame | crates/postgresem-compiler/src/diff.rs:155-179 | a diff names both revisions, lists its changes by path and removals before modifications before additions, counts all, the compatible and the breaking ones, and is breaking exactly if some place has a breaking change |
| DiffExact.VerdictSpelled | crates/postgresem-compiler/src/diff.rs:229-358 | the verdict is Compatible exactly when every old model is succeeded, told on source, timezone, visibility, columns, types and the other attributes |
| DiffProofs.VerdictExact | crates/postgresem-compiler/src/diff.rs:229-239 | the verdict is Compatible exactly when every model stays and keeps its source, its time zone, its being queryable and any write policy, nothing visible was removed, relationships are unchanged, and a field or metric that stays is unchanged or was only made visible |
| DiffProofs.EmptyDiffExact | crates/postgresem-compiler/src/diff.rs:82-179 | there is no change exactly when the normalized model lists are equal |
| DiffPaths.SemanticPathsExactly | crates/postgresem-compiler/src/diff.rs:95-179 | for two model names, no diff has two changes with one path if and only if neither name, with a dot after it, begins with the other and a member separator |
| DiffPaths.SemanticPathsUnique | crates/postgresem-compiler/src/diff.rs:306-358 | when no two model names of the snapshots clash in that way, all paths of their diff are different |
| DiffPaths.ClashExactly | crates/postgresem-compiler/src/diff.rs:95-96 | two models have objects with one path if and only if their names clash |
| DiffPaths.OneModelExact | crates/postgresem-compiler/src/diff.rs:306-358 | within one model a path names one object |
| DiffPaths.DotFreeApart | crates/postgresem-compiler/src/diff.rs:95-96 | a model name without dots lies among no other model's members |
| DiffPaths.DottedNameClashes | crates/postgresem-compiler/src/diff.rs:95-96 | field b of model a and the model a.fields.b have one path |
| CompatibilityProofs.CompatibilitySound | crates/postgresem-compiler/src/diff.rs:319-389 | after a compatible change a query that compiled compiles again if and only if the new snapshot serves it, and then to the same statement, parameters, schema and lineage |
| CompatibilityProofs.CompatibleSuccessor | crates/postgresem-compiler/src/compiler.rs:234-510 | a compatible, well-formed successor compiles every old query to the same result |
| CompatibilityProofs.RendersSame | crates/postgresem-compiler/src/compiler.rs:642-740 | validated queries that differ in visibility and nullability only render alike |
| CompatibilityProofs.HiddenFieldRemovalBreaks | crates/postgresem-compiler/src/diff.rs:229-239 | two snapshots with a compatible diff, and a query that stops compiling |
| Catalog.OrdinalKeyOrders | crates/postgresem/src/catalog.rs:1315-1319 | the sort key of ordinals orders them as numbers |
| Catalog.DiffKeyed | crates/postgresem/src/catalog_diff.rs:341-400 | the loop over chained keys pushes what the function says |
| Catalog.DiffRelation | crates/postgresem/src/catalog_diff.rs:269-339 | all property, column, constraint and policy changes of one relation |
| Catalog.DiffCatalogs | crates/postgresem/src/catalog_diff.rs:90-260 | the whole diff: validation, context check, changes, sorting, deduplication, summary and verdict |
| CatalogExact.CatalogDiffSpelled | crates/postgresem/src/catalog_diff.rs:90-260 | refused with the first of version, fingerprint and context errors, or else both fingerprints, one change for each place where the captures differ, in path order, the three counts, and as overall verdict the worst reported one |
| CatalogExact.ChangeIs | crates/postgresem/src/catalog_diff.rs:269-400 | the change at a place is told by the attributes of what stands there before and after: kind and verdict |
| CatalogExact.CatalogNormal | crates/postgresem/src/catalog.rs:1289-1336 | the normal form has the same functions and relations in order, each with its grants, columns, constraints, policies and roles in order, repeats of roles dropped |
| CatalogProofs.SegmentRoundTrip | crates/postgresem/src/catalog_diff.rs:563-565 | escaping is undone by the decoding of section 4 of RFC 6901 and leaves no separator |
| CatalogProofs.PathsInjective | crates/postgresem/src/catalog_diff.rs:546-565 | different places have different paths |
| CatalogProofs.KeyedExact | crates/postgresem/src/catalog_diff.rs:341-400 | what is pushed is exactly what differs, although shared keys are visited twice |
| CatalogProofs.WithinExact | crates/postgresem/src/catalog_diff.rs:269-339 | inside a relation exactly the differing places are reported |
| CatalogProofs.CatalogDiffExact | crates/postgresem/src/catalog_diff.rs:107-250 | a change is reported exactly where the catalogs differ, it is the one the verdict table gives, and no path occurs twice |
| CatalogProofs.EmptyDiffExact | crates/postgresem/src/catalog.rs:1289-1336 | for catalogs with unique names there is no change exactly when the normal forms agree apart from the fingerprint |
| CatalogProofs.CountsAddUp | crates/postgresem/src/catalog_diff.rs:576-592 | the three counts add up to the total, and each is positive exactly when such a change exists |
| Mutation.ValidateMutation | crates/postgresem-compiler/src/lsm.rs:116-149 | accepts exactly the requests of 1 to 100 rows that assign the same 1 to 64 well-named fields well-formed values, and otherwise reports the first failing check of the first failing row and cell |
| Mutation.AcceptedRowsAgree | crates/postgresem-compiler/src/lsm.rs:131-138 | accepted rows meet what the compiler demands of them |
| Mutation.IsWellFormed | crates/postgresem-compiler/src/lsm.rs:155-172 | a value passes exactly when it is NULL or its text reads as a literal of its type |
| Mutation.ValidateWritableModel | crates/postgresem-compiler/src/mutation.rs:281-331 | the three loops over seen-sets decide the metadata conditions exactly |
| MutationExact.MutationCompilesExactly | crates/postgresem-compiler/src/mutation.rs:126-262 | a mutation compiles if and only if version, hash, limits, capabilities, write policy, operation, size, field capabilities, nullability, value types, required and conflict fields all stand; otherwise the error is that of the first check that fails |
| MutationExact.ReturningExact | crates/postgresem-compiler/src/mutation.rs:432-451 | for both operations RETURNING lists each returned field's own column under its own name, and the schema carries its type |
| MutationExact.TouchedColumns | crates/postgresem-compiler/src/mutation.rs:465-472 | the columns reported as touched are exactly those of input and returned fields |
| MutationExact.InsertAppends | crates/postgresem-compiler/src/mutation.rs:369-451 | executing an accepted insert succeeds exactly if its fields have distinct columns, changes no old row and appends one row per input row, in order, with the input value in each input column and the default elsewhere |
| MutationExact.LastFieldIs | crates/postgresem-compiler/src/mutation.rs:173-177 | the field index keeps the last field under a name |
| Mutation.LookupsSucceed | crates/postgresem-compiler/src/mutation.rs:369-430 | no lookup made while rendering an accepted mutation can miss |
| Mutation.BindRows | crates/postgresem-compiler/src/mutation.rs:384-402 | the nested loops compute parameters and placeholders, row after row |
| UpsertProofs.CellPosition | crates/postgresem-compiler/src/mutation.rs:384-402 | cell (r, f) of n fields is bound at position r * n + f + 1 to its own value and type |
| UpsertProofs.AcceptedUpsertSplits | crates/postgresem-compiler/src/mutation.rs:183-249 | conflict and update sets are disjoint, duplicate-free, not empty and cover exactly the input fields |
| UpsertProofs.UpsertAllFrames | crates/postgresem-compiler/src/mutation.rs:410-431 | upserting rows into a keyed table succeeds exactly when no two rows share a key, and keeps the frame |
| UpsertProofs.UpsertFrame | crates/postgresem-compiler/src/mutation.rs:126-262 | an accepted upsert succeeds exactly when columns and keys are distinct; then only updatable columns of rows with a given key change, every input value is in its row as its column stores it, new rows are exactly the unmatched ones, one row is affected per input row, and the key still holds |
| UpsertProofs.UpsertTwice | crates/postgresem-compiler/src/mutation.rs:410-431 | doing it again, with other column defaults, succeeds, and changes nothing if and only if no input key holds a NULL |
| UpsertProofs.CompiledUpsert | crates/postgresem-compiler/src/mutation.rs:126-170 | every upsert the whole compiler accepts is one the frame speaks about, within the row limits |
| Idempotency.CollectRows | crates/postgresem/src/mutation_executor.rs:723-764 | succeeds exactly when all rows are arrays and fit; nothing is truncated |
| Idempotency.RunKeeps | crates/postgresem/src/mutation_executor.rs:493-592 | the protocol invariant holds after every history of interleaved attempts |
| Idempotency.RunExtends | crates/postgresem/src/mutation_executor.rs:493-592 | records and outcomes are never taken back |
| Idempotency.AtMostOnce | crates/postgresem/src/mutation_executor.rs:493-592 | a key's change is applied at most once, and exactly once when the key is recorded |
| Idempotency.RepliesAgree | crates/postgresem/src/mutation_executor.rs:541-555 | all successes of a key carry the same request, mutation id, rows and count, replayed or not, at any distance |
| Idempotency.StoredResultsReplay | crates/postgresem/src/mutation_executor.rs:766-775 | a stored result always replays |
| Idempotency.ConflictChangesNothing | crates/postgresem/src/mutation_executor.rs:535-540 | an attempt that met a different recorded request never applies anything nor succeeds at any later point of the run, and none of its own events, whatever becomes of its commit, touches records, changes or locks |
| Idempotency.FailureStatusTruthful | crates/postgresem/src/mutation_executor.rs:426-461 | a failed attempt that did change data is recorded as indeterminate |
| Idempotency.RetryResolves | crates/postgresem/src/mutation_executor.rs:493-592 | after a lost acknowledgement a retry replays if the commit had landed and executes otherwise |
| Idempotency.SuccessMeans | crates/postgresem/src/mutation_executor.rs:541-592 | in every run a success carries array rows and their count; it is flagged as replay exactly if the attempt itself applied nothing, and otherwise holds the expected number of rows |
| Idempotency.StatementDecides | crates/postgresem/src/mutation_executor.rs:562-565 | after the statement an attempt goes on exactly with array rows that fit and are as many as expected; otherwise it fails with the first of the three errors |
| Idempotency.CommitDecides | crates/postgresem/src/mutation_executor.rs:566-592 | an acknowledged commit of a recorded attempt succeeds with its rows, not flagged; a lost one is indeterminate |
| Idempotency.ClaimDecides | crates/postgresem/src/mutation_executor.rs:493-540 | a claim waits for a locked key, replays the same request, conflicts with another one, and executes a new key |
| Idempotency.ReplayDecides | crates/postgresem/src/mutation_executor.rs:541-555 | an acknowledged replay succeeds with the stored result, flagged |
| Osi.FirstOf | crates/postgresem/src/osi.rs:920-925 | the first occurrence of a character, or none |
| OsiGrammar.MetricTextExactly | crates/postgresem/src/osi.rs:920-972 | the parser accepts exactly the metric expressions of a grammar with blanks, case-insensitive words and DISTINCT, and reads aggregation, dataset and field as written |
| OsiGrammar.SourceExactly | crates/postgresem/src/osi.rs:999-1025 | a source is accepted exactly if it is schema.relation, alone or after the current database; another database is told from other texts |
| OsiGrammar.TrimExactly | crates/postgresem/src/osi.rs:974-985 | trimming takes away exactly the blanks around a text |
| OsiGrammar.PortableExactly | crates/postgresem/src/catalog_types.rs:45-49 | a name is portable exactly if it is an ASCII letter or underscore followed by letters, underscores and digits |
| OsiExact.FieldExactly | crates/postgresem/src/osi.rs:663-718 | an own field has the document's name, the trimmed column, the catalog's type and nullability, and is a key exactly if its column is in the primary key; otherwise the first failing check is reported |
| OsiExact.DatasetExactly | crates/postgresem/src/osi.rs:598-748 | a dataset brings exactly the fields and the relation the document and the catalog give it, its primary key derived or stated, or is refused with the first failing check |
| OsiExact.DatasetsExactly | crates/postgresem/src/osi.rs:524-534 | all datasets are accepted under portable and new names, or the first that is not is reported |
| OsiExact.PrimaryKeyExactly | crates/postgresem/src/osi.rs:1027-1042 | the first enforced and validated primary key without a period counts, or none |
| OsiExact.ForeignKeysExactly | crates/postgresem/src/osi.rs:1044-1068 | the known foreign keys are exactly the enforced and validated ones without a period |
| OsiExact.FindIsLast | crates/postgresem/src/osi.rs:511-515 | the index over relations or columns keeps the last entry under a key |
| OsiModels.RelationshipExactly | crates/postgresem/src/osi.rs:750-828 | a relationship becomes a many-to-one left join over one column each, vouched for by a foreign key to a shown key, or is refused |
| OsiModels.FieldsMember | crates/postgresem/src/osi.rs:770-782 | a model's fields are its own and, for each of its relationships, the target's under the prefixed name with column, type and nullability, never keys |
| OsiModels.RelationshipsExactly | crates/postgresem/src/osi.rs:830-853 | relationships are accepted exactly if each is vouched for and shows fields under names still free; otherwise the first that is not is reported |
| OsiModels.MetricsExactly | crates/postgresem/src/osi.rs:855-912 | metrics are accepted exactly if each spells an aggregation of an own field it can measure; otherwise the first that is not is reported |
| OsiModels.MetricIsMade | crates/postgresem/src/osi.rs:896-911 | a metric has the aggregation its text names and the type that goes with it |
| OsiModels.ImportsExactly | crates/postgresem/src/osi.rs:487-596 | a document is imported if and only if one semantic model is chosen, the catalog stands and all datasets, relationships and metrics are accepted; otherwise the first failing check is reported |
| OsiModels.ImportHolds | crates/postgresem/src/osi.rs:487-576 | the snapshot has one model per dataset in name order, with exactly the fields, relationships and metrics the document and the catalog give it, each in name order, under the hash of the whole |
| OsiImporter.ImportAll | crates/postgresem/src/osi.rs:487-576 | the import loops that complete models in place compute the import, first error included |
| OsiImporter.EnsureUnique | crates/postgresem/src/osi.rs:32-46 | the loop over a seen-set reports the first name to come a second time, and none exactly if names are unique |
| OsiImporter.ImportRelationship | crates/postgresem/src/osi.rs:750-853 | one relationship extends exactly the model it starts from |
| OsiImporter.ImportMetrics | crates/postgresem/src/osi.rs:855-912 | metrics are added to the models they name, in order |
| OsiProofs.MetricReadsBack | crates/postgresem/src/osi.rs:421-436 | a printed metric parses to itself if and only if the dataset of a metric without DISTINCT does not begin with that word |
| OsiProofs.ParsedPlainly | crates/postgresem/src/osi.rs:920-972 | import guarantees that condition |
| OsiProofs.FieldAgain | crates/postgresem/src/osi.rs:663-718 | an imported field is imported again from its export |
| OsiProofs.DatasetAgain | crates/postgresem/src/osi.rs:598-748 | so is a dataset, with its primary key derived or stated |
| OsiRoundTrip.ChecksHold | crates/postgresem/src/osi.rs:830-852 | accepted relationships leave every model with unique field names |
| OsiRoundTrip.ChecksPass | crates/postgresem/src/osi.rs:750-853 | relationships with that property are accepted in any order |
| OsiRoundTrip.ExportedAsWritten | crates/postgresem/src/osi.rs:391-409 | a relationship is exported as it was written |
| OsiRoundTrip.ExportSucceeds | crates/postgresem/src/osi.rs:346-440 | the export loop collects datasets, relationships and metrics of all models |
| OsiRoundTrip.SettledAgain | crates/postgresem/src/osi.rs:555-563 | every replayed dataset settles into the model it was exported from |
| OsiRoundTrip.OsiRoundTrips | crates/postgresem/src/osi.rs:314-485 | every imported snapshot with a model exports under any portable name, and importing that gives the identical snapshot |
| OsiRoundTrip.ExportsExactly | crates/postgresem/src/osi.rs:314-485 | a snapshot is exported under a portable name if and only if it has a model and some document imports to its normal form; the exported document does |
| RateLimiter.PrincipalLimiter.Acquire | crates/postgresem/src/mcp_http_rate.rs:37-70 | refill, decision and bookkeeping of one bucket, leaving all others alone |
| RateLimiter.PrincipalLimiter.Drop | crates/postgresem/src/mcp_http_rate.rs:73-82 | one permit of one authority is returned |
| RateLimiter.TokensBounded | crates/postgresem/src/mcp_http_rate.rs:55-67 | tokens stay between zero and the burst |
| RateLimiter.ActiveIsOutstanding | crates/postgresem/src/mcp_http_rate.rs:59-82 | `active` is the number of outstanding permits and never exceeds the limit |
| RateLimiter.Isolation | crates/postgresem/src/mcp_http_rate.rs:45-52 | a bucket is what its own authority's events alone would make of it |
| RateLimiter.WindowBound | crates/postgresem/src/mcp_http_rate.rs:53-67 | in any window at most burst + length * requests per minute / 60 requests are admitted |
| RateLimiter.RefusedExactly | crates/postgresem/src/mcp_http_rate.rs:53-67 | a request is refused with Concurrency exactly if as many permits are outstanding as allowed, otherwise with Rate exactly if admitting it would exceed burst + length * requests per minute / 60 in some window, and admitted otherwise |
| Admission.PermitsConserved | crates/postgresem/src/mcp_http.rs:383-500 | in every reachable state held and free permits add up to each semaphore's size, and the limiter counts exactly the holders |
| Admission.ReleaseKeeps | crates/postgresem/src/mcp_http.rs:383-500 | leaving the ladder anywhere gives back exactly what was held |
| Admission.MovesOnExactly | crates/postgresem/src/mcp_http.rs:383-500 | in every reachable state a request moves to the next rung exactly when the limiter and the semaphores have room for it, and is gone otherwise |
| Admission.WorkerConnections | crates/postgresem/src/executor.rs:355-372 | wherever a worker stands in its program of opening and dropping clients, it has no more connections open than it holds permits |
| Admission.PermitsNeeded | crates/postgresem/src/mutation_executor.rs:312-342 | a query and a mutation come to have exactly two connections open, in their order, and end with none |
| Admission.ConnectionsBounded | crates/postgresem/src/mcp_http.rs:551-604 | workers never have more connections open than the database limit, even after their response timed out |
| Admission.NothingLeaks | crates/postgresem/src/mcp_http.rs:96-100 | once every request is gone all permits are free |
| Cancellation.CancellationControl.Register | crates/postgresem/src/mcp_http.rs:121-132 | refused after a disconnect, and then no handle is kept |
| Cancellation.CancellationControl.Disconnect | crates/postgresem/src/mcp_http.rs:134-141 | marks the disconnect and returns the handle registered so far |
| Cancellation.NoLostCancellation | crates/postgresem/src/mcp_http.rs:164-187 | after an armed drop, either no statement ever starts, or a canceller holds this worker's handle and stops only when the worker finished or the deadline passed |
| Cancellation.CancellerPersists | crates/postgresem/src/mcp_http.rs:164-187 | while the worker is busy before the deadline the canceller is alive and its next look sends a cancel request |
| Cancellation.AtMostOneLateCancel | crates/postgresem/src/mcp_http.rs:175-181 | at most one cancel request is sent after the finished flag is set |
| Cancellation.AnsweredNeverCancels | crates/postgresem/src/mcp_http.rs:619-645 | a stream that delivered its result never cancels |
| Cancellation.CancelsPaced | crates/postgresem/src/mcp_http.rs:173-181 | the k-th cancel request follows the one before by at least the smaller of 10 * 2^(k-1) and 250 ms, none comes sooner than the sum of those delays after the drop, and each was decided on before the deadline |
| Cancellation.DelayIs | crates/postgresem/src/mcp_http.rs:173-181 | the n-th delay is the smaller of 10 * 2^n and 250 ms |
| LineReader.ReadBoundedLine | crates/postgresem/src/mcp.rs:181-220 | for every cut into buffers: oversized exactly when the content exceeds the bound, otherwise the content with one trailing CR removed only when a newline ended it; the reader stands just past the newline, and no more than the bound is stored |
| LineReader.ReadAll | crates/postgresem/src/mcp.rs:130-170 | the lines of a whole stream depend on its bytes alone |
| LineReader.WrittenLinesReadBack | crates/postgresem/src/mcp.rs:172-220 | messages written with newlines come back one by one |
| LineReader.FrameableExactly | crates/postgresem/src/mcp.rs:181-220 | exactly the messages within the bound that do not end in CR survive framing |

## Left out

- PostgreSQL itself: row-level security, grants, triggers, generated columns, volatile defaults and constraint checks other than the conflict key are not modelled, nor is a value a column's own type refuses; the claim and finish calls of the execution protocol have a contract only.
- SHA-256 values of statements and requests (query hash, statement hash, mutation hash) are not computed; hashes are functions nothing is known about, and a request's hash, revision and role are one opaque `body`.
- ResultOrder.CompiledQueryReturns: the wrapper that turns rows into JSON selects from the ordered statement without an order of its own; that PostgreSQL keeps the order there is not modelled.
- Gateway.SentStatementAnswers: PostgreSQL cuts identifiers at 63 bytes and refuses empty ones; the reader takes names of any length.
- FilterText.SentFromAnswers: the same holds for the names of a FROM clause.
- FromTextProofs.FromReadsBack: the same.
- AnswerTheorem.CompiledQueryAnswers: values carry no types, so the theorem is about statements PostgreSQL can type; the compiler also accepts metrics that have no aggregate there, such as a sum of text or the maximum of a boolean.
- Numeric precision, time zones and `date_trunc`: uninterpreted functions on values.
- JSON and YAML text: documents are parsed trees and serialization is injective; before/after payloads of the semantic diff are not part of a change.
- Warnings of the OSI import, descriptions and context they are about, the filling in of omitted nullability by `export_json`, and the table of PostgreSQL type names (a parameter).
- Error payloads that name a path: OSI errors carry no path.
- RateLimiter.PrincipalLimiter.Acquire: tokens and times are exact reals, so rounding of 64-bit floats is not captured, nor is a poisoned mutex.
- Cancellation.NoLostCancellation: the thread that cancels is assumed to start, and what PostgreSQL does with a cancel request is not modelled.
- Admission.ConnectionsBounded: a failure anywhere in a worker's program ends it; connections opened to send cancel requests are not the worker's and are not counted.
- Idempotency.AtMostOnce: a change is an entry in a log of committed mutations; what the statement does to the table is the subject of the upsert frame.
- JWT authentication, HTTP header parsing, tool listings, configuration, logging and the command line.
- `read` paths of the executor (row truncation, audit records) beyond the cancellation order.
