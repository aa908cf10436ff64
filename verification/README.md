# goth-scaffold verification

A Dafny model of the parts of goth-scaffold whose correctness is not visible from any one
function: the query-filter compiler, lazy and eager association loading, the single-instance
lease, transaction retry, encrypted ids and the port-block allocator. `dafny verify
dfyconfig.toml` checks everything. Paths below are relative to the repository root.

Code that changes state is a class or a method with loops, tied by its `ensures` to a function of
the old state; the properties are proved of those functions. Answers of the database, of Redis and
of the callbacks are parameters or oracles, so every statement holds for all of them.

## What is modelled

**Query filter** (`app/components/queryfilter`). `QueryLexer` and `QueryParser` hold the lexer and
the one-token-lookahead parser as classes. The lexer is proved to be longest-match tokenisation and
the parser to accept exactly the grammar of `QueryGrammar`, which is unambiguous; no lexer error is
lost although each read overwrites it. Operators are a table of six symbols and nine names, stated
apart from the parser. `QueryPrinter` is a printer the repository does not have,
written as specification: parsing inverts it, its parentheses are minimal, and the trees it can
print are exactly those some filter string parses to. `QuerySql`, `QueryPlan`, `QuerySort` and
`QueryFind` follow a tree into SQL text with placeholders, into the database's three-valued
verdict, through the in-memory pass and the option folding of `Find`. `QuerySortText` reads sort
strings. `QueryColumn` reads conditions on columns as SQL and says what every leaf asks of a row.
`QueryOrder` gives the order of the rows under several options, `QueryLeak` says when the
planner is right on whole schemas and databases, and `QueryEndToEnd` puts it all together: from a
filter and a sort string to the rows.

**Associations** (`app/models/helper_lazy.go`, `app/repositories/lazy_db_registry.go`). Model
objects are heap objects with nullable caches, tables are sequences of rows. `LazyHasMany`,
`LazyComposite` and `LazyBelongsTo` prove the batch loaders against per-object caches, and then when
eager and lazy reading agree. `CompositeKeys` proves the joined key strings injective.

**Lease** (`app/worker/service.go`). `LeaseProtocol` is a step relation over any number of nodes,
one key with an expiry, and a clock; every Redis call is its own step, may err with or without
having been applied, and nodes may pause or crash anywhere. `LeaseManager` is the manager object,
whose calls are proved to be a life of that protocol, tick by tick, and also listed call by call.

**Transactions** (`app/repositories/database_repository.go`), **ids** (`app/components/crypto`)
and **ports** (`evaluate/scripts/worktree-ports.sh`) are `TransactionRetry`, `IdCipher` and
`PortBlocks`. `IdCipher` follows section 6.3 of RFC 5652 for padding and section 6.1 of
NIST SP 800-38A for ECB. `Wrappers`, `Int64` and `Sequences` hold what several modules share.

## Where the code does not do what it promises

The behaviour below is modelled as it is. For each point the lemmas named give an input at which the
promise fails and the exact condition under which it holds.

- A mixed OR (one side in the database, one in memory) lets extra rows through: it is not pushed,
  and its database leaves count as true in memory (`QueryFind.MixedOrLeaks`). For distinct leaves the
  condition is `QueryPlan.SplitExactIff`, and in terms of schemas and databases
  `QueryLeak.PlannedRightIff`. No row is ever lost (`QueryFind.NoLostRow`).
- An IN query compares by the column's collation, the regrouping by Go equality. A child matched
  only by collation is found lazily and missed eagerly (`LazyHasMany.CollationMissesChild`). A failed
  batch query caches "no children", a failed lazy read caches nothing
  (`LazyHasMany.FailedBatchHidesChild`). Eager and lazy reading agree on every table exactly when the
  batch does not serve the object, or it succeeded and the database tells the object's key from all
  others as Go does (`LazyHasMany.EagerAgreesIff`).
- The composite loader also casts ids to uint64, so a negative id finds nothing eagerly
  (`LazyComposite.NegativeMissesChild`). The exact condition is `LazyComposite.EagerAgreesIff`.
- A lease that is outlived lets a second node win the lock (`LeaseProtocol.OverrunBreaksExclusion`).
  As long as leases are kept there is one holder (`LeaseProtocol.MutualExclusion`), and the next step
  can break that exactly when a holder has outlived its lease while another node waits
  (`LeaseProtocol.ExclusionBreaksIff`).
- Two runners can be active with every lease kept. `release` deletes the key before it shuts the
  runner down (`LeaseProtocol.RunnersOverlap`), and `keepAlive` gives up on a GET that errs while the
  key is still there (`LeaseProtocol.LostRunnersOverlap`). A step makes two runners active exactly when
  it starts one while another node is between giving up the lock and Shutdown
  (`LeaseProtocol.OverlapIff`).
- A node that pauses between GET and SETEX can take the lock back from the node that won it meanwhile
  (`LeaseProtocol.PausedRenewalSteals`). While leases are kept no step changes a live key that names
  another host (`LeaseProtocol.NoTheftWhileLeased`), and a theft can follow the next step exactly when
  a node about to write has outlived its lease and another host waits (`LeaseProtocol.TheftFollowsIff`).
- SETNX and its expiry are two calls, so a key can be left without an expiry, and then nobody ever
  gets the lock again (`LeaseProtocol.OrphanedForever`). There are exactly three ways
  (`LeaseProtocol.OrphansIff`, `LeaseProtocol.OrphanedIff`): the reply of an applied SETNX is lost
  (`LeaseProtocol.LostReplyOrphans`), the winner crashes before its SETEX takes effect
  (`LeaseProtocol.CrashOrphans`), or that SETEX fails and the DEL after it is not applied
  (`LeaseProtocol.LostDeleteOrphans`).
- Only the body's panic is recovered. A panic of Commit leaves its transaction open
  (`TransactionRetry.PanickingCommitLeaks`), and nothing else does (`TransactionRetry.NilIffCommitted`,
  `TransactionRetry.LeavesOpenIff`).
- Backoff delays overflow int64 from the 39th on (`TransactionRetry.DelayFitsIff`).
- A port base with a leading zero is range-checked in decimal but computed with in octal
  (`PortBlocks.OctalStart`, exactly when: `PortBlocks.StartsInRangeIff`).
- Two runs of the port script that overlap in time from the same start take the same block
  (`PortBlocks.SameStartCollides`). The blocks stay disjoint exactly when the overlap did not matter,
  each run finding what it would have found after the other (`PortBlocks.OverlapKeepsDisjointIff`);
  from free starts that is when the requested blocks are disjoint (`PortBlocks.OverlapOfFreeStarts`).

Two things are not lemmas. The model has no counterpart of two dead returns: "unexpected character" in
the lexer (app/components/queryfilter/parser.go:174-176) and the final `return lastErr`
(app/repositories/database_repository.go:317). And the comment at
app/components/queryfilter/schema.go:16-19 gives Column precedence over SQLExpr over FilterFn; the code
does the reverse (app/components/queryfilter/schema.go:47, app/components/queryfilter/option.go:208)
and is what is modelled.

## Model

| member | source | states |
|---|---|---|
| QueryLexer.Lexer.SkipWS | app/components/queryfilter/parser.go:60-64 | stops at the first character that is not white space |
| QueryLexer.Lexer.Next | app/components/queryfilter/parser.go:66-180 | never indexes out of range on any input, also one ending in a backslash inside a quote, and returns the token, error and position of `Scan`, which is longest-match tokenisation (`ScanExact`) |
| QueryLexer.Lexer.NextNamedOp | app/components/queryfilter/parser.go:98-110 | `=name=` is a named operator; an empty or unclosed name is an error |
| QueryLexer.Lexer.NextQuoted | app/components/queryfilter/parser.go:139-157 | the raw text up to the matching quote, a backslash skipping the character after it, or the unterminated-string error |
| QueryLexer.Lexer.NextWord | app/components/queryfilter/parser.go:159-165 | an identifier is the longest run of letters, digits and underscores |
| QueryLexer.Lexer.NextBare | app/components/queryfilter/parser.go:167-179 | an unquoted value is never empty, so the source's error for an empty one cannot occur |
| QueryLexer.Scan | app/components/queryfilter/parser.go:66-180 | an error comes with the end-of-input token, and every other token consumes at least one character |
| QueryLexer.ScanSpells | app/components/queryfilter/parser.go:66-180 | soundness: after white space, the returned token is spelled by the text read, and no longer token was possible |
| QueryLexer.SpelledScan | app/components/queryfilter/parser.go:66-180 | completeness: a maximal spelling after white space is what the lexer returns |
| QueryLexer.ScanExact | app/components/queryfilter/parser.go:66-180 | a token is returned iff it is maximally spelled there; clean end of input iff only white space is left; an error iff something is left that spells no token |
| QueryLexer.ScanErrors | app/components/queryfilter/parser.go:92-157 | which error the lexer reports, and where: an operator name without its end, a `!` without `=`, or an unterminated string |
| QueryLexer.KeptText | app/components/queryfilter/parser.go:66-180 | the text kept with a token is what was read, without the quotes and the marks of a named operator, and empty for punctuation |
| QueryParser.Parser.Peek | app/components/queryfilter/parser.go:194-201 | looking ahead consumes nothing and keeps the pending lexer error |
| QueryParser.Parser.Consume | app/components/queryfilter/parser.go:203-208 | removes exactly the first unread token; the lexer error that ends the input stays pending |
| QueryParser.Parser.ParseOr | app/components/queryfilter/parser.go:210-227 | the left-associated fold over commas, the unread tokens and the pending lexer error left as the grammar leaves them |
| QueryParser.Parser.ParseAnd | app/components/queryfilter/parser.go:229-246 | the left-associated fold over semicolons |
| QueryParser.Parser.ParsePrimary | app/components/queryfilter/parser.go:248-266 | a parenthesised expression or a comparison, terminating by the number of unread tokens |
| QueryParser.Parser.ParseComparison | app/components/queryfilter/parser.go:268-286 | field, operator and value, each with its own error |
| QueryParser.ParseFilter | app/components/queryfilter/parser.go:332-352 | the parser object as a whole computes `Parse`, which is exactly the grammar (`ParseExact`) |
| QueryGrammar.OrSound | app/components/queryfilter/parser.go:210-227 | what the parser consumed derives the tree it returned |
| QueryGrammar.OrComplete | app/components/queryfilter/parser.go:210-227 | tokens that derive a tree are parsed to it in front of anything that is not a semicolon |
| QueryGrammar.ParsesIffDerives | app/components/queryfilter/parser.go:210-328 | on a whole token list the parser returns a tree iff the grammar derives it |
| QueryGrammar.Unambiguous | app/components/queryfilter/parser.go:210-286 | a token list derives at most one tree, so precedence and associativity are fixed |
| QueryGrammar.TokenIsOperator | app/components/queryfilter/parser.go:288-328 | a token reads as an operator iff a table of the six symbols and the nine lower-case names says so, else it is an unknown name or no operator |
| QueryGrammar.ComparisonErrors | app/components/queryfilter/parser.go:268-286 | a comparison is refused for the first of field, operator and value that does not fit, with that token's text |
| QueryGrammar.MissingParenthesis | app/components/queryfilter/parser.go:248-263 | an expression in parentheses that anything but `)`, `,` or `;` follows is refused |
| QueryGrammar.TrailingInput | app/components/queryfilter/parser.go:343-349 | after a whole expression a further token, or a lexer error, is what is reported |
| QueryGrammar.ParseExact | app/components/queryfilter/parser.go:332-352 | a filter string gives a tree iff it is not blank, lexes without error to its end, and its tokens derive that tree; it gives none without error iff it is blank |
| QueryPrinter.RoundTrip | app/components/queryfilter/parser.go:66-352 | for every tree of identifier fields, the nine operators and writable values, parsing its print gives the same tree |
| QueryPrinter.NamedOperatorParses | app/components/queryfilter/parser.go:302-324 | each of the nine operators written by name, in any letter case, gives that operator, and the same tree as its symbol if it has one |
| QueryPrinter.PrintIsShortest | app/components/queryfilter/parser.go:210-266 | no token list deriving the tree is shorter than its print, so the print has no redundant parenthesis |
| QueryPrinter.PrintableIffParsed | app/components/queryfilter/parser.go:66-352 | the printable trees are exactly those some filter string parses to |
| QueryPrinter.PrintDerives | app/components/queryfilter/parser.go:210-328 | the printed tokens derive the tree at each of the three binding strengths |
| QueryPrinter.TextLexes | app/components/queryfilter/parser.go:66-180 | separated spellings written after one another lex back to their tokens, whatever comes before |
| QueryPlan.ValidateNode | app/components/queryfilter/option.go:35-84 | succeeds iff every leaf is allowed by the schema |
| QueryPlan.ValidLeafIff | app/components/queryfilter/option.go:42-74 | a leaf is allowed iff its field is known and filterable, its operator allowed and its value of the field's type, the first failing one being the error |
| QueryPlan.LeftmostError | app/components/queryfilter/option.go:76-83 | a refused tree is refused for its leftmost leaf that is not allowed |
| QueryPlan.ValidatedBinds | app/components/queryfilter/option.go:225-271 | a validated column leaf binds exactly one argument: the value read as the field's type under the six comparison operators, and text under prefix, suffix and like whatever the type; any other operator gives no condition |
| QuerySql.SplitRendered | app/components/queryfilter/option.go:193-196 | a rendered connective over balanced operands reads back as that connective and those operands |
| QuerySql.RenderedWellFormed | app/components/queryfilter/option.go:175-200 | rendering keeps parentheses balanced and placeholders as many as arguments |
| QuerySql.RenderedMeans | app/components/queryfilter/option.go:175-200 | evaluating the rendered text with the concatenated arguments is the connective of evaluating each operand with its own |
| QueryFind.ColumnReadable | app/components/queryfilter/option.go:225-252 | every column condition has one placeholder, one argument and balanced parentheses |
| QueryColumn.ColumnLeafMeans | app/components/queryfilter/option.go:202-271 | on a database that reads `<column> <sign> ?` and `<column> LIKE ?` as SQL, the condition of a validated column leaf is the operator it names, applied to the row's column and the value read as the field's type, for all nine operators and NULL |
| QueryColumn.LeafMeans | app/components/queryfilter/option.go:202-223 | every valid leaf means what it asks: of its FilterFn first, else of its SQLExpr, else of its column |
| QueryColumn.MeaningIsAsked | app/components/queryfilter/option.go:142-223 | and so does every valid tree under three-valued logic |
| QueryColumn.MatchingMeans | app/components/queryfilter/option.go:241-246 | on a text column and for a value without wildcards, prefix, suffix and like are begins with, ends with and equals, up to the collation |
| QueryFind.RenderedSubtree | app/components/queryfilter/option.go:175-223 | a subtree becomes one condition iff all its leaves are the database's, and the condition's text with its arguments means the subtree under three-valued logic |
| QueryFind.CollectedPasses | app/components/queryfilter/option.go:142-171 | the database accepts a row under all collected conditions iff each AND-reached pushed leaf and each all-database OR is TRUE |
| QueryFind.EvaluatedPasses | app/components/queryfilter/option.go:346-406 | the in-memory evaluation in terms of which leaves are in memory, and when it is needed at all |
| QueryPlan.TrueTreePasses | app/components/queryfilter/option.go:142-171 | a tree that is TRUE passes both sides, for any mix of leaves, NULLs included |
| QueryPlan.ExactDecides | app/components/queryfilter/option.go:142-223 | when every OR reached through ANDs is one-sided and no leaf is lost, both sides together hold iff the tree is TRUE |
| QueryPlan.FoolMemory | app/components/queryfilter/option.go:376-406 | a tree with distinct leaves of which one is not in memory can be FALSE and still pass the in-memory evaluation |
| QueryPlan.InexactLeaks | app/components/queryfilter/option.go:161-165 | whenever the condition fails, some valuation passes both sides although the tree is FALSE |
| QueryPlan.SplitExactIff | app/components/queryfilter/option.go:142-223 | for a tree with pairwise distinct leaves the split is right under every valuation iff every OR reached from the root through ANDs is all-database or all in memory and no leaf is lost |
| QueryPlan.RepeatedLeafHarmless | app/components/queryfilter/option.go:157-165 | distinctness is needed: `p AND (p OR m)` has a mixed OR and is split rightly under every valuation |
| QueryLeak.PlannedRightIff | app/components/queryfilter/option.go:142-406 | a tree of distinct leaves with conditions of their own is planned rightly, whatever its FilterFns answer and the database says, iff it is exact |
| QueryLeak.LeakingRow | app/components/queryfilter/option.go:161-165 | for any such tree that is not exact: FilterFns and a database under which the plan keeps a row for which the tree is FALSE |
| QueryLeak.ColumnIsAtom | app/components/queryfilter/option.go:225-252 | a column condition is never read as a connective |
| QuerySort.ValidateSorts | app/components/queryfilter/option.go:87-100 | succeeds iff every key is sortable; the error names the first that is not and why |
| QuerySort.HasMemSort | app/components/queryfilter/option.go:362-371 | true iff some key has a comparator |
| QuerySort.CollectDBSorts | app/components/queryfilter/option.go:283-312 | one comparator among the keys leaves the database no ordering, so the two sides never both order; otherwise the keys with a column, in order |
| QuerySort.CompareItems | app/components/queryfilter/option.go:409-429 | a row goes before another iff some key's comparator says so in the key's direction, and every earlier key has no comparator or compares them as equal |
| QuerySort.OnlyComparatorsOrder | app/components/queryfilter/option.go:409-429 | the in-memory order is that of the keys with a comparator alone; the others have no say |
| QuerySort.OnlyColumnsOrder | app/components/queryfilter/option.go:291-311 | the database orders by the keys with a column, the sort column before the filter column, each in its direction, in their order |
| QuerySort.EveryKeyTakesPartIff | app/components/queryfilter/schema.go:24-26 | every accepted key takes part in the ordering iff all keys have comparators or none has |
| QuerySort.LessStrictWeak | app/components/queryfilter/option.go:409-429 | for consistent comparators any list of ascending and descending keys is a strict weak order |
| QuerySort.SortIsStable | app/components/queryfilter/option.go:336-340 | the sorted rows are in order and rows of equal keys stay as they were |
| QuerySort.StableOrderUnique | app/components/queryfilter/option.go:336-340 | at most one sequence is a stable order of given rows |
| QuerySort.SortKeepsFilter | app/components/queryfilter/option.go:324-343 | sorting commutes with filtering |
| QuerySort.KeepSorted | app/components/queryfilter/option.go:325-334 | filtering keeps every order the rows had |
| QuerySortText.ParseKey | app/components/queryfilter/sort.go:23-41 | one part of a sort string: trimmed, its sign taken off, dropped when nothing is left |
| QuerySortText.ParseSort | app/components/queryfilter/sort.go:14-44 | the loop computes `Sorts`, whose partner is the printer of `SortsRoundTrip` |
| QuerySortText.TrimAround | app/components/queryfilter/sort.go:15-24 | trimming takes off the white space around a text, all of it and nothing else |
| QuerySortText.SignedPart | app/components/queryfilter/sort.go:23-41 | with white space around it, `-name` is descending and `+name` ascending; a sign alone is no key |
| QuerySortText.UnsignedPart | app/components/queryfilter/sort.go:23-41 | a name without a sign is ascending; an empty part is no key |
| QuerySortText.SortsRoundTrip | app/components/queryfilter/sort.go:14-44 | a key list comes from some sort string iff its names are not empty, have no comma and do not end in white space, and then parsing its print returns it |
| QueryFind.ToOption | app/components/queryfilter/option.go:19-32 | succeeds iff the query is valid, and then captures the plan: conditions, database order, which in-memory steps are needed; a bad filter is reported before a bad sort key |
| QueryFind.InMemoryPass | app/components/queryfilter/option.go:316-344 | keeps exactly the rows the tree evaluates to true for, in order, then sorts them stably |
| QueryFind.Find | app/repositories/database_repository.go:136-148 | all conditions and orders of all options reach one database query, then every in-memory pass runs in option order |
| QueryFind.OptionsInOrder | app/repositories/database_repository.go:49-69 | conditions, directions and in-memory passes of a list of options are those of its parts, one after the other |
| QueryFind.NoLostRow | app/components/queryfilter/option.go:142-406 | a row for which the whole tree is TRUE survives the pushed conditions and the in-memory pass, whatever the tree |
| QueryFind.PushdownExact | app/components/queryfilter/option.go:142-406 | under the exactness condition a row survives iff the whole tree is TRUE for it |
| QueryFind.MixedOrLeaks | app/components/queryfilter/option.go:388-390 | a concrete valid query with a mixed OR keeps a row for which the tree is FALSE |
| QueryFind.FoundSurvivors | app/repositories/database_repository.go:49-69 | the rows of a query with several options are those that survive every option, each as often as in the table |
| QueryFind.FindExact | app/repositories/database_repository.go:136-148 | several exact queries combined return exactly the rows that match all of them, as a multiset |
| QueryFind.FindLosesNothing | app/repositories/database_repository.go:136-148 | several queries combined return at least every row that matches all of them |
| QueryOrder.SortTwice | app/components/queryfilter/option.go:336-340 | sorting stably by one order and then by another is sorting once by the second and, among its equals, the first |
| QueryOrder.LaterSortsFirst | app/repositories/database_repository.go:63-69 | the merged keys of a list of options are those of its later part followed by those of its earlier part |
| QueryOrder.FindOrder | app/repositories/database_repository.go:63-69 | several options return what the database selected, less what an in-memory filter rejects, in the stable order of all in-memory keys, those of the last option first |
| QueryOrder.FindExactInOrder | app/repositories/database_repository.go:136-148 | for exact queries without database order the result is the one stable order of the matching rows of the table |
| QueryFind.FindUnsorted | app/repositories/database_repository.go:136-148 | one exact unsorted query returns the matching rows in table order |
| QueryFind.FindInDatabaseOrder | app/repositories/database_repository.go:136-148 | one query not sorted in memory returns what the database returned, less the rows the in-memory filter rejects, so every order the database gave survives |
| QueryFind.FindSorted | app/components/queryfilter/option.go:316-344 | one exact query sorted in memory returns the stable order of the matching rows by the keys that have comparators, and nothing else is it |
| QueryEndToEnd.ParsedLeafIsEvaluated | app/components/queryfilter/option.go:202-223 | in a parsed, validated filter only a failing SQLExpr can drop a leaf; the unsupported-operator error cannot arise |
| QueryEndToEnd.MatchesWhatIsAsked | app/components/queryfilter/option.go:142-271 | a row matches a request's filter string iff the tree, its operators asked of the row's columns and its FilterFns of the row, is TRUE |
| QueryEndToEnd.FindRequested | app/components/queryfilter/request.go:9-16 | from filter and sort string to rows: refused iff the filter does not parse or something is not allowed; no TRUE row is lost and an exact tree finds exactly the TRUE rows; in the database's order when no key has a comparator, which is the table's when there are no keys, else for an exact tree in the one stable order of the keys that have comparators |
| CompositeKeys.DecimalInjective | app/models/helper_lazy.go:846 | different numbers have different decimal strings |
| CompositeKeys.JoinKeyInjective | app/models/helper_lazy.go:853 | among key tuples of one length, the decimal strings joined with ":" identify the tuple |
| LazyHasMany.Querier.FindHasMany | app/repositories/lazy_db_registry.go:24-26 | the rows whose key column equals the value, or a failure |
| LazyHasMany.Querier.FindHasManyIn | app/repositories/lazy_db_registry.go:36-38 | the rows whose key column equals one of the values, or a failure |
| LazyHasMany.Parent.LazyHasMany | app/models/helper_lazy.go:222-280 | returns the cache, or queries once; a nil reference caches an empty slice and a failure caches nothing |
| LazyHasMany.ReadIsRemembered | app/models/helper_lazy.go:222-280 | a successful read is remembered, so the next asks nothing and returns the same; a failed one leaves nothing |
| LazyHasMany.GroupItems | app/models/helper_lazy.go:712-743 | exactly the uncached objects with a non-nil, non-zero reference, each under its reference, each reference once |
| LazyHasMany.GroupRows | app/models/helper_lazy.go:754-772 | each key's group is the rows with that key in query order; NULL keys are dropped |
| LazyHasMany.Distribute | app/models/helper_lazy.go:774-787 | every served object, duplicates included, gets its key's group or an empty slice, and no other cache changes |
| LazyHasMany.EagerHasMany | app/models/helper_lazy.go:699-788 | the resulting cache of every object, on success and on failure; at most one query, and none iff there is nothing to serve |
| LazyHasMany.EagerAgreesIff | app/models/helper_lazy.go:690-788 | on every table of children an object reads after a batch, failed or not, what it would have read lazily, iff the batch does not serve it, or it succeeded and the database tells the object's key from every other key as Go does |
| LazyHasMany.CollationMissesChild | app/models/helper_lazy.go:696-698 | under a case-insensitive equality an object with key "abc" reads its child with key "ABC" lazily and not eagerly |
| LazyHasMany.LaterQueries | app/models/helper_lazy.go:714-787 | after a batch only an uncached object with a zero reference queries again |
| LazyHasMany.FailureAgreesIff | app/models/helper_lazy.go:749-752 | a failed batch hides the children of exactly the objects it served, whatever the equality, while a failed lazy read leaves the cache empty for the next |
| LazyHasMany.FailedBatchHidesChild | app/models/helper_lazy.go:749-787 | one failed batch over an object with one child: the child is hidden and never queried for again |
| LazyComposite.BuildFKConditions | app/models/helper_lazy.go:372-388 | one value per key column, or none when any reference is nil |
| LazyComposite.Querier.FindHasManyComposite | app/repositories/lazy_db_registry.go:40-44 | the rows equal on every key column and within the scope |
| LazyComposite.Querier.FindHasManyInComposite | app/repositories/lazy_db_registry.go:52-61 | the rows whose key tuple is in the list and that are within the scope |
| LazyComposite.Parent.LazyHasMany | app/models/helper_lazy.go:222-280 | as for one key, by tuple and scope |
| LazyComposite.KeyValues | app/models/helper_lazy.go:826-851 | the uint64 key tuple of an object, none at a nil or zero reference |
| LazyComposite.GroupItems | app/models/helper_lazy.go:817-856 | exactly the objects to serve, each under its key string, with one tuple per string |
| LazyComposite.TupleList | app/models/helper_lazy.go:862-865 | the tuples sent are exactly the tuples collected |
| LazyComposite.GroupRows | app/models/helper_lazy.go:872-887 | each key string's group is the rows with that string, in query order |
| LazyComposite.FetchedGroup | app/models/helper_lazy.go:867-887 | grouping the tuple query's rows by string gives exactly the rows equal to the tuple and within the scope |
| LazyComposite.EagerHasManyComposite | app/models/helper_lazy.go:794-903 | the resulting cache of every object, on success and on failure; at most one query, and none iff there is nothing to serve |
| LazyComposite.NegativeMatchesNothing | app/models/helper_lazy.go:908-914 | the cast turns a tuple with a negative id into one that matches no row |
| LazyComposite.EagerAgreesIff | app/models/helper_lazy.go:790-903 | on every table and scope an object reads after a batch, failed or not, what it would have read lazily, iff the batch does not serve it, or it succeeded and none of its ids is negative |
| LazyComposite.AgreesOnTable | app/models/helper_lazy.go:867-902 | on a given table what a batch hides is exactly the children of a served object whose batch failed or that has a negative id |
| LazyComposite.NegativeMissesChild | app/models/helper_lazy.go:908-914 | an object with id -1 reads its child lazily and not eagerly |
| LazyComposite.LaterQueries | app/models/helper_lazy.go:820-851 | after a batch only an uncached object with a zero and no nil reference queries again |
| LazyBelongsTo.ResolveBelongsTo | app/models/helper_lazy.go:155-208 | the row with the key as id; none for a nil or zero key, a missing row or a failure |
| LazyBelongsTo.Child.LazyBelongsTo | app/models/helper_lazy.go:342-367 | returns the cache, or resolves once and caches only what was found |
| LazyBelongsTo.GroupItems | app/models/helper_lazy.go:633-655 | exactly the uncached objects with a non-nil, non-zero key, under its uint64 value |
| LazyBelongsTo.IndexRows | app/models/helper_lazy.go:668-672 | every fetched row is found under its id and nothing else is |
| LazyBelongsTo.EagerBelongsTo | app/models/helper_lazy.go:619-688 | the resulting cache of every object, pre-filled ones untouched; at most one query, and none iff there is nothing to serve |
| LazyBelongsTo.EagerAgrees | app/models/helper_lazy.go:619-688 | for any key (shared, nil, zero, dangling, negative), after a batch that succeeded or failed, an object reads the parent it would have read lazily |
| LazyBelongsTo.LaterQueries | app/models/helper_lazy.go:676-687 | after a successful batch only dangling and negative keys query again |
| LeaseProtocol.InvStep | app/worker/service.go:571-633 | every single step keeps: at most one node holds the lock or is about to delete the key, and the key is the entry it wrote |
| LeaseProtocol.MutualExclusion | app/worker/service.go:546-633 | on every interleaving of single Redis calls by any number of nodes, if no holder outlives its lease, at most one node holds the lock |
| LeaseProtocol.BreakableIff | app/worker/service.go:571-633 | from a state of the invariant the next step can make two nodes hold the lock iff a holder has outlived its lease while another node waits |
| LeaseProtocol.ExclusionBreaksIff | app/worker/service.go:546-633 | the same for every run on which the leases were kept so far: a kept lease is sufficient, and nothing less is |
| LeaseProtocol.BrokenRunWasLate | app/worker/service.go:546-633 | on any run, a broken invariant goes back to a first moment at which a node still able to write the key had outlived its lease while another waited |
| LeaseProtocol.OverrunBreaksExclusion | app/worker/service.go:578-587 | a run in which `runner.Start` outlasts the lease and two nodes hold the lock |
| LeaseProtocol.OverlapIff | app/worker/service.go:597-633 | a step makes two runners active iff it starts one while another node has given up the lock and not shut down yet |
| LeaseProtocol.OverlapIsLeaving | app/worker/service.go:597-633 | on every run with the leases kept, of two active runners one belongs to a node about to shut it down |
| LeaseProtocol.RunnersOverlap | app/worker/service.go:623-631 | a run with every lease kept in which `release` lets two runners overlap |
| LeaseProtocol.LostRunnersOverlap | app/worker/service.go:597-604 | a run with every lease kept in which `keepAlive` does |
| LeaseProtocol.OrphanedForever | app/worker/service.go:571-584 | once the key stands without an expiry and no node is going to write it, no node holds the lock at any later point of any run |
| LeaseProtocol.OrphansIff | app/worker/service.go:571-595 | a step leaves the key without an expiry and without a writer iff no other node may write it and an applied SETNX erred, or the winner crashed before its SETEX was applied, or the DEL after a failed SETEX was not applied |
| LeaseProtocol.OrphanedIff | app/worker/service.go:571-595 | on every run with the leases kept the key is orphaned iff one of the steps was such a step |
| LeaseProtocol.LostReplyOrphans | app/worker/service.go:572-576 | a run of the first kind |
| LeaseProtocol.CrashOrphans | app/worker/service.go:578-579 | a run of the second kind |
| LeaseProtocol.LostDeleteOrphans | app/worker/service.go:579-584 | a run of the third kind |
| LeaseProtocol.AtomicRunsOwn | app/worker/service.go:546-633 | with atomic ticks and distinct hosts, a node about to write the key is the one the live key names |
| LeaseProtocol.NoTheft | app/worker/service.go:597-633 | with atomic ticks and arbitrary pauses no node changes a live key that names another |
| LeaseProtocol.NoTheftWhileLeased | app/worker/service.go:571-633 | on every run with the leases kept, ticks atomic or not, no step changes a live key that names another host |
| LeaseProtocol.TheftFollowsIff | app/worker/service.go:597-633 | at the end of such a run a theft can follow the next step iff a node about to write has just outlived its lease and another host waits |
| LeaseProtocol.TheftWasLate | app/worker/service.go:571-633 | on any run a theft goes back to a first moment at which a node still able to write had outlived its lease while another waited |
| LeaseProtocol.PausedRenewalSteals | app/worker/service.go:598-606 | a run in which a pause between GET and SETEX takes the lock back from the node that won it |
| LeaseProtocol.OneRightfulHolder | app/worker/service.go:597-602 | on any run with distinct hosts, of the nodes that hold `acquired` all but one are stale, so their next tick makes them step down |
| LeaseProtocol.StaleHolderStepsDown | app/worker/service.go:597-603 | on every run with distinct hosts, a holder the key no longer names stays so while it holds, its next GET writes nothing, and its action after that is to shut its runner down |
| LeaseProtocol.StartsAndShutdownsAlternate | app/worker/service.go:571-633 | on every life of a manager successful Starts and Shutdowns strictly alternate, and nothing runs after Stop |
| LeaseManager.Manager.TryAcquire | app/worker/service.go:571-595 | acquired iff the calls are SETNX won, SETEX, Start, all without error; otherwise a lost or erring SETNX alone, or the failure followed by DEL; and one tick of the protocol |
| LeaseManager.Manager.KeepAlive | app/worker/service.go:597-613 | still acquired iff the calls are GET naming this host and SETEX without error; otherwise the failing call and Shutdown; and one tick of the protocol |
| LeaseManager.Manager.Manage | app/worker/service.go:546-569 | one attempt and one tick per ticker event, each with the calls of an attempt or of a renewal as the manager was or was not acquired, and nothing else |
| LeaseManager.Manager.Release | app/worker/service.go:615-633 | no call when not acquired; else GET, DEL only when the key names this host, and Shutdown |
| LeaseManager.Manager.StartManageStop | app/worker/service.go:536-544 | a whole life, whatever the answers: ticks, then release; Starts and Shutdowns alternate and are equally many |
| TransactionRetry.TransactionRetryBackoffs | app/repositories/database_repository.go:394-416 | exactly maxRetries entries, the i-th being 50 ms × 2^i in wrapping int64 arithmetic |
| TransactionRetry.DelayFitsIff | app/repositories/database_repository.go:394-416 | an entry is 50 ms × 2^i without overflow iff i ≤ 37 |
| TransactionRetry.SumOfDelays | app/repositories/database_repository.go:394-416 | the first n ≤ 38 entries sum to 50 ms × (2^n − 1) |
| TransactionRetry.WithTransactionRecovery | app/repositories/database_repository.go:377-392 | an error or a panic of the body is rolled back exactly once and becomes the error |
| TransactionRetry.Retry | app/repositories/database_repository.go:161-176 | retries iff the error is retryable, an attempt is left and the wait is not cancelled; otherwise which error is final |
| TransactionRetry.TryOnce | app/repositories/database_repository.go:261-314 | the events of one attempt and its verdict: an error that may be retried, or the end of the run by commit, cancellation or a panic of begin or Commit |
| TransactionRetry.Iterate | app/repositories/database_repository.go:260-315 | one iteration stays on the course of the run or ends it with the run's result |
| TransactionRetry.WithTransactionRetryContext | app/repositories/database_repository.go:249-318 | ending and event trace of a run; a missing context does nothing; falling out of the loop is impossible |
| TransactionRetry.EveryRunIsGood | app/repositories/database_repository.go:249-318 | on every run: at most one open transaction, each closed properly unless its Commit panics, at most max(1, maxRetries) attempts, waits by the backoff list, and the ending told by how the trace ends; a retryable error is final only after the last attempt |
| TransactionRetry.AttemptEvents | app/repositories/database_repository.go:261-314 | the events of an attempt, case by case, in terms of what begin, body, commit and the context answer; a panicking body is an error and is rolled back |
| TransactionRetry.RunFollowsScript | app/repositories/database_repository.go:249-318 | a run makes its attempts one after the other, with the backoff waits between, up to the first that does not fail retryably; it returns nil iff that one succeeded at begin, body and Commit without cancellation, and otherwise its error, the cancellation or its panic |
| TransactionRetry.CommitsAreEarned | app/repositories/database_repository.go:283-303 | a run commits iff its last attempt succeeded at all three, so never after a body that failed or panicked |
| TransactionRetry.OpenedAreClosed | app/repositories/database_repository.go:272-314 | begins are commits plus rollbacks plus the one that is open; a commit, and a panic of Commit, is the last event |
| TransactionRetry.NothingAfterCancellation | app/repositories/database_repository.go:298-301 | after cancellation was seen only the rollback of the open transaction follows |
| TransactionRetry.NilIffCommitted | app/repositories/database_repository.go:249-318 | nil iff the last event is a commit, which is the only one; every begun transaction was closed exactly once, but for one whose Commit panicked |
| TransactionRetry.LeavesOpenIff | app/repositories/database_repository.go:303-312 | with a given Commit some run leaves a transaction open iff that Commit panics at an allowed attempt |
| TransactionRetry.PanickingCommitLeaks | app/repositories/database_repository.go:303-312 | a run that does |
| TransactionRetry.TotalWait | app/repositories/database_repository.go:394-416 | a run of n ≤ 39 attempts waits at most 50 ms × (2^(n−1) − 1) |
| IdCipher.UnpadPad | app/components/crypto/crypto.go:143-149 | removing the padding undoes padding |
| IdCipher.PadUnpad | app/components/crypto/crypto.go:215-227 | whole blocks that pass the padding checks are the padding of what they unpad to |
| IdCipher.EcbInverse | app/components/crypto/crypto.go:205-209 | block by block, an inverse of the block function inverts whole texts |
| IdCipher.EcbAt | app/components/crypto/crypto.go:158-162 | block k of the result is block k of the text through the cipher |
| IdCipher.ThroughBlocks | app/components/crypto/crypto.go:158-162 | the buffer loop transforms every block, in place and order, and nothing else |
| IdCipher.RemovePadding | app/components/crypto/crypto.go:215-227 | accepts exactly well-formed padding and cuts exactly it off |
| IdCipher.KeyCache.GetKey | app/components/crypto/crypto.go:69-91 | the derived key whether cached or not, and only that is cached |
| IdCipher.KeyNameOf | app/components/crypto/crypto.go:69-70 | the name a key is derived from, "1.0" standing in for no version |
| IdCipher.KeyTypesApart | app/components/crypto/crypto.go:69-70 | keys of different types are derived from different names |
| IdCipher.KeyCache.Encrypt | app/components/crypto/crypto.go:134-165 | the encoded ECB text of the padded data; empty data is refused |
| IdCipher.KeyCache.Decrypt | app/components/crypto/crypto.go:180-228 | which of the five errors, or the unpadded data |
| IdCipher.KeyCache.EncryptId | app/components/crypto/crypto.go:105-109 | the eight big-endian bytes of the id, encrypted |
| IdCipher.FirstByteWeighsMost | app/components/crypto/crypto.go:105-108 | the bytes of an id are big-endian |
| IdCipher.KeyCache.DecryptId | app/components/crypto/crypto.go:118-131 | the signed id of eight decrypted bytes, any other length refused |
| IdCipher.DecryptIffEncrypted | app/components/crypto/crypto.go:134-228 | bytes decrypt to data iff they are the encryption of that data |
| IdCipher.DecryptErrors | app/components/crypto/crypto.go:180-227 | which error decryption reports, in terms of the text: bad padding iff the bytes are whole blocks that encrypt nothing |
| IdCipher.DecryptIdErrors | app/components/crypto/crypto.go:118-131 | an id is refused with its text's error, or because it is not eight bytes |
| IdCipher.EncryptDecrypt | app/components/crypto/crypto.go:134-228 | decrypting an encrypted text gives the non-empty data back, and an accepted text decodes to the bytes its data encrypts to |
| IdCipher.IdRoundTrip | app/components/crypto/crypto.go:101-131 | every int64 id round-trips, negative ones included |
| IdCipher.IdTextsDistinct | app/components/crypto/crypto.go:105-109 | different ids have different texts |
| IdCipher.AcceptedIdIsCanonical | app/components/crypto/crypto.go:118-131 | an accepted id text decodes to exactly the bytes its id encrypts to |
| PortBlocks.BlockIsAvailable | evaluate/scripts/worktree-ports.sh:159-171 | true iff none of the six ports is listening or in another worktree's file |
| PortBlocks.ProbeVisitsAll | evaluate/scripts/worktree-ports.sh:186-190 | from any base in range the wrap-around probe visits every base of 20000..60994 exactly once |
| PortBlocks.ProbeOrder | evaluate/scripts/worktree-ports.sh:186-190 | probing begins at the start and goes up one base at a time, from 60994 on to 20000 |
| PortBlocks.Probe | evaluate/scripts/worktree-ports.sh:186-204 | the first free candidate, or none when no candidate is free |
| PortBlocks.StartOf | evaluate/scripts/worktree-ports.sh:173-187 | a request in range is where probing starts, read in octal when it has a leading zero, in which 8 and 9 are errors; one out of range is replaced by a base in range derived from the worktree |
| PortBlocks.Allocate | evaluate/scripts/worktree-ports.sh:127-207 | an existing file is returned whatever is requested; otherwise an error that changes nothing, or the first free block written down |
| PortBlocks.FailsIffFull | evaluate/scripts/worktree-ports.sh:186-207 | from a start in range, allocation fails iff no base is free, and allocates within the range |
| PortBlocks.BlocksStayDisjoint | evaluate/scripts/worktree-ports.sh:133-207 | over every history of non-overlapping allocations and clean-ups all live blocks are pairwise disjoint, and within 20000..60999 when every probe started in range |
| PortBlocks.OverlapKeepsDisjointIff | evaluate/scripts/worktree-ports.sh:186-204 | when two runs both probe before either writes, all live blocks stay disjoint iff each would have found the same block after the other had written |
| PortBlocks.OverlapOfFreeStarts | evaluate/scripts/worktree-ports.sh:173-204 | when both start in range on a free block, the overlap is safe iff those two blocks are disjoint |
| PortBlocks.SameStartCollides | evaluate/scripts/worktree-ports.sh:186-204 | from the same start two overlapping runs take the same block |
| PortBlocks.StartsInRangeIff | evaluate/scripts/worktree-ports.sh:173-187 | a probe starts out of range iff the request passes the range test, has a leading zero and is below 20000 in octal |
| PortBlocks.OctalStart | evaluate/scripts/worktree-ports.sh:182-187 | `020000` passes the test and is given the block at 8192 |

## Left out

- QueryPlan.SplitExactIff: the "only if" half is for pairwise distinct leaves; which trees with repeated leaves are harmless, as `RepeatedLeafHarmless` is, is not characterised.
- QueryFind.FindExact: only the rows; their order is `QueryOrder.FindOrder`, in which the database's own order stays abstract.
- QueryLeak.PlannedRightIff: for pushed leaves with pairwise distinct conditions; two leaves that coerce to one condition are not independent.
- LeaseProtocol.MutualExclusion: that a lease is kept in time is a hypothesis on the run, which `ExclusionBreaksIff` shows to be needed; the wall clock, `select` and the ticker are not modelled.
- LeaseProtocol.NoTheft: for atomic ticks; for others `NoTheftWhileLeased` and `TheftFollowsIff` say when.
- LeaseManager.Manager.Manage: the number of ticks is a parameter, the mutex and the goroutine are not modelled.
- TransactionRetry.TotalWait: stops at 39 attempts because the next delay overflows.
- PortBlocks.BlocksStayDisjoint: for runs that do not overlap in time; for two that do see `OverlapKeepsDisjointIff`.
- QueryColumn.MatchingMeans: for values without `%`, `_` and backslash, which LIKE reads as wildcards; the source does not escape them.
- LogicalNode operators other than AND and OR, and nil children of a node, which only hand-built trees have.
- FilterFn, SQLExpr, `strconv` and the SQL dialect's quoting are parameters; the Unicode tables are an `Alphabet` with the ASCII facts every version has; input starts as runes, so invalid UTF-8 is not modelled.
- GORM: a table is a sequence of rows, `Where` calls are a conjunction, ORDER BY is any permutation, and without ORDER BY rows are assumed to come in table order, which SQL does not promise; rows returned together with an error are not modelled.
- `sort.SliceStable` is its contract; updates in place through shared backing arrays of slices are not modelled.
- Pagination, `First` and `FirstWhere`: LIMIT applies before the in-memory filter, and options with a limit are not modelled.
- Reflection, tag parsing, missing setters and unregistered lazy queriers; keys and kinds are given as data. `LazyHasOne`, `ResolveHasMany`, `Reload` and options passed to `LazyHasMany` are not modelled, nor is the identity of loaded child objects (children are values).
- A driver that rejects uint64 arguments with the high bit set; comparison with such an argument is numeric.
- A nullable key column of a composite association: the batch loader reads it as a plain id.
- Redis commands that take effect after a client timeout and out of order; a failed call is applied at once or never.
- A panic during rollback, after which the state of the transaction is unknown, and a rollback error, which the source only logs.
- AES, SHA-256 and base62 are an invertible block function, a derivation and a lossless codec; concurrent use of the key cache is not modelled.
- Port probing with `nc` is a set of listening ports; numerals of 2^63 and above and the cksum hash itself are not modelled.
- `Save`, `SaveRetry`, `Upsert`, `FirstOrCreate`, Cassandra, HTTP, job processing, configuration and tables of constants: input/output or easy members.
