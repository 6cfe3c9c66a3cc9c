# A verified model of the APIM MCP server's logic

The server looks like a thin Azure client, but several of its parts carry real state, loops and
interleavings. This project models those parts in Dafny 4.11 and proves what they promise, for all
inputs, all event streams and all interleavings. Check it with `dafny verify dfyconfig.toml`.

- **Schema walk** (`JsonDocument`, `SchemaWalker`, `SchemaReachability`, `OperationNames`, `SchemaMeaning`, `NameLists`).
  The walk over possibly cyclic `$ref` graphs with a depth cap that references do not advance, a
  path-scoped cycle guard and a shared budget of 200 names. It terminates on every document; the
  guard loses nothing; and the in-place walk is the first 200 entries of a pure preorder.
- **Service build** (`ServiceBuild`). The concurrent index build as a transition system whose steps are
  the stretches between two awaits, with a semaphore, a deadline and cancellation.
- **Index lifecycle** (`IndexLifecycle`). Startup, TTL and forced builds that race for one index per alias.
- **Ranking** (`Ranking`). Two sorts and a deduplication against one stable sort.
- **Tokens and weighted text** (`Tokenizer`, `SearchText`). A printer and a parser whose round trip makes the
  field weights real corpus frequencies.
- **KQL preambles** (`KqlStrings`, `KqlDeclarations`, `GatewayLogQueries`). User values are printed as
  JSON strings (section 7 of RFC 8259) with one more escape; an independent reader gets them all back.
- **Error codes** (`ErrorCodes`). A worklist over nested query errors against the tree it walks.
- **Session events and tail reading** (`SessionEvents`, `SessionRuns`, `TailReader`). A stateful parser
  against a description read off the event stream, and a reader that does not care how a file arrives.
- **List envelopes and pagination** (`ListEnvelope`, `Pagination`). Byte-exact sizes before and after
  the metadata is rewritten, and following `next_offset` to the end.
- **Redaction of free text** (`RedactionTokens`, `NamedValues`, `RedactionPasses`, `Redaction`, `RedactionMatches`,
  `RedactionReferences`, `RedactionScan`, `RedactionSurvival`, `RedactionResult`). What the four patterns match and
  replace, and exactly which named-value references survive them.
- **Metadata cache** and **ARM listing** (`MetadataCache`, `ArmListing`). A double-checked lock with any
  number of callers; paged, retried listing against an arbitrary server.

## How the model is built

Code that changes state step by step is a method or a class with the same fields (`NameCollector`,
`Build`, `IndexManager`, `SessionEventParser`, `TextStream`, `AuthorizationServerMetadataCache`, and the
loops of `_resolve_ref`, `tokenize`, `_compose_search_text`, `search`, `apply_truncation`, `list_all`, `_send`, `_error_codes`
and `_restore_named_values`). Each is proved against a specification function, and the lemmas are about
that function. Concurrent parts pair such a class with a `Step` datatype: every method is one step, and
the theorems quantify over all runs, that is, over all orders of steps.

What the program gets from outside is a parameter: responses, timestamps and clock readings, the JSON
decoder of event lines, random token bodies, the non-ASCII part of Python's `\w` and `\s`.
A Python dict keeps its order, so a JSON object is a sequence of fields. A Dafny `char` is a Unicode
scalar value. Scores are compared only, so they are arbitrary real numbers.

Functions that a method and its specification share are also described from the outside, with the
program's own constants: what a reference resolves to, what a pattern matches, when an index is stale.

## Where the code does less than its documentation says

- The development documentation promises a size ceiling for every response. The code measures a whole
  envelope before it adds `truncated`, so such a response may exceed the ceiling by up to 18 bytes
  (`ListEnvelope.UntruncatedSize`, with an example in `ListEnvelope.UntruncatedCanExceed`). A truncated
  response can exceed it in two ways: rewriting `has_more` and `next_offset` may lengthen the metadata of
  the items it keeps, which needs an offset of about 100000 (`ListEnvelope.CeilingCanBeMissed`), and a
  page without any item left is returned however small the ceiling is (`ListEnvelope.EmptyPageCanExceed`).
  `ListEnvelope.CeilingHoldsExactlyWhen` gives the exact condition for every call.
- A page that does not fit as a whole, nor with its first item alone, is returned empty and points at itself,
  so a client that follows `next_offset` never finishes. `Pagination.WalkEndsExactlyWhenItemsFit` says in
  sizes exactly when that happens, and `Pagination.AWalkThatNeverEnds` gives such a list for every ceiling.
- The comment on `_NAMED_VALUE_RE` says that references survive untouched, and the docstring of
  `redact_free_text` that they survive. `sig={{a}}` loses its reference (`RedactionResult.AReferenceIsLost`),
  and a control character inside a reference is stripped (`RedactionResult.AReferenceIsAltered`). In general
  all references survive untouched if and only if none lies inside the value of a `sig=` or `sv=` whose name
  stands on a word boundary and is not part of a JWT, and none holds a character that is stripped
  (`RedactionResult.AllUntouchedExactlyWhen`; for one reference `RedactionResult.LostExactlyInsideValue`).

## Model

| member | source | states |
|---|---|---|
| JsonDocument.ResolveRef | src/apim_mcp/index/builder.py:90-99 | the resolution loop computes the recursive descent along the split reference, with the same failures |
| JsonDocument.ResolveExactly | src/apim_mcp/index/builder.py:90-99 | a reference resolves to an object if and only if it spells out, after `#/`, keys that lead there one object at a time |
| JsonDocument.ResolveFollowsKeys | src/apim_mcp/index/builder.py:90-99 | for keys without a slash, the reference that spells them out resolves exactly to the object at the end of a chain of fields with these keys |
| JsonDocument.ResolveIsInside | src/apim_mcp/index/builder.py:90-99 | a resolved node brings no `$ref` that the document does not have |
| SchemaWalker.FollowingShrinks | src/apim_mcp/index/builder.py:114-127 | following a reference strictly shrinks the set of references still to follow: why cycles end |
| SchemaWalker.DescendingKeeps | src/apim_mcp/index/builder.py:130-164 | every sub-schema is smaller and opens no new reference: the other half of the termination measure |
| SchemaWalker.NameCollector.Offer | src/apim_mcp/index/builder.py:136-138 | appends a new name and takes one from the budget, so that names plus budget stay 200 without duplicates |
| SchemaWalker.CollectPropertyNames | src/apim_mcp/index/builder.py:102-164 | the in-place recursive walk terminates on every document and adds exactly what the unbudgeted pure walk visits, up to the budget |
| SchemaWalker.CollectSubSchemas | src/apim_mcp/index/builder.py:130-164 | properties, then items, then the three variant lists, in that order |
| SchemaWalker.CollectProperties | src/apim_mcp/index/builder.py:130-146 | the property loop with its early return once the budget is spent |
| SchemaWalker.CollectVariants | src/apim_mcp/index/builder.py:154-164 | the variant loop, which does not advance the depth |
| SchemaWalker.AbsorbedWhenFull | src/apim_mcp/index/builder.py:111-135 | stopping early loses nothing: once 200 names are there no remaining edge changes the list |
| SchemaReachability.ReachesFromAbove | src/apim_mcp/index/builder.py:111-164 | a path that works at some depth works at any smaller depth |
| SchemaReachability.CutLoop | src/apim_mcp/index/builder.py:114-127 | between two visits to the same reference a path can be cut without losing its end |
| SchemaReachability.ReachedIsVisited | src/apim_mcp/index/builder.py:102-164 | the guarded walk visits whatever a path reaches that follows no reference already seen |
| SchemaReachability.VisitedIsReached | src/apim_mcp/index/builder.py:102-164 | whatever the guarded walk visits some path reaches within depth 3 |
| SchemaReachability.GuardLosesNothing | src/apim_mcp/index/builder.py:114-117 | the visited names are exactly those any path reaches, with references repeated freely |
| OperationNames.OperationPropertyNames | src/apim_mcp/index/builder.py:217-225 | all schemas of an operation yield the first 200 entries of the duplicate-free preorder of the unbudgeted walks |
| OperationNames.NamesAreExactWithinBudget | src/apim_mcp/index/builder.py:217-225 | the list holds min(200, distinct) names and is all reachable names if and only if at most 200 distinct ones are reachable |
| SchemaMeaning.VisitedExactlyWhenArrived | src/apim_mcp/index/builder.py:102-164 | a name is visited if and only if moves through `$ref`, `properties`, `items`, `allOf`, `oneOf` and `anyOf`, of any number, arrive at it within depth 3 |
| SchemaMeaning.VisitsInOrder | src/apim_mcp/index/builder.py:130-164 | the preorder said of the keywords: each property name before the names in its schema, then items, then the three variant lists; only properties and items go deeper |
| SchemaMeaning.VisitsOfRef | src/apim_mcp/index/builder.py:111-128 | a reference not yet followed yields what its target does, at the same depth |
| SchemaMeaning.VisitsOfDeadRef | src/apim_mcp/index/builder.py:114-128 | a reference already followed, or one that does not resolve, yields nothing |
| SchemaMeaning.NamesInOrder | src/apim_mcp/index/builder.py:217-225 | the at most 200 names of an operation come in the order in which the walk first visits them |
| NameLists.AbsorbIsPrefix | src/apim_mcp/index/builder.py:136-138 | adding unseen names while the budget lasts truncates the list of first occurrences |
| ServiceBuild.Build.constructor | src/apim_mcp/index/builder.py:424-426 | a build starts with empty lists, a full semaphore and every task waiting |
| ServiceBuild.Build.AcquireSlot | src/apim_mcp/index/builder.py:337 | entering the semaphore is one step of the transition system |
| ServiceBuild.Build.AfterOperations | src/apim_mcp/index/builder.py:339-348 | a failed operations list counts once, gives up the slot and adds nothing |
| ServiceBuild.Build.AfterExport | src/apim_mcp/index/builder.py:350-377 | the append loop adds one whole block, with property names only from an exported document, and counts a failed export once |
| ServiceBuild.Build.Cancel | src/apim_mcp/index/builder.py:452-453 | cancellation at any await frees the slot the task held and adds nothing |
| ServiceBuild.Build.AfterWait | src/apim_mcp/index/builder.py:445-453 | after the deadline exactly the unfinished tasks are cancelled, or the build returns whole |
| ServiceBuild.Build.AfterGather | src/apim_mcp/index/builder.py:451-454 | a build with cancelled tasks returns as partial after all of them ended |
| ServiceBuild.BlockIsWhole | src/apim_mcp/index/builder.py:364-377 | a block is one entry per operation, in order, with the property names of the exported document, or none without one |
| ServiceBuild.StepKeepsInvariant | src/apim_mcp/index/builder.py:324-377 | every step of every task keeps the counts, the whole blocks and the control state |
| ServiceBuild.ConcurrencyIsBounded | src/apim_mcp/index/builder.py:426 | in every interleaving at most max_concurrency APIs are inside the semaphore |
| ServiceBuild.EntersExactlyWhenFree | src/apim_mcp/index/builder.py:337 | a waiting API can enter the semaphore exactly when fewer than max_concurrency are inside |
| ServiceBuild.DeadlineCancelsUnfinished | src/apim_mcp/index/builder.py:445-453 | at the deadline exactly the unfinished APIs are cancelled, and the build is partial exactly when there are any |
| ServiceBuild.ReturnedBuildIsConsistent | src/apim_mcp/index/builder.py:441-459 | in every interleaving a returned build holds each indexed API once and whole, its failure count is the number of failed APIs, and not partial means no API was cut off |
| ServiceBuild.NothingRunsAfterReturn | src/apim_mcp/index/builder.py:451-454 | no task can touch the shared lists after the build has returned |
| ServiceBuild.RunsAreShort | src/apim_mcp/index/builder.py:380-459 | no interleaving takes more than three steps per API and two of its own |
| ServiceBuild.NoDeadlock | src/apim_mcp/index/builder.py:445-454 | a build that has not returned can always take a step, even with an empty semaphore |
| IndexLifecycle.IndexManager.constructor | src/apim_mcp/index/search.py:134-148 | no index, no held lock, no accepted refresh |
| IndexLifecycle.IndexManager.BeginBuild | src/apim_mcp/index/search.py:155-161 | a build starts exactly when no other holds the lock of its alias |
| IndexLifecycle.IndexManager.EndBuild | src/apim_mcp/index/search.py:162-186 | releases the lock; installs the new index, or changes no index when the build failed |
| IndexLifecycle.IndexManager.Refresh | src/apim_mcp/index/search.py:292-312 | all aliases are checked before any is stamped; a refusal changes nothing |
| IndexLifecycle.IndexManager.KickOffBackgroundRefresh | src/apim_mcp/index/search.py:207-211 | the loop creates the builds of StaleAliases and awaits none |
| IndexLifecycle.StaleAliasesAre | src/apim_mcp/index/search.py:201-211 | these are, in order and position by position, exactly the aliases that are not installed or were built at least the time to live ago |
| IndexLifecycle.SearchBuildsStale | src/apim_mcp/index/search.py:201-211 | a search step creates exactly the builds of its stale aliases and changes nothing else |
| IndexLifecycle.OtherStepsCreate | src/apim_mcp/index/search.py:188-199 | startup and accepted refreshes create one build per alias, refused refreshes and all other steps none |
| IndexLifecycle.BuildStartsExactlyWhenIdle | src/apim_mcp/index/search.py:155-161 | a created task starts its build exactly when no build of its alias is in flight |
| IndexLifecycle.StepKeepsInvariant | src/apim_mcp/index/search.py:155-186 | every step keeps one build per held lock, matching corpora and ordered times |
| IndexLifecycle.AtMostOneBuildInFlight | src/apim_mcp/index/search.py:158-161 | over every interleaving of startup, TTL and forced builds an alias has at most one build in flight |
| IndexLifecycle.IndexesOnlyGetNewer | src/apim_mcp/index/search.py:170-186 | an installed index never disappears and is only replaced by one whose build started after it was built |
| IndexLifecycle.FailuresChangeNothing | src/apim_mcp/index/search.py:162-186 | over every run the index of an alias changes only by a build of that alias that succeeds, and its stamp only by an accepted refresh that covers it; a refused refresh changes nothing at all |
| IndexLifecycle.RefreshesAreSpaced | src/apim_mcp/index/search.py:297-309 | any two accepted refreshes that cover an alias are at least 60 seconds apart |
| IndexLifecycle.RefusedExactlyWhen | src/apim_mcp/index/search.py:292-309 | over every run a refresh is refused if and only if an accepted one covered one of its aliases less than 60 seconds before |
| IndexLifecycle.ScoresZipWithEntries | src/apim_mcp/index/search.py:122-126 | at any time an installed index has one corpus document per entry, so the strict zip cannot fail |
| Ranking.SortIsStable | src/apim_mcp/index/search.py:126 | the sort is ordered and keeps the order of equal scores |
| Ranking.StableSortIsUnique | src/apim_mcp/index/search.py:126 | there is only one stable descending sort of a list |
| Ranking.SortingTwiceIsSortingOnce | src/apim_mcp/index/search.py:239-242 | sorting each service and then everything is one stable sort of everything |
| Ranking.SortOfKey | src/apim_mcp/index/search.py:239-253 | sorting keeps the hits of one API in their own stable order |
| Ranking.FirstPerKeyKeepsFirst | src/apim_mcp/index/search.py:244-253 | deduplication keeps of every (service, API) exactly the first hit |
| Ranking.ServicesInOrder | src/apim_mcp/index/search.py:239-241 | the hits of each service stand together, in the order of the services |
| Ranking.ApisScopeKeepsBest | src/apim_mcp/index/search.py:239-253 | scope `apis` lists, in descending order, every (service, API) once through its first best-scoring operation over all services |
| Ranking.DedupeApis | src/apim_mcp/index/search.py:244-253 | the loop with its set of seen keys keeps the first hit per key |
| Ranking.RankHits | src/apim_mcp/index/search.py:239-255 | the loop over services, the second sort, the scope and the limit cut, as one stable sort |
| Tokenizer.SplitCamelCutsAtBoundaries | src/apim_mcp/index/tokenize.py:31-34 | the two substitutions and the split cut a word at exactly its camel-case and acronym boundaries |
| Tokenizer.TwoPassesAreOne | src/apim_mcp/index/tokenize.py:21-33 | the second substitution is not disturbed by the spaces of the first |
| Tokenizer.Tokenize | src/apim_mcp/index/tokenize.py:37-59 | the loop over chunks yields the tokens, none for missing or empty text |
| Tokenizer.TokensOfChunk | src/apim_mcp/index/tokenize.py:56-59 | without separators the tokens are the lower-cased pieces between boundaries |
| Tokenizer.TokensSplitAt | src/apim_mcp/index/tokenize.py:19 | text on the two sides of any separator is tokenized independently |
| Tokenizer.TokensConserve | src/apim_mcp/index/tokenize.py:37-59 | the tokens, joined, are exactly the lower-cased alphanumeric characters of the text |
| Tokenizer.TokensAreWords | src/apim_mcp/index/tokenize.py:37-59 | every token is a non-empty run of lower-case letters and digits |
| Tokenizer.JoinedWordsRoundTrip | src/apim_mcp/index/tokenize.py:48-49 | tokenizing space-joined words gives the words back |
| Tokenizer.TokenizeIsIdempotent | src/apim_mcp/index/tokenize.py:48-49 | re-tokenizing the tokens of any text changes nothing |
| SearchText.ComposeSearchText | src/apim_mcp/index/builder.py:233-256 | the stored text is the weighted token list joined by spaces |
| SearchText.SearchTextRoundTrip | src/apim_mcp/index/search.py:173-177 | tokenizing the stored text for the corpus returns the weighted token list exactly |
| SearchText.CorpusFrequency | src/apim_mcp/index/builder.py:244-256 | each token's corpus frequency is 3 times its operation-name count plus 2 times its API-name, URL and tag counts plus its other counts |
| KqlStrings.KqlStringRoundTrip | src/apim_mcp/clients/_loganalytics.py:106-113 | a JSON-string reader recovers every value exactly, whatever follows the literal |
| KqlStrings.KqlStringIsClean | src/apim_mcp/clients/_loganalytics.py:106-113 | no value puts a newline, a `;` or anything outside printable ASCII into its literal |
| KqlStrings.ReplaceInAll | src/apim_mcp/clients/_loganalytics.py:113 | escaping `;` after JSON printing is one more escape per character, never half of another escape |
| KqlDeclarations.DeclarationIsOneStatement | src/apim_mcp/clients/logs.py:218-234 | for all values the declaration has no newline and its only `;` is its last character |
| KqlDeclarations.DeclarationRoundTrip | src/apim_mcp/clients/logs.py:218-234 | a reader of declarations recovers every name, type and value |
| KqlDeclarations.QueryBodyIsTheBody | src/apim_mcp/clients/_loganalytics.py:164-174 | splitting a built query returns its body if and only if the body declares no parameters itself |
| KqlDeclarations.QueryBodyHidesValues | src/apim_mcp/clients/_loganalytics.py:164-174 | of any query at all only the marker or the text after a declaration line is returned |
| ErrorCodes.CollectErrorCodes | src/apim_mcp/clients/_loganalytics.py:181-205 | the worklist loop terminates and collects exactly the codes of the whole error tree, which it never walks as a tree |
| ErrorCodes.CodesAreThoseOnPaths | src/apim_mcp/clients/_loganalytics.py:181-205 | a code is collected if and only if some path of details and inner errors leads to it |
| ErrorCodes.ToleratedExactlyWhen | src/apim_mcp/clients/_loganalytics.py:208-215 | an empty partial result is tolerated if and only if some specific code occurs and every one that occurs is allowed |
| GatewayLogQueries.DetailParamsBind | src/apim_mcp/clients/logs.py:218-234 | every filter is bound under its own names, a flag that it applies and its value, in thirteen parameters |
| GatewayLogQueries.FiltersAreRecovered | src/apim_mcp/clients/logs.py:218-234 | what is bound under these names determines every filter, absent ones included |
| GatewayLogQueries.DetailQueryIsFaithful | src/apim_mcp/clients/logs.py:170-265 | the detail query is refused, naming the first bad parameter, exactly on a window that does not parse or exceeds seven days, a bad limit or a bad duration; otherwise its first line binds every filter by name, the limit is capped at 200 with a truncation flag, and the rest is the body, which splitting returns if and only if it declares no parameters itself |
| GatewayLogQueries.SummaryQueryIsFaithful | src/apim_mcp/clients/logs.py:170-308 | the same for the error summary with its cap of 100 |
| SessionEvents.SessionEventParser.constructor | scripts/bench/copilot_bench.py:170-187 | the initial parser state |
| SessionEvents.SessionEventParser.ConsumeEvent | scripts/bench/copilot_bench.py:196-268 | new state and rows of one decoded line, branch by branch |
| SessionEvents.SessionEventParser.CompleteInteraction | scripts/bench/copilot_bench.py:270-311 | both counters move even when no interaction is open; an open one is closed with one row, with the snapshot sums and the fallback model of the checkpoint |
| SessionEvents.SessionEventParser.CompleteTool | scripts/bench/copilot_bench.py:313-336 | the start is consumed, the resolved name counted, a measured duration added |
| SessionEvents.BaselineIsLastReading | scripts/bench/copilot_bench.py:339-349 | the baseline is always the last numeric reading, valid unless the last reading was missing |
| SessionEvents.CounterConservation | scripts/bench/copilot_bench.py:339-349 | deltas plus the growth swallowed after missing readings add up to the last reading |
| SessionRuns.StepDescribes | scripts/bench/copilot_bench.py:204-268 | inside an open interaction every event keeps counts, time, prompt, model and answer as the stream defines them |
| SessionRuns.CountedAs | scripts/bench/copilot_bench.py:313-336 | a completion counts under its own name, or without one under the non-empty name of the start it pairs with, or else as unknown; its time is that between the two timestamps when both are there and parse |
| SessionRuns.SteeredPrompt | scripts/bench/copilot_bench.py:207-214 | a steering message that is not empty is added to the prompt on a line of its own |
| SessionRuns.SnapshotIsShown | scripts/bench/copilot_bench.py:150-160 | the snapshot of a row adds up each kind of token over all models of the checkpoint, and is absent without models |
| SessionRuns.StepStarts | scripts/bench/copilot_bench.py:247-251 | the pending starts are exactly those a completion of the same interaction can still pair with |
| SessionRuns.RunMatches | scripts/bench/copilot_bench.py:189-268 | every state of every run is the one the event stream determines |
| SessionRuns.RunRows | scripts/bench/copilot_bench.py:189-311 | the k-th interaction row describes the k-th interaction that ended, with the counter deltas, cache snapshot and fallback model of its closing event |
| SessionRuns.OpeningsAreClosedInOrder | scripts/bench/copilot_bench.py:204-235 | openings are the closed interactions, in order, plus the one still open |
| SessionRuns.EveryClosedInteractionHasOneRow | scripts/bench/copilot_bench.py:189-245 | every opening has at most one row, in opening order, and exactly one once a later closing event arrives |
| SessionRuns.ToolCallsConserved | scripts/bench/copilot_bench.py:313-330 | tool counts of all rows and the open interaction equal the completions consumed while one was open |
| SessionRuns.DeltasAreInRows | scripts/bench/copilot_bench.py:270-311 | the deltas of a run are those its rows report plus those of closing events that found no interaction open |
| SessionRuns.UsageConserved | scripts/bench/copilot_bench.py:270-349 | over every run with nondecreasing readings, usage in rows, usage with nothing open and growth swallowed after missing readings add up to the last reading, for both counters |
| SessionRuns.DeltasOfRows | scripts/bench/copilot_bench.py:270-349 | a row of a run reports usage exactly when a number closed it and no reading was missing just before: the growth since the last reading, or 0 when the counter fell |
| TailReader.ReadAvailableLines | scripts/bench/copilot_bench.py:419-433 | the read, check and seek-back loop returns the accepted lines and moves the position past exactly those |
| TailReader.AcceptedIsConsumed | scripts/bench/copilot_bench.py:419-433 | the accepted lines put together are what was consumed, whole lines all but a last one that decodes; what is left is an unfinished line that does not decode |
| TailReader.ReadInTwo | scripts/bench/copilot_bench.py:419-433 | reading a part now and the rest later yields the same events, also when a record is accepted before its newline |
| TailReader.PollingIsReadingOnce | scripts/bench/copilot_bench.py:593-598 | for every sequence of file lengths the polls yield the events of one read of the complete file |
| TailReader.LinesRunTheirEvents | scripts/bench/copilot_bench.py:189-195 | lines that do not decode leave the parser alone |
| TailReader.RowsAreIndependentOfChunking | scripts/bench/copilot_bench.py:565-598 | parser state and rows do not depend on how the file arrived |
| ListEnvelope.ApplyTruncation | src/apim_mcp/common/formatting.py:42-75 | the pop loop and the rewriting of count, has_more and next_offset |
| ListEnvelope.RenderSize | src/apim_mcp/common/formatting.py:38-39 | the exact byte size of an envelope from its digits, items and flags |
| ListEnvelope.KeepsLongestPrefix | src/apim_mcp/common/formatting.py:63-65 | k items survive exactly when k items fit the measured size |
| ListEnvelope.UntruncatedSize | src/apim_mcp/common/formatting.py:53-55 | an envelope returned whole is exactly 18 bytes larger than measured |
| ListEnvelope.UntruncatedCanExceed | src/apim_mcp/common/formatting.py:53-55 | an envelope of 81 bytes that passes a ceiling of 81 and is returned with 99 |
| ListEnvelope.RewrittenSize | src/apim_mcp/common/formatting.py:67-74 | the exact byte difference that rewriting the metadata makes |
| ListEnvelope.RewritingGrowsExactlyWhen | src/apim_mcp/common/formatting.py:67-74 | rewriting adds bytes exactly when the whole page would have been the last and the new offset has enough digits |
| ListEnvelope.TruncatedFits | src/apim_mcp/common/formatting.py:57-75 | below offset 100000, or when a next page was due anyway, a truncated result is flagged and fits or has no item |
| ListEnvelope.CeilingHoldsExactlyWhen | src/apim_mcp/common/formatting.py:42-75 | for every call: the result meets its ceiling if and only if a whole envelope leaves 18 bytes, or else the longest prefix that fits the measured size, be it empty, still fits with the bytes its rewriting adds |
| ListEnvelope.FitsOrEmptyExactlyWhen | src/apim_mcp/common/formatting.py:57-75 | the same when a result without items is let pass |
| ListEnvelope.CeilingCanBeMissed | src/apim_mcp/common/formatting.py:72-74 | a list of two objects past offset 100000 whose truncated page exceeds its ceiling |
| ListEnvelope.EmptyPageCanExceed | src/apim_mcp/common/formatting.py:63-74 | for every ceiling below 100 bytes plus the hint a list that is truncated to nothing and still exceeds it |
| Pagination.PaginateList | src/apim_mcp/tools/config.py:55-60 | slice, envelope and truncation of one page |
| Pagination.PageHoldsTheLimit | src/apim_mcp/tools/config.py:55-60 | a page holds all of the next `limit` items when they fit, and otherwise their longest prefix that does, flagged and with the hint |
| Pagination.PageIsARun | src/apim_mcp/tools/config.py:55-60 | every page is a run of items from its offset and points just behind it, or nowhere at the end |
| Pagination.CompleteWalkReadsEverything | src/apim_mcp/tools/config.py:55-60 | a walk that ends has received every item exactly once, in order, for any mix of truncated pages |
| Pagination.WalkEndsExactlyWhenNoPageIsStuck | src/apim_mcp/common/formatting.py:67-74 | following next_offset ends if and only if no page on the way points at itself |
| Pagination.StuckExactlyWhen | src/apim_mcp/common/formatting.py:63-74 | a page points at itself exactly when items remain and neither the page nor its first item fits |
| Pagination.WalkEndsExactlyWhenItemsFit | src/apim_mcp/tools/config.py:55-60 | following next_offset ends if and only if it never comes to an offset where the page and its first item alone are both too large |
| Pagination.AWalkThatNeverEnds | src/apim_mcp/common/formatting.py:63-74 | for every ceiling a list of one object whose first page points at itself, so that no walk is complete |
| NamedValues.RestoreNamedValues | src/apim_mcp/common/redaction.py:83-86 | the loop of replacements, token by token |
| RedactionReferences.RefLengthIs | src/apim_mcp/common/redaction.py:33 | a reference is two braces, at least one character that is no closing brace, and two closing braces |
| RedactionReferences.ProtectReplacesReferences | src/apim_mcp/common/redaction.py:70-80 | protecting puts one token in the place of every leftmost reference and changes nothing else |
| RedactionReferences.StrippedAre | src/apim_mcp/common/redaction.py:49-57 | the stripped characters, one by one |
| NamedValues.RestoreRenders | src/apim_mcp/common/redaction.py:83-86 | sequential replacement puts every reference back exactly where its token stands |
| NamedValues.ProtectToks | src/apim_mcp/common/redaction.py:70-80 | a protected text holds one token per reference, in order |
| NamedValues.RestoreAfterProtect | src/apim_mcp/common/redaction.py:70-86 | with fresh distinct tokens, restoring a protected text is the identity |
| RedactionTokens.ReplaceToken | src/apim_mcp/common/redaction.py:83-86 | replacing a fresh token changes that place only, despite tokens that share delimiters |
| RedactionPasses.SubAtNul | src/apim_mcp/common/redaction.py:89-94 | the JWT, base64 and hex passes work on each side of a token delimiter on their own |
| RedactionPasses.SubOfTokenInside | src/apim_mcp/common/redaction.py:37-40 | the JWT, base64 and hex patterns never match inside a token |
| RedactionPasses.SubIsPassParts | src/apim_mcp/common/redaction.py:89-94 | these passes keep every token, unaltered and in order |
| RedactionMatches.MatchIsLongest | src/apim_mcp/common/redaction.py:37-40 | each pattern matches the longest text it describes: 32 hex digits or more, 40 base64 characters or more with up to two `=`, `eyJ` and three dotted segments, a `sig=` or `sv=` with its value, between word boundaries; and nothing exactly when there is none |
| RedactionMatches.WhatEndsAValue | src/apim_mcp/common/redaction.py:38 | a `sig=` or `sv=` value ends at white space, an ampersand, a quote or an angle bracket |
| RedactionMatches.SubReplacesMatches | src/apim_mcp/common/redaction.py:89-94 | every leftmost match becomes its marker and the text between the matches stays |
| RedactionMatches.MatchesAreUnique | src/apim_mcp/common/redaction.py:89-94 | there is only one way to match a text from left to right |
| RedactionMatches.RedactHighEntropyIs | src/apim_mcp/common/redaction.py:89-94 | the four passes in their order, each on what the one before left |
| RedactionMatches.NoHexIsLeft | src/apim_mcp/common/redaction.py:93-94 | after the last pass no 32 hex digits stand between word boundaries, not even beside a marker |
| Redaction.SubIsSasParts | src/apim_mcp/common/redaction.py:38 | the SAS pass removes a parameter with all of its value and swallows tokens only whole |
| Redaction.BodyStaysFresh | src/apim_mcp/common/redaction.py:89-94 | no marker or joined remainder can look like a token |
| Redaction.RedactionRestores | src/apim_mcp/common/redaction.py:138-149 | the result is the redacted text with every token that is left read as its reference, then stripped of control characters |
| RedactionScan.JwtPassIsStepwise | src/apim_mcp/common/redaction.py:89-94 | the JWT pass on a text with tokens, match by match |
| RedactionScan.SasKeepsScanned | src/apim_mcp/common/redaction.py:38 | the tokens the SAS pass leaves are those that one scan finds outside open values |
| RedactionScan.ScanAfterJwt | src/apim_mcp/common/redaction.py:89-94 | scanning after the JWT pass and scanning around its matches leave the same tokens: it can hide a parameter name, and changes nothing else |
| RedactionSurvival.ScanKeepsSurvivors | src/apim_mcp/common/redaction.py:89-94 | the scan keeps exactly the tokens that lie inside no SAS value of the unredacted text, in order |
| RedactionResult.StripOfWeave | src/apim_mcp/common/redaction.py:60-67 | stripping works on every reference and every piece of text between them on its own |
| RedactionResult.StripKeepsExactlyPlain | src/apim_mcp/common/redaction.py:60-67 | stripping changes a text exactly when it holds a character to strip |
| RedactionResult.RedactionKeepsReferences | src/apim_mcp/common/redaction.py:138-149 | the result weaves exactly the references that lie inside no SAS value, in order and each without its control characters, into the stripped redacted text |
| RedactionResult.LostExactlyInsideValue | src/apim_mcp/common/redaction.py:138-149 | a reference is dropped if and only if it lies in the value of a `sig=` or `sv=` that stands on a word boundary and in no JWT; any other stands at its place in the result, untouched if and only if it holds no character that is stripped |
| RedactionResult.AllKeptExactlyWhen | src/apim_mcp/common/redaction.py:138-149 | the result holds all references, up to stripped characters, if and only if none lies in such a value |
| RedactionResult.AllUntouchedExactlyWhen | src/apim_mcp/common/redaction.py:32-33 | the result holds all references untouched if and only if none lies in such a value and none holds a stripped character |
| RedactionResult.WithoutParametersAllAreKept | src/apim_mcp/common/redaction.py:138-149 | the result for a text without `sig=` and `sv=` holds all its references up to stripped characters, and all untouched if and only if none holds one |
| RedactionResult.AReferenceIsLost | src/apim_mcp/common/redaction.py:38 | `sig={{a}}` is redacted to the bare SAS marker: its reference is gone |
| RedactionResult.AReferenceIsAltered | src/apim_mcp/common/redaction.py:148-149 | a reference with a control character comes out without it |
| MetadataCache.AuthorizationServerMetadataCache.GetDocument | src/apim_mcp/auth/middleware.py:174-182 | the first check: a cached document is returned without the lock |
| MetadataCache.AuthorizationServerMetadataCache.Recheck | src/apim_mcp/auth/middleware.py:182-186 | under the lock a caller fetches exactly when there is still no document |
| MetadataCache.AuthorizationServerMetadataCache.AfterFetch | src/apim_mcp/auth/middleware.py:187-200 | a failed fetch leaves the cache empty; the answer is what is cached |
| MetadataCache.StepAnswers | src/apim_mcp/auth/middleware.py:174-200 | in every interleaving a cached document is answered at once, a caller with the lock fetches only without one and else gets it, and null is the answer of a caller whose own fetch failed and of no other |
| MetadataCache.SingleFlight | src/apim_mcp/auth/middleware.py:182-186 | in every interleaving at most one fetch is in flight, and none once a document is cached |
| MetadataCache.AtMostOneSuccess | src/apim_mcp/auth/middleware.py:174-200 | over a whole run at most one fetch succeeds and none finishes after it |
| MetadataCache.AnswersAgree | src/apim_mcp/auth/middleware.py:174-187 | all non-null answers, whenever given, are the one fetched document |
| ArmListing.Send | src/apim_mcp/clients/arm.py:213-259 | the retry loop: its outcome, its number of attempts and its waiting time |
| ArmListing.SendFailsExactlyWhen | src/apim_mcp/clients/arm.py:233-259 | a request fails exactly when five attempts all broke, were throttled (429) or met a server error (500 and up), or the first other answer is an error status; otherwise that answer is its page |
| ArmListing.WaitIs | src/apim_mcp/clients/arm.py:230-236 | the wait after a failed attempt is what Retry-After says, or else 0.5, 1, 2 and 4 seconds in turn |
| ArmListing.SendIsBounded | src/apim_mcp/clients/arm.py:230-246 | without Retry-After a request costs at most five attempts and exactly 0, 0.5, 1.5, 3.5 or 7.5 seconds of waiting by their number |
| ArmListing.ListAll | src/apim_mcp/clients/arm.py:164-190 | every page is asked for by the link of the page before; items are those of the received pages in order, at most the page limit of them; truncated exactly when stopped with a next link pending |
| ArmListing.ListingIsDetermined | src/apim_mcp/clients/arm.py:164-190 | the server and the limit leave exactly one outcome |
| ArmListing.LinksAreFollowed | src/apim_mcp/clients/arm.py:175-185 | the first request asks for the listing, every later one for the link of the page before |
| ArmListing.ItemsInOrder | src/apim_mcp/clients/arm.py:181-183 | the items of each page stand right behind those of the pages before it |

## Left out

- `_operation_schemas` and the method and path keys of `_schema_property_names_by_operation`: where an operation keeps its schemas is read off field by field; the theorems hold for any list of schemas.
- Python's recursion limit: a chain of references or variants longer than the interpreter's stack fails in the program, not in the model.
- GatewayLogQueries.DetailQueryIsFaithful: the KQL text of the fixed body is a parameter; for every body it says exactly when splitting returns it, and that the fixed texts declare no parameters themselves is not proved.
- GatewayLogQueries.SummaryQueryIsFaithful: the same for the body of the error summary.
- `_parse_duration`, `parse_timespan`, `parse_interval` and `kql_timespan`: they turn ISO 8601 text into a window or an interval and an interval into a literal; the queries take the parsed window.
- `_matched_fields`, `_snippet`, the other fields of a search response and the counts returned by `refresh`.
- BM25 arithmetic, and building a corpus from documents without tokens.
- Exceptions other than cancellation inside the tasks of a build, and cancellation of the build itself from outside.
- Timing and fairness: the model says which steps can happen, not how long an await takes; a task may also finish after its cancellation was requested, which the program allows less often.
- Alias case variants: the manager's locks, indexes and stamps are per raw string, and so are the theorems.
- JSON decoding of event lines: a decoder is a parameter of the tail reader, assumed to reject blank lines, to ignore the newline, and to reject proper prefixes of a line (true of a line that is one JSON object without trailing blanks).
- SessionEvents.SessionEventParser.ConsumeEvent: a summary row keeps only its timestamp; the totals of `_session_summary`, which are copied or added up from the shutdown event alone, are not modelled.
- Rows keep the measured parts of an interaction; expectations, rounding of seconds, result keys and the results file are not modelled.
- Negative offsets and limits, non-integer totals and markdown rendering.
- `redact_policy_xml`, URL stripping and the wrapping of untrusted content; redaction is not claimed to be idempotent.
- RedactionResult.RedactionKeepsReferences: assumes token bodies that are distinct and do not occur in the text, which random UUIDs give with overwhelming probability only.
- Retry-After values are taken as given, malformed page bodies and credentials are not modelled.
- HTTP, ASGI, tool registration, settings, logging, `JWKSCache`, `SpecDocumentCache`, summary mappers, error texts and deployment templates.
