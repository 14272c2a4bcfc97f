# Juncture persistence: a model and its proofs

Juncture keeps the state of a graph execution in checkpoints. This project models the code around
that: rebuilding a checkpoint from a snapshot and later writes, the in-memory and SQLite savers, the
LRU cache in front of them, the key-value store with expiring items, the compilers from its filters to
SQL, and the codec that turns a namespace into a storage key.

Code that updates in place is a class (`MemorySaver`, `MemoryCache`, `MemoryStore`, `SqliteSaver`) or a
method with loops (`RecoverFromDeltas`, the filter compilers, the placeholder scan). Each is proved
against a specification function on values, and the results below are about that function, over every
input and every run.

The clock, the RFC 3339 parser, JSON serialization, the database's answer to one comparison, and the
order in which a hash map is visited are parameters or arbitrary choices. Each operation is one atomic
step. Times are integers, versions are naturals.

| file | contents |
|---|---|
| Foundations.dfy | options and results, `retain`/`position`/`truncate`, string order, stable sorting |
| Namespaces.dfy | namespace keys: printer and parser |
| Checkpoints.dfy | JSON values and checkpoint records |
| DeltaRecovery.dfy | recovery from delta writes |
| Listing.dfy, SaversAgree.dfy | list filters; the two savers compared over the same run |
| SaverModel.dfy | the in-memory saver: specification and class |
| LazyCleanup.dfy, LazyCleanupTheorems.dfy | cleanup against an append-only log |
| SaverReplies.dfy | what the in-memory saver answers, told from the operations of a run |
| MemoryCache.dfy, CacheTheorems.dfy | the LRU cache with TTL |
| Filters.dfy, SqlCompiler.dfy, SqlMeaning.dfy | filters, their SQL text, the tokens it should read as |
| SqlPaths.dfy | the path literals read as each database reads them, against the path the evaluator walks |
| SqlLexing.dfy, SqlEvaluation.dfy | the text lexed, parsed and evaluated, against the in-memory evaluator |
| QuotedFields.dfy, BoundTexts.dfy | a field that breaks the text; literals bound as texts |
| MemoryStore.dfy, StoreTheorems.dfy | the expiring store and its sweep |
| StoreReplies.dfy | what the store answers, told from the operations of a run |
| SqliteSaver.dfy | the SQLite saver: tables, lists, pending writes |

## Where the code and its documentation part

- `recover_from_deltas` documents an error for a missing target; the code returns `Ok(None)`, and so does the model.
- `lazy_cleanup` documents that it removes the writes of checkpoints that no longer exist. The closure
  names the key parts (thread, ns, id) while the map's key is (thread, id, ns). With UUID-like ids every
  pending write of every thread is dropped (`CleanupDropsEveryWrite`); `RepliesExactIff` gives the exact
  configurations and timestamps under which no reply is affected.
- The cap of `lazy_cleanup` keeps the newest by the text of `created_at`, while expiry uses the instant.
  `UnobservableUnderIff` says for each configuration, and `CleanupUnobservableIff` for all at once, which
  timestamps keep this out of sight.
- `purge_expired` documents that `set` purges; only `get` does.
- The store documents that `search` removes expired items; it only skips them.
- Deltas listed after a snapshot are skipped when their id is not greater (`OutOfOrderIdsDropWrites`), and
  deltas listed before it are replayed over it when theirs is (`EarlierWritesReplayed`);
  `ReplayedAsListedIff` is the exact condition for replaying what is listed after it.
- Filter fields are put into quoted SQL literals as they are. `WhereLexesIff` says exactly which fields
  leave the text readable as the filter; `QuotedFieldEscapes` is one that does not.
- Filters take `.` for nesting and the evaluator steps only into objects. `FoundIff` says exactly which fields lead the
  databases to the same place: SQLite also reads subscripts and quoted labels, and Postgres also commas, braces, quotes,
  backslashes, outer blanks, `NULL`, and a number as the position of an array element.
- `sqlite_param_from_value` documents that booleans rendered as digits compare correctly. They are bound as text:
  a text equals no stored number or boolean (`SqliteNumbersNeverEqual`), and it equals the string of its digit
  (`SqliteBooleanIsText`). Postgres binds strings with their JSON quotes (`PostgresStringsNeverEqual`).
- One `list` contract has two behaviours: the in-memory saver keeps every put, while SQLite keeps one
  row for each id and leaves ties to the database (`RowsAreHistoryIff`), and limits an unfiltered list to ten
  (`SaversListAlikeIff`).

## Model

| member | source | states |
|---|---|---|
| DeltaRecovery.RecoverFromDeltas | crates/juncture-checkpoint/src/types.rs:95-209 | the recovery loops compute the specified checkpoint, `None` for an unknown target, an error without a full snapshot |
| DeltaRecovery.RecoverySpelledOut | crates/juncture-checkpoint/src/types.rs:111-208 | recovery starts from the nearest tuple whose channel values are an object with some channel, passing over empty objects and everything else; each channel ends in its closed form, versions and counts rise by the writes, the counters are cleared, all other fields are the snapshot's |
| DeltaRecovery.RecoveryFailsIff | crates/juncture-checkpoint/src/types.rs:100-126 | recovery gives `None` exactly when no tuple has the target id, and the snapshot error exactly when none up to the first such tuple has an object with a channel |
| DeltaRecovery.CollectDeltas | crates/juncture-checkpoint/src/types.rs:136-147 | the walk gathers the writes of all tuples whose id exceeds the snapshot's, in list order |
| DeltaRecovery.ReplayDeltas | crates/juncture-checkpoint/src/types.rs:165-187 | the replay loop is the left fold of single writes, and counts them by channel |
| DeltaRecovery.BumpVersions | crates/juncture-checkpoint/src/types.rs:191-200 | whatever the visiting order, each modified channel's version rises by its count and no other changes |
| DeltaRecovery.ReplayClosedForm | crates/juncture-checkpoint/src/types.rs:165-187 | a recovered channel depends only on its start value and its own writes: the last non-array, else the start extended by all arrays, else a non-array start unchanged |
| DeltaRecovery.ArrayAfterScalarIsDropped | crates/juncture-checkpoint/src/types.rs:171-186 | an array written to a channel that holds a non-array is lost but counted |
| DeltaRecovery.VersionConservation | crates/juncture-checkpoint/src/types.rs:185-206 | `new_versions` sums to the replayed writes, its keys are the written channels, each version rises by exactly its count |
| DeltaRecovery.RecoveryIgnoresOrder | crates/juncture-checkpoint/src/types.rs:100-150 | with distinct ids and the same snapshot chosen, permuting the tuples up to the target changes nothing |
| DeltaRecovery.LaterTuplesIrrelevant | crates/juncture-checkpoint/src/types.rs:100-109 | tuples after the first one with the target id play no part |
| DeltaRecovery.ReplayedAsListedIff | crates/juncture-checkpoint/src/types.rs:136-150 | for every list, recovery replays exactly the writes listed after the snapshot, in order, exactly when the tuples with writes have ids up to the snapshot's before it, greater ones after it, and never decreasing |
| DeltaRecovery.RecoveryIsFold | crates/juncture-checkpoint/src/types.rs:111-187 | under that condition recovery is the left fold of the writes at positions base+1 to target |
| DeltaRecovery.RecoveryIncremental | crates/juncture-checkpoint/src/types.rs:108-208 | with no snapshot in (j, k] and what is listed up to k in order from the snapshot, recovering to k is recovering to j and replaying the writes of j+1 to k: same values and versions |
| DeltaRecovery.AscendingIncremental | crates/juncture-checkpoint/src/types.rs:108-208 | so it is, without further conditions, when ids ascend |
| DeltaRecovery.OutOfOrderIdsDropWrites | crates/juncture-checkpoint/src/types.rs:137-147 | in any list, recovery does not depend on the writes of a tuple after the snapshot whose id is not greater |
| DeltaRecovery.EarlierWritesReplayed | crates/juncture-checkpoint/src/types.rs:137-147 | the writes of a tuple before the snapshot are replayed over it when its id is greater |
| StableSorting.SortIsStable | crates/juncture-checkpoint/src/types.rs:150 | the sort orders by the comparator and keeps the input order of ties |
| StableSorting.SortedUnique | crates/juncture-checkpoint/src/memory.rs:217-224 | sortedness and the order of ties determine the result |
| StringOrder.StrLeqIff | crates/juncture-checkpoint/src/memory.rs:217-224 | strings compare by a prefix or by the first character in which they differ |
| MemorySavers.MemorySaver.LazyCleanup | crates/juncture-checkpoint/src/memory.rs:139-197 | the new storage and writes after expiry, cap and the write `retain` with its swapped key parts |
| MemorySavers.MemorySaver.GetTuple | crates/juncture-checkpoint/src/memory.rs:235-282 | cleanup, then the newest tuple or the one with the id, with its pending writes; error without a thread |
| MemorySavers.MemorySaver.List | crates/juncture-checkpoint/src/memory.rs:284-345 | cleanup, then the filter stages in order |
| MemorySavers.MemorySaver.Put | crates/juncture-checkpoint/src/memory.rs:347-407 | the tuple is added and the history re-sorted; nothing is pruned |
| MemorySavers.MemorySaver.PutWrites | crates/juncture-checkpoint/src/memory.rs:409-458 | the writes are appended under (thread, id, ns) with the task set; errors without thread or checkpoint id |
| SaverReplies.ReadSpelledOut | crates/juncture-checkpoint/src/memory.rs:235-282 | after any run in which the cap is safe, a read returns the first shown put with the id asked for, or the first of all without one, with that put's config, checkpoint and metadata, and nothing exactly when there is none; where no write can be lost, the attached writes are all those put for it, in order, each with its channel, value and task |
| SaverReplies.ListSpelledOut | crates/juncture-checkpoint/src/memory.rs:284-345 | and a list returns the shown puts themselves, or the first `limit` of a window of the matching ones |
| SaverReplies.ShownUnique | crates/juncture-checkpoint/src/memory.rs:217-224 | only one selection of puts is shown: unexpired, by later timestamp text, then greater id, then earlier put, up to the cap |
| SaverReplies.ReadIsGenuine | crates/juncture-checkpoint/src/memory.rs:255-265 | in any run under any configuration, what a read finds was put there, has not expired, and has the id asked for |
| SaverReplies.OtherReplies | crates/juncture-checkpoint/src/memory.rs:347-458 | the two refusals, which change nothing, and the config a put hands back |
| LazyCleanup.LogHoldsEverything | crates/juncture-checkpoint/src/memory.rs:379-390 | the reference log holds every tuple and every write ever put, in order |
| LazyCleanup.ViewIsNewestLive | crates/juncture-checkpoint/src/memory.rs:161-175 | what a read of the log shows: newest first, live, at most `max`, and nothing live left out for an older one |
| LazyCleanup.LatestIsNewest | crates/juncture-checkpoint/src/memory.rs:255-257 | without an id a read returns the newest live tuple ever put, or none when none is live |
| LazyCleanup.PruneInvisible | crates/juncture-checkpoint/src/memory.rs:161-175 | storing what one read saw loses nothing a later read would see |
| LazyCleanup.RunCoupled | crates/juncture-checkpoint/src/memory.rs:139-197 | over every run the pruning saver stays coupled to the log and answers alike |
| LazyCleanupTheorems.UnobservableUnderIff | crates/juncture-checkpoint/src/memory.rs:139-184 | under one TTL and cap, cleanup is unobservable in all runs exactly when it never expires, never caps, shows nothing, or no timestamp sorts after one that appears within its lifetime and outlives it |
| LazyCleanupTheorems.CleanupUnobservableIff | crates/juncture-checkpoint/src/memory.rs:139-184 | it is unobservable in all runs and all configurations exactly when timestamps sort as text as they do in time |
| LazyCleanupTheorems.OvertakingObservable | crates/juncture-checkpoint/src/memory.rs:217-224 | for any TTL and positive cap, such a pair of timestamps gives a run where a capped read loses a live checkpoint |
| LazyCleanupTheorems.RepliesExactIff | crates/juncture-checkpoint/src/memory.rs:167-194 | replies match the log's including pending writes exactly without a TTL, without a cap, with cap 0, or when no timestamp outlives another |
| LazyCleanupTheorems.LostWrite | crates/juncture-checkpoint/src/memory.rs:187-194 | expiring one thread's checkpoint drops a live checkpoint's write in another thread |
| LazyCleanupTheorems.RetainedWritesIff | crates/juncture-checkpoint/src/memory.rs:167-194 | exactly which pending writes a read leaves: all without a cap or an expired tuple, else those of the thread whose checkpoint id is the namespace and whose namespace is a retained id |
| LazyCleanupTheorems.CleanupDropsEveryWrite | crates/juncture-checkpoint/src/memory.rs:187-194 | in any run with UUID-like ids, a capped read that finds an expired tuple empties the whole write map |
| LazyCleanupTheorems.FutureCheckpointVanishes | crates/juncture-checkpoint/src/types.rs:268-283 | a checkpoint created ahead of the clock is removed by an early read though it would be live later |
| LazyCleanupTheorems.UnobservableUntimelyIff | crates/juncture-checkpoint/src/memory.rs:139-184 | when checkpoints may be put before their creation time, and for a TTL below the longest duration, cleanup is unobservable in all runs exactly without a TTL, with cap 0, or when no timestamp in use can be read |
| LazyCleanupTheorems.NamespacesIsolated | crates/juncture-checkpoint/src/memory.rs:200-206 | an operation under one well-formed namespace leaves the histories of all others unchanged |
| Listing.ListIsWindow | crates/juncture-checkpoint/src/memory.rs:305-342 | a filtered list is the first `limit` of one contiguous window of the matching history, also when `after` was cut off by `before` |
| Listing.ListedPositions | crates/juncture-checkpoint/src/sqlite.rs:563-597 | a matching tuple is listed exactly when its position lies in the window |
| Listing.SaversAgreeIff | crates/juncture-checkpoint/src/sqlite.rs:703-779 | given the same tuples, both list functions differ only through SQLite's limit of ten when none is set and its i64 bound |
| Listing.SqliteListSpelledOut | crates/juncture-checkpoint/src/sqlite.rs:703-779 | SQLite lists the window for any criterion, else the first ten rows or as many as the limit says, and fails for a limit of 2^63 or more |
| SaversAgree.DatabaseOrderIsHistory | crates/juncture-checkpoint/src/sqlite.rs:722-736 | with distinct timestamps `ORDER BY created_at DESC` of the same tuples is the in-memory order |
| SaversAgree.RowsAreHistoryIff | crates/juncture-checkpoint/src/sqlite.rs:722-765 | after any run fed to both savers, the rows of a namespace are the in-memory history in its stored form, in every order the query may return, exactly when no id and no timestamp was put twice |
| SaversAgree.ReputDiffers | crates/juncture-checkpoint/src/sqlite.rs:832-850 | with an id put twice they differ in every order |
| SaversAgree.TieDiffers | crates/juncture-checkpoint/src/sqlite.rs:722-736 | with a timestamp put twice some order the query may return differs |
| SaversAgree.SaversListAlikeIff | crates/juncture-checkpoint/src/sqlite.rs:703-779 | after such a run SQLite lists the stored form of the in-memory reply exactly with a criterion, a limit within i64, or at most ten checkpoints put |
| SqliteSavers.SqliteSaver.Put | crates/juncture-checkpoint/src/sqlite.rs:781-889 | the checkpoint is upserted and all writes of its thread and namespace are deleted |
| SqliteSavers.SqliteSaver.PutWrites | crates/juncture-checkpoint/src/sqlite.rs:891-945 | each write is upserted under its index; errors without thread or checkpoint id |
| SqliteSavers.SqliteSaver.LoadPendingWrites | crates/juncture-checkpoint/src/sqlite.rs:603-644 | exactly the rows of the checkpoint, strictly ordered by task and index |
| SqliteSavers.SqliteSaver.List | crates/juncture-checkpoint/src/sqlite.rs:703-779 | the rows of the thread and namespace in a newest-first order, through limit or filter, with the reader's config; an error without a thread or for a limit beyond i64 |
| SqliteModel.QueryOrderUnique | crates/juncture-checkpoint/src/sqlite.rs:609-614 | the query order of the rows is unique |
| PendingWriteTheorems.RowIsLatest | crates/juncture-checkpoint/src/sqlite.rs:869-938 | after any run a row exists exactly if some call wrote it and nothing discarded it since, and holds the latest call's write |
| PendingWriteTheorems.LoadAfterRun | crates/juncture-checkpoint/src/sqlite.rs:603-644 | after any run the loaded rows are exactly the writes nothing superseded or discarded, by task and then index, each from its latest call |
| PendingWriteTheorems.RetryIdempotent | crates/juncture-checkpoint/src/sqlite.rs:919-938 | repeating a call changes nothing |
| PendingWriteTheorems.TasksCommute | crates/juncture-checkpoint/src/sqlite.rs:919-938 | calls of different tasks commute |
| PendingWriteTheorems.ShorterRetryKeepsTail | crates/juncture-checkpoint/src/sqlite.rs:913-938 | a shorter retry leaves the tail of the longer call |
| PendingWriteTheorems.RowKeepsCreation | crates/juncture-checkpoint/src/sqlite.rs:832-850 | over any run a checkpoint row keeps the creation time of its first put |
| PendingWriteTheorems.RowIsLastPut | crates/juncture-checkpoint/src/sqlite.rs:832-850 | id, channel values and versions, versions seen, schema version and metadata are those of its last put; the delta-tracking maps are empty and `v` is 1 |
| PendingWriteTheorems.MemoryRetryIff | crates/juncture-checkpoint/src/memory.rs:434-452 | the in-memory saver tolerates a retry exactly when it writes nothing |
| MemoryCaches.MemoryCache.PopAll | crates/juncture-checkpoint/src/cache.rs:133-135 | popping listed keys one by one keeps exactly the others, in order |
| MemoryCaches.MemoryCache.PurgeExpired | crates/juncture-checkpoint/src/cache.rs:125-136 | exactly the unexpired entries stay, recency unchanged |
| MemoryCaches.MemoryCache.Get | crates/juncture-checkpoint/src/cache.rs:155-176 | purge, promote, recheck expiry, return the bytes |
| MemoryCaches.MemoryCache.Set | crates/juncture-checkpoint/src/cache.rs:178-196 | insertion with the given or default TTL, evicting the least recent when full; no purge |
| MemoryCaches.MemoryCache.Delete | crates/juncture-checkpoint/src/cache.rs:198-202 | the entry is popped |
| MemoryCaches.MemoryCache.Clear | crates/juncture-checkpoint/src/cache.rs:204-224 | all entries, or those whose key starts with the namespace and a colon, are popped |
| CacheModel.RunValid | crates/juncture-checkpoint/src/cache.rs:155-224 | in every reachable state list and map are in bijection and within capacity |
| CacheCapacity.StepNested | crates/juncture-checkpoint/src/cache.rs:125-224 | one operation keeps the smaller cache a restriction of the larger, the surplus within the capacity difference |
| CacheCapacity.RunNested | crates/juncture-checkpoint/src/cache.rs:125-224 | the same over whole traces |
| CacheCapacity.HitsGrowWithCapacity | crates/juncture-checkpoint/src/cache.rs:155-176 | every hit of a smaller cache is the same hit in a larger one |
| CacheRetention.RetentionGuarantee | crates/juncture-checkpoint/src/cache.rs:155-196 | a used key spared by deletes, clears and TTL stays readable while fewer than `capacity` distinct other keys have been used |
| CacheRetention.RetentionIff | crates/juncture-checkpoint/src/cache.rs:155-196 | when nothing is popped except by eviction, the most recent key stays cached exactly while that is so |
| CacheRetention.SetIsReadable | crates/juncture-checkpoint/src/cache.rs:155-196 | after any run what a `set` stored is read back exactly when both clock readings come before its own TTL, or the default one, has passed, as long as nothing replaced or removed it and fewer than `capacity` other keys were touched |
| CacheRetention.StepLeaves | crates/juncture-checkpoint/src/cache.rs:125-224 | exactly which other keys each operation leaves, with the same entries |
| CacheAgreement.FaithfulIff | crates/juncture-checkpoint/src/cache.rs:115-224 | every hit is the value of the latest `set` of that very namespace and key, with no delete or clear of it since and both clock readings before that `set`'s deadline, exactly when no namespace plus colon begins another |
| CacheAgreement.ColonFreeIsPrefixFree | crates/juncture-checkpoint/src/cache.rs:117-119 | namespaces without colons qualify |
| CacheAgreement.CollisionHits | crates/juncture-checkpoint/src/cache.rs:117-119 | otherwise a key never set is read back with another's value |
| SqlCompiler.CompileFilter | crates/juncture-core/src/store.rs:1117-1168 | the recursive compiler produces the specified clause and parameters |
| SqlCompiler.CompileEach | crates/juncture-core/src/store.rs:1813-1832 | the accumulating loops produce the parenthesised clauses and the concatenated parameters |
| SqlCompiler.RenumberPlaceholders | crates/juncture-core/src/store.rs:2031-2044 | the scan numbers the marks consecutively and ends past the last |
| SqlCompiler.BuildWhere | crates/juncture-core/src/store.rs:1380-1392 | the joined conditions and the bound texts of a search, for SQLite and Postgres |
| SqlPaths.SqliteTexts | crates/juncture-core/src/store.rs:1117-1142 | the clauses of the six comparisons for SQLite, in full |
| SqlPaths.PostgresTexts | crates/juncture-core/src/store.rs:1775-1812 | the clauses of the six comparisons over a nested field for Postgres, in full |
| SqlPaths.ReadPathIff | crates/juncture-core/src/store.rs:1778-1779 | the emitted path literal, read as SQLite reads a path or Postgres a text array, gives the dotted parts of the field exactly when no part holds what that dialect treats specially |
| SqlPaths.FoundIff | crates/juncture-core/src/store.rs:946-960 | the database finds at the literal what the evaluator finds at the field, over every value, exactly for such fields, and for Postgres without a part that is an array position |
| SqlMeaning.ClauseIsTokens | crates/juncture-core/src/store.rs:1775-1838 | the emitted text is the token stream of the filter read aloud |
| SqlMeaning.ParamsAreLiterals | crates/juncture-core/src/store.rs:1117-1168 | the parameters are the literals of the leaves, left to right |
| SqlMeaning.TestsAreLeaves | crates/juncture-core/src/store.rs:1775-1838 | the tests of a clause are the leaves in order, parameter n+i going to leaf i |
| SqlMeaning.MarksMatchParamsIff | crates/juncture-core/src/store.rs:1769-1773 | a clause has one `?` per parameter exactly when no field name contains one |
| SqlMeaning.WhereIsTokensIff | crates/juncture-core/src/store.rs:2028-2051 | the sent text is the token stream with `$2`, `$3`, ... exactly when no field adds marks to a Postgres clause; leaf i is bound to parameter i+2 |
| SqlLexing.WhereLexesIff | crates/juncture-core/src/store.rs:1117-1168 | the text a search sends reads back as the tokens of its filter, after the namespace test, exactly when no field holds a quote, nor a `?` for Postgres |
| QuotedFields.QuotedFieldEscapes | crates/juncture-core/src/store.rs:1119-1122 | a filter with a quote in a field whose text, with the parameters it is sent with, selects a row outside the namespace |
| SqlEvaluation.WhereParsesIff | crates/juncture-core/src/store.rs:1143-1162 | with such fields the text of the WHERE clause is a search condition exactly when every AND and OR has an operand |
| SqlEvaluation.WhereMeaning | crates/juncture-core/src/store.rs:1380-1392 | the text, lexed, parsed with SQL precedence and evaluated in three-valued logic, is the namespace test AND the Kleene value of the filter, for every answer of the row, so nothing outside the namespace is selected |
| SqlEvaluation.UnfilteredMeaning | crates/juncture-core/src/store.rs:2028-2033 | without a filter the search is the namespace test alone |
| SqlEvaluation.BoundAs | crates/juncture-core/src/store.rs:1380-1390 | the prefix is bound as a pattern and then the literal of each leaf in turn: as JSON text, for SQLite strings bare and booleans as digits |
| Filters.ComparisonsMean | crates/juncture-core/src/store.rs:909-980 | what the six operators mean in memory: equality of JSON values, integers and floats apart; order between two numbers and nothing else; a missing value equals nothing |
| Filters.ConnectivesMean | crates/juncture-core/src/store.rs:935-942 | `$and` holds when all operands do, `$or` when some does, `$not` when its operand does not |
| SqlEvaluation.KleeneSound | crates/juncture-core/src/store.rs:909-943 | over a row that answers each comparison as the evaluator does or with NULL, a definite SQL value equals the evaluator's result |
| SqlEvaluation.SelectionVersusEvaluator | crates/juncture-core/src/store.rs:909-943 | over such a row SQL selects nothing the evaluator rejects, and misses a value only when some comparison of the filter is NULL |
| SqlEvaluation.PolarFiltersAgree | crates/juncture-core/src/store.rs:909-943 | over a row that compares what its path literals find, fields being addressed as above: with `$ne` only under an odd number of `$not`, all else under an even number and no null literals in `$eq` and `$ne`, both select the same |
| SqlEvaluation.SearchSelectsMatches | crates/juncture-core/src/store.rs:1380-1392 | so the text a search sends, lexed, parsed and evaluated over such a row with the parameters it is sent with, selects exactly the matching values of the namespace |
| SqlEvaluation.PolarLeafIff | crates/juncture-core/src/store.rs:909-943 | for one comparison, plain or negated, both select the same over all values and all such rows exactly under that polarity |
| SqlEvaluation.PresentPathsAgree | crates/juncture-core/src/store.rs:909-960 | over such a row, with something other than null at every path, both agree on every filter |
| BoundTexts.AgreeingRowIff | crates/juncture-core/src/store.rs:1175-1182 | for a filter and a value there is a row that compares what its path literals find exactly when no two comparisons with one operator, path literal and bound text differ over it |
| BoundTexts.NoAgreeingRow | crates/juncture-core/src/store.rs:1175-1182 | the string `1` and the boolean `true`, bound alike by SQLite, leave none |
| BoundTexts.PostgresTellsIff | crates/juncture-core/src/store.rs:2028-2051 | comparing extracted text with the bound JSON text decides equality rightly exactly unless the stored value is a string that is the literal or its JSON text |
| BoundTexts.SqliteTellsIff | crates/juncture-core/src/store.rs:1170-1182 | comparing texts decides equality rightly between any two strings, wrongly between a number or boolean and its equal, and otherwise exactly when the texts differ |
| BoundTexts.ComparingTextsAgreesIff | crates/juncture-core/src/store.rs:1119-1126 | a row that compares texts answers an equality filter as comparing what is found would exactly when the texts decide every equality rightly |
| BoundTexts.SqliteStringsAgree | crates/juncture-core/src/store.rs:1119-1126 | filters of string equalities over strings, with the polarity above, select alike in SQLite and in memory |
| BoundTexts.ComparesTextsExists | crates/juncture-core/src/store.rs:1119-1126 | for every equality filter and value there is, in either dialect, a row that compares texts |
| BoundTexts.PostgresStringsNeverEqual | crates/juncture-core/src/store.rs:2046-2050 | in Postgres `$eq` loses and `$ne` selects a stored string equal to the literal |
| BoundTexts.SqliteBooleanIsText | crates/juncture-core/src/store.rs:1175-1182 | in SQLite `$eq` with a boolean selects the string of its digit |
| BoundTexts.SqliteNumbersNeverEqual | crates/juncture-core/src/store.rs:1401-1403 | in SQLite `$eq` loses and `$ne` selects a stored number or boolean equal to the literal |
| SqlEvaluation.MissingPathDiffers | crates/juncture-core/src/store.rs:912-918 | over a missing path or a null, `$ne` and negated `$eq` hold in memory and select nothing in SQL; over a null so does `$eq` null |
| MemoryStores.MemoryStore.Get | crates/juncture-core/src/store.rs:607-657 | absent, expired and removed, refreshed, or returned as it is |
| MemoryStores.MemoryStore.Put | crates/juncture-core/src/store.rs:663-716 | the item is stored with a new expiry, keeping the creation time of a present one |
| MemoryStores.MemoryStore.Delete | crates/juncture-core/src/store.rs:722-728 | the item is removed, its namespace stays |
| MemoryStores.MemoryStore.Search | crates/juncture-core/src/store.rs:734-807 | some order of exactly the matching live items, its length, and the requested page of it |
| MemoryStores.MemoryStore.SweepExpiredItems | crates/juncture-core/src/store.rs:517-551 | for a positive cap exactly min(expired, cap) items are removed, all expired, across nested maps with early exit; at most one for cap 0 |
| StoreReplies.PutThenGet | crates/juncture-core/src/store.rs:607-716 | after any run, a put value is read back with its address, creation and update times exactly without a lifetime or until it has passed since the put, or with refresh on read since the last read, as long as nothing replaced or removed it; a later read finds nothing and removes it |
| StoreReplies.NothingUntilPut | crates/juncture-core/src/store.rs:607-728 | before the first put, and after a delete, a sweep or a late read, a read finds nothing until the next put |
| StoreReplies.SearchFindsReadable | crates/juncture-core/src/store.rs:734-787 | a search finds and counts exactly what a read under the prefix would return and the filter accepts |
| StoreReplies.ListedNamespaces | crates/juncture-core/src/store.rs:809-821 | the namespaces listed are exactly those ever put into |
| StoreTheorems.SweepsConverge | crates/juncture-core/src/store.rs:526-550 | n sweeps remove min(E, n * cap) of E expired items and no live one, so ceil(E / cap) leave none |
| StoreTheorems.RunSimilar | crates/juncture-core/src/store.rs:517-716 | a swept run and the same run without sweeps stay similar |
| StoreTheorems.SweepsUnobservable | crates/juncture-core/src/store.rs:517-787 | sweeps inserted anywhere change no answer of get, search and list_namespaces apart from creation times |
| StoreTheorems.SweepResetsCreationIff | crates/juncture-core/src/store.rs:702-708 | after any run, an item has a later creation time than without the sweeps exactly when a sweep took it and no delete, and no get that found nothing live, has come since |
| Namespaces.RoundTrip | crates/juncture-core/src/checkpoint.rs:196-238 | parsing a printed namespace gives it back exactly when names avoid both separators and ids avoid the bar |
| Namespaces.ParseWellFormed | crates/juncture-core/src/checkpoint.rs:222-238 | every string parses to a well-formed namespace |
| Namespaces.ParseSpelledOut | crates/juncture-core/src/checkpoint.rs:222-238 | any string parses to its pieces between bars that hold a colon, in order, each split at its first colon; the rest is skipped |
| Namespaces.NormalForm | crates/juncture-core/src/checkpoint.rs:196-238 | printing after parsing is an idempotent normal form of every string |
| Namespaces.KeysDistinct | crates/juncture-core/src/checkpoint.rs:196-204 | distinct well-formed namespaces print to distinct keys |
| Namespaces.ReprintIff | crates/juncture-core/src/checkpoint.rs:222-238 | a key is reproduced by parse and print exactly when it is empty or a bar before pieces that each hold a colon |
| Namespaces.ChildParent | crates/juncture-core/src/checkpoint.rs:163-183 | `parent` undoes `child`, and a child's key extends its parent's |
| Namespaces.UncleanNamesAreLost | crates/juncture-core/src/checkpoint.rs:222-238 | a separator inside a name does not survive |

## Left out

- Lex: it knows the phrases the compilers emit, not all of SQL; a text it cannot read may still be a condition for a database.
- WhereMeaning: comparisons are abstract atoms; Postgres casts that fail and `LIKE` wildcards in a namespace are not part of this model. Two fields with one path literal are one atom.
- ComparesFound: that a row compares what its path literal finds as the evaluator compares is a hypothesis. For `$eq` and `$ne` it is settled by comparing texts; for range comparisons the casts are the database's and stay a hypothesis.
- TextAnswer: follows the databases' comparison of texts and storage classes, not repository code; that a stored array or object renders as it is bound is assumed.
- ReadPath: follows the documented grammar of SQLite paths and Postgres text arrays, not repository code; subscripts, quoted labels, and quoted, escaped or nested elements are not read.
- MemoryStores.MemoryStore.Search: offset plus limit is unbounded; in the source it is a usize sum, which a limit near its maximum with a positive offset overflows.
- MemoryStores.MemoryStore.Get: the source drops its lock between phases; the model makes it atomic.
- The SQLite saver's get_tuple, parent_checkpoint_id, schema migration, serialization formats and database errors are not modelled.
- postgres.rs of the checkpoint crate repeats the SQLite tables and filters.
- Integer overflow of u64 versions and of clock arithmetic, and the rounding of large integers to f64 in comparisons, are not modelled.
- pending_tasks, pending_sends and pending_interrupts of a checkpoint are carried through unchanged by every modelled operation and are omitted from the record.
- Embeddings, similarity scores and their sort order need floating point and a library.
- The blob encoding of embedding vectors round-trips by four-byte chunks; it would add only easy members.
- list_namespaces paging and depth truncation: only the set of namespaces is modelled.
- Locks, spans, metrics, the background sweep task and error conversions are plumbing.
- CachePolicy and the observability caches repeat the cache core.
