# Dafny model of persista

A model of the parts of the `persista` Python package whose correctness spans several functions, loops or
whole runs: conflict-resolving writes of the key-value stores, the protocols that make them safe under
concurrency, the row codec and SQL filters that must agree with a plain dict, the TTL cache, near-duplicate
grouping, streaming statistics and the HTTP retry loop. Check it with `dafny verify dfyconfig.toml`.

| file | what it models |
|---|---|
| `UnionFind.dfy` | the parent list with path halving, no ranks, updated in place |
| `Components.dfy` | connected components by chains of edges: the reference for the grouping |
| `NearDedup.dfy` | MinHash signatures, the bucket pass per band, collection of ordered groups |
| `Stores.dfy` | the abstract store, the meaning of the four conflict strategies, `resolve_conflicts` |
| `Backends.dfy` | the in-memory and LMDB writes, `set_batches` |
| `Batching.dfy` | cutting a sequence into batches |
| `RedisProtocol.dfy` | WATCH / MULTI / EXEC of any number of interleaved clients |
| `PostgresLocks.dfy` | sorted advisory locks of any number of sessions, and what their transactions read and write |
| `PostgresRowLocks.dfy` | advisory and row locks together, for conflict-resolving and lock-free calls |
| `TypedSqlite.dfy` | the typed-column codec and the store over it |
| `SqlFilter.dfy` | WHERE clauses under three-valued logic, the two branches of `filter`, paging |
| `TtlCaches.dfy` | the lazily evicting cache and memoization |
| `Basics.dfy`, `Powers.dfy` | options, sizes of subsets, powers of two |
| `HyperLogLogs.dfy` | the register array of the cardinality estimator |
| `MetadataStats.dfy` | streaming metadata statistics with a capped sample |
| `Retries.dfy` | the request loop with backoff |

Conventions. Iterating a dict takes its keys in an arbitrary order where the order cannot matter, and a
sequence of pairs where it does. Exceptions are values of an outcome datatype. An `on_conflict` argument is
the result of normalizing it: a strategy, or nothing when it is not one. Hash functions, the network, the
clock and the schedule of concurrent clients are parameters; nothing is assumed about them beyond what a
lemma requires. Hashes of 64 bits are hashes below `Pow2(bits)` for any `bits`.

## What the proofs found

* The in-memory store rejects an invalid `on_conflict` even when there is nothing to write; LMDB (and SQLite,
  Redis, Postgres) return first. `BackendsAgree` shows this is the only difference.
* Redis conflict tests read the `__keys__` set, which WATCH does not cover. They are right all the same,
  because every writer and deleter changes the set and the data key in one transaction (`StepIsSequential`).
* The Postgres overwrite and delete paths take no lock, although the comment at
  `src/persista/store/postgres.py:294-299` says that a concurrent `set`/`set_many` on the same keys blocks.
  `LockFreeWriteIsLost` gives the run in which a merge erases an overwrite without a trace;
  `SerialExactlyWhenKeysApart` gives the exact condition: no key is written both ways.
* Sorting the keys rules out deadlocks only as long as the key hash keeps the sorted order: the locks are
  ordered by key but taken by hash. `DeadlockFreeExactlyWhenConvex` gives the exact condition on the keys in
  play; one hash collision around a third key deadlocks two writers (`CollisionDeadlocks`).
* Row locks are not sorted at all. Even with injective hashes a merge of two keys and a delete of the same two
  can deadlock (`MergeAndDeleteDeadlock`). `NeverDeadlocksExactlyWhen` covers all locks: no run deadlocks if
  and only if the hash follows the key order and no overwrite or delete has two keys in one transaction.
* `set_batches` collapses each batch into a dict first, so with repeated keys "merge" and "skip" depend on
  the batch size (`MergeSeesBatchSize`). `SkipStreamsExactlyWhen` and `MergeStreamsExactlyWhen` say, in terms
  of the pairs, for which calls the batches still have the effect of one set per pair. With "raise" a key
  repeated inside a batch is accepted silently and the same key in two batches is an error, even on an empty
  store (`RaiseSucceedsExactlyWhen`).
* A filter pushed down to SQL also selects records whose list or dict is spelled like the expected string,
  and rejects field names the full scan accepts (`AlwaysAgreesExactlyWhenScalar`, `BuildFilterWhere`). The
  field name pattern also accepts a trailing line feed.
* Eviction from the cache becomes observable when the clock is set back far enough
  (`ClockSetBackShowsEviction`): exactly when an earlier lookup read it past an expiry that the present
  reading is not past (`EvictionShowsExactlyWhenEarly`).
* The comment at `src/persista/record/analysis/value_frequency.py:60-62` describes the rank as the run of
  zeros plus one, cut at the number of remaining bits. A value whose remaining hash bits are all zero, the
  longest run there is, gets the least rank instead of the greatest; every other value gets the described one
  (`RankIsIntendedExactlyWhenNonzero`).
* A `Retry-After` header that is negative, not finite or longer than the platform can sleep makes the request
  raise instead of retrying (`SleepErrorExactlyWhenBadDelay`, `NegativeRetryAfterRaises`). Doubling reaches
  that limit too (`DoublingRunsOut`).

## Model

| member | source | states |
|---|---|---|
| UnionFinds.ClimbReachesRoot | src/persista/record/analysis/near_dedup.py:139-143 | following parent links from any element ends, within a number of steps given by its level, at the fixed point the ghost partition names |
| UnionFinds.ClimbStopsOnlyAtRoot | src/persista/record/analysis/near_dedup.py:139-143 | any climb that stops has found that same representative |
| UnionFinds.HalvingKeepsForest | src/persista/record/analysis/near_dedup.py:141 | pointing an element at its grandparent keeps the forest and every representative, and shortens the way |
| UnionFinds.LinkKeepsForest | src/persista/record/analysis/near_dedup.py:147-148 | hanging one root under another keeps the forest acyclic and merges exactly the two classes |
| UnionFinds.UnionFind.constructor | src/persista/record/analysis/near_dedup.py:136-137 | every element starts as its own class |
| UnionFinds.UnionFind.Find | src/persista/record/analysis/near_dedup.py:139-143 | terminates on every reachable parent list, returns the representative, changes no element's representative, and moves entries only from parent to grandparent |
| UnionFinds.UnionFind.Union | src/persista/record/analysis/near_dedup.py:145-148 | the partition afterwards is the old one with exactly the two classes merged |
| NearDedup.SignatureOfTokenSet | src/persista/record/analysis/near_dedup.py:22-36 | a signature depends only on the set of tokens, not on their order or repetition |
| NearDedup.SignatureAt | src/persista/record/analysis/near_dedup.py:22-36 | position by position a signature is the hash, for that seed, of the "key=value" string with the least one, or -1 without metadata |
| NearDedup.SharesBandExactlyWhen | src/persista/record/analysis/near_dedup.py:49-61 | for hashes without collisions two records share a band exactly when for some band, at each of its seeds, the least "key=value" string of both is the same |
| NearDedup.NoCommonItemNoEdge | src/persista/record/analysis/near_dedup.py:49-61 | then records without a common item are linked by no band |
| NearDedup.UnionBand | src/persista/record/analysis/near_dedup.py:151-167 | after the bucket pass the classes are the components of the old edges plus all pairs with the same non-sentinel band, although only first occurrences are merged |
| NearDedup.UnionBands | src/persista/record/analysis/near_dedup.py:122-125 | after all bands two positions have the same representative exactly when a chain of shared bands links them |
| NearDedup.CollectByRoot | src/persista/record/analysis/near_dedup.py:127-129 | the dict holds, per representative in order of first appearance, the ids of its class in encounter order |
| NearDedup.CollectGroups | src/persista/record/analysis/near_dedup.py:127-130 | the list returned is the components of two or more, as ids |
| NearDedup.FindNearDuplicateRecordIds | src/persista/record/analysis/near_dedup.py:39-130 | for every input: which error is raised, or the groups are exactly the components of "shares an identical band" |
| Components.GroupsAreTheComponents | src/persista/record/analysis/near_dedup.py:82-87 | groups are whole components with at least two members in encounter order, ordered by first member, and no connected pair is missing |
| NearDedup.EmptyMetadataIsUngrouped | src/persista/record/analysis/near_dedup.py:86-87 | a record without metadata is in no group |
| NearDedup.EqualMetadataIsGrouped | src/persista/record/analysis/near_dedup.py:49-61 | records with the same non-empty token set always share a group |
| Stores.ResolveConflicts | src/persista/store/validation.py:193-257 | the loop returns the KeyError with exactly the present keys, or exactly the entries to write under each strategy |
| Stores.ToWriteIsEffect | src/persista/store/validation.py:242-257 | entries computed from current flags and values, once written, are the sequential effect of the call |
| Stores.SetManyPeels | src/persista/store/validation.py:242-257 | a successful set_many equals single writes of its keys in any order |
| Backends.InMemoryStore.SetMany | src/persista/store/in_memory.py:113-130 | the dict and the error are the sequential meaning of the write, including closed store and invalid strategy |
| Backends.InMemoryStore.Open | src/persista/store/in_memory.py:81-85 | opening starts empty unless already open |
| Backends.InMemoryStore.Close | src/persista/store/in_memory.py:87-94 | closing discards everything |
| Backends.LmdbStore.SetMany | src/persista/store/lmdb.py:156-192 | the fused pass, which reads and writes the same transaction, leaves the sequential result, and nothing after a KeyError |
| Backends.BackendsAgree | src/persista/store/lmdb.py:159-185 | both backends give the same store and error exactly unless an open store gets no items and an invalid strategy |
| Backends.InMemoryStore.SetBatches | src/persista/store/base.py:165-198 | the streaming loop writes the consecutive batches up to the first error; a closed store or an invalid strategy is an error only when there is a pair |
| Backends.SetEachIsCondensed | src/persista/store/base.py:197-198 | one set per pair is one set_many of the pairs condensed: last, first or overlaid value per repeated key |
| Backends.BatchIsExact | src/persista/store/base.py:197-198 | a batch's dict has the effect of its pairs on every store exactly when it equals the pairs condensed |
| Backends.SkipBatchIsExact | src/persista/store/base.py:197-198 | for "skip" exactly when every key's first value in the batch is its last |
| Backends.MergeBatchIsExact | src/persista/store/base.py:197-198 | for "merge" exactly when the last value of every key has all fields of its earlier values |
| Backends.StreamsExactlyWhenCondensed | src/persista/store/base.py:165-198 | a whole call equals one set per pair on every store exactly when its dicts laid over each other equal the pairs condensed |
| Backends.SkipStreamsExactlyWhen | src/persista/store/base.py:165-198 | for "skip" exactly when every key's first value is the last one of the first batch that has the key |
| Backends.MergeStreamsExactlyWhen | src/persista/store/base.py:165-198 | for "merge" exactly when the last values of the batches give every field what the last pair with the field gives it |
| Backends.BatchesAreSets | src/persista/store/base.py:197-198 | streaming such batches equals one set per pair |
| Backends.OverwriteAnyBatchSize | src/persista/store/base.py:165-198 | with "overwrite" every batch size gives the store of one set per pair, repeated keys included |
| Backends.DistinctAnyBatchSize | src/persista/store/base.py:165-198 | with "skip" and "merge" too, when keys are pairwise distinct |
| Backends.MergeSeesBatchSize | src/persista/store/base.py:197-198 | with a repeated key, "merge" gives different stores for batch sizes one and two |
| Backends.RaiseKeepsWholeBatches | src/persista/store/base.py:188-198 | with "raise", either all pairs are written one by one, or exactly the batches before the failing one, and the error names the keys of that batch already there |
| Backends.RaiseStopsBetweenBatches | src/persista/store/base.py:188-198 | the same for batches with repeated keys, as one dict of all pairs before the failing batch |
| Backends.RaiseSucceedsExactlyWhen | src/persista/store/base.py:188-198 | a "raise" call succeeds exactly when no batch has a key of the store and no two batches share a key |
| RedisProtocol.WriteBlockIsWrite | src/persista/store/redis.py:295-301 | the pipeline of a write keeps index and data consistent and writes exactly the values |
| RedisProtocol.DeleteBlockIsDelete | src/persista/store/redis.py:346-354 | the pipeline of a delete keeps them consistent and removes exactly the keys |
| RedisProtocol.StepIsSequential | src/persista/store/redis.py:241-262 | every step of every client, in every state of the invariant, has exactly its sequential effect on the store just before it |
| RedisProtocol.RunsAreSequential | src/persista/store/redis.py:229-262 | any schedule of any number of clients is explained by its calls run one at a time in the order they took effect |
| RedisProtocol.IndexIsExact | src/persista/store/redis.py:215-227 | in every reachable state `__keys__` lists exactly the data keys and is never one |
| RedisProtocol.ClearIsNeverRejected | src/persista/store/redis.py:366-367 | clear, which deletes what it listed, never hits the reserved-key error |
| RedisProtocol.RoundsAreBounded | src/persista/store/redis.py:248-262 | a call in round r had at least r - 1 transactions of others that changed one of its keys |
| RedisProtocol.QuietRoundFinishes | src/persista/store/redis.py:248-262 | wherever a call stands, even in a round that is going to fail, it ends in a bounded number of its own steps if nobody interferes any more, with nothing else observed |
| RedisProtocol.WatchErrorRetries | src/persista/store/redis.py:249-262 | a failed transaction writes nothing and leaves the call ready for the next round with the same arguments |
| RedisProtocol.SetManyStarts | src/persista/store/redis.py:229-242 | an idle client's call does nothing without items, is rejected for the reserved key, writes at once for "overwrite", and otherwise enters the retry loop with its arguments |
| RedisProtocol.UndisturbedCall | src/persista/store/redis.py:229-262 | a call started by an idle client and left undisturbed ends with exactly the sequential store and error |
| RedisProtocol.DeleteManyDeletes | src/persista/store/redis.py:346-354 | delete_many removes exactly the keys, does nothing without keys and is rejected for the reserved key |
| RedisProtocol.ReservedKeyIsRejected | src/persista/store/redis.py:215-227 | writes and deletes of `__keys__` are errors and change nothing |
| RedisProtocol.ClearEmpties | src/persista/store/redis.py:366-367 | clear by one client alone leaves no data and no index |
| RedisProtocol.MergesAreNotLost | src/persista/store/redis.py:241-246 | a field written by a committed merge is there at the end of the run unless a later event replaced or removed it |
| RedisProtocol.OneWinner | src/persista/store/redis.py:241-246 | between two committed "raise" writes of a key there was a delete of it |
| PostgresLocks.StepIsSequential | src/persista/store/postgres.py:300-303 | commits and KeyErrors of undisturbed transactions are the sequential result on the table just before them, and locks stay exclusive |
| PostgresLocks.RunsAreSerial | src/persista/store/postgres.py:294-303 | in any run without disturbed transactions, the calls one at a time in commit order have the same outcomes, errors included, and give the same table |
| PostgresLocks.ApartRunsAreUndisturbed | src/persista/store/postgres.py:294-303 | lock-free writes on other keys than the locked ones disturb no transaction |
| PostgresLocks.SerialExactlyWhenKeysApart | src/persista/store/postgres.py:289-303 | every run, with each lock-free call as one atomic step, is serial in commit order, outcomes and table, if and only if no key is written both with and without a lock |
| PostgresLocks.LockFreeWriteIsLost | src/persista/store/postgres.py:290-299 | a concrete run in which a merge loses a concurrent overwrite, matching no order of the two |
| PostgresLocks.SortedLocksCannotDeadlock | src/persista/store/postgres.py:321-330 | no group of sessions working on the keys in play can wait for each other's advisory locks in any state of the invariant |
| PostgresLocks.DeadlockFreeExactlyWhenConvex | src/persista/store/postgres.py:43-45 | for every set of keys in play, with lock-free writes elsewhere: no run deadlocks at advisory locks if and only if those of the keys between two of equal hash have that hash too, as hashes injective on them do |
| PostgresLocks.CollisionDeadlocks | src/persista/store/postgres.py:43-45 | one hash collision around a third of the keys in play gives a run of two writers that deadlocks |
| PostgresLocks.SomeoneCanStep | src/persista/store/postgres.py:321-330 | while a transaction on the keys in play is open, some open session waits for no advisory lock |
| PostgresLocks.EverybodyFinishes | src/persista/store/postgres.py:300-303 | from every reachable state all open transactions can be brought to their end in a bounded number of steps, as far as advisory locks go |
| PostgresLocks.LockFreeCallsWrite | src/persista/store/postgres.py:289-292 | overwrites and deletes take effect at once, exactly on their keys |
| PostgresLocks.UndisturbedCall | src/persista/store/postgres.py:294-303 | a conflict-resolving call begun when no transaction is open and left alone ends with exactly the sequential table and error |
| PostgresRowLocks.TakersMeetAtAdvisoryLocks | src/persista/store/postgres.py:300-303 | two conflict-resolving transactions never wait for each other at a row: their advisory locks kept them apart |
| PostgresRowLocks.NoCycle | src/persista/store/postgres.py:321-330 | with a hash that follows the key order and lock-free transactions of one key, no group waits in a cycle at advisory and row locks in any state of the invariant |
| PostgresRowLocks.NeverDeadlocksExactlyWhen | src/persista/store/postgres.py:283-303 | for all conflict-resolving calls on any keys and lock-free ones on any sets of keys: no run deadlocks if and only if the hash follows the order of the keys and no lock-free transaction has two keys |
| PostgresRowLocks.SomeoneIsNotBlocked | src/persista/store/postgres.py:300-303 | then, while a transaction is open, some open one has all its locks or gets the next |
| PostgresRowLocks.EndReleases | src/persista/store/postgres.py:300-303 | the end of a transaction releases all its locks and touches no other session |
| PostgresRowLocks.EverybodyFinishes | src/persista/store/postgres.py:300-303 | then from every reachable state all open transactions can be brought to their end, in as many steps as there are locks to take and transactions to end |
| PostgresRowLocks.WideCallsDeadlock | src/persista/store/postgres.py:401-406 | two lock-free transactions on the same two keys, met in opposite order, deadlock |
| PostgresRowLocks.MergeAndDeleteDeadlock | src/persista/store/postgres.py:300-303 | a merge and a delete of the same two keys have a run that deadlocks, whatever the hash |
| TypedSqlite.RowRoundTrip | src/persista/store/sqlite.py:961-968 | decoding an encoded value gives it back without its None schema fields and with booleans of typed columns as numbers |
| TypedSqlite.BooleanReadsBackAsNumber | src/persista/store/sqlite.py:961-968 | a boolean in a typed column is stored as 1 or 0 and read back as that number |
| TypedSqlite.EncodedRow | src/persista/store/sqlite.py:1007-1011 | the row of any value: NULL for a missing or None schema field, the overflow only when needed and then exactly the other fields |
| TypedSqlite.DecodedField | src/persista/store/sqlite.py:961-968 | each field of any row: the overflow wins over the column, NULL is nothing |
| TypedSqlite.RowRoundTripIsIdentity | src/persista/store/sqlite.py:1007-1011 | the round trip is the identity exactly on values without None or booleans in schema fields |
| TypedSqlite.NormalizedMerge | src/persista/store/validation.py:254 | merging into what was read back and storing it shows the merge into the original |
| TypedSqlite.StepIsShown | src/persista/store/sqlite.py:437-455 | every write, delete and clear keeps table and plain store in step, with equal errors |
| TypedSqlite.TypedStoreSimulatesPlain | src/persista/store/sqlite.py:437-455 | after any run the decoded table is the plain store normalized, and errors occurred at the same steps |
| TypedSqlite.Chunk | src/persista/store/sqlite.py:55-58 | the slices are the one cut into full chunks with a shorter last one |
| TypedSqlite.StatementsFit | src/persista/store/sqlite.py:48-58 | every statement binds at most 900 variables, all but the last exactly 900 |
| TypedSqlite.TypedSqliteStore.SetMany | src/persista/store/sqlite.py:437-455 | the method on the table is the step of the simulation |
| TypedSqlite.TypedSqliteStore.DeleteMany | src/persista/store/sqlite.py:558-569 | statement by statement exactly the given keys are removed, however many |
| TypedSqlite.TypedSqliteStore.GetMany | src/persista/store/sqlite.py:397-410 | chunked reads answer every requested key in order, repetitions included |
| Batching.ChunksAreWellCut | src/persista/store/sqlite.py:55-58 | consecutive batches are non-empty, full but the last, and lose, repeat and reorder nothing |
| Batching.WellCutIsChunks | src/persista/store/sqlite.py:674-711 | there is only one such cut of a sequence |
| SqlFilter.TestIsEquality | src/persista/store/sqlite.py:970-974 | one compiled condition is true under three-valued logic exactly when Python's comparison is, or a container's text equals the expected string |
| SqlFilter.ThreeValuedLogic | src/persista/store/sqlite.py:480-493 | the truth tables of the comparison with NULL and of AND |
| SqlFilter.NumberFiltersFindBooleans | src/persista/record/store/record.py:61-63 | filters compare booleans as the numbers 1 and 0 |
| SqlFilter.FieldNamesAreWords | src/persista/store/validation.py:33 | exactly the words of letters, digits and underscores not starting with a digit are accepted, with at most one final line feed |
| SqlFilter.FieldNameExamples | src/persista/store/validation.py:105-117 | names on both sides |
| SqlFilter.NormalizationIsInvisible | src/persista/store/sqlite.py:961-968 | filters cannot tell a value from its decoded row |
| SqlFilter.BuildFilterWhere | src/persista/store/sqlite.py:480-493 | exactly the unsafe names outside the schema are rejected; a list or dict filter is bound as it is; otherwise the clause with its bound values selects exactly those rows for every row |
| SqlFilter.FilterItems | src/persista/store/sqlite.py:501-521 | the fast path rejects a name, is refused a list or dict by the driver, or returns the decoded selected rows in table order |
| SqlFilter.SelectedIsKept | src/persista/record/store/record.py:110-122 | fast path and Python filter agree on these rows exactly when no selected row has a container spelled like an expected string |
| SqlFilter.AlwaysAgreesExactlyWhenScalar | src/persista/record/store/record.py:97-122 | they agree for every filter exactly when no container is stored outside the schema under a name a filter can use |
| SqlFilter.FullScan | src/persista/record/store/record.py:116-122 | the nested loops keep exactly the matching records of all batches in order |
| SqlFilter.BothBranchesAgree | src/persista/record/store/record.py:97-122 | the two branches return the same records up to order, for every row order and batch size, exactly when no name is rejected, no filter is a list or dict, and no selected record is a lookalike |
| SqlFilter.RunKeepsRows | src/persista/store/sqlite.py:1007-1011 | after any run of writes, deletes and clears every row has the form the fast path relies on |
| SqlFilter.FilteredRunIsFilteredStore | src/persista/record/store/record.py:110-122 | after any run on the typed table and the plain store, the fast path returns values of the plain store normalized, and exactly the keys a scan of the plain store keeps if and only if no name is rejected, no filter is a list or dict and there is no lookalike |
| SqlFilter.Values | src/persista/store/base.py:332-333 | yields every value once in row order for every batch size |
| SqlFilter.IterBatches | src/persista/store/sqlite.py:674-689 | LIMIT/OFFSET paging terminates and yields every row once in order, cut into full batches and a shorter last one |
| SqlFilter.AsyncIterBatches | src/persista/store/sqlite.py:703-711 | accumulating and flushing cuts its rows at the same places |
| TtlCaches.ContentsOfRun | src/persista/cache/cache.py:233-252 | what the store holds after any run, whatever the clock did |
| TtlCaches.EvictionShowsExactlyWhenEarly | src/persista/cache/cache.py:243-252 | for every run and clock, a lookup answers from the history of writes alone exactly when no lookup since the last write of the key read the clock past an expiry that this reading is not past |
| TtlCaches.LookupsFollowHistory | src/persista/cache/cache.py:233-252 | hence eviction is unobservable as long as no earlier lookup read a later clock |
| TtlCaches.ClockSetBackShowsEviction | src/persista/cache/cache.py:246-249 | without that condition an eviction changes an answer |
| TtlCaches.Cache.TryGet | src/persista/cache/cache.py:233-252 | the answer at the clock reading, exactly an expired entry of the key evicted, and when the answer is the one the object's history of writes gives |
| TtlCaches.TtlDecides | src/persista/cache/cache.py:254-271 | an explicit ttl overrides the default, None meaning for ever and zero nothing; an entry is answered up to its expiry and not after; an argument not given is the default |
| TtlCaches.Cache.Set | src/persista/cache/cache.py:309-314 | negative ttl raises and changes nothing, zero removes, otherwise the entry and its expiry are replaced |
| TtlCaches.Cache.SetMany | src/persista/cache/cache.py:718-727 | the same for a batch, with no ttl check when it is empty |
| TtlCaches.Cache.TryGetMany | src/persista/cache/cache.py:614-620 | exactly the visible keys are answered, exactly the expired ones asked for are evicted |
| TtlCaches.Cache.GetMany | src/persista/cache/cache.py:541-544 | every requested key is answered, a miss with the default |
| TtlCaches.BatchEqualsSingles | src/persista/cache/cache.py:674-685 | a batched lookup equals single lookups one after the other at the same reading, repeated keys included |
| TtlCaches.Cache.GetOrCompute | src/persista/cache/cache.py:979-984 | computes exactly on a miss and stores what it computed, or raises after computing when the ttl is negative; the events it adds to the history |
| TtlCaches.Cache.Memoized | src/persista/cache/cache.py:1106-1137 | a wrapped call on the cache is a step of the memoization runs, with its answer |
| TtlCaches.CallRunIsRun | src/persista/cache/cache.py:979-984 | memoization runs are cache runs, call by call |
| TtlCaches.OnlyResultsAreStored | src/persista/cache/cache.py:979-984 | over any run, what is stored under an argument's key is the function's value |
| TtlCaches.MemoizedCallsAreCorrect | src/persista/cache/cache.py:1106-1137 | every call in any run returns the function's value, or every call raises when the ttl is negative |
| TtlCaches.EntryStays | src/persista/cache/cache.py:979-984 | a computed entry stays until it is removed or expires |
| TtlCaches.SecondRunNeedsReason | src/persista/cache/cache.py:1106-1137 | between two runs of the function for one argument its entry was removed or expired |
| HyperLogLogs.RankDivides | src/persista/record/analysis/value_frequency.py:64-67 | two to the rank less one divides a nonzero number with an odd quotient |
| HyperLogLogs.RankIsUnique | src/persista/record/analysis/value_frequency.py:64-67 | no other rank does |
| HyperLogLogs.Rank | src/persista/record/analysis/value_frequency.py:63-67 | for every number and cap the loop computes that rank, cut off at the cap |
| HyperLogLogs.CapNeverBinds | src/persista/record/analysis/value_frequency.py:60-67 | on the bits left of a hash the cut never happens |
| HyperLogLogs.HashIsSplit | src/persista/record/analysis/value_frequency.py:57-58 | index and remaining bits put together are the hash |
| HyperLogLogs.SplitIsUnique | src/persista/record/analysis/value_frequency.py:57-58 | and it has no other split |
| HyperLogLogs.StreamRegisters | src/persista/record/analysis/value_frequency.py:33-68 | after any stream each register is the maximum rank over the set of hashes added |
| HyperLogLogs.SameHashesSameRegisters | src/persista/record/analysis/value_frequency.py:21-24 | order and repetition of the stream cannot be seen |
| HyperLogLogs.ConcatenationIsMaximum | src/persista/record/analysis/value_frequency.py:68 | two streams in a row give the pointwise maximum |
| HyperLogLogs.RegistersFit | src/persista/record/analysis/value_frequency.py:60-63 | registers stay within the hash width less the precision |
| HyperLogLogs.RankIsIntendedExactlyWhenNonzero | src/persista/record/analysis/value_frequency.py:60-67 | the loop gives the run of zeros plus one, cut at the remaining bits, exactly when one of these bits is set or there is only one; without any it gives 1 instead of their number |
| HyperLogLogs.HyperLogLog.Add | src/persista/record/analysis/value_frequency.py:55-68 | the array in place follows the stream function, for every precision |
| MetadataStatistics.SampleIsFirstDistinct | src/persista/record/analysis/metadata_stats.py:114-131 | the sample is the first distinct values up to the cap before any unhashable one, and is marked truncated exactly when more were seen or an unhashable one was |
| MetadataStatistics.CountsAddUp | src/persista/record/analysis/metadata_stats.py:98-108 | the counts of the keys, listed in any order, add up to the total number of keys |
| MetadataStatistics.CountIsPresence | src/persista/record/analysis/metadata_stats.py:184-188 | a key's count is the number of records holding it |
| MetadataStatistics.MeanIsBetween | src/persista/record/analysis/metadata_stats.py:98-105 | the mean number of keys lies between the fewest and the most |
| MetadataStatistics.ReportIsConsistent | src/persista/record/analysis/metadata_stats.py:133-203 | what every report promises: sums, presence and absence per key, bounds of the mean |
| MetadataStatistics.MetadataStats.Update | src/persista/record/analysis/metadata_stats.py:79-131 | all counters and dicts after one more record are those of the longer stream |
| MetadataStatistics.MetadataStats.SampleValue | src/persista/record/analysis/metadata_stats.py:114-131 | one value changes the sample and flag of its key as specified and of no other key |
| MetadataStatistics.MetadataStats.ToDict | src/persista/record/analysis/metadata_stats.py:133-203 | the report is the one of the stream so far |
| MetadataStatistics.ComputeMetadataStats | src/persista/record/analysis/metadata_stats.py:206-252 | the report of any list of records |
| Retries.SendRequest | src/persista/http/httpx/method.py:405-456 | the run ends as the replies decide, and a client made here is closed exactly once, a given one never |
| Retries.Attempts | src/persista/http/httpx/method.py:408-453 | the loop makes one request more than it sleeps, retries exactly what may be retried, and each delay is the header's or the doubled one; a delay that cannot be slept ends it |
| Retries.RetriesAreBounded | src/persista/http/httpx/method.py:423-450 | at most max_retries + 1 requests, one when it is negative, and every sleep within what can be slept |
| Retries.RunSleeps | src/persista/http/httpx/method.py:912-931 | without header seconds delay k is 2^(k-1) for either cause, and r retries sleep 2^r - 1 in total |
| Retries.SleepErrorExactlyWhenBadDelay | src/persista/http/httpx/method.py:423-450 | the error of the sleep ends the run exactly when a retriable reply in reach calls for a delay that is negative, not finite or too long for the platform, by its header or by doubling |
| Retries.DoublingRunsOut | src/persista/http/httpx/method.py:438-450 | without waits from the server there are at most n retries when 2^n seconds cannot be slept, and one more retriable reply raises |
| Retries.NegativeRetryAfterRaises | src/persista/http/httpx/method.py:925-928 | a server busy once that asks for minus one second makes the call raise, with retries left and a success to come |
| Retries.ReturnsExactlySuccesses | src/persista/http/httpx/method.py:405-453 | a response is returned exactly when a success that is not to be retried is within reach, and it is that one, so it passed raise_for_status |
| Retries.PlainRequest | src/persista/http/httpx/method.py:451-453 | without retries a response is returned exactly for a status from 200 to 299, and everything else raises its error |
| Retries.ExhaustedRunEndsWithLastReply | src/persista/http/httpx/method.py:423-453 | when everything is retriable all retries are used and the last reply decides the result |
| Retries.RunsAreDetermined | src/persista/http/httpx/method.py:405-453 | the replies determine requests, delays and result |

## Left out

- Drivers and serialization (sqlite3, psycopg, redis-py, lmdb, JSON, pickle): encoding is the identity on the modelled values; column affinity changes nothing and no schema field is called `extra`.
- Containers in typed columns: SQLite refuses to bind them; the simulation asks for values that can be bound.
- Async twins, thread locks and the separate async connection: they repeat the sync logic, except the accumulating batch loop, which is modelled.
- Closed-store errors of the SQLite and Redis stores, and `on_conflict` strings: only the in-memory and LMDB writes show them.
- Deep copies of the in-memory store and aliasing of values: values are immutable here.
- Dict order in stores: a store is a map, so the order of keys of an unordered scan is not captured; paging and filters work on rows in a given order.
- Postgres: statements see the rows committed before them (read committed). Row locks are in the lock model only, which leaves out data; lock-free writes that race inside one statement, and its filter, which compares text, are not modelled.
- PostgresLocks.RunsAreSerial: transactions disturbed by a lock-free overwrite or delete are excluded, because for them it is false; SerialExactlyWhenKeysApart says when none occurs.
- PostgresLocks.SerialExactlyWhenKeysApart: a lock-free call on several keys is one atomic step; when its statements commit one by one, each is a call of its own.
- DuckDB: its paging and codec repeat SQLite's, its filter rests on DuckDB casts.
- Numbers: reals, so neither NaN nor the limits of SQLite integers; the longest delay a platform can sleep is a parameter.
- Cache keys: `make_json_key` and `make_pickle_key` are any function; the memoization lemmas ask for injectivity.
- HyperLogLog `estimate` and the counters of `compute_value_frequency`: floating point and library counting.
- Hash quality: MinHash similarity and estimator error are probabilistic claims.
- Metadata values: `isinstance(value, Hashable)` decides hashability, so a tuple holding a list, which passes it and then raises, is not modelled; sorting of the report is not modelled.
- HTTP: request construction, logging, elapsed time and the verb wrappers.
- File store, URI helpers, factories, registry, display and schema-shape helpers: plumbing or one-line comprehensions.
