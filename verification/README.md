# A verified model of the Semantic OS log denoiser

This project models, in Dafny, the parts of the repository that are state machines or algorithms,
and proves what they promise. Each module follows one source file: pure functions say what an
operation does to an immutable state, a class or method does the same thing step by step the way
the source does and is proved equal to those functions, and lemmas prove properties of the
functions over all inputs, runs and interleavings.

`dafny verify dfyconfig.toml` checks everything, with or without `--resource-limit 2000000`.

| module | what it models |
|---|---|
| `IngestionWorker`, `IngestionPoll`, `IngestionFlush`, `IngestionCeiling`, `IngestionDelivery`, `IngestionProgress`, `IngestionLoop` | the Kafka to ClickHouse worker: an at-least-once consumer of two topics with batches, pending offsets, retries, pauses, partly failing multi-tenant flushes, shutdown and restart |
| `JobLock`, `RetentionJob` | the `SET NX EX` lock of the daily jobs, and the destructive log archival run by the replica that wins it, as an interleaving of any number of replicas with lost replies, failed uploads and crashes |
| `Migrations`, `MigrationPaths` | the schema bootstrap as a plan of separate transactions, interrupted anywhere |
| `QueryParser`, `QueryText` | the query language: tokenizer, left-associative parser, in-memory evaluator, SQL compiler |
| `CausalScorer`, `CausalLinks` | the sliding window over the sorted timeline, and link inference |
| `RateLimiter`, `RateLimiterClients` | the two sliding-window limiters of `/ingest` and the fallback between them |
| `Drift`, `DriftReport` | greedy matching of two runs, event classification, counts and health |
| `EmbeddingCache` | the chunked embedding cache |
| `SpanArchiver` | archiving and hydrating spans |
| `Deduplication`, `Clustering` | template counts, and the clusters that share them out |
| `Slo`, `SloReport` | error budget, status, and the evaluator's incidents |
| `Text`, `Options`, `Reals`, `Sequences`, `Sorting` | what several of them share: names built by concatenation, optional values, quotients, facts about sequences, a stable sort |

The outside world is an input. Kafka is the final content of each partition plus how much every
poll returns; ClickHouse, Redis, the object store, the databases and the embedding model answer
each call as an argument says, and a call that raises may have been applied. Times and scores are
exact integers and reals; `exp` and `log` are functions of which only signs and ranges are assumed.

## What the proofs found

* **A parsed but unwritable message stalls its whole topic, and a topic of malformed ones never
  commits.** The worker promises that a malformed message does not stall a partition. Stuck are a
  log or trace whose payload the storing code always rejects, such as a log with a timestamp out of
  range or a trace of the wrong shape, and a log whose tenant is a JSON list or object and so cannot
  be a dictionary key. A batch belongs to a topic, and can be written exactly when nothing in it is
  stuck (`BatchCanLandIff`). So once a stuck message of any partition has been fetched, no partition
  of its topic commits anything more until the process is restarted
  (`FetchedStuckMessageStallsItsTopic`), and that is the only obstacle: what has been fetched of a
  partition can still be committed exactly when nothing fetched from its topic is stuck
  (`FetchedCommitsIff`). `OtherPartitionIsStalled` gives the input, a good message kept back by a
  stuck one of another partition. Restarts help only the partitions without one: no run commits past
  a stuck message of its own partition (`StuckMessageStallsItsPartition`), and some run commits past
  a message exactly when nothing up to it in its partition is stuck and some message of its topic
  can be the first to be written (`CommitsPassIff`). Without such a message the batch stays empty,
  an empty batch is never flushed, and nothing is acknowledged (`UnopenedTopicNeverCommits`,
  `MalformedTopicNeverCommits`).
* **Running longer than the lock's TTL can lose a log file.** An attempt one TTL after a win that
  is still running truncates the winner's archive, which is then uploaded in place of the file it
  deletes (`LateAttemptLosesAFile`). Attempts spread over a given width are safe exactly when that is
  at most the TTL (`WidthIsSafeIff`), however long the run takes.
* **A legacy column that already exists without its index never gets it**
  (`LegacyIndexAfterAdoption`), and the adopted stamp is true exactly when the database lacked only
  legacy columns and whole tables (`LegacyStampIsTruthfulIff`).
* **Placeholders are fresh only if no key `p<j>` is taken beyond the map's size**; this is exact
  (`OwnBindingsIffNamesFree`).
* **Requests of one instant share a member of the Redis set.** With at most `m` of them to an instant
  the Redis path admits at most `m` times `max_requests` in a window (`EveryRunIsLimited`), which is
  attained (`GridIsAdmitted`); so the promised bound, and being stricter than the local path, hold
  exactly when `m` is at most 1 (`LimitHoldsIff`, `RedisIsStricterIff`). A fallback starts a second
  list: with fallbacks the least bound on a window is `(m + 1)` times `max_requests`
  (`LimitsAllIff`), so twice the promised one even for distinct times (`FallbacksAddTheirOwn`).
* **Priority `unknown` can push the health score above 1**: every run over a set of clusters scores at
  most 1 exactly when each of them is ranked (`HealthIsAFractionIff`), which for anomaly scores that
  are not negative means not `unknown`, or an anomaly score of at least a third.
* **A span whose id is still hot is not restored by hydration**, and only then
  (`HydratingLaterRestoresIff`); two archivals in one second overwrite each other's file
  (`SameSecondLosesSpans`, and exactly what survives: `ArchivalKeepsAllButTheName`).
* **Colliding hashes serve the wrong embedding**: every run of calls over a set of texts returns the
  model's vectors exactly when texts with one hash have one vector (`CallsAreRightIff`). Repeating a
  call is free exactly when no two texts share a hash, whatever their vectors (`RepeatsAreFreeIff`):
  of two looked up together the first is embedded again every time (`CollidingTextsAreAskedAgain`).
* **`clear` leaves the template counts**, so the counts of current templates sum to the total
  exactly when none was counted before the last clear (`CountsSumToTheTotalIff`), and only then do
  the clusters add up to the logs (`NoLogIsLost`).
* **An SLO target above 100 can be missed without a breach**: exactly when nothing failed and the
  target asks for less than one event more than there were (`TargetAboveHundredDisagreesIff`).
* **Reopening an incident can leave two open for one objective**, exactly when one is already open
  (`ReopenKeepsOneIff`).

## Model

| member | source | states |
|---|---|---|
| `IngestionWorker.DecodedContent` | src/denoiser/workers/ingestion_worker.py:67-75 | a fetch adds to the batch exactly its decodable messages, each once, tagged with its own partition and offset |
| `IngestionWorker.IngestOneEffect` | src/denoiser/workers/ingestion_worker.py:63-77 | one fetch moves only its partition's position, appends to only its topic's batch and tracks the highest offset; commits and sink stay |
| `IngestionPoll.FetchTakesTheLog` | src/denoiser/workers/ingestion_worker.py:61-77 | a fetch from a partition that is not paused takes the next messages of its log: each that can be decoded is in the batch, and the last offset is pending |
| `IngestionPoll.PausedFetchesNothing` | src/denoiser/workers/ingestion_worker.py:103-109 | a paused partition yields nothing |
| `IngestionWorker.ForTenantCounted` | src/denoiser/workers/ingestion_worker.py:133-138 | a tenant's group holds each of the tenant's rows as often as the batch and no other row |
| `IngestionWorker.ForTenantAgain` | src/denoiser/workers/ingestion_worker.py:133-138 | grouping a group again gives the same group for its own tenant and nothing for another |
| `IngestionWorker.TenantRowsAccepted` | src/denoiser/workers/ingestion_worker.py:140-153 | when every insert is accepted, each tenant's rows land in their order of arrival |
| `IngestionWorker.FlushLandsTheBatch` | src/denoiser/workers/ingestion_worker.py:131-176 | a flush adds only rows of the batch; one that returns True adds exactly the batch, in order within each tenant; one that raises while grouping logs or opening a session adds nothing |
| `IngestionFlush.EachTenantLands` | src/denoiser/workers/ingestion_worker.py:131-153 | for every batch that can be grouped and every tenant, whatever the inserts of the other tenants answer: its rows land in full and in order when they can be stored and are accepted, a prefix of them when refused, none when one cannot be stored |
| `IngestionFlush.EachTraceLands` | src/denoiser/workers/ingestion_worker.py:155-176 | with a session that opens, a trace lands as often as the batch holds it with an accepted insert, whatever becomes of the other traces |
| `IngestionFlush.LogFlushAnswers` | src/denoiser/workers/ingestion_worker.py:131-153 | a log flush returns True exactly when every row can be stored and every tenant's insert is accepted, and raises exactly when some tenant cannot be a key |
| `IngestionFlush.TraceFlushAnswers` | src/denoiser/workers/ingestion_worker.py:155-176 | a trace flush returns True exactly when its session opens and closes and every trace can be stored and is accepted, and raises exactly when the session does |
| `IngestionWorker.CommitEffect` | src/denoiser/workers/ingestion_worker.py:89-92 | a commit moves only the topic's partitions, each exactly to its fetch position: all of them when it is acknowledged, those the broker applied when it raises, which also ends the loop |
| `IngestionWorker.CommitKeepsInv` | src/denoiser/workers/ingestion_worker.py:87-92 | committing the pending offsets of a batch that is in the sink is safe however many of them a failing commit applied |
| `IngestionWorker.FlushTopicKeepsInv` | src/denoiser/workers/ingestion_worker.py:79-111 | one pass of the flush loop keeps durability, position agreement and soundness, whatever the store and the broker answer |
| `IngestionFlush.OverdueIsFlushed` | src/denoiser/workers/ingestion_worker.py:79-85 | a batch of the batch size, or one not empty and last flushed the linger time ago or more, is flushed by the pass |
| `IngestionFlush.TurnFlushesOverdueLogs` | src/denoiser/workers/ingestion_worker.py:60-111 | so every turn flushes the logs when they are overdue after its poll |
| `IngestionFlush.TurnFlushesOverdueTraces` | src/denoiser/workers/ingestion_worker.py:60-111 | and then, unless an exception left the loop, the traces |
| `IngestionFlush.AfterAFlush` | src/denoiser/workers/ingestion_worker.py:87-111 | what a flush leaves: nothing once written and committed; the whole batch, one failure more and a new linger once refused, its partitions paused above the ceiling; after an exception what there was, and the loop is left |
| `IngestionFlush.AcceptedTenantReachesTheSink` | src/denoiser/workers/ingestion_worker.py:79-153 | after a due flush the sink holds every row of each tenant whose insert was accepted |
| `IngestionWorker.ShutdownKeepsInv` | src/denoiser/workers/ingestion_worker.py:120-129 | so does the final flush and commit, wherever an exception cuts it short |
| `IngestionPoll.StopFlushesOnceMore` | src/denoiser/workers/ingestion_worker.py:120-129 | a stop flushes what is left of the logs, due or not, and then, unless that raised, of the traces, and ends the worker |
| `IngestionPoll.RestartForgets` | src/denoiser/workers/ingestion_worker.py:40-51 | a new process starts from the commits with nothing in hand |
| `IngestionWorker.NextKeepsInv` | src/denoiser/workers/ingestion_worker.py:60-129 | so does every step: poll, flush, resume, stop, restart |
| `IngestionWorker.EveryRunIsDurable` | src/denoiser/workers/ingestion_worker.py:44-129 | in every reachable state each decodable message below a commit is in the sink, each fetched one is in the sink or in its batch, and a partition's position is its pending offset plus one, or its commit |
| `IngestionPoll.RunsContinue` | src/denoiser/workers/ingestion_worker.py:60-129 | a run does its steps one after the other |
| `IngestionWorker.TurnKeepsLoopHead` | src/denoiser/workers/ingestion_worker.py:96-118 | a turn not left by an exception ends with: an empty batch has no failures and no paused partition; a paused partition belongs to a failing topic over the ceiling that still holds its offset |
| `IngestionCeiling.TurnKeepsCeiling` | src/denoiser/workers/ingestion_worker.py:51-111 | a turn not left by an exception keeps a batch over the ceiling with all its pending partitions paused, and within the ceiling plus one poll of each pending partition |
| `IngestionCeiling.BatchIsBounded` | src/denoiser/workers/ingestion_worker.py:103-109 | so a batch holds at most the ceiling and one poll of every partition of its topic |
| `IngestionWorker.TopicsAreIndependent` | src/denoiser/workers/ingestion_worker.py:40-58 | flushing one topic leaves the other's batch, offsets, commits and pauses alone |
| `IngestionDelivery.DrainMovesTheGap` | src/denoiser/workers/ingestion_worker.py:120-126 | a clean final drain of a topic moves every fetched, uncommitted message of it into the sink once and commits it |
| `IngestionDelivery.CleanRunsDeliverExactlyOnce` | src/denoiser/workers/ingestion_worker.py:120-129 | over runs whose inserts and commits succeed and that stop gracefully, also across restarts, the sink holds each committed message once and each live batch each uncommitted one once |
| `IngestionDelivery.CleanStopLeavesOnlyMalformed` | src/denoiser/workers/ingestion_worker.py:120-126 | after a clean stop only malformed messages are fetched but not committed |
| `IngestionProgress.BatchCanLandIff` | src/denoiser/workers/ingestion_worker.py:131-176 | some answer of the store lets a batch of either topic be written exactly when no payload in it is always rejected and, for logs, every tenant is hashable |
| `IngestionProgress.StuckMessageStallsItsPartition` | src/denoiser/workers/ingestion_worker.py:79-111 | no run whatever commits past a parsed message that can never be written |
| `IngestionProgress.UnopenedTopicNeverCommits` | src/denoiser/workers/ingestion_worker.py:79-85 | a topic none of whose messages can be the first to be written never commits |
| `IngestionProgress.MalformedTopicNeverCommits` | src/denoiser/workers/ingestion_worker.py:72-85 | in particular a topic of malformed messages: they are never acknowledged |
| `IngestionProgress.CommitsPassIff` | src/denoiser/workers/ingestion_worker.py:60-129 | some run, restarts included, commits past a message exactly when nothing up to it in its partition is stuck and some message of its topic can be the first to be written |
| `IngestionProgress.StuckBatchStallsItsTopic` | src/denoiser/workers/ingestion_worker.py:54-128 | a stuck record in a topic's batch stays there, and no partition of the topic commits again, over every run without a restart |
| `IngestionProgress.PendingCommitsIff` | src/denoiser/workers/ingestion_worker.py:79-111 | without a restart the pending messages of a partition can be committed exactly when nothing in its topic's batch is stuck |
| `IngestionProgress.FetchedStuckMessageStallsItsTopic` | src/denoiser/workers/ingestion_worker.py:54-128 | after any run that has fetched a stuck message of any partition, no run without a restart commits anything more of any partition of that topic |
| `IngestionProgress.FetchedCommitsIff` | src/denoiser/workers/ingestion_worker.py:54-111 | in every reachable state what is pending of a partition can still be committed without a restart exactly when nothing fetched from any partition of its topic is stuck |
| `IngestionProgress.OtherPartitionIsStalled` | src/denoiser/workers/ingestion_worker.py:54-111 | an input: one good message that some run commits stays uncommitted for the life of a process that first fetched a stuck one of another partition |
| `IngestionLoop.GroupByTenant` | src/denoiser/workers/ingestion_worker.py:133-138 | the grouping loop yields the tenants in order of first appearance and each tenant's rows, or fails exactly on an unhashable tenant |
| `IngestionLoop.TakeEach` | src/denoiser/workers/ingestion_worker.py:67-77 | the loop over messages decodes or skips each and tracks its offset either way |
| `IngestionLoop.Worker.PollOnce` | src/denoiser/workers/ingestion_worker.py:61-77 | one poll changes the worker as the specification says |
| `IngestionLoop.Worker.InsertGroups` | src/denoiser/workers/ingestion_worker.py:140-153 | the insert loop goes on after a refusal, lands what the answers say and reports success exactly when all accepted |
| `IngestionLoop.Worker.FlushLogBatch` | src/denoiser/workers/ingestion_worker.py:131-153 | outcome and landed rows of a log flush are those `EachTenantLands` and `FlushLandsTheBatch` speak of |
| `IngestionLoop.Worker.FlushTraceBatch` | src/denoiser/workers/ingestion_worker.py:155-176 | outcome and landed rows of a trace flush |
| `IngestionLoop.Worker.SettleFlush` | src/denoiser/workers/ingestion_worker.py:87-111 | commit and clear, or keep the batch, count the failure and perhaps pause |
| `IngestionLoop.Worker.RunTurn` | src/denoiser/workers/ingestion_worker.py:60-118 | one turn of the loop is the specified sequence of steps, left early by an exception |
| `IngestionLoop.Worker.RunWorker` | src/denoiser/workers/ingestion_worker.py:60-129 | the whole worker: turns until an exception or cancellation, then the shutdown |
| `IngestionLoop.TurnsKeepLoopHead` | src/denoiser/workers/ingestion_worker.py:60-118 | any number of turns keeps durability and, while running, the backpressure condition |
| `IngestionLoop.TurnsKeepBatchesBounded` | src/denoiser/workers/ingestion_worker.py:51-111 | over any number of turns, when a poll returns at most `f` messages of a partition |
| `IngestionLoop.WorkerLifeIsDurable` | src/denoiser/workers/ingestion_worker.py:60-129 | after a worker's whole life a new process may start from its commits |
| `JobLock.KeysNeverCollide` | src/denoiser/api/joblock.py:53-55 | two occurrence keys are equal exactly when job and day are |
| `JobLock.LockServer.AcquireJobSlot` | src/denoiser/api/joblock.py:58-88 | without a server the job runs and nothing is set; with one it runs exactly when `SET NX EX` sets a free key and the reply comes back, and is refused when the server is unreachable or its reply lost |
| `JobLock.WinsAreTtlApart` | src/denoiser/api/joblock.py:71-88 | two wins of one key are at least the TTL apart, over any history with lost replies |
| `JobLock.WinnerIsFirstToReach` | src/denoiser/api/joblock.py:71-88 | within one TTL an attempt wins exactly when it is the first of its key to reach the server and its reply comes back |
| `JobLock.WinsWhenFreeAgain` | src/denoiser/api/joblock.py:71-88 | over any ordered history an attempt wins exactly when its reply comes back and every earlier one that set its key did so at least the TTL before |
| `RetentionJob.ObjectNameInjective` | src/denoiser/api/scheduler.py:77 | two files never share an object name |
| `RetentionJob.AttemptKeepsSafe` | src/denoiser/api/joblock.py:91-105 | a timely attempt never starts a second runner |
| `RetentionJob.WorkKeepsSafe` | src/denoiser/api/scheduler.py:62-87 | no step of the archival, failure or crash deletes a file whose complete gzip is not stored |
| `RetentionJob.MissingFileEndsTheJob` | src/denoiser/api/scheduler.py:62-69 | a listed file that is gone ends the job |
| `RetentionJob.FailureSkipsOneFile` | src/denoiser/api/scheduler.py:86-87 | any other failure leaves logs and object store alone and goes on with the next file |
| `RetentionJob.TimelyRunsDeleteOnlyArchivedFiles` | src/denoiser/api/scheduler.py:62-87 | in every interleaving of any number of replicas whose attempts are timely, one replica runs at a time and every deleted file's complete gzip is in the object store |
| `RetentionJob.OneOccurrenceHasOneRunner` | src/denoiser/api/scheduler.py:125-130 | when all attempts are for one key within one TTL, only one replica ever wins |
| `RetentionJob.OneOccurrenceIsSafe` | src/denoiser/api/scheduler.py:62-130 | lock and archiver together: such runs lose no file |
| `RetentionJob.LateAttemptLosesAFile` | src/denoiser/api/joblock.py:58-75 | with one more attempt at the TTL a run exists that loses a file |
| `RetentionJob.WidthIsSafeIff` | src/denoiser/api/joblock.py:58-105 | all runs whose attempts for one slot lie within a width lose no file exactly when it is at most the TTL |
| `RetentionJob.Host.Compress` | src/denoiser/api/scheduler.py:70-74 | the copy loop ends with the complete gzip or, when it raises, a shorter closed one |
| `RetentionJob.Host.Ship` | src/denoiser/api/scheduler.py:76-85 | upload, then delete source and archive; or drop the archive: either way no local archive is left unless deleting raises |
| `RetentionJob.Host.ArchiveFile` | src/denoiser/api/scheduler.py:68-87 | one old file is gone exactly when every operation succeeded, its complete gzip then being stored; a shipped or refused file leaves no local archive |
| `RetentionJob.Host.ArchiveOldLogs` | src/denoiser/api/scheduler.py:62-87 | the job's loop is one of the interleaved runs, and removes exactly the old listed files it archived, never the live one or one changed at the cutoff or since; the first listed file that is gone ends it |
| `RetentionJob.RunScheduled` | src/denoiser/api/scheduler.py:125-130 | the wrapped job is one attempt followed, only on a win, by the job's work; without a lock server, or as the first call of a free key with its reply delivered, it runs and archives exactly the listed files older than the cutoff whose operations all succeed |
| `Migrations.RepairsEffect` | src/denoiser/storage/migrations.py:108-134 | the repair adds exactly the missing legacy columns of existing tables, each with its index if wanted, and stamps nothing |
| `Migrations.ProbeSeesTheStart` | src/denoiser/storage/migrations.py:121-125 | probing column by column decides as if all were probed first |
| `Migrations.RepairedIsAdoptedExactly` | src/denoiser/storage/migrations.py:176-182 | repair and create_all complete the schema exactly when only legacy columns and whole tables were missing |
| `Migrations.LegacyStampIsTruthfulIff` | src/denoiser/storage/migrations.py:176-187 | adoption stamps always, and truthfully exactly in that case |
| `Migrations.LegacyIndexAfterAdoption` | src/denoiser/storage/migrations.py:124-131 | an indexed legacy column has its index afterwards exactly when it had it, or its table or column was missing |
| `Migrations.StartKeepsInv` | src/denoiser/storage/migrations.py:137-187 | one start dying after any number of transactions drops nothing and leaves no false stamp |
| `Migrations.StartsKeepInv` | src/denoiser/storage/migrations.py:137-187 | so does any number of them, in any mix of modes |
| `Migrations.FirstFullRunConverges` | src/denoiser/storage/migrations.py:159-187 | the first uninterrupted run ends complete and stamped with everything kept, and the next returns "managed" and changes nothing |
| `MigrationPaths.FinishedStart` | src/denoiser/storage/migrations.py:137-187 | for every setting and database: switched off, or under alembic already, a finished start changes nothing; otherwise it ends with every model table, every legacy column, the indexes of new tables and columns, and a stamp exactly if alembic is there |
| `MigrationPaths.SkippedStartChangesNothing` | src/denoiser/storage/migrations.py:144-146 | a start with automatic migration off changes nothing, wherever it dies |
| `MigrationPaths.ManagedStartChangesNothing` | src/denoiser/storage/migrations.py:169-171 | nor does one that finds the database stamped |
| `MigrationPaths.CreateAllNeverStamps` | src/denoiser/storage/migrations.py:150-154 | without alembic nothing is ever stamped |
| `MigrationPaths.StartsContinue` | src/denoiser/storage/migrations.py:137-187 | a history of starts is one start after another |
| `Migrations.Engine.RepairColumns` | src/denoiser/storage/migrations.py:117-134 | the repair loop, with a crash after any transaction, does a prefix of the specified transactions |
| `Migrations.Engine.BootstrapSchema` | src/denoiser/storage/migrations.py:137-187 | the bootstrap does the planned transactions, and returns the path exactly when it survives them |
| `QueryParser.BuildTree` | src/denoiser/query/parser.py:67-88 | the fold loop computes the specified tree for every token list, dangling and doubled operators included |
| `QueryParser.AppendingATermKeepsTheRest` | src/denoiser/query/parser.py:67-88 | appending an operator and a term, or a bare term, joins it to the tree parsed so far by that operator, the pending one, or AND |
| `QueryParser.LeavesAreTheTerms` | src/denoiser/query/parser.py:67-88 | the leaves in order are exactly the terms, after one empty text match when the query starts with an operator: no term is dropped |
| `QueryParser.CompileBindsFreshNames` | src/denoiser/query/parser.py:104-133 | compiling adds exactly one fresh placeholder per binding leaf, in order, and keeps every earlier binding |
| `QueryParser.CompilePreservesMeaning` | src/denoiser/query/parser.py:104-133 | the emitted condition, under the final map or any extension of it, means the And/Or of the leaf predicates |
| `QueryParser.CompileFailsIff` | src/denoiser/query/parser.py:118-121 | compilation raises exactly when some field name is not an identifier |
| `QueryParser.FieldNamesAreWords` | src/denoiser/query/parser.py:4 | such a name is a word of letters, digits and underscores, or one with a newline at its end |
| `QueryParser.OwnBindingsIffNamesFree` | src/denoiser/query/parser.py:106 | no leaf overwrites a binding exactly when the names it will pick are free |
| `QueryParser.ParamDict.CompileToSql` | src/denoiser/query/parser.py:104-133 | the recursion over the mutated parameter map computes the specification |
| `QueryParser.LeafInclusionLifts` | src/denoiser/query/parser.py:90-102 | if the SQL engine's leaves include the in-memory ones for a record, so do whole queries |
| `QueryParser.LeafInclusionLiftsBack` | src/denoiser/query/parser.py:90-102 | and the other way round |
| `QueryParser.LeavesOnALog` | src/denoiser/query/parser.py:90-98 | on a log given as its fields, a text is looked for anywhere in the printed log and a field is compared whole, both in lower case, a missing field as the empty text |
| `QueryParser.LeavesOnARow` | src/denoiser/query/parser.py:104-122 | on a stored row, a text is looked for in the message or the raw JSON, `source` and `level` are columns, and any other field is a key of the JSON |
| `QueryParser.CompiledAnswersAreInMemoryAnswers` | src/denoiser/query/parser.py:90-133 | when the leaves agree, the compiled query and the evaluator agree |
| `QueryText.TokenizerDropsOnlyWhitespace` | src/denoiser/query/parser.py:39 | the tokens without spaces are the query without spaces |
| `QueryText.FilterCounts` | src/denoiser/query/parser.py:39 | where what is kept is every character but spaces, each as often as it occurs |
| `QueryText.Parse` | src/denoiser/query/parser.py:39-88 | the whole of `parse_query`: tokens, what each is classified as, and the tree |
| `QueryText.PrintThenParse` | src/denoiser/query/parser.py:39-88 | printing any left-nested tree of identifier fields and quote-free texts and parsing it gives the tree back |
| `QueryText.BareFieldParses` | src/denoiser/query/parser.py:48-58 | an unquoted `field:value` without spaces or quotes parses to exactly that match, colons in the value included |
| `QueryText.WordParses` | src/denoiser/query/parser.py:53-62 | a word without spaces, a leading quote or an identifier before a colon, other than AND and OR, parses to a text match for itself |
| `QueryText.QueriesMeanTheirWords` | src/denoiser/query/parser.py:39-88 | words, fields and quoted phrases a space apart, with or without operators between them, parse to the left-nested AND and OR of what each of them means |
| `QueryText.FieldThenPhrase` | src/denoiser/query/parser.py:39-58 | a quoted phrase ends an unquoted value even without a space between them |
| `QueryText.PhraseThenWord` | src/denoiser/query/parser.py:39-62 | and what directly follows a phrase is a word of its own |
| `QueryText.EveryWordHolds` | src/denoiser/query/parser.py:67-102 | without OR every word has to hold, in memory and on a stored row |
| `QueryText.AnyWordHolds` | src/denoiser/query/parser.py:67-102 | with nothing but OR one is enough |
| `QueryText.ParsedQueriesCompile` | src/denoiser/query/parser.py:50-55 | whatever the text, the parsed query never makes the compiler raise |
| `CausalScorer.AllDelaysPermute` | src/denoiser/detection/causal_scorer.py:114-115 | the delays of a pair do not depend on the order of the events |
| `CausalLinks.DelaysAreMeetings` | src/denoiser/detection/causal_scorer.py:136-167 | a pair has one delay for each two events of its clusters, of two services and no further apart than the window, and it is the time from the one to the other |
| `CausalScorer.ForwardIsAllDelays` | src/denoiser/detection/causal_scorer.py:136-144 | visiting each unordered event pair once, in either role, gives the quadratic definition |
| `CausalScorer.SearchFindsAllDelays` | src/denoiser/detection/causal_scorer.py:136-167 | the early-breaking search over a sorted timeline finds for each pair exactly the multiset of all delays within the window |
| `CausalScorer.WindowSearch` | src/denoiser/detection/causal_scorer.py:136-167 | the double loop itself does, and keys `interactions` by ordered pairs without duplicates |
| `CausalScorer.LinksAreSound` | src/denoiser/detection/causal_scorer.py:172-216 | a pair gives a link exactly when it has two delays, so the empty-list test never fires; the leading cluster is the source, dominance is at least a half, the mean is within the window, confidence in (0.1, 1] |
| `CausalScorer.ConfidenceIsMonotone` | src/denoiser/detection/causal_scorer.py:204-216 | a shorter delay, more occurrences and a clearer lead never lower the confidence |
| `CausalScorer.LinkIgnoresOrder` | src/denoiser/detection/causal_scorer.py:179-216 | a link depends only on how often each delay occurs |
| `CausalLinks.LinkSaysTheMean` | src/denoiser/detection/causal_scorer.py:179-216 | a link is inferred exactly when it is what the delays say: it runs the way at least half of them do, its mean times the number of delays not against it is the sum of their lengths, dominance is their share, and confidence weighs closeness, frequency and dominance 0.4, 0.4 and 0.2 |
| `CausalScorer.InferOne` | src/denoiser/detection/causal_scorer.py:172-216 | the inference for one pair, counting signs in a loop |
| `CausalScorer.ConfidenceBounds` | src/denoiser/detection/causal_scorer.py:204-216 | with two occurrences, a mean delay that is not negative and half the delays behind it, the confidence lies above 0.1 and at most at 1 |
| `CausalScorer.LinkTimeline` | src/denoiser/detection/causal_scorer.py:136-237 | the links made from a sorted timeline are exactly those of the quadratic definition |
| `CausalScorer.Analyze` | src/denoiser/detection/causal_scorer.py:114-237 | on events in any order: sorting, searching and inferring make exactly the links of the quadratic definition on the events as given; no self-link; no two links join the same clusters in either direction |
| `CausalScorer.LinkOfIsSound` | src/denoiser/detection/causal_scorer.py:172-216 | every such link is sound for the window and the number of its delays |
| `CausalLinks.LinkOfSaysTheMean` | src/denoiser/detection/causal_scorer.py:114-216 | the links of a timeline are exactly those |
| `CausalLinks.CauseComesFirst` | src/denoiser/detection/causal_scorer.py:136-203 | where the events of one cluster always come `lo` to `hi` before those of the other, the link runs from it, with all delays behind it and a mean between `lo` and `hi` |
| `CausalScorer.LinksIgnoreInputOrder` | src/denoiser/detection/causal_scorer.py:114-115 | what is linked does not depend on input order or on how ties are sorted |
| `RateLimiter.ScoresAreTheWindow` | src/denoiser/api/middleware.py:122-133 | one pipeline run counts exactly the client's instants in the window, whether or not its key had expired |
| `RateLimiter.RedisCountsInstants` | src/denoiser/api/middleware.py:120-145 | over any run the Redis path admits a request exactly when the window ending with it holds at most `max` instants that reached the server, refused ones included |
| `RateLimiter.LocalCountsAdmissions` | src/denoiser/api/middleware.py:150-171 | the local path admits one exactly when fewer than `max` local admissions are in the window |
| `RateLimiter.ExpiryNeverChangesACount` | src/denoiser/api/middleware.py:129-130 | the key's expiry drops only what the trim would drop |
| `RateLimiter.RedisPathIsBounded` | src/denoiser/api/middleware.py:120-145 | the Redis path admits at at most `max` instants of any window, whatever falls back in between |
| `RateLimiter.EveryRunIsLimited` | src/denoiser/api/middleware.py:95-173 | when at most `m` requests of a client share an instant, the Redis path admits at most `m * max` of them in every window, the local path at most `max`, and any mix at most the sum; for distinct times, twice `max` |
| `RateLimiter.GridIsAdmitted` | src/denoiser/api/middleware.py:120-145 | which is attained: `m` requests at each of `max` instants of one window are all admitted |
| `RateLimiter.LimitHoldsIff` | src/denoiser/api/middleware.py:95-145 | the Redis path keeps every window of all such runs within `max` exactly when `m` is at most 1 |
| `RateLimiter.FallbacksAddTheirOwn` | src/denoiser/api/middleware.py:95-173 | the bound on a mix is attained too: `m` requests at each of `max` instants answered by Redis and `max` that fall back are all admitted in one window |
| `RateLimiter.LimitsAllIff` | src/denoiser/api/middleware.py:95-173 | with fallbacks no window of any such run exceeds a bound exactly when it is at least `(m + 1) * max` |
| `RateLimiter.FewInstantsAreFree` | src/denoiser/api/middleware.py:120-145 | as long as a client's requests share at most `max` instants all of them are admitted |
| `RateLimiter.RedisIsStricterIff` | src/denoiser/api/middleware.py:115-171 | on one trace Redis admits only what the local path would have admitted, for all traces with at most `m` requests to an instant, exactly when `m` is at most 1 |
| `RateLimiter.OneInstantIsFree` | src/denoiser/api/middleware.py:123-124 | any number of requests of one instant is admitted by the Redis path |
| `RateLimiterClients.OtherPathsPass` | src/denoiser/api/middleware.py:111-113 | a request to another path passes and leaves both stores alone; one to `/ingest` is admitted or rejected |
| `RateLimiterClients.OnlyOwnRequestsCount` | src/denoiser/api/middleware.py:115-171 | what becomes of a request is what would become of it had only its own host's requests to `/ingest` come before it |
| `RateLimiterClients.OnlyOwnAreAdmitted` | src/denoiser/api/middleware.py:115-171 | so a client's admissions are those of its own requests alone |
| `RateLimiterClients.FallbackForgets` | src/denoiser/api/middleware.py:150-171 | a fallback leaves only instants of the window in the client's list, its own last if it is admitted, and rejects only with the maximum in it |
| `RateLimiter.Middleware.RunPipeline` | src/denoiser/api/middleware.py:122-133 | the four commands in order leave the specified sorted set and return its size |
| `RateLimiter.Middleware.Dispatch` | src/denoiser/api/middleware.py:110-173 | one request's effect on both stores and whether it is passed on |
| `Drift.JaccardRange` | src/denoiser/analysis/drift.py:199-205 | similarity is symmetric, in [0, 1], and 1 exactly for equal token sets |
| `Drift.ScanFindsTheBest` | src/denoiser/analysis/drift.py:278-286 | the inner loop finds a best unclaimed cluster above the threshold, or there is none |
| `Drift.ScanTakesTheFirst` | src/denoiser/analysis/drift.py:283-286 | of several best candidates the first in the list is taken |
| `Drift.PairsAreGreedy` | src/denoiser/analysis/drift.py:277-290 | every pair took the best cluster not claimed by the pairs before it |
| `Drift.PairsAreOneToOne` | src/denoiser/analysis/drift.py:273-290 | with distinct ids no cluster is in two pairs |
| `Drift.MatchingIsMaximal` | src/denoiser/analysis/drift.py:277-290 | no two unmatched clusters are similar enough to be matched |
| `DriftReport.MatchedAreAlike` | src/denoiser/analysis/drift.py:198-290 | what is matched shares more than two fifths of its tokens, in whole tokens, or has none; no two clusters left over do |
| `DriftReport.MoreSharedIsMoreSimilar` | src/denoiser/analysis/drift.py:198-204 | of two candidates the more similar is the one that shares the larger part of the tokens |
| `DriftReport.PairsFollowTheRun` | src/denoiser/analysis/drift.py:277-290 | the clusters of the earlier run choose in its order |
| `Drift.VolumeKinds` | src/denoiser/analysis/drift.py:299-333 | at equal rank a surge or a drop is exactly a change of at least half the old size, in whole lines |
| `DriftReport.KindIsExact` | src/denoiser/analysis/drift.py:299-340 | a pair escalates exactly when its new priority is more severe, in the order P0 to P3 and then all others, improves when less; at equal rank volume decides, and a spike is a rise of at least 0.15 |
| `DriftReport.PairEvent` | src/denoiser/analysis/drift.py:342-352 | the event of a pair names both clusters and priorities, the change of volume against the old one and of the anomaly score, and its severity by kind and new priority |
| `DriftReport.UnpairedEvents` | src/denoiser/analysis/drift.py:355-379 | what went is an event of low severity, what came of high severity with priority P0 or P1 |
| `Drift.ReversedRunsReverseKinds` | src/denoiser/analysis/drift.py:307-340 | exchanging the runs exchanges escalation and improvement, turns a doubling into a drop and never keeps a spike |
| `Drift.EveryClusterHasOneEvent` | src/denoiser/analysis/drift.py:292-379 | with distinct ids the events mention every cluster of either run exactly once, so there are A + B - pairs of them |
| `Drift.SortContent` | src/denoiser/analysis/drift.py:381-385 | sorting permutes the events into the order of severity and kind |
| `Drift.SortIsStable` | src/denoiser/analysis/drift.py:385 | events of equal rank keep their order |
| `Drift.SortedReportIsThePartition` | src/denoiser/analysis/drift.py:292-385 | the sorted report is still that partition |
| `DriftReport.ReportIsInOrder` | src/denoiser/analysis/drift.py:381-385 | no event of a report stands before a more severe one, nor before one as severe and of a more urgent kind |
| `DriftReport.ReachingP0ComesFirst` | src/denoiser/analysis/drift.py:208-211 | a matched pair that reached P0 from below is a critical event of the report, with only critical ones before it |
| `DriftReport.CriticalMeansReachingP0` | src/denoiser/analysis/drift.py:208-220 | and every critical event is such a pair |
| `DriftReport.TableOfAReport` | src/denoiser/analysis/drift.py:149-177 | each entry of the table is the number of pairs of its kind, or of clusters without a match |
| `DriftReport.ReportAddsUp` | src/denoiser/analysis/drift.py:387-404 | a report counts both runs, mentions each cluster once, and its health change leads from one run's health to the other's |
| `Drift.StableIsWhatIsLeft` | src/denoiser/analysis/drift.py:174-175 | the count computed by subtraction is the number of stable events |
| `Drift.CountsOfAReport` | src/denoiser/analysis/drift.py:149-177 | emerged and resolved count the unmatched clusters, the other six share the pairs |
| `Drift.SelfComparisonIsSilent` | src/denoiser/analysis/drift.py:268-390 | comparing a run with itself pairs every cluster with itself, shared token sets or not, gives only stable events and no health change |
| `Drift.HealthIsAFraction` | src/denoiser/analysis/drift.py:223-233 | health is never negative, and at most 1 for runs of ranked clusters |
| `DriftReport.HealthOfOne` | src/denoiser/analysis/drift.py:223-233 | the health of one cluster is the mean of its priority's place, a third each, and what its anomaly leaves of 1; of an empty run, 1 |
| `DriftReport.HealthIsAMean` | src/denoiser/analysis/drift.py:223-233 | the health of a run is half the mean of its clusters' shares |
| `DriftReport.TotalConcat` | src/denoiser/analysis/drift.py:231-233 | which add up over any split of the run |
| `Drift.HealthIsAFractionIff` | src/denoiser/analysis/drift.py:223-233 | every run over a set of clusters has a health in [0, 1] exactly when each of them is ranked |
| `Drift.RankedForScores` | src/denoiser/analysis/drift.py:231-232 | for an anomaly score that is not negative, ranked means not `unknown`, or a score of at least a third |
| `Drift.LoneClusterIsRankedIff` | src/denoiser/analysis/drift.py:231-233 | a single cluster scores at most 1 exactly when it is ranked |
| `Drift.UnknownPriorityScoresAboveOne` | src/denoiser/analysis/drift.py:231-233 | one cluster of priority unknown scores above 1 |
| `Drift.FindBest` | src/denoiser/analysis/drift.py:278-286 | the inner loop |
| `Drift.MatchRuns` | src/denoiser/analysis/drift.py:272-290 | the matching loops, greedy and maximal |
| `Drift.ChangeEvents` | src/denoiser/analysis/drift.py:294-352 | the loop over pairs classifies each in the order rank, volume, anomaly |
| `Drift.Compare` | src/denoiser/analysis/drift.py:247-404 | the whole report |
| `EmbeddingCache.CallsFailOnlyWithTheModel` | src/denoiser/embeddings/provider.py:113-168 | whatever the hash does, a call fails only when the model does and then stores nothing: the "missing embedding" error is unreachable |
| `EmbeddingCache.EmbedRefinesTheModel` | src/denoiser/embeddings/provider.py:113-168 | over texts that share a hash only if they share their vector, with a consistent table, a call returns the model's vector of every text in order and keeps what the table had, which stays consistent |
| `EmbeddingCache.RepeatEncodesNothing` | src/denoiser/embeddings/provider.py:120-131 | over texts with distinct hashes, an immediate repeat asks the model for nothing and returns the same |
| `EmbeddingCache.CallsAskTheUncached` | src/denoiser/embeddings/provider.py:127-150 | over texts with distinct hashes, a successful call asks the model for exactly the uncached ones in order, each as often as it occurs; a failing one for a prefix of them |
| `EmbeddingCache.EmbeddedTextsAreNotAskedAgain` | src/denoiser/embeddings/provider.py:113-168 | over any run of calls on texts with distinct hashes, a text that one call embedded is never asked again |
| `EmbeddingCache.CallsAreRightIff` | src/denoiser/embeddings/provider.py:41-168 | every successful call of every run from an empty table, over a set of texts, returns the model's vectors exactly when texts with one hash have one vector |
| `EmbeddingCache.SecondTextIsRightIff` | src/denoiser/embeddings/provider.py:41-65 | the input: a second text gets its own vector exactly when the hashes differ or the vectors are equal |
| `EmbeddingCache.RepeatsAreFreeIff` | src/denoiser/embeddings/provider.py:46-65 | repeating a first call asks the model for nothing, for all texts of a set, exactly when their hashes are distinct |
| `EmbeddingCache.CollidingTextsAreAskedAgain` | src/denoiser/embeddings/provider.py:46-65 | the input: of two texts with one hash in one chunk the first is embedded again |
| `EmbeddingCache.Cache.FetchMany` | src/denoiser/embeddings/provider.py:46-65 | the look-up, rows in any order, later text winning a collision |
| `EmbeddingCache.Cache.StoreMany` | src/denoiser/embeddings/provider.py:67-82 | insert or replace, nothing on a length mismatch |
| `EmbeddingCache.Provider.EncodeChunks` | src/denoiser/embeddings/provider.py:137-150 | the chunked encoding, and what the model was asked when a chunk fails |
| `EmbeddingCache.Provider.Embed` | src/denoiser/embeddings/provider.py:113-168 | the whole call |
| `SpanArchiver.ArchiveNamesDiffer` | src/denoiser/storage/archiver.py:65 | archives of different seconds have different names |
| `SpanArchiver.ArchivalMovesTheOld` | src/denoiser/storage/archiver.py:47-85 | a committed archival moves exactly the spans older than the cutoff into the file, and the upload is that file |
| `SpanArchiver.FailedArchivalKeeps` | src/denoiser/storage/archiver.py:47-86 | an archival with nothing old changes nothing; a failed write keeps both stores and leaves the lines before it, a commit not applied keeps the hot store, a failed upload the object store |
| `SpanArchiver.HydratingLaterRestoresIff` | src/denoiser/storage/archiver.py:47-209 | however an archival's upload and commit turned out and whatever happened since, hydrating its file restores every archived span on all serialised fields exactly when none of their ids is in use by then |
| `SpanArchiver.HydratingUndoesArchivingIff` | src/denoiser/storage/archiver.py:159-209 | directly after a committed archival: exactly when no id is on both sides of the cutoff |
| `SpanArchiver.DistinctIdsAreNotShared` | src/denoiser/storage/archiver.py:173-175 | which distinct span ids ensure |
| `SpanArchiver.RestoredRowsAreNew` | src/denoiser/storage/archiver.py:176-189 | any hydration leaves what is hot and adds rows after it with no tenant and the next primary keys, which no row has |
| `SpanArchiver.KeysStayDistinct` | src/denoiser/storage/archiver.py:44-214 | over every run from an empty store of arrivals, archivals and hydrations no two rows share a primary key, and the next key is above all of them |
| `SpanArchiver.SecondHydrateRestoresNone` | src/denoiser/storage/archiver.py:173-190 | a second hydration restores nothing |
| `SpanArchiver.HydratingFromTheBucket` | src/denoiser/storage/archiver.py:144-190 | a file only in the object store is fetched and every span it holds is hot afterwards, all of them restored when none of their ids is in use |
| `SpanArchiver.BucketReplacesTheFile` | src/denoiser/storage/archiver.py:144-156 | losing the local file changes nothing about a hydration that can download it |
| `SpanArchiver.UnreachableFileIsAnError` | src/denoiser/storage/archiver.py:144-157 | a file found nowhere is an error that changes nothing |
| `SpanArchiver.RaisedHydrationIsAnError` | src/denoiser/storage/archiver.py:207-212 | a hydration whose commit raises is an error, and has added all of its rows or none |
| `SpanArchiver.ItemsAreLabelled` | src/denoiser/storage/archiver.py:51-63 | a line of an archive holds the times and names of its span under their own keys |
| `SpanArchiver.ArchivalKeepsAllButTheName` | src/denoiser/storage/archiver.py:65-85 | after an archival exactly those spans are known that were known apart from an earlier file of the same name |
| `SpanArchiver.NothingIsLost` | src/denoiser/storage/archiver.py:44-214 | over any run with distinct archive names, through failed writes, uploads and commits, a span stays in the hot store or in an archive |
| `SpanArchiver.ArrivalsStayKnown` | src/denoiser/storage/archiver.py:44-214 | so every span that arrives in such a run is still hot or in an archive at its end |
| `SpanArchiver.ArchivalKeepsCopies` | src/denoiser/storage/archiver.py:47-86 | a committed archival under a fresh name keeps the number of copies of every span, any other never lowers it |
| `SpanArchiver.NoCopyIsLost` | src/denoiser/storage/archiver.py:44-214 | over any such run the copies of a span in the hot store and in finished files never become fewer |
| `SpanArchiver.SameSecondLosesSpans` | src/denoiser/storage/archiver.py:65-68 | two archivals in one second lose the first file's spans |
| `SpanArchiver.Engine.RunArchival` | src/denoiser/storage/archiver.py:44-86 | the span branch of the archival, where a write that raises leaves a shorter file, readable if it could be closed |
| `SpanArchiver.Engine.HydrateArchive` | src/denoiser/storage/archiver.py:136-214 | hydration, the duplicate check seeing committed rows only |
| `Deduplication.PoolContent` | src/denoiser/preprocessing/deduplication.py:30-57 | after any adds and clears a template's count is how often it was ever added and its group the first hundred of its records since the last clear; the total counts those records |
| `Deduplication.CountedByText` | src/denoiser/preprocessing/deduplication.py:40-57 | records share a count and a group exactly by their normalised text, those without one by their raw text |
| `Deduplication.OrderContent` | src/denoiser/preprocessing/deduplication.py:49-61 | the template list holds each current template once and `unique_count` is its length |
| `Deduplication.CountsSumToTheTotalIff` | src/denoiser/preprocessing/deduplication.py:71-89 | counts of the current templates sum to the total exactly when none was counted before the last clear |
| `Deduplication.ClearedTemplateIsCountedTwice` | src/denoiser/preprocessing/deduplication.py:85-89 | adding a record, clearing and adding it again leaves a total of 1 that the counts exceed |
| `Deduplication.Deduplicator.AddRecord` | src/denoiser/preprocessing/deduplication.py:30-57 | one add |
| `Deduplication.Deduplicator.ClearAll` | src/denoiser/preprocessing/deduplication.py:85-89 | one clear, which leaves the template counts |
| `Clustering.ClustersPartition` | src/denoiser/clustering/hdbscan_clusterer.py:201-252 | for any labelling the clusters hold every template as often as given and their sizes sum to the counts |
| `Clustering.BuildClusters` | src/denoiser/clustering/hdbscan_clusterer.py:191-262 | one cluster per label in any order of labels, partitioning the templates, sorted by size descending |
| `Clustering.NoLogIsLost` | src/denoiser/clustering/hdbscan_clusterer.py:230-231 | end to end: however labelled, the clusters share out the logs added since the last clear, and once more those added before it that have a current template; so exactly the former when there are none of the latter, as without a clear |
| `Slo.BreachedIffBelowTarget` | src/denoiser/slo/engine.py:76-91 | with a target of at most 100 the status is BREACHED exactly when the value is below the target, the evaluator's own test |
| `Slo.TargetAboveHundredDisagreesIff` | src/denoiser/slo/engine.py:79-83 | above 100 exactly when the two tests disagree |
| `Slo.WarningIffMostIsSpent` | src/denoiser/slo/engine.py:85-91 | WARNING means more than eight tenths of a positive budget, but not all of it, is spent |
| `SloReport.StatusOfEachKind` | src/denoiser/slo/engine.py:38-91 | with a target of at most 100: an availability objective is BREACHED exactly when its available events fall short of the target, a latency one when its fast ones do, any other never |
| `SloReport.AllowanceIsTheRest` | src/denoiser/slo/engine.py:79-81 | the failures allowed are the events times what the target leaves of 100, in hundredths |
| `SloReport.BudgetIsExact` | src/denoiser/slo/engine.py:79-83 | the budget is that allowance in whole events, rounded towards zero; what remains and what failed make it up |
| `SloReport.BurnRateIsTheShareSpent` | src/denoiser/slo/engine.py:85 | the burn rate is the share of a positive budget that has failed, else 0 |
| `SloReport.NoEventsIsHealthy` | src/denoiser/slo/engine.py:69-75 | without events or an answer: healthy, 100, nothing spent |
| `SloReport.ValueIsAPercentage` | src/denoiser/slo/engine.py:77 | a value is the percentage of good events, 100 without events |
| `Slo.StatusIsMonotone` | src/denoiser/slo/engine.py:76-91 | fewer good events never improve the status |
| `Slo.CalculateStatus` | src/denoiser/slo/engine.py:26-141 | the whole calculation: healthy and without points when there are no events, otherwise one point with its value for every day |
| `Slo.DataPoints` | src/denoiser/slo/engine.py:124-130 | one point per day, 100 for a day without events |
| `Slo.EvaluationKeepsOneOpen` | src/denoiser/workers/analysis_worker.py:468-561 | one evaluation keeps at most one open incident per key |
| `Slo.RunsKeepOneOpen` | src/denoiser/workers/analysis_worker.py:469-561 | over any run of evaluations, resolves and deletes each tenant, service and objective name has at most one open breach incident, and each tenant and name one forecast |
| `Slo.BreachIsReported` | src/denoiser/workers/analysis_worker.py:468-503 | a breach leaves exactly one open incident for its objective, showing the latest value |
| `Slo.ForecastIsReported` | src/denoiser/workers/analysis_worker.py:505-561 | without a breach a forecast leaves exactly one open warning and touches nothing else |
| `Slo.RefreshOnlyRewritesTheSummary` | src/denoiser/workers/analysis_worker.py:481-489 | an evaluation changes nothing of an existing incident but its summary |
| `SloReport.BreachRefreshesOrOpens` | src/denoiser/workers/analysis_worker.py:468-503 | a breach refreshes the latest open incident of its tenant, service and title, and only its reported value; where none is open it opens one with the next id, not predictive |
| `SloReport.ForecastOpensOnce` | src/denoiser/workers/analysis_worker.py:505-561 | without a breach a forecast opens a predictive warning exactly where none is open for its tenant and title; nothing else changes anything |
| `SloReport.OpenIncidentsDiffer` | src/denoiser/workers/analysis_worker.py:474-479 | no two open incidents of such a run have the same tenant, service and breach title, or the same tenant and warning title |
| `SloReport.EveryBreachIsOpen` | src/denoiser/workers/analysis_worker.py:438-561 | after the periodic task every objective sampled below its target has an open incident |
| `Slo.RunsDescend` | src/denoiser/workers/analysis_worker.py:482-484 | whatever happens later an incident keeps its creation time and identity |
| `Slo.ReopenKeepsOneIff` | src/denoiser/api/main.py:945 | reopening keeps one open incident exactly when none is open |
| `SloReport.UserStepsChangeOne` | src/denoiser/api/main.py:940-962 | resolving and reopening set the state of the incidents with that id; deleting takes exactly those out |
| `SloReport.RunsContinue` | src/denoiser/workers/analysis_worker.py:438-561 | a run does its steps one after the other |
| `Slo.Evaluator.EvaluateSlos` | src/denoiser/workers/analysis_worker.py:422-575 | the loop over objectives |

## Left out

- Kafka rebalances, and offsets that compaction has removed: every partition keeps its consumer, and offsets are consecutive.
- One trace is one row: its spans are converted first and sent in one insert. Whether a payload can be stored is a property of the message, given with it.
- IngestionWorker.FlushLandsTheBatch: does not promise that a trace flush that raised added nothing, because closing the session may raise after its rows have landed.
- A final flush commits a topic's pending offsets only when its batch is not empty, as in the source; malformed messages after the last batch are read again after a restart (`CleanStopLeavesOnlyMalformed`).
- Two writers of one gzip file: a second opener truncates it and both then write their own content from the start, rather than interleaving bytes.
- Retention: the directory listing, the age test and the settings are inputs; files that appear or change during a run are not modelled.
- Jobs other than the log archival run under the same lock but only their keys are modelled.
- Alembic commands and each repair are atomic; the one existing migration is the baseline, so upgrading a stamped database does nothing. Databases without transactional DDL are not modelled.
- Concurrent schema starts and concurrent SLO evaluators: the source makes no claim about them.
- The SQL text: a compiled query is its condition tree, and the leaf predicates of both engines are abstract, since ILIKE, case folding and `str(log)` differ by design.
- CausalScorer: building the timeline from templates, looking up service names, rounding and the final sort by confidence.
- RateLimiter.EveryRunIsLimited: for one middleware process and one clock shared with Redis; requests of several processes in one Redis key are one run of the Redis path, but each process has its own local list.
- Drift: descriptions, the summary text, rounding, and the regular expression that makes token sets.
- EmbeddingCache: float32 conversion; vectors are what the table stores exactly. SQLite errors.
- SpanArchiver: the ClickHouse log branch of archiving and hydrating, missing timestamps, and the ISO and JSON libraries, taken to read back what they wrote. A failing write leaves whole lines. Primary keys come from a counter: that SQLite may give the key of a deleted row to a new one is not modelled; no archive holds keys.
- Clustering: HDBSCAN, centroids, representative records and projections.
- Slo: Holt-Winters, stored data points and the simulated event counts are inputs; incidents that other parts of the system create with an evaluator's title are not modelled.
- Redaction, normalisation, severity weights, alert routing, CRUD routers, access control, billing, collectors, the agent and the web UI would only add single-branch facts.
- The causal and drift results are stated before rounding to the displayed digits.
