# Verification model of the tamper-evident audit log service

The service keeps an append-only log. Each entry stores the SHA-256 of its own text and of the entry
before it; a `chain_head` row holds the latest hash and is locked while an entry is added. Redis caches
entries and a summary of the latest one, and a queue gets one verification job per entry. This project
models that core in Dafny and proves what it guarantees for all inputs, all lists of entries and all
interleavings of clients.

How the parts fit:

- `LogEntries`, `HashService`, `PreimageParser`: entries, the bar-joined text that is hashed, and which of
  its fields can be read back. SHA-256, ISO dates, `JSON.stringify` and the effect of a JSONB column are the
  four functions of an `Env`. `WellBehaved` says what is assumed of them: digests are 64 lowercase hex
  digits, ISO dates have no bar and are not empty. The hash is **not** assumed injective; results that depend
  on it say "equal, or here are two texts with one hash". `FaithfulStringify` is asked for only where the
  fields themselves are compared.
- `ChainVerifier`, `Tampering`, `HeadBinding`: the whole-chain verifier as a loop, proved against a
  declarative specification with one answer; where each kind of tampering is reported; what the last hash fixes.
- `Database`, `Ordering`: the atomic append and its replay; logs read back ordered by `createdAt`, with ties
  in any order, against the order in which they were linked.
- `WriterProtocol`, `SystemProtocol`: the state machine. A writer samples its time, waits for the lock, hashes,
  inserts, updates the head, commits or aborts, sets `latest_log`, enqueues a job and returns, or crashes on the
  way; a reader looks in the cache, queries, and fills the cache. Redis may fail, carry out a request after its
  sender gave up (two such requests may be alike, and each is carried out), and drop keys; the worker takes
  jobs. A run is any sequence of enabled steps.
- `ClientSteps`: one client in a run, the order of its steps, stopping it, and what it does undisturbed.
- `Guarantees`, `NonInterference`, `LatestLog`: what holds of every run. `TwoWriters`: runs that show which
  unwanted states are reachable.
- `LogRepository`, `RedisService`, `QueueService`, `LogService`: the classes, with their fields and methods,
  proved against the same functions that the state machine uses, and in terms of the stored fields themselves.
  `WriterProtocol.SoloTransaction` and `ClientSteps.SoloCreate` tie the two: a call that no one gets in between
  does what the class method does. A commit whose acknowledgement is lost is `AtCommit(true)` in the class, and a
  `Commit` followed by a `Crash` in the machine.
- `Pagination`, `FetchedPages`: page parameters, the pages of a list, and pages fetched by separate queries.

Where the code and its own documentation differ, the model follows the code:

- The verifier's comment speaks of chronological order and the repository's README of instantly detectable
  modification. The code orders by `createdAt`, which is sampled before the lock, while entries are linked in
  lock order. `Guarantees.IntegrityCheckOfRuns` gives the exact condition under which an honest log verifies;
  an inversion (`InversionFailsIntegrityCheck`) or a tie (`Ordering.TieBreaksSomeOrdering`) makes it fail, and
  `TwoWriters.TimesInAnyOrder` shows that two clients are enough for either.
- The verifier never looks at `chain_head`, so a log that lost its tail is accepted (`ChainVerifier.AcceptedPrefix`);
  `Guarantees.HeadBindsContent` says what comparing its last hash with the head would add.
- `prisma/schema.prisma` says the first entry's `previousHash` is null; the code stores `GENESIS` and accepts both.
- The payload is hashed as sent and verified as stored. `Database.WrittenLogAccepted` gives the exact condition.
- `join('|')` is not injective. `PreimageParser.PreimageRoundTrip` and `BarsMakePreimagesAmbiguous` give the
  exact condition under which a record can be told from its text.
- `src/services/log.service.js` lets several clients set `latest_log` after their commits in any order.
  `LatestLog.LatestLogIsLastRow` says exactly when the summary is the latest one, and
  `TwoWriters.LatestLogLags` gives runs in which it is not.
- `findAll` orders pages by `createdAt` alone, so two page queries may order a tie differently.
  `FetchedPages.FetchedPagesPartition` gives the exact condition under which the pages still partition the log.

Assumed of the environment: the `chain_head` row with id 1 exists and starts with `GENESIS`; a client waiting
on `FOR UPDATE` sees what the previous holder committed; a violated unique index aborts the transaction; JSON
parsing undoes JSON printing for payloads read from the database.

## Model

| member | source | states |
|---|---|---|
| HashService.JsonImageKeepsPreimage | src/services/hash.service.js:47-56 | an entry that went through JSON (its date now ISO text) is hashed from the same text as before |
| HashService.JsonImageKeepsStatus | src/services/log.service.js:105-106 | a cached entry gets the verification status of its row |
| PreimageParser.PreviousHashRecoverable | src/services/hash.service.js:48-56 | the previous hash can be read back from the hashed text, whatever the other fields hold |
| PreimageParser.TimestampRecoverable | src/services/hash.service.js:48-56 | the timestamp can be read back from the hashed text, whatever the other fields hold |
| PreimageParser.PreimageRoundTrip | src/services/hash.service.js:48-56 | splitting at the first three bars and the last recovers all five fields if and only if actor and action have no bar |
| PreimageParser.EntryText | src/services/hash.service.js:45-59 | the hashed text of an entry, field by field: previous hash, actor, action, JSON or the word null, date |
| PreimageParser.BarsMakePreimagesAmbiguous | src/services/hash.service.js:48-56 | another actor and action give a record the same preimage, and so the same hash, if and only if it has a bar in one of them |
| PreimageParser.PreimageDeterminesContent | src/services/hash.service.js:45-59 | bar-free records with one preimage have the same previous hash, actor, action, payload and time |
| ChainVerifier.VerifyEntireChain | src/services/hash.service.js:169-228 | the loop accepts exactly the chains, and otherwise reports the least violating index, link before hash, with its id and both hashes |
| ChainVerifier.VerifyChain | src/services/hash.service.js:238-245 | the legacy result is valid exactly for chains, and names the first violating entry unless its id is empty |
| ChainVerifier.ReportIsUnique | src/services/hash.service.js:169-228 | the specification leaves the verifier exactly one answer |
| ChainVerifier.AcceptedInFull | src/services/hash.service.js:169-228 | a list is accepted exactly if its first entry, and each later one after the entry before it, passes in those terms |
| ChainVerifier.FirstInFull | src/services/hash.service.js:177-225 | the first entry passes exactly if its link is null or GENESIS and its hash is the SHA-256 of its text after GENESIS |
| ChainVerifier.NextInFull | src/services/hash.service.js:191-225 | a later entry passes exactly if its link is the hash before it and its hash is the SHA-256 of its text after that hash |
| ChainVerifier.NullIsGenesis | src/services/hash.service.js:177-189 | a list whose first entry links to GENESIS is accepted exactly if it is with null in that place |
| ChainVerifier.EntryInFull | src/services/hash.service.js:126-135 | a single entry passes exactly if its hash is the SHA-256 of its text; a missing previous hash counts as GENESIS |
| ChainVerifier.PrefixBeforeViolation | src/services/hash.service.js:174-225 | the first violation is at i exactly if the i entries before it are a chain and the i + 1 are not |
| ChainVerifier.AcceptedPrefix | src/services/hash.service.js:174-227 | a log that lost its tail is still accepted |
| ChainVerifier.AcceptedAppend | src/services/hash.service.js:174-227 | one more entry keeps acceptance exactly if it links to the tip and its hash recomputes from it |
| ChainVerifier.ChainIsLinksPlusStatuses | src/services/log.service.js:117-118 | whole-chain acceptance is the genesis rule, the links, and every entry's own status from getLogById |
| ChainVerifier.StatusesAloneAreNotEnough | src/services/hash.service.js:126-135 | any two entries that link to GENESIS and both pass alone are reported, as a list, at the second: linkage broken |
| ChainVerifier.TwoFirstEntries | src/services/hash.service.js:126-135 | such a pair exists for any two bar-free actors, with different ids and with hashes that the unique index tells apart, or the two texts collide |
| Tampering.ContentChange | src/services/hash.service.js:206-224 | rewriting an entry's text is reported at that entry with both hashes, unless the new text has the old hash, and then it is accepted |
| Tampering.StoredHashChange | src/services/hash.service.js:215-224 | overwriting a stored hash is reported at that entry as a hash mismatch |
| Tampering.StoredLinkChange | src/services/hash.service.js:178-204 | overwriting a previousHash is reported at that entry, except between null and GENESIS on the first |
| Tampering.Replacement | src/services/hash.service.js:174-225 | any replacement of an entry, hashes included, is reported at it, or at its successor if it is a proper next entry with a new hash; else the list is accepted, so a consistent rewrite of the last entry passes |
| Tampering.InteriorDeletion | src/services/hash.service.js:195-204 | removing an interior block is reported at the first survivor after it, linkage broken, with both hashes |
| Tampering.LeadingDeletion | src/services/hash.service.js:178-189 | removing a proper leading block is reported at the new first entry under the genesis rule |
| Tampering.Insertion | src/services/hash.service.js:174-225 | an inserted entry with a new hash is reported at itself or at the entry it displaced |
| Ordering.Reordering | src/services/hash.service.js:174-225 | a rearrangement of an accepted list is accepted only if it is the same list |
| HeadBinding.TipBindsChain | src/services/hash.service.js:169-228 | two accepted lists with one last hash have the same length and preimages, or a computed pair of entries collides |
| HeadBinding.EqualEndsChainToOneTip | src/services/hash.service.js:191-204 | equal last preimages make the lists before them end in one hash |
| HeadBinding.SamePreimagesMeanSameContent | src/services/hash.service.js:48-56 | equal preimages mean equal content, entry by entry, where bars do not blur it |
| Database.ReplayShape | src/repositories/log.repository.js:186-190 | after any sequence of appends the head holds the last row's hash and id, or GENESIS and none |
| Database.ReplayedRow | src/repositories/log.repository.js:171-184 | each row of a written log comes from its append, chained to the head before it |
| Database.NewRowInFull | src/repositories/log.repository.js:171-184 | all seven fields of the row that an append stores |
| Database.RowsAreWhatWasHashed | prisma/migrations/20260707205455_init/migration.sql:6 | the stored rows are exactly what was hashed if and only if JSONB keeps each payload that was sent |
| Database.HashedEntriesAccepted | src/repositories/log.repository.js:171-190 | what the writers hashed is a chain that ends in the head hash |
| Database.RowsAreLinked | src/repositories/log.repository.js:171-184 | stored rows link to each other whatever storage does to payloads |
| Database.RowsAreDistinct | prisma/migrations/20260707205455_init/migration.sql:12-16 | the key and the unique index admit every append exactly if ids and hashes are unique in the result |
| Database.NoForks | src/repositories/log.repository.js:139-141 | no two rows share a previousHash, and only the first has GENESIS |
| Database.PayloadDecidesPreimage | src/services/hash.service.js:52-54 | changing only the payload keeps the preimage exactly if both payloads print alike |
| Database.StatusOfNewRow | src/repositories/log.repository.js:171-184 | a new row passes getLogById's check exactly if its payload survives JSONB, or collides |
| Database.AppendKeepsAcceptance | src/repositories/log.repository.js:171-190 | a created entry keeps the log acceptable exactly if it passes that check |
| Database.WrittenLogAccepted | prisma/migrations/20260707205455_init/migration.sql:6 | a written log is accepted exactly if each payload survives JSONB or its stored form collides with the hashed one |
| Database.HeadBindsLog | src/repositories/log.repository.js:186-190 | an accepted list ending in the head hash has the preimages the writers hashed, or collides with them |
| Ordering.SortByTimeIsOrdering | src/repositories/log.repository.js:86-88 | an ordering by createdAt always exists |
| Ordering.OrderingIsUnique | src/repositories/log.repository.js:86-88 | with strictly increasing times the ordered query has one answer |
| Ordering.LinkedOrderIsUnique | src/services/hash.service.js:191-204 | two linked arrangements of the same entries are equal |
| Ordering.VerifyingOrderIsUnique | src/services/hash.service.js:174-225 | a rearrangement of a written log is accepted exactly if it is commit order and that is accepted |
| Ordering.InversionBreaksEveryOrdering | src/services/verification.service.js:28-31 | a time inversion in commit order gets every ordering by time rejected |
| Ordering.TieBreaksSomeOrdering | src/services/verification.service.js:28-31 | times not strictly increasing leave some ordering by time that is rejected |
| Ordering.OrderingsVerifyIffTimesIncrease | src/services/verification.service.js:28-31 | all orderings by time are accepted exactly if times strictly increase in commit order and each payload survives JSONB or its stored form collides with the hashed one |
| WriterProtocol.CoreStepKeepsInv | src/repositories/log.repository.js:160-193 | every step of every writer keeps: one lock holder, its values agree with the committed head, tables equal the replay of commits in lock order |
| WriterProtocol.CommitStep | src/repositories/log.repository.js:181-192 | a commit adds its append at the end of the committed ones and the tables follow |
| WriterProtocol.QuietStep | src/repositories/log.repository.js:154-201 | any other step, abort included, leaves tables and committed appends alone |
| WriterProtocol.SoloTransaction | src/repositories/log.repository.js:160-201 | an undisturbed transaction is the atomic append, or an abort with nothing changed if a constraint is violated |
| ClientSteps.ProgramOrder | src/services/log.service.js:68-86 | in any run each client takes the steps of createLogEntry in their order, and may stop by an abort before the commit or a crash after it |
| ClientSteps.ReadOrder | src/services/log.service.js:100-121 | in any run each reader takes the steps of getLogById in their order, the cache first |
| ClientSteps.AbortLeavesNoTrace | src/repositories/log.repository.js:197-200 | before its commit a client can abort at any point; tables, Redis, queue and other clients stay as they are and its lock is free |
| ClientSteps.CrashLeavesRow | src/services/log.service.js:73-85 | after its commit it can crash at any point, and its row stays |
| ClientSteps.SoloCreate | src/services/log.service.js:68-86 | an undisturbed createLogEntry does to tables, Redis and queue what the class method does, or changes nothing if a constraint is violated |
| SystemProtocol.HitIsSound | src/services/log.service.js:103-108 | an answer from a sound cache is the committed row of that id, field by field, its time as a Date or ISO text, with its status |
| SystemProtocol.JobAdd | src/services/queue.service.js:34-38 | the entry has its job afterwards, and jobs already there stay as they are |
| SystemProtocol.FindById | src/repositories/log.repository.js:38-40 | a committed row of that id, or none if there is none |
| SystemProtocol.IoStep | src/services/log.service.js:100-121 | every step keeps cache, late writes, jobs and answers in agreement with the committed rows |
| SystemProtocol.StepKeepsInv | src/services/log.service.js:68-121 | the invariant of the whole service is inductive |
| SystemProtocol.RunInv | src/services/log.service.js:68-121 | it holds after every run |
| Guarantees.RunsRefineAtomicAppend | src/repositories/log.repository.js:154-201 | after any interleaving with aborts and crashes the tables are the committed requests appended one at a time in lock order |
| Guarantees.RowsHaveOwners | src/repositories/log.repository.js:182-200 | each committed row belongs to a client that committed it and has its actor, action, time and payload (none if it sent none, else as JSONB keeps it); aborted requests leave none |
| Guarantees.AppendOnly | prisma/schema.prisma:10-11 | rows committed at some point of a run stay at their place to its end |
| Guarantees.HolderSeesCommittedHead | src/repositories/log.repository.js:161-190 | mid-transaction, the one lock holder works from the committed head, which names the last row |
| Guarantees.IntegrityCheckOfRuns | src/services/log.service.js:70 | after any run, every ordering by time is accepted exactly if times strictly increase in commit order and each payload survives JSONB or collides |
| Guarantees.InversionFailsIntegrityCheck | src/services/log.service.js:70 | after any run with a time inversion every ordering by time is rejected |
| Guarantees.HeadBindsRuns | src/repositories/log.repository.js:167-190 | after any run, an accepted list ending in the committed head hash has the preimages the writers hashed, or collides |
| Guarantees.HeadBindsContent | src/repositories/log.repository.js:167-190 | with bar-free actors and actions it says what the committed requests said, in number, order and every field, or collides |
| Guarantees.HeadDeterminesContent | src/repositories/log.repository.js:167-190 | if SHA-256 had no collisions, such a list would say exactly what the committed requests said, in every field |
| Guarantees.ReadsAgree | src/services/log.service.js:100-121 | any two answers for one id in any run agree in every field but the form of the time, are one JSON entry, and carry one status |
| Guarantees.AnswersAreRows | src/services/log.service.js:100-121 | hit or miss, every answer in any run is the committed row of its id in every field, its time as a Date or ISO text, with the status that the stored fields give |
| Guarantees.CacheHoldsRows | src/services/log.service.js:115 | in any run each log key holds its committed row with ISO time, and latest_log a summary of one |
| Guarantees.ReadFindsWhatIsCommitted | src/services/log.service.js:100-121 | from any reachable state a read completes with the committed row of the id, and with not-found exactly if there is none |
| Guarantees.FreshRead | src/services/log.service.js:100-121 | and anyone may start such a read at any time |
| Guarantees.PostCommitSafety | src/services/log.service.js:75-85 | latest_log holds id, hash and ISO time of a committed row, every job has the job id of a committed row, returned entries are committed rows, and no entry has two jobs |
| NonInterference.WritePathIgnoresRedisAndQueue | src/services/log.service.js:68-86 | erasing all Redis, queue and read steps from a run leaves a run with the same sequence of database states |
| NonInterference.TraceInFull | src/services/log.service.js:68-86 | that sequence has the tables right after each database step, and nothing else |
| NonInterference.SameTablesAtEveryPoint | src/services/log.service.js:68-86 | at every point of a run the tables are those at the matching point of the erased run |
| LatestLog.LatestLogIsLastRow | src/services/log.service.js:75-80 | if no summary was lost, latest_log holds id, hash and ISO time of the row that chain_head names exactly if the last client to set it was the last to commit, and else names another row |
| LatestLog.LatestLogMayLag | src/services/log.service.js:72-80 | two committed clients that set the key in the wrong order leave in it an id that is not the one in chain_head |
| TwoWriters.BothCommitRun | src/services/log.service.js:70-73 | for any two requests and any two times there is a run that commits both in the order of their locks, or their two texts collide |
| TwoWriters.TimesInAnyOrder | src/services/log.service.js:70-73 | so there are runs with a time inversion, where every ordering by time is rejected, and runs with a tie, where some ordering is, unless the two texts collide |
| TwoWriters.LatestLogLags | src/services/log.service.js:72-80 | and there are runs after which latest_log names the first of two rows while chain_head names the second, unless the two texts collide |
| LogRepository.SelectedRows | src/repositories/log.repository.js:96-114 | the export filter keeps each row with the actor (any, if absent or empty) and a time between the bounds, inclusive, as often as it is stored, and no other |
| LogRepository.TimesSplitTheLog | src/repositories/log.repository.js:104-108 | the rows from a time on and the rows up to the time before it are all rows, once each |
| LogRepository.NoFilterKeepsAll | src/repositories/log.repository.js:100-102 | an absent or empty actor filters nothing |
| LogRepository.ActorThenTimes | src/repositories/log.repository.js:96-114 | the bounds act on what the actor filter has kept |
| LogRepository.LogRepository.CreateWithTransaction | src/repositories/log.repository.js:154-201 | the row that is added and returned, field by field, and the new head; an error leaves the tables as they were, except that a commit may take effect and its acknowledgement be lost |
| LogRepository.LogRepository.FindById | src/repositories/log.repository.js:38-40 | the row of that id, or none exactly if there is none |
| LogRepository.LogRepository.FindAllOrdered | src/repositories/log.repository.js:86-88 | all rows, ordered by createdAt |
| LogRepository.LogRepository.FindAll | src/repositories/log.repository.js:73-79 | the page of some ordering of all rows |
| LogRepository.LogRepository.FindFiltered | src/repositories/log.repository.js:96-114 | exactly those rows, ordered by createdAt |
| QueueService.QueueService.EnqueueVerification | src/services/queue.service.js:31-43 | one job under the entry's job id; or, on an error, no job, or one that is added later |
| LogService.LogService.CreateLogEntry | src/services/log.service.js:68-86 | on success the row, field by field, its id, hash and ISO time under latest_log and its job, the last two done, lost or late; on an error Redis and the queue hear nothing, and the row is there only if the acknowledgement of its commit was lost; agreement of cache, late requests and queue with the rows is kept |
| LogService.LogService.GetLogById | src/services/log.service.js:100-121 | hit, miss and not-found as in the source, what is cached (done, lost or late), and with a sound cache the row of that id, field by field, its time as a Date or ISO text, with the status its stored fields give |
| LogService.LogService.GetAllLogEntries | src/services/log.service.js:142-148 | a page of some ordering, and the total |
| LogService.LogService.VerifyIntegrity | src/services/verification.service.js:28-31 | the report about some ordering of the rows |
| LogService.IntegrityVerdict | src/services/verification.service.js:28-31 | on a written log: intact, with the full count, exactly if the query answers in commit order and payloads survive or collide; it does so if times strictly increase and cannot if a time runs back |
| Pagination.ParsePagination | src/utils/pagination.js:23-30 | any query gives a page of at least 1 and a size from 1 to 100; usable values are kept, unusable ones get the default or the bound |
| Pagination.TotalPages | src/utils/pagination.js:40-47 | the least number of pages that hold the total |
| Pagination.PageLength | src/repositories/log.repository.js:73-79 | pages before the last are full, the last is not empty, later ones are |
| Pagination.PagesPartition | src/repositories/log.repository.js:73-79 | pages 1 to totalPages of one list are that list, and every later page is empty |
| Pagination.FetchedPagesInOrder | src/repositories/log.repository.js:73-79 | with strictly increasing times, pages fetched by separate queries are the log in commit order |
| FetchedPages.FetchedPagesPartition | src/repositories/log.repository.js:73-79 | pages fetched by separate queries hold every row exactly once, whatever orderings the queries pick, if and only if no tie by createdAt crosses a page boundary |
| FetchedPages.TieTearsPages | src/repositories/log.repository.js:73-79 | for any tie across a boundary, answers to the page queries that together do not hold the rows of the log once each |
| FetchedPages.FullPageOutlivesLaterRow | src/repositories/log.repository.js:73-79 | a row later than all others leaves the content of a full page alone, whatever orderings are picked, if and only if no tie crosses either end of the page |
| Pagination.LaterRowKeepsFullPages | src/repositories/log.repository.js:73-79 | a later row leaves every full page unchanged |

## Left out

- SHA-256, `JSON.stringify`, `toISOString` and JSONB normalisation: parameters of the model, with the assumptions listed above.
- `parseInt`: `ParsePagination` starts from its result, NaN being None; `Math.ceil` is taken on exact quotients.
- PostgreSQL, Prisma, ioredis and BullMQ internals: kept are the row lock, atomic commit, the unique constraints, a map that loses and delays, and a job map.
- The wording of the three reasons that the verifier gives: an enumeration stands for it.
- Liveness and latency: Redis requests may wait without end; only safety is proved.
- The Redis singleton with its connection handling, and job retries.
- Invalid dates, and requests without actor or action: the validator lets neither through.
- HTTP routes, controllers, response envelopes, validation, authentication, rate limiting, logging, configuration and health checks.
- `findLatest`, `findPrevious`: not used by the write, read or verification paths. The export wrapper, which only passes the filtered rows on.
- LogService.LogService.GetAllLogEntries: the two queries run on one state, while the source runs them side by side and may count rows that the page query did not see; `Guarantees.AppendOnly` says how the two states relate.
- LogRepository.LogRepository.FindAll: a page or size below 1 is left out, as what happens then is up to Prisma; the page parameters of a request are clamped by `ParsePagination`.
- RedisService.RedisService.Del: a delete that Redis carries out late is not recorded as such, because the model lets any key go at any time (`Expire`).
