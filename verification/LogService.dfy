/** Creating and reading entries: the database first, Redis and the queue afterwards. */
module LogService {

  import opened Wrappers
  import opened LogEntries
  import opened HashService
  import opened PreimageParser
  import opened ChainVerifier
  import opened Database
  import opened Ordering
  import opened Pagination
  import opened WriterProtocol
  import opened SystemProtocol
  import Repo = LogRepository
  import Redis = RedisService
  import Queue = QueueService

  /** What getLogById returns. */
  datatype Lookup = Lookup(entry: LogEntry, verificationStatus: bool)

  datatype LookupError = NotFoundError

  class LogService {
    const env: Env
    const repository: Repo.LogRepository
    const redisService: Redis.RedisService
    const queueService: Queue.QueueService

    constructor (env: Env)
      ensures this.env == env && Valid()
      ensures fresh(repository) && fresh(redisService) && fresh(queueService)
      ensures repository.Tables() == EMPTY_DB && View() == INIT_STATE.io && Agrees()
    {
      this.env := env;
      repository := new Repo.LogRepository(env);
      redisService := new Redis.RedisService();
      queueService := new Queue.QueueService();
    }

    ghost predicate Valid() {
      repository.env == env
    }

    /** What Redis and the queue hold, late requests included. */
    ghost function View(): Io
      reads redisService, queueService
    {
      Io(map[], redisService.store, queueService.jobs, redisService.lateSets, queueService.lateJobs)
    }

    /** All of it agrees with the committed rows. */
    ghost predicate Agrees()
      reads repository, redisService, queueService
    {
      IoInv(env, repository.rows, View())
    }

    /**
     * The row is in the database before Redis or the queue hear of it. If the transaction fails, neither
     * does, even if the commit took effect and only its acknowledgement was lost; if they fail, the row stays.
     */
    method CreateLogEntry(req: Request, now: int, id: string, fault: Option<Repo.TxPoint>,
                          redisOutcome: Outcome, queueOutcome: Outcome)
        returns (result: Result<Row, Repo.TxError>)
      requires Valid()
      modifies repository, redisService, queueService
      ensures var a := Append(req, now, id);
              var row := NewRow(env, old(repository.latestHash), a);
              match result
              case Success(entry) =>
                && fault == None && Admits(old(repository.rows), row) && entry == row
                && repository.Tables() == AtomicAppend(env, old(repository.Tables()), a)
                && View() == EnqueueJob(CacheWrite(old(View()), LATEST_LOG_KEY, SummaryOf(env, row), redisOutcome),
                                        id, queueOutcome)
              case Failure(error) =>
                && (if error == Repo.ConnectionLost(Repo.AtCommit(true)) then
                      Admits(old(repository.rows), row)
                      && repository.Tables() == AtomicAppend(env, old(repository.Tables()), a)
                    else repository.Tables() == old(repository.Tables()))
                && View() == old(View())
                && (if error == Repo.UniqueViolation then !Admits(old(repository.rows), row)
                    else fault == Some(error.at))
      ensures result.Success? ==>
                && result.value.id == id && result.value.actor == req.actor && result.value.action == req.action
                && result.value.payload == (if req.payload.None? then None else Some(env.jsonb(req.payload.value)))
                && result.value.createdAt == DateValue(now)
                && (redisOutcome.Applied? ==>
                      && "latest_log" in redisService.store
                      && redisService.store["latest_log"] == Summary(id, repository.latestHash, env.iso(now)))
                && (queueOutcome.Applied? ==> "verify-" + id in queueService.jobs)
      ensures old(Agrees()) ==> Agrees()
    {
      hide Admits;
      hide ComputeHashes;
      var createdAt := now;
      result := repository.CreateWithTransaction(req, createdAt, id, fault);
      if old(Agrees()) {
        AgreementGrows(env, old(repository.rows), NewRow(env, old(repository.latestHash), Append(req, now, id)),
                       old(View()), redisOutcome, queueOutcome);
      }
      hide IoInv;
      if result.Failure? {
        return;
      }
      var entry := result.value;
      var summary := SummaryOf(env, entry);
      assert summary == Summary(id, repository.latestHash, env.iso(now));
      hide SummaryOf;
      hide TextOf;
      hide AtomicAppend;
      redisService.Set(LATEST_LOG_KEY, summary, redisOutcome);
      queueService.EnqueueVerification(entry.id, queueOutcome);
    }

    /**
     * Cache-aside. As long as the cache agrees with the rows, the answer is the row of that id, or its JSON
     * image, with the row's verification status; "not found" means there is no such row, and caches nothing.
     */
    method GetLogById(id: string, getFails: bool, setOutcome: Outcome) returns (result: Result<Lookup, LookupError>)
      requires Valid()
      modifies redisService
      ensures var store := old(redisService.store);
              var hit := !getFails && LogKey(id) in store && store[LogKey(id)].Full?;
              match result
              case Success(found) =>
                && found.verificationStatus == VerificationStatus(env, found.entry)
                && (if hit then found.entry == store[LogKey(id)].entry && View() == old(View())
                    else
                      && found.entry in repository.rows && found.entry.id == id
                      && View() == CacheWrite(old(View()), LogKey(id), Full(JsonImage(env, found.entry)), setOutcome))
              case Failure(_) => !hit && !HasId(repository.rows, id) && View() == old(View())
      ensures WellBehaved(env) && old(Agrees()) ==>
                && Agrees()
                && (result.Success? <==> HasId(repository.rows, id))
                && (result.Success? ==>
                      var entry := result.value.entry;
                      && entry.id == id
                      && exists row :: row in repository.rows && entry.(createdAt := row.createdAt) == row
                           && (entry.createdAt == row.createdAt
                               || entry.createdAt == IsoText(env.iso(row.createdAt.ms)))
                           && (result.value.verificationStatus <==>
                               row.currentHash == env.sha256(TextOf(env, row, row.previousHash.GetOr("GENESIS")))))
    {
      var cacheKey := LogKey(id);
      var cached := redisService.Get(cacheKey, getFails);
      if cached.Some? && cached.value.Full? {
        var hit := cached.value.entry;
        if WellBehaved(env) && Agrees() {
          HitIsSound(env, repository.rows, redisService.store, id);
          AnswerInFull(env, repository.rows, id, hit, VerificationStatus(env, hit));
        }
        return Success(Lookup(hit, VerifyEntry(env, hit, Some(hit.previousHash.GetOr(GENESIS_PREVIOUS_HASH)))));
      }
      hide TextOf;
      var found := repository.FindById(id);
      if found.None? {
        return Failure(NotFoundError);
      }
      var entry := found.value;
      redisService.Set(cacheKey, Full(JsonImage(env, entry)), setOutcome);
      RowIsHere(env, repository.rows, entry);
      AnswerInFull(env, repository.rows, id, entry, VerificationStatus(env, entry));
      if old(Agrees()) {
        CacheWriteStep(env, repository.rows, old(View()), cacheKey, Full(JsonImage(env, entry)), setOutcome);
      }
      return Success(Lookup(entry, VerifyEntry(env, entry, Some(entry.previousHash.GetOr(GENESIS_PREVIOUS_HASH)))));
    }

    // ----- What Redis, the queue and the worker do between calls -----

    /** A key runs out of time or is dropped. */
    method KeyExpires(key: string)
      requires key in redisService.store
      modifies redisService
      ensures View() == EnvironmentNext(old(View()), Expire(key))
      ensures old(Agrees()) ==> Agrees()
    {
      if old(Agrees()) {
        EnvironmentStep(env, repository.rows, old(View()), Expire(key));
      }
      hide IoInv;
      redisService.Expire(key);
    }

    /** Redis carries out a write whose sender gave up. */
    method LateSetArrives(write: LateSet)
      requires write in redisService.lateSets
      modifies redisService
      ensures View() == EnvironmentNext(old(View()), DeliverSet(write))
      ensures old(Agrees()) ==> Agrees()
    {
      if old(Agrees()) {
        EnvironmentStep(env, repository.rows, old(View()), DeliverSet(write));
      }
      hide IoInv;
      redisService.Deliver(write);
    }

    /** The queue takes in a job whose sender gave up. */
    method LateJobArrives(id: string)
      requires id in queueService.lateJobs
      modifies queueService
      ensures View() == EnvironmentNext(old(View()), DeliverJob(id))
      ensures old(Agrees()) ==> Agrees()
    {
      if old(Agrees()) {
        EnvironmentStep(env, repository.rows, old(View()), DeliverJob(id));
      }
      hide IoInv;
      queueService.Deliver(id);
    }

    /** The worker takes a job. */
    method WorkerTakes(jobId: string)
      requires jobId in queueService.jobs
      modifies queueService
      ensures View() == EnvironmentNext(old(View()), TakeJob(jobId))
      ensures old(Agrees()) ==> Agrees()
    {
      if old(Agrees()) {
        EnvironmentStep(env, repository.rows, old(View()), TakeJob(jobId));
      }
      hide IoInv;
      queueService.Take(jobId);
    }

    // ----- Lists -----

    method GetAllLogEntries(page: int, pageSize: int) returns (data: seq<Row>, total: nat)
      requires 1 <= page && 1 <= pageSize
      ensures total == |repository.rows|
      ensures exists full :: IsOrdering(full, repository.rows) && data == PageOf(full, page, pageSize)
    {
      data := repository.FindAll(page, pageSize);
      total := repository.Count();
    }

    /** verification.service: whatever ordering the database returns is checked as a chain. */
    method VerifyIntegrity() returns (result: VerifyResult)
      requires Valid()
      ensures exists answer: seq<Row> :: IsOrdering(answer, repository.rows) && IsReport(env, answer, result)
    {
      var entries := repository.FindAllOrdered();
      result := VerifyEntireChain(env, entries);
    }
  }

  /** What a good answer says, in terms of what is stored. */
  lemma AnswerInFull(e: Env, rows: seq<Row>, id: string, entry: LogEntry, status: bool)
    requires AnswerOk(e, rows, id, entry, status)
    ensures entry.id == id
    ensures exists row :: row in rows && entry.(createdAt := row.createdAt) == row
              && (entry.createdAt == row.createdAt || entry.createdAt == IsoText(e.iso(row.createdAt.ms)))
              && (status <==> row.currentHash == e.sha256(TextOf(e, row, row.previousHash.GetOr("GENESIS"))))
  {
    var row :| row in rows && row.id == id && IsRowOrJson(e, row, entry) && status == VerificationStatus(e, row);
    StatusInFull(e, row);
  }

  /** A new committed row keeps the agreement, with its summary and its job or without them. */
  lemma AgreementGrows(e: Env, rows: seq<Row>, row: Row, io: Io, redisOutcome: Outcome, queueOutcome: Outcome)
    requires IoInv(e, rows, io)
    ensures IoInv(e, rows + [row], io)
    ensures var cached := CacheWrite(io, LATEST_LOG_KEY, SummaryOf(e, row), redisOutcome);
            IoInv(e, rows + [row], EnqueueJob(cached, row.id, queueOutcome))
  {
    RowsOnlyHelp(e, rows, [row], io);
    RowIsHere(e, rows + [row], row);
    hide IoInv;
    CacheWriteStep(e, rows + [row], io, LATEST_LOG_KEY, SummaryOf(e, row), redisOutcome);
    EnqueueStep(e, rows + [row], CacheWrite(io, LATEST_LOG_KEY, SummaryOf(e, row), redisOutcome), row.id, queueOutcome);
  }

  /**
   * The verdict on a written log: intact exactly if the query happened to answer in commit order and
   * storage did no harm. With increasing times it always answers so; after a time ran back it cannot.
   */
  lemma IntegrityVerdict(e: Env, appends: seq<Append>, answer: seq<Row>, result: VerifyResult)
    requires WellBehaved(e) && AllAdmitted(e, appends)
    requires IsOrdering(answer, Replay(e, appends).rows) && IsReport(e, answer, result)
    ensures result.Intact? <==> answer == Replay(e, appends).rows && Harmless(e, appends)
    ensures result.Intact? ==> result == Intact(|appends|)
    ensures StrictlyIncreasing(Replay(e, appends).rows) ==> answer == Replay(e, appends).rows
    ensures !SortedByTime(Replay(e, appends).rows) ==> result.Broken?
  {
    var rows := Replay(e, appends).rows;
    ReplayShape(e, appends);
    WrittenLogAccepted(e, appends);
    SameMultisetOfEntries(answer, rows);
    VerifyingOrderIsUnique(e, appends, answer);
    hide NewRow;
    hide SoundUpTo;
    hide Harmless;
    if StrictlyIncreasing(rows) {
      OrderingIsUnique(answer, rows);
    }
  }
}
