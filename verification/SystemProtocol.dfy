/**
 * The whole service as a state machine: writers, readers that fill the cache, a Redis that loses,
 * delays and expires what it is given, and the job queue. A run is any sequence of enabled steps.
 */
module SystemProtocol {

  import opened Wrappers
  import opened LogEntries
  import opened HashService
  import opened Database
  import opened WriterProtocol

  const LATEST_LOG_KEY := "latest_log"

  function LogKey(id: string): string {
    "log:" + id
  }

  function JobId(id: string): string {
    "verify-" + id
  }

  lemma KeysTellApart(a: string, b: string)
    ensures LogKey(a) == LogKey(b) ==> a == b
    ensures JobId(a) == JobId(b) ==> a == b
    ensures LogKey(a) != LATEST_LOG_KEY
  {
    assert LogKey(a)[4..] == a && LogKey(b)[4..] == b;
    assert JobId(a)[7..] == a && JobId(b)[7..] == b;
    assert LogKey(a)[1] != LATEST_LOG_KEY[1];
  }

  /** A call of getLogById: before the cache lookup, after a miss, after the row was found, and answered. */
  datatype Reader =
    | Asked(id: string)
    | Missed(id: string)
    | Fetched(id: string, row: Row)
    | Answered(id: string, entry: LogEntry, verificationStatus: bool)
    | NotFound(id: string)

  /** The late writes and late jobs are multisets: two requests may be alike, and each is carried out. */
  datatype Io = Io(
    readers: map<nat, Reader>,
    cache: map<string, CacheValue>,
    jobs: map<string, string>,
    lateSets: multiset<LateSet>,
    lateJobs: multiset<string>)

  datatype State = State(core: Core, io: Io)

  const INIT_STATE := State(INIT_CORE, Io(map[], map[], map[], multiset{}, multiset{}))

  function SummaryOf(e: Env, row: Row): CacheValue {
    Summary(row.id, row.currentHash, e.iso(row.createdAt.ms))
  }

  /** SETEX: the value replaces the old one. */
  function CacheWrite(io: Io, key: string, value: CacheValue, outcome: Outcome): Io {
    match outcome
    case Applied => io.(cache := io.cache[key := value])
    case Dropped => io
    case Late => io.(lateSets := io.lateSets + multiset{LateSet(key, value)})
  }

  /** The queue ignores a job whose id it already has. */
  function JobAdd(jobs: map<string, string>, id: string): (r: map<string, string>)
    ensures JobId(id) in r && r.Keys == jobs.Keys + {JobId(id)}
    ensures forall jobId :: jobId in jobs ==> r[jobId] == jobs[jobId]
    ensures JobId(id) !in jobs ==> r[JobId(id)] == id
  {
    if JobId(id) in jobs then jobs else jobs[JobId(id) := id]
  }

  function EnqueueJob(io: Io, id: string, outcome: Outcome): Io {
    match outcome
    case Applied => io.(jobs := JobAdd(io.jobs, id))
    case Dropped => io
    case Late => io.(lateJobs := io.lateJobs + multiset{id})
  }

  function FindById(rows: seq<Row>, id: string): (r: Option<Row>)
    ensures r.Some? ==> r.value in rows && r.value.id == id
    ensures r.None? ==> forall row :: row in rows ==> row.id != id
  {
    if rows == [] then None
    else if rows[0].id == id then Some(rows[0])
    else FindById(rows[1..], id)
  }

  predicate IoEnabled(io: Io, a: Action) {
    match a
    case BeginRead(r, _) => r !in io.readers
    case CacheGet(r, _) => r in io.readers && io.readers[r].Asked?
    case FindRow(r) => r in io.readers && io.readers[r].Missed?
    case FillCache(r, _) => r in io.readers && io.readers[r].Fetched?
    case Expire(key) => key in io.cache
    case DeliverSet(write) => write in io.lateSets
    case DeliverJob(id) => id in io.lateJobs
    case TakeJob(jobId) => jobId in io.jobs
    case _ => true
  }

  predicate Enabled(s: State, a: Action) {
    CoreEnabled(s.core, a) && IoEnabled(s.io, a)
  }

  /**
   * The lookup of getLogById: a hit answers from the cache alone; a miss and an error look the same.
   * A Summary never sits under a log key (CacheInv below), so only full entries count as hits.
   */
  function Lookup(e: Env, io: Io, r: nat, fails: bool): Reader
    requires r in io.readers
  {
    var id := io.readers[r].id;
    if !fails && LogKey(id) in io.cache && io.cache[LogKey(id)].Full? then
      var cached := io.cache[LogKey(id)].entry;
      Answered(id, cached, VerificationStatus(e, cached))
    else Missed(id)
  }

  predicate OfEnvironment(a: Action) {
    a.Expire? || a.DeliverSet? || a.DeliverJob? || a.TakeJob?
  }

  /** What Redis and the worker do on their own. A delete that Redis carries out late is an expiry, too. */
  function EnvironmentNext(io: Io, a: Action): Io {
    match a
    case Expire(key) => io.(cache := io.cache - {key})
    case DeliverSet(write) =>
      io.(cache := io.cache[write.key := write.value], lateSets := io.lateSets - multiset{write})
    case DeliverJob(id) => io.(jobs := JobAdd(io.jobs, id), lateJobs := io.lateJobs - multiset{id})
    case TakeJob(jobId) => io.(jobs := io.jobs - {jobId})
    case _ => io
  }

  function IoNext(e: Env, s: State, a: Action): Io
    requires Enabled(s, a)
  {
    var io := s.io;
    match a
    case SetLatest(c, outcome) => CacheWrite(io, LATEST_LOG_KEY, SummaryOf(e, s.core.writers[c].phase.row), outcome)
    case Enqueue(c, outcome) => EnqueueJob(io, s.core.writers[c].phase.row.id, outcome)
    case BeginRead(r, id) => io.(readers := io.readers[r := Asked(id)])
    case CacheGet(r, fails) => io.(readers := io.readers[r := Lookup(e, io, r, fails)])
    case FindRow(r) =>
      var id := io.readers[r].id;
      var found := FindById(s.core.db.rows, id);
      io.(readers := io.readers[r := if found.Some? then Fetched(id, found.value) else NotFound(id)])
    case FillCache(r, outcome) =>
      var row := io.readers[r].row;
      var filled := CacheWrite(io, LogKey(io.readers[r].id), Full(JsonImage(e, row)), outcome);
      filled.(readers := io.readers[r := Answered(io.readers[r].id, row, VerificationStatus(e, row))])
    case _ => EnvironmentNext(io, a)
  }

  function Next(e: Env, s: State, a: Action): State
    requires Enabled(s, a)
  {
    State(CoreNext(e, s.core, a), IoNext(e, s, a))
  }

  /** The state after a run, or None if some step of it was not enabled. */
  function Exec(e: Env, actions: seq<Action>): Option<State> {
    if actions == [] then Some(INIT_STATE)
    else
      var n := |actions| - 1;
      match Exec(e, actions[..n])
      case None => None
      case Some(s) => if Enabled(s, actions[n]) then Some(Next(e, s, actions[n])) else None
  }

  lemma ExecOneMore(e: Env, actions: seq<Action>, a: Action)
    requires Exec(e, actions).Some? && Enabled(Exec(e, actions).value, a)
    ensures Exec(e, actions + [a]) == Some(Next(e, Exec(e, actions).value, a))
  {
    assert (actions + [a])[..|actions|] == actions;
  }

  lemma {:induction false} ExecPrefix(e: Env, actions: seq<Action>, n: nat)
    requires Exec(e, actions).Some? && n <= |actions|
    ensures Exec(e, actions[..n]).Some?
  {
    hide Next;
    hide Enabled;
    if n == |actions| {
      assert actions[..n] == actions;
    } else {
      var m := |actions| - 1;
      ExecPrefix(e, actions[..m], n);
      assert actions[..m][..n] == actions[..n];
    }
  }

  // ----- What Redis, the queue and the readers hold -----

  predicate CacheEntryOk(e: Env, rows: seq<Row>, key: string, value: CacheValue) {
    if value.Full? then exists row :: row in rows && key == LogKey(row.id) && value.entry == JsonImage(e, row)
    else key == LATEST_LOG_KEY && exists row :: row in rows && value == SummaryOf(e, row)
  }

  predicate HasId(rows: seq<Row>, id: string) {
    exists row :: row in rows && row.id == id
  }

  /** The row in every field, with its time as a Date or as ISO text. */
  predicate IsRowOrJson(e: Env, row: Row, entry: LogEntry) {
    && entry.(createdAt := row.createdAt) == row
    && (entry.createdAt == row.createdAt || entry.createdAt == IsoText(e.iso(row.createdAt.ms)))
  }

  /** The answer is the row as stored or as it comes back from JSON, with the status of the row. */
  predicate AnswerOk(e: Env, rows: seq<Row>, id: string, entry: LogEntry, verificationStatus: bool) {
    exists row :: row in rows && row.id == id
                  && IsRowOrJson(e, row, entry)
                  && verificationStatus == VerificationStatus(e, row)
  }

  predicate ReaderOk(e: Env, rows: seq<Row>, reader: Reader) {
    match reader
    case Fetched(id, row) => row in rows && row.id == id
    case Answered(id, entry, status) => AnswerOk(e, rows, id, entry, status)
    case _ => true
  }

  predicate CacheInv(e: Env, rows: seq<Row>, cache: map<string, CacheValue>) {
    forall key :: key in cache ==> CacheEntryOk(e, rows, key, cache[key])
  }

  predicate JobsInv(rows: seq<Row>, jobs: map<string, string>) {
    forall jobId :: jobId in jobs ==> jobId == JobId(jobs[jobId]) && HasId(rows, jobs[jobId])
  }

  predicate LateInv(e: Env, rows: seq<Row>, lateSets: multiset<LateSet>, lateJobs: multiset<string>) {
    && (forall write :: write in lateSets ==> CacheEntryOk(e, rows, write.key, write.value))
    && (forall id :: id in lateJobs ==> HasId(rows, id))
  }

  predicate ReadersInv(e: Env, rows: seq<Row>, readers: map<nat, Reader>) {
    forall r :: r in readers ==> ReaderOk(e, rows, readers[r])
  }

  predicate IoInv(e: Env, rows: seq<Row>, io: Io) {
    && CacheInv(e, rows, io.cache) && JobsInv(rows, io.jobs)
    && LateInv(e, rows, io.lateSets, io.lateJobs) && ReadersInv(e, rows, io.readers)
  }

  predicate Inv(e: Env, s: State, grants: seq<nat>) {
    CoreInv(e, s.core, grants) && IoInv(e, s.core.db.rows, s.io)
  }

  /** More committed rows never spoil what is cached, queued or answered. */
  lemma RowsOnlyHelp(e: Env, rows: seq<Row>, more: seq<Row>, io: Io)
    requires IoInv(e, rows, io)
    ensures IoInv(e, rows + more, io)
  {
    var all := rows + more;
    assert forall row :: row in rows ==> row in all;
    forall key | key in io.cache
      ensures CacheEntryOk(e, all, key, io.cache[key])
    {
      assert CacheEntryOk(e, rows, key, io.cache[key]);
    }
    forall write | write in io.lateSets
      ensures CacheEntryOk(e, all, write.key, write.value)
    {
      assert CacheEntryOk(e, rows, write.key, write.value);
    }
    forall r | r in io.readers
      ensures ReaderOk(e, all, io.readers[r])
    {
      assert ReaderOk(e, rows, io.readers[r]);
    }
  }

  lemma RowIsHere(e: Env, rows: seq<Row>, row: Row)
    requires row in rows
    ensures CacheEntryOk(e, rows, LogKey(row.id), Full(JsonImage(e, row)))
    ensures CacheEntryOk(e, rows, LATEST_LOG_KEY, SummaryOf(e, row))
    ensures HasId(rows, row.id)
    ensures AnswerOk(e, rows, row.id, row, VerificationStatus(e, row))
  {
  }

  /** An answer taken from a sound cache is as good as one taken from the row. */
  lemma HitIsSound(e: Env, rows: seq<Row>, cache: map<string, CacheValue>, id: string)
    requires WellBehaved(e) && CacheInv(e, rows, cache)
    requires LogKey(id) in cache && cache[LogKey(id)].Full?
    ensures var cached := cache[LogKey(id)].entry;
            AnswerOk(e, rows, id, cached, VerificationStatus(e, cached))
  {
    assert CacheEntryOk(e, rows, LogKey(id), cache[LogKey(id)]);
    var row :| row in rows && LogKey(id) == LogKey(row.id) && cache[LogKey(id)].entry == JsonImage(e, row);
    KeysTellApart(id, row.id);
    JsonImageKeepsStatus(e, row);
  }

  lemma CacheWriteStep(e: Env, rows: seq<Row>, io: Io, key: string, value: CacheValue, outcome: Outcome)
    requires IoInv(e, rows, io) && CacheEntryOk(e, rows, key, value)
    ensures IoInv(e, rows, CacheWrite(io, key, value, outcome))
  {
    hide CacheEntryOk;
    hide ReaderOk;
    hide HasId;
  }

  lemma EnqueueStep(e: Env, rows: seq<Row>, io: Io, id: string, outcome: Outcome)
    requires IoInv(e, rows, io) && HasId(rows, id)
    ensures IoInv(e, rows, EnqueueJob(io, id, outcome))
  {
    hide CacheEntryOk;
    hide ReaderOk;
    hide HasId;
  }

  lemma ReaderStep(e: Env, rows: seq<Row>, io: Io, r: nat, reader: Reader)
    requires IoInv(e, rows, io) && ReaderOk(e, rows, reader)
    ensures IoInv(e, rows, io.(readers := io.readers[r := reader]))
  {
    hide CacheEntryOk;
    hide ReaderOk;
    hide HasId;
  }

  /** Redis and the worker, acting on their own. */
  lemma EnvironmentStep(e: Env, rows: seq<Row>, io: Io, a: Action)
    requires IoInv(e, rows, io) && IoEnabled(io, a) && OfEnvironment(a)
    ensures IoInv(e, rows, EnvironmentNext(io, a))
  {
    hide CacheEntryOk;
    hide ReaderOk;
    hide HasId;
    if a.DeliverJob? {
      EnqueueStep(e, rows, io, a.id, Applied);
    } else if a.DeliverSet? {
      CacheWriteStep(e, rows, io, a.write.key, a.write.value, Applied);
    }
  }

  /** A step of the service keeps the cache, the queue and the answers in agreement with the committed rows. */
  lemma IoStep(e: Env, s: State, a: Action)
    requires WellBehaved(e) && RowInv(s.core) && IoInv(e, s.core.db.rows, s.io) && Enabled(s, a)
    ensures IoInv(e, s.core.db.rows, IoNext(e, s, a))
  {
    hide VerificationStatus;
    hide SummaryOf;
    hide JsonImage;
    var rows, io := s.core.db.rows, s.io;
    match a
    case SetLatest(c, outcome) =>
      RowIsHere(e, rows, s.core.writers[c].phase.row);
      hide IoInv;
      CacheWriteStep(e, rows, io, LATEST_LOG_KEY, SummaryOf(e, s.core.writers[c].phase.row), outcome);
    case Enqueue(c, outcome) =>
      RowIsHere(e, rows, s.core.writers[c].phase.row);
      hide IoInv;
      EnqueueStep(e, rows, io, s.core.writers[c].phase.row.id, outcome);
    case BeginRead(r, id) =>
      ReaderStep(e, rows, io, r, Asked(id));
    case CacheGet(r, fails) =>
      LookupIsSound(e, rows, io, r, fails);
      hide IoInv;
      ReaderStep(e, rows, io, r, Lookup(e, io, r, fails));
    case FindRow(r) =>
      var id := io.readers[r].id;
      var found := FindById(rows, id);
      hide IoInv;
      ReaderStep(e, rows, io, r, if found.Some? then Fetched(id, found.value) else NotFound(id));
    case FillCache(r, outcome) =>
      assert ReaderOk(e, rows, io.readers[r]);
      var row := io.readers[r].row;
      RowIsHere(e, rows, row);
      hide IoInv;
      var filled := CacheWrite(io, LogKey(row.id), Full(JsonImage(e, row)), outcome);
      CacheWriteStep(e, rows, io, LogKey(row.id), Full(JsonImage(e, row)), outcome);
      ReaderStep(e, rows, filled, r, Answered(row.id, row, VerificationStatus(e, row)));
    case _ =>
      if OfEnvironment(a) {
        EnvironmentStep(e, rows, io, a);
      }
  }

  lemma LookupIsSound(e: Env, rows: seq<Row>, io: Io, r: nat, fails: bool)
    requires WellBehaved(e) && CacheInv(e, rows, io.cache) && r in io.readers
    ensures ReaderOk(e, rows, Lookup(e, io, r, fails))
  {
    var id := io.readers[r].id;
    if LogKey(id) in io.cache && io.cache[LogKey(id)].Full? {
      HitIsSound(e, rows, io.cache, id);
    }
  }

  /** A step leaves the committed rows as they are, or adds one at the end. */
  lemma RowsGrowAtTheEnd(e: Env, s: State, grants: seq<nat>, a: Action)
    requires CoreInv(e, s.core, grants) && Enabled(s, a)
    ensures var k, k' := s.core, Next(e, s, a).core;
            if a.Commit? then
              && k'.writers[a.c].phase.Committed?
              && k'.db == AtomicAppend(e, k.db, AppendOf(k'.writers[a.c]))
              && Admits(k.db.rows, k'.writers[a.c].phase.row)
              && k'.db.rows == k.db.rows + [k'.writers[a.c].phase.row]
            else k'.db == k.db
  {
    OthersStay(e, s.core, a);
    if a.Commit? {
      CommitAppends(e, s.core, a.c);
    }
  }

  lemma StepKeepsInv(e: Env, s: State, grants: seq<nat>, a: Action)
    requires WellBehaved(e) && Inv(e, s, grants) && Enabled(s, a)
    ensures Inv(e, Next(e, s, a), grants + GrantOf(a))
  {
    CoreStepKeepsInv(e, s.core, grants, a);
    RowsGrowAtTheEnd(e, s, grants, a);
    IoStep(e, s, a);
    hide CoreNext;
    hide CoreInv;
    hide IoNext;
    hide IoInv;
    hide NewRow;
    hide Enabled;
    var s' := Next(e, s, a);
    if a.Commit? {
      RowsOnlyHelp(e, s.core.db.rows, [s'.core.writers[a.c].phase.row], s'.io);
    }
  }

  /** Every state that any run reaches satisfies the invariant. */
  lemma {:induction false} RunInv(e: Env, actions: seq<Action>)
    requires WellBehaved(e) && Exec(e, actions).Some?
    ensures Inv(e, Exec(e, actions).value, Grants(actions))
  {
    hide Inv;
    hide Next;
    hide Enabled;
    if actions == [] {
      InitInv(e);
    } else {
      var n := |actions| - 1;
      RunInv(e, actions[..n]);
      StepKeepsInv(e, Exec(e, actions[..n]).value, Grants(actions[..n]), actions[n]);
    }
  }

  lemma InitInv(e: Env)
    ensures Inv(e, INIT_STATE, [])
  {
    InitCoreInv(e);
  }
}
