/**
 * The write path as a state machine: any number of clients, each at its own point of createLogEntry,
 * taking steps in any order. The database side of a step is all that happens here.
 */
module WriterProtocol {

  import opened Wrappers
  import opened LogEntries
  import opened Database

  /** How far a client is. From Locked to HeadUpdated its transaction is open and its changes are private. */
  datatype Phase =
    | Sampled
    | Locked(latestHash: string)
    | Hashed(previousHash: string, currentHash: string)
    | Inserted(row: Row)
    | HeadUpdated(row: Row, head: Head)
    | Aborted
    | Committed(row: Row)
    | CacheTried(row: Row)
    | Queued(row: Row)
    | Returned(row: Row)
    | Crashed(row: Row)
  {
    predicate InTransaction() {
      Locked? || Hashed? || Inserted? || HeadUpdated?
    }

    /** Committed, but not yet through. */
    predicate IsOnTheWay() {
      Committed? || CacheTried? || Queued?
    }

    predicate IsDone() {
      Committed? || CacheTried? || Queued? || Returned? || Crashed?
    }
  }

  datatype Writer = Writer(req: Request, createdAt: int, phase: Phase)

  /** `lock` is the client that holds the row lock on chain_head. */
  datatype Core = Core(db: Db, lock: Option<nat>, writers: map<nat, Writer>)

  const INIT_CORE := Core(EMPTY_DB, None, map[])

  /** What becomes of a request to Redis: done, never done, or done some time after the caller gave up. */
  datatype Outcome = Applied | Dropped | Late

  datatype Action =
    // the write path, up to the commit
    | Begin(c: nat, req: Request, createdAt: int)
    | Lock(c: nat)
    | ComputeHash(c: nat)
    | Insert(c: nat, id: string)
    | UpdateHead(c: nat)
    | Commit(c: nat)
    | Abort(c: nat)
    // the write path, after the commit
    | SetLatest(c: nat, outcome: Outcome)
    | Enqueue(c: nat, outcome: Outcome)
    | Return(c: nat)
    | Crash(c: nat)
    // the read path
    | BeginRead(r: nat, id: string)
    | CacheGet(r: nat, fails: bool)
    | FindRow(r: nat)
    | FillCache(r: nat, outcome: Outcome)
    // Redis on its own, and the worker
    | Expire(key: string)
    | DeliverSet(write: LateSet)
    | DeliverJob(id: string)
    | TakeJob(jobId: string)

  /** A JSON document in Redis. */
  datatype CacheValue =
    | Summary(id: string, currentHash: string, createdAt: string)
    | Full(entry: LogEntry)

  /** A write that Redis will carry out although its sender saw it fail. */
  datatype LateSet = LateSet(key: string, value: CacheValue)

  predicate OnDatabase(a: Action) {
    a.Begin? || a.Lock? || a.ComputeHash? || a.Insert? || a.UpdateHead? || a.Commit? || a.Abort?
  }

  predicate AfterCommit(a: Action) {
    a.SetLatest? || a.Enqueue? || a.Return? || a.Crash?
  }

  predicate CoreEnabled(k: Core, a: Action) {
    match a
    case Begin(c, _, _) => c !in k.writers
    case Lock(c) => c in k.writers && k.writers[c].phase.Sampled? && k.lock == None
    case ComputeHash(c) => c in k.writers && k.writers[c].phase.Locked?
    case Insert(c, _) => c in k.writers && k.writers[c].phase.Hashed?
    case UpdateHead(c) => c in k.writers && k.writers[c].phase.Inserted?
    case Commit(c) => c in k.writers && k.writers[c].phase.HeadUpdated?
    case Abort(c) => c in k.writers && (k.writers[c].phase.Sampled? || k.writers[c].phase.InTransaction())
    case SetLatest(c, _) => c in k.writers && k.writers[c].phase.Committed?
    case Enqueue(c, _) => c in k.writers && k.writers[c].phase.CacheTried?
    case Return(c) => c in k.writers && k.writers[c].phase.Queued?
    case Crash(c) => c in k.writers && k.writers[c].phase.IsOnTheWay()
    case _ => true
  }

  function Move(k: Core, c: nat, phase: Phase): Core
    requires c in k.writers
  {
    k.(writers := k.writers[c := k.writers[c].(phase := phase)])
  }

  /** The client's transaction ends without effect, and its lock, if any, is free. */
  function RollBack(k: Core, c: nat): Core
    requires c in k.writers
  {
    Move(k, c, Aborted).(lock := if k.lock == Some(c) then None else k.lock)
  }

  function RowToInsert(e: Env, w: Writer, id: string): Row
    requires w.phase.Hashed?
  {
    LogEntry(id, w.req.actor, w.req.action, StoredPayload(e, w.req.payload),
             Some(w.phase.previousHash), w.phase.currentHash, DateValue(w.createdAt))
  }

  function CoreNext(e: Env, k: Core, a: Action): Core
    requires CoreEnabled(k, a)
  {
    match a
    case Begin(c, req, createdAt) => k.(writers := k.writers[c := Writer(req, createdAt, Sampled)])
    case Lock(c) => Move(k, c, Locked(k.db.head.latestHash)).(lock := Some(c))
    case ComputeHash(c) =>
      var w := k.writers[c];
      var (previousHash, currentHash) := ComputeHashes(e, w.phase.latestHash, w.req, w.createdAt);
      Move(k, c, Hashed(previousHash, currentHash))
    case Insert(c, id) =>
      var row := RowToInsert(e, k.writers[c], id);
      if Admits(k.db.rows, row) then Move(k, c, Inserted(row)) else RollBack(k, c)
    case UpdateHead(c) =>
      var row := k.writers[c].phase.row;
      Move(k, c, HeadUpdated(row, Head(row.currentHash, Some(row.id))))
    case Commit(c) =>
      var phase := k.writers[c].phase;
      Move(k, c, Committed(phase.row)).(db := Db(k.db.rows + [phase.row], phase.head), lock := None)
    case Abort(c) => RollBack(k, c)
    case SetLatest(c, _) => Move(k, c, CacheTried(k.writers[c].phase.row))
    case Enqueue(c, _) => Move(k, c, Queued(k.writers[c].phase.row))
    case Return(c) => Move(k, c, Returned(k.writers[c].phase.row))
    case Crash(c) => Move(k, c, Crashed(k.writers[c].phase.row))
    case _ => k
  }

  // ----- The appends that a state has committed, in the order in which the lock was granted -----

  /** The clients that got the lock, in order. */
  function Grants(actions: seq<Action>): seq<nat> {
    if actions == [] then []
    else
      var n := |actions| - 1;
      Grants(actions[..n]) + GrantOf(actions[n])
  }

  function GrantOf(a: Action): seq<nat> {
    if a.Lock? then [a.c] else []
  }

  function AppendOf(w: Writer): Append
    requires w.phase.IsDone()
  {
    Append(w.req, w.createdAt, w.phase.row.id)
  }

  /** Nothing for a client that aborted or is not through yet. */
  function CommittedBy(k: Core, c: nat): seq<Append> {
    if c in k.writers && k.writers[c].phase.IsDone() then [AppendOf(k.writers[c])] else []
  }

  function Commits(k: Core, grants: seq<nat>): seq<Append> {
    if grants == [] then []
    else
      var n := |grants| - 1;
      Commits(k, grants[..n]) + CommittedBy(k, grants[n])
  }

  // ----- The invariant -----

  /** What the lock holder has worked out agrees with the committed tables. */
  predicate HolderOk(e: Env, db: Db, w: Writer) {
    match w.phase
    case Locked(latestHash) => latestHash == db.head.latestHash
    case Hashed(previousHash, currentHash) =>
      (previousHash, currentHash) == ComputeHashes(e, db.head.latestHash, w.req, w.createdAt)
    case Inserted(row) => RowOk(e, db, w, row)
    case HeadUpdated(row, head) => RowOk(e, db, w, row) && head == Head(row.currentHash, Some(row.id))
    case _ => false
  }

  predicate RowOk(e: Env, db: Db, w: Writer, row: Row) {
    row == NewRow(e, db.head.latestHash, Append(w.req, w.createdAt, row.id)) && Admits(db.rows, row)
  }

  /** Exactly the lock holder has an open transaction. */
  predicate LockInv(k: Core) {
    && (k.lock.Some? ==> k.lock.value in k.writers)
    && (forall c :: c in k.writers ==> (k.writers[c].phase.InTransaction() <==> k.lock == Some(c)))
  }

  /** Each client gets the lock at most once, and the holder got it last. */
  predicate GrantInv(k: Core, grants: seq<nat>) {
    && (forall i, j :: 0 <= i < j < |grants| ==> grants[i] != grants[j])
    && (forall c :: c in grants ==> c in k.writers && !k.writers[c].phase.Sampled?)
    && (k.lock.Some? ==> grants != [] && grants[|grants| - 1] == k.lock.value)
  }

  /** Clients that are through own different committed rows. */
  predicate RowInv(k: Core) {
    && (forall c :: c in k.writers && k.writers[c].phase.IsDone() ==> k.writers[c].phase.row in k.db.rows)
    && (forall c, d :: c in k.writers && d in k.writers && c != d
                       && k.writers[c].phase.IsDone() && k.writers[d].phase.IsDone()
                       ==> k.writers[c].phase.row.id != k.writers[d].phase.row.id)
  }

  /** The tables are what the committed appends make of the empty log, done one at a time in lock order. */
  predicate ReplayInv(e: Env, k: Core, grants: seq<nat>) {
    k.db == Replay(e, Commits(k, grants)) && AllAdmitted(e, Commits(k, grants))
  }

  predicate CoreInv(e: Env, k: Core, grants: seq<nat>) {
    && LockInv(k) && GrantInv(k, grants) && RowInv(k) && ReplayInv(e, k, grants)
    && (k.lock.Some? ==> HolderOk(e, k.db, k.writers[k.lock.value]))
  }

  // ----- It is inductive -----

  lemma {:induction false} CommitsFrame(k: Core, k': Core, grants: seq<nat>)
    requires forall c :: c in grants ==> CommittedBy(k, c) == CommittedBy(k', c)
    ensures Commits(k, grants) == Commits(k', grants)
  {
    if grants != [] {
      var n := |grants| - 1;
      assert grants[n] in grants;
      CommitsFrame(k, k', grants[..n]);
    }
  }

  lemma InitCoreInv(e: Env)
    ensures CoreInv(e, INIT_CORE, [])
  {
  }

  /** The client whose program counter the step moves. */
  function ActorOf(a: Action): Option<nat> {
    if a.Begin? || a.Lock? || a.ComputeHash? || a.Insert? || a.UpdateHead? || a.Commit? || a.Abort? ||
       a.SetLatest? || a.Enqueue? || a.Return? || a.Crash?
    then Some(a.c) else None
  }

  /** A step touches no client but its own. */
  lemma OthersStay(e: Env, k: Core, a: Action)
    requires CoreEnabled(k, a)
    ensures var k' := CoreNext(e, k, a);
            && (ActorOf(a) == None ==> k' == k)
            && (ActorOf(a).Some? ==> k'.writers.Keys == k.writers.Keys + {a.c})
            && (forall d :: d in k.writers && ActorOf(a) != Some(d) ==> k'.writers[d] == k.writers[d])
            && (!a.Commit? ==> k'.db == k.db)
  {
  }

  /** What a step may do to its own client and to the lock. */
  lemma ActorMoves(e: Env, k: Core, a: Action)
    requires LockInv(k) && CoreEnabled(k, a) && ActorOf(a).Some?
    ensures var k' := CoreNext(e, k, a);
            && a.c in k'.writers
            && (a.c in k.writers <==> !a.Begin?)
            && (k'.writers[a.c].phase.Sampled? <==> a.Begin?)
            && (a.c in k.writers && k.writers[a.c].phase.IsDone() ==>
                  && k'.writers[a.c].phase.IsDone()
                  && k'.writers[a.c].phase.row == k.writers[a.c].phase.row
                  && AppendOf(k'.writers[a.c]) == AppendOf(k.writers[a.c]))
            && (k'.writers[a.c].phase.IsDone() && !a.Commit? ==> a.c in k.writers && k.writers[a.c].phase.IsDone())
            && (a.Lock? ==> k.writers[a.c].phase.Sampled? && k.lock == None)
            && (k'.writers[a.c].phase.InTransaction() <==> k'.lock == Some(a.c))
            && (k'.lock == k.lock || k'.lock == None || (a.Lock? && k'.lock == Some(a.c)))
            && (k.lock.Some? && k.lock != Some(a.c) ==> k'.lock == k.lock)
  {
    hide ComputeHashes;
    hide RowToInsert;
    hide Admits;
  }

  lemma LockStep(e: Env, k: Core, a: Action)
    requires LockInv(k) && CoreEnabled(k, a)
    ensures LockInv(CoreNext(e, k, a))
  {
    OthersStay(e, k, a);
    if ActorOf(a).Some? {
      ActorMoves(e, k, a);
    }
    hide CoreNext;
    hide CoreEnabled;
  }

  lemma GrantStep(e: Env, k: Core, grants: seq<nat>, a: Action)
    requires LockInv(k) && GrantInv(k, grants) && CoreEnabled(k, a)
    ensures GrantInv(CoreNext(e, k, a), grants + GrantOf(a))
  {
    OthersStay(e, k, a);
    if ActorOf(a).Some? {
      ActorMoves(e, k, a);
    }
    hide CoreNext;
    hide CoreEnabled;
    hide LockInv;
    if !a.Lock? {
      assert grants + GrantOf(a) == grants;
    }
  }

  lemma QuietForClient(e: Env, k: Core, a: Action, c: nat)
    requires LockInv(k) && CoreEnabled(k, a) && !a.Commit? && c in k.writers
    ensures CommittedBy(CoreNext(e, k, a), c) == CommittedBy(k, c)
  {
    OthersStay(e, k, a);
    if ActorOf(a).Some? {
      ActorMoves(e, k, a);
    }
    hide CoreNext;
    hide CoreEnabled;
  }

  /** A step other than a commit leaves tables and committed appends alone. */
  lemma QuietStep(e: Env, k: Core, grants: seq<nat>, a: Action)
    requires LockInv(k) && GrantInv(k, grants) && ReplayInv(e, k, grants) && CoreEnabled(k, a) && !a.Commit?
    ensures CoreNext(e, k, a).db == k.db
    ensures ReplayInv(e, CoreNext(e, k, a), grants + GrantOf(a))
  {
    var k' := CoreNext(e, k, a);
    var grants' := grants + GrantOf(a);
    OthersStay(e, k, a);
    forall c | c in grants
      ensures CommittedBy(k, c) == CommittedBy(k', c)
    {
      QuietForClient(e, k, a, c);
    }
    CommitsFrame(k, k', grants);
    if a.Lock? {
      QuietForClient(e, k, a, a.c);
      assert CommittedBy(k, a.c) == [];
    }
    hide CoreNext;
    hide CoreEnabled;
    hide CommittedBy;
    hide LockInv;
    hide GrantInv;
    hide AllAdmitted;
    hide Replay;
    if a.Lock? {
      assert grants'[..|grants|] == grants && grants'[|grants|] == a.c;
      assert Commits(k', grants') == Commits(k, grants);
    } else {
      assert grants' == grants;
    }
  }

  /** A commit does to the tables what the one-step append does. */
  lemma CommitAppends(e: Env, k: Core, c: nat)
    requires LockInv(k) && CoreEnabled(k, Commit(c)) && HolderOk(e, k.db, k.writers[c])
    ensures var k' := CoreNext(e, k, Commit(c));
            && k.lock == Some(c)
            && k'.writers[c].phase.Committed?
            && k'.db == AtomicAppend(e, k.db, AppendOf(k'.writers[c]))
            && k'.writers[c].phase.row == NewRow(e, k.db.head.latestHash, AppendOf(k'.writers[c]))
            && Admits(k.db.rows, k'.writers[c].phase.row)
            && !k.writers[c].phase.IsDone()
  {
    hide NewRow;
    hide Admits;
  }

  /** The committing client got the lock last, so its append goes to the end. */
  lemma CommitsAfterCommit(k: Core, k': Core, grants: seq<nat>, c: nat)
    requires GrantInv(k, grants) && k.lock == Some(c) && c in k.writers && !k.writers[c].phase.IsDone()
    requires k'.writers.Keys == k.writers.Keys && k'.writers[c].phase.IsDone()
    requires forall d :: d in k.writers && d != c ==> k'.writers[d] == k.writers[d]
    ensures Commits(k', grants) == Commits(k, grants) + [AppendOf(k'.writers[c])]
  {
    var n := |grants| - 1;
    assert grants[n] == c && forall i :: 0 <= i < n ==> grants[..n][i] == grants[i] != c;
    CommitsFrame(k, k', grants[..n]);
  }

  lemma ReplayOneMore(e: Env, appends: seq<Append>, a: Append)
    requires AllAdmitted(e, appends)
    requires Admits(Replay(e, appends).rows, NewRow(e, Replay(e, appends).head.latestHash, a))
    ensures Replay(e, appends + [a]) == AtomicAppend(e, Replay(e, appends), a)
    ensures AllAdmitted(e, appends + [a])
  {
    hide NewRow;
    hide Admits;
    assert (appends + [a])[..|appends|] == appends;
  }

  lemma CommitStep(e: Env, k: Core, grants: seq<nat>, c: nat)
    requires CoreInv(e, k, grants) && CoreEnabled(k, Commit(c))
    ensures var k' := CoreNext(e, k, Commit(c));
            && k'.writers[c].phase.IsDone()
            && Commits(k', grants) == Commits(k, grants) + [AppendOf(k'.writers[c])]
            && ReplayInv(e, k', grants)
  {
    var k' := CoreNext(e, k, Commit(c));
    CommitAppends(e, k, c);
    OthersStay(e, k, Commit(c));
    hide NewRow;
    hide Admits;
    hide CoreNext;
    hide HolderOk;
    hide RowInv;
    hide AllAdmitted;
    hide Replay;
    CommitsAfterCommit(k, k', grants, c);
    ReplayOneMore(e, Commits(k, grants), AppendOf(k'.writers[c]));
  }

  /** A client that is through after the step was through before it, with the same row, or has just committed. */
  lemma DoneBefore(e: Env, k: Core, a: Action, c: nat)
    requires LockInv(k) && CoreEnabled(k, a)
    requires c in CoreNext(e, k, a).writers && CoreNext(e, k, a).writers[c].phase.IsDone()
    ensures a == Commit(c) ||
            (c in k.writers && k.writers[c].phase.IsDone() &&
             k.writers[c].phase.row == CoreNext(e, k, a).writers[c].phase.row)
  {
    OthersStay(e, k, a);
    if ActorOf(a).Some? {
      ActorMoves(e, k, a);
    }
    hide CoreNext;
    hide CoreEnabled;
  }

  lemma RowStep(e: Env, k: Core, grants: seq<nat>, a: Action)
    requires CoreInv(e, k, grants) && CoreEnabled(k, a)
    ensures RowInv(CoreNext(e, k, a))
  {
    var k' := CoreNext(e, k, a);
    OthersStay(e, k, a);
    if a.Commit? {
      CommitAppends(e, k, a.c);
      assert k'.writers[a.c].phase.row == k'.db.rows[|k.db.rows|];
    }
    hide CoreNext;
    hide CoreEnabled;
    hide HolderOk;
    hide GrantInv;
    hide ReplayInv;
    hide NewRow;
    forall c | c in k'.writers && k'.writers[c].phase.IsDone()
      ensures k'.writers[c].phase.row in k'.db.rows
    {
      DoneBefore(e, k, a, c);
    }
    forall c, d | c in k'.writers && d in k'.writers && c != d
                  && k'.writers[c].phase.IsDone() && k'.writers[d].phase.IsDone()
      ensures k'.writers[c].phase.row.id != k'.writers[d].phase.row.id
    {
      DoneBefore(e, k, a, c);
      DoneBefore(e, k, a, d);
    }
  }

  lemma HolderStep(e: Env, k: Core, grants: seq<nat>, a: Action)
    requires CoreInv(e, k, grants) && CoreEnabled(k, a)
    ensures var k' := CoreNext(e, k, a);
            k'.lock.Some? ==> k'.lock.value in k'.writers && HolderOk(e, k'.db, k'.writers[k'.lock.value])
  {
  }

  /** Every step of every client keeps the invariant, mid-transaction steps and aborts included. */
  lemma CoreStepKeepsInv(e: Env, k: Core, grants: seq<nat>, a: Action)
    requires CoreInv(e, k, grants) && CoreEnabled(k, a)
    ensures CoreInv(e, CoreNext(e, k, a), grants + GrantOf(a))
  {
    hide CoreNext;
    hide CoreEnabled;
    hide HolderOk;
    hide LockInv;
    hide GrantInv;
    hide RowInv;
    hide ReplayInv;
    LockStep(e, k, a);
    GrantStep(e, k, grants, a);
    RowStep(e, k, grants, a);
    HolderStep(e, k, grants, a);
    if a.Commit? {
      CommitStep(e, k, grants, a.c);
      assert grants + GrantOf(a) == grants;
    } else {
      QuietStep(e, k, grants, a);
    }
  }

  // ----- One client alone -----

  function CoreExec(e: Env, k: Core, actions: seq<Action>): Option<Core>
    decreases |actions|
  {
    if actions == [] then Some(k)
    else if CoreEnabled(k, actions[0]) then CoreExec(e, CoreNext(e, k, actions[0]), actions[1..])
    else None
  }

  lemma ExecFirst(e: Env, k: Core, a: Action, rest: seq<Action>)
    requires CoreEnabled(k, a)
    ensures CoreExec(e, k, [a] + rest) == CoreExec(e, CoreNext(e, k, a), rest)
  {
    hide CoreNext;
    hide CoreEnabled;
    assert ([a] + rest)[1..] == rest;
  }

  /**
   * A transaction whose steps no one gets in between is the atomic append; if the row violates a
   * constraint, it ends after the insert, with tables and lock as they were.
   */
  lemma SoloTransaction(e: Env, k: Core, c: nat, id: string)
    requires c in k.writers && k.writers[c].phase.Sampled? && k.lock == None
    ensures var a := Append(k.writers[c].req, k.writers[c].createdAt, id);
            var row := NewRow(e, k.db.head.latestHash, a);
            if Admits(k.db.rows, row) then
              CoreExec(e, k, [Lock(c), ComputeHash(c), Insert(c, id), UpdateHead(c), Commit(c)]) ==
              Some(Move(k, c, Committed(row)).(db := AtomicAppend(e, k.db, a)))
            else
              CoreExec(e, k, [Lock(c), ComputeHash(c), Insert(c, id)]) == Some(Move(k, c, Aborted))
  {
    var w := k.writers[c];
    var a := Append(w.req, w.createdAt, id);
    var row := NewRow(e, k.db.head.latestHash, a);
    var k1 := CoreNext(e, k, Lock(c));
    var k2 := CoreNext(e, k1, ComputeHash(c));
    assert RowToInsert(e, k2.writers[c], id) == row;
    var k3 := CoreNext(e, k2, Insert(c, id));
    assert CoreEnabled(k, Lock(c)) && CoreEnabled(k1, ComputeHash(c)) && CoreEnabled(k2, Insert(c, id));
    if Admits(k.db.rows, row) {
      var k4 := CoreNext(e, k3, UpdateHead(c));
      assert CoreEnabled(k3, UpdateHead(c)) && CoreEnabled(k4, Commit(c));
      assert CoreNext(e, k4, Commit(c)) == Move(k, c, Committed(row)).(db := AtomicAppend(e, k.db, a));
      hide CoreNext;
      hide CoreEnabled;
      ExecFirst(e, k4, Commit(c), []);
      ExecFirst(e, k3, UpdateHead(c), [Commit(c)]);
      ExecFirst(e, k2, Insert(c, id), [UpdateHead(c), Commit(c)]);
      ExecFirst(e, k1, ComputeHash(c), [Insert(c, id), UpdateHead(c), Commit(c)]);
      ExecFirst(e, k, Lock(c), [ComputeHash(c), Insert(c, id), UpdateHead(c), Commit(c)]);
    } else {
      assert k3 == Move(k, c, Aborted);
      hide CoreNext;
      hide CoreEnabled;
      ExecFirst(e, k2, Insert(c, id), []);
      ExecFirst(e, k1, ComputeHash(c), [Insert(c, id)]);
      ExecFirst(e, k, Lock(c), [ComputeHash(c), Insert(c, id)]);
    }
  }
}
