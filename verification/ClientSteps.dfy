/** One client: the order of its steps, what stopping it leaves behind, and what it does when no one interferes. */
module ClientSteps {

  import opened Wrappers
  import opened LogEntries
  import opened Database
  import opened WriterProtocol
  import opened SystemProtocol

  // ----- The order of createLogEntry -----

  /** What one client does in a run. */
  function StepsOf(actions: seq<Action>, c: nat): seq<Action> {
    if actions == [] then []
    else
      var n := |actions| - 1;
      StepsOf(actions[..n], c) + (if ActorOf(actions[n]) == Some(c) then [actions[n]] else [])
  }

  /** Whether `a` is step `i` of createLogEntry. */
  predicate IsStep(a: Action, i: nat) {
    match i
    case 0 => a.Begin?
    case 1 => a.Lock?
    case 2 => a.ComputeHash?
    case 3 => a.Insert?
    case 4 => a.UpdateHead?
    case 5 => a.Commit?
    case 6 => a.SetLatest?
    case 7 => a.Enqueue?
    case 8 => a.Return?
    case _ => false
  }

  predicate InOrder(steps: seq<Action>) {
    forall i :: 0 <= i < |steps| ==> IsStep(steps[i], i)
  }

  /** How many steps lie behind a client that goes on. */
  function StepsDone(phase: Phase): nat
    requires !phase.Aborted? && !phase.Crashed?
  {
    match phase
    case Sampled => 1
    case Locked(_) => 2
    case Hashed(_, _) => 3
    case Inserted(_) => 4
    case HeadUpdated(_, _) => 5
    case Committed(_) => 6
    case CacheTried(_) => 7
    case Queued(_) => 8
    case Returned(_) => 9
  }

  predicate Stopped(steps: seq<Action>) {
    steps != [] &&
    var n := |steps| - 1;
    && InOrder(steps[..n])
    && (if steps[n].Abort? then 1 <= n <= 5 else steps[n].Crash? && 6 <= n <= 8)
  }

  predicate StepsFit(writer: Writer, steps: seq<Action>) {
    match writer.phase
    case Aborted => (InOrder(steps) && |steps| == 4) || (Stopped(steps) && steps[|steps| - 1].Abort?)
    case Crashed(_) => Stopped(steps) && steps[|steps| - 1].Crash?
    case phase => InOrder(steps) && |steps| == StepsDone(phase)
  }

  lemma StepFits(e: Env, k: Core, a: Action, steps: seq<Action>)
    requires CoreEnabled(k, a) && ActorOf(a).Some?
    requires if a.c in k.writers then StepsFit(k.writers[a.c], steps) else steps == []
    ensures a.c in CoreNext(e, k, a).writers && StepsFit(CoreNext(e, k, a).writers[a.c], steps + [a])
  {
    hide Admits;
    hide ComputeHashes;
    hide RowToInsert;
    assert (steps + [a])[..|steps|] == steps;
  }

  lemma {:induction false} StepsFitPhase(e: Env, actions: seq<Action>, c: nat)
    requires Exec(e, actions).Some?
    ensures var writers := Exec(e, actions).value.core.writers;
            if c in writers then StepsFit(writers[c], StepsOf(actions, c)) else StepsOf(actions, c) == []
  {
    hide CoreNext;
    hide CoreEnabled;
    hide IoNext;
    hide IoEnabled;
    hide StepsFit;
    if actions != [] {
      var n := |actions| - 1;
      StepsFitPhase(e, actions[..n], c);
      var k := Exec(e, actions[..n]).value.core;
      OthersStay(e, k, actions[n]);
      if ActorOf(actions[n]) == Some(c) {
        StepFits(e, k, actions[n], StepsOf(actions[..n], c));
      } else {
        assert StepsOf(actions, c) == StepsOf(actions[..n], c);
      }
    }
  }

  /**
   * In any run each client follows createLogEntry: begin, lock, hash, insert, update the head, commit, set
   * latest_log, enqueue, return. It may stop early, by an abort before the commit or a crash after it.
   */
  lemma ProgramOrder(e: Env, actions: seq<Action>, c: nat)
    requires Exec(e, actions).Some?
    ensures var steps := StepsOf(actions, c);
            forall i :: 0 <= i < |steps| ==>
              && (steps[i].Begin? <==> i == 0)
              && (steps[i].Lock? ==> i == 1)
              && (steps[i].ComputeHash? ==> i == 2)
              && (steps[i].Insert? ==> i == 3)
              && (steps[i].UpdateHead? ==> i == 4)
              && (steps[i].Commit? ==> i == 5)
              && (steps[i].SetLatest? ==> i == 6)
              && (steps[i].Enqueue? ==> i == 7)
              && (steps[i].Return? ==> i == 8)
              && (steps[i].Abort? ==> i == |steps| - 1 && 1 <= i <= 5)
              && (steps[i].Crash? ==> i == |steps| - 1 && 6 <= i <= 8)
  {
    StepsFitPhase(e, actions, c);
    var steps := StepsOf(actions, c);
    if c in Exec(e, actions).value.core.writers && Stopped(steps) {
      assert forall i :: 0 <= i < |steps| - 1 ==> steps[i] == steps[..|steps| - 1][i];
    }
  }

  // ----- The order of getLogById -----

  function ReaderIn(a: Action): Option<nat> {
    if a.BeginRead? || a.CacheGet? || a.FindRow? || a.FillCache? then Some(a.r) else None
  }

  /** What one reader does in a run. */
  function ReadStepsOf(actions: seq<Action>, r: nat): seq<Action> {
    if actions == [] then []
    else
      var n := |actions| - 1;
      ReadStepsOf(actions[..n], r) + (if ReaderIn(actions[n]) == Some(r) then [actions[n]] else [])
  }

  predicate ReadsInOrder(steps: seq<Action>) {
    forall i :: 0 <= i < |steps| ==>
      if i == 0 then steps[i].BeginRead?
      else if i == 1 then steps[i].CacheGet?
      else if i == 2 then steps[i].FindRow?
      else i == 3 && steps[i].FillCache?
  }

  /** A hit is answered after two steps, a miss after four. */
  predicate ReadsFit(reader: Reader, steps: seq<Action>) {
    && ReadsInOrder(steps)
    && match reader
       case Asked(_) => |steps| == 1
       case Missed(_) => |steps| == 2
       case Fetched(_, _) => |steps| == 3
       case Answered(_, _, _) => |steps| == 2 || |steps| == 4
       case NotFound(_) => |steps| == 3
  }

  lemma ReadFits(e: Env, s: State, a: Action, steps: seq<Action>)
    requires Enabled(s, a) && ReaderIn(a).Some?
    requires if a.r in s.io.readers then ReadsFit(s.io.readers[a.r], steps) else steps == []
    ensures a.r in IoNext(e, s, a).readers && ReadsFit(IoNext(e, s, a).readers[a.r], steps + [a])
  {
    hide CoreEnabled;
  }

  lemma OtherReadersStay(e: Env, s: State, a: Action, r: nat)
    requires Enabled(s, a) && ReaderIn(a) != Some(r)
    ensures r in IoNext(e, s, a).readers <==> r in s.io.readers
    ensures r in s.io.readers ==> IoNext(e, s, a).readers[r] == s.io.readers[r]
  {
    hide CoreEnabled;
  }

  lemma {:induction false} ReadsFitState(e: Env, actions: seq<Action>, r: nat)
    requires Exec(e, actions).Some?
    ensures var readers := Exec(e, actions).value.io.readers;
            if r in readers then ReadsFit(readers[r], ReadStepsOf(actions, r)) else ReadStepsOf(actions, r) == []
  {
    hide CoreNext;
    hide CoreEnabled;
    hide IoNext;
    hide IoEnabled;
    hide ReadsFit;
    if actions != [] {
      var n := |actions| - 1;
      ReadsFitState(e, actions[..n], r);
      var s := Exec(e, actions[..n]).value;
      if ReaderIn(actions[n]) == Some(r) {
        ReadFits(e, s, actions[n], ReadStepsOf(actions[..n], r));
      } else {
        OtherReadersStay(e, s, actions[n], r);
        assert ReadStepsOf(actions, r) == ReadStepsOf(actions[..n], r);
      }
    }
  }

  /** In any run each reader follows getLogById: ask, look in the cache, on a miss find the row, fill the cache. */
  lemma ReadOrder(e: Env, actions: seq<Action>, r: nat)
    requires Exec(e, actions).Some?
    ensures var steps := ReadStepsOf(actions, r);
            && |steps| <= 4
            && (|steps| > 0 ==> steps[0].BeginRead?) && (|steps| > 1 ==> steps[1].CacheGet?)
            && (|steps| > 2 ==> steps[2].FindRow?) && (|steps| > 3 ==> steps[3].FillCache?)
  {
    ReadsFitState(e, actions, r);
  }

  // ----- Stopping a client -----

  /** Before its commit a client can abort at any point: tables, Redis, queue and other clients see no change. */
  lemma AbortLeavesNoTrace(e: Env, actions: seq<Action>, c: nat)
    requires Exec(e, actions).Some?
    requires var writers := Exec(e, actions).value.core.writers;
             c in writers && (writers[c].phase.Sampled? || writers[c].phase.InTransaction())
    ensures var s, after := Exec(e, actions).value, Exec(e, actions + [Abort(c)]);
            && after.Some? && after.value.io == s.io && after.value.core.db == s.core.db
            && after.value.core.lock == (if s.core.lock == Some(c) then None else s.core.lock)
            && after.value.core.writers == s.core.writers[c := s.core.writers[c].(phase := Aborted)]
  {
    ExecOneMore(e, actions, Abort(c));
    hide Exec;
  }

  /** After its commit, and before it returns, it can crash at any point, and its row stays. */
  lemma CrashLeavesRow(e: Env, actions: seq<Action>, c: nat)
    requires WellBehaved(e) && Exec(e, actions).Some?
    requires var writers := Exec(e, actions).value.core.writers;
             c in writers && (writers[c].phase.Committed? || writers[c].phase.CacheTried? || writers[c].phase.Queued?)
    ensures var s, after := Exec(e, actions).value, Exec(e, actions + [Crash(c)]);
            && after.Some? && after.value.io == s.io
            && after.value.core == s.core.(writers := after.value.core.writers)
            && c in after.value.core.writers
            && after.value.core.writers[c].phase == Crashed(s.core.writers[c].phase.row)
            && s.core.writers[c].phase.row in after.value.core.db.rows
  {
    ExecOneMore(e, actions, Crash(c));
    RunInv(e, actions);
    hide Exec;
    hide IoInv;
  }

  // ----- A client alone -----

  lemma DatabaseStep(e: Env, s: State, a: Action)
    requires CoreEnabled(s.core, a) && OnDatabase(a)
    ensures Enabled(s, a) && Next(e, s, a) == State(CoreNext(e, s.core, a), s.io)
  {
    hide CoreNext;
    hide CoreEnabled;
  }

  /** Database steps that the write path allows are steps of the service, which leave Redis and the queue alone. */
  lemma {:induction false} DatabaseSteps(e: Env, actions: seq<Action>, more: seq<Action>)
    requires Exec(e, actions).Some? && CoreExec(e, Exec(e, actions).value.core, more).Some?
    requires forall a :: a in more ==> OnDatabase(a)
    ensures var s := Exec(e, actions).value;
            Exec(e, actions + more) == Some(State(CoreExec(e, s.core, more).value, s.io))
    decreases |more|
  {
    hide CoreNext;
    hide CoreEnabled;
    hide Next;
    hide Enabled;
    hide Exec;
    if more == [] {
      assert actions + more == actions;
    } else {
      var a := more[0];
      DatabaseStep(e, Exec(e, actions).value, a);
      hide OnDatabase;
      ExecOneMore(e, actions, a);
      DatabaseSteps(e, actions + [a], more[1..]);
      assert actions + [a] + more[1..] == actions + more;
    }
  }

  /** A transaction that no one gets in between. */
  function Steps(c: nat, id: string): seq<Action> {
    [Lock(c), ComputeHash(c), Insert(c, id), UpdateHead(c), Commit(c)]
  }

  lemma MoveTwice(k: Core, c: nat, one: Phase, two: Phase)
    requires c in k.writers
    ensures Move(Move(k, c, one), c, two) == Move(k, c, two)
  {
    assert Move(Move(k, c, one), c, two).writers == Move(k, c, two).writers;
  }

  /** The steps after the commit. */
  lemma Aftermath(e: Env, actions: seq<Action>, c: nat, redisOutcome: Outcome, queueOutcome: Outcome)
    requires Exec(e, actions).Some?
    requires var writers := Exec(e, actions).value.core.writers; c in writers && writers[c].phase.Committed?
    ensures var s := Exec(e, actions).value;
            var row := s.core.writers[c].phase.row;
            var cached := CacheWrite(s.io, LATEST_LOG_KEY, SummaryOf(e, row), redisOutcome);
            Exec(e, actions + [SetLatest(c, redisOutcome), Enqueue(c, queueOutcome), Return(c)]) ==
            Some(State(Move(s.core, c, Returned(row)), EnqueueJob(cached, row.id, queueOutcome)))
  {
    hide Exec;
    hide EnqueueJob;
    hide CacheWrite;
    hide SummaryOf;
    var one := actions + [SetLatest(c, redisOutcome)];
    var two := actions + [SetLatest(c, redisOutcome), Enqueue(c, queueOutcome)];
    var s := Exec(e, actions).value;
    ExecOneMore(e, actions, SetLatest(c, redisOutcome));
    ExecOneMore(e, one, Enqueue(c, queueOutcome));
    assert one + [Enqueue(c, queueOutcome)] == two;
    ExecOneMore(e, two, Return(c));
    assert two + [Return(c)] == actions + [SetLatest(c, redisOutcome), Enqueue(c, queueOutcome), Return(c)];
    var k, row := s.core, s.core.writers[c].phase.row;
    MoveTwice(k, c, CacheTried(row), Queued(row));
    MoveTwice(k, c, Queued(row), Returned(row));
  }

  /**
   * A call of createLogEntry that no one gets in between appends its row, sets latest_log, enqueues the job
   * and returns the row; if the row violates a constraint, the call ends at the insert and changes nothing.
   */
  lemma SoloCreate(e: Env, actions: seq<Action>, c: nat, id: string, redisOutcome: Outcome, queueOutcome: Outcome)
    requires Exec(e, actions).Some?
    requires var k := Exec(e, actions).value.core;
             c in k.writers && k.writers[c].phase.Sampled? && k.lock == None
    ensures var s := Exec(e, actions).value;
            var a := Append(s.core.writers[c].req, s.core.writers[c].createdAt, id);
            var row := NewRow(e, s.core.db.head.latestHash, a);
            var cached := CacheWrite(s.io, LATEST_LOG_KEY, SummaryOf(e, row), redisOutcome);
            if Admits(s.core.db.rows, row) then
              Exec(e, actions + Steps(c, id) + [SetLatest(c, redisOutcome), Enqueue(c, queueOutcome), Return(c)]) ==
              Some(State(Move(s.core, c, Returned(row)).(db := AtomicAppend(e, s.core.db, a)),
                         EnqueueJob(cached, id, queueOutcome)))
            else
              Exec(e, actions + [Lock(c), ComputeHash(c), Insert(c, id)]) ==
              Some(State(Move(s.core, c, Aborted), s.io))
  {
    var s := Exec(e, actions).value;
    var a := Append(s.core.writers[c].req, s.core.writers[c].createdAt, id);
    var row := NewRow(e, s.core.db.head.latestHash, a);
    SoloTransaction(e, s.core, c, id);
    assert row.id == id;
    hide Exec;
    hide CoreExec;
    hide NewRow;
    hide Admits;
    hide AtomicAppend;
    hide EnqueueJob;
    hide CacheWrite;
    hide SummaryOf;
    if Admits(s.core.db.rows, row) {
      DatabaseSteps(e, actions, Steps(c, id));
      MoveTwice(s.core, c, Committed(row), Returned(row));
      Aftermath(e, actions + Steps(c, id), c, redisOutcome, queueOutcome);
    } else {
      DatabaseSteps(e, actions, [Lock(c), ComputeHash(c), Insert(c, id)]);
    }
  }
}
