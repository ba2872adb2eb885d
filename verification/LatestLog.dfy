/** When the latest_log summary in Redis is the summary of the last committed row. */
module LatestLog {

  import opened Wrappers
  import opened LogEntries
  import opened HashService
  import opened Database
  import opened WriterProtocol
  import opened SystemProtocol

  /** The clients whose commits the run contains, in order. */
  function CommitOrder(actions: seq<Action>): seq<nat> {
    if actions == [] then []
    else
      var n := |actions| - 1;
      CommitOrder(actions[..n]) + (if actions[n].Commit? then [actions[n].c] else [])
  }

  /** The clients that wrote latest_log, in order. */
  function SetOrder(actions: seq<Action>): seq<nat> {
    if actions == [] then []
    else
      var n := |actions| - 1;
      SetOrder(actions[..n]) + (if actions[n].SetLatest? then [actions[n].c] else [])
  }

  /** Every write of latest_log succeeded at once, and the key was never dropped. */
  predicate NoSummaryLost(actions: seq<Action>) {
    forall i :: 0 <= i < |actions| ==> StepKeepsSummary(actions[i])
  }

  predicate StepKeepsSummary(a: Action) {
    (a.SetLatest? ==> a.outcome == Applied) && a != Expire(LATEST_LOG_KEY)
  }

  function Last(order: seq<nat>): nat
    requires order != []
  {
    order[|order| - 1]
  }

  predicate IsDoneWriter(k: Core, c: nat) {
    c in k.writers && k.writers[c].phase.IsDone()
  }

  /** The last row is the last committer's. */
  predicate LastCommitInv(k: Core, commitOrder: seq<nat>) {
    if commitOrder == [] then k.db.rows == []
    else
      && k.db.rows != []
      && IsDoneWriter(k, Last(commitOrder))
      && k.db.rows[|k.db.rows| - 1] == k.writers[Last(commitOrder)].phase.row
  }

  /** The summary is the last setter's. */
  predicate LastSetInv(e: Env, s: State, setOrder: seq<nat>) {
    if setOrder == [] then LATEST_LOG_KEY !in s.io.cache
    else
      && IsDoneWriter(s.core, Last(setOrder))
      && LATEST_LOG_KEY in s.io.cache
      && s.io.cache[LATEST_LOG_KEY] == SummaryOf(e, s.core.writers[Last(setOrder)].phase.row)
  }

  predicate NoLateSummary(io: Io) {
    forall write :: write in io.lateSets ==> write.key != LATEST_LOG_KEY
  }

  predicate LatestInv(e: Env, s: State, commitOrder: seq<nat>, setOrder: seq<nat>) {
    LastCommitInv(s.core, commitOrder) && LastSetInv(e, s, setOrder) && NoLateSummary(s.io)
  }

  /** Clients that are through stay through, with their row. */
  lemma DoneStays(e: Env, k: Core, a: Action, c: nat)
    requires LockInv(k) && CoreEnabled(k, a) && IsDoneWriter(k, c)
    ensures IsDoneWriter(CoreNext(e, k, a), c) && CoreNext(e, k, a).writers[c].phase.row == k.writers[c].phase.row
  {
    OthersStay(e, k, a);
    if ActorOf(a).Some? {
      ActorMoves(e, k, a);
    }
    hide CoreNext;
    hide CoreEnabled;
  }

  predicate SameSummary(io: Io, io': Io) {
    && (LATEST_LOG_KEY in io'.cache <==> LATEST_LOG_KEY in io.cache)
    && (LATEST_LOG_KEY in io'.cache ==> io'.cache[LATEST_LOG_KEY] == io.cache[LATEST_LOG_KEY])
  }

  lemma EnvironmentKeepsSummary(io: Io, a: Action)
    requires IoEnabled(io, a) && OfEnvironment(a) && StepKeepsSummary(a) && NoLateSummary(io)
    ensures NoLateSummary(EnvironmentNext(io, a)) && SameSummary(io, EnvironmentNext(io, a))
  {
  }

  lemma FillKeepsSummary(io: Io, id: string, value: CacheValue, outcome: Outcome)
    requires NoLateSummary(io)
    ensures var io' := CacheWrite(io, LogKey(id), value, outcome); NoLateSummary(io') && SameSummary(io, io')
  {
    KeysTellApart(id, id);
  }

  /** Only a client's own set, an expiry or a late write can change latest_log; reads fill other keys. */
  lemma SummaryStep(e: Env, s: State, a: Action)
    requires Enabled(s, a) && StepKeepsSummary(a) && NoLateSummary(s.io)
    ensures var io' := IoNext(e, s, a);
            && NoLateSummary(io')
            && (if a.SetLatest? then
                  && LATEST_LOG_KEY in io'.cache
                  && io'.cache[LATEST_LOG_KEY] == SummaryOf(e, s.core.writers[a.c].phase.row)
                else SameSummary(s.io, io'))
  {
    hide SummaryOf;
    hide VerificationStatus;
    hide JsonImage;
    if OfEnvironment(a) {
      EnvironmentKeepsSummary(s.io, a);
      hide EnvironmentNext;
    } else if a.FillCache? {
      var reader := s.io.readers[a.r];
      FillKeepsSummary(s.io, reader.id, Full(JsonImage(e, reader.row)), a.outcome);
      hide CacheWrite;
    }
  }

  lemma LastCommitStep(e: Env, s: State, grants: seq<nat>, a: Action, commitOrder: seq<nat>)
    requires CoreInv(e, s.core, grants) && Enabled(s, a) && LastCommitInv(s.core, commitOrder)
    ensures LastCommitInv(Next(e, s, a).core, commitOrder + (if a.Commit? then [a.c] else []))
  {
    RowsGrowAtTheEnd(e, s, grants, a);
    if commitOrder != [] {
      DoneStays(e, s.core, a, Last(commitOrder));
    }
    OthersStay(e, s.core, a);
    hide CoreNext;
    hide CoreEnabled;
    hide CoreInv;
    hide IoNext;
    hide AtomicAppend;
    if !a.Commit? {
      assert commitOrder + [] == commitOrder;
    }
  }

  lemma LastSetStep(e: Env, s: State, grants: seq<nat>, a: Action, setOrder: seq<nat>)
    requires CoreInv(e, s.core, grants) && Enabled(s, a) && StepKeepsSummary(a)
    requires LastSetInv(e, s, setOrder) && NoLateSummary(s.io)
    ensures LastSetInv(e, Next(e, s, a), setOrder + (if a.SetLatest? then [a.c] else []))
    ensures NoLateSummary(Next(e, s, a).io)
  {
    SummaryStep(e, s, a);
    if a.SetLatest? {
      DoneStays(e, s.core, a, a.c);
    } else if setOrder != [] {
      DoneStays(e, s.core, a, Last(setOrder));
    }
    hide CoreNext;
    hide CoreEnabled;
    hide CoreInv;
    hide IoNext;
    hide SummaryOf;
    if !a.SetLatest? {
      assert setOrder + [] == setOrder;
    }
  }

  lemma {:induction false} LatestRunInv(e: Env, actions: seq<Action>)
    requires WellBehaved(e) && Exec(e, actions).Some? && NoSummaryLost(actions)
    ensures LatestInv(e, Exec(e, actions).value, CommitOrder(actions), SetOrder(actions))
  {
    hide Next;
    hide Enabled;
    if actions != [] {
      var n := |actions| - 1;
      LatestRunInv(e, actions[..n]);
      RunInv(e, actions[..n]);
      var s, grants := Exec(e, actions[..n]).value, Grants(actions[..n]);
      LastCommitStep(e, s, grants, actions[n], CommitOrder(actions[..n]));
      LastSetStep(e, s, grants, actions[n], SetOrder(actions[..n]));
      hide LastCommitInv;
      hide LastSetInv;
      hide NoLateSummary;
    }
  }

  /**
   * If no summary was lost, latest_log describes the last committed row exactly when the client that set
   * it last is the client that committed last. So it may lag, and it is right when sets follow commit order.
   */
  lemma LatestLogIsLastRow(e: Env, actions: seq<Action>)
    requires WellBehaved(e) && Exec(e, actions).Some? && SetOrder(actions) != []
    requires forall a :: a in actions ==> (a.SetLatest? ==> a.outcome == Applied) && a != Expire("latest_log")
    ensures CommitOrder(actions) != []
    ensures var s := Exec(e, actions).value;
            && s.core.db.rows != [] && LATEST_LOG_KEY in s.io.cache && s.io.cache[LATEST_LOG_KEY].Summary?
            && var last, summary := s.core.db.rows[|s.core.db.rows| - 1], s.io.cache[LATEST_LOG_KEY];
               && s.core.db.head == Head(last.currentHash, Some(last.id))
               && (summary.id == last.id <==> Last(SetOrder(actions)) == Last(CommitOrder(actions)))
               && (summary == Summary(last.id, last.currentHash, e.iso(last.createdAt.ms)) <==>
                   Last(SetOrder(actions)) == Last(CommitOrder(actions)))
  {
    hide Next;
    assert NoSummaryLost(actions) by {
      assert forall i :: 0 <= i < |actions| ==> actions[i] in actions;
    }
    LatestRunInv(e, actions);
    RunInv(e, actions);
    var s := Exec(e, actions).value;
    hide Exec;
    hide IoInv;
    hide HolderOk;
    var setter := Last(SetOrder(actions));
    assert s.core.writers[setter].phase.row in s.core.db.rows;
    ReplayShape(e, Commits(s.core, Grants(actions)));
  }

  lemma SetOneMore(e: Env, actions: seq<Action>, d: nat)
    requires Exec(e, actions).Some? && NoSummaryLost(actions)
    requires var writers := Exec(e, actions).value.core.writers; d in writers && writers[d].phase.Committed?
    ensures var longer := actions + [SetLatest(d, Applied)];
            && Exec(e, longer).Some? && NoSummaryLost(longer)
            && CommitOrder(longer) == CommitOrder(actions)
            && SetOrder(longer) == SetOrder(actions) + [d]
            && var writers, writers' := Exec(e, actions).value.core.writers, Exec(e, longer).value.core.writers;
               forall c :: c in writers && c != d ==> c in writers' && writers'[c] == writers[c]
  {
    var a := SetLatest(d, Applied);
    var longer := actions + [a];
    assert longer[..|actions|] == actions && longer[|actions|] == a;
    ExecOneMore(e, actions, a);
    OthersStay(e, Exec(e, actions).value.core, a);
    hide Exec;
    hide CoreNext;
    hide CoreEnabled;
    hide IoNext;
  }

  /**
   * It does lag when two clients have committed and the later one sets the key first: after both sets,
   * latest_log names a row that is not the last.
   */
  lemma LatestLogMayLag(e: Env, actions: seq<Action>, c: nat, d: nat)
    requires WellBehaved(e) && Exec(e, actions).Some? && NoSummaryLost(actions)
    requires CommitOrder(actions) != [] && Last(CommitOrder(actions)) == d && c != d
    requires var writers := Exec(e, actions).value.core.writers;
             c in writers && d in writers && writers[c].phase.Committed? && writers[d].phase.Committed?
    ensures var after := Exec(e, actions + [SetLatest(d, Applied)] + [SetLatest(c, Applied)]);
            && after.Some? && LATEST_LOG_KEY in after.value.io.cache
            && after.value.io.cache[LATEST_LOG_KEY].Summary?
            && Some(after.value.io.cache[LATEST_LOG_KEY].id) != after.value.core.db.head.latestLogId
  {
    var one := actions + [SetLatest(d, Applied)];
    SetOneMore(e, actions, d);
    SetOneMore(e, one, c);
    hide Exec;
    var all := one + [SetLatest(c, Applied)];
    forall a | a in all
      ensures (a.SetLatest? ==> a.outcome == Applied) && a != Expire("latest_log")
    {
      var i :| 0 <= i < |all| && all[i] == a;
      assert StepKeepsSummary(all[i]);
    }
    hide NoSummaryLost;
    LatestLogIsLastRow(e, one + [SetLatest(c, Applied)]);
  }
}
