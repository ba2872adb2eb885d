/** Runs in which two clients sample their times before the one or the other gets the lock. */
module TwoWriters {

  import opened Wrappers
  import opened LogEntries
  import opened HashService
  import opened PreimageParser
  import opened ChainVerifier
  import opened Database
  import opened Ordering
  import opened WriterProtocol
  import opened SystemProtocol
  import opened ClientSteps
  import opened Guarantees
  import opened LatestLog

  function BothSample(one: Append, two: Append): seq<Action> {
    [Begin(0, one.req, one.createdAt), Begin(1, two.req, two.createdAt)]
  }

  /** What client 0, which locks first, and client 1, which samples before that and locks second, do. */
  function BothCommit(one: Append, two: Append): seq<Action> {
    BothSample(one, two) + Steps(0, one.id) + Steps(1, two.id)
  }

  function DataOfAppend(a: Append, previousHash: string): HashData {
    HashData(previousHash, a.req.actor, a.req.action, a.req.payload, Some(DateValue(a.createdAt)), None)
  }

  function FirstRow(e: Env, one: Append): Row {
    NewRow(e, GENESIS_PREVIOUS_HASH, one)
  }

  function SecondRow(e: Env, one: Append, two: Append): Row {
    NewRow(e, FirstRow(e, one).currentHash, two)
  }

  /** The texts that the two clients hash. */
  function FirstText(e: Env, one: Append): string {
    Preimage(e, DataOfAppend(one, GENESIS_PREVIOUS_HASH))
  }

  function SecondText(e: Env, one: Append, two: Append): string {
    Preimage(e, DataOfAppend(two, FirstRow(e, one).currentHash))
  }

  lemma SecondIsAdmitted(e: Env, one: Append, two: Append)
    requires WellBehaved(e) && one.id != two.id
    ensures || Admits([FirstRow(e, one)], SecondRow(e, one, two))
            || IsCollision(e, FirstText(e, one), SecondText(e, one, two))
  {
    var first, second := DataOfAppend(one, GENESIS_PREVIOUS_HASH), DataOfAppend(two, FirstRow(e, one).currentHash);
    DigestFormat(e, first);
    assert FirstRow(e, one).currentHash == GenerateHash(e, first);
    assert SecondRow(e, one, two).currentHash == GenerateHash(e, second);
    if Preimage(e, first) == Preimage(e, second) {
      PreimageDeterminesPrevious(e, first, second);
    }
  }

  /** The clients, when both have sampled their times. */
  function BothSampled(one: Append, two: Append): Core {
    Core(EMPTY_DB, None,
         map[0 := Writer(one.req, one.createdAt, Sampled), 1 := Writer(two.req, two.createdAt, Sampled)])
  }

  lemma BothBegin(e: Env, one: Append, two: Append)
    ensures Exec(e, BothSample(one, two)) ==
            Some(State(BothSampled(one, two), INIT_STATE.io))
  {
    var a, b := Begin(0, one.req, one.createdAt), Begin(1, two.req, two.createdAt);
    assert Exec(e, []) == Some(INIT_STATE);
    ExecOneMore(e, [], a);
    ExecOneMore(e, [] + [a], b);
    assert [] + [a] + [b] == [a, b];
  }

  function FirstCommitted(e: Env, one: Append, two: Append): Core {
    Move(BothSampled(one, two), 0, Committed(FirstRow(e, one))).(db := AtomicAppend(e, EMPTY_DB, one))
  }

  lemma FirstCommits(e: Env, one: Append, two: Append)
    ensures Exec(e, BothSample(one, two) + Steps(0, one.id)) ==
            Some(State(FirstCommitted(e, one, two), INIT_STATE.io))
  {
    BothBegin(e, one, two);
    SoloTransaction(e, BothSampled(one, two), 0, one.id);
    hide NewRow;
    hide Exec;
    hide CoreExec;
    DatabaseSteps(e, BothSample(one, two), Steps(0, one.id));
  }

  lemma SecondCommits(e: Env, one: Append, two: Append)
    requires Admits([FirstRow(e, one)], SecondRow(e, one, two))
    ensures var k := FirstCommitted(e, one, two);
            Exec(e, BothCommit(one, two)) ==
            Some(State(Move(k, 1, Committed(SecondRow(e, one, two))).(db := AtomicAppend(e, k.db, two)), INIT_STATE.io))
  {
    var begun := BothSample(one, two) + Steps(0, one.id);
    var k := FirstCommitted(e, one, two);
    FirstCommits(e, one, two);
    assert k.db.rows == [FirstRow(e, one)];
    SoloTransaction(e, k, 1, two.id);
    hide NewRow;
    hide Exec;
    hide CoreExec;
    hide Admits;
    DatabaseSteps(e, begun, Steps(1, two.id));
  }

  /** Both clients commit, whichever of them sampled the earlier time. */
  lemma BothCommitRun(e: Env, one: Append, two: Append)
    requires WellBehaved(e) && one.id != two.id
    ensures || IsCollision(e, FirstText(e, one), SecondText(e, one, two))
            || (var after := Exec(e, BothCommit(one, two));
                && after.Some?
                && after.value.core.db.rows == [FirstRow(e, one), SecondRow(e, one, two)]
                && after.value.core.writers ==
                   map[0 := Writer(one.req, one.createdAt, Committed(FirstRow(e, one))),
                       1 := Writer(two.req, two.createdAt, Committed(SecondRow(e, one, two)))])
  {
    SecondIsAdmitted(e, one, two);
    hide Exec;
    hide IsCollision;
    hide NewRow;
    hide Admits;
    if Admits([FirstRow(e, one)], SecondRow(e, one, two)) {
      SecondCommits(e, one, two);
    }
  }

  // ----- What such runs show -----

  /**
   * Commit order need not follow the sampled times: for any two times there is a run that commits two rows
   * with those times, in that order. If the first is the later one, every answer to "order by createdAt" is
   * rejected, and if they are equal, some answer is. The way out is a collision of two named texts.
   */
  lemma TimesInAnyOrder(e: Env, one: Append, two: Append)
    requires WellBehaved(e) && one.id != two.id
    ensures || IsCollision(e, FirstText(e, one), SecondText(e, one, two))
            || (var actions := BothCommit(one, two);
                && Exec(e, actions).Some?
                && var rows := DbAfter(e, actions).rows;
                   && |rows| == 2 && rows[0].createdAt.ms == one.createdAt && rows[1].createdAt.ms == two.createdAt
                   && (two.createdAt < one.createdAt ==>
                         forall answer: seq<Row> :: IsOrdering(answer, rows) ==> !Accepted(e, answer))
                   && (two.createdAt == one.createdAt ==>
                         exists answer: seq<Row> :: IsOrdering(answer, rows) && !Accepted(e, answer)))
  {
    BothCommitRun(e, one, two);
    if !IsCollision(e, FirstText(e, one), SecondText(e, one, two)) {
      var actions := BothCommit(one, two);
      var rows := DbAfter(e, actions).rows;
      hide Exec;
      RunsRefineAtomicAppend(e, actions);
      if two.createdAt < one.createdAt {
        forall answer: seq<Row> | IsOrdering(answer, rows)
          ensures !Accepted(e, answer)
        {
          InversionFailsIntegrityCheck(e, actions, answer);
        }
      } else if two.createdAt == one.createdAt {
        var answer := TieBreaksSomeOrdering(e, CommittedIn(e, actions));
      }
    }
  }

  /** The first client may also be slow to set latest_log: then the key names its row, which is not the last. */
  lemma LatestLogLags(e: Env, one: Append, two: Append)
    requires WellBehaved(e) && one.id != two.id
    ensures || IsCollision(e, FirstText(e, one), SecondText(e, one, two))
            || (var after := Exec(e, BothCommit(one, two) + [SetLatest(1, Applied)] + [SetLatest(0, Applied)]);
                && after.Some? && after.value.core.db.rows == [FirstRow(e, one), SecondRow(e, one, two)]
                && LATEST_LOG_KEY in after.value.io.cache
                && after.value.io.cache[LATEST_LOG_KEY].Summary?
                && after.value.io.cache[LATEST_LOG_KEY].id != two.id
                && after.value.core.db.head.latestLogId == Some(two.id))
  {
    BothCommitRun(e, one, two);
    if !IsCollision(e, FirstText(e, one), SecondText(e, one, two)) {
      var actions := BothCommit(one, two);
      LastCommitIsSecond(one, two);
      LatestLogMayLag(e, actions, 0, 1);
    }
  }

  lemma LastCommitIsSecond(one: Append, two: Append)
    ensures NoSummaryLost(BothCommit(one, two))
    ensures CommitOrder(BothCommit(one, two)) != [] && Last(CommitOrder(BothCommit(one, two))) == 1
  {
    var actions := BothCommit(one, two);
    assert actions[|actions| - 1] == Commit(1);
  }
}
