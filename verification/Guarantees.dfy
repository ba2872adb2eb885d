/** What holds of every run of the service, whatever the interleaving. */
module Guarantees {

  import opened Wrappers
  import opened LogEntries
  import opened HashService
  import opened PreimageParser
  import opened ChainVerifier
  import opened HeadBinding
  import opened Database
  import opened Ordering
  import opened WriterProtocol
  import opened SystemProtocol

  /** The appends that a run has committed, in the order in which their clients got the lock. */
  function CommittedIn(e: Env, actions: seq<Action>): seq<Append>
    requires Exec(e, actions).Some?
  {
    Commits(Exec(e, actions).value.core, Grants(actions))
  }

  function DbAfter(e: Env, actions: seq<Action>): Db
    requires Exec(e, actions).Some?
  {
    Exec(e, actions).value.core.db
  }

  /**
   * Any interleaving of any number of clients, with aborts and crashes anywhere, leaves the tables as
   * if the requests that committed had been appended one at a time, in lock order.
   */
  lemma RunsRefineAtomicAppend(e: Env, actions: seq<Action>)
    requires WellBehaved(e) && Exec(e, actions).Some?
    ensures DbAfter(e, actions) == Replay(e, CommittedIn(e, actions))
    ensures AllAdmitted(e, CommittedIn(e, actions))
  {
    hide Next;
    RunInv(e, actions);
  }

  // ----- Rows and requests -----

  lemma {:induction false} CommitHasClient(k: Core, grants: seq<nat>, i: nat) returns (c: nat)
    requires i < |Commits(k, grants)|
    ensures c in grants && c in k.writers && k.writers[c].phase.IsDone()
    ensures Commits(k, grants)[i] == AppendOf(k.writers[c])
  {
    var n := |grants| - 1;
    if i < |Commits(k, grants[..n])| {
      c := CommitHasClient(k, grants[..n], i);
    } else {
      c := grants[n];
    }
  }

  /** Each committed row is the row of a client that went through its commit: aborted requests leave no trace. */
  lemma RowsHaveOwners(e: Env, actions: seq<Action>, row: Row) returns (c: nat)
    requires WellBehaved(e) && Exec(e, actions).Some? && row in DbAfter(e, actions).rows
    ensures var writers := Exec(e, actions).value.core.writers;
            && c in writers && writers[c].phase.IsDone() && writers[c].phase.row == row
            && row.actor == writers[c].req.actor && row.action == writers[c].req.action
            && row.payload == (var sent := writers[c].req.payload;
                               if sent.None? then None else Some(e.jsonb(sent.value)))
            && row.createdAt == DateValue(writers[c].createdAt)
  {
    hide Next;
    RunInv(e, actions);
    var k := Exec(e, actions).value.core;
    var appends := CommittedIn(e, actions);
    hide Exec;
    hide NewRow;
    ReplayShape(e, appends);
    RowsAreDistinct(e, appends);
    var i :| 0 <= i < |k.db.rows| && k.db.rows[i] == row;
    c := CommitHasClient(k, Grants(actions), i);
    StoredRow(e, appends, i);
    var j :| 0 <= j < |k.db.rows| && k.db.rows[j] == k.writers[c].phase.row;
    assert i == j;
  }

  lemma ExecLast(e: Env, actions: seq<Action>)
    requires Exec(e, actions).Some? && actions != []
    ensures var m := |actions| - 1;
            && Exec(e, actions[..m]).Some?
            && Enabled(Exec(e, actions[..m]).value, actions[m])
            && Exec(e, actions).value == Next(e, Exec(e, actions[..m]).value, actions[m])
  {
    hide Next;
    hide Enabled;
  }

  /** The log is append-only: what was committed at some point of a run stays, at its place, to the end. */
  lemma {:induction false} AppendOnly(e: Env, actions: seq<Action>, n: nat)
    requires WellBehaved(e) && Exec(e, actions).Some? && n <= |actions|
    ensures Exec(e, actions[..n]).Some?
    ensures DbAfter(e, actions[..n]).rows <= DbAfter(e, actions).rows
  {
    hide Next;
    hide Enabled;
    hide Exec;
    hide Inv;
    ExecPrefix(e, actions, n);
    if n == |actions| {
      assert actions[..n] == actions;
    } else {
      var m := |actions| - 1;
      ExecLast(e, actions);
      AppendOnly(e, actions[..m], n);
      assert actions[..m][..n] == actions[..n];
      RunInv(e, actions[..m]);
      StepAppends(e, Exec(e, actions[..m]).value, Grants(actions[..m]), actions[m]);
    }
  }

  lemma StepAppends(e: Env, s: State, grants: seq<nat>, a: Action)
    requires Inv(e, s, grants) && Enabled(s, a)
    ensures s.core.db.rows <= Next(e, s, a).core.db.rows
  {
    RowsGrowAtTheEnd(e, s, grants, a);
    hide Inv;
    hide Next;
    hide AtomicAppend;
    hide Admits;
  }

  /** At most one client holds the lock, and what it has read is the committed head until it commits. */
  lemma HolderSeesCommittedHead(e: Env, actions: seq<Action>, c: nat)
    requires WellBehaved(e) && Exec(e, actions).Some?
    requires c in Exec(e, actions).value.core.writers
    requires Exec(e, actions).value.core.writers[c].phase.InTransaction()
    ensures var k := Exec(e, actions).value.core;
            && k.lock == Some(c)
            && (forall d :: d in k.writers && d != c ==> !k.writers[d].phase.InTransaction())
            && k.db.head.latestHash == TipHash(k.db.rows)
            && k.db.head.latestLogId == (if k.db.rows == [] then None else Some(k.db.rows[|k.db.rows| - 1].id))
            && match k.writers[c].phase
               case Locked(latestHash) => latestHash == k.db.head.latestHash
               case Hashed(previousHash, _) => previousHash == k.db.head.latestHash
               case Inserted(row) => row.previousHash == Some(k.db.head.latestHash)
               case HeadUpdated(row, head) =>
                 row.previousHash == Some(k.db.head.latestHash) && head == Head(row.currentHash, Some(row.id))
               case _ => false
  {
    hide Next;
    RunInv(e, actions);
    ReplayShape(e, CommittedIn(e, actions));
    hide Exec;
  }

  // ----- Verification of what a run has written -----

  /**
   * Every answer that "order by createdAt" may give is accepted exactly when the sampled times strictly
   * increase in commit order and storage did no harm to the payloads.
   */
  lemma IntegrityCheckOfRuns(e: Env, actions: seq<Action>)
    requires WellBehaved(e) && Exec(e, actions).Some?
    ensures var rows := DbAfter(e, actions).rows;
            (forall answer: seq<Row> :: IsOrdering(answer, rows) ==> Accepted(e, answer)) <==>
            StrictlyIncreasing(rows) && Harmless(e, CommittedIn(e, actions))
  {
    RunsRefineAtomicAppend(e, actions);
    OrderingsVerifyIffTimesIncrease(e, CommittedIn(e, actions));
  }

  /** A clock that ran backwards between two commits makes the integrity check fail, whichever answer it gets. */
  lemma InversionFailsIntegrityCheck(e: Env, actions: seq<Action>, answer: seq<Row>)
    requires WellBehaved(e) && Exec(e, actions).Some?
    requires !SortedByTime(DbAfter(e, actions).rows) && IsOrdering(answer, DbAfter(e, actions).rows)
    ensures !Accepted(e, answer)
  {
    RunsRefineAtomicAppend(e, actions);
    InversionBreaksEveryOrdering(e, CommittedIn(e, actions), answer);
  }

  /**
   * Whatever list of entries is accepted and ends in the committed head hash says what the writers
   * hashed, entry by entry, or two of the preimages collide.
   */
  lemma HeadBindsRuns(e: Env, actions: seq<Action>, entries: seq<LogEntry>)
    requires WellBehaved(e) && Exec(e, actions).Some?
    requires Accepted(e, entries) && TipHash(entries) == DbAfter(e, actions).head.latestHash
    ensures var hashed := HashedEntries(e, CommittedIn(e, actions));
            var r := Compare(e, entries, hashed);
            if r.Agree? then SamePreimages(e, entries, hashed)
            else IsCollision(e, PreimageAt(e, entries, r.i), PreimageAt(e, hashed, r.j))
  {
    RunsRefineAtomicAppend(e, actions);
    HeadBindsLog(e, CommittedIn(e, actions), entries);
  }

  predicate Readable(entry: LogEntry) {
    BarFree(entry.actor) && BarFree(entry.action) && entry.payload != Some(JNull)
    && (entry.createdAt.IsoText? ==> BarFree(entry.createdAt.text) && entry.createdAt.text != "")
  }

  lemma ReadableIsUnambiguous(e: Env, entries: seq<LogEntry>, i: nat)
    requires WellBehaved(e) && Accepted(e, entries) && i < |entries| && Readable(entries[i])
    ensures Unambiguous(e, DataOf(entries[i], ResolvedPrevious(entries, i)))
  {
    ResolvedPreviousFormat(e, entries, i);
    if entries[i].createdAt.DateValue? {
      assert IsoOk(e, entries[i].createdAt.ms);
    }
  }

  /** What a client asked to have recorded. */
  function ContentOfRequest(e: Env, a: Append): Content {
    Content(a.req.actor, a.req.action, a.req.payload, e.iso(a.createdAt))
  }

  lemma HashedContent(e: Env, appends: seq<Append>, i: nat)
    requires i < |appends|
    ensures var hashed := HashedEntries(e, appends);
            && hashed[i].actor == appends[i].req.actor && hashed[i].action == appends[i].req.action
            && hashed[i].payload == appends[i].req.payload && hashed[i].createdAt == DateValue(appends[i].createdAt)
            && ContentOf(e, DataOf(hashed[i], ResolvedPrevious(hashed, i))) == ContentOfRequest(e, appends[i])
  {
    ReplayedRow(e, appends, i);
    StoredRow(e, appends, i);
  }

  /**
   * Where actors and actions are free of bars, such a list says exactly what the committed requests
   * said, in number, order and every field; or there is a collision.
   */
  lemma HeadBindsContent(e: Env, actions: seq<Action>, entries: seq<LogEntry>)
    requires WellBehaved(e) && FaithfulStringify(e) && Exec(e, actions).Some?
    requires Accepted(e, entries) && TipHash(entries) == DbAfter(e, actions).head.latestHash
    requires forall entry :: entry in entries ==> Readable(entry)
    requires forall entry :: entry in HashedEntries(e, CommittedIn(e, actions)) ==> Readable(entry)
    ensures var appends := CommittedIn(e, actions);
            var r := Compare(e, entries, HashedEntries(e, appends));
            if r.Agree? then
              && |entries| == |appends|
              && forall i :: 0 <= i < |entries| ==>
                   ContentOf(e, DataOf(entries[i], ResolvedPrevious(entries, i))) == ContentOfRequest(e, appends[i])
            else IsCollision(e, PreimageAt(e, entries, r.i), PreimageAt(e, HashedEntries(e, appends), r.j))
  {
    HeadBindsRuns(e, actions, entries);
    var appends := CommittedIn(e, actions);
    hide Exec;
    hide NewRow;
    hide Preimage;
    var hashed := HashedEntries(e, appends);
    HashedEntriesAccepted(e, appends);
    if Compare(e, entries, hashed).Agree? {
      forall i | 0 <= i < |entries|
        ensures ContentOf(e, DataOf(entries[i], ResolvedPrevious(entries, i))) == ContentOfRequest(e, appends[i])
      {
        ReadableIsUnambiguous(e, entries, i);
        ReadableIsUnambiguous(e, hashed, i);
        assert PreimageAt(e, entries, i) == PreimageAt(e, hashed, i);
        PreimageDeterminesContent(e, DataOf(entries[i], ResolvedPrevious(entries, i)),
                                  DataOf(hashed[i], ResolvedPrevious(hashed, i)));
        HashedContent(e, appends, i);
      }
    }
  }

  lemma ContentFields(e: Env, entry: LogEntry, previousHash: string, a: Append)
    requires Readable(entry) && ContentOf(e, DataOf(entry, previousHash)) == ContentOfRequest(e, a)
    ensures entry.actor == a.req.actor && entry.action == a.req.action && entry.payload == a.req.payload
    ensures entry.createdAt.DateValue? ==> e.iso(entry.createdAt.ms) == e.iso(a.createdAt)
    ensures entry.createdAt.IsoText? ==> entry.createdAt.text == e.iso(a.createdAt)
  {
  }

  lemma HashedAreReadable(e: Env, appends: seq<Append>)
    requires forall a :: a in appends ==> BarFree(a.req.actor) && BarFree(a.req.action) && a.req.payload != Some(JNull)
    ensures forall entry :: entry in HashedEntries(e, appends) ==> Readable(entry)
  {
    var hashed := HashedEntries(e, appends);
    hide HashedEntries;
    forall i | 0 <= i < |hashed|
      ensures Readable(hashed[i])
    {
      HashedContent(e, appends, i);
      assert appends[i] in appends;
    }
  }

  /**
   * With a hash that has no collisions, and requests without bars in actor and action: the head hash
   * determines what the whole log says.
   */
  lemma HeadDeterminesContent(e: Env, actions: seq<Action>, entries: seq<LogEntry>)
    requires WellBehaved(e) && FaithfulStringify(e) && Exec(e, actions).Some?
    requires forall x, y :: e.sha256(x) == e.sha256(y) ==> x == y
    requires Accepted(e, entries) && TipHash(entries) == DbAfter(e, actions).head.latestHash
    requires forall entry :: entry in entries ==>
               && BarFree(entry.actor) && BarFree(entry.action) && entry.payload != Some(JNull)
               && (entry.createdAt.IsoText? ==> BarFree(entry.createdAt.text) && entry.createdAt.text != "")
    requires forall a :: a in CommittedIn(e, actions) ==>
               BarFree(a.req.actor) && BarFree(a.req.action) && a.req.payload != Some(JNull)
    ensures var appends := CommittedIn(e, actions);
            && |entries| == |appends|
            && forall i :: 0 <= i < |entries| ==>
                 && entries[i].actor == appends[i].req.actor && entries[i].action == appends[i].req.action
                 && entries[i].payload == appends[i].req.payload
                 && (entries[i].createdAt.DateValue? ==> e.iso(entries[i].createdAt.ms) == e.iso(appends[i].createdAt))
                 && (entries[i].createdAt.IsoText? ==> entries[i].createdAt.text == e.iso(appends[i].createdAt))
  {
    assert forall entry :: entry in entries ==> Readable(entry);
    HashedAreReadable(e, CommittedIn(e, actions));
    HeadBindsContent(e, actions, entries);
    var appends := CommittedIn(e, actions);
    var r := Compare(e, entries, HashedEntries(e, appends));
    assert r.Agree?;
    hide *;
    forall i | 0 <= i < |entries|
      ensures entries[i].actor == appends[i].req.actor && entries[i].action == appends[i].req.action
      ensures entries[i].payload == appends[i].req.payload
      ensures entries[i].createdAt.DateValue? ==> e.iso(entries[i].createdAt.ms) == e.iso(appends[i].createdAt)
      ensures entries[i].createdAt.IsoText? ==> entries[i].createdAt.text == e.iso(appends[i].createdAt)
    {
      ContentFields(e, entries[i], ResolvedPrevious(entries, i), appends[i]);
    }
  }

  // ----- Reads -----

  /**
   * Hit or miss, an answer is the committed row of the id that was asked for: the same in every field, with
   * its time as a Date or as ISO text, and with the status that the stored fields give.
   */
  lemma AnswersAreRows(e: Env, actions: seq<Action>, r: nat) returns (row: Row)
    requires WellBehaved(e) && Exec(e, actions).Some?
    requires r in Exec(e, actions).value.io.readers && Exec(e, actions).value.io.readers[r].Answered?
    ensures row in DbAfter(e, actions).rows
    ensures var answer := Exec(e, actions).value.io.readers[r];
            && answer.entry.id == row.id == answer.id
            && answer.entry.(createdAt := row.createdAt) == row
            && (answer.entry.createdAt == row.createdAt || answer.entry.createdAt == IsoText(e.iso(row.createdAt.ms)))
            && (answer.verificationStatus <==>
                row.currentHash == e.sha256(TextOf(e, row, row.previousHash.GetOr("GENESIS"))))
  {
    hide Next;
    RunInv(e, actions);
    var s := Exec(e, actions).value;
    hide Exec;
    hide CoreInv;
    hide VerificationStatus;
    var answer := s.io.readers[r];
    assert ReaderOk(e, s.core.db.rows, answer);
    hide Inv;
    row :| row in s.core.db.rows && row.id == answer.id && IsRowOrJson(e, row, answer.entry)
           && answer.verificationStatus == VerificationStatus(e, row);
    StatusInFull(e, row);
  }

  /** Redis holds nothing but committed rows: entries under their own keys, and a summary under latest_log. */
  lemma CacheHoldsRows(e: Env, actions: seq<Action>, key: string) returns (row: Row)
    requires WellBehaved(e) && Exec(e, actions).Some? && key in Exec(e, actions).value.io.cache
    ensures row in DbAfter(e, actions).rows
    ensures var value := Exec(e, actions).value.io.cache[key];
            || (key == "latest_log" && value == Summary(row.id, row.currentHash, e.iso(row.createdAt.ms)))
            || (key == "log:" + row.id && value == Full(row.(createdAt := IsoText(e.iso(row.createdAt.ms)))))
  {
    hide Next;
    RunInv(e, actions);
    var s := Exec(e, actions).value;
    hide Exec;
    hide CoreInv;
    var rows, value := s.core.db.rows, s.io.cache[key];
    assert CacheEntryOk(e, rows, key, value);
    hide Inv;
    if value.Full? {
      row :| row in rows && key == LogKey(row.id) && value.entry == JsonImage(e, row);
    } else {
      row :| row in rows && value == SummaryOf(e, row);
    }
  }

  /** Two answers for one id carry the same entry, once sent as JSON, and the same status: hit or miss, now or later. */
  lemma ReadsAgree(e: Env, actions: seq<Action>, r: nat, q: nat)
    requires WellBehaved(e) && Exec(e, actions).Some?
    requires r in Exec(e, actions).value.io.readers && q in Exec(e, actions).value.io.readers
    ensures var a, b := Exec(e, actions).value.io.readers[r], Exec(e, actions).value.io.readers[q];
            a.Answered? && b.Answered? && a.id == b.id ==>
              && a.entry.(createdAt := b.entry.createdAt) == b.entry
              && JsonImage(e, a.entry) == JsonImage(e, b.entry)
              && a.verificationStatus == b.verificationStatus
  {
    hide Next;
    RunInv(e, actions);
    RowsAreDistinct(e, CommittedIn(e, actions));
    var s := Exec(e, actions).value;
    hide Exec;
    hide NewRow;
    hide VerificationStatus;
    var rows := s.core.db.rows;
    var a, b := s.io.readers[r], s.io.readers[q];
    assert ReaderOk(e, rows, a) && ReaderOk(e, rows, b);
    hide Inv;
    if a.Answered? && b.Answered? && a.id == b.id {
      assert AnswerOk(e, rows, a.id, a.entry, a.verificationStatus);
      assert AnswerOk(e, rows, b.id, b.entry, b.verificationStatus);
      SameIdSameRow(rows);
    }
  }

  lemma SameIdSameRow(rows: seq<Row>)
    requires DistinctIds(rows)
    ensures forall a, b :: a in rows && b in rows && a.id == b.id ==> a == b
  {
    forall a, b | a in rows && b in rows && a.id == b.id
      ensures a == b
    {
      var i :| 0 <= i < |rows| && rows[i] == a;
      var j :| 0 <= j < |rows| && rows[j] == b;
      assert i == j;
    }
  }

  /** The reader that a step of the read path moves. */
  function ReaderOf(a: Action): nat
    requires a.CacheGet? || a.FindRow? || a.FillCache?
  {
    a.r
  }

  lemma ExecReaderStep(e: Env, actions: seq<Action>, a: Action) returns (s': State)
    requires Exec(e, actions).Some? && (a.CacheGet? || a.FindRow? || a.FillCache?)
    requires IoEnabled(Exec(e, actions).value.io, a)
    ensures Exec(e, actions + [a]) == Some(s')
    ensures var s := Exec(e, actions).value;
            && s'.core == s.core
            && ReaderOf(a) in s.io.readers && ReaderOf(a) in s'.io.readers
            && var reader, reader' := s.io.readers[ReaderOf(a)], s'.io.readers[ReaderOf(a)];
               && reader'.id == reader.id
               && (a.CacheGet? ==> reader' == Lookup(e, s.io, a.r, a.fails))
               && (a.FindRow? ==>
                     reader' == (var found := FindById(s.core.db.rows, reader.id);
                                 if found.Some? then Fetched(reader.id, found.value) else NotFound(reader.id)))
               && (a.FillCache? ==> reader.Fetched?
                                    && reader' == Answered(reader.id, reader.row, VerificationStatus(e, reader.row)))
  {
    ExecOneMore(e, actions, a);
    s' := Next(e, Exec(e, actions).value, a);
    hide Exec;
    hide VerificationStatus;
  }

  predicate IsHit(s: State, id: string, fails: bool) {
    !fails && LogKey(id) in s.io.cache && s.io.cache[LogKey(id)].Full?
  }

  /** The steps that complete a call of getLogById, when no one else gets in between. */
  function ReadSteps(s: State, r: nat, id: string, fails: bool, outcome: Outcome): seq<Action> {
    if IsHit(s, id, fails) then [CacheGet(r, fails)]
    else if FindById(s.core.db.rows, id).Some? then [CacheGet(r, fails), FindRow(r), FillCache(r, outcome)]
    else [CacheGet(r, fails), FindRow(r)]
  }

  /** What a finished call may hold, given the rows. */
  predicate FinishedOk(e: Env, rows: seq<Row>, id: string, reader: Reader) {
    if HasId(rows, id) then
      reader.Answered? && reader.id == id && AnswerOk(e, rows, id, reader.entry, reader.verificationStatus)
    else reader == NotFound(id)
  }

  lemma HitFinishes(e: Env, s: State, r: nat, id: string, fails: bool)
    requires WellBehaved(e) && CacheInv(e, s.core.db.rows, s.io.cache)
    requires r in s.io.readers && s.io.readers[r] == Asked(id) && IsHit(s, id, fails)
    ensures FinishedOk(e, s.core.db.rows, id, Lookup(e, s.io, r, fails))
  {
    HitIsSound(e, s.core.db.rows, s.io.cache, id);
    assert CacheEntryOk(e, s.core.db.rows, LogKey(id), s.io.cache[LogKey(id)]);
    hide VerificationStatus;
  }

  lemma MissFinishes(e: Env, actions: seq<Action>, r: nat, id: string, fails: bool, outcome: Outcome)
    requires Exec(e, actions).Some? && !IsHit(Exec(e, actions).value, id, fails)
    requires r in Exec(e, actions).value.io.readers && Exec(e, actions).value.io.readers[r] == Asked(id)
    ensures var s := Exec(e, actions).value;
            var after := Exec(e, actions + ReadSteps(s, r, id, fails, outcome));
            after.Some? && r in after.value.io.readers && FinishedOk(e, s.core.db.rows, id, after.value.io.readers[r])
  {
    hide VerificationStatus;
    var s := Exec(e, actions).value;
    hide Exec;
    hide Next;
    var found := FindById(s.core.db.rows, id);
    var s2 := MissAsksDatabase(e, actions, r, id, fails);
    hide Lookup;
    hide AnswerOk;
    if found.Some? {
      var two := actions + [CacheGet(r, fails), FindRow(r)];
      var s3 := ExecReaderStep(e, two, FillCache(r, outcome));
      assert two + [FillCache(r, outcome)] == actions + [CacheGet(r, fails), FindRow(r), FillCache(r, outcome)];
      RowIsHere(e, s.core.db.rows, found.value);
    }
  }

  lemma MissAsksDatabase(e: Env, actions: seq<Action>, r: nat, id: string, fails: bool) returns (s2: State)
    requires Exec(e, actions).Some? && !IsHit(Exec(e, actions).value, id, fails)
    requires r in Exec(e, actions).value.io.readers && Exec(e, actions).value.io.readers[r] == Asked(id)
    ensures Exec(e, actions + [CacheGet(r, fails), FindRow(r)]) == Some(s2)
    ensures var s := Exec(e, actions).value;
            && s2.core == s.core && r in s2.io.readers
            && s2.io.readers[r] == (var found := FindById(s.core.db.rows, id);
                                    if found.Some? then Fetched(id, found.value) else NotFound(id))
  {
    hide VerificationStatus;
    hide Exec;
    var s1 := ExecReaderStep(e, actions, CacheGet(r, fails));
    var one := actions + [CacheGet(r, fails)];
    s2 := ExecReaderStep(e, one, FindRow(r));
    assert one + [FindRow(r)] == actions + [CacheGet(r, fails), FindRow(r)];
  }

  /**
   * A call of getLogById made now answers with the committed row of that id if there is one, and
   * says "not found" exactly if there is none, whether or not Redis works and whatever was asked before.
   */
  lemma ReadFindsWhatIsCommitted(e: Env, actions: seq<Action>, r: nat, id: string, fails: bool, outcome: Outcome)
    requires WellBehaved(e) && Exec(e, actions).Some?
    requires r in Exec(e, actions).value.io.readers && Exec(e, actions).value.io.readers[r] == Asked(id)
    ensures var s := Exec(e, actions).value;
            var after := Exec(e, actions + ReadSteps(s, r, id, fails, outcome));
            after.Some? && r in after.value.io.readers && FinishedOk(e, s.core.db.rows, id, after.value.io.readers[r])
  {
    hide Next;
    RunInv(e, actions);
    var s := Exec(e, actions).value;
    hide Exec;
    hide CoreInv;
    hide FinishedOk;
    if IsHit(s, id, fails) {
      var s1 := ExecReaderStep(e, actions, CacheGet(r, fails));
      HitFinishes(e, s, r, id, fails);
    } else {
      MissFinishes(e, actions, r, id, fails, outcome);
    }
  }

  /** Anyone may ask at any time, and the read that follows finds what is committed then. */
  lemma FreshRead(e: Env, actions: seq<Action>, r: nat, id: string, fails: bool, outcome: Outcome)
    requires WellBehaved(e) && Exec(e, actions).Some? && r !in Exec(e, actions).value.io.readers
    ensures var s := Exec(e, actions).value;
            var after := Exec(e, actions + [BeginRead(r, id)] + ReadSteps(s, r, id, fails, outcome));
            && after.Some? && r in after.value.io.readers
            && var reader, rows := after.value.io.readers[r], s.core.db.rows;
               if exists row :: row in rows && row.id == id then
                 && reader.Answered? && reader.id == reader.entry.id == id
                 && exists row :: row in rows && reader.entry.(createdAt := row.createdAt) == row
               else reader == NotFound(id)
  {
    ExecOneMore(e, actions, BeginRead(r, id));
    ReadFindsWhatIsCommitted(e, actions + [BeginRead(r, id)], r, id, fails, outcome);
    hide Exec;
    hide VerificationStatus;
  }

  /** Right after a successful fill, a lookup for the same id is a hit, and it reports what the miss reported. */
  lemma FilledCacheServesNextRead(e: Env, actions: seq<Action>, r: nat, q: nat)
    requires WellBehaved(e) && Exec(e, actions).Some?
    requires r in Exec(e, actions).value.io.readers && Exec(e, actions).value.io.readers[r].Fetched?
    requires q in Exec(e, actions).value.io.readers
    requires Exec(e, actions).value.io.readers[q] == Asked(Exec(e, actions).value.io.readers[r].id)
    ensures var id := Exec(e, actions).value.io.readers[r].id;
            var row := Exec(e, actions).value.io.readers[r].row;
            var after := Exec(e, actions + [FillCache(r, Applied)]);
            && after.Some? && q in after.value.io.readers && r in after.value.io.readers
            && after.value.io.readers[r] == Answered(id, row, VerificationStatus(e, row))
            && Lookup(e, after.value.io, q, false) == Answered(id, JsonImage(e, row), VerificationStatus(e, row))
  {
    hide VerificationStatus;
    ExecOneMore(e, actions, FillCache(r, Applied));
    JsonImageKeepsStatus(e, Exec(e, actions).value.io.readers[r].row);
    hide Exec;
  }

  // ----- After the commit -----

  /** After a successful enqueue the entry's job is in the queue, under its one id. */
  lemma EnqueuedJobWaits(e: Env, actions: seq<Action>, c: nat)
    requires WellBehaved(e) && Exec(e, actions).Some?
    requires c in Exec(e, actions).value.core.writers && Exec(e, actions).value.core.writers[c].phase.CacheTried?
    ensures var id := Exec(e, actions).value.core.writers[c].phase.row.id;
            var after := Exec(e, actions + [Enqueue(c, Applied)]);
            after.Some? && JobId(id) in after.value.io.jobs && after.value.io.jobs[JobId(id)] == id
  {
    ExecOneMore(e, actions, Enqueue(c, Applied));
    RunInv(e, actions);
    var s := Exec(e, actions).value;
    var id := s.core.writers[c].phase.row.id;
    hide Exec;
    hide CoreInv;
    if JobId(id) in s.io.jobs {
      KeysTellApart(id, s.io.jobs[JobId(id)]);
    }
  }

  /**
   * The summary in latest_log, each queued job and each entry given back to a client belong to committed
   * rows, and no entry has two jobs.
   */
  lemma PostCommitSafety(e: Env, actions: seq<Action>)
    requires WellBehaved(e) && Exec(e, actions).Some?
    ensures var s := Exec(e, actions).value;
            var rows := s.core.db.rows;
            && (LATEST_LOG_KEY in s.io.cache ==>
                  exists row :: row in rows &&
                    s.io.cache[LATEST_LOG_KEY] == Summary(row.id, row.currentHash, e.iso(row.createdAt.ms)))
            && (forall jobId :: jobId in s.io.jobs ==>
                  jobId == "verify-" + s.io.jobs[jobId] && exists row :: row in rows && row.id == s.io.jobs[jobId])
            && (forall j, k :: j in s.io.jobs && k in s.io.jobs && s.io.jobs[j] == s.io.jobs[k] ==> j == k)
            && (forall c :: c in s.core.writers && s.core.writers[c].phase.Returned? ==>
                  s.core.writers[c].phase.row in rows)
  {
    hide Next;
    RunInv(e, actions);
    var s := Exec(e, actions).value;
    hide Exec;
    hide CoreInv;
    assert RowInv(s.core) by { CoreInvHasRows(e, s.core, Grants(actions)); }
    if LATEST_LOG_KEY in s.io.cache {
      assert CacheEntryOk(e, s.core.db.rows, LATEST_LOG_KEY, s.io.cache[LATEST_LOG_KEY]);
      forall row: Row
        ensures LogKey(row.id) != LATEST_LOG_KEY
      {
        KeysTellApart(row.id, row.id);
      }
    }
  }

  lemma CoreInvHasRows(e: Env, k: Core, grants: seq<nat>)
    requires CoreInv(e, k, grants)
    ensures RowInv(k)
  {
  }
}
