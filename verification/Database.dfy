/** The two tables of the log, and the one-step append that a committed transaction must amount to. */
module Database {

  import opened Wrappers
  import opened LogEntries
  import opened HashService
  import opened ChainVerifier
  import opened HeadBinding
  import opened PreimageParser
  import opened Tampering

  /** The body of a create request. */
  datatype Request = Request(actor: string, action: string, payload: Option<Json>)

  /** The chain_head row with id 1. */
  datatype Head = Head(latestHash: string, latestLogId: Option<string>)

  /** Committed rows, in commit order, and the committed head. */
  datatype Db = Db(rows: seq<Row>, head: Head)

  /** A request with the values it meets on the way in: the sampled time and the generated id. */
  datatype Append = Append(req: Request, createdAt: int, id: string)

  const EMPTY_DB := Db([], Head(GENESIS_PREVIOUS_HASH, None))

  /** previousHash and currentHash, as computed while the head is locked. */
  function ComputeHashes(e: Env, latestHash: string, req: Request, createdAt: int): (string, string) {
    if latestHash == GENESIS_PREVIOUS_HASH then
      (GENESIS_PREVIOUS_HASH, CreateGenesisHash(e, req.actor, req.action, req.payload, DateValue(createdAt)))
    else
      (latestHash, CalculateCurrentHash(e, req.actor, req.action, req.payload, latestHash, DateValue(createdAt)))
  }

  /** The row as stored and returned: hashed with the payload sent, holding the payload that JSONB keeps. */
  function NewRow(e: Env, latestHash: string, a: Append): Row {
    var (previousHash, currentHash) := ComputeHashes(e, latestHash, a.req, a.createdAt);
    LogEntry(a.id, a.req.actor, a.req.action, StoredPayload(e, a.req.payload),
             Some(previousHash), currentHash, DateValue(a.createdAt))
  }

  /** The row field by field. A payload comes back as JSONB keeps it; no payload stays no payload. */
  lemma NewRowInFull(e: Env, latestHash: string, a: Append)
    ensures var row := NewRow(e, latestHash, a);
            && row.id == a.id && row.actor == a.req.actor && row.action == a.req.action
            && row.payload == (if a.req.payload.None? then None else Some(e.jsonb(a.req.payload.value)))
            && row.createdAt == DateValue(a.createdAt)
            && row.previousHash == Some(latestHash)
            && row.currentHash == e.sha256(TextOf(e, row.(payload := a.req.payload), latestHash))
  {
    var row := NewRow(e, latestHash, a);
    HashOfText(e, row.(payload := a.req.payload), latestHash);
    hide TextOf;
    hide Preimage;
  }

  /** The primary key and the unique index on currentHash let the row in. */
  predicate Admits(rows: seq<Row>, row: Row) {
    forall i :: 0 <= i < |rows| ==> rows[i].id != row.id && rows[i].currentHash != row.currentHash
  }

  function AtomicAppend(e: Env, db: Db, a: Append): Db {
    var row := NewRow(e, db.head.latestHash, a);
    Db(db.rows + [row], Head(row.currentHash, Some(row.id)))
  }

  /** Appends done one after the other, starting from the empty log. */
  function Replay(e: Env, appends: seq<Append>): Db {
    if appends == [] then EMPTY_DB
    else AtomicAppend(e, Replay(e, appends[..|appends| - 1]), appends[|appends| - 1])
  }

  predicate AllAdmitted(e: Env, appends: seq<Append>) {
    appends != [] ==>
      var n := |appends| - 1;
      var before := Replay(e, appends[..n]);
      AllAdmitted(e, appends[..n]) && Admits(before.rows, NewRow(e, before.head.latestHash, appends[n]))
  }

  /** The entries as they were hashed: the rows, with the payloads the clients sent. */
  function HashedEntries(e: Env, appends: seq<Append>): (entries: seq<LogEntry>)
    ensures |entries| == |appends|
  {
    if appends == [] then []
    else
      var n := |appends| - 1;
      var row := NewRow(e, Replay(e, appends[..n]).head.latestHash, appends[n]);
      HashedEntries(e, appends[..n]) + [row.(payload := appends[n].req.payload)]
  }

  // ----- What a written log looks like -----

  /** The head of a replayed log names its last row. */
  lemma {:induction false} ReplayShape(e: Env, appends: seq<Append>)
    ensures var db := Replay(e, appends);
            && |db.rows| == |appends|
            && db.head.latestHash == TipHash(db.rows)
            && db.head.latestLogId == (if db.rows == [] then None else Some(db.rows[|db.rows| - 1].id))
  {
    hide NewRow;
    if appends != [] {
      ReplayShape(e, appends[..|appends| - 1]);
    }
  }

  /** Row `i` of a replayed log comes from append `i`. */
  lemma {:induction false} ReplayedRow(e: Env, appends: seq<Append>, i: nat)
    requires i < |appends|
    ensures var rows := Replay(e, appends).rows;
            && |rows| == |appends|
            && rows[i] == NewRow(e, Replay(e, appends[..i]).head.latestHash, appends[i])
            && HashedEntries(e, appends)[i] == rows[i].(payload := appends[i].req.payload)
  {
    hide NewRow;
    ReplayShape(e, appends);
    var n := |appends| - 1;
    ReplayShape(e, appends[..n]);
    if i < n {
      ReplayedRow(e, appends[..n], i);
      assert appends[..n][..i] == appends[..i];
    }
  }

  /** The hashes of a written log were computed over a chain that verification accepts. */
  lemma {:induction false} HashedEntriesAccepted(e: Env, appends: seq<Append>)
    ensures Accepted(e, HashedEntries(e, appends))
    ensures TipHash(HashedEntries(e, appends)) == Replay(e, appends).head.latestHash
  {
    if appends != [] {
      var n := |appends| - 1;
      HashedEntriesAccepted(e, appends[..n]);
      var before := Replay(e, appends[..n]);
      var row := NewRow(e, before.head.latestHash, appends[n]);
      AcceptedAppend(e, HashedEntries(e, appends[..n]), row.(payload := appends[n].req.payload));
    }
  }

  /** Whatever storage does to payloads, the rows link to each other. */
  lemma RowsAreLinked(e: Env, appends: seq<Append>)
    ensures Linked(Replay(e, appends).rows)
  {
    hide NewRow;
    var rows, hashed := Replay(e, appends).rows, HashedEntries(e, appends);
    ReplayShape(e, appends);
    HashedEntriesAccepted(e, appends);
    forall i | 0 <= i < |rows|
      ensures LinkOk(rows, i)
    {
      ReplayedRow(e, appends, i);
      if i > 0 {
        ReplayedRow(e, appends, i - 1);
      }
      assert EntryOk(e, hashed, i);
      assert rows[i].previousHash == hashed[i].previousHash;
      assert i > 0 ==> rows[i - 1].currentHash == hashed[i - 1].currentHash;
    }
  }

  lemma RowHashesAreDigests(e: Env, appends: seq<Append>)
    requires WellBehaved(e)
    ensures forall row :: row in Replay(e, appends).rows ==> row.currentHash != GENESIS_PREVIOUS_HASH
  {
    ReplayShape(e, appends);
    HashedEntriesAccepted(e, appends);
    var rows, hashed := Replay(e, appends).rows, HashedEntries(e, appends);
    forall i | 0 <= i < |rows|
      ensures rows[i].currentHash != GENESIS_PREVIOUS_HASH
    {
      ReplayedRow(e, appends, i);
      assert EntryOk(e, hashed, i);
      DigestFormat(e, DataOf(hashed[i], ResolvedPrevious(hashed, i)));
    }
  }

  predicate DistinctIds(rows: seq<LogEntry>) {
    forall i, j :: 0 <= i < j < |rows| ==> rows[i].id != rows[j].id
  }

  lemma DistinctExtension(rows: seq<Row>, row: Row)
    ensures DistinctIds(rows + [row]) && DistinctHashes(rows + [row]) <==>
            DistinctIds(rows) && DistinctHashes(rows) && Admits(rows, row)
  {
    var longer := rows + [row];
    assert forall i :: 0 <= i < |rows| ==> longer[i] == rows[i];
    assert longer[|rows|] == row;
  }

  /** The constraints let every append in exactly when ids and hashes are unique in the result. */
  lemma {:induction false} RowsAreDistinct(e: Env, appends: seq<Append>)
    ensures AllAdmitted(e, appends) <==>
            DistinctIds(Replay(e, appends).rows) && DistinctHashes(Replay(e, appends).rows)
  {
    hide NewRow;
    if appends != [] {
      var n := |appends| - 1;
      RowsAreDistinct(e, appends[..n]);
      var before := Replay(e, appends[..n]);
      DistinctExtension(before.rows, NewRow(e, before.head.latestHash, appends[n]));
    }
  }

  lemma RowLink(e: Env, appends: seq<Append>, i: nat)
    requires WellBehaved(e) && i < |appends|
    ensures var rows := Replay(e, appends).rows;
            && |rows| == |appends|
            && rows[i].previousHash == Some(ResolvedPrevious(rows, i))
            && (ResolvedPrevious(rows, i) == GENESIS_PREVIOUS_HASH <==> i == 0)
  {
    var rows := Replay(e, appends).rows;
    ReplayedRow(e, appends, i);
    ReplayShape(e, appends[..i]);
    RowsAreLinked(e, appends);
    RowHashesAreDigests(e, appends);
    assert LinkOk(rows, i);
    assert i > 0 ==> rows[i - 1] in rows;
  }

  /** No two rows chain to the same predecessor, and only the first chains to the sentinel. */
  lemma NoForks(e: Env, appends: seq<Append>)
    requires WellBehaved(e) && AllAdmitted(e, appends)
    ensures var rows := Replay(e, appends).rows;
            && (forall i, j :: 0 <= i < j < |rows| ==> rows[i].previousHash != rows[j].previousHash)
            && (forall i :: 0 <= i < |rows| ==> (rows[i].previousHash == Some(GENESIS_PREVIOUS_HASH) <==> i == 0))
  {
    hide NewRow;
    var rows := Replay(e, appends).rows;
    ReplayShape(e, appends);
    RowsAreDistinct(e, appends);
    forall i | 0 <= i < |rows|
      ensures rows[i].previousHash == Some(GENESIS_PREVIOUS_HASH) <==> i == 0
    {
      RowLink(e, appends, i);
    }
    forall i, j | 0 <= i < j < |rows|
      ensures rows[i].previousHash != rows[j].previousHash
    {
      RowLink(e, appends, i);
      RowLink(e, appends, j);
    }
  }

  // ----- When a written log verifies -----

  /** JSON.stringify prints the stored payload as it printed the one that was hashed. */
  predicate Survives(e: Env, payload: Option<Json>) {
    PayloadText(e, StoredPayload(e, payload)) == PayloadText(e, payload)
  }

  /** Each payload survives storage, or its stored form happens to give a second preimage of the stored hash. */
  ghost predicate Harmless(e: Env, appends: seq<Append>) {
    var rows, hashed := Replay(e, appends).rows, HashedEntries(e, appends);
    && |rows| == |appends|
    && forall i :: 0 <= i < |rows| ==>
         || Survives(e, appends[i].req.payload)
         || IsCollision(e, PreimageAt(e, rows, i), PreimageAt(e, hashed, i))
  }

  /** Two records that differ at most in their payload have one preimage exactly when the payloads print alike. */
  lemma PayloadDecidesPreimage(e: Env, data: HashData, payload: Option<Json>)
    ensures Preimage(e, data) == Preimage(e, data.(payload := payload)) <==>
            PayloadText(e, data.payload) == PayloadText(e, payload)
  {
    var other := data.(payload := payload);
    assert TimestampText(e, other) == TimestampText(e, data);
    var front := data.previousHash + "|" + data.actor + "|" + data.action + "|";
    var back := "|" + TimestampText(e, data);
    PreimageSplit(e, data);
    PreimageSplit(e, other);
    if Preimage(e, data) == Preimage(e, other) {
      SameMiddle(front, PayloadText(e, data.payload), PayloadText(e, payload), back);
    }
  }

  lemma PreimageSplit(e: Env, data: HashData)
    ensures Preimage(e, data) == (data.previousHash + "|" + data.actor + "|" + data.action + "|")
                                 + PayloadText(e, data.payload) + ("|" + TimestampText(e, data))
  {
    PreimageShape(e, data);
    var payload, last := PayloadText(e, data.payload), TimestampText(e, data);
    assert data.previousHash + "|" + (data.actor + "|" + (data.action + "|" + (payload + "|" + last))) ==
           (data.previousHash + "|" + data.actor + "|" + data.action + "|") + payload + ("|" + last);
  }

  /** A written log is accepted exactly when what storage did to its payloads is harmless. */
  lemma WrittenLogAccepted(e: Env, appends: seq<Append>)
    ensures Accepted(e, Replay(e, appends).rows) <==> Harmless(e, appends)
  {
    hide NewRow;
    hide Preimage;
    var rows, hashed := Replay(e, appends).rows, HashedEntries(e, appends);
    ReplayShape(e, appends);
    RowsAreLinked(e, appends);
    HashedEntriesAccepted(e, appends);
    forall i | 0 <= i < |rows|
      ensures EntryOk(e, rows, i) <==>
        || Survives(e, appends[i].req.payload)
        || IsCollision(e, PreimageAt(e, rows, i), PreimageAt(e, hashed, i))
    {
      ReplayedRow(e, appends, i);
      if i > 0 {
        ReplayedRow(e, appends, i - 1);
      }
      StoredRow(e, appends, i);
      assert EntryOk(e, hashed, i) && LinkOk(rows, i);
      var previous := ResolvedPrevious(rows, i);
      assert previous == ResolvedPrevious(hashed, i);
      var data := DataOf(rows[i], previous);
      assert DataOf(hashed[i], previous) == data.(payload := appends[i].req.payload);
      PayloadDecidesPreimage(e, data, appends[i].req.payload);
    }
  }

  /** A row that was just written passes the check of getLogById exactly if its payload survives or collides. */
  lemma StatusOfNewRow(e: Env, latestHash: string, a: Append)
    ensures var row := NewRow(e, latestHash, a);
            var data := DataOf(row, latestHash);
            VerificationStatus(e, row) <==>
              Survives(e, a.req.payload) ||
              IsCollision(e, Preimage(e, data), Preimage(e, data.(payload := a.req.payload)))
  {
    var data := DataOf(NewRow(e, latestHash, a), latestHash);
    PayloadDecidesPreimage(e, data, a.req.payload);
    assert data.(payload := a.req.payload) ==
           HashData(latestHash, a.req.actor, a.req.action, a.req.payload, Some(DateValue(a.createdAt)), None);
    hide Preimage;
  }

  /** One append keeps a log acceptable exactly when the new row passes the check of getLogById. */
  lemma AppendKeepsAcceptance(e: Env, db: Db, a: Append)
    requires TipHash(db.rows) == db.head.latestHash
    ensures Accepted(e, AtomicAppend(e, db, a).rows) <==>
            Accepted(e, db.rows) && VerificationStatus(e, NewRow(e, db.head.latestHash, a))
  {
    var row := NewRow(e, db.head.latestHash, a);
    assert row.previousHash == Some(TipHash(db.rows));
    var rows: seq<LogEntry> := db.rows;
    AcceptedAppend(e, rows, row);
    hide NewRow;
  }

  lemma StoredRow(e: Env, appends: seq<Append>, i: nat)
    requires i < |appends|
    ensures |Replay(e, appends).rows| == |appends|
    ensures var row := Replay(e, appends).rows[i];
            && row.id == appends[i].id && row.actor == appends[i].req.actor && row.action == appends[i].req.action
            && row.payload == (var sent := appends[i].req.payload;
                               if sent.None? then None else Some(e.jsonb(sent.value)))
            && row.createdAt == DateValue(appends[i].createdAt)
  {
    ReplayedRow(e, appends, i);
  }

  /** The log holds exactly what was hashed if and only if JSONB keeps each payload that was sent. */
  lemma RowsAreWhatWasHashed(e: Env, appends: seq<Append>)
    ensures Replay(e, appends).rows == HashedEntries(e, appends) <==>
            forall i :: 0 <= i < |appends| && appends[i].req.payload.Some? ==>
              e.jsonb(appends[i].req.payload.value) == appends[i].req.payload.value
  {
    var rows, hashed := Replay(e, appends).rows, HashedEntries(e, appends);
    ReplayShape(e, appends);
    hide NewRow;
    hide Replay;
    hide HashedEntries;
    forall i | 0 <= i < |appends|
      ensures rows[i] == hashed[i] <==>
              (appends[i].req.payload.Some? ==>
                 e.jsonb(appends[i].req.payload.value) == appends[i].req.payload.value)
    {
      ReplayedRow(e, appends, i);
      StoredRow(e, appends, i);
    }
  }

  /**
   * Any accepted list that ends in the committed head hash holds, preimage by preimage, what the
   * writers hashed; or the two give a collision. The empty list is the one with the sentinel as its tip.
   */
  lemma HeadBindsLog(e: Env, appends: seq<Append>, entries: seq<LogEntry>)
    requires WellBehaved(e) && Accepted(e, entries)
    requires TipHash(entries) == Replay(e, appends).head.latestHash
    ensures var hashed := HashedEntries(e, appends);
            var r := Compare(e, entries, hashed);
            if r.Agree? then SamePreimages(e, entries, hashed)
            else IsCollision(e, PreimageAt(e, entries, r.i), PreimageAt(e, hashed, r.j))
  {
    HashedEntriesAccepted(e, appends);
    TipBindsChain(e, entries, HashedEntries(e, appends));
  }
}
