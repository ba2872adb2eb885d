/** The data-access layer: the two tables, the create transaction, and the queries. */
module LogRepository {

  import opened Wrappers
  import opened LogEntries
  import opened HashService
  import opened PreimageParser
  import opened Database
  import opened Ordering
  import opened Pagination

  /** Where the connection may be lost in a transaction. A commit may have taken effect before it was lost. */
  datatype TxPoint = AtLock | AtInsert | AtHeadUpdate | AtCommit(applied: bool)

  datatype TxError = ConnectionLost(at: TxPoint) | UniqueViolation

  /** Export filters. An empty actor is falsy and filters nothing. */
  datatype Filters = Filters(actor: Option<string>, from: Option<int>, to: Option<int>)

  predicate Matches(filters: Filters, row: Row) {
    && (filters.actor.Some? && filters.actor.value != "" ==> row.actor == filters.actor.value)
    && (filters.from.Some? ==> filters.from.value <= row.createdAt.ms)
    && (filters.to.Some? ==> row.createdAt.ms <= filters.to.value)
  }

  function Selected(rows: seq<Row>, filters: Filters): seq<Row> {
    Keep(rows, (row: Row) => Matches(filters, row))
  }

  /** A row that fits the actor and lies between the bounds is kept as often as it was there, and no other is. */
  lemma SelectedRows(rows: seq<Row>, filters: Filters)
    ensures forall row: Row ::
              multiset(Selected(rows, filters))[row] ==
              if && (filters.actor == None || filters.actor == Some("") || filters.actor == Some(row.actor))
                 && (filters.from.Some? ==> row.createdAt.ms >= filters.from.value)
                 && (filters.to.Some? ==> row.createdAt.ms <= filters.to.value)
              then multiset(rows)[row] else 0
  {
    KeptRows(rows, (row: Row) => Matches(filters, row));
  }

  /** The rows from a time on and the rows up to the time before it are all rows, once each. */
  lemma TimesSplitTheLog(rows: seq<Row>, ms: int)
    ensures var later, earlier := Filters(None, Some(ms), None), Filters(None, None, Some(ms - 1));
            && multiset(Selected(rows, later)) + multiset(Selected(rows, earlier)) == multiset(rows)
            && (forall row :: row in Selected(rows, later) ==> ms <= row.createdAt.ms)
            && (forall row :: row in Selected(rows, earlier) ==> row.createdAt.ms < ms)
  {
    var later := Selected(rows, Filters(None, Some(ms), None));
    var earlier := Selected(rows, Filters(None, None, Some(ms - 1)));
    SelectedRows(rows, Filters(None, Some(ms), None));
    SelectedRows(rows, Filters(None, None, Some(ms - 1)));
    hide Selected;
    forall row | row in later
      ensures ms <= row.createdAt.ms
    {
      assert row in multiset(later);
    }
    forall row | row in earlier
      ensures row.createdAt.ms < ms
    {
      assert row in multiset(earlier);
    }
  }

  /** An absent or empty actor, without bounds, filters nothing. */
  lemma {:induction false} NoFilterKeepsAll(rows: seq<Row>, actor: Option<string>)
    requires actor == None || actor == Some("")
    ensures Selected(rows, Filters(actor, None, None)) == rows
  {
    if rows != [] {
      var n := |rows| - 1;
      NoFilterKeepsAll(rows[..n], actor);
      assert rows == rows[..n] + [rows[n]];
    }
  }

  /** The bounds act on what the actor filter has kept. */
  lemma {:induction false} ActorThenTimes(rows: seq<Row>, filters: Filters)
    ensures Selected(rows, filters) ==
            Selected(Selected(rows, Filters(filters.actor, None, None)), Filters(None, filters.from, filters.to))
  {
    if rows != [] {
      var n := |rows| - 1;
      var byActor, byTime := Filters(filters.actor, None, None), Filters(None, filters.from, filters.to);
      ActorThenTimes(rows[..n], filters);
      var last := [rows[n]];
      assert last[..0] == [];
      var kept := if Matches(byActor, rows[n]) then last else [];
      assert Selected(rows, byActor) == Selected(rows[..n], byActor) + kept;
      SelectedSplits(Selected(rows[..n], byActor), kept, byTime);
      assert Selected(kept, byTime) == if Matches(filters, rows[n]) then last else [];
    }
  }

  lemma {:induction false} SelectedSplits(a: seq<Row>, b: seq<Row>, filters: Filters)
    ensures Selected(a + b, filters) == Selected(a, filters) + Selected(b, filters)
  {
    if b == [] {
      assert a + b == a;
    } else {
      var n := |b| - 1;
      SelectedSplits(a, b[..n], filters);
      assert (a + b)[..|a| + n] == a + b[..n];
    }
  }

  class LogRepository {
    const env: Env
    var rows: seq<Row>
    var latestHash: string
    var latestLogId: Option<string>

    /** The committed tables. */
    function Tables(): Db
      reads this
    {
      Db(rows, Head(latestHash, latestLogId))
    }

    /** An empty log, with the chain_head row in place. */
    constructor (env: Env)
      ensures this.env == env && Tables() == EMPTY_DB
    {
      this.env := env;
      rows, latestHash, latestLogId := [], GENESIS_PREVIOUS_HASH, None;
    }

    /**
     * BEGIN, lock the head and read it, hash, insert, update the head, COMMIT. `id` is the generated key
     * and `fault` says where the connection is lost, if it is. Either the tables change as by one atomic
     * append, or they stay as they were. An error means the latter, except that a commit whose
     * acknowledgement was lost has taken effect.
     */
    method CreateWithTransaction(req: Request, createdAt: int, id: string, fault: Option<TxPoint>)
        returns (result: Result<Row, TxError>)
      modifies this
      ensures var a := Append(req, createdAt, id);
              var row := NewRow(env, old(latestHash), a);
              match result
              case Success(created) =>
                && fault == None && Admits(old(rows), row) && created == row
                && Tables() == AtomicAppend(env, old(Tables()), a)
              case Failure(error) =>
                && (if error == ConnectionLost(AtCommit(true)) then
                      Admits(old(rows), row) && Tables() == AtomicAppend(env, old(Tables()), a)
                    else Tables() == old(Tables()))
                && (error == UniqueViolation ==> !Admits(old(rows), row))
                && (error.ConnectionLost? ==> fault == Some(error.at))
      ensures result.Success? ==>
                var created := result.value;
                && created.id == id && created.actor == req.actor && created.action == req.action
                && created.payload == (if req.payload.None? then None else Some(env.jsonb(req.payload.value)))
                && created.createdAt == DateValue(createdAt)
                && created.previousHash == Some(old(latestHash))
                && created.currentHash == env.sha256(TextOf(env, created.(payload := req.payload), old(latestHash)))
                && rows == old(rows) + [created]
                && latestHash == created.currentHash && latestLogId == Some(id)
    {
      // Step 1: lock the head row and read it
      if fault == Some(AtLock) {
        return Failure(ConnectionLost(AtLock));
      }
      var headHash := latestHash;

      // Step 2: hashes, from the locked head
      var previousHash: string;
      var currentHash: string;
      if headHash == GENESIS_PREVIOUS_HASH {
        previousHash := GENESIS_PREVIOUS_HASH;
        currentHash := CreateGenesisHash(env, req.actor, req.action, req.payload, DateValue(createdAt));
      } else {
        previousHash := headHash;
        currentHash := CalculateCurrentHash(env, req.actor, req.action, req.payload, previousHash,
                                            DateValue(createdAt));
      }

      // Step 3: insert, private to the transaction
      if fault == Some(AtInsert) {
        return Failure(ConnectionLost(AtInsert));
      }
      var created: Row := LogEntry(id, req.actor, req.action, StoredPayload(env, req.payload),
                                   Some(previousHash), currentHash, DateValue(createdAt));
      assert created == NewRow(env, latestHash, Append(req, createdAt, id));
      NewRowInFull(env, latestHash, Append(req, createdAt, id));
      if !Admits(rows, created) {
        return Failure(UniqueViolation);
      }
      var txRows := rows + [created];

      // Step 4: update the head, private to the transaction
      if fault == Some(AtHeadUpdate) {
        return Failure(ConnectionLost(AtHeadUpdate));
      }
      var txLatestHash, txLatestLogId := currentHash, Some(created.id);

      // COMMIT makes both changes visible
      if fault.Some? && !fault.value.applied {
        return Failure(ConnectionLost(fault.value));
      }
      rows, latestHash, latestLogId := txRows, txLatestHash, txLatestLogId;
      if fault.Some? {
        return Failure(ConnectionLost(fault.value));
      }
      return Success(created);
    }

    method FindById(id: string) returns (found: Option<Row>)
      ensures found.Some? ==> found.value in rows && found.value.id == id
      ensures found == None <==> forall row :: row in rows ==> row.id != id
    {
      if i :| 0 <= i < |rows| && rows[i].id == id {
        return Some(rows[i]);
      }
      return None;
    }

    method Count() returns (n: nat)
      ensures n == |rows|
    {
      n := |rows|;
    }

    /** All rows by createdAt. Callers may rely on the ordering only, not on how ties come. */
    method FindAllOrdered() returns (answer: seq<Row>)
      ensures IsOrdering(answer, rows)
    {
      SortByTimeIsOrdering(rows);
      answer := SortByTime(rows);
    }

    method FindAll(page: int, pageSize: int) returns (data: seq<Row>)
      requires 1 <= page && 1 <= pageSize
      ensures exists full :: IsOrdering(full, rows) && data == PageOf(full, page, pageSize)
    {
      var full := FindAllOrdered();
      data := PageOf(full, page, pageSize);
    }

    /** Exactly the matching rows, each as often as it is in the table, by createdAt. */
    method FindFiltered(filters: Filters) returns (answer: seq<Row>)
      ensures SortedByTime(answer)
      ensures forall row: Row ::
                multiset(answer)[row] ==
                if && (filters.actor == None || filters.actor == Some("") || filters.actor == Some(row.actor))
                   && (filters.from.Some? ==> row.createdAt.ms >= filters.from.value)
                   && (filters.to.Some? ==> row.createdAt.ms <= filters.to.value)
                then multiset(rows)[row] else 0
    {
      SelectedRows(rows, filters);
      SortByTimeIsOrdering(Selected(rows, filters));
      answer := SortByTime(Selected(rows, filters));
    }
  }
}
