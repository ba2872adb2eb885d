/** Reading the rows ordered by createdAt, and what the verifier says of the orders the database may pick. */
module Ordering {

  import opened LogEntries
  import opened HashService
  import opened ChainVerifier
  import opened Tampering
  import opened Database

  predicate SortedByTime(rows: seq<Row>) {
    forall i, j :: 0 <= i < j < |rows| ==> rows[i].createdAt.ms <= rows[j].createdAt.ms
  }

  predicate StrictlyIncreasing(rows: seq<Row>) {
    forall i, j :: 0 <= i < j < |rows| ==> rows[i].createdAt.ms < rows[j].createdAt.ms
  }

  /** A possible answer to "all rows, ordered by createdAt": rows with equal times come in any order. */
  predicate IsOrdering(answer: seq<Row>, rows: seq<Row>) {
    multiset(answer) == multiset(rows) && SortedByTime(answer)
  }

  // ----- Keeping some of the rows -----

  /** The rows that satisfy a condition, in the order in which they come. */
  function Keep(rows: seq<Row>, f: Row -> bool): seq<Row> {
    if rows == [] then []
    else
      var n := |rows| - 1;
      Keep(rows[..n], f) + (if f(rows[n]) then [rows[n]] else [])
  }

  /** Each row that satisfies the condition is kept as often as it was there, and no other is. */
  lemma {:induction false} KeptRows(rows: seq<Row>, f: Row -> bool)
    ensures forall row: Row :: multiset(Keep(rows, f))[row] == if f(row) then multiset(rows)[row] else 0
  {
    if rows != [] {
      var n := |rows| - 1;
      KeptRows(rows[..n], f);
      assert rows == rows[..n] + [rows[n]];
    }
  }

  lemma {:induction false} KeepPrefix(rows: seq<Row>, f: Row -> bool, i: nat)
    requires i <= |rows|
    requires forall k :: 0 <= k < |rows| ==> (f(rows[k]) <==> k < i)
    ensures Keep(rows, f) == rows[..i]
  {
    if rows != [] {
      var n := |rows| - 1;
      if i <= n {
        KeepPrefix(rows[..n], f, i);
        assert rows[..n][..i] == rows[..i];
      } else {
        KeepPrefix(rows[..n], f, n);
        assert rows[..n][..n] + [rows[n]] == rows[..i];
      }
    }
  }

  // ----- An ordering always exists -----

  function InsertByTime(row: Row, rows: seq<Row>): (r: seq<Row>)
    ensures |r| == |rows| + 1
  {
    if rows == [] || row.createdAt.ms <= rows[0].createdAt.ms then [row] + rows
    else [rows[0]] + InsertByTime(row, rows[1..])
  }

  function SortByTime(rows: seq<Row>): (r: seq<Row>)
    ensures |r| == |rows|
  {
    if rows == [] then [] else InsertByTime(rows[0], SortByTime(rows[1..]))
  }

  lemma {:induction false} InsertByTimeKeepsRows(row: Row, rows: seq<Row>)
    ensures multiset(InsertByTime(row, rows)) == multiset([row] + rows)
  {
    if rows != [] && row.createdAt.ms > rows[0].createdAt.ms {
      InsertByTimeKeepsRows(row, rows[1..]);
      assert rows == [rows[0]] + rows[1..];
    }
  }

  lemma PrependKeepsOrder(row: Row, rows: seq<Row>)
    requires SortedByTime(rows)
    requires forall other :: other in rows ==> row.createdAt.ms <= other.createdAt.ms
    ensures SortedByTime([row] + rows)
  {
    var longer := [row] + rows;
    assert forall i :: 0 < i < |longer| ==> longer[i] == rows[i - 1] && longer[i] in rows;
  }

  lemma {:induction false} InsertByTimeKeepsOrder(row: Row, rows: seq<Row>)
    requires SortedByTime(rows)
    ensures SortedByTime(InsertByTime(row, rows))
  {
    if rows == [] || row.createdAt.ms <= rows[0].createdAt.ms {
      PrependKeepsOrder(row, rows);
    } else {
      var tail := InsertByTime(row, rows[1..]);
      InsertByTimeKeepsOrder(row, rows[1..]);
      InsertByTimeKeepsRows(row, rows[1..]);
      forall other | other in tail
        ensures rows[0].createdAt.ms <= other.createdAt.ms
      {
        assert other in multiset([row] + rows[1..]);
      }
      PrependKeepsOrder(rows[0], tail);
    }
  }

  lemma {:induction false} SortByTimeIsOrdering(rows: seq<Row>)
    ensures IsOrdering(SortByTime(rows), rows)
  {
    if rows != [] {
      SortByTimeIsOrdering(rows[1..]);
      InsertByTimeKeepsOrder(rows[0], SortByTime(rows[1..]));
      InsertByTimeKeepsRows(rows[0], SortByTime(rows[1..]));
      assert rows == [rows[0]] + rows[1..];
    }
  }

  // ----- With different times there is one ordering -----

  lemma FirstOfOrdering(answer: seq<Row>, rows: seq<Row>)
    requires IsOrdering(answer, rows) && StrictlyIncreasing(rows) && rows != []
    ensures answer != [] && answer[0] == rows[0]
  {
    assert |multiset(answer)| == |answer| && |multiset(rows)| == |rows|;
    assert answer[0] in multiset(rows) && rows[0] in multiset(answer);
    var j :| 0 <= j < |rows| && rows[j] == answer[0];
    var m :| 0 <= m < |answer| && answer[m] == rows[0];
    assert answer[0].createdAt.ms <= answer[m].createdAt.ms;
    assert j == 0;
  }

  lemma RestOfOrdering(answer: seq<Row>, rows: seq<Row>)
    requires IsOrdering(answer, rows) && StrictlyIncreasing(rows)
    requires answer != [] && rows != [] && answer[0] == rows[0]
    ensures IsOrdering(answer[1..], rows[1..]) && StrictlyIncreasing(rows[1..])
  {
    assert answer == [answer[0]] + answer[1..] && rows == [rows[0]] + rows[1..];
    assert multiset(answer[1..]) == multiset(answer) - multiset{answer[0]};
    assert multiset(rows[1..]) == multiset(rows) - multiset{rows[0]};
  }

  lemma {:induction false} OrderingIsUnique(answer: seq<Row>, rows: seq<Row>)
    requires IsOrdering(answer, rows) && StrictlyIncreasing(rows)
    ensures answer == rows
  {
    if rows == [] {
      assert |multiset(answer)| == |answer|;
    } else {
      FirstOfOrdering(answer, rows);
      RestOfOrdering(answer, rows);
      hide IsOrdering;
      hide StrictlyIncreasing;
      OrderingIsUnique(answer[1..], rows[1..]);
      assert answer == [answer[0]] + answer[1..] && rows == [rows[0]] + rows[1..];
    }
  }

  lemma IncreasingPrefix(rows: seq<Row>, row: Row)
    requires StrictlyIncreasing(rows + [row])
    ensures StrictlyIncreasing(rows)
  {
    assert forall i :: 0 <= i < |rows| ==> (rows + [row])[i] == rows[i];
  }

  // ----- The order in which a chain verifies is unique -----

  /** The entry that comes `k`-th in a linked rearrangement is the `k`-th of the chain. */
  lemma LinkFixesPosition(chain: seq<LogEntry>, other: seq<LogEntry>, k: nat)
    requires Linked(chain) && Linked(other) && multiset(chain) == multiset(other)
    requires DistinctHashes(chain)
    requires forall entry :: entry in chain ==> entry.currentHash != GENESIS_PREVIOUS_HASH
    requires k < |chain| && k < |other|
    requires k > 0 ==> other[k - 1] == chain[k - 1]
    ensures other[k] == chain[k]
  {
    assert other[k] in multiset(chain);
    var j :| 0 <= j < |chain| && chain[j] == other[k];
    assert LinkOk(chain, j) && LinkOk(other, k);
    assert j > 0 ==> chain[j - 1] in chain;
    assert k > 0 ==> chain[k - 1] in chain;
    assert j == k;
  }

  /** Two linked arrangements of the same entries are the same list. */
  lemma LinkedOrderIsUnique(chain: seq<LogEntry>, other: seq<LogEntry>)
    requires Linked(chain) && Linked(other) && multiset(chain) == multiset(other)
    requires DistinctHashes(chain)
    requires forall entry :: entry in chain ==> entry.currentHash != GENESIS_PREVIOUS_HASH
    ensures other == chain
  {
    assert |multiset(chain)| == |chain| && |multiset(other)| == |other|;
    var k := 0;
    while k < |chain|
      invariant k <= |chain|
      invariant other[..k] == chain[..k]
    {
      assert k > 0 ==> other[k - 1] == other[..k][k - 1] == chain[..k][k - 1] == chain[k - 1];
      LinkFixesPosition(chain, other, k);
      k := k + 1;
    }
  }

  /** Any rearrangement of an accepted list with distinct hashes is rejected. */
  lemma Reordering(e: Env, entries: seq<LogEntry>, other: seq<LogEntry>)
    requires WellBehaved(e) && Accepted(e, entries) && DistinctHashes(entries)
    requires multiset(other) == multiset(entries)
    ensures Accepted(e, other) <==> other == entries
  {
    if Accepted(e, other) {
      AcceptedIsLinked(e, entries);
      AcceptedIsLinked(e, other);
      forall entry | entry in entries
        ensures entry.currentHash != GENESIS_PREVIOUS_HASH
      {
        var i :| 0 <= i < |entries| && entries[i] == entry;
        assert EntryOk(e, entries, i);
        DigestFormat(e, DataOf(entries[i], ResolvedPrevious(entries, i)));
      }
      LinkedOrderIsUnique(entries, other);
    }
  }

  /** A rearrangement of a written log is accepted exactly when it is the commit order and that is accepted. */
  lemma VerifyingOrderIsUnique(e: Env, appends: seq<Append>, other: seq<LogEntry>)
    requires WellBehaved(e) && AllAdmitted(e, appends)
    requires multiset(other) == multiset(Replay(e, appends).rows)
    ensures Accepted(e, other) <==> other == Replay(e, appends).rows && Accepted(e, Replay(e, appends).rows)
  {
    hide SoundUpTo;
    var rows: seq<LogEntry> := Replay(e, appends).rows;
    RowsAreLinked(e, appends);
    RowsAreDistinct(e, appends);
    RowHashesAreDigests(e, appends);
    if Accepted(e, other) {
      AcceptedIsLinked(e, other);
      LinkedOrderIsUnique(rows, other);
    }
  }

  // ----- Orderings by time against commit order -----

  /** A time inversion in commit order: every ordering the database may return is rejected. */
  lemma InversionBreaksEveryOrdering(e: Env, appends: seq<Append>, answer: seq<Row>)
    requires WellBehaved(e) && AllAdmitted(e, appends)
    requires !SortedByTime(Replay(e, appends).rows)
    requires IsOrdering(answer, Replay(e, appends).rows)
    ensures !Accepted(e, answer)
  {
    SameMultisetOfEntries(answer, Replay(e, appends).rows);
    VerifyingOrderIsUnique(e, appends, answer);
  }

  lemma SameMultisetOfEntries(a: seq<Row>, b: seq<Row>)
    requires multiset(a) == multiset(b)
    ensures var x: seq<LogEntry>, y: seq<LogEntry> := a, b; multiset(x) == multiset(y)
  {
  }

  /** The rows with the one at `i` and its successor exchanged. */
  function SwapAt(rows: seq<Row>, i: nat): seq<Row>
    requires i + 1 < |rows|
  {
    rows[i := rows[i + 1]][i + 1 := rows[i]]
  }

  /** In a sorted list that is not strictly increasing, two neighbours tie. */
  lemma TieHasNeighbours(rows: seq<Row>) returns (i: nat)
    requires SortedByTime(rows) && !StrictlyIncreasing(rows)
    ensures i + 1 < |rows| && rows[i].createdAt.ms == rows[i + 1].createdAt.ms
  {
    var a, b :| 0 <= a < b < |rows| && rows[a].createdAt.ms >= rows[b].createdAt.ms;
    i := a;
  }

  /** Without strictly increasing times the database may return an ordering other than commit order. */
  lemma AnotherOrdering(rows: seq<Row>) returns (answer: seq<Row>)
    requires DistinctIds(rows) && !StrictlyIncreasing(rows)
    ensures IsOrdering(answer, rows) && answer != rows
  {
    if SortedByTime(rows) {
      var i := TieHasNeighbours(rows);
      answer := SwapAt(rows, i);
      assert rows[i].id != rows[i + 1].id;
      assert answer[i] != rows[i];
    } else {
      SortByTimeIsOrdering(rows);
      answer := SortByTime(rows);
    }
  }

  /** A tie in time, whatever happens to payloads: some ordering the database may return is rejected. */
  lemma TieBreaksSomeOrdering(e: Env, appends: seq<Append>) returns (answer: seq<Row>)
    requires WellBehaved(e) && AllAdmitted(e, appends) && !StrictlyIncreasing(Replay(e, appends).rows)
    ensures IsOrdering(answer, Replay(e, appends).rows) && !Accepted(e, answer)
  {
    RowsAreDistinct(e, appends);
    answer := AnotherOrdering(Replay(e, appends).rows);
    SameMultisetOfEntries(answer, Replay(e, appends).rows);
    VerifyingOrderIsUnique(e, appends, answer);
  }

  /**
   * Every ordering by createdAt verifies exactly when createdAt is strictly increasing in commit order
   * and storage did no harm to the payloads.
   */
  lemma OrderingsVerifyIffTimesIncrease(e: Env, appends: seq<Append>)
    requires WellBehaved(e) && AllAdmitted(e, appends)
    ensures var rows := Replay(e, appends).rows;
            (forall answer: seq<Row> :: IsOrdering(answer, rows) ==> Accepted(e, answer)) <==>
            StrictlyIncreasing(rows) && Harmless(e, appends)
  {
    var rows := Replay(e, appends).rows;
    WrittenLogAccepted(e, appends);
    hide Harmless;
    hide SoundUpTo;
    if StrictlyIncreasing(rows) {
      forall answer: seq<Row> | IsOrdering(answer, rows)
        ensures answer == rows
      {
        OrderingIsUnique(answer, rows);
      }
      assert IsOrdering(rows, rows);
    } else {
      var answer := TieBreaksSomeOrdering(e, appends);
    }
  }
}
