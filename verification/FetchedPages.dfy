/** Pages fetched by separate queries, each of which orders rows with equal times as it likes. */
module FetchedPages {

  import opened LogEntries
  import opened Database
  import opened Ordering
  import opened Pagination

  /** No tie across position `i`: the rows before it have earlier times than those from it on. */
  predicate CleanCut(rows: seq<Row>, i: int) {
    0 < i < |rows| ==> rows[i - 1].createdAt.ms < rows[i].createdAt.ms
  }

  /** No tie between the last row of page `k` and the first row of the next page. */
  predicate CleanBoundary(rows: seq<Row>, pageSize: int, k: nat) {
    CleanCut(rows, k * pageSize)
  }

  /** No tie across the boundary between two pages. Ties inside a page do no harm. */
  ghost predicate CleanCuts(rows: seq<Row>, pageSize: int) {
    forall k: nat :: CleanBoundary(rows, pageSize, k)
  }

  /** The answers to one query for each page. */
  predicate AnswersToAllPages(answers: seq<seq<Row>>, rows: seq<Row>, pageSize: int)
    requires 1 <= pageSize
  {
    |answers| == TotalPages(|rows|, pageSize) && forall i :: 0 <= i < |answers| ==> IsOrdering(answers[i], rows)
  }

  // ----- A clean cut fixes which rows come before it -----

  lemma FirstLater(rows: seq<Row>, ms: int) returns (i: nat)
    requires SortedByTime(rows)
    ensures i <= |rows| && forall k :: 0 <= k < |rows| ==> (rows[k].createdAt.ms <= ms <==> k < i)
  {
    i := 0;
    while i < |rows| && rows[i].createdAt.ms <= ms
      invariant i <= |rows| && forall k :: 0 <= k < i ==> rows[k].createdAt.ms <= ms
    {
      i := i + 1;
    }
  }

  /** The prefix of the rows up to a time holds each of them as often as the whole list does. */
  lemma PrefixUpTo(rows: seq<Row>, ms: int, i: nat)
    requires i <= |rows| && forall k :: 0 <= k < |rows| ==> (rows[k].createdAt.ms <= ms <==> k < i)
    ensures forall row: Row :: multiset(rows[..i])[row] == if row.createdAt.ms <= ms then multiset(rows)[row] else 0
  {
    var f := (row: Row) => row.createdAt.ms <= ms;
    KeepPrefix(rows, f, i);
    KeptRows(rows, f);
  }

  /** Prefixes up to one time are the same rows. */
  lemma PrefixesAgree(a: seq<Row>, b: seq<Row>, ms: int, j: nat, i: nat)
    requires multiset(a) == multiset(b) && j <= |a| && i <= |b|
    requires forall k :: 0 <= k < |a| ==> (a[k].createdAt.ms <= ms <==> k < j)
    requires forall k :: 0 <= k < |b| ==> (b[k].createdAt.ms <= ms <==> k < i)
    ensures i == j && multiset(a[..j]) == multiset(b[..i])
  {
    PrefixUpTo(a, ms, j);
    PrefixUpTo(b, ms, i);
    assert multiset(a[..j]) == multiset(b[..i]);
    assert |multiset(a[..j])| == j && |multiset(b[..i])| == i;
  }

  lemma CutFixesPrefix(a: seq<Row>, b: seq<Row>, i: nat)
    requires SortedByTime(a) && SortedByTime(b) && multiset(a) == multiset(b) && CleanCut(b, i)
    ensures multiset(SkipTake<Row>(a, 0, i)) == multiset(SkipTake<Row>(b, 0, i))
  {
    assert |multiset(a)| == |a| && |multiset(b)| == |b|;
    if 0 < i < |b| {
      var ms := b[i - 1].createdAt.ms;
      var j := FirstLater(a, ms);
      PrefixesAgree(a, b, ms, j, i);
    }
  }

  lemma CutsFixPage(a: seq<Row>, b: seq<Row>, skip: nat, take: nat)
    requires SortedByTime(a) && SortedByTime(b) && multiset(a) == multiset(b)
    requires CleanCut(b, skip) && CleanCut(b, skip + take)
    ensures multiset(SkipTake<Row>(a, skip, take)) == multiset(SkipTake<Row>(b, skip, take))
  {
    CutFixesPrefix(a, b, skip);
    CutFixesPrefix(a, b, skip + take);
    TakeMore<Row>(a, skip, take);
    TakeMore<Row>(b, skip, take);
    hide SkipTake;
    var a1, a2 := SkipTake<Row>(a, 0, skip), SkipTake<Row>(a, skip, take);
    var b1, b2 := SkipTake<Row>(b, 0, skip), SkipTake<Row>(b, skip, take);
    assert multiset(a1 + a2) == multiset(a1) + multiset(a2);
    assert multiset(b1 + b2) == multiset(b1) + multiset(b2);
    assert multiset(a2) == multiset(a1 + a2) - multiset(a1);
    assert multiset(b2) == multiset(b1 + b2) - multiset(b1);
  }

  lemma PageAppended(answers: seq<seq<Row>>, pageSize: int)
    requires 1 <= pageSize && answers != []
    ensures var n := |answers| - 1;
            PagesOfAnswers<Row>(answers, pageSize) ==
            PagesOfAnswers<Row>(answers[..n], pageSize) + SkipTake<Row>(answers[n], n * pageSize, pageSize)
  {
  }

  lemma {:induction false} CleanPagesTogether(sorted: seq<Row>, answers: seq<seq<Row>>, pageSize: int)
    requires 1 <= pageSize && SortedByTime(sorted) && CleanCuts(sorted, pageSize)
    requires forall i :: 0 <= i < |answers| ==> IsOrdering(answers[i], sorted)
    ensures multiset(PagesOfAnswers<Row>(answers, pageSize)) ==
            multiset(SkipTake<Row>(sorted, 0, |answers| * pageSize))
  {
    if answers != [] {
      var n := |answers| - 1;
      CleanPagesTogether(sorted, answers[..n], pageSize);
      var skip: nat := n * pageSize;
      assert (n + 1) * pageSize == skip + pageSize by { OneMore(n, pageSize); }
      assert CleanBoundary(sorted, pageSize, n) && CleanBoundary(sorted, pageSize, n + 1);
      PageAppended(answers, pageSize);
      hide SkipTake;
      hide PagesOfAnswers;
      CutsFixPage(answers[n], sorted, skip, pageSize);
      TakeMore<Row>(sorted, skip, pageSize);
      hide IsOrdering;
      hide SortedByTime;
      hide CleanCut;
    }
  }

  // ----- A tie across a boundary tears the pages -----

  lemma {:induction false} PagesLength(answers: seq<seq<Row>>, pageSize: int, length: nat)
    requires 1 <= pageSize
    requires forall i :: 0 <= i < |answers| ==> |answers[i]| == length
    ensures |PagesOfAnswers<Row>(answers, pageSize)| == Min(length, |answers| * pageSize)
  {
    if answers != [] {
      var n := |answers| - 1;
      PagesLength(answers[..n], pageSize, length);
      var skip: nat := n * pageSize;
      assert (n + 1) * pageSize == skip + pageSize by { OneMore(n, pageSize); }
      SkipTakeLength<Row>(answers[n], skip, pageSize);
      hide SkipTake;
      assert PagesOfAnswers<Row>(answers, pageSize) ==
             PagesOfAnswers<Row>(answers[..n], pageSize) + SkipTake<Row>(answers[n], skip, pageSize);
    }
  }

  lemma LastPageElement(answers: seq<seq<Row>>, pageSize: int, length: nat, i: nat)
    requires 1 <= pageSize && answers != [] && i < length
    requires forall k :: 0 <= k < |answers| ==> |answers[k]| == length
    requires (|answers| - 1) * pageSize <= i < (|answers| - 1) * pageSize + pageSize
    ensures i < |PagesOfAnswers<Row>(answers, pageSize)|
    ensures PagesOfAnswers<Row>(answers, pageSize)[i] == answers[|answers| - 1][i]
  {
    var n := |answers| - 1;
    PageAppended(answers, pageSize);
    PagesLength(answers[..n], pageSize, length);
    hide PagesOfAnswers;
    var skip: nat := n * pageSize;
    assert |SkipTake<Row>(answers[n], skip, pageSize)| > i - skip;
    assert SkipTake<Row>(answers[n], skip, pageSize)[i - skip] == answers[n][i];
  }

  /** Position `i`, on page q + 1, comes from the answer to the query for that page. */
  lemma {:induction false} PagesElement(answers: seq<seq<Row>>, pageSize: int, length: nat, q: nat, i: nat)
    requires 1 <= pageSize && q < |answers| && i < length
    requires forall k :: 0 <= k < |answers| ==> |answers[k]| == length
    requires q * pageSize <= i < q * pageSize + pageSize
    ensures i < |PagesOfAnswers<Row>(answers, pageSize)|
    ensures PagesOfAnswers<Row>(answers, pageSize)[i] == answers[q][i]
  {
    var n := |answers| - 1;
    if q < n {
      PagesElement(answers[..n], pageSize, length, q, i);
      PageAppended(answers, pageSize);
      hide PagesOfAnswers;
      hide SkipTake;
    } else {
      LastPageElement(answers, pageSize, length, i);
    }
  }

  lemma Repeated(list: seq<Row>, i: nat, j: nat)
    requires i < j < |list| && list[i] == list[j]
    ensures multiset(list)[list[i]] >= 2
  {
    assert list == list[..i] + [list[i]] + list[i + 1..j] + [list[j]] + list[j + 1..];
  }

  lemma {:induction false} OccursOnce(rows: seq<Row>, x: Row)
    requires DistinctIds(rows)
    ensures multiset(rows)[x] <= 1
  {
    if rows != [] {
      var n := |rows| - 1;
      OccursOnce(rows[..n], x);
      assert rows == rows[..n] + [rows[n]];
      if x == rows[n] {
        assert x !in rows[..n];
      }
    }
  }

  /** A list that holds one row twice has not the content of a table with distinct ids. */
  lemma RepeatIsNoPartition(rows: seq<Row>, list: seq<Row>, i: nat, j: nat)
    requires DistinctIds(rows) && i < j < |list| && list[i] == list[j]
    ensures multiset(list) != multiset(rows)
  {
    OccursOnce(rows, list[i]);
    Repeated(list, i, j);
  }

  lemma SwappedTieIsOrdering(sorted: seq<Row>, cut: nat)
    requires SortedByTime(sorted) && 0 < cut < |sorted|
    requires sorted[cut - 1].createdAt.ms >= sorted[cut].createdAt.ms
    ensures IsOrdering(SwapAt(sorted, cut - 1), sorted)
  {
  }

  lemma RepeatAcrossBoundary(answers: seq<seq<Row>>, pageSize: int, length: nat, k: nat, cut: nat)
    requires 1 <= pageSize && 1 <= k < |answers| && cut < length
    requires cut == k * pageSize == (k - 1) * pageSize + pageSize
    requires forall i :: 0 <= i < |answers| ==> |answers[i]| == length
    requires answers[k - 1][cut - 1] == answers[k][cut]
    ensures var pages := PagesOfAnswers<Row>(answers, pageSize);
            0 < cut < |pages| && pages[cut - 1] == pages[cut]
  {
    PagesElement(answers, pageSize, length, k - 1, cut - 1);
    PagesElement(answers, pageSize, length, k, cut);
    hide PagesOfAnswers;
  }

  lemma TornAnswers(rows: seq<Row>, sorted: seq<Row>, pageSize: int, k: nat, cut: nat)
      returns (answers: seq<seq<Row>>)
    requires 1 <= pageSize && IsOrdering(sorted, rows) && |sorted| == |rows|
    requires cut == k * pageSize && !CleanCut(sorted, cut)
    ensures AnswersToAllPages(answers, rows, pageSize)
    ensures var pages := PagesOfAnswers<Row>(answers, pageSize);
            0 < cut < |pages| && pages[cut - 1] == pages[cut]
  {
    var swapped := SwapAt(sorted, cut - 1);
    SwappedTieIsOrdering(sorted, cut);
    assert swapped[cut] == sorted[cut - 1] && |swapped| == |rows|;
    var n := PagesReach(|rows|, pageSize, k);
    hide TotalPages;
    hide SwapAt;
    hide PagesOfAnswers;
    answers := seq(n, i requires 0 <= i < n => if i == k then swapped else sorted);
    assert IsOrdering(swapped, rows);
    hide IsOrdering;
    RepeatAcrossBoundary(answers, pageSize, |rows|, k, cut);
  }

  /** Serve the page after the tie from an ordering that exchanges the tied rows: one row comes twice. */
  lemma TieTearsPages(rows: seq<Row>, pageSize: int, k: nat) returns (answers: seq<seq<Row>>)
    requires 1 <= pageSize && DistinctIds(rows) && !CleanBoundary(SortByTime(rows), pageSize, k)
    ensures AnswersToAllPages(answers, rows, pageSize)
    ensures multiset(PagesOfAnswers<Row>(answers, pageSize)) != multiset(rows)
  {
    SortByTimeIsOrdering(rows);
    var sorted := SortByTime(rows);
    var cut: nat := k * pageSize;
    hide DistinctIds;
    hide IsOrdering;
    hide PagesOfAnswers;
    hide AnswersToAllPages;
    answers := TornAnswers(rows, sorted, pageSize, k, cut);
    RepeatIsNoPartition(rows, PagesOfAnswers<Row>(answers, pageSize), cut - 1, cut);
  }

  /** A position inside the list is on some page. */
  lemma PagesReach(length: nat, pageSize: int, k: nat) returns (n: nat)
    requires 1 <= pageSize && 0 < k * pageSize < length
    ensures n == TotalPages(length, pageSize) && 1 <= k < n
    ensures (k - 1) * pageSize + pageSize == k * pageSize
  {
    n := TotalPages(length, pageSize);
    hide TotalPages;
    if n <= k {
      Monotone(n, k, pageSize);
    }
    OneMore(k - 1, pageSize);
  }

  // ----- Exactly when the pages partition the log -----

  /**
   * Pages fetched by separate queries, whatever ordering each query picks, hold every row of the log
   * exactly once if and only if no two rows on either side of a page boundary have the same time.
   */
  lemma FetchedPagesPartition(rows: seq<Row>, pageSize: int)
    requires 1 <= pageSize && DistinctIds(rows)
    ensures (forall answers: seq<seq<Row>> :: AnswersToAllPages(answers, rows, pageSize) ==>
               multiset(PagesOfAnswers<Row>(answers, pageSize)) == multiset(rows))
            <==> CleanCuts(SortByTime(rows), pageSize)
  {
    SortByTimeIsOrdering(rows);
    var sorted := SortByTime(rows);
    if CleanCuts(sorted, pageSize) {
      forall answers: seq<seq<Row>> | AnswersToAllPages(answers, rows, pageSize)
        ensures multiset(PagesOfAnswers<Row>(answers, pageSize)) == multiset(rows)
      {
        CleanPagesTogether(sorted, answers, pageSize);
        assert SkipTake<Row>(sorted, 0, |answers| * pageSize) == sorted;
      }
    } else {
      var k: nat :| !CleanBoundary(sorted, pageSize, k);
      var answers := TieTearsPages(rows, pageSize, k);
    }
  }

  // ----- Exactly when a full page outlives a later row -----

  lemma LaterRowOrdering(sorted: seq<Row>, rows: seq<Row>, row: Row)
    requires IsOrdering(sorted, rows) && forall other :: other in rows ==> other.createdAt.ms < row.createdAt.ms
    ensures IsOrdering(sorted + [row], rows + [row])
    ensures forall i :: 0 <= i < |sorted| ==> sorted[i].createdAt.ms < row.createdAt.ms
  {
    forall i | 0 <= i < |sorted|
      ensures sorted[i].createdAt.ms < row.createdAt.ms
    {
      assert sorted[i] in multiset(rows);
    }
  }

  lemma CleanCutsKeepPage(sorted: seq<Row>, rows: seq<Row>, row: Row, before: seq<Row>, after: seq<Row>,
                          skip: nat, take: nat)
    requires IsOrdering(sorted, rows) && IsOrdering(sorted + [row], rows + [row])
    requires forall i :: 0 <= i < |sorted| ==> sorted[i].createdAt.ms < row.createdAt.ms
    requires IsOrdering(before, rows) && IsOrdering(after, rows + [row])
    requires 1 <= take && skip + take <= |sorted| && CleanCut(sorted, skip) && CleanCut(sorted, skip + take)
    ensures multiset(SkipTake<Row>(after, skip, take)) == multiset(SkipTake<Row>(before, skip, take))
  {
    assert CleanCut(sorted + [row], skip) && CleanCut(sorted + [row], skip + take);
    CutsFixPage(before, sorted, skip, take);
    CutsFixPage(after, sorted + [row], skip, take);
    FullSliceStays<Row>(sorted, row, skip, take);
  }

  /** Exchange two tied rows on both sides of one end of a page: the page gets a row that was not on it. */
  lemma TieChangesPage(sorted: seq<Row>, row: Row, cut: nat, skip: nat, take: nat)
    requires DistinctIds(sorted) && 0 < cut < |sorted|
    requires 1 <= take && skip + take <= |sorted| && (cut == skip || cut == skip + take)
    ensures multiset(SkipTake<Row>(SwapAt(sorted, cut - 1) + [row], skip, take)) !=
            multiset(SkipTake<Row>(sorted, skip, take))
  {
    var changed := SwapAt(sorted, cut - 1) + [row];
    var was, page := SkipTake<Row>(sorted, skip, take), SkipTake<Row>(changed, skip, take);
    assert was == sorted[skip..skip + take] && page == changed[skip..skip + take];
    hide SkipTake;
    var x := if cut == skip then sorted[cut - 1] else sorted[cut];
    assert page[if cut == skip then 0 else take - 1] == x;
    assert x in multiset(page);
    assert forall i :: 0 <= i < take ==> was[i] == sorted[skip + i] && was[i].id != x.id;
  }

  lemma OrderingIsDistinct(sorted: seq<Row>, rows: seq<Row>)
    requires multiset(sorted) == multiset(rows) && DistinctIds(rows)
    ensures DistinctIds(sorted)
  {
    forall i, j | 0 <= i < j < |sorted|
      ensures sorted[i].id != sorted[j].id
    {
      if sorted[i].id == sorted[j].id {
        assert sorted[i] in multiset(rows) && sorted[j] in multiset(rows);
        var a :| 0 <= a < |rows| && rows[a] == sorted[i];
        var b :| 0 <= b < |rows| && rows[b] == sorted[j];
        OccursOnce(rows, sorted[i]);
        Repeated(sorted, i, j);
      }
    }
  }

  lemma ChangedPage(sorted: seq<Row>, rows: seq<Row>, row: Row, skip: nat, take: nat) returns (after: seq<Row>)
    requires IsOrdering(sorted, rows) && DistinctIds(rows)
    requires forall other :: other in rows ==> other.createdAt.ms < row.createdAt.ms
    requires 1 <= take && skip + take <= |sorted| && !(CleanCut(sorted, skip) && CleanCut(sorted, skip + take))
    ensures IsOrdering(after, rows + [row])
    ensures multiset(SkipTake<Row>(after, skip, take)) != multiset(SkipTake<Row>(sorted, skip, take))
  {
    var cut := if !CleanCut(sorted, skip) then skip else skip + take;
    SwappedTieIsOrdering(sorted, cut);
    var swapped := SwapAt(sorted, cut - 1);
    LaterRowOrdering(swapped, rows, row);
    OrderingIsDistinct(sorted, rows);
    TieChangesPage(sorted, row, cut, skip, take);
    after := swapped + [row];
  }

  /**
   * A row with a later time than all others leaves the content of a full page as it was, whatever
   * ordering either query picks, if and only if no tie crosses either end of the page.
   */
  lemma FullPageOutlivesLaterRow(rows: seq<Row>, row: Row, skip: nat, take: nat)
    requires 1 <= take && skip + take <= |rows| && DistinctIds(rows)
    requires forall other :: other in rows ==> other.createdAt.ms < row.createdAt.ms
    ensures (forall before: seq<Row>, after: seq<Row> ::
               IsOrdering(before, rows) && IsOrdering(after, rows + [row]) ==>
                 multiset(SkipTake<Row>(after, skip, take)) == multiset(SkipTake<Row>(before, skip, take)))
            <==> CleanCut(SortByTime(rows), skip) && CleanCut(SortByTime(rows), skip + take)
  {
    var sorted := SortByTime(rows);
    SortByTimeIsOrdering(rows);
    if CleanCut(sorted, skip) && CleanCut(sorted, skip + take) {
      LaterRowOrdering(sorted, rows, row);
      hide IsOrdering;
      hide SkipTake;
      hide CleanCut;
      forall before: seq<Row>, after: seq<Row> | IsOrdering(before, rows) && IsOrdering(after, rows + [row])
        ensures multiset(SkipTake<Row>(after, skip, take)) == multiset(SkipTake<Row>(before, skip, take))
      {
        CleanCutsKeepPage(sorted, rows, row, before, after, skip, take);
      }
    } else {
      var after := ChangedPage(sorted, rows, row, skip, take);
      hide IsOrdering;
      hide SkipTake;
    }
  }
}
