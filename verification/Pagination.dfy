/** Page parameters, and the pages that a list is cut into. */
module Pagination {

  import opened Wrappers
  import opened LogEntries
  import opened Ordering

  const DEFAULT_PAGE := 1
  const DEFAULT_PAGE_SIZE := 20
  const MAX_PAGE_SIZE := 100

  /** `parsed || fallback`: NaN (here None) and zero are falsy. */
  function OrDefault(parsed: Option<int>, fallback: int): int {
    if parsed == None || parsed == Some(0) then fallback else parsed.value
  }

  function Max(a: int, b: int): int {
    if a < b then b else a
  }

  function Min(a: int, b: int): int {
    if a < b then a else b
  }

  /** The arguments are what parseInt made of the query parameters. The result is always a usable page. */
  function ParsePagination(page: Option<int>, pageSize: Option<int>): (r: (int, int))
    ensures r.0 == if page.Some? && 1 <= page.value then page.value else 1
    ensures 1 <= r.1 <= 100
    ensures pageSize.Some? && 1 <= pageSize.value <= 100 ==> r.1 == pageSize.value
    ensures pageSize.Some? && pageSize.value < 0 ==> r.1 == 1
    ensures pageSize.Some? && pageSize.value > 100 ==> r.1 == 100
    ensures pageSize == None || pageSize == Some(0) ==> r.1 == 20
  {
    (Max(DEFAULT_PAGE, OrDefault(page, DEFAULT_PAGE)),
     Min(MAX_PAGE_SIZE, Max(1, OrDefault(pageSize, DEFAULT_PAGE_SIZE))))
  }

  /** Math.ceil(total / pageSize). */
  function TotalPages(total: nat, pageSize: int): (n: int)
    requires 1 <= pageSize
    ensures 0 <= n
    ensures (n - 1) * pageSize < total || total == n == 0
    ensures total <= n * pageSize
  {
    (total + pageSize - 1) / pageSize
  }

  /** LIMIT and OFFSET: fewer elements, or none, where the list ends early. */
  function SkipTake<T>(list: seq<T>, skip: nat, take: nat): seq<T> {
    if |list| <= skip then []
    else if |list| <= skip + take then list[skip..]
    else list[skip..skip + take]
  }

  function PageOf<T>(list: seq<T>, page: int, pageSize: int): seq<T>
    requires 1 <= page && 1 <= pageSize
  {
    SkipTake(list, (page - 1) * pageSize, pageSize)
  }

  /** Pages 1 to n, where page p is taken from the answer to the p-th query. */
  function PagesOfAnswers<T>(answers: seq<seq<T>>, pageSize: int): seq<T>
    requires 1 <= pageSize
  {
    if answers == [] then []
    else
      var n := |answers| - 1;
      PagesOfAnswers(answers[..n], pageSize) + PageOf(answers[n], n + 1, pageSize)
  }

  lemma TakeMore<T>(list: seq<T>, skip: nat, take: nat)
    ensures SkipTake(list, 0, skip) + SkipTake(list, skip, take) == SkipTake(list, 0, skip + take)
  {
  }

  /** Pages 1 to n of one list are its first n * pageSize elements. */
  lemma {:induction false} PagesArePrefix<T>(list: seq<T>, answers: seq<seq<T>>, pageSize: int)
    requires 1 <= pageSize
    requires forall i :: 0 <= i < |answers| ==> answers[i] == list
    ensures PagesOfAnswers(answers, pageSize) == SkipTake(list, 0, |answers| * pageSize)
  {
    if answers != [] {
      var n := |answers| - 1;
      PagesArePrefix(list, answers[..n], pageSize);
      hide SkipTake;
      var skip: nat := n * pageSize;
      assert |answers| * pageSize == skip + pageSize by { OneMore(n, pageSize); }
      TakeMore(list, skip, pageSize);
    }
  }

  /** How full a page is: full before the last, empty after it. */
  lemma PageLength<T>(list: seq<T>, page: int, pageSize: int)
    requires 1 <= page && 1 <= pageSize
    ensures page < TotalPages(|list|, pageSize) ==> |PageOf(list, page, pageSize)| == pageSize
    ensures page == TotalPages(|list|, pageSize) ==> 1 <= |PageOf(list, page, pageSize)| <= pageSize
    ensures page > TotalPages(|list|, pageSize) ==> PageOf(list, page, pageSize) == []
  {
    hide TotalPages;
    var n := TotalPages(|list|, pageSize);
    var skip: nat := (page - 1) * pageSize;
    SkipTakeLength(list, skip, pageSize);
    hide SkipTake;
    assert page * pageSize == skip + pageSize by { OneMore(page - 1, pageSize); }
    if page < n {
      assert page * pageSize <= (n - 1) * pageSize by { Monotone(page, n - 1, pageSize); }
    } else if page > n {
      assert n * pageSize <= skip by { Monotone(n, page - 1, pageSize); }
    }
  }

  lemma SkipTakeLength<T>(list: seq<T>, skip: nat, take: nat)
    ensures |SkipTake(list, skip, take)| == if |list| <= skip then 0 else Min(take, |list| - skip)
  {
  }

  /** The pages of a list partition it: together, in order, they are the list, and none follow. */
  lemma PagesPartition<T>(list: seq<T>, answers: seq<seq<T>>, pageSize: int)
    requires 1 <= pageSize && |answers| == TotalPages(|list|, pageSize)
    requires forall i :: 0 <= i < |answers| ==> answers[i] == list
    ensures PagesOfAnswers(answers, pageSize) == list
    ensures forall page :: page > |answers| ==> PageOf(list, page, pageSize) == []
  {
    PagesArePrefix(list, answers, pageSize);
    forall page | page > |answers|
      ensures PageOf(list, page, pageSize) == []
    {
      PageLength(list, page, pageSize);
    }
  }

  lemma OneMore(n: int, k: int)
    ensures (n + 1) * k == n * k + k
  {
  }

  lemma Monotone(a: int, b: int, k: int)
    requires a <= b && 0 <= k
    ensures a * k <= b * k
  {
    assert b * k == a * k + (b - a) * k;
  }

  /** With strictly increasing times, pages fetched by separate queries give the log in commit order. */
  lemma FetchedPagesInOrder(rows: seq<Row>, answers: seq<seq<Row>>, pageSize: int)
    requires 1 <= pageSize && StrictlyIncreasing(rows)
    requires |answers| == TotalPages(|rows|, pageSize)
    requires forall i :: 0 <= i < |answers| ==> IsOrdering(answers[i], rows)
    ensures PagesOfAnswers(answers, pageSize) == rows
  {
    forall i | 0 <= i < |answers|
      ensures answers[i] == rows
    {
      OrderingIsUnique(answers[i], rows);
    }
    PagesPartition(rows, answers, pageSize);
  }

  /** A later row leaves every full page as it was, whatever ordering either query got. */
  lemma LaterRowKeepsFullPages(rows: seq<Row>, row: Row, before: seq<Row>, after: seq<Row>, page: int, pageSize: int)
    requires 1 <= page && 1 <= pageSize
    requires StrictlyIncreasing(rows + [row])
    requires IsOrdering(before, rows) && IsOrdering(after, rows + [row])
    requires |PageOf(before, page, pageSize)| == pageSize
    ensures PageOf(after, page, pageSize) == PageOf(before, page, pageSize)
  {
    IncreasingPrefix(rows, row);
    OrderingIsUnique(before, rows);
    OrderingIsUnique(after, rows + [row]);
    hide IsOrdering;
    hide StrictlyIncreasing;
    FullSliceStays(rows, row, (page - 1) * pageSize, pageSize);
  }

  lemma FullSliceStays<T>(list: seq<T>, extra: T, skip: nat, take: nat)
    requires 1 <= take && |SkipTake(list, skip, take)| == take
    ensures SkipTake(list + [extra], skip, take) == SkipTake(list, skip, take)
  {
  }
}
