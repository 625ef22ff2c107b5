/**
 * The paged display of the active view: `paginatedTasks` (src/App.jsx
 * lines 138-151), the page buttons (lines 266-268) and the
 * "Showing a to b of n total tasks" header (lines 258-263).
 */
module Pagination {
  import opened Tasks

  /** `tasksPerPage` */
  const PageSize: nat := 25

  /** `Math.min` */
  function Min(a: int, b: int): (r: int)
    ensures r <= a && r <= b && (r == a || r == b)
  {
    if a <= b then a else b
  }

  /**
   * How `Array.prototype.slice` reads an index: a negative one counts back
   * from the end, and the result is clamped to `0 .. len`.
   */
  function RelativeIndex(k: int, len: nat): (r: nat)
    ensures r <= len
    ensures 0 <= k ==> r == Min(k, len)
  {
    if k < 0 then (if len + k < 0 then 0 else len + k)
    else if k < len then k else len
  }

  /** `s.slice(start, end)`: the elements between the two read indices, or none when they cross. */
  function JsSlice<T>(s: seq<T>, start: int, end: int): (r: seq<T>)
    ensures |r| <= |s|
    ensures 0 <= start <= end ==> r == s[Min(start, |s|)..Min(end, |s|)]
  {
    var from, to := RelativeIndex(start, |s|), RelativeIndex(end, |s|);
    if from < to then s[from..to] else []
  }

  /** What the list area shows: the "No tasks found." paragraph, or a page of rows. */
  datatype Display = NoTasksFound | Rows(rows: seq<Task>)

  /** `paginatedTasks()` applied to the view the filter selects. */
  function PageOf(view: seq<Task>, page: int): (d: Display)
    ensures d.NoTasksFound? <==> view == []
  {
    if |view| == 0 then NoTasksFound
    else
      var startIndex := (page - 1) * PageSize;
      var endIndex := startIndex + PageSize;
      Rows(JsSlice(view, startIndex, endIndex))
  }

  /** `Math.ceil(n / tasksPerPage)`: the number of page buttons, the least count of pages holding `n` rows. */
  function PageCount(n: nat): (r: nat)
    ensures r * PageSize >= n
    ensures r == 0 || (r - 1) * PageSize < n
  {
    (n + PageSize - 1) / PageSize
  }

  /** The header's first number, `(currentPage - 1) * tasksPerPage + 1`. */
  function ShowingFrom(page: int): (r: int)
    ensures page >= 1 ==> r >= 1 && (r - 1) % PageSize == 0
  {
    (page - 1) * PageSize + 1
  }

  /** The header's second number, `Math.min(currentPage * tasksPerPage, n)`. */
  function ShowingTo(page: int, n: nat): (r: int)
    ensures r <= n && r <= page * PageSize && (r == n || r == page * PageSize)
  {
    Min(page * PageSize, n)
  }

  /**
   * On any page from the first on, a non-empty view shows the window of at
   * most `PageSize` rows that starts `(page - 1) * PageSize` rows in.
   */
  lemma PageWindow(view: seq<Task>, page: int)
    requires view != [] && page >= 1
    ensures PageOf(view, page).Rows?
    ensures PageOf(view, page).rows
         == view[Min((page - 1) * PageSize, |view|)..Min((page - 1) * PageSize + PageSize, |view|)]
    ensures |PageOf(view, page).rows| <= PageSize
  {
  }

  /** Every page before the last is full. */
  lemma PagesBeforeLastAreFull(view: seq<Task>, page: int)
    requires 1 <= page < PageCount(|view|)
    ensures view != [] && |PageOf(view, page).rows| == PageSize
  {
    PageWindow(view, page);
  }

  /** The last page holds the remainder: `n - PageSize * (pages - 1)` rows, at least one. */
  lemma LastPageHoldsRemainder(view: seq<Task>)
    requires view != []
    ensures PageCount(|view|) >= 1
    ensures |PageOf(view, PageCount(|view|)).rows| == |view| - PageSize * (PageCount(|view|) - 1) > 0
  {
    PageWindow(view, PageCount(|view|));
  }

  /** A page number past the last button (left over after deletions) shows an empty page, not the marker. */
  lemma PastLastPageIsEmpty(view: seq<Task>, page: int)
    requires view != [] && page > PageCount(|view|)
    ensures PageOf(view, page) == Rows([])
  {
    PageWindow(view, page);
  }

  /**
   * On every page that has a button the header agrees with the rows: they are
   * rows `from` to `to` of the view, counting from one.
   */
  lemma HeaderMatchesRows(view: seq<Task>, page: int)
    requires view != [] && 1 <= page <= PageCount(|view|)
    ensures 1 <= ShowingFrom(page) <= ShowingTo(page, |view|) <= |view|
    ensures PageOf(view, page).rows == view[ShowingFrom(page) - 1..ShowingTo(page, |view|)]
    ensures |PageOf(view, page).rows| == ShowingTo(page, |view|) - ShowingFrom(page) + 1
  {
    PageWindow(view, page);
  }

  /** The rows of pages `1 .. k`, one after the other. */
  function PagesUpTo(view: seq<Task>, k: nat): seq<Task>
    requires view != []
  {
    if k == 0 then [] else PagesUpTo(view, k - 1) + PageOf(view, k).rows
  }

  /** The first `k` pages are the first `k * PageSize` rows of the view (or all of it). */
  lemma {:induction false} PagesUpToIsPrefix(view: seq<Task>, k: nat)
    requires view != []
    ensures PagesUpTo(view, k) == view[..Min(k * PageSize, |view|)]
  {
    if k > 0 {
      PagesUpToIsPrefix(view, k - 1);
      PageWindow(view, k);
      var lo, hi := Min((k - 1) * PageSize, |view|), Min(k * PageSize, |view|);
      assert (k - 1) * PageSize + PageSize == k * PageSize;
      assert PagesUpTo(view, k) == view[..lo] + view[lo..hi];
      assert view[..lo] + view[lo..hi] == view[..hi];
    }
  }

  /** Paging through every button shows each row of the view once, in order. */
  lemma PagesCoverView(view: seq<Task>)
    requires view != []
    ensures PagesUpTo(view, PageCount(|view|)) == view
  {
    PagesUpToIsPrefix(view, PageCount(|view|));
  }

  /** The worked example: 30 rows make two buttons, rows 0-24 on page 1 and rows 25-29 on page 2. */
  lemma ThirtyRowsExample(view: seq<Task>)
    requires |view| == 30
    ensures PageCount(|view|) == 2
    ensures PageOf(view, 1) == Rows(view[0..25])
    ensures PageOf(view, 2) == Rows(view[25..30])
  {
    PageWindow(view, 1);
    PageWindow(view, 2);
  }
}
