/**
 * The stock-data page's pagination bar and volume column: the window of at most five page
 * buttons around the current page, the first/last buttons and their ellipses, the bounds
 * check on a page change, and the unit suffix of a traded volume.
 */
module StocksViewPage {

  function Min(a: int, b: int): int { if a <= b then a else b }
  function Max(a: int, b: int): int { if a >= b then a else b }

  /**
   * The first and last page button of the window: two pages either side of `page`, clipped
   * to `1..total`, then widened to five pages when the clipping cut it short.
   */
  function Window(page: int, total: int): (w: (int, int))
    ensures 1 <= page <= total ==> 1 <= w.0 <= page <= w.1 <= total
    ensures 1 <= page <= total ==> w.1 - w.0 + 1 == Min(5, total)
  {
    var (start, end) := (Max(1, page - 2), Min(total, page + 2));
    if end - start < 4 then
      if start == 1 then (start, Min(5, total)) else (Max(1, end - 4), end)
    else (start, end)
  }

  /** What `renderPagination` draws, from left to right. */
  datatype Controls = Controls(
    prevDisabled: bool,
    showFirst: bool, firstEllipsis: bool,
    pages: seq<int>,
    lastEllipsis: bool, showLast: bool,
    nextDisabled: bool)

  /** `renderPagination()` for the current `page` and `total_pages`. */
  method RenderPagination(page: int, totalPages: int) returns (c: Controls)
    ensures var (s, e) := Window(page, totalPages);
      && |c.pages| == (if s <= e then e - s + 1 else 0)
      && (forall i :: 0 <= i < |c.pages| ==> c.pages[i] == s + i)
      && (c.showFirst <==> s > 1) && (c.firstEllipsis <==> s > 2)
      && (c.showLast <==> e < totalPages) && (c.lastEllipsis <==> e < totalPages - 1)
    ensures c.prevDisabled <==> page <= 1
    ensures c.nextDisabled <==> page >= totalPages
    ensures 1 <= page <= totalPages ==>
      && |c.pages| == Min(5, totalPages) && page in c.pages
      && 1 <= c.pages[0] && c.pages[|c.pages| - 1] <= totalPages
  {
    var startPage := Max(1, page - 2);
    var endPage := Min(totalPages, page + 2);
    if endPage - startPage < 4 {
      if startPage == 1 {
        endPage := Min(5, totalPages);
      } else {
        startPage := Max(1, endPage - 4);
      }
    }
    var pages := [];
    var i := startPage;
    while i <= endPage
      invariant startPage <= i <= Max(startPage, endPage + 1)
      invariant |pages| == i - startPage
      invariant forall k :: 0 <= k < |pages| ==> pages[k] == startPage + k
    {
      pages := pages + [i];
      i := i + 1;
    }
    if 1 <= page <= totalPages {
      assert pages[page - startPage] == page;
    }
    c := Controls(page <= 1, startPage > 1, startPage > 1 && startPage > 2, pages,
                  endPage < totalPages && endPage < totalPages - 1, endPage < totalPages, page >= totalPages);
  }

  /** `handlePageChange(newPage)`: the page after the click; out-of-range requests are ignored. */
  function HandlePageChange(newPage: int, page: int, totalPages: int): (next: int)
    ensures next == newPage <==> (1 <= newPage <= totalPages || newPage == page)
    ensures next != newPage ==> next == page
  {
    if newPage >= 1 && newPage <= totalPages then newPage else page
  }

  /** A page change keeps the current page within `1..total_pages`. */
  lemma PageChangeStaysInBounds(newPage: int, page: int, totalPages: int)
    requires 1 <= page <= totalPages
    ensures 1 <= HandlePageChange(newPage, page, totalPages) <= totalPages
  {
  }

  /**
   * Every button the bar offers moves to its page: the window's pages, the first and the last
   * page, and Previous and Next while they are enabled.
   */
  lemma EveryButtonNavigates(page: int, totalPages: int, p: int)
    requires 1 <= page <= totalPages
    requires Window(page, totalPages).0 <= p <= Window(page, totalPages).1
    ensures HandlePageChange(p, page, totalPages) == p
    ensures HandlePageChange(1, page, totalPages) == 1
    ensures HandlePageChange(totalPages, page, totalPages) == totalPages
    ensures page > 1 ==> HandlePageChange(page - 1, page, totalPages) == page - 1
    ensures page < totalPages ==> HandlePageChange(page + 1, page, totalPages) == page + 1
  {
  }

  /** A disabled Previous or Next button would have been ignored anyway. */
  lemma DisabledButtonsAreNoOps(page: int, totalPages: int)
    requires 1 <= page
    ensures page <= 1 ==> HandlePageChange(page - 1, page, totalPages) == page
    ensures page >= totalPages ==> HandlePageChange(page + 1, page, totalPages) == page
  {
  }

  const THOUSAND: int := 1000
  const MILLION: int := 1000000

  /** The divisor a suffix stands for. */
  function Scale(suffix: string): int {
    if suffix == "M" then MILLION else if suffix == "K" then THOUSAND else 1
  }

  /**
   * `formatVolume(volume)`: the scaled number (before `toFixed(2)` rounds it) and its suffix,
   * "M" from a million, "K" from a thousand, none below.
   */
  function FormatVolume(volume: int): (f: (real, string))
    ensures f.1 == "M" <==> volume >= MILLION
    ensures f.1 == "K" <==> THOUSAND <= volume < MILLION
    ensures f.1 == "" <==> volume < THOUSAND
    ensures f.0 * Scale(f.1) as real == volume as real
    ensures f.1 != "" ==> f.0 >= 1.0
    ensures f.1 == "K" ==> f.0 < 1000.0
  {
    if volume >= MILLION then (volume as real / MILLION as real, "M")
    else if volume >= THOUSAND then (volume as real / THOUSAND as real, "K")
    else (volume as real, "")
  }
}
