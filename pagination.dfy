/** Pagination of the directory: five companies per page, the page window
    taken with `Array.prototype.slice`, `Math.ceil` for the page count and
    the clamping of the Prev and Next buttons. */
module Pagination {

  /** `companiesPerPage`. */
  const PerPage: int := 5

  function Min(a: int, b: int): int { if a <= b then a else b }
  function Max(a: int, b: int): int { if a >= b then a else b }

  /** How `slice` resolves an index against a list of length `n`: a negative
      index counts from the end, and the result is clamped to `0..n`. */
  function SliceIndex(i: int, n: nat): (r: nat)
    ensures r <= n
    ensures 0 <= i <= n ==> r == i
    ensures i > n ==> r == n
    ensures i < 0 ==> r == Max(n + i, 0)
  {
    if i < 0 then (if n + i < 0 then 0 else n + i)
    else if i > n then n
    else i
  }

  /** `s.slice(start, end)`. */
  function JsSlice<T>(s: seq<T>, start: int, end: int): (r: seq<T>)
    ensures |r| <= |s|
    ensures 0 <= start <= end <= |s| ==> r == s[start..end]
    ensures SliceIndex(start, |s|) >= SliceIndex(end, |s|) ==> r == []
  {
    var from := SliceIndex(start, |s|);
    var to := SliceIndex(end, |s|);
    if from < to then s[from..to] else []
  }

  /** `currentCompanies`: the records shown on page `page`. */
  function Window<T>(s: seq<T>, page: int): (r: seq<T>)
    ensures |r| <= PerPage
    ensures page >= 1 ==>
      r == if (page - 1) * PerPage < |s| then s[(page - 1) * PerPage .. Min(page * PerPage, |s|)] else []
  {
    var indexOfLast := page * PerPage;
    var indexOfFirst := indexOfLast - PerPage;
    JsSlice(s, indexOfFirst, indexOfLast)
  }

  /** `totalPages = Math.ceil(n / companiesPerPage)`: the fewest pages that
      hold `n` records, which is 0 for no records. */
  function TotalPages(n: nat): (r: nat)
    ensures r * PerPage >= n
    ensures r == 0 || (r - 1) * PerPage < n
    ensures r == 0 <==> n == 0
  {
    (n + PerPage - 1) / PerPage
  }

  /** `nextPage`: one page forward, but never past `totalPages`. */
  function Next(page: int, totalPages: nat): (r: int)
    ensures r <= totalPages && r <= page + 1
    ensures r == page + 1 || r == totalPages
  {
    Min(page + 1, totalPages)
  }

  /** `prevPage`: one page back, but never before page 1. */
  function Prev(page: int): (r: int)
    ensures r >= 1 && r >= page - 1
    ensures r == page - 1 || r == 1
  {
    Max(page - 1, 1)
  }

  /** Record `i` is shown on page `i / PerPage + 1`, at position `i % PerPage`:
      the pages taken together show every record, in order. */
  lemma WindowCovers<T>(s: seq<T>, i: int)
    requires 0 <= i < |s|
    ensures i % PerPage < |Window(s, i / PerPage + 1)|
    ensures Window(s, i / PerPage + 1)[i % PerPage] == s[i]
  {
    var p := i / PerPage + 1;
    assert (p - 1) * PerPage + i % PerPage == i;
  }

  /** Pages 1 to `TotalPages(|s|)` are the non-empty ones. */
  lemma WindowNonEmpty<T>(s: seq<T>, page: int)
    requires page >= 1
    ensures Window(s, page) != [] <==> page <= TotalPages(|s|)
  {
  }

  /** From a page in `1..totalPages`, Next and Prev stay in that range. */
  lemma NavigationStaysInRange(page: int, totalPages: nat)
    requires 1 <= page <= totalPages
    ensures 1 <= Next(page, totalPages) <= totalPages
    ensures 1 <= Prev(page) <= totalPages
  {
  }

  /** With no pages at all, Next goes to page 0. */
  lemma NextWithoutPages(page: int)
    requires page >= 0
    ensures Next(page, 0) == 0
  {
  }

  /** `disabled={currentPage === 1}` on Prev. */
  predicate PrevDisabled(page: int)
    ensures PrevDisabled(page) ==> Prev(page) == page
  {
    page == 1
  }

  /** `disabled={currentPage === totalPages}` on Next. */
  predicate NextDisabled(page: int, totalPages: nat)
    ensures NextDisabled(page, totalPages) ==> Next(page, totalPages) == page
  {
    page == totalPages
  }

  /** A click on an enabled Next, from a page no later than the last, moves
      one page on when there are pages and to page 0 when there are none; an
      enabled Prev moves one page back or, from page 0, to page 1. */
  lemma EnabledButtons(page: int, totalPages: nat)
    requires 0 <= page <= Max(1, totalPages)
    ensures !NextDisabled(page, totalPages) ==> Next(page, totalPages) == if totalPages == 0 then 0 else page + 1
    ensures !PrevDisabled(page) ==> Prev(page) == if page == 0 then 1 else page - 1
  {
  }
}
