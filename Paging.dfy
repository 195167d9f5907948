/** Pagination: the fixed page size, the 1-based page slice, the list of
    page numbers built by the render loop, and the Prev/Next guards. */
module Paging {

  /** `itemsPerPage`. */
  const PageSize: nat := 5

  function Min(a: int, b: int): int {
    if a <= b then a else b
  }

  function Max(a: int, b: int): int {
    if a <= b then b else a
  }

  /** How `Array.prototype.slice` resolves one bound: a negative index
      counts back from the end, and the result is clipped to `[0, len]`. */
  function SliceBound(i: int, len: nat): (r: nat)
    ensures r <= len
  {
    if i < 0 then Max(len + i, 0) else Min(i, len)
  }

  /** `s.slice(start, end)`: empty when the resolved bounds cross. */
  function JsSlice<T>(s: seq<T>, start: int, end: int): (r: seq<T>)
    ensures |r| <= |s|
    ensures 0 <= start <= end <= |s| ==> r == s[start..end]
    ensures SliceBound(start, |s|) + |r| <= |s|
    ensures r == s[SliceBound(start, |s|)..SliceBound(start, |s|) + |r|]
  {
    var lo, hi := SliceBound(start, |s|), SliceBound(end, |s|);
    if lo < hi then s[lo..hi] else []
  }

  /** `currentItems`: the slice from `indexOfFirstItem` to
      `indexOfLastItem` of the sorted records. */
  function Page<T>(s: seq<T>, p: int): (r: seq<T>)
    ensures |r| <= PageSize
    ensures p >= 1 ==> r == s[Min((p - 1) * PageSize, |s|)..Min(p * PageSize, |s|)]
  {
    JsSlice(s, p * PageSize - PageSize, p * PageSize)
  }

  /** `Math.ceil(filteredItems.length / itemsPerPage)`. */
  function PageCount(n: nat): (k: nat)
    ensures k * PageSize >= n
    ensures k > 0 ==> (k - 1) * PageSize < n
  {
    (n + PageSize - 1) / PageSize
  }

  /** The render loop that pushes `1, 2, ...` while the counter is at most
      the page count. */
  method BuildPageNumbers(filteredCount: nat) returns (pageNumbers: seq<int>)
    ensures |pageNumbers| == PageCount(filteredCount)
    ensures forall j :: 0 <= j < |pageNumbers| ==> pageNumbers[j] == j + 1
  {
    pageNumbers := [];
    var i := 1;
    while i <= PageCount(filteredCount)
      invariant 1 <= i <= PageCount(filteredCount) + 1
      invariant |pageNumbers| == i - 1
      invariant forall j :: 0 <= j < |pageNumbers| ==> pageNumbers[j] == j + 1
    {
      pageNumbers := pageNumbers + [i];
      i := i + 1;
    }
  }

  /** With no matching record there is no page number at all. */
  lemma NoPagesWhenEmpty()
    ensures PageCount(0) == 0
  {
  }

  /** Pages 1 to `k` laid end to end. */
  ghost function Pages<T>(s: seq<T>, k: nat): seq<T> {
    if k == 0 then [] else Pages(s, k - 1) + Page(s, k)
  }

  lemma {:induction false} PagesArePrefix<T>(s: seq<T>, k: nat)
    ensures Pages(s, k) == s[..Min(k * PageSize, |s|)]
  {
    if k > 0 {
      PagesArePrefix(s, k - 1);
    }
  }

  /** The pages listed by the page numbers hold every record exactly once,
      in order. */
  lemma PagesPartition<T>(s: seq<T>)
    ensures Pages(s, PageCount(|s|)) == s
  {
    PagesArePrefix(s, PageCount(|s|));
  }

  /** Every listed page but the last is full; the last holds the rest. */
  lemma PageSizes<T>(s: seq<T>, p: int)
    requires 1 <= p <= PageCount(|s|)
    ensures p < PageCount(|s|) ==> |Page(s, p)| == PageSize
    ensures p == PageCount(|s|) ==> |Page(s, p)| == |s| - (p - 1) * PageSize > 0
  {
  }

  /** A page past the data is empty; slicing it raises no error. */
  lemma PageBeyondData<T>(s: seq<T>, p: int)
    requires p > PageCount(|s|)
    ensures Page(s, p) == []
  {
  }

  /** Prev is disabled on the first page. */
  predicate PrevDisabled(currentPage: int) {
    currentPage == 1
  }

  /** Next is disabled when the current page is the last page number. */
  predicate NextDisabled(currentPage: int, filteredCount: nat) {
    currentPage == PageCount(filteredCount)
  }

  /** With nothing to show there is no last page, so Next stays enabled on
      page 1 and every page after it. */
  lemma NextEnabledWhenEmpty(currentPage: int)
    requires currentPage >= 1
    ensures !NextDisabled(currentPage, 0)
  {
  }

  /** Seven records: two full-and-partial pages, and a third that is
      empty. */
  lemma SevenRecords<T>(s: seq<T>)
    requires |s| == 7
    ensures PageCount(|s|) == 2
    ensures Page(s, 1) == s[..5] && Page(s, 2) == s[5..] && Page(s, 3) == []
  {
  }
}
