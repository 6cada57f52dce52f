/** The paginated table: the page count, the rows of the current page, and the Prev/Next
    buttons that move between pages. Rows are abstract; the page size is a positive whole
    number. */
module DataTable {

  /** `Math.ceil(data.length / pageSize)`. */
  function TotalPages(count: nat, pageSize: nat): (r: nat)
    requires pageSize >= 1
    ensures (r - 1) * pageSize < count <= r * pageSize || (r == 0 && count == 0)
    ensures r == 0 <==> count == 0
  {
    (count + pageSize - 1) / pageSize
  }

  function Min(a: nat, b: nat): nat { if a <= b then a else b }

  /** `xs.slice(from, to)` for non-negative bounds: both clamped to the length. */
  function Slice<T>(xs: seq<T>, from: nat, to: nat): (r: seq<T>)
    ensures from <= to <= |xs| ==> r == xs[from..to]
    ensures |r| <= if from <= to then to - from else 0
    ensures |xs| <= from ==> r == []
  {
    var lo := Min(from, |xs|);
    var hi := Min(to, |xs|);
    if lo <= hi then xs[lo..hi] else []
  }

  /** The rows shown on a 1-based page: `data.slice((page - 1) * size, (page - 1) * size + size)`. */
  function PageRows<T>(data: seq<T>, page: nat, pageSize: nat): (r: seq<T>)
    requires page >= 1 && pageSize >= 1
    ensures |r| <= pageSize
    ensures (page - 1) * pageSize < |data| ==> |r| > 0
    ensures |data| <= (page - 1) * pageSize ==> r == []
  {
    var start := (page - 1) * pageSize;
    Slice(data, start, start + pageSize)
  }

  /** Row `i` of a page is row `(page - 1) * size + i` of the data. */
  lemma PageRowIsDataRow<T>(data: seq<T>, page: nat, pageSize: nat, i: nat)
    requires page >= 1 && pageSize >= 1 && i < |PageRows(data, page, pageSize)|
    ensures (page - 1) * pageSize + i < |data|
    ensures PageRows(data, page, pageSize)[i] == data[(page - 1) * pageSize + i]
  {
  }

  /** A page within the page count has rows; a page past it has none ("No data available"). */
  lemma PagesWithRows<T>(data: seq<T>, page: nat, pageSize: nat)
    requires page >= 1 && pageSize >= 1
    ensures |PageRows(data, page, pageSize)| > 0 <==> page <= TotalPages(|data|, pageSize)
  {
    var total := TotalPages(|data|, pageSize);
    if page <= total {
      assert (page - 1) * pageSize <= (total - 1) * pageSize;
    } else {
      assert page - 1 >= total;
      assert (page - 1) * pageSize >= total * pageSize;
    }
  }

  /** The rows of pages `1..n`, in page order. */
  function FirstPages<T>(data: seq<T>, n: nat, pageSize: nat): seq<T>
    requires pageSize >= 1
  {
    if n == 0 then [] else FirstPages(data, n - 1, pageSize) + PageRows(data, n, pageSize)
  }

  /** The first `n` pages are the data's first `n * size` rows (all of them once past the end). */
  lemma {:induction false} FirstPagesArePrefix<T>(data: seq<T>, n: nat, pageSize: nat)
    requires pageSize >= 1
    ensures FirstPages(data, n, pageSize) == data[..Min(n * pageSize, |data|)]
  {
    if n > 0 {
      FirstPagesArePrefix(data, n - 1, pageSize);
      var start := (n - 1) * pageSize;
      assert n * pageSize == start + pageSize;
      if start <= |data| {
        var hi := Min(start + pageSize, |data|);
        assert data[..start] + data[start..hi] == data[..hi];
      }
    }
  }

  /** Paging through every page shows every row exactly once, in order. */
  lemma PagesCoverData<T>(data: seq<T>, pageSize: nat)
    requires pageSize >= 1
    ensures FirstPages(data, TotalPages(|data|, pageSize), pageSize) == data
  {
    FirstPagesArePrefix(data, TotalPages(|data|, pageSize), pageSize);
  }

  /** The pages of the data, one sequence of rows per page, as the table walks them. */
  method Paginate<T>(data: seq<T>, pageSize: nat) returns (pages: seq<seq<T>>)
    requires pageSize >= 1
    ensures |pages| == TotalPages(|data|, pageSize)
    ensures forall p :: 0 <= p < |pages| ==> 0 < |pages[p]| <= pageSize
    ensures Flatten(pages) == data
  {
    var total := TotalPages(|data|, pageSize);
    pages := [];
    var page := 1;
    while page <= total
      invariant 1 <= page <= total + 1
      invariant |pages| == page - 1
      invariant forall p :: 0 <= p < |pages| ==> 0 < |pages[p]| <= pageSize
      invariant Flatten(pages) == FirstPages(data, page - 1, pageSize)
    {
      var rows := PageRows(data, page, pageSize);
      PagesWithRows(data, page, pageSize);
      FlattenAppend(pages, rows);
      pages := pages + [rows];
      page := page + 1;
    }
    PagesCoverData(data, pageSize);
  }

  function Flatten<T>(xss: seq<seq<T>>): seq<T> {
    if xss == [] then [] else Flatten(xss[..|xss| - 1]) + xss[|xss| - 1]
  }

  lemma FlattenAppend<T>(xss: seq<seq<T>>, xs: seq<T>)
    ensures Flatten(xss + [xs]) == Flatten(xss) + xs
  {
    assert (xss + [xs])[..|xss|] == xss;
  }

  // ---------------------------------------------------------------------------
  // the pager

  /** The pager is shown only when there is more than one page. */
  function PagerShown(count: nat, pageSize: nat): (r: bool)
    requires pageSize >= 1
    ensures r <==> count > pageSize
  {
    MoreThanOnePage(count, pageSize);
    TotalPages(count, pageSize) > 1
  }

  lemma MoreThanOnePage(count: nat, pageSize: nat)
    requires pageSize >= 1
    ensures TotalPages(count, pageSize) > 1 <==> count > pageSize
  {
    var r := TotalPages(count, pageSize);
    if r >= 2 {
      var k: nat := r - 2;
      assert (r - 1) * pageSize == pageSize + k * pageSize;
    } else if r == 1 {
      assert r * pageSize == pageSize;
    }
  }

  /** "Prev": disabled on page 1, otherwise one page back. */
  function Prev(page: int): (r: int)
    ensures page == 1 ==> r == page
    ensures page != 1 ==> r == page - 1
  {
    if page == 1 then page else page - 1
  }

  /** "Next": disabled on the last page, otherwise one page on. */
  function Next(page: int, total: nat): (r: int)
    ensures page == total ==> r == page
    ensures page != total ==> r == page + 1
  {
    if page == total then page else page + 1
  }

  /** While the page is a real page, the buttons keep it one: 1 <= page <= total. */
  lemma ButtonsKeepPageInRange(page: int, total: nat)
    requires 1 <= page <= total
    ensures 1 <= Prev(page) <= total && 1 <= Next(page, total) <= total
  {
  }

  /** Next then Prev comes back, away from the last page. */
  lemma PrevUndoesNext(page: int, total: nat)
    requires 1 <= page < total
    ensures Prev(Next(page, total)) == page
  {
  }

  /** When the data shrinks under the current page, the disabled check compares for equality
      only, so "Next" stays enabled and moves further past the last page. */
  lemma NextPastTheEnd(page: int, total: nat)
    requires page > total
    ensures Next(page, total) == page + 1 && Next(page, total) > total
  {
  }
}
