/** The page window both list handlers hand to `range(from, to)`, and the
    pagination block they report back. */
module Paging {
  import opened Common
  import opened Arith

  /** An inclusive index range, as `range(from, to)` takes it. */
  datatype Window = Window(first: int, last: int)

  /** `from = (page - 1) * limit`, `to = from + limit - 1` */
  function PageWindow(page: int, limit: int): (w: Window)
    requires page >= 1 && limit >= 1
    ensures 0 <= w.first
    ensures w.last - w.first + 1 == limit
  {
    var from := (page - 1) * limit;
    Window(from, from + limit - 1)
  }

  /** Consecutive pages tile the index line: page `p + 1` starts right
      after page `p` ends. */
  lemma PagesTile(page: int, limit: int)
    requires page >= 1 && limit >= 1
    ensures PageWindow(page + 1, limit).first == PageWindow(page, limit).last + 1
  {
  }

  /** Every index lies on exactly one page, the page `i / limit + 1`. */
  lemma {:induction false} IndexOnOnePage(i: int, limit: int, page: int)
    requires 0 <= i && page >= 1 && limit >= 1
    ensures PageWindow(page, limit).first <= i <= PageWindow(page, limit).last
            <==> page == i / limit + 1
  {
    var w := PageWindow(page, limit);
    if w.first <= i <= w.last {
      DivBetween(i, limit, page - 1);
    }
    if page == i / limit + 1 {
      assert i == (i / limit) * limit + i % limit;
    }
  }

  /** `range(from, to)` on a result set: the rows at those positions, cut at
      the end of the table (a window past the end yields no rows). */
  function Slice<T>(rows: seq<T>, w: Window): (r: seq<T>)
    requires 0 <= w.first <= w.last + 1
    ensures |r| == if w.first >= |rows| then 0
                   else if w.last + 1 <= |rows| then w.last + 1 - w.first
                   else |rows| - w.first
    ensures forall k :: 0 <= k < |r| ==> r[k] == rows[w.first + k]
  {
    if w.first >= |rows| then []
    else if w.last + 1 <= |rows| then rows[w.first..w.last + 1]
    else rows[w.first..]
  }

  /** `Math.ceil(total / limit)` for a non-negative total. */
  function TotalPages(total: nat, limit: int): (n: nat)
    requires limit >= 1
    ensures (n - 1) * limit < total <= n * limit
  {
    var n := (total + limit - 1) / limit;
    assert total + limit - 1 == n * limit + (total + limit - 1) % limit;
    n
  }

  datatype Pagination = Pagination(page: int, limit: int, total: nat, totalPages: nat)

  /** The reported block: `total: count || 0`,
      `total_pages: Math.ceil((count || 0) / limit)`. */
  function Paginate(page: int, limit: int, count: Option<nat>): (p: Pagination)
    requires limit >= 1
    ensures p.page == page && p.limit == limit
    ensures count.None? ==> p.total == 0 && p.totalPages == 0
    ensures count.Some? ==> p.total == count.value
    ensures (p.totalPages - 1) * limit < p.total <= p.totalPages * limit
  {
    var total := count.GetOr(0);
    Pagination(page, limit, total, TotalPages(total, limit))
  }

  /** With N rows and page size L, the last page `ceil(N / L)` holds the
      remainder (N mod L, or L when L divides N) and the page after it is
      empty. */
  lemma {:induction false} LastPageHoldsRemainder<T>(rows: seq<T>, limit: int)
    requires limit >= 1 && |rows| > 0
    ensures var last := TotalPages(|rows|, limit);
            && last >= 1
            && |Slice(rows, PageWindow(last, limit))|
               == (if |rows| % limit == 0 then limit else |rows| % limit)
            && Slice(rows, PageWindow(last + 1, limit)) == []
  {
    var n := |rows|;
    var last := TotalPages(n, limit);
    var first := (last - 1) * limit;
    assert last * limit == first + limit;
    assert PageWindow(last, limit) == Window(first, first + limit - 1);
    assert first < n <= first + limit;
    var r := n - first;
    if r < limit {
      DivBetween(n, limit, last - 1);
      assert n % limit == r;
    } else {
      DivBetween(n, limit, last);
      assert n % limit == 0;
    }
    assert PageWindow(last + 1, limit).first == last * limit;
  }

  /** With the count known, a page holds rows exactly when it is numbered at
      most `total_pages`. */
  lemma PageFilledIffWithinTotal<T>(rows: seq<T>, page: int, limit: int)
    requires page >= 1 && limit >= 1
    ensures |Slice(rows, PageWindow(page, limit))| > 0 <==> page <= TotalPages(|rows|, limit)
  {
    var n := TotalPages(|rows|, limit);
    var first := PageWindow(page, limit).first;
    assert first == (page - 1) * limit;
    if page < n {
      MulAtLeast(n - page, limit);
      assert (n - 1) * limit - first == (n - page) * limit;
    } else if page > n {
      if page - 1 > n {
        MulAtLeast(page - 1 - n, limit);
        assert first - n * limit == (page - 1 - n) * limit;
      }
    }
  }
}
