/**
 * Pagination of the food catalogue: the page clamp, offset, page count and
 * "showing x to y" range of index.php and api/search_foods.php, the page
 * fields of the `get_foods` API action, the page-number window of index.php and
 * script.js, and the browser's current-page state.
 */
module Pagination {
  import opened Wrappers
  import opened Config

  /** `isset($_GET['page']) ? max(1, intval($_GET['page'])) : 1`. */
  function ClampPage(pageParam: Option<int>): (page: int)
    ensures page >= 1
    ensures pageParam.Some? && pageParam.value >= 1 ==> page == pageParam.value
    ensures (pageParam.None? || pageParam.value < 1) ==> page == 1
  {
    if pageParam.Some? then (if pageParam.value > 1 then pageParam.value else 1) else 1
  }

  /** `($page - 1) * $perPage`: the number of rows before the page. */
  function Offset(page: int, perPage: int): int {
    (page - 1) * perPage
  }

  /** PHP `ceil($a / $b)` for a non-zero divisor. */
  function CeilDiv(a: int, b: int): (r: int)
    requires b != 0
  {
    -((-(a as real) / b as real).Floor)
  }

  /** Casting a product to a real multiplies the casts. */
  lemma RealOfProduct(x: int, y: int)
    ensures (x * y) as real == x as real * y as real
  {
  }

  /** For a positive divisor, Dafny's integer quotient is the floor of the real quotient. */
  lemma FloorIsDiv(n: int, b: int)
    requires b > 0
    ensures (n as real / b as real).Floor == n / b
  {
    var d, m := n / b, n % b;
    assert n == d * b + m && 0 <= m < b;
    RealOfProduct(d, b);
    var B := b as real;
    assert n as real == d as real * B + m as real;
    assert n as real / B == d as real + m as real / B;
    assert 0.0 <= m as real / B < 1.0;
  }

  /** For a positive divisor the page count is the least number of pages of `b` rows holding `a` rows. */
  lemma CeilDivPages(a: nat, b: int)
    requires b > 0
    ensures CeilDiv(a, b) >= 0
    ensures (CeilDiv(a, b) - 1) * b < a <= CeilDiv(a, b) * b
    ensures a == 0 <==> CeilDiv(a, b) == 0
  {
    var n: int := -(a as int);
    FloorIsDiv(n, b);
    var d, m := n / b, n % b;
    assert CeilDiv(a, b) == -d;
    assert n == d * b + m && 0 <= m < b;
    assert (-d) * b == -(d * b) && (-d - 1) * b == -(d * b) - b;
    MulSign(d, b);
    MulSign(-d - 1, b);
  }

  lemma MulSign(x: int, y: int)
    requires y > 0
    ensures x >= 0 ==> x * y >= 0
    ensures x > 0 ==> x * y > 0
  {
  }

  /** The page fields shown by index.php and returned by api/search_foods.php. */
  datatype PageInfo = PageInfo(currentPage: int, totalPages: int, totalCount: nat, itemsPerPage: int, showingStart: int, showingEnd: int)

  /** The arithmetic of index.php (14-26) and api/search_foods.php (15-30). */
  function PageInfoOf(pageParam: Option<int>, totalCount: nat): (info: PageInfo)
    ensures info.currentPage == ClampPage(pageParam) && info.itemsPerPage == ItemsPerPage
    ensures info.totalPages == CeilDiv(totalCount, ItemsPerPage)
    ensures info.showingStart == (if totalCount > 0 then Offset(info.currentPage, ItemsPerPage) + 1 else 0)
    ensures info.showingEnd <= totalCount
    ensures info.showingEnd == Offset(info.currentPage, ItemsPerPage) + ItemsPerPage ||
            info.showingEnd == totalCount
  {
    var page := ClampPage(pageParam);
    var offset := Offset(page, ItemsPerPage);
    var end := if offset + ItemsPerPage < totalCount then offset + ItemsPerPage else totalCount;
    PageInfo(page, CeilDiv(totalCount, ItemsPerPage), totalCount, ItemsPerPage,
      if totalCount > 0 then offset + 1 else 0, end)
  }

  /**
   * On a page that exists, "showing x to y" names exactly the rows of that
   * page: 1 <= x <= y <= total, with y - x + 1 rows, a full page unless it is
   * the last.
   */
  lemma ShowingRangeOnExistingPage(pageParam: Option<int>, totalCount: nat)
    requires ClampPage(pageParam) <= CeilDiv(totalCount, ItemsPerPage)
    ensures var info := PageInfoOf(pageParam, totalCount);
      1 <= info.showingStart <= info.showingEnd <= totalCount &&
      (info.currentPage < info.totalPages ==> info.showingEnd - info.showingStart + 1 == ItemsPerPage)
  {
    CeilDivPages(totalCount, ItemsPerPage);
  }

  /** The pagination section (and so the page-number window) is rendered only when there is more than one page. */
  predicate ShowPagination(info: PageInfo) {
    info.totalPages > 1
  }

  /** An answer of api/search_foods.php. */
  datatype SearchResponse =
    | SearchOk(foods: seq<string>, pagination: PageInfo, searchTerm: string)
    | SearchError(code: int, error: string)

  /**
   * api/search_foods.php: the clamped page, the trimmed search term echoed back,
   * the page fields; any exception (here: `failed`) gives 500 with the fixed
   * message. The rows of the page come from the database query.
   */
  function SearchFoods(trimmedSearch: string, pageParam: Option<int>, pageRows: seq<string>, totalCount: nat, failed: bool): (r: SearchResponse)
    ensures r.SearchError? <==> failed
    ensures r.SearchError? ==> r.code == 500 && r.error == "Failed to fetch food data"
    ensures r.SearchOk? ==> r.pagination == PageInfoOf(pageParam, totalCount) && r.searchTerm == trimmedSearch && r.foods == pageRows
    ensures r.SearchOk? ==> r.pagination.currentPage >= 1
  {
    if failed then SearchError(500, "Failed to fetch food data")
    else SearchOk(pageRows, PageInfoOf(pageParam, totalCount), trimmedSearch)
  }

  /** The `pagination` of the `get_foods` API action, and the offset of its query. */
  datatype FoodsPage = FoodsPage(offset: int, currentPage: int, totalPages: int, totalItems: nat, itemsPerPage: int)

  /**
   * controllers/api.php `getFoods`: the page is taken as given (not clamped),
   * the limit defaults to ITEMS_PER_PAGE; a limit of 0 makes `ceil($total /
   * $limit)` a division by zero, which nothing catches (None).
   */
  function GetFoodsPage(pageParam: Option<int>, limitParam: Option<int>, total: nat): (r: Option<FoodsPage>)
    ensures r.None? <==> limitParam.GetOr(ItemsPerPage) == 0
    ensures r.Some? ==> r.value.currentPage == pageParam.GetOr(1) && r.value.itemsPerPage == limitParam.GetOr(ItemsPerPage)
    ensures r.Some? ==> r.value.offset == Offset(r.value.currentPage, r.value.itemsPerPage)
    ensures r.Some? ==> r.value.totalPages == CeilDiv(total, r.value.itemsPerPage) && r.value.totalItems == total
  {
    var page := pageParam.GetOr(1);
    var limit := limitParam.GetOr(ItemsPerPage);
    if limit == 0 then None
    else Some(FoodsPage(Offset(page, limit), page, CeilDiv(total, limit), total, limit))
  }

  // ---------------------------------------------------------------------------
  // The page-number window.

  const MaxVisiblePages := 5

  /** `max(1, current - floor(5 / 2))`, then moved left when the window would run past the last page. */
  function WindowStart(current: int, totalPages: int): int {
    var start := if current - MaxVisiblePages / 2 > 1 then current - MaxVisiblePages / 2 else 1;
    var end := if totalPages < start + MaxVisiblePages - 1 then totalPages else start + MaxVisiblePages - 1;
    if end - start < MaxVisiblePages - 1 then (if end - MaxVisiblePages + 1 > 1 then end - MaxVisiblePages + 1 else 1) else start
  }

  /** `min(totalPages, start + 5 - 1)` for the first start. */
  function WindowEnd(current: int, totalPages: int): int {
    var start := if current - MaxVisiblePages / 2 > 1 then current - MaxVisiblePages / 2 else 1;
    if totalPages < start + MaxVisiblePages - 1 then totalPages else start + MaxVisiblePages - 1
  }

  /**
   * The window lies within the pages, holds min(5, totalPages) pages, holds the
   * current page when it exists, and is centred on it when there is room.
   */
  lemma WindowProperties(current: int, totalPages: int)
    requires totalPages >= 1
    ensures 1 <= WindowStart(current, totalPages) <= WindowEnd(current, totalPages) <= totalPages
    ensures WindowEnd(current, totalPages) - WindowStart(current, totalPages) + 1 ==
      (if totalPages < MaxVisiblePages then totalPages else MaxVisiblePages)
    ensures 1 <= current <= totalPages ==> WindowStart(current, totalPages) <= current <= WindowEnd(current, totalPages)
    ensures 3 <= current <= totalPages - 2 ==> WindowStart(current, totalPages) == current - 2
  {
  }

  /** An entry of the page-number bar. */
  datatype PageItem = PageLink(number: int, active: bool) | Ellipsis

  /** The links from `start` to `end`, the current one marked active. */
  function Links(start: int, end: int, current: int): (r: seq<PageItem>)
    requires start <= end + 1
    ensures |r| == end - start + 1
    ensures forall k :: 0 <= k < |r| ==> r[k] == PageLink(start + k, start + k == current)
  {
    seq(end - start + 1, k => PageLink(start + k, start + k == current))
  }

  /** Page 1, with an ellipsis when page 2 is also outside the window. */
  function Leading(start: int): seq<PageItem> {
    if start > 1 then [PageLink(1, false)] + (if start > 2 then [Ellipsis] else []) else []
  }

  /** The last page, with an ellipsis when the page before it is also outside the window. */
  function Trailing(end: int, totalPages: int): seq<PageItem> {
    if end < totalPages then (if end < totalPages - 1 then [Ellipsis] else []) + [PageLink(totalPages, false)] else []
  }

  /** The whole bar: nothing for a single page, else the first page, the window and the last page. */
  function PageItems(current: int, totalPages: int): seq<PageItem> {
    if totalPages <= 1 then []
    else
      var start := WindowStart(current, totalPages);
      var end := WindowEnd(current, totalPages);
      WindowProperties(current, totalPages);
      Leading(start) + Links(start, end, current) + Trailing(end, totalPages)
  }

  /** The `for ($i = $startPage; $i <= $endPage; $i++)` loop: one link per page of the window. */
  method AppendLinks(prefix: seq<PageItem>, startPage: int, endPage: int, current: int) returns (items: seq<PageItem>)
    requires startPage <= endPage + 1
    ensures items == prefix + Links(startPage, endPage, current)
  {
    items := prefix;
    var i := startPage;
    while i <= endPage
      invariant startPage <= i <= endPage + 1
      invariant items == prefix + Links(startPage, i - 1, current)
    {
      items := items + [PageLink(i, i == current)];
      i := i + 1;
    }
  }

  /** `updatePaginationControls` (script.js) and the page-number block of index.php. */
  method PageNumbers(current: int, totalPages: int) returns (items: seq<PageItem>)
    ensures items == PageItems(current, totalPages)
  {
    items := [];
    if totalPages <= 1 {
      return;
    }
    var startPage := if current - MaxVisiblePages / 2 > 1 then current - MaxVisiblePages / 2 else 1;
    var endPage := if totalPages < startPage + MaxVisiblePages - 1 then totalPages else startPage + MaxVisiblePages - 1;
    if endPage - startPage < MaxVisiblePages - 1 {
      startPage := if endPage - MaxVisiblePages + 1 > 1 then endPage - MaxVisiblePages + 1 else 1;
    }
    assert startPage == WindowStart(current, totalPages) && endPage == WindowEnd(current, totalPages);
    WindowProperties(current, totalPages);
    if startPage > 1 {
      items := items + [PageLink(1, false)];
      if startPage > 2 {
        items := items + [Ellipsis];
      }
    }
    assert items == Leading(startPage);
    items := AppendLinks(items, startPage, endPage, current);
    assert items == Leading(startPage) + Links(startPage, endPage, current);
    ghost var body := items;
    if endPage < totalPages {
      if endPage < totalPages - 1 {
        items := items + [Ellipsis];
      }
      items := items + [PageLink(totalPages, false)];
    }
    assert items == body + Trailing(endPage, totalPages);
  }

  /** A link of the bar goes to an existing page, and only the current page's link is active. */
  predicate GoodLink(item: PageItem, current: int, totalPages: int) {
    item.PageLink? ==> 1 <= item.number <= totalPages && (item.active ==> item.number == current)
  }

  /** With more than one page the bar starts with page 1 and ends with the last page. */
  lemma PageItemsEnds(current: int, totalPages: int)
    requires totalPages > 1
    ensures var items := PageItems(current, totalPages);
      |items| > 0 && items[0] == PageLink(1, items[0].active) &&
      items[|items| - 1] == PageLink(totalPages, items[|items| - 1].active)
  {
    WindowProperties(current, totalPages);
    var start := WindowStart(current, totalPages);
    var end := WindowEnd(current, totalPages);
    var lead, links, trail := Leading(start), Links(start, end, current), Trailing(end, totalPages);
    var items := PageItems(current, totalPages);
    assert items == lead + links + trail;
    if start > 1 {
      assert items[0] == lead[0];
    } else {
      assert items[0] == links[0];
    }
    if end < totalPages {
      assert items[|items| - 1] == trail[|trail| - 1];
    } else {
      assert trail == [];
      assert items[|items| - 1] == links[|links| - 1];
    }
  }

  /** Every link of the bar is good. */
  lemma PageItemsGood(current: int, totalPages: int)
    requires totalPages > 1
    ensures forall item :: item in PageItems(current, totalPages) ==> GoodLink(item, current, totalPages)
  {
    WindowProperties(current, totalPages);
    var start := WindowStart(current, totalPages);
    var end := WindowEnd(current, totalPages);
    var lead, links, trail := Leading(start), Links(start, end, current), Trailing(end, totalPages);
    assert PageItems(current, totalPages) == lead + links + trail;
    forall item | item in links
      ensures GoodLink(item, current, totalPages)
    {
      var k :| 0 <= k < |links| && links[k] == item;
    }
  }

  /**
   * With more than one page the bar always starts with page 1 and ends with the
   * last page, every link is to an existing page, only the current page is
   * active, and the current page, when it exists, is shown active.
   */
  lemma PageItemsReachEnds(current: int, totalPages: int)
    requires totalPages > 1
    ensures var items := PageItems(current, totalPages);
      |items| > 0 && items[0].PageLink? && items[0].number == 1 &&
      items[|items| - 1].PageLink? && items[|items| - 1].number == totalPages
    ensures var items := PageItems(current, totalPages);
      forall k :: 0 <= k < |items| && items[k].PageLink? ==> 1 <= items[k].number <= totalPages
    ensures var items := PageItems(current, totalPages);
      forall k :: 0 <= k < |items| && items[k].PageLink? && items[k].active ==> items[k].number == current
    ensures 1 <= current <= totalPages ==> PageLink(current, true) in PageItems(current, totalPages)
  {
    PageItemsEnds(current, totalPages);
    PageItemsGood(current, totalPages);
    var items := PageItems(current, totalPages);
    assert forall k :: 0 <= k < |items| ==> GoodLink(items[k], current, totalPages);
    if 1 <= current <= totalPages {
      WindowProperties(current, totalPages);
      var start := WindowStart(current, totalPages);
      var links := Links(start, WindowEnd(current, totalPages), current);
      assert links[current - start] == PageLink(current, true);
      assert items == Leading(start) + links + Trailing(WindowEnd(current, totalPages), totalPages);
    }
  }

  // ---------------------------------------------------------------------------
  // The browser's page state (script.js).

  /** Index.php's Previous link and the enabled Previous button. */
  predicate HasPrevious(current: int) {
    current > 1
  }

  /** Index.php's Next link and the enabled Next button. */
  predicate HasNext(current: int, totalPages: int) {
    current < totalPages
  }

  /** The `currentPage` and `totalPages` globals of script.js. */
  class Pager {
    var currentPage: int
    var totalPages: int

    constructor ()
      ensures currentPage == 1 && totalPages == 1
    {
      currentPage := 1;
      totalPages := 1;
    }

    /** The current page exists. */
    predicate InRange()
      reads this
    {
      1 <= currentPage <= totalPages
    }

    /** The Previous button is disabled exactly when index.php shows no Previous link. */
    predicate PreviousDisabled()
      reads this
      ensures PreviousDisabled() <==> !HasPrevious(currentPage)
    {
      currentPage <= 1
    }

    /** The Next button is disabled exactly when index.php shows no Next link. */
    predicate NextDisabled()
      reads this
      ensures NextDisabled() <==> !HasNext(currentPage, totalPages)
    {
      currentPage >= totalPages
    }

    /** The page fields of an API answer replace both globals. */
    method ApplyPagination(current: int, total: int)
      modifies this
      ensures currentPage == current && totalPages == total
    {
      totalPages := total;
      currentPage := current;
    }

    /**
     * `goToPage(page)`: moves (and reloads) only to an existing page other than
     * the current one; otherwise nothing changes.
     */
    method GoToPage(page: int) returns (reload: bool)
      modifies this
      ensures reload <==> 1 <= page <= old(totalPages) && page != old(currentPage)
      ensures currentPage == (if reload then page else old(currentPage))
      ensures totalPages == old(totalPages)
      ensures reload ==> InRange()
      ensures old(InRange()) ==> InRange()
    {
      reload := page >= 1 && page <= totalPages && page != currentPage;
      if reload {
        currentPage := page;
      }
    }

    /** `goToPreviousPage()`: one page back when there is a Previous page. */
    method GoToPreviousPage() returns (reload: bool)
      modifies this
      ensures old(InRange()) ==> (reload <==> HasPrevious(old(currentPage)))
      ensures currentPage == (if reload then old(currentPage) - 1 else old(currentPage))
      ensures totalPages == old(totalPages)
    {
      reload := false;
      if currentPage > 1 {
        reload := GoToPage(currentPage - 1);
      }
    }

    /** `goToNextPage()`: one page on when there is a Next page. */
    method GoToNextPage() returns (reload: bool)
      modifies this
      ensures old(InRange()) ==> (reload <==> HasNext(old(currentPage), old(totalPages)))
      ensures currentPage == (if reload then old(currentPage) + 1 else old(currentPage))
      ensures totalPages == old(totalPages)
    {
      reload := false;
      if currentPage < totalPages {
        reload := GoToPage(currentPage + 1);
      }
    }
  }
}
