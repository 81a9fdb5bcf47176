/** Pagination in the frontend (frontend/src/usePagination.js,
    frontend/src/Pagination.jsx): the number of pages for the backend's total,
    the current page, the result window each page requests and the rule that
    hides the control when there is nothing to page through. */
module Pagination {
  import opened Wrappers
  import opened FetchMovies

  /** The total as the frontend holds it: null until a search answered. */
  function TotalOrZero(totalItems: Option<nat>): nat {
    totalItems.GetOr(0)
  }

  /** `Math.ceil(totalItems / itemsPerPage)`, where null divides as 0: the
      fewest pages of `itemsPerPage` items that hold every item. */
  function TotalPages(totalItems: Option<nat>, itemsPerPage: nat): (pages: nat)
    requires itemsPerPage > 0
    ensures pages * itemsPerPage >= TotalOrZero(totalItems)
    ensures TotalOrZero(totalItems) > 0 ==> (pages - 1) * itemsPerPage < TotalOrZero(totalItems)
    ensures TotalOrZero(totalItems) == 0 ==> pages == 0
  {
    var t := TotalOrZero(totalItems);
    var q := (t + itemsPerPage - 1) / itemsPerPage;
    var r := (t + itemsPerPage - 1) % itemsPerPage;
    assert t + itemsPerPage - 1 == q * itemsPerPage + r;
    assert q * itemsPerPage == t + itemsPerPage - 1 - r;
    assert (q - 1) * itemsPerPage == q * itemsPerPage - itemsPerPage;
    q
  }

  /** The current page, which a new component starts at 1. */
  class Pager {
    var currentPage: int

    constructor ()
      ensures currentPage == 1
    {
      currentPage := 1;
    }

    /** `setPage(page)` */
    method SetPage(page: int)
      modifies this
      ensures currentPage == page
    {
      currentPage := page;
    }
  }

  /** `(newPage - 1) * ITEMS_PER_PAGE`: the index of the first result of a page. */
  function PageOffset(page: int, itemsPerPage: nat): int {
    (page - 1) * itemsPerPage
  }

  /** The page whose window holds result `i`. */
  function PageOf(i: nat, itemsPerPage: nat): (page: nat)
    requires itemsPerPage > 0
    ensures page >= 1
    ensures PageOffset(page, itemsPerPage) <= i < PageOffset(page, itemsPerPage) + itemsPerPage
  {
    var q := i / itemsPerPage;
    assert i == q * itemsPerPage + i % itemsPerPage;
    q + 1
  }

  /** `if (!totalItems) return null`: the control shows only for a total that
      is neither null nor 0. */
  predicate IsShown(totalItems: Option<nat>) {
    totalItems.Some? && totalItems.value != 0
  }

  /** `onPageChange(e, newPage)`: the page becomes `newPage`, then the search
      is repeated for that page's window. */
  method OnPageChange(pager: Pager, newPage: int, itemsPerPage: nat, backendUrl: string, title: string, year: string)
    returns (url: string)
    modifies pager
    ensures pager.currentPage == newPage
    ensures url == SearchUrl(backendUrl, title, year, Some(PageOffset(newPage, itemsPerPage)), Some(itemsPerPage))
  {
    pager.SetPage(newPage);
    url := BuildSearchUrl(backendUrl, title, year, Some((newPage - 1) * itemsPerPage), Some(itemsPerPage));
  }

  // ---------------------------------------------------------------------------
  // Properties

  /** The first page starts at the first result, and each page's window
      starts right where the previous one ends. */
  lemma AdjacentWindows(page: int, itemsPerPage: nat)
    ensures PageOffset(1, itemsPerPage) == 0
    ensures PageOffset(page + 1, itemsPerPage) == PageOffset(page, itemsPerPage) + itemsPerPage
  {
  }

  /** The windows of two different pages do not overlap. */
  lemma {:induction false} DisjointWindows(p: int, q: int, itemsPerPage: nat)
    requires p < q
    ensures PageOffset(p, itemsPerPage) + itemsPerPage <= PageOffset(q, itemsPerPage)
  {
    assert PageOffset(q, itemsPerPage) - PageOffset(p, itemsPerPage) == (q - p) * itemsPerPage;
    assert (q - p) * itemsPerPage >= 1 * itemsPerPage by {
      MultiplyMonotone(1, q - p, itemsPerPage);
    }
  }

  lemma {:induction false} MultiplyMonotone(a: int, b: int, c: nat)
    requires a <= b
    ensures a * c <= b * c
  {
    assert b * c - a * c == (b - a) * c;
  }

  /** Every result is in the window of exactly one page, and that page is
      among the pages the control offers. */
  lemma ResultOnOnePage(i: nat, page: int, totalItems: Option<nat>, itemsPerPage: nat)
    requires itemsPerPage > 0 && i < TotalOrZero(totalItems)
    ensures 1 <= PageOf(i, itemsPerPage) <= TotalPages(totalItems, itemsPerPage)
    ensures PageOffset(page, itemsPerPage) <= i < PageOffset(page, itemsPerPage) + itemsPerPage
            <==> page == PageOf(i, itemsPerPage)
  {
    var p := PageOf(i, itemsPerPage);
    var n := TotalPages(totalItems, itemsPerPage);
    if p > n {
      MultiplyMonotone(n, p - 1, itemsPerPage);
      assert false;
    }
    if page < p {
      DisjointWindows(page, p, itemsPerPage);
    } else if page > p {
      DisjointWindows(p, page, itemsPerPage);
    }
  }

  /** A page the control offers starts inside the result set. */
  lemma OffsetWithinTotal(page: int, totalItems: Option<nat>, itemsPerPage: nat)
    requires itemsPerPage > 0
    requires 1 <= page <= TotalPages(totalItems, itemsPerPage)
    ensures 0 <= PageOffset(page, itemsPerPage) < TotalOrZero(totalItems)
  {
    var n := TotalPages(totalItems, itemsPerPage);
    MultiplyMonotone(page - 1, n - 1, itemsPerPage);
    MultiplyMonotone(0, page - 1, itemsPerPage);
  }

  /** The control shows exactly when there is at least one page. */
  lemma ShownIffPages(totalItems: Option<nat>, itemsPerPage: nat)
    requires itemsPerPage > 0
    ensures IsShown(totalItems) <==> TotalPages(totalItems, itemsPerPage) > 0
  {
  }

  /** The backend serves the window of the chosen page: it reads the page's
      offset (0 for the first page, whose offset is left out of the URL) and
      the page size. */
  lemma PageRequestArrives(backendUrl: string, title: string, year: string, page: int, itemsPerPage: nat)
    requires Plain(title) && Plain(year) && itemsPerPage > 0
    ensures var url := SearchUrl(backendUrl, title, year, Some(PageOffset(page, itemsPerPage)), Some(itemsPerPage));
            && EffectiveFrom(ParseQuery(QueryOf(backendUrl, url))) == Some(PageOffset(page, itemsPerPage))
            && EffectiveSize(ParseQuery(QueryOf(backendUrl, url))) == Some(itemsPerPage)
  {
    OffsetArrives(backendUrl, title, year, Some(PageOffset(page, itemsPerPage)), Some(itemsPerPage));
    SizeArrives(backendUrl, title, year, Some(PageOffset(page, itemsPerPage)), Some(itemsPerPage));
  }

  /** Submitting the search form (offset null, one page of results) requests
      the same URL as choosing the first page. */
  lemma SubmitIsFirstPage(backendUrl: string, title: string, year: string, itemsPerPage: nat)
    ensures SearchUrl(backendUrl, title, year, None, Some(itemsPerPage))
            == SearchUrl(backendUrl, title, year, Some(PageOffset(1, itemsPerPage)), Some(itemsPerPage))
  {
  }
}
