/**
 * A page of query results with its derived navigation properties, and the
 * page parameters a client sends.
 */
module Paging {
  import opened Clr

  /** PageParameters: the requested page number and page size, as sent. */
  datatype PageParameters = PageParameters(pageNumber: int32, pageSize: int32)

  /** The smallest integer not below a / b, for a positive divisor. */
  function CeilingDivision(a: int, b: int): (q: int)
    requires b > 0
    ensures (q - 1) * b < a <= q * b
  {
    -((-a) / b)
  }

  /** Page<TItem>: the items of one page, where it sits, and the size of the whole query. */
  datatype Page<+T> = Page(items: seq<T>, pageNumber: int32, pageSize: int32, totalItems: int64)
  {
    /** Page.TotalPages: the number of pages of `pageSize` items needed to hold every item. */
    function TotalPages(): (n: int)
      requires pageSize > 0
      ensures (n - 1) * (pageSize as int) < totalItems as int <= n * (pageSize as int)
      ensures totalItems >= 0 ==> n >= 0
    {
      CeilingDivision(totalItems as int, pageSize as int)
    }

    /** Page.HasNextPage: the page number is below the page count. */
    predicate HasNextPage()
      requires pageSize > 0
    {
      (pageNumber as int) < TotalPages()
    }

    /** Page.HasPreviousPage as written: it tests the page size. */
    predicate HasPreviousPage()
    {
      pageSize > 1
    }

    /** Page.HasPreviousPage as evidently intended: there is a page before this one. */
    predicate HasPreviousPageCorrected()
    {
      pageNumber > 1
    }
  }

  /** The page constructor stores its arguments unchanged. */
  function NewPage<T>(items: seq<T>, pageNumber: int32, pageSize: int32, totalItems: int64): (page: Page<T>)
    ensures page.items == items && page.pageNumber == pageNumber
    ensures page.pageSize == pageSize && page.totalItems == totalItems
  {
    Page(items, pageNumber, pageSize, totalItems)
  }

  /**
   * There is a next page exactly when the pages up to this one hold fewer
   * items than the query has; in particular an empty query has no next page
   * after any page number that is not negative.
   */
  lemma {:induction false} HasNextPageIffItemsRemain<T>(page: Page<T>)
    requires page.pageSize > 0
    ensures page.HasNextPage() <==> (page.pageNumber as int) * (page.pageSize as int) < page.totalItems as int
    ensures page.totalItems <= 0 && page.pageNumber >= 0 ==> !page.HasNextPage()
  {
    var n := page.pageNumber as int;
    var size := page.pageSize as int;
    var pages := page.TotalPages();
    if n < pages {
      MultiplyMonotone(n, pages - 1, size);
    } else {
      MultiplyMonotone(pages, n, size);
    }
  }

  /** Multiplication by a positive number keeps the order. */
  lemma MultiplyMonotone(a: int, b: int, c: int)
    requires a <= b && c > 0
    ensures a * c <= b * c
  {
  }

  /** The corrected HasPreviousPage holds exactly when page number minus one is itself a valid page number. */
  lemma HasPreviousPageCorrectedIffPreviousExists<T>(page: Page<T>)
    ensures page.HasPreviousPageCorrected() <==> page.pageNumber as int - 1 >= 1
  {
  }

  /**
   * HasPreviousPage as written disagrees with the page position both ways:
   * page 1 of size 10 claims a previous page, and page 3 of size 1 denies one.
   */
  lemma HasPreviousPageReadsTheSize()
    ensures var first: Page<int> := Page([], 1, 10, 100);
            first.HasPreviousPage() && !first.HasPreviousPageCorrected()
    ensures var third: Page<int> := Page([], 3, 1, 100);
            !third.HasPreviousPage() && third.HasPreviousPageCorrected()
  {
  }
}
