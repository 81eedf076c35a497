/**
 * ToPageAsync over an Entity Framework query: argument guards, the total
 * count, and the rows of the requested page.
 */
module EntityFrameworkPaging {
  import opened Clr
  import opened Queries
  import opened Paging

  /** The database's refusal of a query whose OFFSET is negative. */
  const NegativeOffset := QueryRejected("The offset specified in a OFFSET clause may not be negative.")

  /** ArgumentOutOfRangeException.ThrowIfNegativeOrZero on the page number, then on the page size. */
  function PageArgumentError(pageNumber: int32, pageSize: int32): (e: Option<Exception>)
    ensures e.None? <==> pageNumber > 0 && pageSize > 0
    ensures pageNumber <= 0 ==> e == Some(ArgumentOutOfRangeException("pageNumber", pageNumber as int))
    ensures pageNumber > 0 && pageSize <= 0 ==> e == Some(ArgumentOutOfRangeException("pageSize", pageSize as int))
  {
    if pageNumber <= 0 then Some(ArgumentOutOfRangeException("pageNumber", pageNumber as int))
    else if pageSize <= 0 then Some(ArgumentOutOfRangeException("pageSize", pageSize as int))
    else None
  }

  /**
   * ToPageAsync(query, pageNumber, pageSize) as written: the offset is the
   * unchecked Int32 product, so it can wrap around. CountAsync returns an
   * Int32, so the query has at most Int32.MaxValue rows.
   */
  function ToPageAsync<T>(query: seq<T>, pageNumber: int32, pageSize: int32): (r: Outcome<Page<T>>)
    requires |query| <= MaxInt32
    ensures PageArgumentError(pageNumber, pageSize).Some? ==> r == Raised(PageArgumentError(pageNumber, pageSize).value)
    ensures PageArgumentError(pageNumber, pageSize).None? ==>
              if Offset(pageNumber, pageSize) < 0 then r == Raised(NegativeOffset)
              else r.Done?
                   && r.value.items == Window(query, Offset(pageNumber, pageSize) as int, pageSize as int)
                   && r.value.pageNumber == pageNumber && r.value.pageSize == pageSize
                   && r.value.totalItems as int == |query|
  {
    var invalid := PageArgumentError(pageNumber, pageSize);
    if invalid.Some? then Raised(invalid.value)
    else
      var totalItems := |query|;
      var offset := Offset(pageNumber, pageSize);
      if offset < 0 then Raised(NegativeOffset)
      else Done(NewPage(Window(query, offset as int, pageSize as int), pageNumber, pageSize, totalItems as int64))
  }

  /**
   * ToPageAsync as evidently intended: the same guards, and the rows of page
   * `pageNumber` at its exact offset.
   */
  function ToPageExact<T>(query: seq<T>, pageNumber: int32, pageSize: int32): (r: Outcome<Page<T>>)
    requires |query| <= MaxInt32
    ensures PageArgumentError(pageNumber, pageSize).Some? ==> r == Raised(PageArgumentError(pageNumber, pageSize).value)
    ensures PageArgumentError(pageNumber, pageSize).None? ==>
              r.Done?
              && r.value.items == PageWindow(query, pageNumber as int, pageSize as int)
              && r.value.pageNumber == pageNumber && r.value.pageSize == pageSize
              && r.value.totalItems as int == |query|
  {
    var invalid := PageArgumentError(pageNumber, pageSize);
    if invalid.Some? then Raised(invalid.value)
    else Done(NewPage(PageWindow(query, pageNumber as int, pageSize as int), pageNumber, pageSize, |query| as int64))
  }

  /** ToPageAsync(query, pageParameters): rejects null parameters and delegates with their two fields. */
  function ToPageAsyncWithParameters<T>(query: seq<T>, pageParameters: Option<PageParameters>): (r: Outcome<Page<T>>)
    requires |query| <= MaxInt32
    ensures pageParameters.None? ==> r == Raised(ArgumentNullException("pageParameters"))
    ensures pageParameters.Some? ==> r == ToPageAsync(query, pageParameters.value.pageNumber, pageParameters.value.pageSize)
  {
    if pageParameters.None? then Raised(ArgumentNullException("pageParameters"))
    else ToPageAsync(query, pageParameters.value.pageNumber, pageParameters.value.pageSize)
  }

  /** While the exact offset fits an Int32, the code as written returns the intended page. */
  lemma AgreesWithExactWithoutOverflow<T>(query: seq<T>, pageNumber: int32, pageSize: int32)
    requires |query| <= MaxInt32
    requires pageNumber > 0 && pageSize > 0 ==> ExactOffset(pageNumber as int, pageSize as int) <= MaxInt32
    ensures ToPageAsync(query, pageNumber, pageSize) == ToPageExact(query, pageNumber, pageSize)
  {
    if pageNumber > 0 && pageSize > 0 {
      OffsetBounds(pageNumber as int, pageSize as int);
    }
  }

  /**
   * Page 65537 of size 65536 starts at row 2^32, past any countable query, so
   * it is empty; the wrapped offset is 0, so the code as written returns the
   * first rows of the query instead.
   */
  lemma OverflowReturnsFirstPage<T>(query: seq<T>)
    requires 0 < |query| <= MaxInt32
    ensures Offset(65537, 65536) == 0
    ensures ToPageAsync(query, 65537, 65536).value.items == Window(query, 0, 65536) != []
    ensures ToPageExact(query, 65537, 65536).value.items == []
  {
    assert ExactOffset(65537, 65536) == 0x1_0000_0000;
  }

  /**
   * The exact pages partition the query: pages 1 to TotalPages are non-empty
   * and together are the whole query, in order, and every later page is empty.
   */
  lemma PagesPartitionQuery<T>(query: seq<T>, pageSize: nat)
    requires pageSize > 0
    ensures var total := CeilingDivision(|query|, pageSize);
            && Pages(query, total, pageSize) == query
            && (forall k: nat :: 1 <= k <= total ==> PageWindow(query, k, pageSize) != [])
            && (forall k: nat :: k > total ==> PageWindow(query, k, pageSize) == [])
  {
    var total := CeilingDivision(|query|, pageSize);
    PagesArePrefix(query, total, pageSize);
    forall k: nat | 1 <= k
      ensures k <= total ==> PageWindow(query, k, pageSize) != []
      ensures k > total ==> PageWindow(query, k, pageSize) == []
    {
      OffsetBounds(k, pageSize);
      if k <= total {
        MultiplyMonotone(k - 1, total - 1, pageSize);
      } else {
        MultiplyMonotone(total, k - 1, pageSize);
      }
    }
  }

  /** HasNextPage of an exact page holds exactly when the next page has rows. */
  lemma HasNextPageIffNextPageHasRows<T>(query: seq<T>, pageNumber: int32, pageSize: int32)
    requires |query| <= MaxInt32 && pageNumber > 0 && pageSize > 0
    ensures ToPageExact(query, pageNumber, pageSize).value.HasNextPage()
            <==> PageWindow(query, pageNumber as int + 1, pageSize as int) != []
  {
    HasNextPageIffItemsRemain(ToPageExact(query, pageNumber, pageSize).value);
    OffsetBounds(pageNumber as int, pageSize as int);
  }

  /** The corrected HasPreviousPage of a page holds exactly when the page before it can be requested. */
  lemma HasPreviousPageIffPreviousPageExists<T>(query: seq<T>, pageNumber: int32, pageSize: int32)
    requires |query| <= MaxInt32 && pageNumber > 0 && pageSize > 0
    ensures ToPageExact(query, pageNumber, pageSize).value.HasPreviousPageCorrected()
            <==> ToPageExact(query, pageNumber - 1, pageSize).Done?
  {
  }
}
