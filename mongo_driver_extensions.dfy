/**
 * ToPageAsync over a MongoDB find query: the same guards and offset as the
 * Entity Framework version, with Limit in place of Take and a 64-bit count.
 */
module MongoDriverPaging {
  import opened Clr
  import opened Queries
  import opened Paging
  import EntityFrameworkPaging

  const MaxInt64 := 0x7FFF_FFFF_FFFF_FFFF

  /** The server's refusal of a negative skip. */
  const NegativeSkip := QueryRejected("skip value must be non-negative")

  /** Limit(n) for a positive n: at most the first n documents. */
  function Limit<T>(documents: seq<T>, n: int32): (limited: seq<T>)
    requires n > 0
    ensures |limited| <= n as int && limited <= documents
    ensures |limited| < n as int ==> limited == documents
  {
    if |documents| <= n as int then documents else documents[..n]
  }

  /** Skip(n) for n not negative: the documents after the first n. */
  function Skip<T>(documents: seq<T>, n: int32): (rest: seq<T>)
    requires n >= 0
    ensures n as int <= |documents| ==> documents == documents[..n] + rest
    ensures n as int > |documents| ==> rest == []
  {
    if n as int >= |documents| then [] else documents[n..]
  }

  /**
   * ToPageAsync(query, pageNumber, pageSize): the guards, CountDocumentsAsync
   * (an Int64) and Skip/Limit at the unchecked Int32 offset.
   */
  function ToPageAsync<T>(query: seq<T>, pageNumber: int32, pageSize: int32): (r: Outcome<Page<T>>)
    requires |query| <= MaxInt64
    ensures EntityFrameworkPaging.PageArgumentError(pageNumber, pageSize).Some? ==>
              r == Raised(EntityFrameworkPaging.PageArgumentError(pageNumber, pageSize).value)
    ensures EntityFrameworkPaging.PageArgumentError(pageNumber, pageSize).None? ==>
              if Offset(pageNumber, pageSize) < 0 then r == Raised(NegativeSkip)
              else r.Done?
                   && r.value.items == Window(query, Offset(pageNumber, pageSize) as int, pageSize as int)
                   && r.value.pageNumber == pageNumber && r.value.pageSize == pageSize
                   && r.value.totalItems as int == |query|
  {
    var invalid := EntityFrameworkPaging.PageArgumentError(pageNumber, pageSize);
    if invalid.Some? then Raised(invalid.value)
    else
      var totalItems := |query|;
      var offset := Offset(pageNumber, pageSize);
      if offset < 0 then Raised(NegativeSkip)
      else Done(NewPage(Limit(Skip(query, offset), pageSize), pageNumber, pageSize, totalItems as int64))
  }

  /** ToPageAsync(query, pageParameters): rejects null parameters and delegates with their two fields. */
  function ToPageAsyncWithParameters<T>(query: seq<T>, pageParameters: Option<PageParameters>): (r: Outcome<Page<T>>)
    requires |query| <= MaxInt64
    ensures pageParameters.None? ==> r == Raised(ArgumentNullException("pageParameters"))
    ensures pageParameters.Some? ==> r == ToPageAsync(query, pageParameters.value.pageNumber, pageParameters.value.pageSize)
  {
    if pageParameters.None? then Raised(ArgumentNullException("pageParameters"))
    else ToPageAsync(query, pageParameters.value.pageNumber, pageParameters.value.pageSize)
  }

  /**
   * On any query both drivers can count, the MongoDB version returns the same
   * page as the Entity Framework one, and fails for the same arguments (the
   * two stores word their refusal of a negative offset differently).
   */
  lemma AgreesWithEntityFramework<T>(query: seq<T>, pageNumber: int32, pageSize: int32)
    requires |query| <= MaxInt32
    ensures ToPageAsync(query, pageNumber, pageSize).Done? == EntityFrameworkPaging.ToPageAsync(query, pageNumber, pageSize).Done?
    ensures ToPageAsync(query, pageNumber, pageSize).Done? ==>
              ToPageAsync(query, pageNumber, pageSize) == EntityFrameworkPaging.ToPageAsync(query, pageNumber, pageSize)
  {
  }
}
