/**
 * PageParametersValidator: both page parameters must be greater than zero,
 * each rule with its own message.
 */
module PageParametersValidation {
  import opened Clr
  import opened Paging
  import opened Queries
  import opened Errors
  import EntityFrameworkPaging

  const PageNumberInvalid := ValidationFailure("PageNumber", "PageNumber invalid, must be greater than 0.")
  const PageSizeInvalid := ValidationFailure("PageSize", "PageSize invalid, must be greater than 0.")

  /** The rule for PageNumber: GreaterThan(0). */
  function PageNumberRule(p: PageParameters): (failures: seq<ValidationFailure>)
  {
    if p.pageNumber > 0 then [] else [PageNumberInvalid]
  }

  /** The rule for PageSize: GreaterThan(0). */
  function PageSizeRule(p: PageParameters): (failures: seq<ValidationFailure>)
  {
    if p.pageSize > 0 then [] else [PageSizeInvalid]
  }

  /** Validate(pageParameters): every rule runs, in declaration order. */
  function Validate(p: PageParameters): (result: ValidationResult)
    ensures result.IsValid() <==> p.pageNumber > 0 && p.pageSize > 0
    ensures PageNumberInvalid in result.errors <==> p.pageNumber <= 0
    ensures PageSizeInvalid in result.errors <==> p.pageSize <= 0
    ensures forall f :: f in result.errors ==> f == PageNumberInvalid || f == PageSizeInvalid
    ensures p.pageNumber <= 0 ==> result.errors[0] == PageNumberInvalid
  {
    ValidationResult(PageNumberRule(p) + PageSizeRule(p))
  }

  /**
   * The validator accepts exactly the arguments ToPageAsync accepts: valid
   * parameters pass its guards (the intended version then returns a page),
   * and invalid ones are rejected by them.
   */
  lemma ValidatorAgreesWithToPage<T>(query: seq<T>, p: PageParameters)
    requires |query| <= MaxInt32
    ensures Validate(p).IsValid() <==> EntityFrameworkPaging.PageArgumentError(p.pageNumber, p.pageSize).None?
    ensures Validate(p).IsValid() <==> EntityFrameworkPaging.ToPageExact(query, p.pageNumber, p.pageSize).Done?
    ensures !Validate(p).IsValid() ==>
              EntityFrameworkPaging.ToPageAsyncWithParameters(query, Some(p)).Raised?
              && EntityFrameworkPaging.ToPageAsyncWithParameters(query, Some(p)).exception.ArgumentOutOfRangeException?
  {
  }

  /** Turning a failed validation into an error keeps the messages, in rule order. */
  lemma InvalidParametersError(code: string, p: PageParameters)
    ensures var e := Error.RequestInvalidFromValidation(code, Validate(p));
            e.issues == (if p.pageNumber > 0 then [] else [PageNumberInvalid.errorMessage])
                        + (if p.pageSize > 0 then [] else [PageSizeInvalid.errorMessage])
  {
    var e := Error.RequestInvalidFromValidation(code, Validate(p));
    var expected := (if p.pageNumber > 0 then [] else [PageNumberInvalid.errorMessage])
                    + (if p.pageSize > 0 then [] else [PageSizeInvalid.errorMessage]);
    assert |e.issues| == |expected|;
  }
}
