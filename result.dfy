/**
 * The two result shapes of the library: `Result<TResult, TError>` (a value or
 * an error) and `Result<TError>` (success or an error). Both are immutable
 * records whose state is fixed by the constructor that built them.
 */
module Results {
  import opened Clr

  /** ResultState. */
  datatype ResultState = Success | Failure

  /**
   * Result<TResult, TError>. A success holds the value it was built with; a
   * failure holds a non-null error (the model's `E` has no null, the
   * constructor's null check is `Failure` below).
   */
  datatype Result<+T, +E> = SuccessResult(value: T) | FailureResult(error: E)
  {
    /** Result.State. */
    function State(): (state: ResultState)
      ensures state == ResultState.Success <==> SuccessResult?
      ensures state == ResultState.Failure <==> FailureResult?
    {
      if SuccessResult? then ResultState.Success else ResultState.Failure
    }

    /** Result.IsSuccess. */
    predicate IsSuccess()
    {
      State() == ResultState.Success
    }

    /** Result.IsFailure. */
    predicate IsFailure()
    {
      State() == ResultState.Failure
    }

    /** Result.Value: the value of a success, the default (null) for a failure. */
    function Value(): Option<T>
    {
      if SuccessResult? then Some(value) else None
    }

    /** Result.Error: the error of a failure, null for a success. */
    function Error(): Option<E>
    {
      if FailureResult? then Some(error) else None
    }

    /**
     * Result.Success(value), the value constructor and the implicit
     * conversion from a value: a success that holds `value` and no error.
     */
    static function Success(value: T): (r: Result<T, E>)
      ensures r.IsSuccess() && !r.IsFailure()
      ensures r.Value() == Some(value) && r.Error() == None
    {
      SuccessResult(value)
    }

    /**
     * Result.Failure(error), the error constructor and the implicit conversion
     * from an error: a null error throws, any other error gives a failure that
     * holds it and no value.
     */
    static function Failure(error: Option<E>): (r: Outcome<Result<T, E>>)
      ensures error.None? <==> r.Raised?
      ensures error.None? ==> r.exception == ArgumentNullException("error")
      ensures error.Some? ==> r.value.IsFailure() && !r.value.IsSuccess()
      ensures error.Some? ==> r.value.Error() == error && r.value.Value() == None
    {
      if error.None? then Raised(ArgumentNullException("error")) else Done(FailureResult(error.value))
    }
  }

  /** Result<TError>: success without a value, or a non-null error. */
  datatype VoidResult<+E> = VoidSuccessResult | VoidFailureResult(error: E)
  {
    /** Result.State. */
    function State(): (state: ResultState)
      ensures state == ResultState.Success <==> VoidSuccessResult?
      ensures state == ResultState.Failure <==> VoidFailureResult?
    {
      if VoidSuccessResult? then ResultState.Success else ResultState.Failure
    }

    /** Result.IsSuccess. */
    predicate IsSuccess()
    {
      State() == ResultState.Success
    }

    /** Result.IsFailure. */
    predicate IsFailure()
    {
      State() == ResultState.Failure
    }

    /** Result.Error: the error of a failure, null for a success. */
    function Error(): Option<E>
    {
      if VoidFailureResult? then Some(error) else None
    }

    /** Result.Success() and the parameterless constructor: a success with no error. */
    static function Success(): (r: VoidResult<E>)
      ensures r.IsSuccess() && !r.IsFailure() && r.Error() == None
    {
      VoidSuccessResult
    }

    /**
     * Result.Failure(error), the error constructor and the implicit conversion
     * from an error: a null error throws, any other error gives a failure that
     * holds it.
     */
    static function Failure(error: Option<E>): (r: Outcome<VoidResult<E>>)
      ensures error.None? <==> r.Raised?
      ensures error.None? ==> r.exception == ArgumentNullException("error")
      ensures error.Some? ==> r.value.IsFailure() && !r.value.IsSuccess() && r.value.Error() == error
    {
      if error.None? then Raised(ArgumentNullException("error")) else Done(VoidFailureResult(error.value))
    }
  }

  /**
   * IsSuccess and IsFailure are exclusive and exhaustive, and every result is
   * what its factory builds from its own Value/Error: the factories reach every
   * result and nothing else.
   */
  lemma EveryResultComesFromAFactory<T, E>(r: Result<T, E>)
    ensures r.IsSuccess() != r.IsFailure()
    ensures r.IsSuccess() ==> r.Value().Some? && r == Result<T, E>.Success(r.Value().value)
    ensures r.IsFailure() ==> r.Error().Some? && Result<T, E>.Failure(r.Error()) == Done(r)
  {
  }

  /** The same for Result<TError>. */
  lemma EveryVoidResultComesFromAFactory<E>(r: VoidResult<E>)
    ensures r.IsSuccess() != r.IsFailure()
    ensures r.IsSuccess() ==> r == VoidResult<E>.Success()
    ensures r.IsFailure() ==> r.Error().Some? && VoidResult<E>.Failure(r.Error()) == Done(r)
  {
  }
}
