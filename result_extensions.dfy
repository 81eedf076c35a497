/**
 * The extension methods over both result shapes: Map and Execute choose one
 * callback by the result's state, their async variants await it, and
 * ToHttpResponse turns a result carrying the library's Error into an HTTP
 * response. Every member checks the result, then the success callback, then
 * the failure callback for null, before any callback runs.
 */
module ResultExtensions {
  import opened Clr
  import opened AspNet
  import opened Errors
  import opened Results
  import ErrorExtensions

  /** The null checks every member makes first, in order; `None` when all three are non-null. */
  function NullArgument<R, S, F>(result: Option<R>, success: Option<S>, failure: Option<F>): (e: Option<Exception>)
    ensures e.None? <==> result.Some? && success.Some? && failure.Some?
    ensures result.None? ==> e == Some(ArgumentNullException("result"))
    ensures result.Some? && success.None? ==> e == Some(ArgumentNullException("success"))
    ensures result.Some? && success.Some? && failure.None? ==> e == Some(ArgumentNullException("failure"))
  {
    if result.None? then Some(ArgumentNullException("result"))
    else if success.None? then Some(ArgumentNullException("success"))
    else if failure.None? then Some(ArgumentNullException("failure"))
    else None
  }

  /** An awaited task: its value, or the exception a faulted task rethrows. */
  type Task<+M> = Outcome<M>

  // ----- Result<TResult, TError> -----

  /** Map(result, success, failure): success(Value) for a success, failure(Error) for a failure. */
  function Map<M, T, E>(result: Option<Result<T, E>>, success: Option<T -> M>, failure: Option<E -> M>): (r: Outcome<M>)
    ensures NullArgument(result, success, failure).Some? ==> r == Raised(NullArgument(result, success, failure).value)
    ensures NullArgument(result, success, failure).None? ==>
              (result.value.IsSuccess() ==> r == Done(success.value(result.value.Value().value)))
              && (result.value.IsFailure() ==> r == Done(failure.value(result.value.Error().value)))
  {
    var invalid := NullArgument(result, success, failure);
    if invalid.Some? then Raised(invalid.value)
    else if result.value.IsSuccess() then Done(success.value(result.value.value))
    else Done(failure.value(result.value.error))
  }

  /** MapAsync: the same choice, with the chosen callback's task awaited; a faulted task's exception propagates. */
  function MapAsync<M, T, E>(result: Option<Result<T, E>>, success: Option<T -> Task<M>>, failure: Option<E -> Task<M>>): (r: Outcome<M>)
    ensures NullArgument(result, success, failure).Some? ==> r == Raised(NullArgument(result, success, failure).value)
    ensures NullArgument(result, success, failure).None? ==>
              (result.value.IsSuccess() ==> r == success.value(result.value.Value().value))
              && (result.value.IsFailure() ==> r == failure.value(result.value.Error().value))
  {
    var invalid := NullArgument(result, success, failure);
    if invalid.Some? then Raised(invalid.value)
    else if result.value.IsSuccess() then success.value(result.value.value)
    else failure.value(result.value.error)
  }

  /**
   * Execute(result, success, failure): runs one action on the caller's state
   * `world`; the action's effect is the new state it returns.
   */
  function Execute<S, T, E>(result: Option<Result<T, E>>, success: Option<(T, S) -> S>, failure: Option<(E, S) -> S>, world: S): (r: Outcome<S>)
    ensures NullArgument(result, success, failure).Some? ==> r == Raised(NullArgument(result, success, failure).value)
    ensures NullArgument(result, success, failure).None? ==>
              (result.value.IsSuccess() ==> r == Done(success.value(result.value.Value().value, world)))
              && (result.value.IsFailure() ==> r == Done(failure.value(result.value.Error().value, world)))
  {
    var invalid := NullArgument(result, success, failure);
    if invalid.Some? then Raised(invalid.value)
    else if result.value.IsSuccess() then Done(success.value(result.value.value, world))
    else Done(failure.value(result.value.error, world))
  }

  /** ExecuteAsync: Execute with the chosen action's task awaited. */
  function ExecuteAsync<S, T, E>(result: Option<Result<T, E>>, success: Option<(T, S) -> Task<S>>, failure: Option<(E, S) -> Task<S>>, world: S): (r: Outcome<S>)
    ensures NullArgument(result, success, failure).Some? ==> r == Raised(NullArgument(result, success, failure).value)
    ensures NullArgument(result, success, failure).None? ==>
              (result.value.IsSuccess() ==> r == success.value(result.value.Value().value, world))
              && (result.value.IsFailure() ==> r == failure.value(result.value.Error().value, world))
  {
    var invalid := NullArgument(result, success, failure);
    if invalid.Some? then Raised(invalid.value)
    else if result.value.IsSuccess() then success.value(result.value.value, world)
    else failure.value(result.value.error, world)
  }

  /**
   * ToHttpResponse for Result<TResult, Error>: a success with a null value is
   * 204 No Content, with a value 200 OK carrying it, and a failure is the
   * error's problem response. A non-null result never throws.
   */
  function ToHttpResponse<V>(result: Option<Result<Option<V>, Error>>): (r: Outcome<HttpResult<V>>)
    ensures result.None? <==> r.Raised?
    ensures result.None? ==> r.exception == ArgumentNullException("result")
    ensures result.Some? && result.value.IsSuccess() ==>
              r.value == (if result.value.Value().value.None? then NoContent else Ok(result.value.Value().value.value))
    ensures result.Some? && result.value.IsFailure() ==>
              r == ErrorExtensions.ToHttpResponse(result.value.Error())
  {
    if result.None? then Raised(ArgumentNullException("result"))
    else
      var mapped := Map(result,
                        Some((value: Option<V>) => if value.None? then Done(NoContent) else Done(Ok(value.value))),
                        Some((error: Error) => ErrorExtensions.ToHttpResponse(Some(error))));
      mapped.value
  }

  // ----- Result<TError> -----

  /** Map(result, success, failure): success() for a success, failure(Error) for a failure. */
  function MapVoid<M, E>(result: Option<VoidResult<E>>, success: Option<() -> M>, failure: Option<E -> M>): (r: Outcome<M>)
    ensures NullArgument(result, success, failure).Some? ==> r == Raised(NullArgument(result, success, failure).value)
    ensures NullArgument(result, success, failure).None? ==>
              (result.value.IsSuccess() ==> r == Done(success.value()))
              && (result.value.IsFailure() ==> r == Done(failure.value(result.value.Error().value)))
  {
    var invalid := NullArgument(result, success, failure);
    if invalid.Some? then Raised(invalid.value)
    else if result.value.IsSuccess() then Done(success.value())
    else Done(failure.value(result.value.error))
  }

  /** MapAsync for Result<TError>. */
  function MapVoidAsync<M, E>(result: Option<VoidResult<E>>, success: Option<() -> Task<M>>, failure: Option<E -> Task<M>>): (r: Outcome<M>)
    ensures NullArgument(result, success, failure).Some? ==> r == Raised(NullArgument(result, success, failure).value)
    ensures NullArgument(result, success, failure).None? ==>
              (result.value.IsSuccess() ==> r == success.value())
              && (result.value.IsFailure() ==> r == failure.value(result.value.Error().value))
  {
    var invalid := NullArgument(result, success, failure);
    if invalid.Some? then Raised(invalid.value)
    else if result.value.IsSuccess() then success.value()
    else failure.value(result.value.error)
  }

  /** Execute for Result<TError>. */
  function ExecuteVoid<S, E>(result: Option<VoidResult<E>>, success: Option<S -> S>, failure: Option<(E, S) -> S>, world: S): (r: Outcome<S>)
    ensures NullArgument(result, success, failure).Some? ==> r == Raised(NullArgument(result, success, failure).value)
    ensures NullArgument(result, success, failure).None? ==>
              (result.value.IsSuccess() ==> r == Done(success.value(world)))
              && (result.value.IsFailure() ==> r == Done(failure.value(result.value.Error().value, world)))
  {
    var invalid := NullArgument(result, success, failure);
    if invalid.Some? then Raised(invalid.value)
    else if result.value.IsSuccess() then Done(success.value(world))
    else Done(failure.value(result.value.error, world))
  }

  /** ExecuteAsync for Result<TError>. */
  function ExecuteVoidAsync<S, E>(result: Option<VoidResult<E>>, success: Option<S -> Task<S>>, failure: Option<(E, S) -> Task<S>>, world: S): (r: Outcome<S>)
    ensures NullArgument(result, success, failure).Some? ==> r == Raised(NullArgument(result, success, failure).value)
    ensures NullArgument(result, success, failure).None? ==>
              (result.value.IsSuccess() ==> r == success.value(world))
              && (result.value.IsFailure() ==> r == failure.value(result.value.Error().value, world))
  {
    var invalid := NullArgument(result, success, failure);
    if invalid.Some? then Raised(invalid.value)
    else if result.value.IsSuccess() then success.value(world)
    else failure.value(result.value.error, world)
  }

  /** ToHttpResponse for Result<Error>: 204 No Content for a success, the error's problem response for a failure. */
  function VoidToHttpResponse<V>(result: Option<VoidResult<Error>>): (r: Outcome<HttpResult<V>>)
    ensures result.None? <==> r.Raised?
    ensures result.None? ==> r.exception == ArgumentNullException("result")
    ensures result.Some? && result.value.IsSuccess() ==> r.value == NoContent
    ensures result.Some? && result.value.IsFailure() ==> r == ErrorExtensions.ToHttpResponse(result.value.Error())
  {
    if result.None? then Raised(ArgumentNullException("result"))
    else
      var mapped := MapVoid(result,
                            Some(() => Done(NoContent)),
                            Some((error: Error) => ErrorExtensions.ToHttpResponse(Some(error))));
      mapped.value
  }

  // ----- Properties -----

  /** Mapping a result with its own factories rebuilds it: Map loses nothing and swaps no branch. */
  lemma MapWithFactoriesIsIdentity<T, E>(result: Result<T, E>)
    ensures Map(Some(result), Some((v: T) => Result<T, E>.Success(v)), Some((e: E) => Result<T, E>.Failure(Some(e)).value))
            == Done(result)
    ensures MapVoid(Some(VoidSuccessResult), Some(() => VoidResult<E>.Success()), Some((e: E) => VoidResult<E>.Failure(Some(e)).value))
            == Done(VoidSuccessResult)
  {
  }

  /**
   * Exactly one branch runs: the result of Map does not depend on the callback
   * of the other state.
   */
  lemma MapUsesOneCallback<M, T, E>(result: Result<T, E>, success1: T -> M, success2: T -> M, failure1: E -> M, failure2: E -> M)
    ensures result.IsSuccess() ==> Map(Some(result), Some(success1), Some(failure1)) == Map(Some(result), Some(success1), Some(failure2))
    ensures result.IsFailure() ==> Map(Some(result), Some(success1), Some(failure1)) == Map(Some(result), Some(success2), Some(failure1))
  {
  }

  /** An invocation log entry: which action Execute ran, and with what. */
  datatype Invocation<T, E> = SuccessInvoked(value: T) | FailureInvoked(error: E)

  /**
   * Execute invokes exactly one action, once, with the value or the error, and
   * none when an argument is null: with actions that log their calls, the log
   * grows by exactly that one entry.
   */
  lemma ExecuteInvokesExactlyOneAction<T, E>(result: Option<Result<T, E>>, log: seq<Invocation<T, E>>)
    ensures var r := Execute(result,
                             Some((v: T, l: seq<Invocation<T, E>>) => l + [SuccessInvoked(v)]),
                             Some((e: E, l: seq<Invocation<T, E>>) => l + [FailureInvoked(e)]),
                             log);
            && (result.None? ==> r.Raised?)
            && (result.Some? ==> r == Done(log + [if result.value.IsSuccess() then SuccessInvoked(result.value.Value().value)
                                                  else FailureInvoked(result.value.Error().value)]))
  {
  }

  /** The async variants choose the branch by the same rule: with callbacks that complete, they agree with the sync ones. */
  lemma AsyncAgreesWithSync<M, S, T, E>(result: Option<Result<T, E>>, success: T -> M, failure: E -> M,
                                        act: (T, S) -> S, actOnError: (E, S) -> S, world: S)
    ensures MapAsync(result, Some((v: T) => Done(success(v))), Some((e: E) => Done(failure(e))))
            == Map(result, Some(success), Some(failure))
    ensures ExecuteAsync(result, Some((v: T, w: S) => Done(act(v, w))), Some((e: E, w: S) => Done(actOnError(e, w))), world)
            == Execute(result, Some(act), Some(actOnError), world)
  {
  }

  /** The same for Result<TError>. */
  lemma VoidAsyncAgreesWithSync<M, S, E>(result: Option<VoidResult<E>>, success: () -> M, failure: E -> M,
                                         act: S -> S, actOnError: (E, S) -> S, world: S)
    ensures MapVoidAsync(result, Some(() => Done(success())), Some((e: E) => Done(failure(e))))
            == MapVoid(result, Some(success), Some(failure))
    ensures ExecuteVoidAsync(result, Some((w: S) => Done(act(w))), Some((e: E, w: S) => Done(actOnError(e, w))), world)
            == ExecuteVoid(result, Some(act), Some(actOnError), world)
  {
  }

  /**
   * A successful HTTP mapping never produces a problem response, and a failed
   * one always produces the problem response whose status is the error
   * category's (500 for an undeclared category).
   */
  lemma HttpResponseFollowsState<V>(result: Result<Option<V>, Error>)
    ensures result.IsSuccess() ==> !ToHttpResponse(Some(result)).value.Problem?
    ensures result.IsFailure() ==> ToHttpResponse<V>(Some(result)).value.Problem?
    ensures result.IsFailure() ==>
              ToHttpResponse<V>(Some(result)).value.details.status == Some(ErrorExtensions.Status(result.error.errorType))
  {
  }
}
