/**
 * The dispatcher (Mediator.SendAsync): the lookup key is the request's
 * runtime type together with the caller's result type, the handler comes from
 * the service provider, and its outcome is returned unchanged.
 */
module MediatorDispatch {
  import opened Clr
  import opened MediatorModels
  import MediatorExtensions

  /** A request object: its runtime type (what GetType() returns) and its contents. */
  datatype RequestValue<V> = RequestValue(runtimeType: Ty, payload: V)

  /**
   * A resolved handler's HandleAsync: takes the request and the cancellation
   * token and returns a value or throws.
   */
  type HandlerFunction<!V> = (RequestValue<V>, CancellationToken) -> Outcome<V>

  /** The IServiceProvider: handlers keyed by the closed handler interface they are registered under. */
  type ServiceProvider<!V> = map<Ty, HandlerFunction<V>>

  /**
   * The service type the dispatcher asks for: IRequestHandler<Q, R> for a
   * request with a result, IRequestHandler<Q> for one without.
   */
  function RequestHandlerServiceType(key: RequestType): (service: Ty)
    ensures service.name == IRequestHandlerName
    ensures |service.args| == if key.resultType.Some? then 2 else 1
    ensures service.args[0] == key.ty
    ensures key.resultType.Some? ==> service.args[1] == key.resultType.value
  {
    match key.resultType
    case Some(result) => Ty(IRequestHandlerName, [key.ty, result])
    case None => Ty(IRequestHandlerName, [key.ty])
  }

  /** Different keys are looked up under different service types; in particular (Q, null) and (Q, R) never share a handler. */
  lemma {:induction false} ServiceTypeIsInjective(a: RequestType, b: RequestType)
    requires RequestHandlerServiceType(a) == RequestHandlerServiceType(b)
    ensures a == b
  {
    var service := RequestHandlerServiceType(a);
    assert service.args[0] == a.ty && service.args[0] == b.ty;
  }

  /**
   * The scan and the dispatcher agree on keys: a class implementing the service
   * type that the dispatcher resolves for a key is discovered as a handler
   * bound to exactly that key.
   */
  lemma ScanAndDispatchAgree(handlerType: Ty, key: RequestType)
    ensures MediatorExtensions.Classify(handlerType, RequestHandlerServiceType(key))
            == MediatorExtensions.Handler(RequestHandlerType(handlerType, key))
  {
  }

  /** The exception for a request whose handler the provider does not have. */
  function NoHandlerFound(requestType: Ty): Exception
  {
    InvalidOperationException("No request handler found for request type '" + FullName(requestType) + "'.")
  }

  /** The mediator holds only its (read-only) service provider. */
  datatype Mediator<!V> = Mediator(serviceProvider: ServiceProvider<V>)
  {
    /**
     * SendAsync<TResult>(IRequest<TResult>): rejects a null request, resolves
     * IRequestHandler<runtime type, TResult> and returns what the handler
     * returns or throws, passing the cancellation token through.
     */
    function SendAsync(request: Option<RequestValue<V>>, resultType: Ty, cancellationToken: CancellationToken): (r: Outcome<V>)
      ensures request.None? ==> r == Raised(ArgumentNullException("request"))
      ensures request.Some? ==>
                var service := RequestHandlerServiceType(RequestType(request.value.runtimeType, Some(resultType)));
                && (service !in serviceProvider ==> r == Raised(NoHandlerFound(request.value.runtimeType)))
                && (service in serviceProvider ==> r == serviceProvider[service](request.value, cancellationToken))
    {
      if request.None? then
        Raised(ArgumentNullException("request"))
      else
        var requestType := request.value.runtimeType;
        var requestHandlerType := Ty(IRequestHandlerName, [requestType, resultType]);
        if requestHandlerType !in serviceProvider then
          Raised(NoHandlerFound(requestType))
        else
          serviceProvider[requestHandlerType](request.value, cancellationToken)
    }

    /**
     * SendAsync(IRequest): rejects a null request, resolves
     * IRequestHandler<runtime type> and completes or throws as the handler does.
     */
    function SendVoidAsync(request: Option<RequestValue<V>>, cancellationToken: CancellationToken): (r: Outcome<()>)
      ensures request.None? ==> r == Raised(ArgumentNullException("request"))
      ensures request.Some? ==>
                var service := RequestHandlerServiceType(RequestType(request.value.runtimeType, None));
                && (service !in serviceProvider ==> r == Raised(NoHandlerFound(request.value.runtimeType)))
                && (service in serviceProvider ==>
                      r == match serviceProvider[service](request.value, cancellationToken)
                           case Done(_) => Done(())
                           case Raised(e) => Raised(e))
    {
      if request.None? then
        Raised(ArgumentNullException("request"))
      else
        var requestType := request.value.runtimeType;
        var requestHandlerType := Ty(IRequestHandlerName, [requestType]);
        if requestHandlerType !in serviceProvider then
          Raised(NoHandlerFound(requestType))
        else
          match serviceProvider[requestHandlerType](request.value, cancellationToken)
          case Done(_) => Done(())
          case Raised(e) => Raised(e)
    }
  }

  /** The provider has an entry for the binding of every discovered handler. */
  predicate ServesHandlers<V>(serviceProvider: ServiceProvider<V>, handlers: seq<RequestHandlerType>)
  {
    forall h :: h in handlers ==> RequestHandlerServiceType(h.requestType) in serviceProvider
  }

  /**
   * After a passing startup check, with the discovered handlers registered,
   * every discovered request reaches a handler: sending an instance of the
   * request's type never fails for lack of one, and that handler is the one
   * registered for the request's single handler class.
   */
  lemma {:induction false} ValidatedRequestsReachTheirHandler<V>(
    mediator: Mediator<V>, assembly: MediatorExtensions.Assembly, q: RequestType, payload: V, token: CancellationToken)
    requires MediatorExtensions.Validation(MediatorExtensions.Requests(assembly.types), MediatorExtensions.Handlers(assembly.types)).None?
    requires ServesHandlers(mediator.serviceProvider, MediatorExtensions.Handlers(assembly.types))
    requires q in MediatorExtensions.Requests(assembly.types)
    ensures RequestHandlerServiceType(q) in mediator.serviceProvider
    ensures exists h :: h in MediatorExtensions.Handlers(assembly.types) && h.requestType == q
    ensures forall h1, h2 ::
              (h1 in MediatorExtensions.Handlers(assembly.types) && h1.requestType == q
               && h2 in MediatorExtensions.Handlers(assembly.types) && h2.requestType == q) ==> h1 == h2
    ensures q.resultType.Some? ==>
              mediator.SendAsync(Some(RequestValue(q.ty, payload)), q.resultType.value, token)
              == mediator.serviceProvider[RequestHandlerServiceType(q)](RequestValue(q.ty, payload), token)
    ensures q.resultType.None? ==>
              mediator.SendVoidAsync(Some(RequestValue(q.ty, payload)), token)
              == match mediator.serviceProvider[RequestHandlerServiceType(q)](RequestValue(q.ty, payload), token)
                 case Done(_) => Done(())
                 case Raised(e) => Raised(e)
  {
    var handlers := MediatorExtensions.Handlers(assembly.types);
    assert MediatorExtensions.MatchingHandlerCount(handlers, q) == 1;
    var h :| h in handlers && h.requestType == q;
    forall h1, h2 | h1 in handlers && h1.requestType == q && h2 in handlers && h2.requestType == q
      ensures h1 == h2
    {
      MediatorExtensions.SingleMatchIsUnique(handlers, q, h1, h2);
    }
    assert RequestType(q.ty, q.resultType) == q;
  }
}
