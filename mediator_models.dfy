/**
 * The two descriptor records the mediator's startup check builds while it
 * scans an assembly. Both are sealed records with required, init-only
 * members, so they are immutable values compared member by member.
 */
module MediatorModels {
  import opened Clr

  /** The full names of the request contract and of the handler contract (both arities share a name). */
  const IRequestName := "Essentials.NET.Mediator.Abstractions.Contracts.IRequest"
  const IRequestHandlerName := "Essentials.NET.Mediator.Abstractions.Handlers.IRequestHandler"

  /** typeof(IRequest<>). */
  const IRequestDefinition := Ty(IRequestName, [Ty("TResult", [])])
  /** typeof(IRequest). */
  const IRequestInterface := Ty(IRequestName, [])
  /** typeof(IRequestHandler<,>). */
  const IRequestHandlerDefinition2 := Ty(IRequestHandlerName, [Ty("TRequest", []), Ty("TResult", [])])
  /** typeof(IRequestHandler<>). */
  const IRequestHandlerDefinition1 := Ty(IRequestHandlerName, [Ty("TRequest", [])])

  /** A discovered request: its type and its result type (`None` for a request without a result). */
  datatype RequestType = RequestType(ty: Ty, resultType: Option<Ty>)

  /** A discovered request handler: the handler's type and the request it is bound to. */
  datatype RequestHandlerType = RequestHandlerType(ty: Ty, requestType: RequestType)
}
