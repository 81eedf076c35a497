/**
 * The mediator's startup check (MediatorExtensions.AddMediator): every
 * concrete type of an assembly is classified, interface by interface, into
 * requests and request handlers; the check then fails when a request has no
 * handler bound to it and, only after that, when a request has several.
 */
module MediatorExtensions {
  import opened Clr
  import opened MediatorModels

  /**
   * A type declared in the scanned assembly, with the interfaces it implements
   * (inherited ones included, as Type.GetInterfaces returns them).
   */
  datatype TypeDecl = TypeDecl(ty: Ty, isAbstract: bool, isInterface: bool, interfaces: seq<Ty>)

  /** An assembly: the types Assembly.GetTypes returns, in that order. */
  datatype Assembly = Assembly(types: seq<TypeDecl>)

  /**
   * Two types match when they are equal or, if asked to ignore generic type
   * parameters and both are generic, when they share a generic definition.
   */
  predicate AreTypesMatching(type1: Ty, type2: Ty, ignoreGenericTypeParameters: bool)
  {
    if ignoreGenericTypeParameters && IsGenericType(type1) && IsGenericType(type2) then
      GenericTypeDefinition(type1) == GenericTypeDefinition(type2)
    else
      type1 == type2
  }

  /** Without the flag, or when either side is not generic, matching is type equality. */
  lemma MatchingIsEqualityUnlessBothGeneric(type1: Ty, type2: Ty, ignore: bool)
    requires !ignore || !IsGenericType(type1) || !IsGenericType(type2)
    ensures AreTypesMatching(type1, type2, ignore) <==> type1 == type2
  {
  }

  /** Against a generic definition and with the flag set, a type matches exactly the types built from that definition. */
  lemma MatchingAGenericDefinition(t: Ty, definition: Ty)
    requires IsGenericType(definition)
    ensures AreTypesMatching(t, definition, true) <==> t.name == definition.name && |t.args| == |definition.args|
  {
  }

  /** For either value of the flag, matching is an equivalence relation. */
  lemma MatchingIsAnEquivalence(a: Ty, b: Ty, c: Ty, ignore: bool)
    ensures AreTypesMatching(a, a, ignore)
    ensures AreTypesMatching(a, b, ignore) <==> AreTypesMatching(b, a, ignore)
    ensures AreTypesMatching(a, b, ignore) && AreTypesMatching(b, c, ignore) ==> AreTypesMatching(a, c, ignore)
  {
  }

  /** What one implemented interface contributes to the scan. */
  datatype Discovered = Request(request: RequestType) | Handler(handler: RequestHandlerType) | Unrelated

  /**
   * Classifies one interface implemented by the type `ty`, trying IRequest<R>,
   * IRequest, IRequestHandler<Q, R> and IRequestHandler<Q> in that order.
   */
  function Classify(ty: Ty, implementedInterface: Ty): (d: Discovered)
    ensures d.Request? <==> implementedInterface.name == IRequestName && |implementedInterface.args| <= 1
    ensures d.Request? ==> d.request == RequestType(ty, if |implementedInterface.args| == 1 then Some(implementedInterface.args[0]) else None)
    ensures d.Handler? <==> implementedInterface.name == IRequestHandlerName && 1 <= |implementedInterface.args| <= 2
    ensures d.Handler? ==>
              d.handler == RequestHandlerType(ty, RequestType(implementedInterface.args[0],
                                                              if |implementedInterface.args| == 2 then Some(implementedInterface.args[1]) else None))
  {
    var arguments := implementedInterface.args;
    if AreTypesMatching(implementedInterface, IRequestDefinition, true) then
      Request(RequestType(ty, Some(arguments[0])))
    else if AreTypesMatching(implementedInterface, IRequestInterface, false) then
      Request(RequestType(ty, None))
    else if AreTypesMatching(implementedInterface, IRequestHandlerDefinition2, true) then
      Handler(RequestHandlerType(ty, RequestType(arguments[0], Some(arguments[1]))))
    else if AreTypesMatching(implementedInterface, IRequestHandlerDefinition1, true) then
      Handler(RequestHandlerType(ty, RequestType(arguments[0], None)))
    else
      Unrelated
  }

  /** Only types that are neither abstract nor interfaces are scanned. */
  predicate IsScanned(t: TypeDecl)
  {
    !t.isAbstract && !t.isInterface
  }

  /** The requests that the interfaces of `ty` declare, in interface order. */
  function RequestsFrom(ty: Ty, interfaces: seq<Ty>): (requests: seq<RequestType>)
    ensures |requests| <= |interfaces|
    ensures forall q :: q in requests ==> q.ty == ty
  {
    if interfaces == [] then []
    else
      var last := interfaces[|interfaces| - 1];
      RequestsFrom(ty, interfaces[..|interfaces| - 1]) + (if Classify(ty, last).Request? then [Classify(ty, last).request] else [])
  }

  /** The handlers that the interfaces of `ty` declare, in interface order. */
  function HandlersFrom(ty: Ty, interfaces: seq<Ty>): (handlers: seq<RequestHandlerType>)
    ensures |handlers| <= |interfaces|
    ensures forall h :: h in handlers ==> h.ty == ty
  {
    if interfaces == [] then []
    else
      var last := interfaces[|interfaces| - 1];
      HandlersFrom(ty, interfaces[..|interfaces| - 1]) + (if Classify(ty, last).Handler? then [Classify(ty, last).handler] else [])
  }

  /** The requests discovered in `types`, in scan order. */
  function Requests(types: seq<TypeDecl>): seq<RequestType>
  {
    if types == [] then []
    else
      var last := types[|types| - 1];
      Requests(types[..|types| - 1]) + (if IsScanned(last) then RequestsFrom(last.ty, last.interfaces) else [])
  }

  /** The request handlers discovered in `types`, in scan order. */
  function Handlers(types: seq<TypeDecl>): seq<RequestHandlerType>
  {
    if types == [] then []
    else
      var last := types[|types| - 1];
      Handlers(types[..|types| - 1]) + (if IsScanned(last) then HandlersFrom(last.ty, last.interfaces) else [])
  }

  /** One more scanned type appends its own descriptors. */
  lemma ScanStep(types: seq<TypeDecl>, i: nat)
    requires i < |types|
    ensures Requests(types[..i + 1]) == Requests(types[..i]) + (if IsScanned(types[i]) then RequestsFrom(types[i].ty, types[i].interfaces) else [])
    ensures Handlers(types[..i + 1]) == Handlers(types[..i]) + (if IsScanned(types[i]) then HandlersFrom(types[i].ty, types[i].interfaces) else [])
  {
    assert types[..i + 1][..i] == types[..i];
  }

  /** One more interface appends at most one descriptor, as Classify says. */
  lemma InterfaceStep(ty: Ty, interfaces: seq<Ty>, j: nat)
    requires j < |interfaces|
    ensures RequestsFrom(ty, interfaces[..j + 1]) == RequestsFrom(ty, interfaces[..j]) + (if Classify(ty, interfaces[j]).Request? then [Classify(ty, interfaces[j]).request] else [])
    ensures HandlersFrom(ty, interfaces[..j + 1]) == HandlersFrom(ty, interfaces[..j]) + (if Classify(ty, interfaces[j]).Handler? then [Classify(ty, interfaces[j]).handler] else [])
  {
    assert interfaces[..j + 1][..j] == interfaces[..j];
  }

  /** A single type contributes at most one descriptor per implemented interface. */
  lemma {:induction false} AtMostOneDescriptorPerInterface(ty: Ty, interfaces: seq<Ty>)
    ensures |RequestsFrom(ty, interfaces)| + |HandlersFrom(ty, interfaces)| <= |interfaces|
  {
    if interfaces != [] {
      AtMostOneDescriptorPerInterface(ty, interfaces[..|interfaces| - 1]);
    }
  }

  /** The requests of one type are exactly its interfaces that classify as requests. */
  lemma {:induction false} RequestsFromMembership(ty: Ty, interfaces: seq<Ty>, q: RequestType)
    ensures q in RequestsFrom(ty, interfaces) <==> exists j :: 0 <= j < |interfaces| && Classify(ty, interfaces[j]) == Request(q)
  {
    if interfaces != [] {
      var n := |interfaces| - 1;
      var front := interfaces[..n];
      RequestsFromMembership(ty, front, q);
      assert forall j :: 0 <= j < n ==> front[j] == interfaces[j];
    }
  }

  /** The handlers of one type are exactly its interfaces that classify as handlers. */
  lemma {:induction false} HandlersFromMembership(ty: Ty, interfaces: seq<Ty>, h: RequestHandlerType)
    ensures h in HandlersFrom(ty, interfaces) <==> exists j :: 0 <= j < |interfaces| && Classify(ty, interfaces[j]) == Handler(h)
  {
    if interfaces != [] {
      var n := |interfaces| - 1;
      var front := interfaces[..n];
      HandlersFromMembership(ty, front, h);
      assert forall j :: 0 <= j < n ==> front[j] == interfaces[j];
    }
  }

  /** A request is discovered exactly when some scanned type declares it. */
  lemma {:induction false} RequestsMembership(types: seq<TypeDecl>, q: RequestType)
    ensures q in Requests(types) <==>
              exists i :: 0 <= i < |types| && IsScanned(types[i]) && q in RequestsFrom(types[i].ty, types[i].interfaces)
  {
    if types != [] {
      var n := |types| - 1;
      var front := types[..n];
      RequestsMembership(front, q);
      assert forall i :: 0 <= i < n ==> front[i] == types[i];
    }
  }

  /** A handler is discovered exactly when some scanned type declares it. */
  lemma {:induction false} HandlersMembership(types: seq<TypeDecl>, h: RequestHandlerType)
    ensures h in Handlers(types) <==>
              exists i :: 0 <= i < |types| && IsScanned(types[i]) && h in HandlersFrom(types[i].ty, types[i].interfaces)
  {
    if types != [] {
      var n := |types| - 1;
      var front := types[..n];
      HandlersMembership(front, h);
      assert forall i :: 0 <= i < n ==> front[i] == types[i];
    }
  }

  /**
   * A request descriptor is discovered exactly when some scanned (concrete)
   * type implements an interface that classifies as that request.
   */
  lemma DiscoveredRequests(types: seq<TypeDecl>, q: RequestType)
    ensures q in Requests(types) <==>
              exists i, j :: 0 <= i < |types| && IsScanned(types[i]) && 0 <= j < |types[i].interfaces|
                             && Classify(types[i].ty, types[i].interfaces[j]) == Request(q)
  {
    RequestsMembership(types, q);
    forall i | 0 <= i < |types|
      ensures q in RequestsFrom(types[i].ty, types[i].interfaces)
              <==> exists j :: 0 <= j < |types[i].interfaces| && Classify(types[i].ty, types[i].interfaces[j]) == Request(q)
    {
      RequestsFromMembership(types[i].ty, types[i].interfaces, q);
    }
  }

  /**
   * A handler descriptor is discovered exactly when some scanned (concrete)
   * type implements an interface that classifies as that handler.
   */
  lemma DiscoveredHandlers(types: seq<TypeDecl>, h: RequestHandlerType)
    ensures h in Handlers(types) <==>
              exists i, j :: 0 <= i < |types| && IsScanned(types[i]) && 0 <= j < |types[i].interfaces|
                             && Classify(types[i].ty, types[i].interfaces[j]) == Handler(h)
  {
    HandlersMembership(types, h);
    forall i | 0 <= i < |types|
      ensures h in HandlersFrom(types[i].ty, types[i].interfaces)
              <==> exists j :: 0 <= j < |types[i].interfaces| && Classify(types[i].ty, types[i].interfaces[j]) == Handler(h)
    {
      HandlersFromMembership(types[i].ty, types[i].interfaces, h);
    }
  }

  /** Whether some handler is bound to `request` (the check's `Any`). */
  predicate HasMatchingHandler(handlers: seq<RequestHandlerType>, request: RequestType)
  {
    exists h :: h in handlers && h.requestType == request
  }

  /** The number of handlers bound to `request` (the check's `Count`). */
  function MatchingHandlerCount(handlers: seq<RequestHandlerType>, request: RequestType): (n: nat)
    ensures n <= |handlers|
    ensures n == 0 <==> !HasMatchingHandler(handlers, request)
  {
    if handlers == [] then 0
    else
      var last := handlers[|handlers| - 1];
      assert forall h :: h in handlers ==> h in handlers[..|handlers| - 1] || h == last;
      MatchingHandlerCount(handlers[..|handlers| - 1], request) + (if last.requestType == request then 1 else 0)
  }

  /** When exactly one handler is bound to a request, every handler bound to it is that one. */
  lemma {:induction false} SingleMatchIsUnique(handlers: seq<RequestHandlerType>, request: RequestType, h1: RequestHandlerType, h2: RequestHandlerType)
    requires MatchingHandlerCount(handlers, request) == 1
    requires h1 in handlers && h1.requestType == request
    requires h2 in handlers && h2.requestType == request
    ensures h1 == h2
  {
    var n := |handlers| - 1;
    var last := handlers[n];
    assert forall h :: h in handlers ==> h in handlers[..n] || h == last;
    if last.requestType == request {
      assert MatchingHandlerCount(handlers[..n], request) == 0;
    } else {
      SingleMatchIsUnique(handlers[..n], request, h1, h2);
    }
  }

  /** The discovered requests that no handler is bound to, in discovery order. */
  function RequestsWithNoRequestHandler(requests: seq<RequestType>, handlers: seq<RequestHandlerType>): (missing: seq<RequestType>)
    ensures |missing| <= |requests|
    ensures forall q :: q in missing <==> q in requests && !HasMatchingHandler(handlers, q)
  {
    if requests == [] then []
    else
      (if HasMatchingHandler(handlers, requests[0]) then [] else [requests[0]])
      + RequestsWithNoRequestHandler(requests[1..], handlers)
  }

  /** The discovered requests that more than one handler is bound to, in discovery order. */
  function RequestsWithMultipleRequestHandlers(requests: seq<RequestType>, handlers: seq<RequestHandlerType>): (multiple: seq<RequestType>)
    ensures |multiple| <= |requests|
    ensures forall q :: q in multiple <==> q in requests && MatchingHandlerCount(handlers, q) > 1
  {
    if requests == [] then []
    else
      (if MatchingHandlerCount(handlers, requests[0]) > 1 then [requests[0]] else [])
      + RequestsWithMultipleRequestHandlers(requests[1..], handlers)
  }

  /** Why the startup check failed, with the offending requests. */
  datatype CheckFailure =
    | NoRequestHandler(requests: seq<RequestType>)
    | MultipleRequestHandlers(requests: seq<RequestType>)

  /**
   * The verdict of the startup check over the discovered requests and
   * handlers: `None` when it passes.
   */
  function Validation(requests: seq<RequestType>, handlers: seq<RequestHandlerType>): (failure: Option<CheckFailure>)
    ensures failure.None? <==> forall q :: q in requests ==> MatchingHandlerCount(handlers, q) == 1
    ensures failure.Some? ==> |failure.value.requests| > 0
    ensures (failure.Some? && failure.value.NoRequestHandler?) <==> exists q :: q in requests && !HasMatchingHandler(handlers, q)
    ensures failure.Some? && failure.value.NoRequestHandler? ==>
              forall q :: q in failure.value.requests <==> q in requests && !HasMatchingHandler(handlers, q)
    ensures failure.Some? && failure.value.MultipleRequestHandlers? ==>
              forall q :: q in failure.value.requests <==> q in requests && MatchingHandlerCount(handlers, q) > 1
  {
    var missing := RequestsWithNoRequestHandler(requests, handlers);
    var multiple := RequestsWithMultipleRequestHandlers(requests, handlers);
    if |missing| > 0 then
      assert missing[0] in missing;
      Some(NoRequestHandler(missing))
    else if |multiple| > 0 then
      assert multiple[0] in multiple;
      Some(MultipleRequestHandlers(multiple))
    else
      None
  }

  /** A handler bound to a request that was not discovered does not change the verdict. */
  lemma {:induction false} UnboundHandlerIsIgnored(requests: seq<RequestType>, handlers: seq<RequestHandlerType>, extra: RequestHandlerType)
    requires extra.requestType !in requests
    ensures Validation(requests, handlers + [extra]) == Validation(requests, handlers)
  {
    var extended := handlers + [extra];
    assert extended[..|extended| - 1] == handlers;
    forall q | q in requests
      ensures MatchingHandlerCount(extended, q) == MatchingHandlerCount(handlers, q)
      ensures HasMatchingHandler(extended, q) == HasMatchingHandler(handlers, q)
    {
    }
    FiltersAgree(requests, handlers, extended);
  }

  /** The filters only look at the handler counts of the discovered requests. */
  lemma {:induction false} FiltersAgree(requests: seq<RequestType>, handlers: seq<RequestHandlerType>, others: seq<RequestHandlerType>)
    requires forall q :: q in requests ==> MatchingHandlerCount(handlers, q) == MatchingHandlerCount(others, q)
    ensures RequestsWithNoRequestHandler(requests, handlers) == RequestsWithNoRequestHandler(requests, others)
    ensures RequestsWithMultipleRequestHandlers(requests, handlers) == RequestsWithMultipleRequestHandlers(requests, others)
  {
    if requests != [] {
      var q := requests[0];
      assert q in requests;
      assert HasMatchingHandler(handlers, q) == HasMatchingHandler(others, q);
      assert forall r :: r in requests[1..] ==> r in requests;
      FiltersAgree(requests[1..], handlers, others);
    }
  }

  /** The prefix shared by the singular and the plural wording of a failure message. */
  function MessageLead(failure: CheckFailure): string
  {
    match failure
    case NoRequestHandler(_) => "No request handler found for request type"
    case MultipleRequestHandlers(_) => "Multiple request handlers found for request type"
  }

  /** The offending type names, each quoted, separated by ", ". */
  function QuotedNames(requests: seq<RequestType>): string
  {
    if requests == [] then ""
    else if |requests| == 1 then "'" + FullName(requests[0].ty) + "'"
    else "'" + FullName(requests[0].ty) + "', " + QuotedNames(requests[1..])
  }

  /** How the message names one offending request: its full name in single quotes. */
  function Quoted(request: RequestType): string
  {
    "'" + FullName(request.ty) + "'"
  }

  /** The quoted name of every request, in order. */
  function QuotedEach(requests: seq<RequestType>): seq<string>
  {
    seq(|requests|, i requires 0 <= i < |requests| => Quoted(requests[i]))
  }

  /** string.Join: the pieces in order, with `separator` between neighbours and nowhere else. */
  function Join(separator: string, pieces: seq<string>): string
  {
    if pieces == [] then ""
    else if |pieces| == 1 then pieces[0]
    else Join(separator, pieces[..|pieces| - 1]) + separator + pieces[|pieces| - 1]
  }

  /** Joining a piece in front of at least one other puts one separator between it and the rest. */
  lemma {:induction false} JoinPrepend(separator: string, first: string, rest: seq<string>)
    requires |rest| > 0
    ensures Join(separator, [first] + rest) == first + separator + Join(separator, rest)
  {
    var all := [first] + rest;
    if |rest| == 1 {
      assert all[..|all| - 1] == [first];
    } else {
      var init := rest[..|rest| - 1];
      assert all[..|all| - 1] == [first] + init;
      JoinPrepend(separator, first, init);
    }
  }

  /**
   * QuotedNames is string.Join(", ", ...) over the quoted names: every
   * offender appears, quoted, in discovery order, separated by ", ".
   */
  lemma {:induction false} QuotedNamesJoinsTheQuotedNames(requests: seq<RequestType>)
    ensures QuotedNames(requests) == Join(", ", QuotedEach(requests))
  {
    if |requests| > 1 {
      var rest := requests[1..];
      QuotedNamesJoinsTheQuotedNames(rest);
      assert QuotedEach(requests) == [Quoted(requests[0])] + QuotedEach(rest);
      JoinPrepend(", ", Quoted(requests[0]), QuotedEach(rest));
    } else if |requests| == 1 {
      assert QuotedEach(requests) == [Quoted(requests[0])];
    }
  }

  /**
   * The InvalidOperationException message: the singular wording and the one
   * quoted name for one offender, the plural wording and every quoted name
   * joined by ", " for several, each closed by a full stop.
   */
  function Message(failure: CheckFailure): (message: string)
    requires |failure.requests| > 0
    ensures |failure.requests| == 1 ==> message == MessageLead(failure) + " " + Quoted(failure.requests[0]) + "."
    ensures |failure.requests| > 1 ==> message == MessageLead(failure) + "s " + Join(", ", QuotedEach(failure.requests)) + "."
  {
    QuotedNamesJoinsTheQuotedNames(failure.requests);
    var lead := MessageLead(failure);
    if |failure.requests| == 1 then
      lead + " '" + FullName(failure.requests[0].ty) + "'."
    else
      lead + "s " + QuotedNames(failure.requests) + "."
  }

  /**
   * The two wordings share their lead and part at the next character: a space
   * before the single name, an "s" before the list.
   */
  lemma MessageStartsWithItsWording(failure: CheckFailure)
    requires |failure.requests| > 0
    ensures |MessageLead(failure)| < |Message(failure)|
    ensures Message(failure)[..|MessageLead(failure)|] == MessageLead(failure)
    ensures Message(failure)[|MessageLead(failure)|] == if |failure.requests| == 1 then ' ' else 's'
  {
  }

  /** The exception the check throws for a failure. */
  function FailureException(failure: CheckFailure): Exception
    requires |failure.requests| > 0
  {
    InvalidOperationException(Message(failure))
  }

  /**
   * The inner loop of the scan: classifies each interface implemented by `ty`,
   * in order, collecting the requests and handlers it declares.
   */
  method ScanInterfaces(ty: Ty, interfaces: seq<Ty>) returns (requests: seq<RequestType>, requestHandlers: seq<RequestHandlerType>)
    ensures requests == RequestsFrom(ty, interfaces)
    ensures requestHandlers == HandlersFrom(ty, interfaces)
  {
    requests, requestHandlers := [], [];
    var j := 0;
    while j < |interfaces|
      invariant 0 <= j <= |interfaces|
      invariant requests == RequestsFrom(ty, interfaces[..j])
      invariant requestHandlers == HandlersFrom(ty, interfaces[..j])
    {
      InterfaceStep(ty, interfaces, j);
      var discovered := Classify(ty, interfaces[j]);
      if discovered.Request? {
        requests := requests + [discovered.request];
      } else if discovered.Handler? {
        requestHandlers := requestHandlers + [discovered.handler];
      }
      j := j + 1;
    }
    assert interfaces[..j] == interfaces;
  }

  /**
   * Scans the assembly into requests and handlers, then throws when a request
   * has no handler or, if none is missing, when a request has several.
   */
  method CheckRequestsForMatchingRequestHandlers(assembly: Assembly) returns (outcome: Outcome<()>)
    ensures var failure := Validation(Requests(assembly.types), Handlers(assembly.types));
            outcome == if failure.None? then Done(()) else Raised(FailureException(failure.value))
  {
    var types := assembly.types;
    var requests: seq<RequestType> := [];
    var requestHandlers: seq<RequestHandlerType> := [];
    var i := 0;
    while i < |types|
      invariant 0 <= i <= |types|
      invariant requests == Requests(types[..i])
      invariant requestHandlers == Handlers(types[..i])
    {
      var t := types[i];
      ScanStep(types, i);
      if IsScanned(t) {
        var typeRequests, typeRequestHandlers := ScanInterfaces(t.ty, t.interfaces);
        requests := requests + typeRequests;
        requestHandlers := requestHandlers + typeRequestHandlers;
      }
      i := i + 1;
    }
    assert types[..i] == types;

    var missing := RequestsWithNoRequestHandler(requests, requestHandlers);
    var multiple := RequestsWithMultipleRequestHandlers(requests, requestHandlers);
    if |missing| > 0 {
      return Raised(FailureException(NoRequestHandler(missing)));
    }
    if |multiple| > 0 {
      return Raised(FailureException(MultipleRequestHandlers(multiple)));
    }
    return Done(());
  }

  /** A registration in the dependency-injection container. */
  datatype ServiceRegistration = Scoped(serviceType: Ty, implementationType: Ty)

  const IMediatorType := Ty("Essentials.NET.Mediator.IMediator", [])
  const MediatorType := Ty("Essentials.NET.Mediator.Mediator", [])

  /** An IServiceCollection: the registrations made so far, in order. */
  class ServiceCollection {
    var registrations: seq<ServiceRegistration>

    constructor ()
      ensures registrations == []
    {
      registrations := [];
    }

    method AddScoped(serviceType: Ty, implementationType: Ty)
      modifies this
      ensures registrations == old(registrations) + [Scoped(serviceType, implementationType)]
    {
      registrations := registrations + [Scoped(serviceType, implementationType)];
    }
  }

  /**
   * Rejects null arguments, runs the startup check, and only when it passes
   * registers the mediator; a failed check leaves the collection untouched.
   * The handler registration that follows in the library, which can itself
   * throw on a duplicate service type, is not part of this model.
   */
  method AddMediator(serviceCollection: ServiceCollection?, assembly: Option<Assembly>) returns (outcome: Outcome<ServiceCollection>)
    modifies serviceCollection
    ensures serviceCollection == null ==> outcome == Raised(ArgumentNullException("serviceCollection"))
    ensures serviceCollection != null && assembly.None? ==>
              outcome == Raised(ArgumentNullException("assembly")) && unchanged(serviceCollection)
    ensures serviceCollection != null && assembly.Some? ==>
              var failure := Validation(Requests(assembly.value.types), Handlers(assembly.value.types));
              if failure.Some? then
                outcome == Raised(FailureException(failure.value)) && unchanged(serviceCollection)
              else
                outcome == Done(serviceCollection)
                && serviceCollection.registrations == old(serviceCollection.registrations) + [Scoped(IMediatorType, MediatorType)]
  {
    if serviceCollection == null {
      return Raised(ArgumentNullException("serviceCollection"));
    }
    if assembly.None? {
      return Raised(ArgumentNullException("assembly"));
    }
    var checked := CheckRequestsForMatchingRequestHandlers(assembly.value);
    if checked.Raised? {
      return Raised(checked.exception);
    }
    serviceCollection.AddScoped(IMediatorType, MediatorType);
    return Done(serviceCollection);
  }
}
