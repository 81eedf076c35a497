# Essentials.NET core, in Dafny

This project models the behavioural core of Essentials.NET and proves properties about it. Essentials.NET is a .NET library with two parts: an in-process mediator, and a set of web-API building blocks. The model covers:

- **Mediator startup check** (`MediatorExtensions.cs`). At registration the library scans an assembly. It classifies each interface of every concrete type as:
  - a request `(T, R)` or `(T, null)`;
  - or a handler bound to such a request.

  Registration fails if a discovered request has no handler. Only when nothing is missing does it fail for a request with several handlers. The scan is an imperative method with nested loops. It is proved against pure functions, and those functions are then characterised by lemmas.
- **Dispatch** (`Mediator.cs`). The lookup key is the request's runtime type plus the caller's result type. A missing handler throws `InvalidOperationException`. A found handler's outcome is returned unchanged. The model proves that the scan and the dispatcher use the same keys. It also proves that, after a passing check, every discovered request has exactly one handler, and that the dispatcher calls it. This holds under an assumption the library does not guarantee: that the container serves every discovered handler (`ServesHandlers`). The check scans every concrete class, but the registration step may register only public ones.
- **Results and errors** (`Result.cs`, `ResultExtensions.cs`, `Error.cs`, `ErrorExtensions.cs`):
  - The two result shapes, and their factories.
  - `Map`/`Execute` and their async variants.
  - The error categories.
  - The mapping of an error to an RFC 7807 problem response. Status, title and type follow sections 6.5.1, 6.5.3, 6.5.4, 6.5.8 and 6.6.1 of RFC 7231. The code and issues go in an `error` extension member.
- **Outbox message** (`OutboxMessage.cs`). A class with guarded mutators. `ProcessedSuccessfully` is absorbing, and a message is marked successful at most once.
- **Paging** (`Page.cs`, `EntityFrameworkExtensions.cs`, `MongoDriverExtensions.cs`, `PageParametersValidator.cs`):
  - A query is the finite sequence of rows it yields, with Skip/Take/Limit as slicing.
  - The page offset is computed as C# computes it: unchecked Int32 arithmetic.
- **Enumerable predicates** (`EnumerableExtensions.cs`). The `HasSome`/`HasNone` family, including their null handling. `Touch` is modelled as a loop that records the action/yield interleaving.

The model stands in for .NET types as follows:

| .NET | Model |
|---|---|
| a `null` reference | `Option.None` |
| a thrown exception | `Outcome.Raised` |
| `System.Type` | `Ty(name, args)`; a generic definition is identified by name and arity |
| `DateTime.UtcNow` | a `now` parameter |
| `Task` / `await` | ordinary calls; an awaited task is an `Outcome` |

## Model

| member | source | states |
|---|---|---|
| MediatorExtensions.AreTypesMatching | src/Essentials.NET.Mediator/Extensions/MediatorExtensions.cs:146-154 | the predicate itself: equality, or a shared generic definition when the flag is set and both types are generic; characterised by the three matching lemmas below |
| MediatorExtensions.MatchingIsEqualityUnlessBothGeneric | src/Essentials.NET.Mediator/Extensions/MediatorExtensions.cs:146-154 | without the flag, or unless both types are generic, matching is plain type equality |
| MediatorExtensions.MatchingAGenericDefinition | src/Essentials.NET.Mediator/Extensions/MediatorExtensions.cs:146-154 | with the flag, a type matches a generic definition iff it is a construction of that definition |
| MediatorExtensions.MatchingIsAnEquivalence | src/Essentials.NET.Mediator/Extensions/MediatorExtensions.cs:146-154 | type matching is reflexive, symmetric and transitive |
| MediatorExtensions.Classify | src/Essentials.NET.Mediator/Extensions/MediatorExtensions.cs:76-115 | the classification table: `IRequest<R>` gives request `(T,R)`; exactly `IRequest` gives `(T,null)`; `IRequestHandler<Q,R>` gives a handler bound to `(Q,R)`; `IRequestHandler<Q>` gives one bound to `(Q,null)`; any other interface gives nothing |
| MediatorExtensions.IsScanned | src/Essentials.NET.Mediator/Extensions/MediatorExtensions.cs:69 | the predicate itself: a type is scanned iff it is neither abstract nor an interface |
| MediatorExtensions.RequestsFrom | src/Essentials.NET.Mediator/Extensions/MediatorExtensions.cs:72-116 | the requests found on one type are no more than its interfaces, and all carry that type |
| MediatorExtensions.HandlersFrom | src/Essentials.NET.Mediator/Extensions/MediatorExtensions.cs:72-116 | the handlers found on one type are no more than its interfaces, and all carry that type |
| MediatorExtensions.Requests | src/Essentials.NET.Mediator/Extensions/MediatorExtensions.cs:69-116 | the requests of the scanned types, type by type in assembly order; characterised by ScanStep and RequestsMembership |
| MediatorExtensions.Handlers | src/Essentials.NET.Mediator/Extensions/MediatorExtensions.cs:69-116 | the handlers of the scanned types, type by type in assembly order; characterised by ScanStep and HandlersMembership |
| MediatorExtensions.ScanStep | src/Essentials.NET.Mediator/Extensions/MediatorExtensions.cs:69-117 | scanning one more type appends its descriptors if it is concrete, and nothing otherwise |
| MediatorExtensions.InterfaceStep | src/Essentials.NET.Mediator/Extensions/MediatorExtensions.cs:72-116 | classifying one more interface appends at most its one descriptor |
| MediatorExtensions.AtMostOneDescriptorPerInterface | src/Essentials.NET.Mediator/Extensions/MediatorExtensions.cs:72-116 | a type yields at most one descriptor per implemented interface |
| MediatorExtensions.RequestsFromMembership | src/Essentials.NET.Mediator/Extensions/MediatorExtensions.cs:72-91 | a request is found on a type iff one of its interfaces classifies as that request |
| MediatorExtensions.HandlersFromMembership | src/Essentials.NET.Mediator/Extensions/MediatorExtensions.cs:92-115 | a handler is found on a type iff one of its interfaces classifies as that handler, so a class with two handler interfaces yields two bindings |
| MediatorExtensions.RequestsMembership | src/Essentials.NET.Mediator/Extensions/MediatorExtensions.cs:69-91 | a request is discovered iff some non-abstract, non-interface type declares it |
| MediatorExtensions.HandlersMembership | src/Essentials.NET.Mediator/Extensions/MediatorExtensions.cs:69-115 | a handler is discovered iff some non-abstract, non-interface type declares it |
| MediatorExtensions.DiscoveredRequests | src/Essentials.NET.Mediator/Extensions/MediatorExtensions.cs:69-91 | a request is discovered iff some non-abstract, non-interface type has an interface that classifies as it |
| MediatorExtensions.DiscoveredHandlers | src/Essentials.NET.Mediator/Extensions/MediatorExtensions.cs:69-115 | a handler is discovered iff some non-abstract, non-interface type has an interface that classifies as it |
| MediatorExtensions.HasMatchingHandler | src/Essentials.NET.Mediator/Extensions/MediatorExtensions.cs:121 | the predicate itself: some handler's bound request equals the request; tied to the count by MatchingHandlerCount |
| MediatorExtensions.MatchingHandlerCount | src/Essentials.NET.Mediator/Extensions/MediatorExtensions.cs:126 | the count of handlers bound to a request is zero iff no handler is bound to it |
| MediatorExtensions.SingleMatchIsUnique | src/Essentials.NET.Mediator/Extensions/MediatorExtensions.cs:126 | when the count is one, every handler bound to the request is the same descriptor |
| MediatorExtensions.RequestsWithNoRequestHandler | src/Essentials.NET.Mediator/Extensions/MediatorExtensions.cs:120-122 | a request is "missing" iff it was discovered and no handler's binding equals it |
| MediatorExtensions.RequestsWithMultipleRequestHandlers | src/Essentials.NET.Mediator/Extensions/MediatorExtensions.cs:125-127 | a request is "multiple" iff it was discovered and more than one handler's binding equals it |
| MediatorExtensions.Validation | src/Essentials.NET.Mediator/Extensions/MediatorExtensions.cs:120-143 | the check passes iff every request has exactly one handler; if any request is missing, the failure names exactly the missing ones; the multiple-handler failure comes only when nothing is missing |
| MediatorExtensions.UnboundHandlerIsIgnored | src/Essentials.NET.Mediator/Extensions/MediatorExtensions.cs:120-127 | a handler bound to an undiscovered request never changes the verdict |
| MediatorExtensions.FiltersAgree | src/Essentials.NET.Mediator/Extensions/MediatorExtensions.cs:120-127 | the two filters depend only on the handler counts of the discovered requests |
| MediatorExtensions.QuotedNames | src/Essentials.NET.Mediator/Extensions/MediatorExtensions.cs:132-142 | the quoted full names joined by ", "; proved equal to the string.Join reference by QuotedNamesJoinsTheQuotedNames |
| MediatorExtensions.JoinPrepend | src/Essentials.NET.Mediator/Extensions/MediatorExtensions.cs:132-142 | string.Join of a piece followed by at least one more is that piece, one separator, then the join of the rest |
| MediatorExtensions.QuotedNamesJoinsTheQuotedNames | src/Essentials.NET.Mediator/Extensions/MediatorExtensions.cs:132-142 | the names part of the plural message is string.Join(", ") over each offender's full name in single quotes, in discovery order |
| MediatorExtensions.Message | src/Essentials.NET.Mediator/Extensions/MediatorExtensions.cs:132-142 | the failure's wording, then for one offender " 'FullName'." and for several "s " followed by every offender's quoted full name joined by ", " in discovery order, then "." |
| MediatorExtensions.MessageStartsWithItsWording | src/Essentials.NET.Mediator/Extensions/MediatorExtensions.cs:132-142 | both wordings start with the failure's lead, followed by a space for one offender and by "s" for several |
| MediatorExtensions.FailureException | src/Essentials.NET.Mediator/Extensions/MediatorExtensions.cs:130-142 | the check throws an InvalidOperationException carrying that message |
| MediatorExtensions.ScanInterfaces | src/Essentials.NET.Mediator/Extensions/MediatorExtensions.cs:72-116 | the inner loop collects exactly the descriptors the classification gives, in interface order |
| MediatorExtensions.CheckRequestsForMatchingRequestHandlers | src/Essentials.NET.Mediator/Extensions/MediatorExtensions.cs:60-144 | the nested scan collects exactly the discovered requests and handlers, then completes iff the check passes, and otherwise throws the failure's exception |
| MediatorExtensions.AddMediator | src/Essentials.NET.Mediator/Extensions/MediatorExtensions.cs:18-30 | a null collection, then a null assembly, is rejected first; a failed check registers nothing; on a passing check the mediator is registered and the same collection is returned (the handler registration that follows, and its errors, are not modelled) |
| MediatorExtensions.ServiceCollection.AddScoped | src/Essentials.NET.Mediator/Extensions/MediatorExtensions.cs:34 | one scoped registration of the service type to the implementation type is appended, and nothing else changes |
| MediatorDispatch.RequestHandlerServiceType | src/Essentials.NET.Mediator/Mediator.cs:22 | the service type is the handler interface closed over the request type, and over the result type when there is one |
| MediatorDispatch.ServiceTypeIsInjective | src/Essentials.NET.Mediator/Mediator.cs:20-22 | different request keys are looked up under different service types |
| MediatorDispatch.ScanAndDispatchAgree | src/Essentials.NET.Mediator/Mediator.cs:22 | a class implementing the service type for a key is discovered as a handler bound to exactly that key |
| MediatorDispatch.NoHandlerFound | src/Essentials.NET.Mediator/Mediator.cs:26-48 | the InvalidOperationException naming the request's runtime type in single quotes |
| MediatorDispatch.Mediator.SendAsync | src/Essentials.NET.Mediator/Mediator.cs:16-32 | a null request throws ArgumentNullException; an unregistered key throws InvalidOperationException naming the runtime type; otherwise the handler's outcome is returned unchanged, with the token passed through |
| MediatorDispatch.Mediator.SendVoidAsync | src/Essentials.NET.Mediator/Mediator.cs:35-51 | the same for requests without a result, keyed on the runtime type alone |
| MediatorDispatch.ValidatedRequestsReachTheirHandler | src/Essentials.NET.Mediator/Mediator.cs:16-51 | after a passing check, and assuming the container serves every discovered handler (see "## Left out"), every discovered request has exactly one handler; SendAsync returns that handler's outcome, and the void SendAsync completes or throws exactly as it does |
| Results.Result.State | src/Essentials.NET/Models/Result.cs:5-13 | a result is in state Success iff it holds a value, and Failure iff it holds an error |
| Results.Result.IsSuccess | src/Essentials.NET/Models/Result.cs:11 | the state is Success |
| Results.Result.IsFailure | src/Essentials.NET/Models/Result.cs:13 | the state is Failure |
| Results.Result.Value | src/Essentials.NET/Models/Result.cs:7-27 | the value of a success, null for a failure; see EveryResultComesFromAFactory |
| Results.Result.Error | src/Essentials.NET/Models/Result.cs:9-27 | the error of a failure, null for a success |
| Results.Result.Success | src/Essentials.NET/Models/Result.cs:15-19 | the value constructor and factory give a success holding the value and no error |
| Results.Result.Failure | src/Essentials.NET/Models/Result.cs:21-27 | the error constructor and factory reject null and give a failure holding the error and no value |
| Results.VoidResult.State | src/Essentials.NET/Models/Result.cs:60-66 | Result<TError> is in state Success iff it holds no error |
| Results.VoidResult.IsSuccess | src/Essentials.NET/Models/Result.cs:64 | the state is Success |
| Results.VoidResult.IsFailure | src/Essentials.NET/Models/Result.cs:66 | the state is Failure |
| Results.VoidResult.Error | src/Essentials.NET/Models/Result.cs:62 | the error of a failure, null for a success |
| Results.VoidResult.Success | src/Essentials.NET/Models/Result.cs:68-71 | the parameterless constructor is a success with no error |
| Results.VoidResult.Failure | src/Essentials.NET/Models/Result.cs:73-79 | the error constructor rejects null and gives a failure holding the error |
| Results.EveryResultComesFromAFactory | src/Essentials.NET/Models/Result.cs:3-56 | IsSuccess and IsFailure are exclusive and exhaustive, and every result is what its factory builds |
| Results.EveryVoidResultComesFromAFactory | src/Essentials.NET/Models/Result.cs:58-109 | the same for Result<TError> |
| ResultExtensions.NullArgument | src/Essentials.NET/Extensions/ResultExtensions.cs:14-16 | the result, then the success callback, then the failure callback are checked for null, in that order |
| ResultExtensions.Map | src/Essentials.NET/Extensions/ResultExtensions.cs:12-19 | null arguments throw before any callback; otherwise success(Value) iff IsSuccess, else failure(Error) |
| ResultExtensions.MapAsync | src/Essentials.NET/Extensions/ResultExtensions.cs:25-32 | the same choice, and the chosen task's outcome, faulted or not, is returned |
| ResultExtensions.Execute | src/Essentials.NET/Extensions/ResultExtensions.cs:37-51 | null arguments throw before any action; otherwise exactly the action of the result's state runs |
| ResultExtensions.ExecuteAsync | src/Essentials.NET/Extensions/ResultExtensions.cs:56-70 | the same choice, with the action's task awaited |
| ResultExtensions.ToHttpResponse | src/Essentials.NET/Extensions/ResultExtensions.cs:76-83 | a success with a null value gives NoContent, one with a value gives Ok(value), and a failure gives the error's problem response |
| ResultExtensions.MapVoid | src/Essentials.NET/Extensions/ResultExtensions.cs:92-99 | Map for Result<TError>: success() iff IsSuccess, else failure(Error) |
| ResultExtensions.MapVoidAsync | src/Essentials.NET/Extensions/ResultExtensions.cs:105-112 | MapAsync for Result<TError> |
| ResultExtensions.ExecuteVoid | src/Essentials.NET/Extensions/ResultExtensions.cs:117-131 | Execute for Result<TError> |
| ResultExtensions.ExecuteVoidAsync | src/Essentials.NET/Extensions/ResultExtensions.cs:136-150 | ExecuteAsync for Result<TError> |
| ResultExtensions.VoidToHttpResponse | src/Essentials.NET/Extensions/ResultExtensions.cs:156-163 | a success gives NoContent, a failure the error's problem response |
| ResultExtensions.MapWithFactoriesIsIdentity | src/Essentials.NET/Extensions/ResultExtensions.cs:12-19 | mapping a result with its own factories rebuilds it |
| ResultExtensions.MapUsesOneCallback | src/Essentials.NET/Extensions/ResultExtensions.cs:18 | Map's value does not depend on the callback of the other state |
| ResultExtensions.ExecuteInvokesExactlyOneAction | src/Essentials.NET/Extensions/ResultExtensions.cs:37-51 | Execute runs exactly one action once, with the value or the error, and none when the result is null |
| ResultExtensions.AsyncAgreesWithSync | src/Essentials.NET/Extensions/ResultExtensions.cs:25-70 | with completing tasks, MapAsync and ExecuteAsync agree with Map and Execute |
| ResultExtensions.VoidAsyncAgreesWithSync | src/Essentials.NET/Extensions/ResultExtensions.cs:105-150 | the same for Result<TError> |
| ResultExtensions.HttpResponseFollowsState | src/Essentials.NET/Extensions/ResultExtensions.cs:76-83 | a success is never a problem response, and a failure always is one, with the category's status |
| Errors.Error.RequestInvalid | src/Essentials.NET/Models/Error.cs:24-27 | the factory sets category RequestInvalid and stores code and issues |
| Errors.Error.RequestInvalidFromValidation | src/Essentials.NET/Models/Error.cs:33-36 | the issues are the validation error messages, in order |
| Errors.Error.RequestNotAllowed | src/Essentials.NET/Models/Error.cs:42-45 | the factory sets category RequestNotAllowed |
| Errors.Error.ResourceNotFound | src/Essentials.NET/Models/Error.cs:51-54 | the factory sets category ResourceNotFound |
| Errors.Error.ResourceConflict | src/Essentials.NET/Models/Error.cs:60-63 | the factory sets category ResourceConflict |
| Errors.Error.Failure | src/Essentials.NET/Models/Error.cs:69-72 | the factory sets category Failure |
| Errors.ErrorMessages | src/Essentials.NET/Models/Error.cs:35 | the projection keeps length and order of the validation failures |
| Errors.EveryDefinedErrorComesFromAFactory | src/Essentials.NET/Models/Error.cs:75-82 | the declared categories are 400, 403, 404, 409 and 500, and each error of a declared category is what its factory builds |
| ErrorExtensions.Status | src/Essentials.NET/Extensions/ErrorExtensions.cs:20-27 | the status is the category's numeric value for a declared category, and 500 otherwise |
| ErrorExtensions.Title | src/Essentials.NET/Extensions/ErrorExtensions.cs:28-35 | the title is the RFC 7231 reason phrase of the status |
| ErrorExtensions.TypeUri | src/Essentials.NET/Extensions/ErrorExtensions.cs:36-43 | the type links to the RFC 7231 section that defines the status |
| ErrorExtensions.IssuesJson | src/Essentials.NET/Extensions/ErrorExtensions.cs:50 | the issues array holds the issues as strings, in order |
| ErrorExtensions.ErrorExtension | src/Essentials.NET/Extensions/ErrorExtensions.cs:44-53 | the extensions dictionary: one "error" member, an object holding "code" and "issues"; decoded back by ErrorExtensionRoundTrip |
| ErrorExtensions.ToHttpResponse | src/Essentials.NET/Extensions/ErrorExtensions.cs:13-55 | a null error throws; otherwise a problem response whose status, title and type follow the category, and whose only extension is `error`, holding the code and issues |
| ErrorExtensions.DecodeStrings | src/Essentials.NET/Extensions/ErrorExtensions.cs:50 | a reference decoder, not in the source: a client's reading of the issues array, the inverse IssuesRoundTrip uses; a decoded array keeps its length |
| ErrorExtensions.DecodeErrorExtension | src/Essentials.NET/Extensions/ErrorExtensions.cs:44-53 | a reference decoder, not in the source: a client's reading of the "error" member back into code and issues, the inverse ErrorExtensionRoundTrip uses |
| ErrorExtensions.IssuesRoundTrip | src/Essentials.NET/Extensions/ErrorExtensions.cs:50 | the issues array decodes back to the issues |
| ErrorExtensions.ErrorExtensionRoundTrip | src/Essentials.NET/Extensions/ErrorExtensions.cs:44-53 | the `error` member decodes back to the error's code and issues, unchanged |
| Outbox.MarkedSuccessfully | src/Essentials.NET/Entities/OutboxMessage.cs:47-57 | throws iff already processed successfully; otherwise the message is processed successfully at `now`, with no error details |
| Outbox.MarkedUnsuccessfully | src/Essentials.NET/Entities/OutboxMessage.cs:63-75 | null, then blank, details are rejected before the already-successful check; otherwise the message is processed unsuccessfully at `now`, with the details |
| Outbox.OutboxMessage.IsProcessedSuccessfully | src/Essentials.NET/Entities/OutboxMessage.cs:20 | the state is ProcessedSuccessfully |
| Outbox.OutboxMessage.IsProcessedUnsuccessfully | src/Essentials.NET/Entities/OutboxMessage.cs:22 | the state is ProcessedUnsuccessfully |
| Outbox.OutboxMessage.constructor | src/Essentials.NET/Entities/OutboxMessage.cs:34-40 | a new message holds its type, payload and creation time, in state Created, unprocessed |
| Outbox.OutboxMessage.SerializeToOutbox | src/Essentials.NET/Entities/OutboxMessage.cs:30-41 | a null message throws; otherwise a fresh Created message with the type's full name, the JSON payload and the creation time |
| Outbox.OutboxMessage.MarkAsProcessedSuccessfully | src/Essentials.NET/Entities/OutboxMessage.cs:47-57 | the new state is MarkedSuccessfully of the old one; a throw changes nothing; validity is kept |
| Outbox.OutboxMessage.MarkAsProcessedUnsuccessfully | src/Essentials.NET/Entities/OutboxMessage.cs:63-75 | the new state is MarkedUnsuccessfully of the old one; a throw changes nothing; validity is kept |
| Outbox.RunPreservesValidity | src/Essentials.NET/Entities/OutboxMessage.cs:47-75 | any sequence of calls keeps the processing record well formed |
| Outbox.SuccessIsAbsorbing | src/Essentials.NET/Entities/OutboxMessage.cs:47-75 | once processed successfully, no later call changes the record |
| Outbox.AtMostOneSuccessfulMark | src/Essentials.NET/Entities/OutboxMessage.cs:47-75 | a message is marked successful at most once, and exactly when the run ends in ProcessedSuccessfully |
| Paging.CeilingDivision | src/Essentials.NET/Models/Page.cs:15 | the result is the ceiling of a / b |
| Paging.Page.TotalPages | src/Essentials.NET/Models/Page.cs:15 | the page count is the ceiling of TotalItems / PageSize |
| Paging.Page.HasNextPage | src/Essentials.NET/Models/Page.cs:17 | the page number is below TotalPages; characterised by HasNextPageIffItemsRemain |
| Paging.Page.HasPreviousPage | src/Essentials.NET/Models/Page.cs:19 | as written: the page size is above 1; the as-written side of the first finding, exhibited by HasPreviousPageReadsTheSize |
| Paging.Page.HasPreviousPageCorrected | src/Essentials.NET/Models/Page.cs:19 | as evidently intended: the page number is above 1; the corrected side of that finding |
| Paging.NewPage | src/Essentials.NET/Models/Page.cs:24-30 | the constructor stores items, number, size and total unchanged |
| Paging.HasNextPageIffItemsRemain | src/Essentials.NET/Models/Page.cs:15-17 | HasNextPage holds iff PageNumber * PageSize < TotalItems, so an empty query has no next page |
| Paging.HasPreviousPageCorrectedIffPreviousExists | src/Essentials.NET/Models/Page.cs:19 | the corrected HasPreviousPage holds iff page number minus one is a valid page number |
| Paging.HasPreviousPageReadsTheSize | src/Essentials.NET/Models/Page.cs:19 | HasPreviousPage as written is wrong both ways: page 1 of size 10 and page 3 of size 1 |
| Queries.OffsetBounds | src/Essentials.NET/Extensions/EntityFrameworkExtensions.cs:21 | the exact offset is not negative, and page n+1 starts where page n ends |
| Queries.Offset | src/Essentials.NET/Extensions/EntityFrameworkExtensions.cs:21 | the Int32 offset is congruent to the exact offset modulo 2^32, and equal to it while it fits |
| Queries.Window | src/Essentials.NET/Extensions/EntityFrameworkExtensions.cs:20-23 | Skip then Take: at most `count` rows from `start`, in query order |
| Queries.PagesArePrefix | src/Essentials.NET/Extensions/EntityFrameworkExtensions.cs:20-23 | the first k pages are the first k * size rows |
| EntityFrameworkPaging.PageArgumentError | src/Essentials.NET/Extensions/EntityFrameworkExtensions.cs:15-16 | a page number of zero or less is rejected first, then a page size of zero or less |
| EntityFrameworkPaging.ToPageAsync | src/Essentials.NET/Extensions/EntityFrameworkExtensions.cs:13-32 | after the guards, the page holds the rows at the Int32 offset, echoes number and size, and TotalItems is the whole count; a negative wrapped offset is refused |
| EntityFrameworkPaging.ToPageExact | src/Essentials.NET/Extensions/EntityFrameworkExtensions.cs:13-32 | the same with the exact offset: the page holds exactly the rows of page `pageNumber` |
| EntityFrameworkPaging.ToPageAsyncWithParameters | src/Essentials.NET/Extensions/EntityFrameworkExtensions.cs:39-44 | null parameters are rejected; otherwise it delegates with the two fields |
| EntityFrameworkPaging.AgreesWithExactWithoutOverflow | src/Essentials.NET/Extensions/EntityFrameworkExtensions.cs:21 | while the exact offset fits an Int32, the code as written returns the intended page |
| EntityFrameworkPaging.OverflowReturnsFirstPage | src/Essentials.NET/Extensions/EntityFrameworkExtensions.cs:21 | page 65537 of size 65536 wraps to offset 0 and returns the first rows, where the intended page is empty |
| EntityFrameworkPaging.PagesPartitionQuery | src/Essentials.NET/Extensions/EntityFrameworkExtensions.cs:18-23 | pages 1 to TotalPages are non-empty and concatenate to the query; later pages are empty |
| EntityFrameworkPaging.HasNextPageIffNextPageHasRows | src/Essentials.NET/Models/Page.cs:17 | for a fetched page, HasNextPage holds iff the next page has rows |
| EntityFrameworkPaging.HasPreviousPageIffPreviousPageExists | src/Essentials.NET/Models/Page.cs:19 | for a fetched page, the corrected HasPreviousPage holds iff the previous page can be requested |
| MongoDriverPaging.Limit | src/Essentials.NET/Extensions/MongoDriverExtensions.cs:22 | Limit keeps at most n leading documents |
| MongoDriverPaging.Skip | src/Essentials.NET/Extensions/MongoDriverExtensions.cs:21 | Skip drops the first n documents |
| MongoDriverPaging.ToPageAsync | src/Essentials.NET/Extensions/MongoDriverExtensions.cs:13-32 | the same guards; Skip then Limit at the Int32 offset is the query window; TotalItems is the document count |
| MongoDriverPaging.ToPageAsyncWithParameters | src/Essentials.NET/Extensions/MongoDriverExtensions.cs:39-44 | null parameters are rejected; otherwise it delegates with the two fields |
| MongoDriverPaging.AgreesWithEntityFramework | src/Essentials.NET/Extensions/MongoDriverExtensions.cs:13-32 | for a find query with no Skip or Limit already set (the only kind the model's document sequence stands for), the MongoDB and Entity Framework versions return the same page and fail on the same arguments |
| PageParametersValidation.PageNumberRule | src/Essentials.NET/Validators/PageParametersValidator.cs:10-12 | no failure for a positive page number, otherwise the PageNumber failure with its message |
| PageParametersValidation.PageSizeRule | src/Essentials.NET/Validators/PageParametersValidator.cs:14-16 | no failure for a positive page size, otherwise the PageSize failure with its message |
| PageParametersValidation.Validate | src/Essentials.NET/Validators/PageParametersValidator.cs:8-17 | valid iff both fields are greater than zero; each failing rule contributes its own message, PageNumber's first |
| PageParametersValidation.ValidatorAgreesWithToPage | src/Essentials.NET/Validators/PageParametersValidator.cs:10-16 | the validator accepts exactly the arguments ToPageAsync's guards accept |
| PageParametersValidation.InvalidParametersError | src/Essentials.NET/Validators/PageParametersValidator.cs:10-16 | a RequestInvalid error built from the validation lists the failing rules' messages, in order |
| EnumerableExtensions.Any | src/Essentials.NET/Extensions/EnumerableExtensions.cs:38 | Any holds iff some item satisfies the predicate |
| EnumerableExtensions.HasSome | src/Essentials.NET/Extensions/EnumerableExtensions.cs:26-39 | false for null; otherwise true iff non-empty, for collections and other enumerables alike |
| EnumerableExtensions.HasSomeWhere | src/Essentials.NET/Extensions/EnumerableExtensions.cs:45-55 | a null predicate throws first; a null enumerable gives false; otherwise true iff some item satisfies the predicate |
| EnumerableExtensions.HasSomeNotNull | src/Essentials.NET/Extensions/EnumerableExtensions.cs:61-64 | true iff some item is not null |
| EnumerableExtensions.HasNone | src/Essentials.NET/Extensions/EnumerableExtensions.cs:70-83 | true for null; otherwise true iff empty |
| EnumerableExtensions.HasNoneWhere | src/Essentials.NET/Extensions/EnumerableExtensions.cs:89-99 | a null predicate throws first; a null enumerable gives true; otherwise true iff no item satisfies the predicate |
| EnumerableExtensions.HasNoneNotNull | src/Essentials.NET/Extensions/EnumerableExtensions.cs:105-108 | true iff every item is null |
| EnumerableExtensions.NoneIsNotSome | src/Essentials.NET/Extensions/EnumerableExtensions.cs:26-108 | each HasNone variant is the exact negation of its HasSome variant, null included |
| EnumerableExtensions.TouchTraceShape | src/Essentials.NET/Extensions/EnumerableExtensions.cs:14-19 | the action runs once per item, just before that item is yielded, and the yielded items are the input, in order |
| EnumerableExtensions.Touch | src/Essentials.NET/Extensions/EnumerableExtensions.cs:9-20 | a null enumerable, then a null action, throws; otherwise enumeration yields the items unchanged with the action/yield trace |

## Left out

- Handler registration (`RegisterMediator`, `RegisterRequestHandlers`, MediatorExtensions.cs:32-58). It is assembly scanning through Scrutor and the DI container, which the model cannot see. `AddMediator` models only the mediator's own scoped registration. Its other registrations are assumed in `ServesHandlers`, and nothing in the source guarantees that assumption. The check walks every non-abstract class that `GetTypes` returns, public or not (MediatorExtensions.cs:69). Registration goes through Scrutor's `AddClasses(filter)` without the public-only flag (MediatorExtensions.cs:41, :51), and Scrutor documents that overload as registering public classes only. So for a non-public handler class, `ServesHandlers` fails: the check passes, the handler is never registered, and `SendAsync` throws "No request handler found" (Mediator.cs:28). Scrutor is not part of this model; this rests on its documented default.
- Reflection (`GetTypes`, `GetInterfaces`, `MakeGenericType`, `GetService`):
  - Types are values, and an interface list already includes inherited interfaces.
  - The service provider is a map from the closed handler interface to a handler function.
  - `Type.FullName` prints the type's name only, not the arguments of a constructed generic type.
- The mediator's `IRequest` and `IRequestHandler` contracts are not part of this model. They appear only as the full names the classification compares against. The library's `ICommand` (which derives `IRequest<Result<Error>>`) is a result-bearing request like any other.
- Async and dynamic invocation:
  - `Task` is an `Outcome`, awaited at once.
  - `MapAsync`/`ExecuteAsync` are sequential calls.
  - The cancellation token is an opaque value passed through.
  - Exceptions thrown by synchronous `Map`/`Execute` callbacks are not modelled; in C# they propagate unchanged.
- Results.Result.Value: for a failure, C# gives `default(TResult)`. The model gives `None`, which matches reference types but not value types such as `int`, where the default is `0`.
- JSON and HTTP I/O (HttpExtensions, JsonObjectExtensions, ObjectExtensions, OutboxMessageExtensions):
  - The outbox payload serialiser is a function parameter.
  - The problem response is a value, not a written HTTP body.
- Clock and identifiers: `DateTime.UtcNow` is a `now` parameter. The entity's version-7 GUID is left out.
- Paging.Page.TotalPages:
  - It uses exact integer ceiling division and requires a positive page size.
  - The C# `double` division, and the `(int)` cast of a ceiling beyond the Int32 range, are not modelled. For a page size of zero, the C# result depends on how the runtime converts infinity to an integer.
- Paging.Page.HasNextPage: it requires a positive page size, for the same reason.
- EntityFrameworkPaging.ToPageAsync:
  - It requires a query of at most Int32.MaxValue rows, because `CountAsync` returns an Int32 (MongoDB's count is an Int64).
  - A negative wrapped offset is modelled as the database refusing the query. This happens only after overflow. SQL Server refuses it, but some providers treat it as zero.
- MongoDriverPaging.ToPageAsync: it requires a query of at most Int64.MaxValue documents. A negative skip is modelled as refused by the server.
- MongoDriverPaging.ToPageAsync: the query is modelled as the documents a find query without Skip or Limit yields, and Skip/Limit as slicing it. In the driver, `IFindFluent.Skip`/`Limit` overwrite the options already set on the same object and return it, and `CountDocumentsAsync` counts under any Skip/Limit already set. So for a query that already carries a Skip or Limit, the model's items and TotalItems differ from the driver's. The call also changes the caller's query object (its Skip and Limit are left at the page's values); the model does not capture that mutation.
- The code rejects a page number or page size of zero as well as negative ones (EntityFrameworkExtensions.cs:15-16), although its doc comment says "negative". The model follows the code.
- Database query translation and execution are left out: a query is the sequence of rows it yields.
- FluentValidationExtensions is a one-line wrapper over `ValidationResult.IsValid`. The validator's call on a null instance is not modelled.
- EnumerableExtensions.Touch: it is modelled as one full enumeration. Stopping part-way, enumerating more than once, and an action that throws are not modelled. The action's effects appear only in the event trace.
- MediatorExtensions.AddMediator: after a passing check, the source goes on to register the handlers with `RegistrationStrategy.Throw` (MediatorExtensions.cs:42, :52), which can still throw. It does so when a handler's service type is already registered (a second `AddMediator` on the same assembly), or when two handler classes handle a request type the check never scans (an abstract or interface request, or one from another assembly). By then the IMediator registration has already been added. The model returns `Done` there, because handler registration is not part of it.
- Error equality: `Error` is a sealed record whose `Issues` is an `IEnumerable<string>`, so C# record equality compares the issues by reference. The model's `seq` equality compares them element by element. Nothing in the modelled core compares two errors.
- Interface-only declarations (ICommand, IQuery, the handler interfaces, IEndpoint, the service markers, IMediator) carry no behaviour.

## Findings

| source | as written | input that shows it | evidently intended | confidence | as-written member | corrected member |
|---|---|---|---|---|---|---|
| src/Essentials.NET/Models/Page.cs:19 | `HasPreviousPage => PageSize > 1` tests the page size | page 1 of size 10 reports a previous page; page 3 of size 1 reports none | `PageNumber > 1` | high; not executed | Paging.HasPreviousPageReadsTheSize | EntityFrameworkPaging.HasPreviousPageIffPreviousPageExists |
| src/Essentials.NET/Extensions/EntityFrameworkExtensions.cs:21 | `(pageNumber - 1) * pageSize` in unchecked Int32 arithmetic | pageNumber 65537, pageSize 65536: the offset wraps to 0, and the first page is returned instead of an empty one (the same expression is at MongoDriverExtensions.cs:21) | the offset computed without overflow (for example in Int64) | high; not executed | EntityFrameworkPaging.OverflowReturnsFirstPage | EntityFrameworkPaging.PagesPartitionQuery |
