# Nimbus default message broker, modelled in Dafny

Nimbus is a .NET message-bus library. Its `DefaultMessageBroker` is the
component that hands a received message to the application's handlers. It
holds one read-only collaborator, a type provider, which lists the handler
types for each dispatch mode: command handlers, request handlers, multicast
event handlers and competing event handlers. Each broker operation is one
lazy LINQ pipeline:

- **`Dispatch` (command).** Filter the command handler list to the types that
  implement `IHandleCommand<TCommand>`. Create an instance of the first one
  and call its `Handle`.
- **`Handle` (request).** The same, over the request handler list with
  `IHandleRequest<TRequest, TResponse>`. The handler's response is returned.
- **`HandleMulticast` (request).** The same filter as `Handle`, but every
  matching type receives the request.
- **`PublishMulticast` and `PublishCompeting` (event).** Filter their own list.
  Each matching type, in list order, is instantiated and handles the event.
- **`CreateInstance`.** Calls the parameterless constructor. Any failure is
  wrapped in a `BusException` whose message says the broker needs default
  constructors.

The model has two modules:

- **`Handlers`** (`Handlers.dfy`) holds the data model:
  - a handler type is its id, the set of handler interfaces it implements,
    and whether its parameterless constructor works;
  - a type provider is four sequences of handler types;
  - `Matching` is the `Where` filter and `FirstMatch` is the index of the
    first match;
  - a log of broker events records each `CreateInstance` call and each
    `Handle` call.
- **`MessageBroker`** (`MessageBroker.dfy`) holds the broker's operations.
  They are functions of an immutable `Broker` value. Handler bodies are a
  function parameter `invoke`, which maps a handler id and a message to a
  returned value or a thrown exception. Each operation returns a `Run`: its
  event log and its outcome. The outcome is a value or one of three failures:
  - `NoHandler`: `First()` on an empty sequence;
  - `BusException`: raised by `CreateInstance`, carrying the construction
    exception as its inner exception;
  - `HandlerThrew`: a handler's exception, propagated unchanged.

The event log makes the laziness of the pipelines observable.
`Dispatch` and `Handle` instantiate at most one type: the first match. A later
matching type is never constructed, so it cannot cause a construction error.
The publish operations instantiate a type and run its `Handle` before they
instantiate the next type. The first exception ends the operation.

No operation returns a new `Broker`, so none of them changes the type provider.
Each operation reads only its own list from the provider. Its contract names
only that list, and `Dispatch` and `Handle` are proved to depend on nothing
beyond the prefix of it up to the first match.

Two behaviours of the code are kept as written, although a reader might expect otherwise:

- Publishing does not isolate a failing handler. There is no `try`/`catch`
  around the handler calls. The first construction failure or handler
  exception ends the publish, and later handler types are never touched.
- When several single-dispatch handlers match, the broker does not validate or
  pick arbitrarily. It takes the first in the type provider's order.

## Model

| member | source | states |
|---|---|---|
| `Handlers.Matching` | src/Nimbus/Infrastructure/DefaultMessageBroker.cs:25-26 | The filter returns no more types than its input, and keeps exactly the listed types that implement the handler interface. |
| `Handlers.FirstMatch` | src/Nimbus/Infrastructure/DefaultMessageBroker.cs:25-28 | The result is the index of a matching type with no matching type before it. None means no listed type matches. |
| `Handlers.MatchingAppend` | src/Nimbus/Infrastructure/DefaultMessageBroker.cs:56-57 | The filter keeps list order: filtering a concatenation gives the concatenation of the filtered parts. |
| `Handlers.FirstMatchIsHeadOfMatching` | src/Nimbus/Infrastructure/DefaultMessageBroker.cs:36-48 | A first match exists exactly when the filtered list is non-empty, and it is the head of that list. |
| `MessageBroker.CreateInstance` | src/Nimbus/Infrastructure/DefaultMessageBroker.cs:74-91 | Creation succeeds exactly when the type's parameterless constructor works, yielding an instance of that type. Otherwise it fails with a `BusException`, never the raw exception. The exception's inner exception is the construction exception, and its message is the default-constructor message naming `DefaultMessageBroker`. |
| `MessageBroker.InstantiateAndHandle` | src/Nimbus/Infrastructure/DefaultMessageBroker.cs:27-29 | The type is instantiated once. It is invoked once, right after its instantiation, exactly when construction succeeds. The result is the handler's returned value, or the `BusException`, or the handler's own exception, unchanged. |
| `MessageBroker.MessageText` | src/Nimbus/Infrastructure/DefaultMessageBroker.cs:83-87 | The construction-failure text is "The ", then the broker's type name, then the fixed advice about default constructors and IoC containers. |
| `MessageBroker.MessageTextNamesBroker` | src/Nimbus/Infrastructure/DefaultMessageBroker.cs:83-87 | Two construction-failure texts are equal exactly when they name the same broker type, so the text identifies the broker. |
| `MessageBroker.FirstHandled` | src/Nimbus/Infrastructure/DefaultMessageBroker.cs:25-29 | With no matching type the run is empty and fails with `NoHandler`. Otherwise it is exactly the instantiation and invocation of the first matching type. |
| `MessageBroker.FirstHandledStopsAtFirstMatch` | src/Nimbus/Infrastructure/DefaultMessageBroker.cs:25-28 | When a prefix of the list already holds a matching type, nothing after that prefix affects the run. Later types are never instantiated. |
| `MessageBroker.HandleAll` | src/Nimbus/Infrastructure/DefaultMessageBroker.cs:58-60 | `HandledInOrder` holds. The log is each type's instantiation followed at once by its invocation, type by type, so no type is instantiated before the previous one has handled the message. If every type constructs and handles, the run succeeds and both traces are the ids in order. Otherwise it stops at the first failing type k with that type's exception. Types 0..k are instantiated, and types 0..k-1 plus k (if constructed) are invoked. |
| `MessageBroker.HandledInOrderSucceeds` | src/Nimbus/Infrastructure/DefaultMessageBroker.cs:58-60 | A run that handles types in order succeeds exactly when every type constructs and its `Handle` returns. |
| `MessageBroker.HandleEach` | src/Nimbus/Infrastructure/DefaultMessageBroker.cs:56-60 | `HandledInOrder` holds for the matching types, in list order, so no non-matching type is ever touched. The run succeeds exactly when every matching type constructs and handles. With no match it does nothing and succeeds. |
| `MessageBroker.Dispatch` | src/Nimbus/Infrastructure/DefaultMessageBroker.cs:23-30 | Fails with `NoHandler`, touching nothing, exactly when no command handler type matches. Otherwise it is the instantiation and single invocation of the first matching type in the command handler list. At most one type is ever instantiated or invoked. |
| `MessageBroker.Handle` | src/Nimbus/Infrastructure/DefaultMessageBroker.cs:32-41 | Same as `Dispatch`, over the request handler list. It succeeds exactly when the first matching type constructs and its `Handle` returns. The response is that handler's value, unchanged. |
| `MessageBroker.HandleMulticastSelection` | src/Nimbus/Infrastructure/DefaultMessageBroker.cs:43-49 | The selection is the filtered request handler list: every entry that implements the request interface, once per occurrence and in list order, and no other type. The selection is non-empty exactly when a first match exists, and its head is that first match. |
| `MessageBroker.HandleUsesFirstOfMulticastSelection` | src/Nimbus/Infrastructure/DefaultMessageBroker.cs:36-49 | `Handle` fails with `NoHandler` exactly when the multicast selection is empty. Otherwise it instantiates and invokes the head of that selection. |
| `MessageBroker.PublishMulticast` | src/Nimbus/Infrastructure/DefaultMessageBroker.cs:54-61 | Publishing over the multicast event handler list: all matching types in order, stopping at the first failure, which propagates. No matching type means no effect and success. |
| `MessageBroker.PublishCompeting` | src/Nimbus/Infrastructure/DefaultMessageBroker.cs:63-70 | The same, over the competing event handler list with the competing-event interface. |
| `MessageBroker.DispatchLooksNoFurtherThanFirstMatch` | src/Nimbus/Infrastructure/DefaultMessageBroker.cs:25-28 | Two brokers whose command handler lists agree on a prefix holding a matching type dispatch identically. This holds whatever follows that prefix and whatever the brokers' other lists hold. |
| `MessageBroker.HandleLooksNoFurtherThanFirstMatch` | src/Nimbus/Infrastructure/DefaultMessageBroker.cs:36-39 | The same for requests, over the request handler list. |

## Left out

- `HandleMulticast` (DefaultMessageBroker.cs:50-51): only the selection of handler types is modelled. Handlers run concurrently under `Task.Run`, and replies are gathered before a deadline by `ReturnOpportunistically`. That helper is not part of this model, so neither is which responses come back or when.
- Reflection: `Handlers.Implements` stands for the `IsAssignableFrom` test at DefaultMessageBroker.cs:26, 37, 48, 57 and 66. It is membership in a capability set per handler type, so it has no contract of its own. What the filters do with it is stated by `Handlers.Matching`. `Activator.CreateInstance` is a per-type construction outcome. The `(THandler)` cast is not modelled. It cannot fail, because the filter already checked assignability.
- `GetType().Name` in the construction-failure message is the constant `DefaultMessageBroker`. A subclass that overrides the virtual operations would report its own name. Contracts name the message as an `ExceptionMessage` value. `MessageText` renders its text.
- `Do` and `Done` from Nimbus.Extensions are not part of this model. They are taken to apply the action to each element as it is enumerated and to force the enumeration.
- `HandleEach` applies the `Where` filter before the per-handler steps. The lazy pipeline interleaves filtering with them, but the filter has no side effects, so the instantiations and invocations occur in the same order.
- C# generic type arguments are represented by message type names. The static response type of a request is passed as `responseType`. The contents of messages and responses are opaque.
- Handler `Handle` bodies are the `invoke` parameter; their own side effects are not modelled.
- Asynchrony and the `IBus` facade (src/Nimbus/IBus.cs), the NUnit harness (src/Nimbus.Tests/SpecificationFor.cs) and the integration tests are not modelled. The tests depend on a live Azure Service Bus, NSubstitute and sleeps.
- Delivery-attempt counting, dead-lettering and the dead-letter drain are left out. The transport performs them, so no code for them is part of this model.
