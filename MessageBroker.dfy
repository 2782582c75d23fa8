/**
 The default message broker: given a command, request or event, it picks
 handler types from the type provider's list for that dispatch mode, creates
 instances of them through their parameterless constructors and calls their
 `Handle`. Command and request dispatch use only the first matching type;
 event publishing uses every matching type, in list order.

 The handlers' own `Handle` bodies are not part of the broker: every operation
 takes them as a function `invoke` from handler id and message to the reply
 (a value, or an exception). Each operation returns a `Run`: the log of the
 handler types it instantiated and invoked, and its outcome.
 */
module MessageBroker {
  import opened Handlers

  /** The broker's type name, which the construction-failure message names. */
  const BrokerTypeName: string := "DefaultMessageBroker"

  /** The message of the exception raised when a handler type cannot be
      created: a fixed text that names the broker's type. */
  datatype ExceptionMessage = DefaultConstructorsRequired(brokerTypeName: string)

  /** The fixed part of the construction-failure message that follows the broker's name. */
  const DefaultConstructorsAdvice: string :=
    " can only broker messages to handlers that have default constructors (i.e. ones with no parameters). "
    + "If you'd like to use constructor injection on your handlers, have a look at the examples provided in the README "
    + "about how to wire things up via an IoC container."

  /** The text of an exception message, as the broker formats it: "The ",
      then the broker's type name, then the fixed advice. */
  function MessageText(m: ExceptionMessage): (text: string)
    ensures |text| == 4 + |m.brokerTypeName| + |DefaultConstructorsAdvice|
    ensures text[..4] == "The "
    ensures text[4..4 + |m.brokerTypeName|] == m.brokerTypeName
    ensures text[4 + |m.brokerTypeName|..] == DefaultConstructorsAdvice
  {
    "The " + m.brokerTypeName + DefaultConstructorsAdvice
  }

  /** The message text names the broker: two messages read the same exactly
      when they name the same broker type. */
  lemma MessageTextNamesBroker(m1: ExceptionMessage, m2: ExceptionMessage)
    ensures MessageText(m1) == MessageText(m2) <==> m1 == m2
  {
    if MessageText(m1) == MessageText(m2) {
      var n1, n2 := m1.brokerTypeName, m2.brokerTypeName;
      assert |n1| == |n2|;
      assert n1 == MessageText(m1)[4..4 + |n1|] == MessageText(m2)[4..4 + |n2|] == n2;
    }
  }

  /** What a handler's `Handle` does with a message: return a value, or throw. */
  datatype Reply<R> = Returned(value: R) | Threw(error: Fault)

  /** Why a broker operation ended with an exception. */
  datatype Failure =
      /** `First()` on an empty sequence (an InvalidOperationException): no type matched. */
    | NoHandler
      /** Raised by `CreateInstance`, wrapping the construction exception. */
    | BusException(message: ExceptionMessage, inner: Fault)
      /** The exception a handler's `Handle` threw, propagated unchanged. */
    | HandlerThrew(handler: HandlerId, error: Fault)

  datatype Outcome<R> = Success(value: R) | Failed(failure: Failure)

  /** The log of one broker operation and how it ended. */
  datatype Run<R> = Run(events: seq<Event>, outcome: Outcome<R>)

  /** The broker's only state is the type provider it was constructed with;
      no operation returns a new broker, so none changes it. */
  datatype Broker = Broker(typeProvider: TypeProvider)

  /** Whether an instance of `t` can be created and its `Handle` returns for `msg`. */
  predicate Handles<R>(t: HandlerType, msg: Message, invoke: (HandlerId, Message) -> Reply<R>)
  {
    t.construction.DefaultConstructible? && invoke(t.id, msg).Returned?
  }

  /** Creating a handler instance: the instance of `t`, or a bus exception
      that carries the construction exception as its inner exception. */
  function CreateInstance(t: HandlerType): (r: Outcome<HandlerId>)
    ensures r.Success? <==> t.construction.DefaultConstructible?
    ensures r.Success? ==> r.value == t.id
    ensures r.Failed? ==> r.failure.BusException? && r.failure.inner == t.construction.inner
    ensures r.Failed? ==> r.failure.message == DefaultConstructorsRequired(BrokerTypeName)
  {
    match t.construction
    case DefaultConstructible => Success(t.id)
    case ConstructorFails(inner) => Failed(BusException(DefaultConstructorsRequired(BrokerTypeName), inner))
  }

  /** The log of a handler type that is instantiated and then handles a message. */
  function HandledEvents(t: HandlerType): seq<Event>
  {
    [Event(Instantiate, t.id), Event(Invoke, t.id)]
  }

  /** The logs of handling each of `ts` in turn, one after the other. */
  function AllHandledEvents(ts: seq<HandlerType>): seq<Event>
  {
    if ts == [] then [] else HandledEvents(ts[0]) + AllHandledEvents(ts[1..])
  }

  lemma AllHandledEventsOfConsPrefix(t: HandlerType, ts: seq<HandlerType>, n: nat)
    ensures n <= |ts| ==> AllHandledEvents(([t] + ts)[..n + 1]) == HandledEvents(t) + AllHandledEvents(ts[..n])
  {
    if n <= |ts| {
      assert ([t] + ts)[..n + 1] == [t] + ts[..n];
      assert ([t] + ts[..n])[1..] == ts[..n];
    }
  }

  /** Instantiating one selected handler type and calling `Handle` on the instance. */
  function InstantiateAndHandle<R>(t: HandlerType, msg: Message, invoke: (HandlerId, Message) -> Reply<R>): (run: Run<R>)
    ensures run.events == if t.construction.DefaultConstructible? then HandledEvents(t) else [Event(Instantiate, t.id)]
    ensures Trace(run.events, Instantiate) == [t.id]
    ensures Trace(run.events, Invoke) == if t.construction.DefaultConstructible? then [t.id] else []
    ensures run.outcome.Success? <==> Handles(t, msg, invoke)
    ensures run.outcome.Success? ==> run.outcome.value == invoke(t.id, msg).value
    ensures run.outcome.Failed? && t.construction.DefaultConstructible? ==>
              run.outcome.failure == HandlerThrew(t.id, invoke(t.id, msg).error)
    ensures run.outcome.Failed? && !t.construction.DefaultConstructible? ==>
              run.outcome.failure == BusException(DefaultConstructorsRequired(BrokerTypeName), t.construction.inner)
  {
    match CreateInstance(t)
    case Failed(f) => Run([Event(Instantiate, t.id)], Failed(f))
    case Success(h) =>
      var events := [Event(Instantiate, t.id), Event(Invoke, h)];
      assert events[1..] == [Event(Invoke, h)] && events[1..][1..] == [];
      assert Trace(events[1..][1..], Instantiate) == [] && Trace(events[1..][1..], Invoke) == [];
      assert Trace(events[1..], Instantiate) == [] && Trace(events[1..], Invoke) == [h];
      assert Trace(events, Instantiate) == [t.id] && Trace(events, Invoke) == [h];
      match invoke(h, msg)
      case Returned(v) => Run(events, Success(v))
      case Threw(e) => Run(events, Failed(HandlerThrew(h, e)))
  }

  /** `types.Where(implements c).Select(CreateInstance).First().Handle(msg)`.
      The pipeline is lazy, so it walks the list only up to the first match. */
  function FirstHandled<R>(types: seq<HandlerType>, c: Contract, msg: Message,
                           invoke: (HandlerId, Message) -> Reply<R>): (run: Run<R>)
    ensures FirstMatch(types, c).None? ==> run == Run([], Failed(NoHandler))
    ensures FirstMatch(types, c).Some? ==>
              run == InstantiateAndHandle(types[FirstMatch(types, c).value], msg, invoke)
  {
    if types == [] then Run([], Failed(NoHandler))
    else if Implements(types[0], c) then InstantiateAndHandle(types[0], msg, invoke)
    else FirstHandled(types[1..], c, msg, invoke)
  }

  /** Whatever follows the first matching type is never looked at: it is
      neither instantiated nor able to change the result. */
  lemma {:induction false} FirstHandledStopsAtFirstMatch<R>(
    prefix: seq<HandlerType>, rest1: seq<HandlerType>, rest2: seq<HandlerType>,
    c: Contract, msg: Message, invoke: (HandlerId, Message) -> Reply<R>)
    requires Matching(prefix, c) != []
    ensures FirstHandled(prefix + rest1, c, msg, invoke) == FirstHandled(prefix + rest2, c, msg, invoke)
  {
    assert (prefix + rest1)[0] == prefix[0] && (prefix + rest2)[0] == prefix[0];
    if !Implements(prefix[0], c) {
      assert (prefix + rest1)[1..] == prefix[1..] + rest1;
      assert (prefix + rest2)[1..] == prefix[1..] + rest2;
      FirstHandledStopsAtFirstMatch(prefix[1..], rest1, rest2, c, msg, invoke);
    }
  }

  /** The index of the first type in `ts` that cannot be instantiated or whose
      `Handle` throws for `msg`, or `|ts|` when there is none. */
  function FirstUnhandled<R>(ts: seq<HandlerType>, msg: Message, invoke: (HandlerId, Message) -> Reply<R>): (k: nat)
    ensures k <= |ts|
    ensures forall j :: 0 <= j < k ==> Handles(ts[j], msg, invoke)
    ensures k < |ts| ==> !Handles(ts[k], msg, invoke)
  {
    if ts == [] || !Handles(ts[0], msg, invoke) then 0
    else 1 + FirstUnhandled(ts[1..], msg, invoke)
  }

  /** The log of handling the types of `ts` in order up to the first type k
      that cannot be instantiated or whose `Handle` throws: each type's
      instantiation followed at once by its invocation, then type k's own log. */
  predicate LoggedInOrder(ts: seq<HandlerType>, msg: Message, invoke: (HandlerId, Message) -> Reply<()>, events: seq<Event>)
  {
    var k := FirstUnhandled(ts, msg, invoke);
    && (k == |ts| ==> events == AllHandledEvents(ts))
    && (k < |ts| ==> events == AllHandledEvents(ts[..k]) + InstantiateAndHandle(ts[k], msg, invoke).events)
  }

  /** What handling every type of `ts` in order, stopping at the first failure,
      leaves behind. Let k be the first type that cannot be instantiated or
      whose `Handle` throws. If there is none, the run succeeds, and every type
      was instantiated and invoked, in order. Otherwise the run fails with
      type k's exception, types 0..k were instantiated, and types 0..k-1 and
      then type k (if it was constructed) were invoked. In both cases the log
      is each type's instantiation followed at once by its invocation, type by
      type: no type is instantiated before the previous one has handled the
      message. */
  predicate HandledInOrder(ts: seq<HandlerType>, msg: Message, invoke: (HandlerId, Message) -> Reply<()>, run: Run<()>)
  {
    var k := FirstUnhandled(ts, msg, invoke);
    && LoggedInOrder(ts, msg, invoke, run.events)
    && (k == |ts| ==>
          && run.outcome == Success(())
          && Trace(run.events, Instantiate) == Ids(ts)
          && Trace(run.events, Invoke) == Ids(ts))
    && (k < |ts| ==>
          && run.outcome == InstantiateAndHandle(ts[k], msg, invoke).outcome
          && Trace(run.events, Instantiate) == Ids(ts[..k + 1])
          && Trace(run.events, Invoke) == Ids(ts[..k]) + Trace(InstantiateAndHandle(ts[k], msg, invoke).events, Invoke))
  }

  /** `handlers.Select(CreateInstance).Do(h => h.Handle(msg)).Done()` over the
      already filtered types: each type, in order, is instantiated and then
      handles the message before the next one is instantiated; the first
      exception ends the run. */
  function HandleAll(ts: seq<HandlerType>, msg: Message, invoke: (HandlerId, Message) -> Reply<()>): (run: Run<()>)
    ensures HandledInOrder(ts, msg, invoke, run)
    ensures ts == [] ==> run == Run([], Success(()))
  {
    if ts == [] then Run([], Success(()))
    else
      var head := InstantiateAndHandle(ts[0], msg, invoke);
      if head.outcome.Failed? then
        HeadFails(ts, msg, invoke);
        head
      else
        var rest := HandleAll(ts[1..], msg, invoke);
        HeadHandles(ts, msg, invoke, rest);
        Run(head.events + rest.events, rest.outcome)
  }

  /** HandleAll's first type fails: the run is that type's alone. */
  lemma HeadFails(ts: seq<HandlerType>, msg: Message, invoke: (HandlerId, Message) -> Reply<()>)
    requires ts != [] && !Handles(ts[0], msg, invoke)
    ensures HandledInOrder(ts, msg, invoke, InstantiateAndHandle(ts[0], msg, invoke))
  {
    assert FirstUnhandled(ts, msg, invoke) == 0;
    assert ts[..1] == [ts[0]] + [] && ts[..0] == [];
    IdsCons(ts[0], []);
    assert AllHandledEvents(ts[..0]) == [];
  }

  /** HandleAll's first type handles the message: it comes first in both
      traces, ahead of the run over the remaining types. */
  lemma HeadHandles(ts: seq<HandlerType>, msg: Message, invoke: (HandlerId, Message) -> Reply<()>, rest: Run<()>)
    requires ts != [] && Handles(ts[0], msg, invoke)
    requires HandledInOrder(ts[1..], msg, invoke, rest)
    ensures var head := InstantiateAndHandle(ts[0], msg, invoke);
            HandledInOrder(ts, msg, invoke, Run(head.events + rest.events, rest.outcome))
  {
    var t0, tail := ts[0], ts[1..];
    var head := InstantiateAndHandle(t0, msg, invoke);
    var kt := FirstUnhandled(tail, msg, invoke);
    assert FirstUnhandled(ts, msg, invoke) == kt + 1;
    TraceAppend(head.events, rest.events, Instantiate);
    TraceAppend(head.events, rest.events, Invoke);
    assert ts == [t0] + tail;
    IdsCons(t0, tail);
    HeadHandlesLog(ts, msg, invoke, rest.events);
    if kt < |tail| {
      assert ts[kt + 1] == tail[kt];
      IdsOfConsPrefix(t0, tail, kt);
      IdsOfConsPrefix(t0, tail, kt + 1);
    }
  }

  /** The log part of `HeadHandles`: the first type's instantiation and
      invocation come before the log of the remaining types. */
  lemma HeadHandlesLog(ts: seq<HandlerType>, msg: Message, invoke: (HandlerId, Message) -> Reply<()>, rest: seq<Event>)
    requires ts != [] && Handles(ts[0], msg, invoke)
    requires LoggedInOrder(ts[1..], msg, invoke, rest)
    ensures LoggedInOrder(ts, msg, invoke, InstantiateAndHandle(ts[0], msg, invoke).events + rest)
  {
    var t0, tail := ts[0], ts[1..];
    var kt := FirstUnhandled(tail, msg, invoke);
    assert FirstUnhandled(ts, msg, invoke) == kt + 1;
    assert InstantiateAndHandle(t0, msg, invoke).events == HandledEvents(t0);
    assert ts == [t0] + tail;
    if kt < |tail| {
      assert ts[kt + 1] == tail[kt];
      AllHandledEventsOfConsPrefix(t0, tail, kt);
    }
  }

  /** A run that handles the types in order succeeds exactly when every type
      constructs and its `Handle` returns. */
  lemma HandledInOrderSucceeds(ts: seq<HandlerType>, msg: Message, invoke: (HandlerId, Message) -> Reply<()>, run: Run<()>)
    requires HandledInOrder(ts, msg, invoke, run)
    ensures run.outcome.Success? <==> forall t :: t in ts ==> Handles(t, msg, invoke)
  {
    var k := FirstUnhandled(ts, msg, invoke);
    if k < |ts| {
      assert ts[k] in ts;
    }
  }

  /** `types.Where(implements c).Select(CreateInstance).Do(h => h.Handle(msg)).Done()`.
      `Where` only filters, so the lazy pipeline has the effects of handling
      every matching type in list order. */
  function HandleEach(types: seq<HandlerType>, c: Contract, msg: Message,
                      invoke: (HandlerId, Message) -> Reply<()>): (run: Run<()>)
    ensures HandledInOrder(Matching(types, c), msg, invoke, run)
    ensures run.outcome.Success? <==> forall t :: t in Matching(types, c) ==> Handles(t, msg, invoke)
    ensures Matching(types, c) == [] ==> run == Run([], Success(()))
  {
    var run := HandleAll(Matching(types, c), msg, invoke);
    HandledInOrderSucceeds(Matching(types, c), msg, invoke, run);
    run
  }

  /** `Dispatch<TBusCommand>`: the command goes to the first type in the
      command handler list that implements IHandleCommand<TBusCommand>. */
  function Dispatch(b: Broker, command: Message, invoke: (HandlerId, Message) -> Reply<()>): (run: Run<()>)
    ensures var m := Matching(b.typeProvider.commandHandlerTypes, CommandHandler(command.messageType));
            && (run.outcome == Failed(NoHandler) <==> m == [])
            && (m == [] ==> run.events == [])
            && (m != [] ==> run == InstantiateAndHandle(m[0], command, invoke))
    ensures |Trace(run.events, Instantiate)| <= 1 && |Trace(run.events, Invoke)| <= 1
  {
    var types, c := b.typeProvider.commandHandlerTypes, CommandHandler(command.messageType);
    FirstMatchIsHeadOfMatching(types, c);
    FirstHandled(types, c, command, invoke)
  }

  /** `Handle<TBusRequest, TBusResponse>`: the request goes to the first type in
      the request handler list that implements IHandleRequest<TBusRequest, TBusResponse>,
      and that handler's response is returned as it is. */
  function Handle(b: Broker, request: Message, responseType: MessageType,
                  invoke: (HandlerId, Message) -> Reply<Message>): (run: Run<Message>)
    ensures var m := Matching(b.typeProvider.requestHandlerTypes, RequestHandler(request.messageType, responseType));
            && (run.outcome == Failed(NoHandler) <==> m == [])
            && (m == [] ==> run.events == [])
            && (m != [] ==> run == InstantiateAndHandle(m[0], request, invoke))
            && (run.outcome.Success? <==> m != [] && Handles(m[0], request, invoke))
            && (run.outcome.Success? ==> run.outcome.value == invoke(m[0].id, request).value)
    ensures |Trace(run.events, Instantiate)| <= 1 && |Trace(run.events, Invoke)| <= 1
  {
    var types, c := b.typeProvider.requestHandlerTypes, RequestHandler(request.messageType, responseType);
    FirstMatchIsHeadOfMatching(types, c);
    FirstHandled(types, c, request, invoke)
  }

  /** The handler types `HandleMulticast<TBusRequest, TBusResponse>` sends the
      request to: every type in the request handler list that implements
      IHandleRequest<TBusRequest, TBusResponse>, in list order. */
  function HandleMulticastSelection(b: Broker, request: Message, responseType: MessageType): (selected: seq<HandlerType>)
    ensures var types := b.typeProvider.requestHandlerTypes;
            var c := RequestHandler(request.messageType, responseType);
            && selected == Matching(types, c)
            && (forall t :: t in selected <==> t in types && Implements(t, c))
            && (selected != [] <==> FirstMatch(types, c).Some?)
            && (selected != [] ==> selected[0] == types[FirstMatch(types, c).value])
  {
    var types, c := b.typeProvider.requestHandlerTypes, RequestHandler(request.messageType, responseType);
    FirstMatchIsHeadOfMatching(types, c);
    Matching(types, c)
  }

  /** `Handle` uses the same filter as `HandleMulticast` and keeps only its first type. */
  lemma HandleUsesFirstOfMulticastSelection(b: Broker, request: Message, responseType: MessageType,
                                            invoke: (HandlerId, Message) -> Reply<Message>)
    ensures var selected := HandleMulticastSelection(b, request, responseType);
            var run := Handle(b, request, responseType, invoke);
            && (selected == [] <==> run == Run([], Failed(NoHandler)))
            && (selected != [] ==> run == InstantiateAndHandle(selected[0], request, invoke))
  {
  }

  /** `PublishMulticast<TBusEvent>`: every type in the multicast event handler
      list that implements IHandleMulticastEvent<TBusEvent> handles the event, in order. */
  function PublishMulticast(b: Broker, busEvent: Message, invoke: (HandlerId, Message) -> Reply<()>): (run: Run<()>)
    ensures HandledInOrder(Matching(b.typeProvider.multicastEventHandlerTypes, MulticastEventHandler(busEvent.messageType)), busEvent, invoke, run)
    ensures run.outcome.Success? <==>
              forall t :: t in Matching(b.typeProvider.multicastEventHandlerTypes, MulticastEventHandler(busEvent.messageType)) ==> Handles(t, busEvent, invoke)
    ensures Matching(b.typeProvider.multicastEventHandlerTypes, MulticastEventHandler(busEvent.messageType)) == [] ==> run == Run([], Success(()))
  {
    HandleEach(b.typeProvider.multicastEventHandlerTypes, MulticastEventHandler(busEvent.messageType), busEvent, invoke)
  }

  /** `PublishCompeting<TBusEvent>`: every type in the competing event handler
      list that implements IHandleCompetingEvent<TBusEvent> handles the event, in order. */
  function PublishCompeting(b: Broker, busEvent: Message, invoke: (HandlerId, Message) -> Reply<()>): (run: Run<()>)
    ensures HandledInOrder(Matching(b.typeProvider.competingEventHandlerTypes, CompetingEventHandler(busEvent.messageType)), busEvent, invoke, run)
    ensures run.outcome.Success? <==>
              forall t :: t in Matching(b.typeProvider.competingEventHandlerTypes, CompetingEventHandler(busEvent.messageType)) ==> Handles(t, busEvent, invoke)
    ensures Matching(b.typeProvider.competingEventHandlerTypes, CompetingEventHandler(busEvent.messageType)) == [] ==> run == Run([], Success(()))
  {
    HandleEach(b.typeProvider.competingEventHandlerTypes, CompetingEventHandler(busEvent.messageType), busEvent, invoke)
  }

  /** Command dispatch reads only the command handler list, and only up to its
      first matching type: two brokers whose command lists agree on a prefix
      that holds a matching type dispatch identically, whatever follows it and
      whatever their other lists hold. */
  lemma DispatchLooksNoFurtherThanFirstMatch(b1: Broker, b2: Broker, command: Message,
                                             invoke: (HandlerId, Message) -> Reply<()>, n: nat)
    requires n <= |b1.typeProvider.commandHandlerTypes| && n <= |b2.typeProvider.commandHandlerTypes|
    requires b1.typeProvider.commandHandlerTypes[..n] == b2.typeProvider.commandHandlerTypes[..n]
    requires Matching(b1.typeProvider.commandHandlerTypes[..n], CommandHandler(command.messageType)) != []
    ensures Dispatch(b1, command, invoke) == Dispatch(b2, command, invoke)
  {
    var l1, l2 := b1.typeProvider.commandHandlerTypes, b2.typeProvider.commandHandlerTypes;
    assert l1 == l1[..n] + l1[n..];
    assert l2 == l1[..n] + l2[n..];
    FirstHandledStopsAtFirstMatch(l1[..n], l1[n..], l2[n..], CommandHandler(command.messageType), command, invoke);
  }

  /** Request handling reads only the request handler list, and only up to its
      first matching type. */
  lemma HandleLooksNoFurtherThanFirstMatch(b1: Broker, b2: Broker, request: Message, responseType: MessageType,
                                           invoke: (HandlerId, Message) -> Reply<Message>, n: nat)
    requires n <= |b1.typeProvider.requestHandlerTypes| && n <= |b2.typeProvider.requestHandlerTypes|
    requires b1.typeProvider.requestHandlerTypes[..n] == b2.typeProvider.requestHandlerTypes[..n]
    requires Matching(b1.typeProvider.requestHandlerTypes[..n], RequestHandler(request.messageType, responseType)) != []
    ensures Handle(b1, request, responseType, invoke) == Handle(b2, request, responseType, invoke)
  {
    var l1, l2 := b1.typeProvider.requestHandlerTypes, b2.typeProvider.requestHandlerTypes;
    assert l1 == l1[..n] + l1[n..];
    assert l2 == l1[..n] + l2[n..];
    FirstHandledStopsAtFirstMatch(l1[..n], l1[n..], l2[n..], RequestHandler(request.messageType, responseType), request, invoke);
  }
}
