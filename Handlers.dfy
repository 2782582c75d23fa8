/**
 The handler types a message broker can pick from, and the two ways it picks:
 the first type that implements a handler interface, or every such type in
 order. Reflection is replaced by an explicit capability set per handler type.
 */
module Handlers {

  datatype Option<T> = None | Some(value: T)

  /** The name of a message contract type (a command, request, response or event class). */
  type MessageType = string

  /** Identifies a concrete handler type. */
  type HandlerId = nat

  /** A bus message: its contract type and its content. */
  datatype Message = Message(messageType: MessageType, content: string)

  /** The closed generic handler interfaces a handler type can implement:
      IHandleCommand<TCommand>, IHandleRequest<TRequest, TResponse>,
      IHandleMulticastEvent<TEvent> and IHandleCompetingEvent<TEvent>. */
  datatype Contract =
    | CommandHandler(command: MessageType)
    | RequestHandler(request: MessageType, response: MessageType)
    | MulticastEventHandler(eventType: MessageType)
    | CompetingEventHandler(eventType: MessageType)

  /** An exception value: its .NET type name and its message. */
  datatype Fault = Fault(exceptionType: string, message: string)

  /** What creating an instance through the parameterless constructor does. */
  datatype Construction = DefaultConstructible | ConstructorFails(inner: Fault)

  /** A concrete handler type: the interfaces it is assignable to and how it constructs. */
  datatype HandlerType = HandlerType(id: HandlerId, implements: set<Contract>, construction: Construction)

  /** The four handler-type lists a type provider exposes, one per dispatch mode. */
  datatype TypeProvider = TypeProvider(
    commandHandlerTypes: seq<HandlerType>,
    requestHandlerTypes: seq<HandlerType>,
    multicastEventHandlerTypes: seq<HandlerType>,
    competingEventHandlerTypes: seq<HandlerType>)

  /** `typeof(contract).IsAssignableFrom(t)` */
  predicate Implements(t: HandlerType, c: Contract)
  {
    c in t.implements
  }

  /** The `Where` filter: the types that implement `c`, in list order. */
  function Matching(types: seq<HandlerType>, c: Contract): (r: seq<HandlerType>)
    ensures |r| <= |types|
    ensures forall t :: t in r <==> t in types && Implements(t, c)
  {
    if types == [] then []
    else (if Implements(types[0], c) then [types[0]] else []) + Matching(types[1..], c)
  }

  /** The index of the first type in `types` that implements `c`, if any. */
  function FirstMatch(types: seq<HandlerType>, c: Contract): (r: Option<nat>)
    ensures r.Some? ==> r.value < |types| && Implements(types[r.value], c)
    ensures r.Some? ==> forall j :: 0 <= j < r.value ==> !Implements(types[j], c)
    ensures r.None? <==> forall j :: 0 <= j < |types| ==> !Implements(types[j], c)
  {
    if types == [] then None
    else if Implements(types[0], c) then Some(0)
    else match FirstMatch(types[1..], c)
      case None => None
      case Some(i) => Some(i + 1)
  }

  /** The ids of a list of handler types, in order. */
  function Ids(types: seq<HandlerType>): seq<HandlerId>
  {
    if types == [] then [] else [types[0].id] + Ids(types[1..])
  }

  lemma IdsCons(t: HandlerType, ts: seq<HandlerType>)
    ensures Ids([t] + ts) == [t.id] + Ids(ts)
  {
    assert ([t] + ts)[1..] == ts;
  }

  lemma IdsOfConsPrefix(t: HandlerType, ts: seq<HandlerType>, n: nat)
    ensures n <= |ts| ==> Ids(([t] + ts)[..n + 1]) == [t.id] + Ids(ts[..n])
  {
    if n <= |ts| {
      assert ([t] + ts)[..n + 1] == [t] + ts[..n];
      IdsCons(t, ts[..n]);
    }
  }

  /** Filtering preserves order: it distributes over concatenation. */
  lemma {:induction false} MatchingAppend(a: seq<HandlerType>, b: seq<HandlerType>, c: Contract)
    ensures Matching(a + b, c) == Matching(a, c) + Matching(b, c)
  {
    if a == [] {
      assert a + b == b;
    } else {
      var h := if Implements(a[0], c) then [a[0]] else [];
      assert (a + b)[0] == a[0] && (a + b)[1..] == a[1..] + b;
      MatchingAppend(a[1..], b, c);
      calc {
        Matching(a + b, c);
        h + Matching(a[1..] + b, c);
        h + (Matching(a[1..], c) + Matching(b, c));
        (h + Matching(a[1..], c)) + Matching(b, c);
      }
    }
  }

  /** The first matching type is the head of the filtered list, and there is
      one exactly when the filtered list is not empty. */
  lemma {:induction false} FirstMatchIsHeadOfMatching(types: seq<HandlerType>, c: Contract)
    ensures FirstMatch(types, c).Some? <==> Matching(types, c) != []
    ensures FirstMatch(types, c).Some? ==> Matching(types, c)[0] == types[FirstMatch(types, c).value]
  {
    if types != [] && !Implements(types[0], c) {
      FirstMatchIsHeadOfMatching(types[1..], c);
    }
  }

  /** What the broker did to a handler type. */
  datatype Step = Instantiate | Invoke

  /** One entry of a broker run's log: `CreateInstance` was called on the
      handler type, or `Handle` was called on an instance of it. */
  datatype Event = Event(step: Step, handler: HandlerId)

  /** The handler ids of the events of one kind, in order. */
  function Trace(events: seq<Event>, step: Step): seq<HandlerId>
  {
    if events == [] then []
    else (if events[0].step == step then [events[0].handler] else []) + Trace(events[1..], step)
  }

  lemma {:induction false} TraceAppend(a: seq<Event>, b: seq<Event>, step: Step)
    ensures Trace(a + b, step) == Trace(a, step) + Trace(b, step)
  {
    if a == [] {
      assert a + b == b;
    } else {
      var h := if a[0].step == step then [a[0].handler] else [];
      assert (a + b)[0] == a[0] && (a + b)[1..] == a[1..] + b;
      TraceAppend(a[1..], b, step);
      calc {
        Trace(a + b, step);
        h + Trace(a[1..] + b, step);
        h + (Trace(a[1..], step) + Trace(b, step));
        (h + Trace(a[1..], step)) + Trace(b, step);
      }
    }
  }
}
