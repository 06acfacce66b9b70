/** `GenericObserver<T>`: an observer assembled from three handlers. Console
    output is not modelled; what a handler does is the entry of type `L` it
    contributes to its owner's log. */
module GenericObservers {
  import opened Wrappers
  import opened DataPipeEvents

  /** The three stored handlers, and `cast`, the runtime conversion `(T)e`:
      `Some` where the conversion succeeds. The source casts without checking,
      so delivering an event that is not a `T` is excluded by precondition. */
  datatype GenericObserver<!T, L> = GenericObserver(
    onCompleted: () -> L,
    onError: Fault -> L,
    onNext: T -> L,
    cast: DataPipeEvent -> Option<T>)

  /** The observer may be handed this notification: an event must be a `T`. */
  predicate Accepts<T, L>(o: GenericObserver<T, L>, n: Notification) {
    n.OnNext? ==> o.cast(n.event).Some?
  }

  /** One interface call, dispatched to its handler. */
  function Receive<T, L>(o: GenericObserver<T, L>, n: Notification): (entry: L)
    requires Accepts(o, n)
    ensures n.OnNext? ==> entry == o.onNext(o.cast(n.event).value)
    ensures n.OnError? ==> entry == o.onError(n.fault)
    ensures n.OnCompleted? ==> entry == o.onCompleted()
  {
    match n
    case OnNext(e) => o.onNext(o.cast(e).value)
    case OnError(ex) => o.onError(ex)
    case OnCompleted => o.onCompleted()
  }

  /** A sequence of interface calls: each call runs exactly one handler, the
      one matching its kind, exactly once, in call order. */
  function ReceiveAll<T, L>(o: GenericObserver<T, L>, ns: seq<Notification>): (log: seq<L>)
    requires forall i :: 0 <= i < |ns| ==> Accepts(o, ns[i])
    ensures |log| == |ns|
    ensures forall i :: 0 <= i < |ns| && ns[i].OnNext? ==>
      o.cast(ns[i].event).Some? && log[i] == o.onNext(o.cast(ns[i].event).value)
    ensures forall i :: 0 <= i < |ns| && ns[i].OnError? ==> log[i] == o.onError(ns[i].fault)
    ensures forall i :: 0 <= i < |ns| && ns[i].OnCompleted? ==> log[i] == o.onCompleted()
    decreases |ns|
  {
    if ns == [] then []
    else ReceiveAll(o, ns[..|ns| - 1]) + [Receive(o, ns[|ns| - 1])]
  }

  /** The conversion `(DataPipeEvent)e`, the identity: every event is one. */
  function SameEvent(e: DataPipeEvent): Option<DataPipeEvent> {
    Some(e)
  }

  /** A `GenericObserver<DataPipeEvent>` whose handlers write down the call they
      received. */
  function Recorder(): GenericObserver<DataPipeEvent, Notification> {
    GenericObserver(() => OnCompleted, ex => OnError(ex), e => OnNext(e), SameEvent)
  }

  /** Forwarding loses nothing: a recording observer's log is exactly the
      sequence of calls it received, with every event passed on unchanged. */
  lemma {:induction false} RecorderLogsEveryCall(ns: seq<Notification>)
    ensures forall i :: 0 <= i < |ns| ==> Accepts(Recorder(), ns[i])
    ensures ReceiveAll(Recorder(), ns) == ns
  {
    var log := ReceiveAll(Recorder(), ns);
    forall i | 0 <= i < |ns|
      ensures log[i] == ns[i]
    {
      match ns[i]
      case OnNext(e) =>
      case OnError(ex) =>
      case OnCompleted =>
    }
  }
}
