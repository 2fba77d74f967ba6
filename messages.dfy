/**
 * The values the multi-layer parameter-server master receives and emits.
 *
 * The network itself, a matrix row and a completion listener are opaque:
 * the master never looks inside them, it only stores, compares and passes
 * them on.
 */
module Messages {

  /** The parameters of a multi-layer network (what `UpdateableImpl.get()` yields). */
  type Network

  /** One row of a `DoubleMatrix`. */
  type RowVector

  /** An `EpochDoneListener`, identified only as the object it is. */
  type Listener

  /** A `DoubleMatrix`, seen as its list of rows. */
  datatype Matrix = Matrix(rows: seq<RowVector>)

  /** A `Pair<DoubleMatrix, DoubleMatrix>` of inputs and labels. */
  datatype Example = Example(first: Matrix, second: Matrix)

  /** A worker contribution (`UpdateableImpl`): a holder of one network. */
  datatype Update = Update(net: Network)

  /**
   * An incoming message is an arbitrary object. Dispatch tests it against a
   * chain of types, and one object may be an instance of several of them, so
   * the message records each test's answer (with the object viewed at that
   * type when the test succeeds).
   */
  datatype Msg = Msg(
    subscribeAck: bool,             // a DistributedPubSubMediator.SubscribeAck
    listener: Option<Listener>,     // an EpochDoneListener
    update: Option<Update>,         // an UpdateableImpl
    updateable: bool,               // an Updateable of any kind
    list: Option<seq<Example>>,     // a List of example pairs
    pair: Option<Example>)          // a Pair of input and label matrices

  datatype Option<T> = None | Some(value: T)

  /** What the dispatch chain decides a message is. */
  datatype Kind =
    | SubscribeAck
    | RegisterListener(listener: Listener)
    | Contribution(update: Update)
    | Relay
    | ExampleList(examples: seq<Example>)
    | ExamplePair(pair: Example)
    | Unrecognized

  /**
   * The type tests in their order: an object is classified by the FIRST
   * test it passes, so the flattened conditions below are what each kind
   * really requires of a message.
   */
  function Classify(m: Msg): (k: Kind)
    ensures k.SubscribeAck? <==> m.subscribeAck
    ensures k.RegisterListener? <==> !m.subscribeAck && m.listener.Some?
    ensures k.Contribution? <==> !m.subscribeAck && m.listener.None? && m.update.Some?
    ensures k.Relay? <==> !m.subscribeAck && m.listener.None? && m.update.None? && m.updateable
    ensures k.ExampleList? <==>
              !m.subscribeAck && m.listener.None? && m.update.None? && !m.updateable
              && m.list.Some?
    ensures k.ExamplePair? <==>
              !m.subscribeAck && m.listener.None? && m.update.None? && !m.updateable
              && m.list.None? && m.pair.Some?
    ensures k.Unrecognized? <==>
              !m.subscribeAck && m.listener.None? && m.update.None? && !m.updateable
              && m.list.None? && m.pair.None?
    ensures k.RegisterListener? ==> k.listener == m.listener.value
    ensures k.Contribution? ==> k.update == m.update.value
    ensures k.ExampleList? ==> k.examples == m.list.value
    ensures k.ExamplePair? ==> k.pair == m.pair.value
  {
    if m.subscribeAck then SubscribeAck
    else if m.listener.Some? then RegisterListener(m.listener.value)
    else if m.update.Some? then Contribution(m.update.value)
    else if m.updateable then Relay
    else if m.list.Some? then ExampleList(m.list.value)
    else if m.pair.Some? then ExamplePair(m.pair.value)
    else Unrecognized
  }

  /** The exception a message handler can let escape. */
  datatype Error = IndexOutOfBounds(index: int)

  datatype Result<T> = Ok(value: T) | Failed(error: Error)

  /** One entry of the master's outbound log. */
  datatype Event =
    | EpochComplete(listener: Listener, result: Network)  // the listener's callback
    | Forwarded(update: Update)                          // a send to the batch actor
    | Broadcast(message: Msg)                            // a publish on the BROADCAST topic
    | SentToWorkers(work: seq<Example>)                  // a hand-off to the worker dispatcher
    | Unhandled(message: Msg)                            // the actor's unhandled-message hook
}
