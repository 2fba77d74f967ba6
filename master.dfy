/**
 * The multi-layer master actor: a parameter server that buffers worker
 * contributions, averages them into the master network once `partition`
 * of them have arrived, and relays or splits the other messages it gets.
 *
 * Everything it sends (to the pub/sub mediator, the batch actor, the
 * listener, the worker dispatcher, the unhandled-message hook) is appended
 * to `outbox`.
 */
module Multilayer {
  import opened Messages
  import opened Accumulation
  import opened RowSplit
  import opened MasterProtocol

  class MasterActor {
    var updates: seq<Update>
    const partition: int
    var epochsComplete: nat
    var listener: Option<Listener>
    var masterResults: Network
    var outbox: seq<Event>
    /** The accumulator each reduction starts afresh. */
    const averager: Averager

    /** The fields message handling works on, as a protocol state. */
    function Fields(): State
      reads this
    {
      State(updates, partition, epochsComplete, listener, masterResults)
    }

    /**
     * A master that has been set up: no contributions yet, no epochs done,
     * no listener, and `initial` as the master network.
     */
    constructor (partition: int, initial: Network, averager: Averager)
      ensures Fields() == State([], partition, 0, None, initial)
      ensures this.averager == averager && outbox == []
    {
      this.partition := partition;
      this.averager := averager;
      updates := [];
      epochsComplete := 0;
      listener := None;
      masterResults := initial;
      outbox := [];
    }

    /**
     * Folds every worker network into a fresh accumulator, stores the
     * average as the master network and returns it. `masterUpdates` plays
     * no part in the result.
     */
    method Compute(workerUpdates: seq<Update>, masterUpdates: seq<Update>) returns (r: Network)
      modifies this`masterResults
      ensures masterResults == r == Average(averager, workerUpdates)
    {
      var acc := averager.empty;
      for i := 0 to |workerUpdates|
        invariant acc == Folded(averager, Nets(workerUpdates[..i]))
      {
        assert Nets(workerUpdates[..i + 1])[..i] == Nets(workerUpdates[..i]);
        acc := averager.accumulate(acc, workerUpdates[i].net);
      }
      assert workerUpdates[..|workerUpdates|] == workerUpdates;
      masterResults := averager.averaged(acc);
      r := masterResults;
    }

    /** Handles one message, as `Step` describes. */
    method OnReceive(m: Msg) returns (raised: Option<Error>)
      modifies this
      ensures var r := Step(averager, old(Fields()), m);
              Fields() == r.next && outbox == old(outbox) + r.sent && raised == r.raised
    {
      raised := None;
      if m.subscribeAck {
        // logged only
      } else if m.listener.Some? {
        listener := m.listener;
      } else if m.update.Some? {
        var up := m.update.value;
        updates := updates + [up];
        if |updates| >= partition {
          masterResults := Compute(updates, updates);
          if listener.Some? {
            outbox := outbox + [EpochComplete(listener.value, masterResults)];
          }
          epochsComplete := epochsComplete + 1;
          outbox := outbox + [Forwarded(up)];
          updates := [];
        }
      } else if m.updateable {
        outbox := outbox + [Broadcast(m)];
      } else if m.list.Some? || m.pair.Some? {
        if m.list.Some? {
          outbox := outbox + [SentToWorkers(m.list.value)];
        } else {
          var split := SplitPairIntoRows(m.pair.value);
          match split
          case Ok(pairs) =>
            outbox := outbox + [SentToWorkers(pairs)];
          case Failed(e) =>
            raised := Some(e);
        }
      } else {
        outbox := outbox + [Unhandled(m)];
      }
    }
  }
}
