# Multi-layer parameter-server master, modelled in Dafny

This project models the master actor of the multi-layer iterative-reduce
trainer (`multilayer/MasterActor.java`). The master runs as an actor that
handles one message at a time. Its state is:

- a buffer of worker contributions (`updates`);
- the number of contributions that triggers a reduction (`partition`);
- an epoch counter (`epochsComplete`);
- an optional completion listener;
- the current averaged network (`masterResults`).

Messages are dispatched by a chain of type tests, and the first test that
passes decides:

1. a pub/sub subscription acknowledgement is only logged;
2. an `EpochDoneListener` replaces the listener;
3. an `UpdateableImpl` (a worker contribution) is buffered. Once the buffer
   holds `partition` or more, a reduction runs. It averages the buffer into
   `masterResults`, calls the listener, counts the epoch, forwards the
   contribution to the batch actor and empties the buffer;
4. any other `Updateable` is republished on the BROADCAST topic;
5. a `List` of example pairs is handed to the worker dispatcher. A `Pair`
   of input and label matrices is first split into one pair per input row;
6. anything else goes to the actor's unhandled-message hook.

Files:

- `messages.dfy` (module `Messages`): the opaque network, row and listener
  types; matrices, example pairs, contributions; a message as the answers to
  the dispatch chain's type tests; `Classify`, which is the chain itself; the
  outbound events.
- `accumulation.dfy` (module `Accumulation`): the averaging accumulator as
  an uninterpreted left fold (`Averager`: a start state, an accumulate step
  and an averaging step) and `Average`, the result of one reduction.
- `rows.dfy` (module `RowSplit`): `rowsAsList`, the row-pair split of a
  `Pair` as a loop (`SplitPairIntoRows`) proved against `SplitPair`, and the
  lemmas that nothing is dropped, duplicated or reordered.
- `protocol.dfy` (module `MasterProtocol`): the master's state as a value,
  `Step` (one message) and `Run` (a sequence of messages), with the lemmas
  about thresholds, epochs, listeners and contribution accounting.
- `master.dfy` (module `Multilayer`): the class `MasterActor`, with the
  source's fields and an `outbox` log of everything sent. Its `OnReceive`
  follows the source's if/else-if chain and is proved to do what `Step`
  says. Its `Compute` is the accumulation loop.

Notes on how this code behaves:

- There is no termination branch: `epochsComplete` only grows
  (line 120), and nothing here shuts the cluster down. The single-network
  master (`single/MasterActor.java:102-115`) has such a branch; it is not
  part of this model.
- The per-epoch reset request to the batch actor is commented out
  (line 119), so no reset event exists.
- The threshold test is `>=` (line 114). Because every reduction empties
  the buffer, with `partition >= 1` a reduction fires once per
  `partition` contributions, as `OneReductionPerPartition`,
  `ContributionsAccounted` and `BatchesAreFull` show. With
  `partition < 1`, every contribution triggers its own reduction.
- `compute` overwrites the shared `masterResults` holder in place
  (line 60) rather than replacing it.

## Model

| member | source | states |
|---|---|---|
| Messages.Classify | deeplearning4j-scaleout/deeplearning4j-scaleout-akka/src/main/java/org/deeplearning4j/iterativereduce/actor/multilayer/MasterActor.java:100-168 | the kind of a message is decided by the first type test it passes, in the source's order: ack, listener, contribution, generic updateable, List, then Pair. Each kind has its flattened condition in both directions, including List before Pair, and carries the message viewed at that type (listener, contribution, example list, pair) |
| RowSplit.RowsAsList | deeplearning4j-scaleout/deeplearning4j-scaleout-akka/src/main/java/org/deeplearning4j/iterativereduce/actor/multilayer/MasterActor.java:153-154 | a matrix becomes as many one-row matrices as it has rows, the i-th holding row i; StackRowsPrefix proves the inverse, that re-stacking them gives the matrix back |
| RowSplit.SplitPairIntoRows | deeplearning4j-scaleout/deeplearning4j-scaleout-akka/src/main/java/org/deeplearning4j/iterativereduce/actor/multilayer/MasterActor.java:153-158 | the index loop yields exactly the row-pair split of the Pair, or fails at the first missing label index |
| RowSplit.SplitPairRows | deeplearning4j-scaleout/deeplearning4j-scaleout-akka/src/main/java/org/deeplearning4j/iterativereduce/actor/multilayer/MasterActor.java:153-158 | the split fails iff there are fewer label rows than input rows, with the index equal to the label count; otherwise it has one element per input row, the i-th being (input row i, label row i) |
| RowSplit.StackRowsPrefix | deeplearning4j-scaleout/deeplearning4j-scaleout-akka/src/main/java/org/deeplearning4j/iterativereduce/actor/multilayer/MasterActor.java:153-154 | stacking the one-row matrices of the first n rows gives back the matrix of those n rows (at n = all rows, the inverse of rowsAsList) |
| RowSplit.SplitPairRestacks | deeplearning4j-scaleout/deeplearning4j-scaleout-akka/src/main/java/org/deeplearning4j/iterativereduce/actor/multilayer/MasterActor.java:153-158 | a successful split drops, duplicates and reorders nothing: re-stacking the inputs gives the input matrix back, and re-stacking the labels gives the first n label rows, where n is the number of input rows |
| MasterProtocol.ContributionBelowPartition | deeplearning4j-scaleout/deeplearning4j-scaleout-akka/src/main/java/org/deeplearning4j/iterativereduce/actor/multilayer/MasterActor.java:110-114 | a contribution that leaves the buffer below partition is appended at its end; nothing else changes and nothing is sent |
| MasterProtocol.ContributionReachingPartition | deeplearning4j-scaleout/deeplearning4j-scaleout-akka/src/main/java/org/deeplearning4j/iterativereduce/actor/multilayer/MasterActor.java:114-122 | a contribution that brings the buffer to partition or more causes one reduction over the buffer with it appended: the master network becomes that average, the buffer empties, epochsComplete grows by exactly 1, the listener is unchanged, and the sent events are the listener's one notification (if a listener is set) followed by one forward of the contribution |
| MasterProtocol.RegistrationReplacesListener | deeplearning4j-scaleout/deeplearning4j-scaleout-akka/src/main/java/org/deeplearning4j/iterativereduce/actor/multilayer/MasterActor.java:105-107 | a registration installs the new listener and changes nothing else: buffer, counter, master network, no events |
| MasterProtocol.PassiveMessagesKeepState | deeplearning4j-scaleout/deeplearning4j-scaleout-akka/src/main/java/org/deeplearning4j/iterativereduce/actor/multilayer/MasterActor.java:100-168 | acks, relayed updateables, example lists and unrecognised messages leave the state unchanged and raise nothing; an ack sends nothing, an updateable is published verbatim on BROADCAST, a List is handed to the worker dispatcher as received, an unrecognised message goes to the unhandled hook |
| MasterProtocol.ContributionNeverBroadcast | deeplearning4j-scaleout/deeplearning4j-scaleout-akka/src/main/java/org/deeplearning4j/iterativereduce/actor/multilayer/MasterActor.java:110-133 | a contribution, although also an updateable, never yields a broadcast |
| MasterProtocol.PairSentAsRows | deeplearning4j-scaleout/deeplearning4j-scaleout-akka/src/main/java/org/deeplearning4j/iterativereduce/actor/multilayer/MasterActor.java:149-162 | a Pair leaves the state unchanged. If its labels run out first, it sends nothing and raises an index-out-of-bounds error. Otherwise it sends its row-pair split, one pair per input row |
| MasterProtocol.FillBelowPartition | deeplearning4j-scaleout/deeplearning4j-scaleout-akka/src/main/java/org/deeplearning4j/iterativereduce/actor/multilayer/MasterActor.java:110-114 | a run of contributions that keeps the buffer below partition only appends them, in order, and sends nothing |
| MasterProtocol.FillToPartition | deeplearning4j-scaleout/deeplearning4j-scaleout-akka/src/main/java/org/deeplearning4j/iterativereduce/actor/multilayer/MasterActor.java:110-122 | the contribution that fills the buffer to partition reduces every contribution of the epoch in arrival order, notifies and forwards once, and leaves the buffer empty with one more epoch |
| MasterProtocol.OneReductionPerPartition | deeplearning4j-scaleout/deeplearning4j-scaleout-akka/src/main/java/org/deeplearning4j/iterativereduce/actor/multilayer/MasterActor.java:112-122 | from an empty buffer with partition N >= 1, N contributions make exactly one reduction (one forward, epoch count +1, empty buffer) and the first N-1 make none |
| MasterProtocol.StepCountsForwards | deeplearning4j-scaleout/deeplearning4j-scaleout-akka/src/main/java/org/deeplearning4j/iterativereduce/actor/multilayer/MasterActor.java:120-121 | each message adds to epochsComplete exactly the number of forwards to the batch actor it sends |
| MasterProtocol.RunKeepsBufferBelowPartition | deeplearning4j-scaleout/deeplearning4j-scaleout-akka/src/main/java/org/deeplearning4j/iterativereduce/actor/multilayer/MasterActor.java:112-122 | over any run, the buffer stays below partition (or empty when partition < 1), partition is unchanged, and epochsComplete grows by the number of forwards sent |
| MasterProtocol.StepAccounts | deeplearning4j-scaleout/deeplearning4j-scaleout-akka/src/main/java/org/deeplearning4j/iterativereduce/actor/multilayer/MasterActor.java:112-122 | with partition >= 1, a contribution either joins the end of the buffer (epochs and network unchanged) or completes a batch of exactly partition contributions, buffer then contribution, that becomes the master network's average and leaves the buffer empty with one more epoch; other messages leave buffer, epochs and network alone |
| MasterProtocol.ContributionsAccounted | deeplearning4j-scaleout/deeplearning4j-scaleout-akka/src/main/java/org/deeplearning4j/iterativereduce/actor/multilayer/MasterActor.java:112-122 | with partition >= 1, the initially buffered contributions followed by a run's contributions equal the batches reduced during the run, concatenated in order, followed by what is still buffered: none lost, duplicated or reordered |
| MasterProtocol.BatchesAreFull | deeplearning4j-scaleout/deeplearning4j-scaleout-akka/src/main/java/org/deeplearning4j/iterativereduce/actor/multilayer/MasterActor.java:112-122 | with partition >= 1, every batch reduced during a run holds exactly partition contributions, epochsComplete grows by the number of batches, and the master network is the average of the last batch (unchanged if none) |
| MasterProtocol.ListenerIsLastRegistered | deeplearning4j-scaleout/deeplearning4j-scaleout-akka/src/main/java/org/deeplearning4j/iterativereduce/actor/multilayer/MasterActor.java:105-107 | last writer wins: after any run, the listener is the one registered last, or the initial one if none was registered |
| MasterProtocol.OnlyLatestListenerNotified | deeplearning4j-scaleout/deeplearning4j-scaleout-akka/src/main/java/org/deeplearning4j/iterativereduce/actor/multilayer/MasterActor.java:105-117 | after two registrations, the filling contribution notifies only the second listener, then forwards |
| Multilayer.MasterActor.constructor | deeplearning4j-scaleout/deeplearning4j-scaleout-akka/src/main/java/org/deeplearning4j/iterativereduce/actor/multilayer/MasterActor.java:40-43 | a master starts with an empty buffer, no epochs, no listener, the network built at setup, and an empty outbox |
| Multilayer.MasterActor.Compute | deeplearning4j-scaleout/deeplearning4j-scaleout-akka/src/main/java/org/deeplearning4j/iterativereduce/actor/multilayer/MasterActor.java:52-63 | the master network becomes, and the result is, the average of the worker networks folded through a fresh accumulator in order; masterUpdates has no influence |
| Multilayer.MasterActor.OnReceive | deeplearning4j-scaleout/deeplearning4j-scaleout-akka/src/main/java/org/deeplearning4j/iterativereduce/actor/multilayer/MasterActor.java:100-169 | the new fields, the events appended to the outbox and the escaping error are exactly those of Step for the old fields and the message |

## Left out

- Akka plumbing is not modelled: `propsFor`, the mediator, the `ActorRef` sends and the cluster. Every send is an event appended to `outbox`, and log lines are not recorded.
- The body of `setup` is not modelled (lines 68-95): random-generator seeding, network construction, starting a local worker and the initial broadcasts. The network it builds is the constructor's `initial` parameter.
- The fields of the base class `core.actor.MasterActor` are not part of this model. The constructor assumes they start as an empty buffer, zero epochs and no listener.
- The arithmetic of `DeepLearningAccumulator` is not part of this model. It is an uninterpreted fold, so averaging and floating point are not modelled.
- `complete` (binary serialisation of the network, lines 173-175) is not modelled.
- `splitListIntoRows` and `sendToWorkers` belong to the base class and are not part of this model. A `List` message is recorded as handed to the dispatcher unchanged (line 144).
- Unchecked casts are not modelled: a `List` or `Pair` whose elements are not matrices would throw `ClassCastException`.
- Multilayer.MasterActor.OnReceive: the listener's `epochComplete` is assumed to return normally, and the matrices of a `Pair` are assumed non-null. In the source, a throwing listener escapes after `masterResults` is replaced (line 115) but before the epoch count, the forward and the clear (lines 120-122), so the full buffer stays. A null matrix throws `NullPointerException` at line 153. Neither case is modelled.
- Matrix column counts are not modelled: a matrix is its list of rows.
- `synchronized` on `compute` and any concurrency are not modelled. The model is one sequential handler.
- An exception escaping `onReceive` ends a `Run`. What the actor's supervisor then does (by default, restart the actor with fresh state) is not modelled.
- Multilayer.MasterActor.OnReceive: `epochsComplete` is unbounded. The Java `int` would wrap after 2^31 - 1 reductions.
- Multilayer.MasterActor.Compute: `masterResults` is held as a value. The source overwrites the shared `UpdateableImpl` in place (line 60), so a network handed to the listener earlier changes at the next reduction. This aliasing is not modelled.
