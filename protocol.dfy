/**
 * The master's message handling as a function of its state: one step per
 * message, and runs of steps over a sequence of messages. The class in
 * master.dfy is proved to behave as `Step` says; the lemmas here state what
 * that behaviour promises.
 */
module MasterProtocol {
  import opened Messages
  import opened Accumulation
  import opened RowSplit

  /** The fields of the master that message handling reads and writes. */
  datatype State = State(
    updates: seq<Update>,         // contributions buffered in this epoch
    partition: int,               // how many contributions trigger a reduction
    epochsComplete: nat,          // reductions performed so far
    listener: Option<Listener>,   // the registered completion listener, if any
    masterResults: Network)       // the current averaged network

  /** The outcome of handling one message. */
  datatype Reaction = Reaction(next: State, sent: seq<Event>, raised: Option<Error>)

  /** The listener callback a reduction makes: none when no listener is registered. */
  function Notify(listener: Option<Listener>, result: Network): seq<Event>
  {
    if listener.Some? then [EpochComplete(listener.value, result)] else []
  }

  /**
   * A worker contribution: buffer it, and once the buffer holds `partition`
   * or more, average the buffer into the master network, tell the listener,
   * count the epoch, forward the contribution to the batch actor and empty
   * the buffer.
   */
  function Contribute(avg: Averager, s: State, up: Update): Reaction
  {
    var buffered := s.updates + [up];
    if |buffered| >= s.partition then
      var result := Average(avg, buffered);
      Reaction(s.(updates := [], epochsComplete := s.epochsComplete + 1, masterResults := result),
               Notify(s.listener, result) + [Forwarded(up)], None)
    else
      Reaction(s.(updates := buffered), [], None)
  }

  /** Handling one message. */
  function Step(avg: Averager, s: State, m: Msg): Reaction
  {
    match Classify(m)
    case SubscribeAck => Reaction(s, [], None)
    case RegisterListener(l) => Reaction(s.(listener := Some(l)), [], None)
    case Contribution(up) => Contribute(avg, s, up)
    case Relay => Reaction(s, [Broadcast(m)], None)
    case ExampleList(examples) => Reaction(s, [SentToWorkers(examples)], None)
    case ExamplePair(pair) =>
      (match SplitPair(pair)
       case Ok(pairs) => Reaction(s, [SentToWorkers(pairs)], None)
       case Failed(e) => Reaction(s, [], Some(e)))
    case Unrecognized => Reaction(s, [Unhandled(m)], None)
  }

  /** The master after a sequence of messages and everything it sent meanwhile. */
  datatype Trace = Trace(last: State, sent: seq<Event>, raised: Option<Error>)

  /**
   * Handling `ms` in order. An exception escaping a handler ends the run:
   * what the actor's supervisor does next is outside this model.
   */
  function Run(avg: Averager, s: State, ms: seq<Msg>): Trace
  {
    if ms == [] then Trace(s, [], None)
    else
      var t := Run(avg, s, ms[..|ms| - 1]);
      if t.raised.Some? then t
      else
        var r := Step(avg, t.last, ms[|ms| - 1]);
        Trace(r.next, t.sent + r.sent, r.raised)
  }

  // ---------------------------------------------------------------------
  // One step
  // ---------------------------------------------------------------------

  /**
   * A contribution that leaves the buffer below `partition` is appended to
   * it and changes nothing else: no reduction, nothing sent.
   */
  lemma ContributionBelowPartition(avg: Averager, s: State, m: Msg)
    requires Classify(m).Contribution?
    requires |s.updates| + 1 < s.partition
    ensures Step(avg, s, m) ==
              Reaction(s.(updates := s.updates + [m.update.value]), [], None)
  {
  }

  /**
   * A contribution that brings the buffer to `partition` or beyond triggers
   * exactly one reduction over the whole buffer, this contribution last:
   * the master network becomes its average, the buffer empties, the epoch
   * count grows by one, and the listener (if any) is told of the new network
   * once, before the contribution is forwarded once to the batch actor.
   */
  lemma ContributionReachingPartition(avg: Averager, s: State, m: Msg)
    requires Classify(m).Contribution?
    requires |s.updates| + 1 >= s.partition
    ensures var up := m.update.value;
            var result := Average(avg, s.updates + [up]);
            var r := Step(avg, s, m);
            r.next == State([], s.partition, s.epochsComplete + 1, s.listener, result) &&
            r.raised.None? &&
            r.sent == (if s.listener.Some? then [EpochComplete(s.listener.value, result)] else [])
                      + [Forwarded(up)]
  {
  }

  /** Registering a listener replaces the previous one and changes nothing else. */
  lemma RegistrationReplacesListener(avg: Averager, s: State, m: Msg)
    requires Classify(m).RegisterListener?
    ensures Step(avg, s, m) == Reaction(s.(listener := Some(m.listener.value)), [], None)
  {
  }

  /**
   * Subscription acknowledgements, relayed updates, example batches and
   * unrecognised messages leave the state alone, and only a Pair can raise.
   * A relayed update is published verbatim, a List is handed to the worker
   * dispatcher as it came, and an unrecognised message goes to the
   * unhandled hook.
   */
  lemma PassiveMessagesKeepState(avg: Averager, s: State, m: Msg)
    requires !Classify(m).RegisterListener? && !Classify(m).Contribution?
    ensures Step(avg, s, m).next == s
    ensures Classify(m).SubscribeAck? ==> Step(avg, s, m) == Reaction(s, [], None)
    ensures !Classify(m).ExamplePair? ==> Step(avg, s, m).raised.None?
    ensures Classify(m).Relay? ==> Step(avg, s, m).sent == [Broadcast(m)]
    ensures Classify(m).ExampleList? ==> Step(avg, s, m).sent == [SentToWorkers(m.list.value)]
    ensures Classify(m).Unrecognized? ==> Step(avg, s, m).sent == [Unhandled(m)]
  {
  }

  /**
   * A worker contribution is never relayed on the broadcast topic, even
   * though every contribution is also an updateable: the contribution test
   * comes first.
   */
  lemma ContributionNeverBroadcast(avg: Averager, s: State, m: Msg)
    requires m.update.Some? && m.updateable
    requires !m.subscribeAck && m.listener.None?
    ensures forall i :: 0 <= i < |Step(avg, s, m).sent| ==> !Step(avg, s, m).sent[i].Broadcast?
  {
  }

  /** A Pair is sent on as its rows, or raises when its labels run out first. */
  lemma PairSentAsRows(avg: Averager, s: State, m: Msg)
    requires Classify(m).ExamplePair?
    ensures var p := m.pair.value;
            var r := Step(avg, s, m);
            r.next == s &&
            (|p.second.rows| < |p.first.rows| ==>
               r.sent == [] && r.raised == Some(IndexOutOfBounds(|p.second.rows|))) &&
            (|p.second.rows| >= |p.first.rows| ==>
               r.raised.None? && r.sent == [SentToWorkers(SplitPair(p).value)] &&
               |SplitPair(p).value| == |p.first.rows|)
  {
    SplitPairRows(m.pair.value);
  }

  // ---------------------------------------------------------------------
  // Runs of messages
  // ---------------------------------------------------------------------

  /** Every message of `ms` is classified as a worker contribution. */
  ghost predicate AllContributions(ms: seq<Msg>)
  {
    forall i :: 0 <= i < |ms| ==> Classify(ms[i]).Contribution?
  }

  /** The contributions carried by `ms`, in order. */
  function Contributed(ms: seq<Msg>): (ups: seq<Update>)
    requires AllContributions(ms)
    ensures |ups| == |ms|
    ensures forall i :: 0 <= i < |ms| ==> ups[i] == ms[i].update.value
  {
    if ms == [] then [] else Contributed(ms[..|ms| - 1]) + [ms[|ms| - 1].update.value]
  }

  /** Contributions that keep the buffer below `partition` are only buffered. */
  lemma {:induction false} FillBelowPartition(avg: Averager, s: State, ms: seq<Msg>)
    requires AllContributions(ms)
    requires |s.updates| + |ms| < s.partition
    ensures Run(avg, s, ms) == Trace(s.(updates := s.updates + Contributed(ms)), [], None)
  {
    if ms != [] {
      var init := ms[..|ms| - 1];
      assert AllContributions(init);
      FillBelowPartition(avg, s, init);
      assert s.updates + Contributed(ms) == s.updates + Contributed(init) + [ms[|ms| - 1].update.value];
    } else {
      assert s.updates + Contributed(ms) == s.updates;
    }
  }

  /**
   * The contribution that fills the buffer to exactly `partition` performs
   * one reduction over every contribution of the epoch in arrival order.
   */
  lemma FillToPartition(avg: Averager, s: State, ms: seq<Msg>)
    requires AllContributions(ms) && ms != []
    requires |s.updates| + |ms| == s.partition
    ensures var t := Run(avg, s, ms);
            var result := Average(avg, s.updates + Contributed(ms));
            t.last == State([], s.partition, s.epochsComplete + 1, s.listener, result) &&
            t.raised.None? &&
            t.sent == Notify(s.listener, result) + [Forwarded(ms[|ms| - 1].update.value)]
  {
    var init := ms[..|ms| - 1];
    assert AllContributions(init);
    FillBelowPartition(avg, s, init);
    assert s.updates + Contributed(ms) == s.updates + Contributed(init) + [ms[|ms| - 1].update.value];
  }

  /**
   * From an empty buffer and `partition == N >= 1`: N contributions make
   * exactly one reduction (one forward, one more epoch, empty buffer), and
   * the first N - 1 of them make none.
   */
  lemma OneReductionPerPartition(avg: Averager, s: State, ms: seq<Msg>)
    requires AllContributions(ms)
    requires s.updates == [] && s.partition == |ms| >= 1
    ensures Run(avg, s, ms).last.epochsComplete == s.epochsComplete + 1
    ensures Run(avg, s, ms).last.updates == []
    ensures Forwards(Run(avg, s, ms).sent) == 1
    ensures Run(avg, s, ms[..|ms| - 1]).last.epochsComplete == s.epochsComplete
    ensures Run(avg, s, ms[..|ms| - 1]).sent == []
  {
    FillToPartition(avg, s, ms);
    var init := ms[..|ms| - 1];
    assert AllContributions(init);
    FillBelowPartition(avg, s, init);
    var result := Average(avg, s.updates + Contributed(ms));
    var up := ms[|ms| - 1].update.value;
    ForwardsAppend(Notify(s.listener, result), [Forwarded(up)]);
    ForwardsAppend([], [Forwarded(up)]);
  }

  /** How many forwards to the batch actor `sent` holds. */
  function Forwards(sent: seq<Event>): nat
  {
    if sent == [] then 0
    else Forwards(sent[..|sent| - 1]) + (if sent[|sent| - 1].Forwarded? then 1 else 0)
  }

  lemma {:induction false} ForwardsAppend(a: seq<Event>, b: seq<Event>)
    ensures Forwards(a + b) == Forwards(a) + Forwards(b)
    decreases |b|
  {
    if b == [] {
      assert a + b == a;
    } else {
      var init := b[..|b| - 1];
      ForwardsAppend(a, init);
      assert (a + b)[..|a + b| - 1] == a + init;
    }
  }

  /** The buffer bound a run keeps: below `partition`, or empty when it is below 1. */
  ghost predicate BufferBelowPartition(s: State)
  {
    |s.updates| < s.partition || s.updates == []
  }

  /**
   * After every handled message the buffer is below `partition` (empty when
   * `partition` is below 1), `partition` is unchanged, and every epoch
   * counted is matched by exactly one forward to the batch actor.
   */
  lemma {:induction false} RunKeepsBufferBelowPartition(avg: Averager, s: State, ms: seq<Msg>)
    requires BufferBelowPartition(s)
    ensures BufferBelowPartition(Run(avg, s, ms).last)
    ensures Run(avg, s, ms).last.partition == s.partition
    ensures Run(avg, s, ms).last.epochsComplete == s.epochsComplete + Forwards(Run(avg, s, ms).sent)
  {
    if ms != [] {
      var init := ms[..|ms| - 1];
      RunKeepsBufferBelowPartition(avg, s, init);
      var t := Run(avg, s, init);
      if t.raised.None? {
        var r := Step(avg, t.last, ms[|ms| - 1]);
        ForwardsAppend(t.sent, r.sent);
        StepCountsForwards(avg, t.last, ms[|ms| - 1]);
      }
    }
  }

  /** One step adds to the epoch count exactly the forwards it sends. */
  lemma StepCountsForwards(avg: Averager, s: State, m: Msg)
    ensures Step(avg, s, m).next.epochsComplete == s.epochsComplete + Forwards(Step(avg, s, m).sent)
  {
    var r := Step(avg, s, m);
    assert Forwards([]) == 0;
    match Classify(m)
    case Contribution(up) =>
      if |s.updates| + 1 >= s.partition {
        var result := Average(avg, s.updates + [up]);
        ForwardsAppend(Notify(s.listener, result), [Forwarded(up)]);
        assert [Forwarded(up)][..0] == [];
        if s.listener.Some? {
          assert [EpochComplete(s.listener.value, result)][..0] == [];
        }
      }
    case _ =>
      NoForwards(r.sent);
  }

  lemma {:induction false} NoForwards(sent: seq<Event>)
    requires forall i :: 0 <= i < |sent| ==> !sent[i].Forwarded?
    ensures Forwards(sent) == 0
  {
    if sent != [] {
      NoForwards(sent[..|sent| - 1]);
    }
  }

  /** The worker contributions among `ms`, in arrival order. */
  function ContributionsIn(ms: seq<Msg>): seq<Update>
  {
    if ms == [] then []
    else ContributionsIn(ms[..|ms| - 1]) +
         (if Classify(ms[|ms| - 1]).Contribution? then [ms[|ms| - 1].update.value] else [])
  }

  /**
   * The batches reduced while handling `ms`, in order: each is the buffer,
   * with the filling contribution appended, that a reduction averaged.
   */
  function Reduced(avg: Averager, s: State, ms: seq<Msg>): seq<seq<Update>>
  {
    if ms == [] then []
    else
      var init := ms[..|ms| - 1];
      var t := Run(avg, s, init);
      if t.raised.Some? then Reduced(avg, s, init)
      else match Classify(ms[|ms| - 1])
        case Contribution(up) =>
          if |t.last.updates| + 1 >= t.last.partition
          then Reduced(avg, s, init) + [t.last.updates + [up]]
          else Reduced(avg, s, init)
        case _ => Reduced(avg, s, init)
  }

  /** The batches one after another. */
  function Flatten(bs: seq<seq<Update>>): seq<Update>
  {
    if bs == [] then [] else Flatten(bs[..|bs| - 1]) + bs[|bs| - 1]
  }

  /**
   * No contribution is lost, duplicated or reordered: with `partition >= 1`,
   * the contributions buffered at the start followed by those of a run are
   * exactly the batches reduced during the run, one after another, followed
   * by what is still buffered.
   */
  lemma {:induction false} ContributionsAccounted(avg: Averager, s: State, ms: seq<Msg>)
    requires 1 <= s.partition && |s.updates| < s.partition
    requires Run(avg, s, ms).raised.None?
    ensures s.updates + ContributionsIn(ms) == Flatten(Reduced(avg, s, ms)) + Run(avg, s, ms).last.updates
  {
    if ms == [] {
      assert s.updates + ContributionsIn(ms) == Flatten([]) + s.updates;
    } else {
      var init := ms[..|ms| - 1];
      var m := ms[|ms| - 1];
      LastStep(avg, s, ms);
      var t := Run(avg, s, init);
      ContributionsAccounted(avg, s, init);
      var extra := if Classify(m).Contribution? then [m.update.value] else [];
      var reduces := Classify(m).Contribution? && |t.last.updates| + 1 >= t.last.partition;
      assert Step(avg, t.last, m).next.updates == if reduces then [] else t.last.updates + extra;
      BooksExtend(s.updates, ContributionsIn(init), Reduced(avg, s, init), t.last.updates, extra, reduces);
    }
  }

  /** The bookkeeping identity survives one more message's worth of contributions. */
  lemma BooksExtend(pre: seq<Update>, cs: seq<Update>, bs: seq<seq<Update>>, buf: seq<Update>,
                    extra: seq<Update>, reduces: bool)
    requires pre + cs == Flatten(bs) + buf
    ensures pre + (cs + extra) ==
              if reduces then Flatten(bs + [buf + extra]) + [] else Flatten(bs) + (buf + extra)
  {
    assert (bs + [buf + extra])[..|bs|] == bs;
    assert pre + (cs + extra) == (pre + cs) + extra;
    assert Flatten(bs + [buf + extra]) == Flatten(bs) + (buf + extra);
  }

  /**
   * With `partition >= 1`, every batch reduced in a run holds exactly
   * `partition` contributions, each reduction counts one epoch, and the
   * master network is the average of the last batch (unchanged when nothing
   * was reduced).
   */
  lemma {:induction false} BatchesAreFull(avg: Averager, s: State, ms: seq<Msg>)
    requires 1 <= s.partition && |s.updates| < s.partition
    requires Run(avg, s, ms).raised.None?
    ensures var t := Run(avg, s, ms);
            var bs := Reduced(avg, s, ms);
            (forall i :: 0 <= i < |bs| ==> |bs[i]| == s.partition) &&
            t.last.epochsComplete == s.epochsComplete + |bs| &&
            (bs == [] ==> t.last.masterResults == s.masterResults) &&
            (bs != [] ==> t.last.masterResults == Average(avg, bs[|bs| - 1]))
  {
    if ms != [] {
      var init := ms[..|ms| - 1];
      var m := ms[|ms| - 1];
      LastStep(avg, s, ms);
      var t := Run(avg, s, init);
      BatchesAreFull(avg, s, init);
      RunKeepsBufferBelowPartition(avg, s, init);
      StepAccounts(avg, t.last, m);
    }
  }

  /** How a run, its reduced batches and its contributions grow by one message. */
  lemma LastStep(avg: Averager, s: State, ms: seq<Msg>)
    requires ms != [] && Run(avg, s, ms).raised.None?
    ensures var init, m := ms[..|ms| - 1], ms[|ms| - 1];
            var t := Run(avg, s, init);
            var r := Step(avg, t.last, m);
            var extra := if Classify(m).Contribution? then [m.update.value] else [];
            t.raised.None? &&
            Run(avg, s, ms).last == r.next &&
            ContributionsIn(ms) == ContributionsIn(init) + extra &&
            Reduced(avg, s, ms) ==
              (if Classify(m).Contribution? && |t.last.updates| + 1 >= t.last.partition
               then Reduced(avg, s, init) + [t.last.updates + extra]
               else Reduced(avg, s, init))
  {
  }

  /**
   * One step keeps the books: a contribution either joins the end of the
   * buffer, or completes a batch of exactly `partition` contributions that
   * is averaged into the master network and leaves the buffer empty; any
   * other message leaves buffer, epochs and network alone.
   */
  lemma StepAccounts(avg: Averager, s: State, m: Msg)
    requires 1 <= s.partition && |s.updates| < s.partition
    ensures var r := Step(avg, s, m);
            r.next.partition == s.partition &&
            if Classify(m).Contribution? && |s.updates| + 1 >= s.partition then
              var batch := s.updates + [m.update.value];
              |batch| == s.partition && r.next.updates == [] &&
              r.next.epochsComplete == s.epochsComplete + 1 &&
              r.next.masterResults == Average(avg, batch)
            else
              r.next.updates == s.updates + (if Classify(m).Contribution? then [m.update.value] else []) &&
              r.next.epochsComplete == s.epochsComplete &&
              r.next.masterResults == s.masterResults
  {
  }

  /** The listener of the last registration in `ms`, or `l` when there is none. */
  function LastRegistered(l: Option<Listener>, ms: seq<Msg>): Option<Listener>
  {
    if ms == [] then l
    else match Classify(ms[|ms| - 1])
      case RegisterListener(r) => Some(r)
      case _ => LastRegistered(l, ms[..|ms| - 1])
  }

  /** Last writer wins: the listener after a run is the one registered last. */
  lemma {:induction false} ListenerIsLastRegistered(avg: Averager, s: State, ms: seq<Msg>)
    requires Run(avg, s, ms).raised.None?
    ensures Run(avg, s, ms).last.listener == LastRegistered(s.listener, ms)
  {
    if ms != [] {
      ListenerIsLastRegistered(avg, s, ms[..|ms| - 1]);
    }
  }

  /**
   * Of two registrations followed by a filling contribution, only the
   * second listener is told of the new network.
   */
  lemma OnlyLatestListenerNotified(avg: Averager, s: State, first: Msg, second: Msg, c: Msg)
    requires Classify(first).RegisterListener? && Classify(second).RegisterListener?
    requires Classify(c).Contribution? && |s.updates| + 1 >= s.partition
    ensures var result := Average(avg, s.updates + [c.update.value]);
            Run(avg, s, [first, second, c]).sent ==
              [EpochComplete(second.listener.value, result), Forwarded(c.update.value)]
  {
    var ms := [first, second, c];
    var s1 := s.(listener := Some(first.listener.value));
    var s2 := s.(listener := Some(second.listener.value));
    assert ms[..2] == [first, second];
    assert [first, second][..1] == [first];
    assert [first][..0] == [];
    assert Run(avg, s, [first]) == Trace(s1, [], None);
    assert Run(avg, s, [first, second]) == Trace(s2, [], None);
  }
}
