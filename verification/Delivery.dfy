// Whole runs of the system: from SendMsg to the message handler, first in, first out, with nothing lost.
module Delivery {
  import opened Framing
  import opened MsgSystem
  import opened PoolCapacity
  import opened Sequences

  // ----------------------------------------------------------- the queue is never full

  /** Different queued messages and one message outside the queue are all among the live ones. */
  lemma {:induction false} QueueIsSmall(queue: seq<nat>, m: nat, alive: set<nat>)
    requires forall i | 0 <= i < |queue| :: queue[i] in alive && queue[i] != m
    requires Distinct(queue)
    requires m in alive
    ensures |queue| < |alive|
  {
    DistinctSize(queue);
    SubsetSize(Elements(queue), alive - {m});
  }

  /** Every push finds room if no more messages can be alive than the queue has slots. */
  lemma {:induction false} PushFindsRoom(cfg: Config, s: State, step: Step)
    requires Capacity(cfg) <= cfg.msgQueueSize
    requires Owned(cfg, s) && Fitting(cfg, s) && Enabled(cfg, s, step)
    ensures Next(cfg, s, step).failedPushes == s.failedPushes
  {
    hide *;
    RefusedByStep(cfg, s, step);
    if step.Push? || step.NotePush? {
      var m := PushedIsNew(cfg, s, step);
      AliveFit(cfg, s);
      QueueIsSmall(s.queue, m, s.live.Keys);
    }
  }

  // --------------------------------------------------------------------- whole runs

  /** What the streams rest on: no push has been refused, or there are no frames to push. */
  predicate NoFrameRefused(cfg: Config, s: State) {
    s.failedPushes == 0 || cfg.recvLimit <= HEADER_SIZE
  }

  /** What holds in every reachable state. */
  ghost predicate Invariant(cfg: Config, s: State) {
    && Owned(cfg, s)
    && Fitting(cfg, s)
    && Accounted(s)
    && (NoFrameRefused(cfg, s) ==> forall c | c in s.channels :: Conserved(s, c))
  }

  lemma {:induction false} StreamsKept(cfg: Config, s: State, step: Step)
    requires Invariant(cfg, s) && Enabled(cfg, s, step) && NoFrameRefused(cfg, Next(cfg, s, step))
    ensures forall c | c in Next(cfg, s, step).channels :: Conserved(Next(cfg, s, step), c)
  {
    hide Owned, Fitting, Accounted, Conserved, Enabled, Next;
    RefusedByStep(cfg, s, step);
    if step.Push? {
      NothingToPush(cfg, s, step.c);
    }
    forall c | c in Next(cfg, s, step).channels
      ensures Conserved(Next(cfg, s, step), c)
    {
      if c in s.channels {
        ConservedKept(cfg, s, step, c);
      } else {
        OnlyOpenAdds(cfg, s, step, c);
        ConservedWhenOpened(cfg, s, c);
      }
    }
  }

  lemma {:induction false} InvariantKept(cfg: Config, s: State, step: Step)
    requires Invariant(cfg, s) && Enabled(cfg, s, step)
    ensures Invariant(cfg, Next(cfg, s, step))
    ensures Next(cfg, s, step).failedPushes >= s.failedPushes
    ensures Capacity(cfg) <= cfg.msgQueueSize ==> Next(cfg, s, step).failedPushes == s.failedPushes
  {
    hide Owned, Fitting, Accounted, Conserved, Enabled, Next, Capacity, NoFrameRefused;
    OwnedKept(cfg, s, step);
    FittingKept(cfg, s, step);
    AccountedKept(cfg, s, step);
    RefusedByStep(cfg, s, step);
    if Capacity(cfg) <= cfg.msgQueueSize {
      PushFindsRoom(cfg, s, step);
    }
    if NoFrameRefused(cfg, Next(cfg, s, step)) {
      StreamsKept(cfg, s, step);
    }
  }

  lemma {:induction false} InvariantOfRun(cfg: Config, s: State, steps: seq<Step>, t: State)
    requires Invariant(cfg, s) && Runs(cfg, s, steps, t)
    ensures Invariant(cfg, t)
    ensures Capacity(cfg) <= cfg.msgQueueSize ==> t.failedPushes == s.failedPushes
    decreases |steps|
  {
    hide Invariant, Next, Enabled;
    if steps != [] {
      InvariantKept(cfg, s, steps[0]);
      InvariantOfRun(cfg, Next(cfg, s, steps[0]), steps[1..], t);
    }
  }

  lemma InvariantHolds(cfg: Config, steps: seq<Step>, t: State)
    requires Runs(cfg, START, steps, t)
    ensures Invariant(cfg, t)
    ensures Capacity(cfg) <= cfg.msgQueueSize ==> t.failedPushes == 0
  {
    hide Runs;
    OwnedInitially(cfg);
    FittingInitially(cfg);
    AccountedInitially();
    InvariantOfRun(cfg, START, steps, t);
  }

  lemma DeliveredIsPrefix(s: State, c: nat)
    requires c in s.channels && Conserved(s, c)
    ensures s.channels[c].delivered <= s.channels[c].accepted
  {
    hide HeldFor, QueuedFor, InTransit, Frames, Rest, Pipeline;
  }

  /**
   * End to end, for every run of any number of sessions and threads: if no more messages can be alive than the
   * queue has slots, nothing is lost, duplicated, reordered or altered between SendMsg and the message handler.
   */
  lemma EndToEndFifo(cfg: Config, steps: seq<Step>, t: State)
    requires Capacity(cfg) <= cfg.msgQueueSize
    requires Runs(cfg, START, steps, t)
    ensures forall c | c in t.channels :: Conserved(t, c)
    ensures forall c | c in t.channels :: t.channels[c].delivered <= t.channels[c].accepted
    ensures t.failedPushes == 0 && t.emptyRemoves == 0
  {
    hide Runs, Owned, Conserved;
    InvariantHolds(cfg, steps, t);
    forall c | c in t.channels
      ensures t.channels[c].delivered <= t.channels[c].accepted
    {
      DeliveredIsPrefix(t, c);
    }
  }

  /** Once everything has been handed over, the handler has seen exactly what was accepted. */
  lemma DeliveredAtRest(cfg: Config, steps: seq<Step>, t: State, c: nat)
    requires Capacity(cfg) <= cfg.msgQueueSize
    requires Runs(cfg, START, steps, t) && c in t.channels
    requires Pipeline(t.channels[c]) == [] && !t.channels[c].receiver.Consumed?
    requires t.queue == [] && !t.consumer.Holding?
    ensures t.channels[c].delivered == t.channels[c].accepted
  {
    hide Runs;
    EndToEndFifo(cfg, steps, t);
    assert Frames([]) == [];
  }

  /**
   * The semaphore counts the queue: a consumer that has been woken finds a message, and when no post is
   * outstanding every queued message has its token, so that none is stranded.
   */
  lemma SemaphoreCountsQueue(cfg: Config, steps: seq<Step>, t: State)
    requires Capacity(cfg) <= cfg.msgQueueSize
    requires Runs(cfg, START, steps, t)
    ensures t.tokens + |PostingReceivers(t)| + |PostingNotifiers(t)| + (if t.consumer == Woken then 1 else 0)
        == |t.queue|
    ensures t.consumer == Woken ==> t.queue != []
    ensures t.consumer == Looping && PostingReceivers(t) == {} && PostingNotifiers(t) == {} ==> t.tokens == |t.queue|
  {
    hide Runs, Owned, Conserved, PostingReceivers, PostingNotifiers;
    InvariantHolds(cfg, steps, t);
  }

  /** Even when pushes are refused: RemoveMsg comes back empty at most once for every refused push. */
  lemma EmptyRemovesAreBounded(cfg: Config, steps: seq<Step>, t: State)
    requires Runs(cfg, START, steps, t)
    ensures t.emptyRemoves <= t.failedPushes
    ensures t.tokens + |PostingReceivers(t)| + |PostingNotifiers(t)|
        + (if t.consumer == Woken then 1 else 0) >= |t.queue|
  {
    hide Runs, Owned, Conserved, PostingReceivers, PostingNotifiers;
    InvariantHolds(cfg, steps, t);
  }

  /** Whoever is in the middle of handing a message over can take its next step. */
  lemma HandOverIsNeverBlocked(cfg: Config, steps: seq<Step>, t: State)
    requires Runs(cfg, START, steps, t)
    ensures forall c | c in t.channels && t.channels[c].receiver.Filled? :: Enabled(cfg, t, Consume(c))
    ensures forall c | c in t.channels && t.channels[c].receiver.Consumed? :: Enabled(cfg, t, Push(c))
    ensures forall n | n in t.notifiers && t.notifiers[n].Labelled? :: Enabled(cfg, t, NotePush(n))
    ensures t.consumer == Woken ==> Enabled(cfg, t, Remove)
    ensures t.consumer.Holding? ==> Enabled(cfg, t, Dispatch)
  {
    hide Runs, Owned, Enabled;
    InvariantHolds(cfg, steps, t);
    ReceiversCanStep(cfg, t);
    OthersCanStep(cfg, t);
  }
}
