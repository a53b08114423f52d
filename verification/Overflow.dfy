// Whether messages can be lost at all: exactly if more of them can be alive than the queue has slots.
module Overflow {
  import opened Containers
  import opened Delivery
  import opened Framing
  import opened MsgPools
  import opened MsgSystem
  import opened PoolCapacity
  import opened Rounds

  /** k messages of channel 0 are in the queue, no others are alive, and nothing is under way. */
  ghost predicate Congested(cfg: Config, s: State, k: nat, accepted: seq<Payload>) {
    && s.channels == map[0 := Channel(accepted, [], [], [], Unlocked, true, [])]
    && s.consumer == Looping && s.failedPushes == 0
    && |accepted| == |s.queue| == |s.live| == k
  }

  lemma {:induction false} ChannelStep(cfg: Config, s: State, before: seq<Step>, a: Channel, step: Step, b: Channel)
    requires Runs(cfg, s, before, SetChannel(s, 0, a))
    requires step.Send? || step.Drain? || step.Lock? || step.Read?
    requires step.c == 0 && Enabled(cfg, SetChannel(s, 0, a), step)
    requires Next(cfg, SetChannel(s, 0, a), step).channels[0] == b
    ensures Runs(cfg, s, before + [step], SetChannel(s, 0, b))
  {
    hide Runs, HasFrame, FirstFrame, AfterFrame, Encode, HasRoom, Messages, Sendable;
    OneStep(cfg, s, before, SetChannel(s, 0, a), step);
    SetTwice(s.channels, 0, a, b);
    assert s.channels[0 := a][0 := b] == s.channels[0 := b];
  }

  /** A message travels through all buffers of a channel at rest. */
  lemma {:induction false} Travel(cfg: Config, s: State, p: Payload, accepted: seq<Payload>)
    returns (steps: seq<Step>, t: State)
    requires cfg.recvLimit <= cfg.bufferSize && Sendable(p) && |p| + HEADER_SIZE <= cfg.recvLimit
    requires 0 in s.channels && s.channels[0] == Channel(accepted, [], [], [], Unlocked, true, [])
    ensures Runs(cfg, s, steps, t)
    ensures t == SetChannel(s, 0, Channel(accepted + [p], [], [], Encode(p), Extracting, true, []))
  {
    var frame := Encode(p);
    var n := |frame|;
    assert n == |p| + HEADER_SIZE && [] + frame == frame && frame[..n] == frame && frame[n..] == [];
    hide Encode, Runs, HasFrame, FirstFrame, AfterFrame, HasRoom, Messages;
    var c0 := Channel(accepted, [], [], [], Unlocked, true, []);
    var c1 := c0.(accepted := accepted + [p], sendBuffer := frame);
    var c2 := c1.(sendBuffer := [], wire := frame);
    var c3 := c2.(receiver := Extracting);
    var c4 := c3.(wire := [], recvBuffer := frame);
    t := SetChannel(s, 0, c4);
    assert SetChannel(s, 0, c0) == s by {
      assert s.channels[0 := c0] == s.channels;
    }
    NoStep(cfg, s);
    ChannelStep(cfg, s, [], c0, Send(0, p), c1);
    steps := [] + [Send(0, p)];
    ChannelStep(cfg, s, steps, c1, Drain(0, n), c2);
    steps := steps + [Drain(0, n)];
    ChannelStep(cfg, s, steps, c2, Lock(0), c3);
    steps := steps + [Lock(0)];
    ChannelStep(cfg, s, steps, c3, Read(0, n), c4);
    steps := steps + [Read(0, n)];
  }

  /** A message of this size goes all the way to the queue, which may refuse it. */
  lemma {:induction false} Deliver(cfg: Config, s: State, k: nat, accepted: seq<Payload>, m: nat, size: nat)
    returns (steps: seq<Step>, t: State, p: Payload)
    requires cfg.recvLimit <= cfg.bufferSize && 1 <= size <= SHORT_MAX && size + HEADER_SIZE <= cfg.recvLimit
    requires Congested(cfg, s, k, accepted)
    requires m in cfg.pool.slots && m !in s.live && HasRoom(Messages(s.live), cfg.pool, size)
    ensures Runs(cfg, s, steps, t) && t.consumer == Looping && |t.live| == k + 1 && 0 in t.channels
    ensures k < cfg.msgQueueSize ==>
              t.failedPushes == 0 && |t.queue| == k + 1
              && t.channels == map[0 := Channel(accepted + [p], [], [], [], Extracting, true, [])]
    ensures k == cfg.msgQueueSize ==>
              t.failedPushes == 1 && |t.queue| == k
              && t.channels == map[0 := Channel(accepted + [p], [], [], [], Unlocked, true, [])]
  {
    p := seq(size, _ => 7 as Byte);
    assert Sendable(p) && |p| == size;
    assert 0 in s.channels && s.channels[0] == Channel(accepted, [], [], [], Unlocked, true, []);
    hide *;
    var first, u := Travel(cfg, s, p, accepted);
    FrameAlone(p);
    BeforeRound(s, Channel(accepted + [p], [], [], Encode(p), Extracting, true, []), u);
    t := ExtractRound(cfg, u, 0, m);
    RunsAppend(cfg, s, first, u, RoundSteps(0, m), t);
    steps := first + RoundSteps(0, m);
    AfterRound(cfg, s, k, accepted, p, m, u, t);
  }

  lemma {:induction false} FrameAlone(p: Payload)
    requires Sendable(p)
    ensures HasFrame(Encode(p)) && FirstFrame(Encode(p)) == p && AfterFrame(Encode(p)) == []
  {
    DecodeEncoded(p, []);
    assert Encode(p) + [] == Encode(p);
  }

  lemma {:induction false} BeforeRound(s: State, ch: Channel, u: State)
    requires u == SetChannel(s, 0, ch)
    ensures 0 in u.channels && u.channels[0] == ch && u.live == s.live && u.queue == s.queue
        && u.failedPushes == s.failedPushes
    ensures u.consumer == s.consumer
  {
  }

  lemma {:induction false} AfterRound(cfg: Config, s: State, k: nat, accepted: seq<Payload>, p: Payload, m: nat,
      u: State, t: State)
    requires Congested(cfg, s, k, accepted) && m !in s.live
    requires u == SetChannel(s, 0, Channel(accepted + [p], [], [], Encode(p), Extracting, true, []))
    requires var fits := |u.queue| < cfg.msgQueueSize;
             t == With(u, 0, Channel(accepted + [p], [], [], [], if fits then Extracting else Unlocked, true, []),
                       m, Entry(LiveMsg(Recv, 0, |p|, Some(p)), if fits then InQueue else Lost),
                       Pushed(u.queue, m, cfg.msgQueueSize), u.tokens + 1, u.failedPushes + if fits then 0 else 1)
    ensures t.consumer == Looping && |t.live| == k + 1 && 0 in t.channels
    ensures k < cfg.msgQueueSize ==>
              t.failedPushes == 0 && |t.queue| == k + 1
              && t.channels == map[0 := Channel(accepted + [p], [], [], [], Extracting, true, [])]
    ensures k == cfg.msgQueueSize ==>
              t.failedPushes == 1 && |t.queue| == k
              && t.channels == map[0 := Channel(accepted + [p], [], [], [], Unlocked, true, [])]
  {
    hide Encode;
    assert t.live.Keys == s.live.Keys + {m};
    assert |t.live| == |t.live.Keys| && |s.live| == |s.live.Keys|;
  }

  /** While another message can be alive, the queue can be filled with one more. */
  lemma {:induction false} OneMessageMore(cfg: Config, before: seq<Step>, s: State, k: nat, accepted: seq<Payload>)
    returns (steps: seq<Step>, t: State, p: Payload)
    requires HEADER_SIZE < cfg.recvLimit <= cfg.bufferSize
    requires Runs(cfg, START, before, s) && Congested(cfg, s, k, accepted)
    requires k < Capacity(cfg) && k <= cfg.msgQueueSize
    ensures Runs(cfg, START, steps, t)
    ensures k < cfg.msgQueueSize ==> Congested(cfg, t, k + 1, accepted + [p])
    ensures k == cfg.msgQueueSize ==>
              t.failedPushes == 1 && |t.queue| == k && t.consumer == Looping
              && t.channels == map[0 := Channel(accepted + [p], [], [], [], Unlocked, true, [])]
  {
    hide *;
    InvariantHolds(cfg, before, s);
    AliveWhenCongested(cfg, s, k, accepted);
    var m, size := Another(cfg, s);
    var more;
    more, t, p := Deliver(cfg, s, k, accepted, m, size);
    RunsAppend(cfg, START, before, s, more, t);
    steps := before + more;
    if k < cfg.msgQueueSize {
      var was, last := t, steps;
      t, steps := Settle(cfg, last, was, k + 1, accepted + [p]);
    }
  }

  lemma {:induction false} AliveWhenCongested(cfg: Config, s: State, k: nat, accepted: seq<Payload>)
    requires Congested(cfg, s, k, accepted)
    ensures |s.live| == |accepted| == k && s.consumer == Looping
  {
  }

  lemma {:induction false} Another(cfg: Config, s: State) returns (m: nat, size: nat)
    requires Invariant(cfg, s) && |s.live| < Capacity(cfg)
    requires HEADER_SIZE < cfg.recvLimit
    ensures m in cfg.pool.slots && m !in s.live && HasRoom(Messages(s.live), cfg.pool, size)
    ensures 1 <= size <= SHORT_MAX && size + HEADER_SIZE <= cfg.recvLimit
  {
    hide Messages, Stocked, MostAlive, HasRoom, Owned, Accounted, Conserved;
    MessagesKeys(s.live);
    m, size := AnotherFits(Messages(s.live), cfg.pool, Largest(cfg));
  }

  /** The receiver finds nothing more and gives up its lock. */
  lemma {:induction false} Settle(cfg: Config, before: seq<Step>, s: State, k: nat, accepted: seq<Payload>)
    returns (t: State, steps: seq<Step>)
    requires Runs(cfg, START, before, s)
    requires s.consumer == Looping && s.failedPushes == 0 && |s.live| == |s.queue| == |accepted| == k
    requires s.channels == map[0 := Channel(accepted, [], [], [], Extracting, true, [])]
    ensures Runs(cfg, START, steps, t) && Congested(cfg, t, k, accepted)
  {
    hide Runs, HasFrame, FirstFrame, AfterFrame, Encode, HasRoom, Messages;
    OneStep(cfg, START, before, s, Unlock(0));
    t, steps := Next(cfg, s, Unlock(0)), before + [Unlock(0)];
  }

  lemma {:induction false} Congest(cfg: Config, k: nat)
    returns (steps: seq<Step>, s: State, accepted: seq<Payload>)
    requires HEADER_SIZE < cfg.recvLimit <= cfg.bufferSize
    requires k <= cfg.msgQueueSize && k <= Capacity(cfg)
    ensures Runs(cfg, START, steps, s) && Congested(cfg, s, k, accepted)
    decreases k
  {
    if k == 0 {
      NoStep(cfg, START);
      OneStep(cfg, START, [], START, Open(0));
      steps, s, accepted := [] + [Open(0)], Next(cfg, START, Open(0)), [];
    } else {
      hide *;
      var before, b, was := Congest(cfg, k - 1);
      var p;
      steps, s, p := OneMessageMore(cfg, before, b, k - 1, was);
      accepted := was + [p];
    }
  }

  lemma {:induction false} QueuedForIsShort(live: map<nat, Entry>, queue: seq<nat>, c: nat)
    ensures |QueuedFor(live, queue, c)| <= |queue|
    decreases |queue|
  {
    if queue != [] {
      QueuedForIsShort(live, queue[1..], c);
    }
  }

  /** One accepted message more than are queued, and nothing anywhere else. */
  lemma {:induction false} OneIsMissing(t: State, accepted: seq<Payload>)
    requires t.channels == map[0 := Channel(accepted, [], [], [], Unlocked, true, [])]
    requires t.consumer == Looping && |t.queue| < |accepted|
    ensures !Conserved(t, 0)
  {
    QueuedForIsShort(t.live, t.queue, 0);
    assert Frames([]) == [];
    assert Pipeline(t.channels[0]) == [];
  }

  /** If more messages can be alive than the queue has slots, some run loses an accepted message for good. */
  lemma {:induction false} SomeRunLosesAMessage(cfg: Config) returns (steps: seq<Step>, t: State)
    requires HEADER_SIZE < cfg.recvLimit <= cfg.bufferSize && cfg.msgQueueSize < Capacity(cfg)
    ensures Runs(cfg, START, steps, t)
    ensures t.failedPushes == 1 && 0 in t.channels && !Conserved(t, 0)
  {
    hide Runs, Capacity, Conserved;
    var before, s, accepted := Congest(cfg, cfg.msgQueueSize);
    var p;
    steps, t, p := OneMessageMore(cfg, before, s, cfg.msgQueueSize, accepted);
    OneIsMissing(t, accepted + [p]);
  }

  /**
   * For every configuration: nothing is ever lost if and only if the queue has a slot for every message that can
   * be alive at once, or the receive buffers are too small for any frame.
   */
  lemma {:induction false} NothingIsLostIff(cfg: Config)
    requires cfg.recvLimit <= cfg.bufferSize
    ensures (forall steps, t, c | Runs(cfg, START, steps, t) && c in t.channels :: Conserved(t, c))
            <==> Capacity(cfg) <= cfg.msgQueueSize || cfg.recvLimit <= HEADER_SIZE
  {
    hide Runs, Conserved, Capacity;
    if Capacity(cfg) <= cfg.msgQueueSize || cfg.recvLimit <= HEADER_SIZE {
      forall steps, t, c | Runs(cfg, START, steps, t) && c in t.channels
        ensures Conserved(t, c)
      {
        StreamsHold(cfg, steps, t);
      }
    } else {
      var steps, t := SomeRunLosesAMessage(cfg);
    }
  }

  lemma {:induction false} StreamsHold(cfg: Config, steps: seq<Step>, t: State)
    requires Runs(cfg, START, steps, t)
    requires Capacity(cfg) <= cfg.msgQueueSize || cfg.recvLimit <= HEADER_SIZE
    ensures forall c | c in t.channels :: Conserved(t, c)
  {
    hide Runs, Conserved, Capacity, Owned, Fitting, Accounted;
    InvariantHolds(cfg, steps, t);
  }

  /** The shipped sizes: nothing is lost. */
  lemma {:induction false} AsManySlotsAsMessages(cfg: Config)
    requires |cfg.pool.slots| <= cfg.msgQueueSize
    ensures Capacity(cfg) <= cfg.msgQueueSize
  {
  }
}
