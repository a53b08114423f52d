// The class methods against the interleaved system: what ExtractMsg, SendMsg, InsertSimpleMsg and a round of
// NetLoop are proved to do is what runs of the system's atomic steps do.
module Refinement {
  import opened Containers
  import opened Framing
  import opened Inboxes
  import opened MsgPools
  import opened MsgSystem
  import opened NetServer
  import opened PoolCapacity
  import opened Rounds
  import opened SessionIo
  import opened Sessions
  import opened WinSessions

  /** What a session of the system looks like to ExtractMsg. */
  function ViewOf(s: State, c: nat): View
    requires c in s.channels
  {
    View(s.channels[c].recvBuffer, Messages(s.live), s.queue, s.tokens)
  }

  /** Everything but the receiving side of c, the messages, the queue and its semaphore. */
  ghost predicate SameElsewhere(s: State, t: State, c: nat) {
    && c in s.channels && c in t.channels
    && t.channels == s.channels[c := t.channels[c]]
    && t.channels[c].accepted == s.channels[c].accepted && t.channels[c].delivered == s.channels[c].delivered
    && t.channels[c].sendBuffer == s.channels[c].sendBuffer && t.channels[c].wire == s.channels[c].wire
    && t.channels[c].open == s.channels[c].open
    && t.notifiers == s.notifiers && t.consumer == s.consumer && t.emptyRemoves == s.emptyRemoves
  }

  /** One round of the loop of ExtractMsg is four steps of the system. */
  lemma {:induction false} RoundIsFourSteps(cfg: Config, s: State, c: nat, m: nat) returns (t: State)
    requires c in s.channels && s.channels[c].receiver == Extracting && HasFrame(s.channels[c].recvBuffer)
    requires m in cfg.pool.slots && m !in s.live
    requires HasRoom(Messages(s.live), cfg.pool, |FirstFrame(s.channels[c].recvBuffer)|)
    ensures Runs(cfg, s, RoundSteps(c, m), t) && SameElsewhere(s, t, c)
    ensures c in t.channels
    ensures var v := ViewOf(s, c);
            var p := FirstFrame(v.bytes);
            ViewOf(t, c) == View(AfterFrame(v.bytes), v.live[m := LiveMsg(Recv, c, |p|, Some(p))],
                                 Pushed(v.queued, m, cfg.msgQueueSize), v.tokens + 1)
    ensures t.channels[c].receiver == if |s.queue| < cfg.msgQueueSize then Extracting else Unlocked
  {
    t := ExtractRound(cfg, s, c, m);
    hide Enabled, Next, Runs, Messages, HasFrame, FirstFrame, AfterFrame, HasRoom, RoundSteps;
    MessagesSet(s.live, m, t.live[m]);
    assert t.channels == s.channels[c := t.channels[c]];
  }

  /** The slots are the pool's, and what has been extracted in the end is within its blocks. */
  ghost predicate Supplied(cfg: Config, slots: seq<nat>, final: map<nat, LiveMsg>) {
    && (forall i | 0 <= i < |slots| :: slots[i] in cfg.pool.slots)
    && (forall list: nat :: |Users(final, BytesMax(cfg.pool), list)| <= cfg.pool.count)
  }

  ghost predicate Inside(live: map<nat, LiveMsg>, final: map<nat, LiveMsg>) {
    forall m | m in live :: m in final && final[m] == live[m]
  }

  lemma {:induction false} SlotsAreARun(cfg: Config, s: State, c: nat, slots: seq<nat>, after: View,
                                        final: map<nat, LiveMsg>)
    returns (steps: seq<Step>, t: State)
    requires c in s.channels && s.channels[c].receiver == Extracting
    requires Extracted(c, cfg.msgQueueSize, ViewOf(s, c), slots, after)
    requires Supplied(cfg, slots, final) && Inside(after.live, final)
    requires |s.queue| <= cfg.msgQueueSize && |s.queue| + |slots| <= cfg.msgQueueSize + 1
    ensures Runs(cfg, s, steps, t) && SameElsewhere(s, t, c) && c in t.channels
    ensures ViewOf(t, c) == after
    ensures t.channels[c].receiver == if |s.queue| + |slots| <= cfg.msgQueueSize then Extracting else Unlocked
    decreases |slots|
  {
    QueueOf(s, c);
    hide *;
    if slots == [] {
      NoStep(cfg, s);
      NothingChanged(s, c);
      NothingExtracted(c, cfg.msgQueueSize, ViewOf(s, c), after);
      steps, t := [], s;
    } else {
      var n := |slots| - 1;
      var mid := BeforeLast(c, cfg.msgQueueSize, ViewOf(s, c), slots, after);
      var p := FirstFrame(mid.bytes);
      InsideBefore(mid.live, slots[n], LiveMsg(Recv, c, |p|, Some(p)), final);
      StillSupplied(cfg, slots, final);
      var before, b := SlotsAreARun(cfg, s, c, slots[..n], mid, final);
      QueueOf(b, c);
      assert b.channels[c].recvBuffer == mid.bytes && Messages(b.live) == mid.live by { PartsOf(b, c); }
      MessagesKeys(b.live);
      FrameIsSendable(mid.bytes);
      NextHasRoom(cfg, slots, mid.live, slots[n], LiveMsg(Recv, c, |p|, Some(p)), after.live, final);
      t := RoundIsFourSteps(cfg, b, c, slots[n]);
      SameTwice(s, b, t, c);
      RunsAppend(cfg, s, before, b, RoundSteps(c, slots[n]), t);
      steps := before + RoundSteps(c, slots[n]);
    }
  }

  lemma {:induction false} NothingChanged(s: State, c: nat)
    requires c in s.channels
    ensures SameElsewhere(s, s, c)
  {
    assert s.channels == s.channels[c := s.channels[c]];
  }

  lemma {:induction false} NothingExtracted(session: int, capacity: nat, v: View, after: View)
    requires Extracted(session, capacity, v, [], after)
    ensures after == v
  {
  }

  lemma {:induction false} PartsOf(s: State, c: nat)
    requires c in s.channels
    ensures ViewOf(s, c) == View(s.channels[c].recvBuffer, Messages(s.live), s.queue, s.tokens)
  {
  }

  lemma {:induction false} FrameIsSendable(bytes: seq<Byte>)
    requires HasFrame(bytes)
    ensures |FirstFrame(bytes)| > 0
  {
  }

  lemma {:induction false} StillSupplied(cfg: Config, slots: seq<nat>, final: map<nat, LiveMsg>)
    requires Supplied(cfg, slots, final) && slots != []
    ensures Supplied(cfg, slots[..|slots| - 1], final)
  {
  }

  lemma {:induction false} NextHasRoom(cfg: Config, slots: seq<nat>, live: map<nat, LiveMsg>, m: nat, msg: LiveMsg,
                                       later: map<nat, LiveMsg>, final: map<nat, LiveMsg>)
    requires Supplied(cfg, slots, final) && slots != [] && m == slots[|slots| - 1]
    requires m !in live && msg.size > 0 && later == live[m := msg] && Inside(later, final)
    ensures m in cfg.pool.slots && HasRoom(live, cfg.pool, msg.size)
  {
    hide Users, HasRoom;
    RoomInside(live, cfg.pool, m, msg, final);
  }

  lemma {:induction false} InsideBefore(live: map<nat, LiveMsg>, m: nat, msg: LiveMsg, final: map<nat, LiveMsg>)
    requires m !in live && Inside(live[m := msg], final)
    ensures Inside(live, final)
  {
    assert forall x | x in live :: x in live[m := msg] && live[m := msg][x] == live[x];
  }

  /**
   * Every extraction that the contract of ExtractMsg admits is a run of the system: Extracted says what becomes of
   * the session's buffer, the messages, the queue and its semaphore, and nothing else changes.
   */
  lemma {:induction false} ExtractionIsARun(cfg: Config, s: State, c: nat, slots: seq<nat>, after: View)
    returns (steps: seq<Step>, t: State)
    requires c in s.channels && s.channels[c].receiver == Extracting
    requires Extracted(c, cfg.msgQueueSize, ViewOf(s, c), slots, after) && Supplied(cfg, slots, after.live)
    requires |s.queue| <= cfg.msgQueueSize && |s.queue| + |slots| <= cfg.msgQueueSize + 1
    ensures Runs(cfg, s, steps, t) && SameElsewhere(s, t, c) && c in t.channels
    ensures ViewOf(t, c) == after
    ensures t.channels[c].receiver == if |s.queue| + |slots| <= cfg.msgQueueSize then Extracting else Unlocked
  {
    assert Inside(after.live, after.live);
    hide *;
    steps, t := SlotsAreARun(cfg, s, c, slots, after, after.live);
  }

  /** The pool and the queue of the inbox are those of the configuration. */
  ghost predicate Configured(cfg: Config, inbox: Inbox)
    reads inbox.pool.slab
  {
    && cfg.pool.slots == inbox.pool.headers.slots && cfg.msgQueueSize == inbox.Capacity()
    && inbox.pool.slab.align == Layout.ALIGN && inbox.pool.slab.bytesMax == BytesMax(cfg.pool)
    && cfg.pool.lists == inbox.pool.slab.Lists() == |inbox.pool.slab.blocks|
    && (forall i | 0 <= i < cfg.pool.lists :: |inbox.pool.slab.blocks[i]| == cfg.pool.count)
  }

  lemma InboxIsSupplied(cfg: Config, inbox: Inbox, slots: seq<nat>)
    requires inbox.Valid() && Configured(cfg, inbox)
    requires forall i | 0 <= i < |slots| :: slots[i] in inbox.pool.headers.slots
    ensures Supplied(cfg, slots, inbox.live) && |inbox.queued| <= inbox.Capacity()
  {
    hide MsgQueues.MsgQueue.Valid, MsgPool.Valid, Users;
    forall list: nat
      ensures |Users(inbox.live, BytesMax(cfg.pool), list)| <= cfg.pool.count
    {
      UsersHaveBlocks(inbox.pool, list);
    }
  }

  /** A call of ExtractMsg, whatever state the session, the pool and the queue are in, is a run of the system. */
  method ExtractMsgIsARun(session: Session, inbox: Inbox, ghost cfg: Config, ghost s: State, ghost c: nat)
    returns (ghost stop: Stop, ghost steps: seq<Step>, ghost t: State)
    requires session.recv.Valid() && inbox.Valid() && session.recv.Repr() !! inbox.Repr()
    requires Configured(cfg, inbox)
    requires c in s.channels && s.channels[c].receiver == Extracting
    requires session.id == c && session.Observe(inbox) == ViewOf(s, c)
    modifies session.recv, inbox.Repr(), inbox.system
    ensures session.recv.Valid() && inbox.Valid()
    ensures Runs(cfg, s, steps, t) && SameElsewhere(s, t, c) && c in t.channels
    ensures session.Observe(inbox) == ViewOf(t, c)
    ensures t.channels[c].receiver == if stop == QueueFull then Unlocked else Extracting
  {
    InboxIsSupplied(cfg, inbox, []);
    QueueOf(s, c);
    ghost var before := session.Observe(inbox);
    ghost var slots;
    slots, stop := session.ExtractMsg(inbox);
    InboxIsSupplied(cfg, inbox, slots);
    EndedFacts(session, inbox, before, slots, stop);
    hide *;
    steps, t := ExtractionIsARun(cfg, s, c, slots, session.Observe(inbox));
  }

  lemma EndedFacts(session: Session, inbox: Inbox, before: View, slots: seq<nat>, stop: Stop)
    requires session.recv.Valid() && inbox.Valid() && session.Ended(inbox, before, slots, stop)
    requires |before.queued| <= inbox.Capacity()
    ensures Extracted(session.id, inbox.Capacity(), before, slots, session.Observe(inbox))
    ensures forall i | 0 <= i < |slots| :: slots[i] in inbox.pool.headers.slots
    ensures if stop == QueueFull then |before.queued| + |slots| == inbox.Capacity() + 1
            else |before.queued| + |slots| <= inbox.Capacity()
  {
    hide Inbox.Valid, Extracted, Pending;
    InboxIsBounded(inbox);
  }

  lemma InboxIsBounded(inbox: Inbox)
    requires inbox.Valid()
    ensures |inbox.queued| <= inbox.Capacity()
  {
  }

  lemma {:induction false} QueueOf(s: State, c: nat)
    requires c in s.channels
    ensures ViewOf(s, c).queued == s.queue
  {
  }

  lemma {:induction false} SameTwice(s: State, t: State, u: State, c: nat)
    requires SameElsewhere(s, t, c) && SameElsewhere(t, u, c)
    ensures SameElsewhere(s, u, c)
  {
    SetTwice(s.channels, c, t.channels[c], u.channels[c]);
  }

  /** What InsertSimpleMsg does when the pool has given it a slot is three steps of a notifying thread. */
  lemma {:induction false} NotificationIsARun(cfg: Config, s: State, thread: nat, m: nat, kind: MsgType, session: int)
    returns (t: State)
    requires thread !in s.notifiers && m in cfg.pool.slots && m !in s.live && kind != Recv
    requires HasRoom(Messages(s.live), cfg.pool, 1)
    ensures Runs(cfg, s, [Notify(thread, m, kind, session), NotePush(thread), NotePost(thread)], t)
    ensures Messages(t.live) == Messages(s.live)[m := LiveMsg(kind, session, 1, None)]
    ensures t.queue == Pushed(s.queue, m, cfg.msgQueueSize) && t.tokens == s.tokens + 1
    ensures t.channels == s.channels && t.notifiers == s.notifiers && t.consumer == s.consumer
  {
    hide Enabled, Next, Runs, Messages, HasRoom;
    t := NotifyRound(cfg, s, thread, m, kind, session);
    MessagesSet(s.live, m, t.live[m]);
  }

  /** The messages, the queue and its semaphore are those of the system. */
  ghost predicate Mirrors(inbox: Inbox, s: State)
    reads inbox
  {
    inbox.live == Messages(s.live) && inbox.queued == s.queue && inbox.tokens == s.tokens
  }

  /** A call of InsertSimpleMsg is a run of the system. */
  method InsertSimpleMsgIsARun(inbox: Inbox, kind: MsgType, session: int, ghost cfg: Config, ghost s: State,
      ghost thread: nat)
    returns (ok: bool, ghost steps: seq<Step>, ghost t: State)
    requires inbox.Valid() && Mirrors(inbox, s)
    requires Configured(cfg, inbox)
    requires thread !in s.notifiers && kind != Recv
    modifies inbox.Repr(), inbox.system
    ensures inbox.Valid() && Mirrors(inbox, t)
    ensures Runs(cfg, s, steps, t)
    ensures t.channels == s.channels && t.notifiers == s.notifiers && t.consumer == s.consumer
  {
    ghost var m;
    ok, m := inbox.InsertSimpleMsg(kind, session);
    if m == None {
      NoStep(cfg, s);
      steps, t := [], s;
    } else {
      hide *;
      InboxIsSupplied(cfg, inbox, [m.value]);
      steps, t := NoticeWithSlot(cfg, s, thread, m.value, kind, session, inbox.live);
    }
  }

  lemma {:induction false} NoticeWithSlot(cfg: Config, s: State, thread: nat, m: nat, kind: MsgType, session: int,
                                          after: map<nat, LiveMsg>)
    returns (steps: seq<Step>, t: State)
    requires thread !in s.notifiers && kind != Recv && m !in Messages(s.live)
    requires Supplied(cfg, [m], after) && after == Messages(s.live)[m := LiveMsg(kind, session, 1, None)]
    ensures Runs(cfg, s, steps, t)
    ensures Messages(t.live) == after && t.queue == Pushed(s.queue, m, cfg.msgQueueSize) && t.tokens == s.tokens + 1
    ensures t.channels == s.channels && t.notifiers == s.notifiers && t.consumer == s.consumer
  {
    assert Inside(after, after);
    hide *;
    MessagesKeys(s.live);
    NextHasRoom(cfg, [m], Messages(s.live), m, LiveMsg(kind, session, 1, None), after, after);
    t := NotificationIsARun(cfg, s, thread, m, kind, session);
    steps := [Notify(thread, m, kind, session), NotePush(thread), NotePost(thread)];
  }

  /**
   * One round of NetLoop on a message that is not the shutdown message is four steps of the consumer: the message
   * leaves the queue and the pool, and if it was received on an existing channel its payload is delivered there.
   */
  lemma {:induction false} ConsumerRoundIsARun(cfg: Config, s: State) returns (t: State)
    requires s.consumer == Looping && s.tokens > 0 && s.queue != [] && s.queue[0] in s.live
    requires s.live[s.queue[0]].msg.kind != Shutdown
    ensures Runs(cfg, s, [Wait, Remove, Dispatch, Deallocate], t)
    ensures t.consumer == Looping && t.tokens == s.tokens - 1 && t.queue == s.queue[1..]
    ensures Messages(t.live) == Messages(s.live) - {s.queue[0]}
    ensures var msg := s.live[s.queue[0]].msg;
            t.channels == if EventOf(msg).OnReceive? && msg.session >= 0 && msg.session in s.channels
                          then var ch := s.channels[msg.session];
                               s.channels[msg.session := ch.(delivered := ch.delivered + [EventOf(msg).payload])]
                          else s.channels
  {
    var a, b := WaitAndRemove(cfg, s);
    var c := Dispatched(cfg, s, b);
    t := Freed(cfg, s, c);
    hide *;
    FourSteps(cfg, s, Wait, a, Remove, b, Dispatch, c, Deallocate, t);
  }

  lemma {:induction false} Freed(cfg: Config, s: State, c: State) returns (t: State)
    requires s.queue != [] && s.queue[0] in s.live && c.consumer == Done(s.queue[0])
    requires c.live == s.live[s.queue[0] := s.live[s.queue[0]].(place := AtConsumer)]
    ensures Enabled(cfg, c, Deallocate) && t == Next(cfg, c, Deallocate)
    ensures t.consumer == Looping && t.tokens == c.tokens && t.queue == c.queue && t.channels == c.channels
    ensures Messages(t.live) == Messages(s.live) - {s.queue[0]}
  {
    var m := s.queue[0];
    t := Next(cfg, c, Deallocate);
    assert t.live == s.live - {m};
    MessagesWithout(s.live, m);
  }

  lemma {:induction false} WaitAndRemove(cfg: Config, s: State) returns (a: State, b: State)
    requires s.consumer == Looping && s.tokens > 0 && s.queue != [] && s.queue[0] in s.live
    ensures Enabled(cfg, s, Wait) && a == Next(cfg, s, Wait)
    ensures Enabled(cfg, a, Remove) && b == Next(cfg, a, Remove)
    ensures var m := s.queue[0];
            b == s.(consumer := Holding(m), tokens := s.tokens - 1, queue := s.queue[1..],
                    live := s.live[m := s.live[m].(place := AtConsumer)])
  {
    a := Next(cfg, s, Wait);
    b := Next(cfg, a, Remove);
  }

  lemma {:induction false} Dispatched(cfg: Config, s: State, b: State) returns (c: State)
    requires s.queue != [] && s.queue[0] in s.live && s.live[s.queue[0]].msg.kind != Shutdown
    requires var m := s.queue[0];
             b == s.(consumer := Holding(m), tokens := if s.tokens > 0 then s.tokens - 1 else 0, queue := s.queue[1..],
                     live := s.live[m := s.live[m].(place := AtConsumer)])
    ensures Enabled(cfg, b, Dispatch) && c == Next(cfg, b, Dispatch)
    ensures var msg := s.live[s.queue[0]].msg;
            c == b.(consumer := Done(s.queue[0]),
                    channels := if EventOf(msg).OnReceive? && msg.session >= 0 && msg.session in s.channels
                                then var ch := s.channels[msg.session];
                                     s.channels[msg.session := ch.(delivered := ch.delivered + [EventOf(msg).payload])]
                                else s.channels)
  {
    c := Next(cfg, b, Dispatch);
  }

  /** A round that finds the queue empty, or the shutdown message, is fewer steps. */
  lemma {:induction false} EmptyRoundIsARun(cfg: Config, s: State) returns (t: State)
    requires s.consumer == Looping && s.tokens > 0 && s.queue == []
    ensures Runs(cfg, s, [Wait, Remove], t)
    ensures t == s.(tokens := s.tokens - 1, emptyRemoves := s.emptyRemoves + 1)
  {
    var a := Next(cfg, s, Wait);
    t := Next(cfg, a, Remove);
    assert Runs(cfg, t, [], t);
    assert [Wait, Remove][1..] == [Remove] && [Remove][1..] == [];
    assert Runs(cfg, a, [Remove], t);
  }

  lemma {:induction false} LastRoundIsARun(cfg: Config, s: State) returns (t: State)
    requires s.consumer == Looping && s.tokens > 0 && s.queue != [] && s.queue[0] in s.live
    requires s.live[s.queue[0]].msg.kind == Shutdown
    ensures Runs(cfg, s, [Wait, Remove, Dispatch], t)
    ensures t.consumer == Stopped && t.tokens == s.tokens - 1 && t.queue == s.queue[1..] && t.channels == s.channels
    ensures Messages(t.live) == Messages(s.live)
  {
    var a, b := WaitAndRemove(cfg, s);
    t := Next(cfg, b, Dispatch);
    ThreeSteps(cfg, s, Wait, a, Remove, b, Dispatch, t);
  }

  /** The channels after the handler has been called. */
  function Delivered(channels: map<nat, Channel>, event: Option<Event>): map<nat, Channel> {
    if event.Some? && event.value.OnReceive? && event.value.session >= 0 && event.value.session in channels then
      var ch := channels[event.value.session];
      channels[event.value.session := ch.(delivered := ch.delivered + [event.value.payload])]
    else channels
  }

  /** Every round of NetLoop, with the empty queue and the shutdown message among its cases. */
  lemma {:induction false} RoundIsARun(cfg: Config, s: State) returns (steps: seq<Step>, t: State)
    requires s.consumer == Looping && s.tokens > 0 && (s.queue != [] ==> s.queue[0] in s.live)
    ensures Runs(cfg, s, steps, t) && t.tokens == s.tokens - 1
    ensures s.queue == [] ==> t.consumer == Looping && t.queue == [] && t.live == s.live && t.channels == s.channels
    ensures s.queue != [] ==>
              var m := s.queue[0];
              var shutdown := s.live[m].msg.kind == Shutdown;
              && t.consumer == (if shutdown then Stopped else Looping) && t.queue == s.queue[1..]
              && Messages(t.live) == (if shutdown then Messages(s.live) else Messages(s.live) - {m})
              && t.channels == Delivered(s.channels, if shutdown then None else Some(EventOf(s.live[m].msg)))
  {
    hide Enabled, Next, Messages, Runs;
    if s.queue == [] {
      t := EmptyRoundIsARun(cfg, s);
      steps := [Wait, Remove];
    } else if s.live[s.queue[0]].msg.kind == Shutdown {
      t := LastRoundIsARun(cfg, s);
      steps := [Wait, Remove, Dispatch];
    } else {
      t := ConsumerRoundIsARun(cfg, s);
      steps := [Wait, Remove, Dispatch, Deallocate];
    }
  }

  /** A call of HandleNext is a run of the system, which delivers what the handler is called with. */
  method HandleNextIsARun(inbox: Inbox, ghost cfg: Config, ghost s: State)
    returns (event: Option<Event>, shutdown: bool, ghost steps: seq<Step>, ghost t: State)
    requires inbox.Valid() && inbox.tokens > 0 && Mirrors(inbox, s) && s.consumer == Looping
    requires inbox.queued != [] ==> Deliverable(inbox.live, inbox.queued[0])
    modifies inbox.Repr()
    ensures inbox.Valid() && Mirrors(inbox, t)
    ensures Runs(cfg, s, steps, t)
    ensures t.consumer == if shutdown then Stopped else Looping
    ensures t.channels == Delivered(s.channels, event)
  {
    assert s.queue != [] ==> s.queue[0] in s.live && s.live[s.queue[0]].msg == inbox.live[s.queue[0]];
    hide Inbox.Valid, Pending, Enabled, Next, Messages, Runs, EventOf, Deliverable;
    steps, t := RoundIsARun(cfg, s);
    event, shutdown := HandleNext(inbox);
  }

  /**
   * SendMsg with room for the whole frame behind the end cursor is the system's sending step. The system asks only
   * for room in the whole buffer, so the step is there wherever the cursors stand.
   */
  lemma {:induction false} SendIsAStep(cfg: Config, s: State, c: nat, p: Payload, free: nat)
    requires c in s.channels && s.channels[c].open && Sendable(p)
    requires free + |s.channels[c].sendBuffer| <= cfg.bufferSize && |p| + HEADER_SIZE <= free
    ensures Enabled(cfg, s, Send(c, p))
    ensures var ch := s.channels[c];
            Next(cfg, s, Send(c, p))
            == SetChannel(s, c, ch.(accepted := ch.accepted + [p], sendBuffer := SendBuffered(ch.sendBuffer, p, free)))
  {
    SendIsExactIff(s.channels[c].sendBuffer, p, free);
  }

  // ------------------------------------------------------------------ the socket's ends

  /** What a receive path has made of the session: the bytes have left the wire, the messages are as seen. */
  ghost predicate ReceivedBy(s: State, t: State, c: nat, read: seq<Byte>) {
    && c in s.channels && c in t.channels
    && s.channels[c].wire == read + t.channels[c].wire
    && t.channels == s.channels[c := s.channels[c].(wire := t.channels[c].wire, recvBuffer := t.channels[c].recvBuffer)]
    && t.notifiers == s.notifiers && t.consumer == s.consumer && t.emptyRemoves == s.emptyRemoves
  }

  lemma {:induction false} LockAndRead(cfg: Config, s: State, c: nat, read: seq<Byte>, wire: seq<Byte>)
    returns (steps: seq<Step>, t: State)
    requires c in s.channels && s.channels[c].receiver == Unlocked && s.channels[c].open
    requires s.channels[c].wire == read + wire && |s.channels[c].recvBuffer| + |read| <= cfg.recvLimit
    ensures Runs(cfg, s, steps, t)
    ensures var ch := s.channels[c];
            t == SetChannel(s, c, ch.(receiver := Extracting, recvBuffer := ch.recvBuffer + read, wire := wire))
  {
    hide HasFrame, FirstFrame, AfterFrame, HasRoom, Messages, Runs, Encode;
    var ch := s.channels[c];
    var a := Next(cfg, s, Lock(c));
    NoStep(cfg, s);
    OneStep(cfg, s, [], s, Lock(c));
    steps := [] + [Lock(c)];
    if read == [] {
      assert ch.recvBuffer + read == ch.recvBuffer && wire == ch.wire;
      t := a;
    } else {
      OneStep(cfg, s, steps, a, Read(c, |read|));
      t, steps := Next(cfg, a, Read(c, |read|)), steps + [Read(c, |read|)];
      assert ch.wire[..|read|] == read && ch.wire[|read|..] == wire;
      SetTwice(s.channels, c, ch.(receiver := Extracting),
               ch.(receiver := Extracting, recvBuffer := ch.recvBuffer + read, wire := wire));
    }
  }

  lemma {:induction false} GiveUpLock(cfg: Config, s: State, c: nat) returns (steps: seq<Step>, t: State)
    requires c in s.channels && (s.channels[c].receiver == Extracting || s.channels[c].receiver == Unlocked)
    ensures Runs(cfg, s, steps, t) && t == SetChannel(s, c, s.channels[c].(receiver := Unlocked))
  {
    NoStep(cfg, s);
    hide HasFrame, FirstFrame, AfterFrame, HasRoom, Messages, Runs, Encode;
    if s.channels[c].receiver == Extracting {
      OneStep(cfg, s, [], s, Unlock(c));
      steps, t := [] + [Unlock(c)], Next(cfg, s, Unlock(c));
    } else {
      steps, t := [], s;
      assert s.channels[c := s.channels[c].(receiver := Unlocked)] == s.channels;
    }
  }

  /** Reading bytes off the wire and extracting from them, under the receive lock, is a run of the system. */
  lemma {:induction false} ReceiptIsARun(cfg: Config, s: State, c: nat, read: seq<Byte>, wire: seq<Byte>,
                                         slots: seq<nat>, after: View)
    returns (steps: seq<Step>, t: State)
    requires c in s.channels && s.channels[c].receiver == Unlocked && s.channels[c].open
    requires s.channels[c].wire == read + wire && |s.channels[c].recvBuffer| + |read| <= cfg.recvLimit
    requires var v := ViewOf(s, c);
             Extracted(c, cfg.msgQueueSize, v.(bytes := v.bytes + read), slots, after)
    requires Supplied(cfg, slots, after.live)
    requires |s.queue| <= cfg.msgQueueSize && |s.queue| + |slots| <= cfg.msgQueueSize + 1
    ensures Runs(cfg, s, steps, t) && ReceivedBy(s, t, c, read)
    ensures t.channels[c].wire == wire && ViewOf(t, c) == after
  {
    var first, a := LockAndRead(cfg, s, c, read, wire);
    assert ViewOf(a, c) == ViewOf(s, c).(bytes := ViewOf(s, c).bytes + read) && a.queue == s.queue;
    hide Runs, Extracted, Supplied, Messages;
    var second, b := ExtractionIsARun(cfg, a, c, slots, after);
    var third;
    third, t := GiveUpLock(cfg, b, c);
    RunsAppend(cfg, s, first, a, second, b);
    RunsAppend(cfg, s, first + second, b, third, t);
    steps := first + second + third;
    SetTwice(s.channels, c, a.channels[c], b.channels[c]);
    SetTwice(s.channels, c, b.channels[c], t.channels[c]);
  }

  /** The session and its socket are the receiving end of channel c. */
  ghost predicate AtEnd(operation: SessionCompleteOperation, inbox: Inbox, cfg: Config, s: State, c: nat)
    requires operation.Valid()
    reads operation.session.Repr(), operation.socket, inbox
  {
    && c in s.channels && operation.session.id == c
    && operation.session.Observe(inbox) == ViewOf(s, c)
    && operation.socket.incoming + operation.socket.coming == s.channels[c].wire
    && operation.session.recv.bytes.Length <= cfg.recvLimit + if operation.socket.zeroRead then 1 else 0
  }

  /**
   * A call of Recv on Linux is a run of the system that takes the bytes it has read off the wire, unless the bytes
   * fill the buffer so that the session is closed, or one more than the system lets in.
   */
  method RecvIsARun(operation: SessionCompleteOperation, active: bool, inbox: Inbox,
                    ghost cfg: Config, ghost s: State, ghost c: nat)
    returns (outcome: RecvOutcome, ghost read: seq<Byte>, ghost steps: seq<Step>, ghost t: State)
    requires operation.Valid() && inbox.Valid() && Configured(cfg, inbox)
    requires operation.session.Repr() !! inbox.Repr() && operation.socket !in inbox.Repr() && operation !in inbox.Repr()
    requires AtEnd(operation, inbox, cfg, s, c) && s.channels[c].receiver == Unlocked && s.channels[c].open
    modifies operation.session`recvTotal, operation.session.recv, operation.session.recv.bytes
    modifies operation.socket`incoming, operation.socket`coming, operation.socket`peerClosed, operation.socket`errors
    modifies inbox.Repr(), inbox.system
    ensures operation.Valid() && inbox.Valid()
    ensures outcome == Drained || |old(operation.session.recv.Contents()) + read| <= cfg.recvLimit ==>
              Runs(cfg, s, steps, t) && ReceivedBy(s, t, c, read) && AtEnd(operation, inbox, cfg, t, c)
  {
    QueueAtEnd(operation, inbox, cfg, s, c);
    ghost var came, was, on := operation.socket.incoming, operation.session.recv.Contents(), operation.socket.coming;
    ghost var free := operation.session.recv.FreeSpaceSize();
    ghost var arrived, slots, stop;
    outcome, arrived, read, slots, stop := operation.Recv(active, inbox);
    TakenOff(came, on, arrived, read, operation.socket.incoming, operation.socket.coming);
    steps, t := [], s;
    if outcome == Drained || |was + read| <= cfg.recvLimit {
      hide SessionCompleteOperation.Valid, Inbox.Valid, Session.Ended, Configured, ReceivedBy, Runs;
      steps, t := AfterRecv(operation, inbox, cfg, s, c, read, slots, stop, outcome == Drained);
    }
  }

  lemma QueueAtEnd(operation: SessionCompleteOperation, inbox: Inbox, cfg: Config, s: State, c: nat)
    requires operation.Valid() && inbox.Valid() && Configured(cfg, inbox) && AtEnd(operation, inbox, cfg, s, c)
    ensures |s.queue| <= cfg.msgQueueSize
    ensures operation.session.recv.FreeSpaceSize() + |s.channels[c].recvBuffer|
            <= cfg.recvLimit + if operation.socket.zeroRead then 1 else 0
  {
    InboxIsBounded(inbox);
  }

  lemma {:induction false} TakenOff(came: seq<Byte>, on: seq<Byte>, arrived: seq<Byte>, read: seq<Byte>,
      incoming: seq<Byte>,
                                    coming: seq<Byte>)
    requires on == arrived + coming && came + arrived == read + incoming
    ensures came + on == read + (incoming + coming)
  {
    assert came + (arrived + coming) == (came + arrived) + coming;
    assert (read + incoming) + coming == read + (incoming + coming);
  }

  /** What the contract of Recv leaves behind, as a run. */
  lemma AfterRecv(operation: SessionCompleteOperation, inbox: Inbox, cfg: Config, s: State, c: nat, read: seq<Byte>,
                  slots: seq<nat>, stop: Stop, drained: bool)
    returns (steps: seq<Step>, t: State)
    requires operation.Valid() && inbox.Valid() && Configured(cfg, inbox)
    requires c in s.channels && s.channels[c].receiver == Unlocked && s.channels[c].open && operation.session.id == c
    requires operation.session.recv.bytes.Length <= cfg.recvLimit + if operation.socket.zeroRead then 1 else 0
    requires s.channels[c].wire == read + (operation.socket.incoming + operation.socket.coming)
    requires |s.queue| <= cfg.msgQueueSize && |s.channels[c].recvBuffer| + |read| <= cfg.recvLimit
    requires var from := ViewOf(s, c).(bytes := s.channels[c].recvBuffer + read);
             if drained then operation.session.Ended(inbox, from, slots, stop)
             else slots == [] && operation.session.Observe(inbox) == from
    ensures Runs(cfg, s, steps, t) && ReceivedBy(s, t, c, read) && AtEnd(operation, inbox, cfg, t, c)
  {
    ghost var from := ViewOf(s, c).(bytes := s.channels[c].recvBuffer + read);
    if drained {
      EndedFacts(operation.session, inbox, from, slots, stop);
    } else {
      ExtractedNone(c, cfg.msgQueueSize, from);
    }
    SlotsOfEnd(operation.session, inbox, from, slots, stop, drained);
    InboxIsSupplied(cfg, inbox, slots);
    var left, after := operation.socket.incoming + operation.socket.coming, operation.session.Observe(inbox);
    hide SessionCompleteOperation.Valid, Inbox.Valid, Session.Ended, Extracted, Supplied, ReceivedBy, Runs;
    steps, t := ReceiptIsARun(cfg, s, c, read, left, slots, after);
    InChannels(s, t, c, read);
  }

  lemma {:induction false} InChannels(s: State, t: State, c: nat, read: seq<Byte>)
    requires ReceivedBy(s, t, c, read)
    ensures c in t.channels
  {
  }

  lemma SlotsOfEnd(session: Session, inbox: Inbox, from: View, slots: seq<nat>, stop: Stop, drained: bool)
    requires session.recv.Valid()
    requires if drained then session.Ended(inbox, from, slots, stop) else slots == []
    ensures forall i | 0 <= i < |slots| :: slots[i] in inbox.pool.headers.slots
  {
  }

  /** The bytes that the network has taken have moved from the send buffer to the wire. */
  lemma {:induction false} DrainIsARun(cfg: Config, s: State, c: nat, drained: seq<Byte>, rest: seq<Byte>)
    returns (steps: seq<Step>, t: State)
    requires c in s.channels && s.channels[c].sendBuffer == drained + rest
    ensures Runs(cfg, s, steps, t)
    ensures t == SetChannel(s, c, s.channels[c].(sendBuffer := rest, wire := s.channels[c].wire + drained))
  {
    var ch := s.channels[c];
    NoStep(cfg, s);
    hide HasFrame, FirstFrame, AfterFrame, HasRoom, Messages, Runs, Encode;
    if drained == [] {
      steps, t := [], s;
      assert ch.sendBuffer == rest && ch.wire + drained == ch.wire;
      assert s.channels[c := ch] == s.channels;
    } else {
      OneStep(cfg, s, [], s, Drain(c, |drained|));
      steps, t := [] + [Drain(c, |drained|)], Next(cfg, s, Drain(c, |drained|));
      assert ch.sendBuffer[..|drained|] == drained && ch.sendBuffer[|drained|..] == rest;
    }
  }

  /** The state after a message has been accepted, or refused, and some bytes have been drained. */
  function Sent(s: State, c: nat, ok: bool, data: Payload, rest: seq<Byte>, drained: seq<Byte>): State
    requires c in s.channels
  {
    var ch := s.channels[c];
    SetChannel(s, c, ch.(accepted := if ok then ch.accepted + [data] else ch.accepted,
                         sendBuffer := rest, wire := ch.wire + drained))
  }

  lemma {:induction false} SendAndDrain(cfg: Config, s: State, c: nat, ok: bool, data: Payload, free: nat,
                                        rest: seq<Byte>, drained: seq<Byte>)
    returns (steps: seq<Step>, t: State)
    requires c in s.channels && s.channels[c].open && Sendable(data)
    requires ok ==> free + |s.channels[c].sendBuffer| <= cfg.bufferSize && |data| + HEADER_SIZE <= free
    requires drained + rest == if ok then SendBuffered(s.channels[c].sendBuffer, data, free)
        else s.channels[c].sendBuffer
    ensures Runs(cfg, s, steps, t) && t == Sent(s, c, ok, data, rest, drained)
  {
    hide SendBuffered, Runs, Enabled, Next, Sendable;
    var ch := s.channels[c];
    if ok {
      SendIsAStep(cfg, s, c, data, free);
      var a := Next(cfg, s, Send(c, data));
      NoStep(cfg, s);
      OneStep(cfg, s, [], s, Send(c, data));
      var more;
      more, t := DrainIsARun(cfg, a, c, drained, rest);
      RunsAppend(cfg, s, [] + [Send(c, data)], a, more, t);
      steps := [] + [Send(c, data)] + more;
      SetTwice(s.channels, c, a.channels[c], t.channels[c]);
    } else {
      steps, t := DrainIsARun(cfg, s, c, drained, rest);
    }
  }

  /** A call of SendMsg on Linux, which also drains the buffer, is a run of the system. */
  method SendMsgIsARun(operation: SessionCompleteOperation, activeBefore: bool, activeLocked: bool,
                       activeDraining: bool, data: Payload, ghost cfg: Config, ghost s: State, ghost c: nat)
    returns (ok: bool, ghost drained: seq<Byte>, ghost steps: seq<Step>, ghost t: State)
    requires operation.Valid() && Sendable(data)
    requires c in s.channels && s.channels[c].open && operation.session.send.Contents() == s.channels[c].sendBuffer
    requires operation.session.send.bytes.Length <= cfg.bufferSize
    requires var free := operation.session.send.FreeSpaceSize(); |data| + HEADER_SIZE <= free || free < |data|
    modifies operation.session`sendTotal, operation.session.send, operation.session.send.bytes,
        operation.socket`outgoing, operation.socket`refusals, operation.socket`blocks
    ensures operation.Valid()
    ensures operation.socket.outgoing == old(operation.socket.outgoing) + drained
    ensures Runs(cfg, s, steps, t) && t == Sent(s, c, ok, data, operation.session.send.Contents(), drained)
  {
    ghost var free, out, was := operation.session.send.FreeSpaceSize(), operation.socket.outgoing,
        operation.session.send.Contents();
    assert free + |was| <= operation.session.send.bytes.Length;
    ok := operation.SendMsg(activeBefore, activeLocked, activeDraining, data);
    ghost var now, rest := operation.socket.outgoing, operation.session.send.Contents();
    ghost var buffered := if ok then SendBuffered(was, data, free) else was;
    drained := now[|out|..];
    Continued(out, buffered, now, rest);
    hide *;
    steps, t := SendAndDrain(cfg, s, c, ok, data, free, rest, drained);
  }

  lemma {:induction false} Continued(out: seq<Byte>, buffered: seq<Byte>, now: seq<Byte>, rest: seq<Byte>)
    requires out + buffered == now + rest && |out| <= |now|
    ensures now == out + now[|out|..] && buffered == now[|out|..] + rest
  {
    assert (now + rest)[..|out|] == out && (now + rest)[|out|..] == buffered;
    assert now[..|out|] == (now + rest)[..|out|];
    assert (now + rest)[|out|..] == now[|out|..] + rest;
  }

  /** A completed overlapped receive is a run of the system that takes the bytes off the wire. */
  method RecvCompleteIsARun(win: WinSession, inbox: Inbox, data: seq<Byte>, ghost wire: seq<Byte>,
                            ghost cfg: Config, ghost s: State, ghost c: nat)
    returns (ghost steps: seq<Step>, ghost t: State)
    requires win.Valid() && inbox.Valid() && Configured(cfg, inbox)
    requires win.session.Repr() !! inbox.Repr() && win !in inbox.Repr()
    requires |data| <= win.session.recv.FreeSpaceSize() && win.session.recv.bytes.Length <= cfg.recvLimit
    requires c in s.channels && s.channels[c].receiver == Unlocked && s.channels[c].open
    requires s.channels[c].wire == data + wire
    requires win.session.id == c && win.session.Observe(inbox) == ViewOf(s, c)
    modifies win.session`recvTotal, win.session.recv, win.session.recv.bytes, inbox.Repr(), inbox.system
    ensures win.Valid() && inbox.Valid()
    ensures Runs(cfg, s, steps, t) && ReceivedBy(s, t, c, data) && c in t.channels
    ensures t.channels[c].wire == wire && win.session.Observe(inbox) == ViewOf(t, c)
  {
    InboxIsBounded(inbox);
    QueueOf(s, c);
    ghost var from := ViewOf(s, c).(bytes := win.session.recv.Contents() + data);
    assert |win.session.recv.Contents()| + |data| <= win.session.recv.bytes.Length;
    hide Inbox.Valid, WinSession.Exact;
    ghost var slots, stop;
    slots, stop := win.RecvComplete(inbox, data);
    hide WinSession.Valid, Session.Ended, Configured, ReceivedBy, Runs, Extracted, Supplied;
    FactsOfEnd(win, inbox, from, slots, stop);
    InboxIsSupplied(cfg, inbox, slots);
    CapacityOf(cfg, inbox);
    steps, t := ReceiptIsARun(cfg, s, c, data, wire, slots, win.session.Observe(inbox));
    InChannels(s, t, c, data);
  }

  lemma CapacityOf(cfg: Config, inbox: Inbox)
    requires Configured(cfg, inbox)
    ensures cfg.msgQueueSize == inbox.Capacity()
  {
  }

  lemma FactsOfEnd(win: WinSession, inbox: Inbox, from: View, slots: seq<nat>, stop: Stop)
    requires win.Valid() && inbox.Valid() && win.session.Ended(inbox, from, slots, stop)
    requires |from.queued| <= inbox.Capacity()
    ensures Extracted(win.session.id, inbox.Capacity(), from, slots, win.session.Observe(inbox))
    ensures |from.queued| + |slots| <= inbox.Capacity() + 1
    ensures forall i | 0 <= i < |slots| :: slots[i] in inbox.pool.headers.slots
  {
    hide Inbox.Valid, Session.Ended;
    EndedFacts(win.session, inbox, from, slots, stop);
  }

  /** A completed overlapped send is a run of the system that moves the bytes taken onto the wire. */
  method SendCompleteIsARun(win: WinSession, bytesTransferred: nat, ghost cfg: Config, ghost s: State, ghost c: nat)
    returns (ghost steps: seq<Step>, ghost t: State)
    requires win.Valid() && win.sending && bytesTransferred <= win.sendingSize
    requires c in s.channels && win.session.send.Contents() == s.channels[c].sendBuffer
    modifies win, win.session`sendTotal, win.session.send, win.session.send.bytes
    ensures win.Valid() && Runs(cfg, s, steps, t)
    ensures t == SetChannel(s, c, s.channels[c].(sendBuffer := win.session.send.Contents(),
                                                 wire := s.channels[c].wire
                                                     + old(win.inFlight.value)[..bytesTransferred]))
  {
    ghost var was, posted := win.session.send.Contents(), win.inFlight.value;
    assert posted == was[..win.sendingSize];
    assert was[..bytesTransferred] == posted[..bytesTransferred];
    assert was == posted[..bytesTransferred] + was[bytesTransferred..];
    hide WinSession.Exact;
    win.SendComplete(bytesTransferred);
    hide *;
    steps, t := DrainIsARun(cfg, s, c, posted[..bytesTransferred], was[bytesTransferred..]);
  }
}
