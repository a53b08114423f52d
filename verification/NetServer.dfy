// The loop that consumes the message queue and calls the message handler.
module NetServer {
  import opened Containers
  import opened Framing
  import opened Inboxes
  import opened MsgPools

  /** A call of the message handler. A message of any other type is only logged. */
  datatype Event =
    | OnAccept(session: int)
    | OnConnect(session: int)
    | OnClose(session: int)
    | OnReceive(session: int, payload: Payload)
    | Ignored

  function EventOf(msg: LiveMsg): Event {
    match msg.kind
    case AcceptExternal => OnAccept(msg.session)
    case Connect => OnConnect(msg.session)
    case Close => OnClose(msg.session)
    case Recv => if msg.payload.Some? then OnReceive(msg.session, msg.payload.value) else Ignored
    case _ => Ignored
  }

  /** The handler has seen the first |log| messages of the queue, and they alone have been freed. */
  ghost predicate Handled(live: map<nat, LiveMsg>, queue: seq<nat>, log: seq<Event>, live': map<nat, LiveMsg>) {
    && |log| <= |queue|
    && (forall i | 0 <= i < |queue| :: queue[i] in live)
    && (forall i | 0 <= i < |log| :: live[queue[i]].kind != Shutdown && log[i] == EventOf(live[queue[i]]))
    && (forall m :: m in live' <==> m in live && m !in queue[..|log|])
    && (forall m | m in live' :: live'[m] == live[m])
  }

  lemma HandledNone(live: map<nat, LiveMsg>, queue: seq<nat>)
    requires Pending(live, queue)
    ensures Handled(live, queue, [], live)
  {
  }

  lemma HandledFacts(live: map<nat, LiveMsg>, queue: seq<nat>, log: seq<Event>, live': map<nat, LiveMsg>)
    requires Pending(live, queue) && Handled(live, queue, log, live')
    ensures |log| < |queue| ==>
              Deliverable(live', queue[|log|]) && queue[|log|] in live && live'[queue[|log|]] == live[queue[|log|]]
  {
  }

  lemma HandledOneMore(live: map<nat, LiveMsg>, queue: seq<nat>, log: seq<Event>, live': map<nat, LiveMsg>,
      event: Event)
    requires Pending(live, queue) && Handled(live, queue, log, live') && |log| < |queue|
    requires queue[|log|] in live && live[queue[|log|]].kind != Shutdown && event == EventOf(live[queue[|log|]])
    ensures Handled(live, queue, log + [event], live' - {queue[|log|]})
  {
    hide EventOf;
    assert queue[..|log| + 1] == queue[..|log|] + [queue[|log|]];
  }

  /** Calls the handler for one message that has been taken out of the queue. */
  method Dispatch(inbox: Inbox, m: nat) returns (event: Event)
    requires inbox.Valid() && m in inbox.live
    requires inbox.live[m].kind == Recv ==> inbox.live[m].payload.Some?
    ensures event == EventOf(inbox.live[m])
    ensures inbox.live[m].kind == AcceptExternal ==> event == OnAccept(inbox.live[m].session)
    ensures inbox.live[m].kind == Connect ==> event == OnConnect(inbox.live[m].session)
    ensures inbox.live[m].kind == Close ==> event == OnClose(inbox.live[m].session)
    ensures inbox.live[m].kind == Recv ==> event == OnReceive(inbox.live[m].session, inbox.live[m].payload.value)
    ensures inbox.live[m].kind in {Invalid, AcceptInternal, Shutdown} ==> event == Ignored
  {
    assert inbox.pool.MsgOk(m);
    var msg := inbox.pool.headers.mem[m].value;
    match msg.kind {
      case AcceptExternal => event := OnAccept(msg.session);
      case Connect => event := OnConnect(msg.session);
      case Close => event := OnClose(msg.session);
      case Recv =>
        var payload := inbox.pool.ReadPayload(m);
        event := OnReceive(msg.session, payload);
      case _ => event := Ignored;
    }
  }

  /** One round of the loop: wait, remove, and unless that is the shutdown message, dispatch and free. */
  method HandleNext(inbox: Inbox) returns (event: Option<Event>, shutdown: bool)
    requires inbox.Valid() && inbox.tokens > 0
    requires inbox.queued != [] ==> Deliverable(inbox.live, inbox.queued[0])
    modifies inbox.Repr()
    ensures inbox.Valid() && inbox.tokens == old(inbox.tokens) - 1
    ensures old(inbox.queued) == [] ==>
              event == None && !shutdown && inbox.queued == [] && inbox.live == old(inbox.live)
    ensures old(inbox.queued) != [] ==>
              var m := old(inbox.queued)[0];
              && inbox.queued == old(inbox.queued)[1..]
              && shutdown == (old(inbox.live)[m].kind == Shutdown)
              && event == (if shutdown then None else Some(EventOf(old(inbox.live)[m])))
              && inbox.live == if shutdown then old(inbox.live) else old(inbox.live) - {m}
    ensures old(Pending(inbox.live, inbox.queued)) ==> Pending(inbox.live, inbox.queued)
  {
    hide Inbox.Valid, EventOf, Pending;
    if Pending(inbox.live, inbox.queued) && inbox.queued != [] {
      PendingShrinks(inbox.live, inbox.queued);
    }
    event, shutdown := None, false;
    inbox.Wait();
    var m := inbox.Remove();
    if m == None {
      return;
    }
    if Kind(inbox, m.value) == Shutdown {
      return None, true;
    }
    var handled := Dispatch(inbox, m.value);
    inbox.Deallocate(m.value);
    event := Some(handled);
  }

  /** The static flag of the loop, which other threads clear at any time. */
  class RunningFlag {
    var running: bool
    /** How often it has been found cleared after it was set. */
    ghost var falls: nat

    constructor ()
      ensures !running && falls == 0
    {
      running, falls := false, 0;
    }

    method Raise()
      modifies `running
      ensures running
    {
      running := true;
    }

    method Read() returns (up: bool)
      modifies this
      ensures up == running && (running ==> old(running))
      ensures falls == old(falls) + if old(running) && !running then 1 else 0
    {
      if running {
        if * {
          running, falls := false, falls + 1;
        }
      }
      return running;
    }
  }

  /** Why the loop ends in this model: the third stands for waiting on the semaphore. */
  datatype Ending = GotShutdown | FlagFell | WouldWait

  /**
   * NetLoop, until it gets the shutdown message, finds that its flag has been cleared, or would wait. The
   * handler sees the queued messages in queue order up to the shutdown message; each of them is freed after it
   * has been handled, the shutdown message is not. It ends early only if the flag was set and has been cleared.
   */
  method NetLoop(inbox: Inbox, flag: RunningFlag, ghost live: map<nat, LiveMsg>, ghost queue: seq<nat>,
                 ghost tokens: nat)
    returns (log: seq<Event>, ending: Ending)
    requires inbox.Valid() && live == inbox.live && queue == inbox.queued && tokens == inbox.tokens
    requires flag !in inbox.Repr()
    requires Pending(live, queue)
    modifies inbox.Repr(), flag
    ensures inbox.Valid() && Pending(inbox.live, inbox.queued)
    ensures flag.falls == old(flag.falls) + if ending.FlagFell? then 1 else 0
    ensures Handled(live, queue, log, inbox.live)
    ensures |log| <= tokens
    ensures ending.GotShutdown? ==> |log| < |queue| && queue[|log|] in live && live[queue[|log|]].kind == Shutdown
    ensures ending.GotShutdown? ==> inbox.queued == queue[|log| + 1..]
    ensures !ending.GotShutdown? ==> inbox.queued == queue[|log|..]
    ensures ending.WouldWait? ==> inbox.tokens == 0 && |log| == if tokens <= |queue| then tokens else |queue|
  {
    hide Inbox.Valid, Pending, Handled, EventOf, Deliverable;
    log := [];
    flag.Raise();
    HandledNone(live, queue);
    while true
      invariant inbox.Valid() && Pending(inbox.live, inbox.queued)
      invariant flag.running && flag.falls == old(flag.falls)
      invariant |log| <= |queue| && inbox.queued == queue[|log|..]
      invariant Handled(live, queue, log, inbox.live)
      invariant inbox.tokens + |log| <= tokens && (|log| < |queue| ==> inbox.tokens + |log| == tokens)
      decreases inbox.tokens
    {
      var running := flag.Read();
      if !running {
        return log, FlagFell;
      }
      if !WouldNotBlock(inbox) {
        return log, WouldWait;
      }
      ghost var now := inbox.live;
      HandledFacts(live, queue, log, now);
      var event, shutdown := HandleNext(inbox);
      if shutdown {
        return log, GotShutdown;
      }
      if event.Some? {
        HandledOneMore(live, queue, log, now, event.value);
        log := log + [event.value];
      }
    }
  }

  predicate WouldNotBlock(inbox: Inbox)
    requires inbox.Valid()
    reads inbox.Repr()
    ensures WouldNotBlock(inbox) == (inbox.tokens > 0)
  {
    inbox.queue.tokens > 0
  }

  function Kind(inbox: Inbox, m: nat): (kind: MsgType)
    requires inbox.Valid() && m in inbox.live
    reads inbox.Repr()
    ensures kind == inbox.live[m].kind
  {
    assert inbox.pool.MsgOk(m);
    inbox.pool.headers.mem[m].value.kind
  }
}
