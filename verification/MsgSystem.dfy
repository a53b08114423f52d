// The messaging library as a system of interleaved atomic steps: any number of sessions, receiving
// threads and notifying threads, one message queue with its semaphore, and the loop that consumes it.
// The queue, the pool and the buffers act here as the classes that model them are proved to act.
module MsgSystem {
  import opened Containers
  import opened Framing
  import opened MsgPools
  import opened PoolCapacity
  import opened Sequences

  /**
   * The memory of the message pool and the sizes of the queue and of a buffer. A receive buffer may fill up to
   * recvLimit: that is its size, or one byte less where a full buffer closes the session, as it does on Linux
   * if a read into no space is answered by 0.
   */
  datatype Config = Config(pool: Memory, msgQueueSize: nat, bufferSize: nat, recvLimit: nat)

  /** The most bytes a message carries: of a frame that fits, or the one byte of a notification. */
  function Largest(cfg: Config): (n: nat)
    ensures n > 0
  {
    if cfg.recvLimit <= HEADER_SIZE then 1
    else if cfg.recvLimit - HEADER_SIZE <= SHORT_MAX then cfg.recvLimit - HEADER_SIZE
    else SHORT_MAX
  }

  /** The most messages that can be alive at once. */
  function Capacity(cfg: Config): nat {
    MostAlive(cfg.pool, Largest(cfg))
  }

  /** How far the thread that holds the receive lock of a session has come. */
  datatype Receiver =
    | Unlocked
    | Extracting           // at the head of the loop of ExtractMsg, or still reading
    | Filled(slot: nat)    // a message holds a copy of the first frame
    | Consumed(slot: nat)  // the frame has been cut off the buffer
    | Posting(ok: bool)    // the message was pushed, or refused; the semaphore has not been posted yet

  /** A thread in InsertSimpleMsg. */
  datatype Notifier = Labelled(slot: nat) | NotePosting

  /** The thread in NetLoop. */
  datatype Consumer = Looping | Woken | Holding(slot: nat) | Done(slot: nat) | Stopped

  /** One lifetime of a connection, from the sending session to the receiving one. */
  datatype Channel = Channel(
    accepted: seq<Payload>,
    sendBuffer: seq<Byte>, wire: seq<Byte>, recvBuffer: seq<Byte>,
    receiver: Receiver, open: bool,
    delivered: seq<Payload>)

  /** Who is responsible for a live message. */
  datatype Place = AtReceiver(channel: nat) | AtNotifier(thread: nat) | InQueue | AtConsumer | Lost

  datatype Entry = Entry(msg: LiveMsg, place: Place)

  datatype State = State(
    channels: map<nat, Channel>,
    notifiers: map<nat, Notifier>,
    consumer: Consumer,
    live: map<nat, Entry>,
    queue: seq<nat>,
    tokens: nat,
    failedPushes: nat,
    emptyRemoves: nat)

  /** The live messages as the pool knows them. */
  function Messages(live: map<nat, Entry>): map<nat, LiveMsg> {
    map m | m in live :: live[m].msg
  }

  datatype Step =
    | Open(c: nat)
    | Send(c: nat, p: Payload)
    | Drain(c: nat, n: nat)
    | Lock(c: nat)
    | Read(c: nat, n: nat)
    | Allocate(c: nat, m: nat)
    | Consume(c: nat)
    | Push(c: nat)
    | Post(c: nat)
    | Unlock(c: nat)
    | Shut(c: nat)
    | Notify(t: nat, m: nat, kind: MsgType, session: int)
    | NotePush(t: nat)
    | NotePost(t: nat)
    | Wait
    | Remove
    | Dispatch
    | Deallocate

  const START := State(map[], map[], Looping, map[], [], 0, 0, 0)

  predicate Enabled(cfg: Config, s: State, step: Step) {
    match step
    case Open(c) => c !in s.channels
    case Send(c, p) =>
      c in s.channels && s.channels[c].open && Sendable(p)
      && |s.channels[c].sendBuffer| + HEADER_SIZE + |p| <= cfg.bufferSize
    case Drain(c, n) => c in s.channels && 0 < n <= |s.channels[c].sendBuffer|
    case Lock(c) => c in s.channels && s.channels[c].open && s.channels[c].receiver == Unlocked
    case Read(c, n) =>
      c in s.channels && s.channels[c].receiver == Extracting && 0 < n <= |s.channels[c].wire|
      && |s.channels[c].recvBuffer| + n <= cfg.recvLimit
    case Allocate(c, m) =>
      c in s.channels && s.channels[c].receiver == Extracting && HasFrame(s.channels[c].recvBuffer)
      && m in cfg.pool.slots && m !in s.live
      && HasRoom(Messages(s.live), cfg.pool, |FirstFrame(s.channels[c].recvBuffer)|)
    case Consume(c) => c in s.channels && s.channels[c].receiver.Filled? && HasFrame(s.channels[c].recvBuffer)
    case Push(c) => c in s.channels && s.channels[c].receiver.Consumed? && s.channels[c].receiver.slot in s.live
    case Post(c) => c in s.channels && s.channels[c].receiver.Posting?
    case Unlock(c) => c in s.channels && s.channels[c].receiver == Extracting
    case Shut(c) => c in s.channels && s.channels[c].open && s.channels[c].receiver == Unlocked
    case Notify(t, m, kind, session) =>
      t !in s.notifiers && kind != Recv && m in cfg.pool.slots && m !in s.live && HasRoom(Messages(s.live), cfg.pool, 1)
    case NotePush(t) => t in s.notifiers && s.notifiers[t].Labelled? && s.notifiers[t].slot in s.live
    case NotePost(t) => t in s.notifiers && s.notifiers[t] == NotePosting
    case Wait => s.consumer == Looping && s.tokens > 0
    case Remove => s.consumer == Woken && (s.queue == [] || s.queue[0] in s.live)
    case Dispatch => s.consumer.Holding? && s.consumer.slot in s.live
    case Deallocate => s.consumer.Done?
  }

  function SetChannel(s: State, c: nat, ch: Channel): State {
    s.(channels := s.channels[c := ch])
  }

  function Hand(s: State, m: nat, p: Place): State
    requires m in s.live
  {
    s.(live := s.live[m := s.live[m].(place := p)])
  }

  function Next(cfg: Config, s: State, step: Step): State
    requires Enabled(cfg, s, step)
  {
    match step
    case Open(c) => SetChannel(s, c, Channel([], [], [], [], Unlocked, true, []))
    case Send(c, p) =>
      var ch := s.channels[c];
      SetChannel(s, c, ch.(accepted := ch.accepted + [p], sendBuffer := ch.sendBuffer + Encode(p)))
    case Drain(c, n) =>
      var ch := s.channels[c];
      SetChannel(s, c, ch.(wire := ch.wire + ch.sendBuffer[..n], sendBuffer := ch.sendBuffer[n..]))
    case Lock(c) => SetChannel(s, c, s.channels[c].(receiver := Extracting))
    case Read(c, n) =>
      var ch := s.channels[c];
      SetChannel(s, c, ch.(recvBuffer := ch.recvBuffer + ch.wire[..n], wire := ch.wire[n..]))
    case Allocate(c, m) =>
      var p := FirstFrame(s.channels[c].recvBuffer);
      SetChannel(s, c, s.channels[c].(receiver := Filled(m)))
        .(live := s.live[m := Entry(LiveMsg(Recv, c, |p|, Some(p)), AtReceiver(c))])
    case Consume(c) =>
      var ch := s.channels[c];
      SetChannel(s, c, ch.(receiver := Consumed(ch.receiver.slot), recvBuffer := AfterFrame(ch.recvBuffer)))
    case Push(c) =>
      var m := s.channels[c].receiver.slot;
      var ok := |s.queue| < cfg.msgQueueSize;
      PushMsg(cfg, SetChannel(s, c, s.channels[c].(receiver := Posting(ok))), m)
    case Post(c) =>
      var ok := s.channels[c].receiver.ok;
      SetChannel(s, c, s.channels[c].(receiver := if ok then Extracting else Unlocked)).(tokens := s.tokens + 1)
    case Unlock(c) => SetChannel(s, c, s.channels[c].(receiver := Unlocked))
    case Shut(c) => SetChannel(s, c, s.channels[c].(open := false))
    case Notify(t, m, kind, session) =>
      s.(notifiers := s.notifiers[t := Labelled(m)],
         live := s.live[m := Entry(LiveMsg(kind, session, 1, None), AtNotifier(t))])
    case NotePush(t) =>
      PushMsg(cfg, s.(notifiers := s.notifiers[t := NotePosting]), s.notifiers[t].slot)
    case NotePost(t) => s.(notifiers := s.notifiers - {t}, tokens := s.tokens + 1)
    case Wait => s.(consumer := Woken, tokens := s.tokens - 1)
    case Remove =>
      if s.queue == [] then s.(consumer := Looping, emptyRemoves := s.emptyRemoves + 1)
      else Hand(s, s.queue[0], AtConsumer).(consumer := Holding(s.queue[0]), queue := s.queue[1..])
    case Dispatch =>
      var m := s.consumer.slot;
      var msg := s.live[m].msg;
      if msg.kind == Shutdown then s.(consumer := Stopped)
      else if msg.kind == Recv && msg.session >= 0 && msg.session in s.channels && msg.payload.Some? then
        var ch := s.channels[msg.session];
        SetChannel(s, msg.session, ch.(delivered := ch.delivered + [msg.payload.value])).(consumer := Done(m))
      else s.(consumer := Done(m))
    case Deallocate => s.(live := s.live - {s.consumer.slot}, consumer := Looping)
  }

  function PushMsg(cfg: Config, s: State, m: nat): State
    requires m in s.live
  {
    if |s.queue| < cfg.msgQueueSize then Hand(s, m, InQueue).(queue := Pushed(s.queue, m, cfg.msgQueueSize))
    else Hand(s, m, Lost).(failedPushes := s.failedPushes + 1)
  }

  /** t is reached from s by the given steps, each of them enabled when it is taken. */
  ghost predicate Runs(cfg: Config, s: State, steps: seq<Step>, t: State)
    decreases |steps|
  {
    if steps == [] then t == s
    else Enabled(cfg, s, steps[0]) && Runs(cfg, Next(cfg, s, steps[0]), steps[1..], t)
  }

  // ------------------------------------------------------------------ runs put together

  lemma {:induction false} RunsAppend(cfg: Config, s: State, first: seq<Step>, t: State, second: seq<Step>, u: State)
    requires Runs(cfg, s, first, t) && Runs(cfg, t, second, u)
    ensures Runs(cfg, s, first + second, u)
    decreases |first|
  {
    if first == [] {
      assert first + second == second;
    } else {
      assert (first + second)[1..] == first[1..] + second;
      RunsAppend(cfg, Next(cfg, s, first[0]), first[1..], t, second, u);
    }
  }

  lemma {:induction false} NoStep(cfg: Config, s: State)
    ensures Runs(cfg, s, [], s)
  {
  }

  lemma {:induction false} StepThen(cfg: Config, a: State, step: Step, b: State, more: seq<Step>, c: State)
    requires Enabled(cfg, a, step) && b == Next(cfg, a, step)
    requires Runs(cfg, b, more, c)
    ensures Runs(cfg, a, [step] + more, c)
  {
    assert ([step] + more)[0] == step && ([step] + more)[1..] == more;
  }

  lemma {:induction false} OneStep(cfg: Config, s: State, first: seq<Step>, t: State, step: Step)
    requires Runs(cfg, s, first, t) && Enabled(cfg, t, step)
    ensures Runs(cfg, s, first + [step], Next(cfg, t, step))
  {
    NoStep(cfg, Next(cfg, t, step));
    StepThen(cfg, t, step, Next(cfg, t, step), [], Next(cfg, t, step));
    hide *;
    assert [step] + [] == [step];
    RunsAppend(cfg, s, first, t, [step], Next(cfg, t, step));
  }

  lemma {:induction false} ThreeSteps(cfg: Config, a: State, p: Step, b: State, q: Step, c: State, r: Step, d: State)
    requires Enabled(cfg, a, p) && b == Next(cfg, a, p)
    requires Enabled(cfg, b, q) && c == Next(cfg, b, q)
    requires Enabled(cfg, c, r) && d == Next(cfg, c, r)
    ensures Runs(cfg, a, [p, q, r], d)
  {
    hide *;
    NoStep(cfg, d);
    StepThen(cfg, c, r, d, [], d);
    assert [r] + [] == [r];
    StepThen(cfg, b, q, c, [r], d);
    assert [q] + [r] == [q, r];
    StepThen(cfg, a, p, b, [q, r], d);
    assert [p] + [q, r] == [p, q, r];
  }

  lemma {:induction false} FourSteps(cfg: Config, a: State, p: Step, b: State, q: Step, c: State, r: Step, d: State,
                                     x: Step, e: State)
    requires Enabled(cfg, a, p) && b == Next(cfg, a, p)
    requires Enabled(cfg, b, q) && c == Next(cfg, b, q)
    requires Enabled(cfg, c, r) && d == Next(cfg, c, r)
    requires Enabled(cfg, d, x) && e == Next(cfg, d, x)
    ensures Runs(cfg, a, [p, q, r, x], e)
  {
    hide *;
    ThreeSteps(cfg, b, q, c, r, d, x, e);
    StepThen(cfg, a, p, b, [q, r, x], e);
    assert [p] + [q, r, x] == [p, q, r, x];
  }

  lemma {:induction false} SetTwice<V>(m: map<nat, V>, k: nat, x: V, y: V)
    ensures m[k := x][k := y] == m[k := y]
  {
  }

  // ------------------------------------------------- every live message has one owner

  ghost predicate Carries(s: State, m: nat, place: Place) {
    m in s.live && s.live[m].place == place
  }

  /** A received message belongs to a channel and carries a payload. */
  ghost predicate MsgOk(s: State, m: nat)
    requires m in s.live
  {
    var msg := s.live[m].msg;
    msg.kind == Recv ==> msg.payload.Some? && msg.session >= 0 && msg.session in s.channels
  }

  ghost predicate ReceiverOk(s: State, c: nat)
    requires c in s.channels
  {
    var ch := s.channels[c];
    && (ch.receiver.Filled? ==>
          && Carries(s, ch.receiver.slot, AtReceiver(c)) && HasFrame(ch.recvBuffer)
          && var p := FirstFrame(ch.recvBuffer);
             s.live[ch.receiver.slot].msg == LiveMsg(Recv, c, |p|, Some(p)))
    && (ch.receiver.Consumed? ==>
          && Carries(s, ch.receiver.slot, AtReceiver(c))
          && s.live[ch.receiver.slot].msg.kind == Recv && s.live[ch.receiver.slot].msg.session == c)
  }

  ghost predicate NotifierOk(s: State, t: nat)
    requires t in s.notifiers
  {
    s.notifiers[t].Labelled? ==>
      Carries(s, s.notifiers[t].slot, AtNotifier(t)) && s.live[s.notifiers[t].slot].msg.kind != Recv
  }

  ghost predicate LiveOwned(cfg: Config, s: State) {
    forall m | m in s.live :: m in cfg.pool.slots && MsgOk(s, m)
  }

  ghost predicate ReceiversOwned(s: State) {
    forall c | c in s.channels :: ReceiverOk(s, c)
  }

  ghost predicate NotifiersOwned(s: State) {
    forall t | t in s.notifiers :: NotifierOk(s, t)
  }

  ghost predicate QueueOwned(cfg: Config, s: State) {
    && (forall i | 0 <= i < |s.queue| :: Carries(s, s.queue[i], InQueue))
    && Distinct(s.queue) && |s.queue| <= cfg.msgQueueSize
  }

  ghost predicate ConsumerOwned(s: State) {
    s.consumer.Holding? || s.consumer.Done? ==> Carries(s, s.consumer.slot, AtConsumer)
  }

  /** The queue holds different live messages, and nobody else holds any of them. */
  ghost predicate Owned(cfg: Config, s: State) {
    LiveOwned(cfg, s) && ReceiversOwned(s) && NotifiersOwned(s) && QueueOwned(cfg, s) && ConsumerOwned(s)
  }

  lemma OwnedInitially(cfg: Config)
    ensures Owned(cfg, START)
  {
  }

  lemma {:induction false} OwnedByTransport(cfg: Config, s: State, step: Step)
    requires Owned(cfg, s) && Enabled(cfg, s, step)
    requires step.Open? || step.Send? || step.Drain? || step.Lock? || step.Read? || step.Post? || step.Unlock?
        || step.Shut?
    ensures Owned(cfg, Next(cfg, s, step))
  {
    hide HasFrame, FirstFrame, AfterFrame, Encode;
    var t := Next(cfg, s, step);
    if step.Read? {
      FirstFrameStays(s.channels[step.c].recvBuffer, s.channels[step.c].wire[..step.n]);
    }
    forall c | c in t.channels
      ensures ReceiverOk(t, c)
    {
      assert c in s.channels ==> ReceiverOk(s, c);
    }
  }

  lemma FirstFrameStays(a: seq<Byte>, b: seq<Byte>)
    ensures HasFrame(a) ==> HasFrame(a + b) && FirstFrame(a + b) == FirstFrame(a)
  {
  }

  lemma OwnedByAllocate(cfg: Config, s: State, c: nat, m: nat)
    requires Owned(cfg, s) && Enabled(cfg, s, Allocate(c, m))
    ensures Owned(cfg, Next(cfg, s, Allocate(c, m)))
  {
    hide HasFrame, FirstFrame, AfterFrame;
    var t := Next(cfg, s, Allocate(c, m));
    forall d | d in t.channels
      ensures ReceiverOk(t, d)
    {
      assert ReceiverOk(s, d);
    }
    assert forall n | n in t.notifiers :: NotifierOk(s, n) ==> NotifierOk(t, n);
  }

  lemma OwnedByConsume(cfg: Config, s: State, c: nat)
    requires Owned(cfg, s) && Enabled(cfg, s, Consume(c))
    ensures Owned(cfg, Next(cfg, s, Consume(c)))
  {
    hide HasFrame, FirstFrame, AfterFrame;
    var t := Next(cfg, s, Consume(c));
    forall d | d in t.channels
      ensures ReceiverOk(t, d)
    {
      assert ReceiverOk(s, d);
    }
  }

  /** Nobody refers to m but whoever hands it on. */
  ghost predicate Loose(s: State, m: nat) {
    && (forall c | c in s.channels :: !InHand(s.channels[c].receiver, m))
    && (forall t | t in s.notifiers :: s.notifiers[t] != Labelled(m))
    && (forall i | 0 <= i < |s.queue| :: s.queue[i] != m)
    && (s.consumer.Holding? || s.consumer.Done? ==> s.consumer.slot != m)
  }

  predicate InHand(r: Receiver, m: nat) {
    r == Filled(m) || r == Consumed(m)
  }

  /** The two states agree on every live message but m, and on who is about. */
  ghost predicate AgreeBut(s: State, t: State, m: nat) {
    && t.channels == s.channels && t.notifiers == s.notifiers && t.consumer == s.consumer
    && (forall n | n in s.live && n != m :: n in t.live && t.live[n] == s.live[n])
  }

  lemma {:induction false} HoldersFrame(s: State, t: State, m: nat)
    requires AgreeBut(s, t, m) && Loose(s, m)
    requires ReceiversOwned(s) && NotifiersOwned(s) && ConsumerOwned(s)
    ensures ReceiversOwned(t) && NotifiersOwned(t) && ConsumerOwned(t)
  {
    hide HasFrame, FirstFrame;
    forall c | c in t.channels
      ensures ReceiverOk(t, c)
    {
      assert ReceiverOk(s, c);
    }
    forall n | n in t.notifiers
      ensures NotifierOk(t, n)
    {
      assert NotifierOk(s, n);
    }
  }

  lemma {:induction false} LiveFrame(cfg: Config, s: State, t: State, m: nat)
    requires AgreeBut(s, t, m) && LiveOwned(cfg, s)
    requires forall n | n in t.live && n != m :: n in s.live
    requires m in t.live ==> m in cfg.pool.slots && MsgOk(t, m)
    ensures LiveOwned(cfg, t)
  {
    forall n | n in t.live
      ensures n in cfg.pool.slots && MsgOk(t, n)
    {
      assert n != m ==> MsgOk(s, n);
    }
  }

  lemma {:induction false} PushFacts(cfg: Config, s: State, m: nat)
    requires m in s.live
    ensures var t := PushMsg(cfg, s, m);
            && AgreeBut(s, t, m) && t.live.Keys == s.live.Keys && t.live[m].msg == s.live[m].msg
            && (|s.queue| < cfg.msgQueueSize ==> t.queue == s.queue + [m] && Carries(t, m, InQueue))
            && (|s.queue| >= cfg.msgQueueSize ==> t.queue == s.queue)
  {
  }

  lemma {:induction false} QueueByPush(cfg: Config, s: State, t: State, m: nat)
    requires AgreeBut(s, t, m) && Loose(s, m) && QueueOwned(cfg, s)
    requires |s.queue| < cfg.msgQueueSize ==> t.queue == s.queue + [m] && Carries(t, m, InQueue)
    requires |s.queue| >= cfg.msgQueueSize ==> t.queue == s.queue
    ensures QueueOwned(cfg, t)
  {
    forall i | 0 <= i < |t.queue|
      ensures Carries(t, t.queue[i], InQueue)
    {
      assert i < |s.queue| ==> Carries(s, s.queue[i], InQueue) && t.queue[i] == s.queue[i];
    }
  }

  /** Handing a message to the queue, from a receiver or a notifier that no longer refers to it. */
  lemma {:induction false} OwnedByPush(cfg: Config, s: State, m: nat)
    requires Owned(cfg, s) && Loose(s, m) && m in s.live
    ensures Owned(cfg, PushMsg(cfg, s, m))
  {
    hide ReceiversOwned, NotifiersOwned, ConsumerOwned, QueueOwned, Loose, AgreeBut, PushMsg;
    var t := PushMsg(cfg, s, m);
    PushFacts(cfg, s, m);
    HoldersFrame(s, t, m);
    QueueByPush(cfg, s, t, m);
    assert MsgOk(s, m);
    SameChannels(s, t, m);
    LiveFrame(cfg, s, t, m);
  }

  lemma {:induction false} SameChannels(s: State, t: State, m: nat)
    requires AgreeBut(s, t, m)
    ensures t.channels == s.channels
  {
  }

  /** A live message in some other place is in nobody's hands. */
  lemma {:induction false} LooseUnless(cfg: Config, s: State, m: nat)
    requires Owned(cfg, s)
    requires m in s.live ==> s.live[m].place == Lost
    ensures Loose(s, m)
  {
    hide HasFrame, FirstFrame;
    assert forall c | c in s.channels :: ReceiverOk(s, c);
    assert forall t | t in s.notifiers :: NotifierOk(s, t);
    assert forall i | 0 <= i < |s.queue| :: Carries(s, s.queue[i], InQueue);
  }

  /** The receiver lets go of the message it has consumed. */
  lemma {:induction false} ReceiverLetsGo(cfg: Config, s: State, c: nat, ok: bool)
    requires Owned(cfg, s) && c in s.channels && s.channels[c].receiver.Consumed?
    ensures var m := s.channels[c].receiver.slot;
            var r := SetChannel(s, c, s.channels[c].(receiver := Posting(ok)));
            Owned(cfg, r) && Loose(r, m) && m in r.live
  {
    hide HasFrame, FirstFrame;
    var m := s.channels[c].receiver.slot;
    var r := SetChannel(s, c, s.channels[c].(receiver := Posting(ok)));
    assert ReceiverOk(s, c);
    forall d | d in r.channels
      ensures ReceiverOk(r, d) && !InHand(r.channels[d].receiver, m)
    {
      assert ReceiverOk(s, d);
    }
    assert forall t | t in s.notifiers :: NotifierOk(s, t) && NotifierOk(r, t);
    assert forall i | 0 <= i < |s.queue| :: Carries(s, s.queue[i], InQueue) && Carries(r, s.queue[i], InQueue);
    assert forall n | n in s.live :: MsgOk(s, n) && MsgOk(r, n);
  }

  lemma {:induction false} OwnedByReceiverPush(cfg: Config, s: State, c: nat)
    requires Owned(cfg, s) && Enabled(cfg, s, Push(c))
    ensures Owned(cfg, Next(cfg, s, Push(c)))
  {
    hide Owned, Loose, PushMsg, HasRoom, HasFrame;
    var ok := |s.queue| < cfg.msgQueueSize;
    ReceiverLetsGo(cfg, s, c, ok);
    OwnedByPush(cfg, SetChannel(s, c, s.channels[c].(receiver := Posting(ok))), s.channels[c].receiver.slot);
  }

  lemma {:induction false} NotifierLetsGo(cfg: Config, s: State, t: nat)
    requires Owned(cfg, s) && t in s.notifiers && s.notifiers[t].Labelled?
    ensures var m := s.notifiers[t].slot;
            var u := s.(notifiers := s.notifiers[t := NotePosting]);
            Owned(cfg, u) && Loose(u, m) && m in u.live
  {
    hide HasFrame, FirstFrame;
    var u := s.(notifiers := s.notifiers[t := NotePosting]);
    assert NotifierOk(s, t);
    assert forall d | d in s.channels :: ReceiverOk(s, d) && ReceiverOk(u, d);
    forall n | n in u.notifiers
      ensures NotifierOk(u, n)
    {
      assert NotifierOk(s, n);
    }
    assert forall n | n in s.notifiers :: NotifierOk(s, n);
    assert forall i | 0 <= i < |s.queue| :: Carries(s, s.queue[i], InQueue) && Carries(u, s.queue[i], InQueue);
    assert forall n | n in s.live :: MsgOk(s, n) && MsgOk(u, n);
  }

  lemma {:induction false} OwnedByNotePush(cfg: Config, s: State, t: nat)
    requires Owned(cfg, s) && Enabled(cfg, s, NotePush(t))
    ensures Owned(cfg, Next(cfg, s, NotePush(t)))
  {
    hide Owned, Loose, PushMsg, HasRoom, HasFrame;
    NotifierLetsGo(cfg, s, t);
    OwnedByPush(cfg, s.(notifiers := s.notifiers[t := NotePosting]), s.notifiers[t].slot);
  }

  lemma {:induction false} OwnedByNotify(cfg: Config, s: State, t: nat, m: nat, kind: MsgType, session: int)
    requires Owned(cfg, s) && Enabled(cfg, s, Notify(t, m, kind, session))
    ensures Owned(cfg, Next(cfg, s, Notify(t, m, kind, session)))
  {
    hide HasFrame, FirstFrame, AfterFrame, HasRoom;
    LooseUnless(cfg, s, m);
    var u := Next(cfg, s, Notify(t, m, kind, session));
    var a := s.(live := u.live);
    HoldersFrame(s, a, m);
    LiveFrame(cfg, s, a, m);
    hide ReceiversOwned, LiveOwned, Loose;
    assert ReceiversOwned(u) && LiveOwned(cfg, u) by { SameView(cfg, a, u); }
    assert forall n | n in s.notifiers :: NotifierOk(a, n) && NotifierOk(u, n);
    assert forall i | 0 <= i < |s.queue| :: Carries(s, s.queue[i], InQueue) && Carries(u, s.queue[i], InQueue);
  }

  lemma {:induction false} SameView(cfg: Config, s: State, t: State)
    requires t.live == s.live && t.channels == s.channels
    ensures ReceiversOwned(s) ==> ReceiversOwned(t)
    ensures LiveOwned(cfg, s) ==> LiveOwned(cfg, t)
  {
    hide HasFrame, FirstFrame;
    assert forall c | c in s.channels :: ReceiverOk(s, c) ==> ReceiverOk(t, c);
    assert forall m | m in s.live :: MsgOk(s, m) ==> MsgOk(t, m);
  }

  lemma {:induction false} OwnedByNotePost(cfg: Config, s: State, t: nat)
    requires Owned(cfg, s) && Enabled(cfg, s, NotePost(t))
    ensures Owned(cfg, Next(cfg, s, NotePost(t)))
  {
    hide HasFrame, FirstFrame, AfterFrame, HasRoom, ReceiversOwned, LiveOwned;
    var u := Next(cfg, s, NotePost(t));
    SameView(cfg, s, u);
    assert forall n | n in u.notifiers :: NotifierOk(s, n) && NotifierOk(u, n);
    assert forall i | 0 <= i < |s.queue| :: Carries(s, s.queue[i], InQueue) && Carries(u, s.queue[i], InQueue);
  }

  lemma OwnedByRemove(cfg: Config, s: State)
    requires Owned(cfg, s) && Enabled(cfg, s, Remove)
    ensures Owned(cfg, Next(cfg, s, Remove))
  {
    hide HasFrame, FirstFrame, AfterFrame;
    var t := Next(cfg, s, Remove);
    forall d | d in t.channels
      ensures ReceiverOk(t, d)
    {
      assert ReceiverOk(s, d);
    }
    assert forall n | n in t.notifiers :: NotifierOk(s, n) ==> NotifierOk(t, n);
    assert forall n | n in t.live :: MsgOk(s, n) ==> MsgOk(t, n);
  }

  lemma OwnedByDispatch(cfg: Config, s: State)
    requires Owned(cfg, s) && Enabled(cfg, s, Dispatch)
    ensures Owned(cfg, Next(cfg, s, Dispatch))
  {
    hide HasFrame, FirstFrame, AfterFrame;
    var t := Next(cfg, s, Dispatch);
    forall d | d in t.channels
      ensures ReceiverOk(t, d)
    {
      assert ReceiverOk(s, d);
    }
    assert forall n | n in t.notifiers :: NotifierOk(s, n) ==> NotifierOk(t, n);
    assert forall n | n in t.live :: MsgOk(s, n) ==> MsgOk(t, n);
  }

  lemma OwnedByWaitOrDeallocate(cfg: Config, s: State, step: Step)
    requires Owned(cfg, s) && Enabled(cfg, s, step)
    requires step.Wait? || step.Deallocate?
    ensures Owned(cfg, Next(cfg, s, step))
  {
    hide HasFrame, FirstFrame, AfterFrame;
    var t := Next(cfg, s, step);
    forall d | d in t.channels
      ensures ReceiverOk(t, d)
    {
      assert ReceiverOk(s, d);
    }
    assert forall n | n in t.notifiers :: NotifierOk(s, n) ==> NotifierOk(t, n);
    assert forall n | n in t.live :: MsgOk(s, n) ==> MsgOk(t, n);
  }

  lemma OwnedKept(cfg: Config, s: State, step: Step)
    requires Owned(cfg, s) && Enabled(cfg, s, step)
    ensures Owned(cfg, Next(cfg, s, step))
  {
    hide Owned, Enabled, Next;
    match step
    case Allocate(c, m) => OwnedByAllocate(cfg, s, c, m);
    case Consume(c) => OwnedByConsume(cfg, s, c);
    case Push(c) => OwnedByReceiverPush(cfg, s, c);
    case Notify(t, m, kind, session) => OwnedByNotify(cfg, s, t, m, kind, session);
    case NotePush(t) => OwnedByNotePush(cfg, s, t);
    case NotePost(t) => OwnedByNotePost(cfg, s, t);
    case Wait => OwnedByWaitOrDeallocate(cfg, s, step);
    case Remove => OwnedByRemove(cfg, s);
    case Dispatch => OwnedByDispatch(cfg, s);
    case Deallocate => OwnedByWaitOrDeallocate(cfg, s, step);
    case _ => OwnedByTransport(cfg, s, step);
  }

  // ------------------------------------------------------------ how many are alive

  /** The payloads fit the receive buffers, and the messages their pool. */
  ghost predicate Fitting(cfg: Config, s: State) {
    && (forall c | c in s.channels :: |s.channels[c].recvBuffer| <= cfg.recvLimit)
    && Stocked(Messages(s.live), cfg.pool, Largest(cfg))
    && (forall m | m in s.live && s.live[m].msg.kind == Recv :: cfg.recvLimit > HEADER_SIZE)
  }

  lemma {:induction false} MessagesKeys(live: map<nat, Entry>)
    ensures Messages(live).Keys == live.Keys && |Messages(live)| == |live|
  {
    assert Messages(live).Keys == live.Keys;
    assert |live| == |live.Keys| && |Messages(live)| == |Messages(live).Keys|;
  }

  lemma {:induction false} MessagesSet(live: map<nat, Entry>, m: nat, e: Entry)
    ensures Messages(live[m := e]) == Messages(live)[m := e.msg]
  {
  }

  lemma {:induction false} MessagesWithout(live: map<nat, Entry>, m: nat)
    ensures Messages(live - {m}) == Messages(live) - {m}
  {
  }

  /** Handing a message on does not change it. */
  lemma {:induction false} MessagesHanded(live: map<nat, Entry>, m: nat, p: Place)
    requires m in live
    ensures Messages(live[m := live[m].(place := p)]) == Messages(live)
  {
  }

  lemma {:induction false} FittingInitially(cfg: Config)
    ensures Fitting(cfg, START)
  {
    forall list: nat
      ensures Users(Messages(START.live), BytesMax(cfg.pool), list) == {}
    {
    }
  }

  lemma {:induction false} FrameFits(cfg: Config, bytes: seq<Byte>)
    requires HasFrame(bytes) && |bytes| <= cfg.recvLimit
    ensures 1 <= |FirstFrame(bytes)| <= Largest(cfg) && cfg.recvLimit > HEADER_SIZE
  {
    FrameExtent(bytes);
  }

  lemma {:induction false} FittingByAllocate(cfg: Config, s: State, step: Step)
    requires Fitting(cfg, s) && Enabled(cfg, s, step) && (step.Allocate? || step.Notify?)
    ensures Fitting(cfg, Next(cfg, s, step))
  {
    hide HasFrame, FirstFrame, AfterFrame, Encode, HasRoom, Stocked, Messages;
    var t := Next(cfg, s, step);
    MessagesKeys(s.live);
    if step.Allocate? {
      FrameFits(cfg, s.channels[step.c].recvBuffer);
    }
    var e := t.live[step.m];
    MessagesSet(s.live, step.m, e);
    StockedGrows(Messages(s.live), cfg.pool, Largest(cfg), step.m, e.msg);
  }

  lemma {:induction false} FittingByHandOver(cfg: Config, s: State, step: Step)
    requires Fitting(cfg, s) && Enabled(cfg, s, step) && (step.Push? || step.NotePush? || step.Remove?)
    ensures Fitting(cfg, Next(cfg, s, step))
  {
    hide HasFrame, FirstFrame, AfterFrame, Encode, HasRoom, Stocked, Messages, Largest;
    var fits := |s.queue| < cfg.msgQueueSize;
    if step.Remove? {
      if s.queue != [] {
        MessagesHanded(s.live, s.queue[0], AtConsumer);
      }
    } else {
      var m := if step.Push? then s.channels[step.c].receiver.slot else s.notifiers[step.t].slot;
      MessagesHanded(s.live, m, if fits then InQueue else Lost);
    }
  }

  lemma {:induction false} FittingByOthers(cfg: Config, s: State, step: Step)
    requires Fitting(cfg, s) && Enabled(cfg, s, step)
    requires !step.Allocate? && !step.Notify? && !step.Push? && !step.NotePush? && !step.Remove?
    ensures Fitting(cfg, Next(cfg, s, step))
  {
    hide HasFrame, FirstFrame, Encode, HasRoom, Stocked, Messages, Largest;
    if step.Deallocate? {
      MessagesWithout(s.live, s.consumer.slot);
      StockedShrinks(Messages(s.live), cfg.pool, Largest(cfg), s.consumer.slot);
    }
  }

  lemma {:induction false} FittingKept(cfg: Config, s: State, step: Step)
    requires Fitting(cfg, s) && Enabled(cfg, s, step)
    ensures Fitting(cfg, Next(cfg, s, step))
  {
    hide *;
    if step.Allocate? || step.Notify? {
      FittingByAllocate(cfg, s, step);
    } else if step.Push? || step.NotePush? || step.Remove? {
      FittingByHandOver(cfg, s, step);
    } else {
      FittingByOthers(cfg, s, step);
    }
  }

  // ------------------------------------------------------------- semaphore accounting

  ghost function PostingReceivers(s: State): set<nat> {
    set c | c in s.channels && s.channels[c].receiver.Posting?
  }

  ghost function PostingNotifiers(s: State): set<nat> {
    set t | t in s.notifiers && s.notifiers[t] == NotePosting
  }

  /** Tokens, posts still to come and the wake-up in progress, against messages, refusals and empty looks. */
  ghost predicate Accounted(s: State) {
    && s.tokens + |PostingReceivers(s)| + |PostingNotifiers(s)| + (if s.consumer == Woken then 1 else 0)
       == |s.queue| + s.failedPushes - s.emptyRemoves
    && s.emptyRemoves <= s.failedPushes
  }

  lemma PostingReceiverChange(s: State, t: State, c: nat)
    requires c in s.channels && c in t.channels && t.channels == s.channels[c := t.channels[c]]
    ensures |PostingReceivers(t)| - |PostingReceivers(s)| ==
            (if t.channels[c].receiver.Posting? then 1 else 0) - (if s.channels[c].receiver.Posting? then 1 else 0)
  {
    var others := PostingReceivers(s) - {c};
    assert PostingReceivers(s) == if s.channels[c].receiver.Posting? then others + {c} else others;
    assert PostingReceivers(t) == if t.channels[c].receiver.Posting? then others + {c} else others;
  }

  lemma PostingNotifierChange(s: State, t: State, n: nat)
    requires forall k | k != n ::
              (k in s.notifiers <==> k in t.notifiers) && (k in s.notifiers ==> s.notifiers[k] == t.notifiers[k])
    ensures |PostingNotifiers(t)| - |PostingNotifiers(s)| ==
            (if n in t.notifiers && t.notifiers[n] == NotePosting then 1 else 0) -
            (if n in s.notifiers && s.notifiers[n] == NotePosting then 1 else 0)
  {
    var others := PostingNotifiers(s) - {n};
    assert PostingNotifiers(s) == if n in s.notifiers && s.notifiers[n] == NotePosting then others + {n} else others;
    assert PostingNotifiers(t) == if n in t.notifiers && t.notifiers[n] == NotePosting then others + {n} else others;
  }

  lemma AccountedInitially()
    ensures Accounted(START)
  {
    assert PostingReceivers(START) == {} && PostingNotifiers(START) == {};
  }

  lemma AccountedByReceiver(cfg: Config, s: State, step: Step)
    requires Accounted(s) && Enabled(cfg, s, step)
    requires step.Send? || step.Drain? || step.Lock? || step.Read? || step.Allocate? || step.Consume? || step.Push?
             || step.Post? || step.Unlock? || step.Shut?
    ensures Accounted(Next(cfg, s, step))
  {
    hide HasFrame, FirstFrame, AfterFrame, Encode, PostingReceivers, PostingNotifiers;
    var t := Next(cfg, s, step);
    PostingReceiverChange(s, t, step.c);
    assert PostingNotifiers(t) == PostingNotifiers(s) by { SameNotifiers(s, t); }
  }

  lemma SameNotifiers(s: State, t: State)
    requires s.notifiers == t.notifiers
    ensures PostingNotifiers(t) == PostingNotifiers(s)
  {
  }

  lemma SameReceivers(s: State, t: State)
    requires s.channels == t.channels
    ensures PostingReceivers(t) == PostingReceivers(s)
  {
  }

  lemma AccountedByNotifier(cfg: Config, s: State, step: Step)
    requires Accounted(s) && Enabled(cfg, s, step)
    requires step.Notify? || step.NotePush? || step.NotePost?
    ensures Accounted(Next(cfg, s, step))
  {
    hide PostingReceivers, PostingNotifiers;
    var t := Next(cfg, s, step);
    PostingNotifierChange(s, t, step.t);
    SameReceivers(s, t);
  }

  lemma AccountedByConsumer(cfg: Config, s: State, step: Step)
    requires Accounted(s) && Enabled(cfg, s, step)
    requires step.Open? || step.Wait? || step.Remove? || step.Dispatch? || step.Deallocate?
    ensures Accounted(Next(cfg, s, step))
  {
    hide PostingNotifiers;
    var t := Next(cfg, s, step);
    SameNotifiers(s, t);
    if step.Dispatch? && t.channels != s.channels {
      PostingReceiverChange(s, t, s.live[s.consumer.slot].msg.session);
    } else {
      assert PostingReceivers(t) == PostingReceivers(s);
    }
  }

  lemma AccountedKept(cfg: Config, s: State, step: Step)
    requires Accounted(s) && Enabled(cfg, s, step)
    ensures Accounted(Next(cfg, s, step))
  {
    hide Accounted, Enabled, Next;
    if step.Notify? || step.NotePush? || step.NotePost? {
      AccountedByNotifier(cfg, s, step);
    } else if step.Open? || step.Wait? || step.Remove? || step.Dispatch? || step.Deallocate? {
      AccountedByConsumer(cfg, s, step);
    } else {
      AccountedByReceiver(cfg, s, step);
    }
  }

  // ------------------------------------------------------- first in, first out, nothing lost

  /** The payload of message m if it is on its way to the handler of channel c. */
  ghost function PayloadOf(live: map<nat, Entry>, m: nat, c: nat): seq<Payload> {
    if m in live && live[m].msg.kind == Recv && live[m].msg.session == c && live[m].msg.payload.Some?
    then [live[m].msg.payload.value] else []
  }

  ghost function QueuedFor(live: map<nat, Entry>, queue: seq<nat>, c: nat): seq<Payload> {
    if queue == [] then [] else PayloadOf(live, queue[0], c) + QueuedFor(live, queue[1..], c)
  }

  ghost function HeldFor(s: State, c: nat): seq<Payload> {
    if s.consumer.Holding? then PayloadOf(s.live, s.consumer.slot, c) else []
  }

  ghost function InTransit(s: State, c: nat): seq<Payload>
    requires c in s.channels
  {
    if s.channels[c].receiver.Consumed? then PayloadOf(s.live, s.channels[c].receiver.slot, c) else []
  }

  function Pipeline(ch: Channel): seq<Byte> {
    ch.recvBuffer + ch.wire + ch.sendBuffer
  }

  /**
   * What the handler has seen, what the consumer and the queue hold for it, the frame being handed over, and
   * what the buffers and the wire decode to, are in this order the payloads that SendMsg accepted.
   */
  ghost predicate Conserved(s: State, c: nat)
    requires c in s.channels
  {
    var ch := s.channels[c];
    && ch.delivered + HeldFor(s, c) + QueuedFor(s.live, s.queue, c) + InTransit(s, c) + Frames(Pipeline(ch))
        == ch.accepted
    && Rest(Pipeline(ch)) == []
  }

  lemma {:induction false} QueuedForFrame(live: map<nat, Entry>, live': map<nat, Entry>, queue: seq<nat>, c: nat)
    requires forall i | 0 <= i < |queue| :: PayloadOf(live, queue[i], c) == PayloadOf(live', queue[i], c)
    ensures QueuedFor(live, queue, c) == QueuedFor(live', queue, c)
    decreases |queue|
  {
    if queue != [] {
      assert forall i | 0 <= i < |queue| - 1 :: queue[1..][i] == queue[i + 1];
      QueuedForFrame(live, live', queue[1..], c);
    }
  }

  lemma {:induction false} QueuedForSnoc(live: map<nat, Entry>, queue: seq<nat>, m: nat, c: nat)
    ensures QueuedFor(live, queue + [m], c) == QueuedFor(live, queue, c) + PayloadOf(live, m, c)
    decreases |queue|
  {
    if queue == [] {
      assert QueuedFor(live, [m], c) == PayloadOf(live, m, c) + QueuedFor(live, [], c);
    } else {
      assert (queue + [m])[1..] == queue[1..] + [m];
      QueuedForSnoc(live, queue[1..], m, c);
    }
  }

  /** A step that moves bytes of channel c from one buffer to the next. */
  lemma ConservedByBytes(cfg: Config, s: State, step: Step, c: nat)
    requires Enabled(cfg, s, step) && c in s.channels && Conserved(s, c)
    requires step.Open? || step.Drain? || step.Lock? || step.Read? || step.Post? || step.Unlock? || step.Shut?
    ensures Conserved(Next(cfg, s, step), c)
  {
    hide Frames, Rest, HasFrame, FirstFrame, AfterFrame, QueuedFor, Encode, PayloadOf;
    var t := Next(cfg, s, step);
    assert Pipeline(t.channels[c]) == Pipeline(s.channels[c]);
  }

  lemma ConservedBySend(cfg: Config, s: State, d: nat, p: Payload, c: nat)
    requires Enabled(cfg, s, Send(d, p)) && c in s.channels && Conserved(s, c)
    ensures Conserved(Next(cfg, s, Send(d, p)), c)
  {
    hide Frames, Rest, HasFrame, FirstFrame, AfterFrame, QueuedFor, Encode, PayloadOf;
    var t := Next(cfg, s, Send(d, p));
    if c == d {
      var was := Pipeline(s.channels[c]);
      assert Pipeline(t.channels[c]) == was + Encode(p);
      AppendedFrame(was, p);
      var ahead := s.channels[c].delivered + HeldFor(s, c) + QueuedFor(s.live, s.queue, c) + InTransit(s, c);
      assert ahead + (Frames(was) + [p]) == (ahead + Frames(was)) + [p];
    }
  }

  lemma AppendedFrame(bytes: seq<Byte>, p: Payload)
    requires Rest(bytes) == [] && Sendable(p)
    ensures Frames(bytes + Encode(p)) == Frames(bytes) + [p]
    ensures Rest(bytes + Encode(p)) == []
  {
    DecodeIncrementally(bytes, Encode(p));
    assert [] + Encode(p) == Encode(p) == Encode(p) + [];
    DecodeEncoded(p, []);
  }

  /** Cutting the first frame off the receive buffer puts it in transit. */
  lemma ConservedByConsume(cfg: Config, s: State, d: nat, c: nat)
    requires Owned(cfg, s) && Enabled(cfg, s, Consume(d)) && c in s.channels && Conserved(s, c)
    ensures Conserved(Next(cfg, s, Consume(d)), c)
  {
    hide Frames, Rest, HasFrame, FirstFrame, AfterFrame, QueuedFor;
    var t := Next(cfg, s, Consume(d));
    if c == d {
      assert ReceiverOk(s, c);
      var ch := s.channels[c];
      CutHead(ch.recvBuffer, ch.wire + ch.sendBuffer);
      assert Pipeline(ch) == ch.recvBuffer + (ch.wire + ch.sendBuffer);
      assert Pipeline(t.channels[c]) == AfterFrame(ch.recvBuffer) + (ch.wire + ch.sendBuffer);
      assert InTransit(t, c) == [FirstFrame(ch.recvBuffer)] && InTransit(s, c) == [];
    }
  }

  lemma CutHead(a: seq<Byte>, b: seq<Byte>)
    requires HasFrame(a)
    ensures Frames(a + b) == [FirstFrame(a)] + Frames(AfterFrame(a) + b)
    ensures Rest(a + b) == Rest(AfterFrame(a) + b)
  {
    FrameIsStable(a, b);
  }

  lemma {:induction false} QueuedAreLive(cfg: Config, s: State)
    requires Owned(cfg, s)
    ensures forall i | 0 <= i < |s.queue| :: s.queue[i] in s.live && s.live[s.queue[i]].place == InQueue
    ensures s.consumer.Holding? || s.consumer.Done? ==>
              s.consumer.slot in s.live && s.live[s.consumer.slot].place == AtConsumer
    ensures forall c | c in s.channels :: ReceiverOk(s, c)
  {
    hide HasFrame, FirstFrame;
    assert forall i | 0 <= i < |s.queue| :: Carries(s, s.queue[i], InQueue);
  }

  /** A new message does not change what is queued. */
  lemma {:induction false} QueuedForNew(live: map<nat, Entry>, m: nat, e: Entry, queue: seq<nat>, c: nat)
    requires m !in live && forall i | 0 <= i < |queue| :: queue[i] in live
    ensures QueuedFor(live[m := e], queue, c) == QueuedFor(live, queue, c)
  {
    hide QueuedFor;
    QueuedForFrame(live, live[m := e], queue, c);
  }

  lemma {:induction false} SamePipeline(a: Channel, b: Channel)
    requires a.recvBuffer == b.recvBuffer && a.wire == b.wire && a.sendBuffer == b.sendBuffer
    ensures Pipeline(a) == Pipeline(b)
  {
  }

  /** A step that leaves every part of a channel as it is. */
  lemma {:induction false} ConservedBySame(s: State, t: State, c: nat)
    requires c in s.channels && c in t.channels && Conserved(s, c)
    requires HeldFor(t, c) == HeldFor(s, c) && InTransit(t, c) == InTransit(s, c)
    requires QueuedFor(t.live, t.queue, c) == QueuedFor(s.live, s.queue, c)
    requires Pipeline(t.channels[c]) == Pipeline(s.channels[c])
    requires t.channels[c].delivered == s.channels[c].delivered && t.channels[c].accepted == s.channels[c].accepted
    ensures Conserved(t, c)
  {
    hide Frames, Rest, QueuedFor, HeldFor, InTransit, Pipeline;
  }

  /** A step that only creates a message, which nobody delivers from yet. */
  lemma {:induction false} ConservedByAllocate(cfg: Config, s: State, d: nat, m: nat, c: nat)
    requires Owned(cfg, s) && Enabled(cfg, s, Allocate(d, m)) && c in s.channels && Conserved(s, c)
    ensures Conserved(Next(cfg, s, Allocate(d, m)), c)
  {
    QueuedAreLive(cfg, s);
    AllocateAlters(cfg, s, d, m, c);
    assert ReceiverOk(s, c);
    HeldForNew(s, Next(cfg, s, Allocate(d, m)), m, c);
    hide *;
    var t := Next(cfg, s, Allocate(d, m));
    QueuedForNew(s.live, m, t.live[m], s.queue, c);
    ConservedBySame(s, t, c);
  }

  lemma {:induction false} HeldForNew(s: State, t: State, m: nat, c: nat)
    requires m !in s.live && m in t.live && t.live == s.live[m := t.live[m]] && t.consumer == s.consumer
    requires s.consumer.Holding? ==> s.consumer.slot in s.live
    ensures HeldFor(t, c) == HeldFor(s, c)
  {
  }

  lemma {:induction false} AllocateAlters(cfg: Config, s: State, d: nat, m: nat, c: nat)
    requires Enabled(cfg, s, Allocate(d, m)) && c in s.channels && ReceiverOk(s, c)
    ensures var t := Next(cfg, s, Allocate(d, m));
            && m !in s.live && m in t.live && t.live == s.live[m := t.live[m]]
            && t.queue == s.queue && t.consumer == s.consumer && c in t.channels
            && t.channels[c].delivered == s.channels[c].delivered && t.channels[c].accepted == s.channels[c].accepted
            && Pipeline(t.channels[c]) == Pipeline(s.channels[c]) && InTransit(t, c) == InTransit(s, c)
  {
    hide Frames, Rest, HasFrame, FirstFrame, AfterFrame, HasRoom, Pipeline;
    SamePipeline(s.channels[c], Next(cfg, s, Allocate(d, m)).channels[c]);
  }

  lemma {:induction false} ConservedByNotify(cfg: Config, s: State, n: nat, m: nat, kind: MsgType, session: int, c: nat)
    requires Owned(cfg, s) && Enabled(cfg, s, Notify(n, m, kind, session)) && c in s.channels && Conserved(s, c)
    ensures Conserved(Next(cfg, s, Notify(n, m, kind, session)), c)
  {
    QueuedAreLive(cfg, s);
    assert ReceiverOk(s, c);
    hide Frames, Rest, HasFrame, FirstFrame, AfterFrame, QueuedFor, Owned, HasRoom, Pipeline, Conserved;
    var t := Next(cfg, s, Notify(n, m, kind, session));
    QueuedForNew(s.live, m, t.live[m], s.queue, c);
    ConservedBySame(s, t, c);
  }

  /** A step that only frees a message that has been delivered, or changes no message. */
  lemma {:induction false} ConservedByPool(cfg: Config, s: State, step: Step, c: nat)
    requires Owned(cfg, s) && Enabled(cfg, s, step) && c in s.channels && Conserved(s, c)
    requires step.NotePost? || step.Deallocate? || step.Wait?
    ensures Conserved(Next(cfg, s, step), c)
  {
    QueuedAreLive(cfg, s);
    PoolStepAlters(cfg, s, step, c);
    assert ReceiverOk(s, c);
    hide *;
    var t := Next(cfg, s, step);
    QueuedForFrame(s.live, t.live, s.queue, c);
    ConservedBySame(s, t, c);
  }

  lemma {:induction false} PoolStepAlters(cfg: Config, s: State, step: Step, c: nat)
    requires Enabled(cfg, s, step) && (step.NotePost? || step.Deallocate? || step.Wait?)
    requires c in s.channels && ReceiverOk(s, c)
    requires forall i | 0 <= i < |s.queue| :: s.queue[i] in s.live && s.live[s.queue[i]].place == InQueue
    requires s.consumer.Done? ==> s.consumer.slot in s.live && s.live[s.consumer.slot].place == AtConsumer
    ensures var t := Next(cfg, s, step);
            && t.channels == s.channels && t.queue == s.queue
            && InTransit(t, c) == InTransit(s, c) && HeldFor(t, c) == HeldFor(s, c)
            && (forall i | 0 <= i < |s.queue| :: PayloadOf(t.live, s.queue[i], c) == PayloadOf(s.live, s.queue[i], c))
  {
    hide Frames, Rest, HasFrame, FirstFrame, AfterFrame, HasRoom;
  }

  lemma {:induction false} ConservedByPush(cfg: Config, s: State, step: Step, c: nat)
    requires Owned(cfg, s) && Enabled(cfg, s, step) && c in s.channels && Conserved(s, c)
    requires step.Push? || step.NotePush?
    requires |s.queue| < cfg.msgQueueSize
    ensures Conserved(Next(cfg, s, step), c)
  {
    hide Frames, Rest, HasFrame, FirstFrame, AfterFrame, QueuedFor;
    var t := Next(cfg, s, step);
    assert ReceiverOk(s, c);
    assert step.Push? ==> ReceiverOk(s, step.c);
    assert step.NotePush? ==> NotifierOk(s, step.t);
    var m := if step.Push? then s.channels[step.c].receiver.slot else s.notifiers[step.t].slot;
    assert forall n :: PayloadOf(s.live, n, c) == PayloadOf(t.live, n, c);
    QueuedForFrame(s.live, t.live, s.queue, c);
    QueuedForSnoc(t.live, s.queue, m, c);
    var behind := Frames(Pipeline(s.channels[c]));
    assert Pipeline(t.channels[c]) == Pipeline(s.channels[c]);
    assert QueuedFor(t.live, t.queue, c) + InTransit(t, c) == QueuedFor(s.live, s.queue, c) + InTransit(s, c);
    var front := s.channels[c].delivered + HeldFor(s, c);
    assert front + (QueuedFor(s.live, s.queue, c) + InTransit(s, c))
        == front + QueuedFor(s.live, s.queue, c) + InTransit(s, c);
    assert front + (QueuedFor(t.live, t.queue, c) + InTransit(t, c))
        == front + QueuedFor(t.live, t.queue, c) + InTransit(t, c);
  }

  /** A notification that finds the queue full is lost, but it carries no payload. */
  lemma {:induction false} ConservedByRefusedNotice(cfg: Config, s: State, t: nat, c: nat)
    requires Enabled(cfg, s, NotePush(t)) && c in s.channels && Conserved(s, c)
    requires |s.queue| >= cfg.msgQueueSize
    ensures Conserved(Next(cfg, s, NotePush(t)), c)
  {
    hide Frames, Rest, HasFrame, FirstFrame, AfterFrame, QueuedFor;
    var u := Next(cfg, s, NotePush(t));
    assert forall n :: PayloadOf(s.live, n, c) == PayloadOf(u.live, n, c);
    QueuedForFrame(s.live, u.live, s.queue, c);
  }

  lemma ConservedByRemove(cfg: Config, s: State, c: nat)
    requires Owned(cfg, s) && Enabled(cfg, s, Remove) && c in s.channels && Conserved(s, c)
    ensures Conserved(Next(cfg, s, Remove), c)
  {
    hide Frames, Rest, HasFrame, FirstFrame, AfterFrame;
    var t := Next(cfg, s, Remove);
    assert forall n :: PayloadOf(s.live, n, c) == PayloadOf(t.live, n, c);
    assert Pipeline(t.channels[c]) == Pipeline(s.channels[c]);
    if s.queue != [] {
      QueuedForFrame(s.live, t.live, t.queue, c);
      assert HeldFor(t, c) + QueuedFor(t.live, t.queue, c) == QueuedFor(s.live, s.queue, c);
      assert s.channels[c].delivered + [] == s.channels[c].delivered;
      assert s.channels[c].delivered + (HeldFor(t, c) + QueuedFor(t.live, t.queue, c)) ==
             s.channels[c].delivered + HeldFor(t, c) + QueuedFor(t.live, t.queue, c);
    }
  }

  lemma ConservedByDispatch(cfg: Config, s: State, c: nat)
    requires Owned(cfg, s) && Enabled(cfg, s, Dispatch) && c in s.channels && Conserved(s, c)
    ensures Conserved(Next(cfg, s, Dispatch), c)
  {
    hide Frames, Rest, HasFrame, FirstFrame, AfterFrame, QueuedFor;
    var t := Next(cfg, s, Dispatch);
    assert MsgOk(s, s.consumer.slot);
    assert Pipeline(t.channels[c]) == Pipeline(s.channels[c]);
    assert t.channels[c].delivered + HeldFor(t, c) == s.channels[c].delivered + HeldFor(s, c);
  }

  lemma {:induction false} ConservedKept(cfg: Config, s: State, step: Step, c: nat)
    requires Owned(cfg, s) && Enabled(cfg, s, step) && c in s.channels && Conserved(s, c)
    requires step.Push? ==> |s.queue| < cfg.msgQueueSize
    ensures c in Next(cfg, s, step).channels ==> Conserved(Next(cfg, s, step), c)
  {
    hide *;
    match step
    case Send(d, p) => ConservedBySend(cfg, s, d, p, c);
    case Consume(d) => ConservedByConsume(cfg, s, d, c);
    case Push(_) => ConservedByPush(cfg, s, step, c);
    case NotePush(n) =>
      if |s.queue| < cfg.msgQueueSize {
        ConservedByPush(cfg, s, step, c);
      } else {
        ConservedByRefusedNotice(cfg, s, n, c);
      }
    case Remove => ConservedByRemove(cfg, s, c);
    case Dispatch => ConservedByDispatch(cfg, s, c);
    case Allocate(d, m) => ConservedByAllocate(cfg, s, d, m, c);
    case Notify(n, m, kind, session) => ConservedByNotify(cfg, s, n, m, kind, session, c);
    case NotePost(_) => ConservedByPool(cfg, s, step, c);
    case Deallocate => ConservedByPool(cfg, s, step, c);
    case Wait => ConservedByPool(cfg, s, step, c);
    case _ => ConservedByBytes(cfg, s, step, c);
  }

  lemma {:induction false} NothingQueuedFor(cfg: Config, s: State, queue: seq<nat>, c: nat)
    requires forall m | m in s.live :: MsgOk(s, m)
    requires c !in s.channels
    ensures QueuedFor(s.live, queue, c) == []
    decreases |queue|
  {
    if queue != [] {
      assert queue[0] in s.live ==> MsgOk(s, queue[0]);
      NothingQueuedFor(cfg, s, queue[1..], c);
    }
  }

  lemma ConservedWhenOpened(cfg: Config, s: State, c: nat)
    requires Owned(cfg, s) && Enabled(cfg, s, Open(c))
    ensures Conserved(Next(cfg, s, Open(c)), c)
  {
    hide HasFrame;
    var t := Next(cfg, s, Open(c));
    NothingQueuedFor(cfg, s, s.queue, c);
    assert s.consumer.Holding? ==> MsgOk(s, s.consumer.slot);
    assert Pipeline(t.channels[c]) == [];
    assert Frames([]) == [];
  }

  lemma {:induction false} OnlyOpenAdds(cfg: Config, s: State, step: Step, c: nat)
    requires Enabled(cfg, s, step) && c !in s.channels && c in Next(cfg, s, step).channels
    ensures step == Open(c)
  {
    hide HasFrame, FirstFrame, AfterFrame, Encode, HasRoom;
  }

  lemma {:induction false} RefusedByStep(cfg: Config, s: State, step: Step)
    requires Enabled(cfg, s, step)
    ensures Next(cfg, s, step).failedPushes
            == s.failedPushes + if (step.Push? || step.NotePush?) && |s.queue| >= cfg.msgQueueSize then 1 else 0
  {
    hide HasFrame, FirstFrame, AfterFrame, Encode, HasRoom;
  }

  // ------------------------------------------------------------- what a step meets

  /** What is being pushed is alive and not in the queue. */
  lemma {:induction false} PushedIsNew(cfg: Config, s: State, step: Step) returns (m: nat)
    requires Owned(cfg, s) && Enabled(cfg, s, step) && (step.Push? || step.NotePush?)
    ensures m in s.live.Keys && Distinct(s.queue)
    ensures forall i | 0 <= i < |s.queue| :: s.queue[i] in s.live.Keys && s.queue[i] != m
  {
    hide HasFrame, FirstFrame, AfterFrame, HasRoom, LiveOwned, Distinct;
    assert step.Push? ==> ReceiverOk(s, step.c);
    assert step.NotePush? ==> NotifierOk(s, step.t);
    m := if step.Push? then s.channels[step.c].receiver.slot else s.notifiers[step.t].slot;
    assert forall i | 0 <= i < |s.queue| :: Carries(s, s.queue[i], InQueue);
  }

  lemma {:induction false} AliveFit(cfg: Config, s: State)
    requires Fitting(cfg, s)
    ensures |s.live.Keys| <= Capacity(cfg)
  {
    hide Stocked, Messages, Largest;
    MessagesKeys(s.live);
    AliveAreBounded(Messages(s.live), cfg.pool, Largest(cfg));
    assert |s.live| == |s.live.Keys|;
  }

  /** Where no frame fits the receive buffers, no message ever comes from one. */
  lemma {:induction false} NothingToPush(cfg: Config, s: State, c: nat)
    requires Owned(cfg, s) && Fitting(cfg, s) && Enabled(cfg, s, Push(c))
    ensures cfg.recvLimit > HEADER_SIZE
  {
    hide HasFrame, FirstFrame, AfterFrame, Stocked, Messages, Largest;
    assert ReceiverOk(s, c);
  }

  lemma {:induction false} ReceiversCanStep(cfg: Config, t: State)
    requires Owned(cfg, t)
    ensures forall c | c in t.channels && t.channels[c].receiver.Filled? :: Enabled(cfg, t, Consume(c))
    ensures forall c | c in t.channels && t.channels[c].receiver.Consumed? :: Enabled(cfg, t, Push(c))
  {
    hide HasFrame, FirstFrame, HasRoom, LiveOwned, NotifiersOwned, QueueOwned, ConsumerOwned;
    assert forall c | c in t.channels :: ReceiverOk(t, c);
  }

  lemma {:induction false} OthersCanStep(cfg: Config, t: State)
    requires Owned(cfg, t)
    ensures forall n | n in t.notifiers && t.notifiers[n].Labelled? :: Enabled(cfg, t, NotePush(n))
    ensures t.consumer == Woken ==> Enabled(cfg, t, Remove)
    ensures t.consumer.Holding? ==> Enabled(cfg, t, Dispatch)
  {
    hide HasFrame, FirstFrame, HasRoom, LiveOwned, ReceiversOwned;
    assert forall n | n in t.notifiers :: NotifierOk(t, n);
    assert t.queue != [] ==> Carries(t, t.queue[0], InQueue);
  }
}
