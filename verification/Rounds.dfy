// The states after a message has been handed over without interruption.
module Rounds {
  import opened Containers
  import opened Framing
  import opened MsgPools
  import opened MsgSystem
  import opened PoolCapacity

  // ------------------------------------------------------------- one frame is handed over

  /** The system with another channel c, another live message m, another queue and another semaphore. */
  function With(s: State, c: nat, ch: Channel, m: nat, e: Entry, queue: seq<nat>, tokens: nat, failed: nat): State {
    s.(channels := s.channels[c := ch], live := s.live[m := e], queue := queue, tokens := tokens,
        failedPushes := failed)
  }

  lemma {:induction false} AllocateAndConsume(cfg: Config, s: State, c: nat, m: nat) returns (a: State, b: State)
    requires c in s.channels && s.channels[c].receiver == Extracting && HasFrame(s.channels[c].recvBuffer)
    requires m in cfg.pool.slots && m !in s.live
    requires HasRoom(Messages(s.live), cfg.pool, |FirstFrame(s.channels[c].recvBuffer)|)
    ensures Enabled(cfg, s, Allocate(c, m)) && a == Next(cfg, s, Allocate(c, m))
    ensures Enabled(cfg, a, Consume(c)) && b == Next(cfg, a, Consume(c))
    ensures var ch := s.channels[c];
            var p := FirstFrame(ch.recvBuffer);
            b == With(s, c, ch.(receiver := Consumed(m), recvBuffer := AfterFrame(ch.recvBuffer)),
                      m, Entry(LiveMsg(Recv, c, |p|, Some(p)), AtReceiver(c)), s.queue, s.tokens, s.failedPushes)
  {
    hide HasFrame, FirstFrame, AfterFrame, HasRoom, Messages;
    var ch := s.channels[c];
    a := Next(cfg, s, Allocate(c, m));
    b := Next(cfg, a, Consume(c));
    SetTwice(s.channels, c, ch.(receiver := Filled(m)),
             ch.(receiver := Consumed(m), recvBuffer := AfterFrame(ch.recvBuffer)));
  }

  lemma {:induction false} PushAndPost(cfg: Config, s: State, c: nat, ch: Channel, m: nat, msg: LiveMsg, b: State)
    returns (d: State, t: State)
    requires ch.receiver == Consumed(m)
    requires b == With(s, c, ch, m, Entry(msg, AtReceiver(c)), s.queue, s.tokens, s.failedPushes)
    ensures Enabled(cfg, b, Push(c)) && d == Next(cfg, b, Push(c))
    ensures Enabled(cfg, d, Post(c)) && t == Next(cfg, d, Post(c))
    ensures var fits := |s.queue| < cfg.msgQueueSize;
            t == With(s, c, ch.(receiver := if fits then Extracting else Unlocked),
                      m, Entry(msg, if fits then InQueue else Lost),
                      Pushed(s.queue, m, cfg.msgQueueSize), s.tokens + 1, s.failedPushes + if fits then 0 else 1)
  {
    hide HasFrame, FirstFrame, AfterFrame, HasRoom, Messages;
    var fits := |s.queue| < cfg.msgQueueSize;
    d := Next(cfg, b, Push(c));
    t := Next(cfg, d, Post(c));
    SetTwice(s.channels, c, ch, ch.(receiver := Posting(fits)));
    SetTwice(s.channels, c, ch.(receiver := Posting(fits)), ch.(receiver := if fits then Extracting else Unlocked));
    SetTwice(s.live, m, Entry(msg, AtReceiver(c)), Entry(msg, if fits then InQueue else Lost));
  }

  function RoundSteps(c: nat, m: nat): seq<Step> {
    [Allocate(c, m), Consume(c), Push(c), Post(c)]
  }

  /** The four steps of a round of the loop of ExtractMsg, with nothing in between. */
  lemma {:induction false} ExtractRound(cfg: Config, s: State, c: nat, m: nat) returns (t: State)
    requires c in s.channels && s.channels[c].receiver == Extracting && HasFrame(s.channels[c].recvBuffer)
    requires m in cfg.pool.slots && m !in s.live
    requires HasRoom(Messages(s.live), cfg.pool, |FirstFrame(s.channels[c].recvBuffer)|)
    ensures Runs(cfg, s, RoundSteps(c, m), t)
    ensures var ch, fits := s.channels[c], |s.queue| < cfg.msgQueueSize;
            var p := FirstFrame(ch.recvBuffer);
            var after := ch.(receiver := if fits then Extracting else Unlocked,
                             recvBuffer := AfterFrame(ch.recvBuffer));
            t == With(s, c, after,
                      m, Entry(LiveMsg(Recv, c, |p|, Some(p)), if fits then InQueue else Lost),
                      Pushed(s.queue, m, cfg.msgQueueSize), s.tokens + 1, s.failedPushes + if fits then 0 else 1)
  {
    hide *;
    var ch := s.channels[c];
    var p := FirstFrame(ch.recvBuffer);
    var a, b := AllocateAndConsume(cfg, s, c, m);
    var d;
    d, t := PushAndPost(cfg, s, c, ch.(receiver := Consumed(m), recvBuffer := AfterFrame(ch.recvBuffer)), m,
                        LiveMsg(Recv, c, |p|, Some(p)), b);
    FourSteps(cfg, s, Allocate(c, m), a, Consume(c), b, Push(c), d, Post(c), t);
    TheRound(c, m);
  }

  lemma {:induction false} TheRound(c: nat, m: nat)
    ensures RoundSteps(c, m) == [Allocate(c, m), Consume(c), Push(c), Post(c)]
  {
  }

  // ------------------------------------------------------------------- one notification

  /** A notification from its allocation to its post, with nothing in between. */
  lemma {:induction false} NotifyRound(cfg: Config, s: State, thread: nat, m: nat, kind: MsgType, session: int)
    returns (t: State)
    requires thread !in s.notifiers && m in cfg.pool.slots && m !in s.live && kind != Recv
    requires HasRoom(Messages(s.live), cfg.pool, 1)
    ensures Runs(cfg, s, [Notify(thread, m, kind, session), NotePush(thread), NotePost(thread)], t)
    ensures var fits := |s.queue| < cfg.msgQueueSize;
            t == s.(live := s.live[m := Entry(LiveMsg(kind, session, 1, None), if fits then InQueue else Lost)],
                    queue := Pushed(s.queue, m, cfg.msgQueueSize), tokens := s.tokens + 1,
                    failedPushes := s.failedPushes + if fits then 0 else 1)
  {
    var n, p;
    n, p, t := NotifySteps(cfg, s, thread, m, kind, session);
    hide *;
    ThreeSteps(cfg, s, Notify(thread, m, kind, session), n, NotePush(thread), p, NotePost(thread), t);
  }

  lemma {:induction false} NotifySteps(cfg: Config, s: State, thread: nat, m: nat, kind: MsgType, session: int)
    returns (n: State, p: State, t: State)
    requires thread !in s.notifiers && m in cfg.pool.slots && m !in s.live && kind != Recv
    requires HasRoom(Messages(s.live), cfg.pool, 1)
    ensures Enabled(cfg, s, Notify(thread, m, kind, session)) && n == Next(cfg, s, Notify(thread, m, kind, session))
    ensures Enabled(cfg, n, NotePush(thread)) && p == Next(cfg, n, NotePush(thread))
    ensures Enabled(cfg, p, NotePost(thread)) && t == Next(cfg, p, NotePost(thread))
    ensures var fits := |s.queue| < cfg.msgQueueSize;
            t == s.(live := s.live[m := Entry(LiveMsg(kind, session, 1, None), if fits then InQueue else Lost)],
                    queue := Pushed(s.queue, m, cfg.msgQueueSize), tokens := s.tokens + 1,
                    failedPushes := s.failedPushes + if fits then 0 else 1)
  {
    var msg := LiveMsg(kind, session, 1, None);
    n := Labels(cfg, s, thread, m, kind, session);
    p, t := PushesAndPosts(cfg, s, thread, m, msg, n);
  }

  lemma {:induction false} Labels(cfg: Config, s: State, thread: nat, m: nat, kind: MsgType, session: int)
    returns (n: State)
    requires thread !in s.notifiers && m in cfg.pool.slots && m !in s.live && kind != Recv
    requires HasRoom(Messages(s.live), cfg.pool, 1)
    ensures Enabled(cfg, s, Notify(thread, m, kind, session)) && n == Next(cfg, s, Notify(thread, m, kind, session))
    ensures n == s.(notifiers := s.notifiers[thread := Labelled(m)],
                    live := s.live[m := Entry(LiveMsg(kind, session, 1, None), AtNotifier(thread))])
  {
    hide HasRoom, Messages;
    n := Next(cfg, s, Notify(thread, m, kind, session));
  }

  lemma {:induction false} PushesAndPosts(cfg: Config, s: State, thread: nat, m: nat, msg: LiveMsg, n: State)
    returns (p: State, t: State)
    requires thread !in s.notifiers
    requires n == s.(notifiers := s.notifiers[thread := Labelled(m)],
        live := s.live[m := Entry(msg, AtNotifier(thread))])
    ensures Enabled(cfg, n, NotePush(thread)) && p == Next(cfg, n, NotePush(thread))
    ensures Enabled(cfg, p, NotePost(thread)) && t == Next(cfg, p, NotePost(thread))
    ensures var fits := |s.queue| < cfg.msgQueueSize;
            t == s.(live := s.live[m := Entry(msg, if fits then InQueue else Lost)],
                    queue := Pushed(s.queue, m, cfg.msgQueueSize), tokens := s.tokens + 1,
                    failedPushes := s.failedPushes + if fits then 0 else 1)
  {
    hide HasFrame, FirstFrame, AfterFrame, HasRoom, Messages, Encode;
    var fits := |s.queue| < cfg.msgQueueSize;
    p := Next(cfg, n, NotePush(thread));
    t := Next(cfg, p, NotePost(thread));
    SetTwice(s.live, m, Entry(msg, AtNotifier(thread)), Entry(msg, if fits then InQueue else Lost));
    NotifierIsGone(s.notifiers, thread, m);
  }

  lemma {:induction false} NotifierIsGone(notifiers: map<nat, Notifier>, thread: nat, m: nat)
    requires thread !in notifiers
    ensures notifiers[thread := Labelled(m)][thread := NotePosting] - {thread} == notifiers
  {
  }
}
