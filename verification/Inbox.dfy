// The two process-wide singletons that received messages go through: the message pool and the
// message queue, with what their clients can observe of them.
module Inboxes {
  import opened Allocators
  import opened Containers
  import opened Framing
  import opened MsgPools
  import opened MsgQueues
  import opened Sequences

  ghost predicate Deliverable(live: map<nat, LiveMsg>, m: nat) {
    m in live && (live[m].kind == Recv ==> live[m].payload.Some?)
  }

  /** The queue holds different live messages, and the received ones carry a payload. */
  ghost predicate Pending(live: map<nat, LiveMsg>, queue: seq<nat>) {
    Distinct(queue) && forall i | 0 <= i < |queue| :: Deliverable(live, queue[i])
  }

  /** A new message is not in the queue yet, may join it, and makes the live messages more than the queued ones. */
  lemma {:induction false} PendingGrows(live: map<nat, LiveMsg>, queue: seq<nat>, m: nat, msg: LiveMsg, capacity: nat)
    requires Pending(live, queue)
    requires m !in live && (msg.kind == Recv ==> msg.payload.Some?)
    ensures |queue| < |live[m := msg]|
    ensures Pending(live[m := msg], queue)
    ensures Pending(live[m := msg], Pushed(queue, m, capacity))
  {
    PendingIsBounded(live, queue);
    assert forall i | 0 <= i < |queue| ::
          Deliverable(live, queue[i]) ==> queue[i] != m && Deliverable(live[m := msg], queue[i]);
    assert live[m := msg].Keys == live.Keys + {m};
    assert |live[m := msg]| == |live[m := msg].Keys| && |live| == |live.Keys|;
  }

  lemma {:induction false} PendingIsBounded(live: map<nat, LiveMsg>, queue: seq<nat>)
    requires Pending(live, queue)
    ensures |queue| <= |live|
  {
    DistinctSize(queue);
    assert forall i | 0 <= i < |queue| :: Deliverable(live, queue[i]);
    SubsetSize(Elements(queue), live.Keys);
    assert |live| == |live.Keys|;
  }

  /** Taking the front message out and freeing it leaves the others as they were. */
  lemma {:induction false} PendingShrinks(live: map<nat, LiveMsg>, queue: seq<nat>)
    requires Pending(live, queue) && queue != []
    ensures Deliverable(live, queue[0])
    ensures Pending(live, queue[1..]) && Pending(live - {queue[0]}, queue[1..])
  {
    forall i | 0 <= i < |queue| - 1
      ensures Deliverable(live - {queue[0]}, queue[1..][i]) && Deliverable(live, queue[1..][i])
    {
      assert queue[1..][i] == queue[i + 1] != queue[0];
      assert Deliverable(live, queue[i + 1]);
    }
  }

  class Inbox {
    const pool: MsgPool
    const queue: MsgQueue
    const system: SystemAllocator
    ghost var live: map<nat, LiveMsg>
    ghost var queued: seq<nat>
    ghost var tokens: nat

    ghost function Repr(): set<object> {
      {this} + pool.Repr() + queue.Repr()
    }

    ghost function Capacity(): nat {
      queue.Capacity()
    }

    ghost predicate Valid()
      reads Repr()
    {
      && pool.Repr() !! queue.Repr() && this !in pool.Repr() && this !in queue.Repr()
      && pool.Valid() && queue.Valid()
      && live == pool.live && queued == queue.Contents() && tokens == queue.tokens
      && |queued| <= Capacity()
    }

    constructor (lists: nat, elementCount: nat, msgSize: nat, msgCountMax: nat, msgQueueSize: nat)
      requires lists > 0 && elementCount > 0 && msgSize > 0 && msgCountMax > 0
      ensures Valid() && fresh(pool.Repr()) && fresh(queue.Repr()) && fresh(system)
      ensures live == map[] && queued == [] && tokens == 0
      ensures Capacity() == msgQueueSize && |pool.headers.slots| == msgCountMax
      ensures pool.slab.align == 8 && pool.slab.bytesMax == lists * 8 && pool.slab.Lists() == lists
      ensures forall i | 0 <= i < lists :: |pool.slab.blocks[i]| == elementCount
      ensures pool.headers.chain != [] && forall i | 0 <= i < lists :: pool.slab.chains[i] != []
      ensures pool.slab.big == map[]
    {
      hide MsgPool.Valid, MsgQueue.Valid;
      pool := new MsgPool(lists, elementCount, msgSize, msgCountMax);
      queue := new MsgQueue(msgQueueSize);
      system := new SystemAllocator();
      live, queued, tokens := map[], [], 0;
    }

    /** No more messages are alive than the pool has header slots. */
    lemma LiveFits()
      requires Valid()
      ensures |live| <= |pool.headers.slots|
    {
      hide MsgQueue.Valid;
      pool.LiveIsBounded();
    }

    /** A live message that is not queued yet finds room if the pool has no more header slots than the queue. */
    lemma FreshFits(m: nat)
      requires Valid() && Pending(live, queued)
      requires m in live && m !in queued && |pool.headers.slots| <= Capacity()
      ensures |queued| < Capacity()
    {
      LiveFits();
      hide Valid;
      DistinctSize(queued);
      assert forall i | 0 <= i < |queued| :: Deliverable(live, queued[i]);
      SubsetSize(Elements(queued), live.Keys - {m});
      assert |live| == |live.Keys|;
    }

    /** Allocates, labels and fills a message, or changes nothing that a client can observe. */
    method Store(session: int, payload: Payload) returns (m: Option<nat>)
      requires Valid()
      requires Sendable(payload)
      modifies Repr(), system
      ensures Valid()
      ensures m == None ==> live == old(live) && pool.Starved(|payload|, system.refusals > old(system.refusals))
      ensures system.refusals >= old(system.refusals)
      ensures m.Some? ==> m.value !in old(live) && m.value in pool.headers.slots
      ensures m.Some? ==> live == old(live)[m.value := LiveMsg(Recv, session, |payload|, Some(payload))]
      ensures queued == old(queued) && tokens == old(tokens)
    {
      hide MsgPool.Valid, MsgQueue.Valid;
      m := StoreInPool(session, payload);
      live := pool.live;
    }

    method StoreInPool(session: int, payload: Payload) returns (m: Option<nat>)
      requires pool.Valid()
      requires Sendable(payload)
      modifies pool.Repr(), system
      ensures pool.Valid()
      ensures m == None ==> pool.live == old(pool.live)
      ensures m == None ==> pool.Starved(|payload|, system.refusals > old(system.refusals))
      ensures system.refusals >= old(system.refusals)
      ensures m.Some? ==> m.value !in old(pool.live) && m.value in pool.headers.slots
      ensures m.Some? ==> pool.live == old(pool.live)[m.value := LiveMsg(Recv, session, |payload|, Some(payload))]
    {
      hide MsgPool.Valid, MsgPool.Exhausted, MsgPool.Starved;
      m := Allocate(|payload|);
      if m == None {
        return;
      }
      pool.Label(m.value, Recv, session);
      pool.Fill(m.value, payload);
    }

    /** AllocateMsg: malloc is asked only for what is not pooled. */
    method Allocate(size: nat) returns (m: Option<nat>)
      requires pool.Valid()
      requires 0 < size <= SHORT_MAX
      modifies pool.Repr(), system
      ensures pool.Valid()
      ensures m == None ==> pool.live == old(pool.live) && pool.Starved(size, system.refusals > old(system.refusals))
      ensures m.Some? ==> m.value !in old(pool.live) && m.value in pool.headers.slots
      ensures m.Some? ==> pool.live == old(pool.live)[m.value := LiveMsg(Invalid, 0, size, None)]
      ensures system.refusals >= old(system.refusals)
      ensures m.Some? || size <= pool.slab.bytesMax ==> system.refusals == old(system.refusals)
    {
      hide MsgPool.Valid;
      var sys := None;
      if size > pool.slab.bytesMax {
        sys := system.Allocate(pool.slab.big.Keys);
      }
      m := pool.AllocateMsg(size, sys);
    }

    /** InsertMsg: the semaphore is posted even when the message does not fit. */
    method Insert(m: nat) returns (ok: bool)
      requires Valid()
      modifies Repr()
      ensures Valid()
      ensures ok == (|old(queued)| < Capacity())
      ensures queued == Pushed(old(queued), m, Capacity()) && tokens == old(tokens) + 1
      ensures live == old(live)
    {
      hide MsgPool.Valid, MsgQueue.Valid;
      ok := queue.InsertMsg(m);
      queued, tokens := queue.Contents(), queue.tokens;
    }

    /** RemoveMsg: None exactly when the queue is empty. */
    method Remove() returns (m: Option<nat>)
      requires Valid()
      modifies Repr()
      ensures Valid()
      ensures m == if old(queued) == [] then None else Some(old(queued)[0])
      ensures queued == if m == None then [] else old(queued)[1..]
      ensures live == old(live) && tokens == old(tokens)
    {
      hide MsgPool.Valid, MsgQueue.Valid;
      m := queue.RemoveMsg();
      queued := queue.Contents();
    }

    /** Wait on the semaphore: it returns once there is a token to take. */
    method Wait()
      requires Valid()
      requires tokens > 0
      modifies Repr()
      ensures Valid()
      ensures tokens == old(tokens) - 1
      ensures live == old(live) && queued == old(queued)
    {
      hide MsgPool.Valid, MsgQueue.Valid;
      queue.Wait();
      tokens := queue.tokens;
    }

    method Deallocate(m: nat)
      requires Valid()
      requires m in live
      modifies Repr()
      ensures Valid()
      ensures live == old(live) - {m}
      ensures queued == old(queued) && tokens == old(tokens)
    {
      hide MsgPool.Valid, MsgQueue.Valid;
      pool.DeallocateMsg(m);
      live := pool.live;
    }

    /**
     * InsertSimpleMsg: a one-byte message without content. It fails when the pool is exhausted, and then
     * nothing has changed; or when the queue is full, and then the message is lost although it stays alive.
     * With no more header slots than queue slots the queue has room whenever the pool had.
     */
    method InsertSimpleMsg(kind: MsgType, session: int) returns (ok: bool, ghost m: Option<nat>)
      requires Valid()
      modifies Repr(), system
      ensures Valid()
      ensures m == None ==> !ok && pool.Starved(1, system.refusals > old(system.refusals))
      ensures m == None ==> live == old(live) && queued == old(queued) && tokens == old(tokens)
      ensures m.Some? ==> m.value !in old(live) && m.value in pool.headers.slots
      ensures m.Some? ==> live == old(live)[m.value := LiveMsg(kind, session, 1, None)]
      ensures m.Some? ==> ok == (|old(queued)| < Capacity())
      ensures m.Some? ==> queued == Pushed(old(queued), m.value, Capacity()) && tokens == old(tokens) + 1
      ensures kind != Recv && old(Pending(live, queued)) ==> Pending(live, queued)
      ensures kind != Recv && old(Pending(live, queued)) && |pool.headers.slots| <= Capacity() ==> ok == m.Some?
    {
      hide MsgPool.Valid, MsgPool.Exhausted, MsgPool.Starved, MsgQueue.Valid, Pending;
      ghost var before, queue := live, queued;
      var msg := LabelSimple(kind, session);
      m := msg;
      if kind != Recv && Pending(before, queue) && msg.Some? {
        PendingGrows(before, queue, msg.value, LiveMsg(kind, session, 1, None), Capacity());
        LiveFits();
      }
      if msg == None {
        return false, m;
      }
      ok := Insert(msg.value);
    }

    method LabelSimple(kind: MsgType, session: int) returns (m: Option<nat>)
      requires Valid()
      modifies Repr(), system
      ensures Valid()
      ensures m == None ==> live == old(live) && pool.Starved(1, system.refusals > old(system.refusals))
      ensures m.Some? ==> m.value !in old(live) && m.value in pool.headers.slots
      ensures m.Some? ==> live == old(live)[m.value := LiveMsg(kind, session, 1, None)]
      ensures queued == old(queued) && tokens == old(tokens)
    {
      hide MsgPool.Valid, MsgPool.Exhausted, MsgPool.Starved, MsgQueue.Valid;
      m := Allocate(1);
      if m.Some? {
        pool.Label(m.value, kind, session);
      }
      live := pool.live;
    }
  }
}
