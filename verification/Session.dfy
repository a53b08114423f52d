// A session: cutting messages out of the receive buffer, and writing messages into the send buffer.
module Sessions {
  import opened Buffers
  import opened Containers
  import opened Framing
  import opened MsgPools
  import opened Inboxes
  import opened Sequences

  /** The pool after the given slots have been filled with the given payloads, in order. */
  function Filled(live: map<nat, LiveMsg>, session: int, slots: seq<nat>, payloads: seq<Payload>): map<nat, LiveMsg>
    requires |slots| <= |payloads|
  {
    if slots == [] then live
    else
      var n := |slots| - 1;
      Filled(live, session, slots[..n], payloads)[slots[n] := LiveMsg(Recv, session, |payloads[n]|, Some(payloads[n]))]
  }

  /** The queue after the given messages have been pushed, in order. */
  function PushedAll(queue: seq<nat>, slots: seq<nat>, capacity: nat): seq<nat> {
    if slots == [] then queue
    else Pushed(PushedAll(queue, slots[..|slots| - 1], capacity), slots[|slots| - 1], capacity)
  }

  lemma OneMore(live: map<nat, LiveMsg>, queue: seq<nat>, session: int, slots: seq<nat>, m: nat,
                payloads: seq<Payload>, capacity: nat)
    requires |slots| < |payloads|
    ensures var p := payloads[|slots|];
            Filled(live, session, slots + [m], payloads)
            == Filled(live, session, slots, payloads)[m := LiveMsg(Recv, session, |p|, Some(p))]
    ensures PushedAll(queue, slots + [m], capacity) == Pushed(PushedAll(queue, slots, capacity), m, capacity)
  {
    assert (slots + [m])[..|slots|] == slots;
  }

  /** While the queue has room for all of them, pushing messages appends them. */
  lemma {:induction false} PushedAllFits(queue: seq<nat>, slots: seq<nat>, capacity: nat)
    requires |queue| + |slots| <= capacity
    ensures PushedAll(queue, slots, capacity) == queue + slots
    decreases |slots|
  {
    if slots != [] {
      PushedAllFits(queue, slots[..|slots| - 1], capacity);
    }
  }

  /** Each slot holds the payload it was filled with, and the messages that were there are still there. */
  lemma {:induction false} FilledHolds(live: map<nat, LiveMsg>, session: int, slots: seq<nat>, payloads: seq<Payload>)
    requires |slots| <= |payloads|
    requires forall i, j | 0 <= i < j < |slots| :: slots[i] != slots[j]
    requires forall i | 0 <= i < |slots| :: slots[i] !in live
    ensures var f := Filled(live, session, slots, payloads);
            && f.Keys == live.Keys + Elements(slots)
            && (forall m | m in live :: m in f && f[m] == live[m])
            && (forall i | 0 <= i < |slots| ::
                  slots[i] in f && f[slots[i]] == LiveMsg(Recv, session, |payloads[i]|, Some(payloads[i])))
    decreases |slots|
  {
    if slots != [] {
      InitIsFresh(live, slots);
      hide *;
      FilledHolds(live, session, slots[..|slots| - 1], payloads);
      FilledLast(live, session, slots, payloads);
      HoldsOneMore(live, session, slots, payloads, Filled(live, session, slots[..|slots| - 1], payloads));
    }
  }

  lemma {:induction false} InitIsFresh(live: map<nat, LiveMsg>, slots: seq<nat>)
    requires slots != []
    requires forall i, j | 0 <= i < j < |slots| :: slots[i] != slots[j]
    requires forall i | 0 <= i < |slots| :: slots[i] !in live
    ensures var init := slots[..|slots| - 1];
            && (forall i, j | 0 <= i < j < |init| :: init[i] != init[j])
            && (forall i | 0 <= i < |init| :: init[i] !in live)
  {
  }

  lemma {:induction false} FilledLast(live: map<nat, LiveMsg>, session: int, slots: seq<nat>, payloads: seq<Payload>)
    requires 0 < |slots| <= |payloads|
    ensures var n := |slots| - 1;
            Filled(live, session, slots, payloads)
            == Filled(live, session, slots[..n], payloads)
                 [slots[n] := LiveMsg(Recv, session, |payloads[n]|, Some(payloads[n]))]
  {
  }

  lemma {:induction false} HoldsOneMore(live: map<nat, LiveMsg>, session: int, slots: seq<nat>, payloads: seq<Payload>,
                                        g: map<nat, LiveMsg>)
    requires 0 < |slots| <= |payloads|
    requires forall i, j | 0 <= i < j < |slots| :: slots[i] != slots[j]
    requires forall i | 0 <= i < |slots| :: slots[i] !in live
    requires g.Keys == live.Keys + Elements(slots[..|slots| - 1])
    requires forall m | m in live :: m in g && g[m] == live[m]
    requires var init := slots[..|slots| - 1];
             forall i | 0 <= i < |init| ::
               init[i] in g && g[init[i]] == LiveMsg(Recv, session, |payloads[i]|, Some(payloads[i]))
    ensures var n := |slots| - 1;
            var f := g[slots[n] := LiveMsg(Recv, session, |payloads[n]|, Some(payloads[n]))];
            && f.Keys == live.Keys + Elements(slots)
            && (forall m | m in live :: m in f && f[m] == live[m])
            && (forall i | 0 <= i < |slots| ::
                  slots[i] in f && f[slots[i]] == LiveMsg(Recv, session, |payloads[i]|, Some(payloads[i])))
  {
    var n := |slots| - 1;
    var init, f := slots[..n], g[slots[n] := LiveMsg(Recv, session, |payloads[n]|, Some(payloads[n]))];
    KeysOneMore(slots);
    assert f.Keys == g.Keys + {slots[n]};
    forall i | 0 <= i < |slots|
      ensures slots[i] in f && f[slots[i]] == LiveMsg(Recv, session, |payloads[i]|, Some(payloads[i]))
    {
      if i < n {
        assert init[i] == slots[i];
      }
    }
  }

  lemma {:induction false} KeysOneMore(slots: seq<nat>)
    requires slots != []
    ensures var n := |slots| - 1;
            Elements(slots) == Elements(slots[..n]) + {slots[n]}
  {
    var n := |slots| - 1;
    assert slots == slots[..n] + [slots[n]];
  }

  /**
   * The bytes buffered for sending after SendMsg has accepted data of this size. Only the size of the data
   * is compared with the free space, so there is a window of two sizes in which the header does not fit
   * beside the data: then one of the two cursor advances fails, and its failure goes unnoticed.
   */
  function SendBuffered(buffered: seq<Byte>, data: Payload, free: nat): (s: seq<Byte>)
  {
    if free < |data| then buffered
    else
      var withHeader := if HEADER_SIZE <= free then buffered + HeaderBytes(|data|) else buffered;
      var left := if HEADER_SIZE <= free then free - HEADER_SIZE else free;
      if |data| <= left then withHeader + data else withHeader
  }

  /** SendMsg buffers exactly one whole frame if and only if there is room for the header too. */
  lemma SendIsExactIff(buffered: seq<Byte>, data: Payload, free: nat)
    ensures SendBuffered(buffered, data, free) == buffered + Encode(data) <==> |data| + HEADER_SIZE <= free
  {
    if |data| + HEADER_SIZE <= free {
      assert (buffered + HeaderBytes(|data|)) + data == buffered + Encode(data);
    }
  }

  /** In the window of two sizes the header is buffered without the data, or the data without the header. */
  lemma {:induction false} SendInWindow(buffered: seq<Byte>, data: Payload, free: nat)
    requires |data| <= free < |data| + HEADER_SIZE
    ensures free >= HEADER_SIZE ==> SendBuffered(buffered, data, free) == buffered + Encode(data)[..2]
    ensures free < HEADER_SIZE ==> SendBuffered(buffered, data, free) == buffered + data
  {
    assert Encode(data)[..2] == HeaderBytes(|data|);
  }

  lemma NothingInNothing()
    ensures Frames([]) == [] && Rest([]) == []
  {
  }

  /** A stream decodes to payloads without a remainder exactly if it is those payloads, printed. */
  lemma {:induction false} DecodesIff(stream: seq<Byte>, payloads: seq<Payload>)
    requires AllSendable(payloads)
    ensures Frames(stream) == payloads && Rest(stream) == [] <==> stream == EncodeAll(payloads)
  {
    hide *;
    Reassemble(stream);
    StreamRoundTrip(payloads, []);
    NothingInNothing();
    assert EncodeAll(payloads) + [] == EncodeAll(payloads);
    assert EncodeAll(payloads) + Rest(stream) == EncodeAll(payloads) <==> Rest(stream) == [];
  }

  /** What stands in the middle of a stream is determined by the whole. */
  lemma {:induction false} MiddleOf(front: seq<Byte>, x: seq<Byte>, y: seq<Byte>, back: seq<Byte>)
    ensures front + x + back == front + y + back <==> x == y
  {
    var n := |front|;
    if front + x + back == front + y + back {
      assert |x| == |y|;
      assert x == (front + x + back)[n..n + |x|] == (front + y + back)[n..n + |y|] == y;
    }
  }

  lemma {:induction false} EncodeThree(ps: seq<Payload>, p: Payload, qs: seq<Payload>)
    ensures EncodeAll(ps + [p] + qs) == EncodeAll(ps) + Encode(p) + EncodeAll(qs)
  {
    hide Encode;
    assert EncodeAll([p]) == Encode(p) by { assert [p][1..] == []; }
    hide EncodeAll;
    EncodeAllAppend(ps, [p]);
    EncodeAllAppend(ps + [p], qs);
  }

  /**
   * After SendMsg has reported success, the receiver gets what was accepted before, the data, and whatever
   * is accepted later, if and only if there was room for the header too. Otherwise the stream is corrupt.
   * Part of the stream may have been taken by the network already, the front of a frame included.
   */
  lemma {:induction false} SendKeepsStreamIff(taken: seq<Byte>, buffered: seq<Byte>, accepted: seq<Payload>,
      data: Payload, free: nat, later: seq<Payload>)
    requires taken + buffered == EncodeAll(accepted)
    requires AllSendable(accepted) && Sendable(data) && AllSendable(later)
    ensures var stream := taken + SendBuffered(buffered, data, free) + EncodeAll(later);
            (Frames(stream) == accepted + [data] + later && Rest(stream) == []) <==> |data| + HEADER_SIZE <= free
  {
    var x, y := SendBuffered(buffered, data, free), buffered + Encode(data);
    SendIsExactIff(buffered, data, free);
    EncodeThree(accepted, data, later);
    assert AllSendable(accepted + [data] + later);
    hide *;
    Regrouped(taken, buffered, Encode(data), EncodeAll(later));
    DecodesAsIff(taken, x, y, EncodeAll(later), accepted + [data] + later);
  }

  lemma {:induction false} Regrouped(front: seq<Byte>, s: seq<Byte>, t: seq<Byte>, back: seq<Byte>)
    ensures (front + s) + t + back == front + (s + t) + back
  {
  }

  /** If the payloads are printed with y in one place, a stream with x there decodes to them exactly if x is y. */
  lemma {:induction false} DecodesAsIff(front: seq<Byte>, x: seq<Byte>, y: seq<Byte>, back: seq<Byte>,
                                        payloads: seq<Payload>)
    requires AllSendable(payloads) && EncodeAll(payloads) == front + y + back
    ensures Frames(front + x + back) == payloads && Rest(front + x + back) == [] <==> x == y
  {
    hide *;
    DecodesIff(front + x + back, payloads);
    MiddleOf(front, x, y, back);
  }

  /** What ExtractMsg works on: the buffered bytes, the live messages, the queue and its semaphore. */
  datatype View = View(bytes: seq<Byte>, live: map<nat, LiveMsg>, queued: seq<nat>, tokens: nat)

  /**
   * The effect of cutting the first |slots| frames out of the buffered bytes: each becomes a live message
   * of its own, in a slot that was free, and they are pushed and signalled in stream order.
   */
  ghost predicate Extracted(session: int, capacity: nat, before: View, slots: seq<nat>, after: View) {
    && |slots| <= |Frames(before.bytes)|
    && (forall i, j | 0 <= i < j < |slots| :: slots[i] != slots[j])
    && (forall i | 0 <= i < |slots| :: slots[i] !in before.live)
    && after == View(AfterFrames(before.bytes, |slots|),
                     Filled(before.live, session, slots, Frames(before.bytes)),
                     PushedAll(before.queued, slots, capacity),
                     before.tokens + |slots|)
  }

  lemma ExtractedNone(session: int, capacity: nat, v: View)
    ensures Extracted(session, capacity, v, [], v)
  {
  }

  lemma ExtractedOneMore(session: int, capacity: nat, before: View, slots: seq<nat>, v: View, m: nat, after: View)
    requires Extracted(session, capacity, before, slots, v)
    requires HasFrame(v.bytes) && m !in v.live
    requires var p := FirstFrame(v.bytes);
             after == View(AfterFrame(v.bytes), v.live[m := LiveMsg(Recv, session, |p|, Some(p))],
                           Pushed(v.queued, m, capacity), v.tokens + 1)
    ensures |slots| < |Frames(before.bytes)|
    ensures Extracted(session, capacity, before, slots + [m], after)
  {
    hide *;
    ExtractedParts(session, capacity, before, slots, v);
    CutFrames(before.bytes, |slots|);
    CutOneMore(before.bytes, |slots|);
    OneMore(before.live, before.queued, session, slots, m, Frames(before.bytes), capacity);
    StillFresh(session, capacity, before, slots, v, m);
    ExtractedFrom(session, capacity, before, slots + [m], after);
  }

  lemma {:induction false} ExtractedParts(session: int, capacity: nat, before: View, slots: seq<nat>, v: View)
    requires Extracted(session, capacity, before, slots, v)
    ensures |slots| <= |Frames(before.bytes)|
    ensures v == View(AfterFrames(before.bytes, |slots|), Filled(before.live, session, slots, Frames(before.bytes)),
                      PushedAll(before.queued, slots, capacity), before.tokens + |slots|)
  {
    hide Filled, PushedAll, Frames, AfterFrames;
  }

  lemma {:induction false} ExtractedFrom(session: int, capacity: nat, before: View, slots: seq<nat>, v: View)
    requires |slots| <= |Frames(before.bytes)|
    requires forall i, j | 0 <= i < j < |slots| :: slots[i] != slots[j]
    requires forall i | 0 <= i < |slots| :: slots[i] !in before.live
    requires v == View(AfterFrames(before.bytes, |slots|), Filled(before.live, session, slots, Frames(before.bytes)),
                       PushedAll(before.queued, slots, capacity), before.tokens + |slots|)
    ensures Extracted(session, capacity, before, slots, v)
  {
    hide Filled, PushedAll, Frames, AfterFrames;
  }

  lemma {:induction false} StillFresh(session: int, capacity: nat, before: View, slots: seq<nat>, v: View, m: nat)
    requires Extracted(session, capacity, before, slots, v) && m !in v.live
    ensures var more := slots + [m];
            && (forall i, j | 0 <= i < j < |more| :: more[i] != more[j])
            && (forall i | 0 <= i < |more| :: more[i] !in before.live)
  {
    FilledHolds(before.live, session, slots, Frames(before.bytes));
    hide Filled, PushedAll, Frames, AfterFrames;
    var more := slots + [m];
    assert forall i | 0 <= i < |slots| :: more[i] == slots[i] && slots[i] in v.live;
  }

  /** How far an extraction can have come. */
  lemma ExtractedFacts(session: int, capacity: nat, before: View, slots: seq<nat>, v: View)
    requires Extracted(session, capacity, before, slots, v)
    ensures Rest(v.bytes) == Rest(before.bytes)
    ensures ZeroFree(before.bytes) ==> ZeroFree(v.bytes)
    ensures !HasFrame(v.bytes) ==> v.bytes == Rest(before.bytes)
    ensures Frames(before.bytes) == Frames(before.bytes)[..|slots|] + Frames(v.bytes)
    ensures |before.queued| + |slots| <= capacity ==> v.queued == before.queued + slots
  {
    CutFrames(before.bytes, |slots|);
    if |before.queued| + |slots| <= capacity {
      PushedAllFits(before.queued, slots, capacity);
    }
  }

  /** The messages that an extraction adds join the queue, which never holds more messages than are alive. */
  lemma {:induction false} PendingAfterFilling(live: map<nat, LiveMsg>, queue: seq<nat>, session: int, slots: seq<nat>,
                                               payloads: seq<Payload>, capacity: nat)
    requires Pending(live, queue) && |slots| <= |payloads|
    requires forall i, j | 0 <= i < j < |slots| :: slots[i] != slots[j]
    requires forall i | 0 <= i < |slots| :: slots[i] !in live
    ensures Pending(Filled(live, session, slots, payloads), PushedAll(queue, slots, capacity))
    ensures |queue| + |slots| <= |Filled(live, session, slots, payloads)|
    decreases |slots|
  {
    if slots == [] {
      PendingIsBounded(live, queue);
    } else {
      var n := |slots| - 1;
      var init, msg := slots[..n], LiveMsg(Recv, session, |payloads[n]|, Some(payloads[n]));
      PendingAfterFilling(live, queue, session, init, payloads, capacity);
      NotFilledBefore(live, session, slots, payloads);
      hide *;
      PendingGrows(Filled(live, session, init, payloads), PushedAll(queue, init, capacity), slots[n], msg, capacity);
      FilledOneMore(live, queue, session, slots, payloads, capacity);
      OneKeyMore(Filled(live, session, init, payloads), slots[n], msg);
    }
  }

  lemma {:induction false} FilledOneMore(live: map<nat, LiveMsg>, queue: seq<nat>, session: int, slots: seq<nat>,
                                         payloads: seq<Payload>, capacity: nat)
    requires 0 < |slots| <= |payloads|
    ensures var n := |slots| - 1;
            && Filled(live, session, slots, payloads)
               == Filled(live, session, slots[..n], payloads)
                    [slots[n] := LiveMsg(Recv, session, |payloads[n]|, Some(payloads[n]))]
            && PushedAll(queue, slots, capacity) == Pushed(PushedAll(queue, slots[..n], capacity), slots[n], capacity)
  {
  }

  lemma {:induction false} OneKeyMore<V>(m: map<nat, V>, k: nat, v: V)
    requires k !in m
    ensures |m[k := v]| == |m| + 1
  {
    assert m[k := v].Keys == m.Keys + {k};
    assert |m[k := v]| == |m[k := v].Keys| && |m| == |m.Keys|;
  }

  lemma {:induction false} NotFilledBefore(live: map<nat, LiveMsg>, session: int, slots: seq<nat>,
      payloads: seq<Payload>)
    requires 0 < |slots| <= |payloads|
    requires forall i, j | 0 <= i < j < |slots| :: slots[i] != slots[j]
    requires forall i | 0 <= i < |slots| :: slots[i] !in live
    ensures slots[|slots| - 1] !in Filled(live, session, slots[..|slots| - 1], payloads)
  {
    hide Filled;
    FilledHolds(live, session, slots[..|slots| - 1], payloads);
  }

  /** Before the last message was extracted. */
  lemma {:induction false} BeforeLast(session: int, capacity: nat, v: View, slots: seq<nat>, after: View)
    returns (mid: View)
    requires Extracted(session, capacity, v, slots, after) && slots != []
    requires |v.queued| + |slots| <= capacity + 1
    ensures Extracted(session, capacity, v, slots[..|slots| - 1], mid)
    ensures HasFrame(mid.bytes) && |mid.queued| == |v.queued| + |slots| - 1
    ensures slots[|slots| - 1] !in mid.live
    ensures var p := FirstFrame(mid.bytes);
            after == View(AfterFrame(mid.bytes), mid.live[slots[|slots| - 1] := LiveMsg(Recv, session, |p|, Some(p))],
                          Pushed(mid.queued, slots[|slots| - 1], capacity), mid.tokens + 1)
  {
    var n, frames := |slots| - 1, Frames(v.bytes);
    mid := View(AfterFrames(v.bytes, n), Filled(v.live, session, slots[..n], frames),
                PushedAll(v.queued, slots[..n], capacity), v.tokens + n);
    NotFilledBefore(v.live, session, slots, frames);
    FilledOneMore(v.live, v.queued, session, slots, frames, capacity);
    ExtractedInit(session, capacity, v, slots, after, mid);
    hide Filled, PushedAll, Frames, Rest, HasFrame, FirstFrame, AfterFrame, AfterFrames, Extracted;
    CutFrames(v.bytes, n);
    CutOneMore(v.bytes, n);
    PushedAllFits(v.queued, slots[..n], capacity);
  }

  lemma {:induction false} ExtractedInit(session: int, capacity: nat, v: View, slots: seq<nat>, after: View, mid: View)
    requires Extracted(session, capacity, v, slots, after) && slots != []
    requires var n := |slots| - 1;
             mid == View(AfterFrames(v.bytes, n), Filled(v.live, session, slots[..n], Frames(v.bytes)),
                         PushedAll(v.queued, slots[..n], capacity), v.tokens + n)
    ensures Extracted(session, capacity, v, slots[..|slots| - 1], mid)
    ensures |slots| <= |Frames(v.bytes)|
    ensures after == View(AfterFrames(v.bytes, |slots|), Filled(v.live, session, slots, Frames(v.bytes)),
                          PushedAll(v.queued, slots, capacity), v.tokens + |slots|)
  {
    hide Filled, PushedAll, Frames, AfterFrames;
    var init := slots[..|slots| - 1];
    assert forall i | 0 <= i < |init| :: init[i] == slots[i];
  }

  /** Extraction keeps the queue deliverable, and overfills it only if more messages are alive than it has slots. */
  lemma {:induction false} ExtractedKeepsPending(session: int, capacity: nat, before: View, slots: seq<nat>,
      after: View)
    requires Extracted(session, capacity, before, slots, after) && Pending(before.live, before.queued)
    ensures Pending(after.live, after.queued)
    ensures |before.queued| + |slots| <= |after.live|
  {
    PendingAfterFilling(before.live, before.queued, session, slots, Frames(before.bytes), capacity);
  }

  /**
   * Why an extraction ends. At a length of zero the code goes on to ask the allocator for zero bytes, for which
   * FreeListIndex names list -1; what happens then is undefined, and the model stops there.
   */
  datatype Stop = NoFrame | ZeroLength | NoMemory | QueueFull

  /** The comparison in ExtractMsg waits for more bytes exactly if there is no frame and the length is not zero. */
  lemma WaitsIff(s: seq<Byte>)
    requires HEADER_SIZE <= |s| < ADDRESS_LIMIT
    ensures |s| - HEADER_SIZE < ToSizeT(Header(s)) <==> !HasFrame(s) && Header(s) != 0
  {
  }

  class Session {
    const id: int
    const recv: Buffer
    const send: Buffer
    var recvTotal: nat
    var sendTotal: nat

    ghost function Repr(): set<object> {
      {this} + recv.Repr() + send.Repr()
    }

    ghost predicate Valid()
      reads Repr()
    {
      && recv.Repr() !! send.Repr() && this !in recv.Repr() && this !in send.Repr()
      && recv.Valid() && send.Valid()
    }

    constructor (id: int, capacity: nat)
      requires capacity < ADDRESS_LIMIT
      ensures Valid() && fresh(recv.Repr()) && fresh(send.Repr())
      ensures this.id == id && recv.Contents() == [] && send.Contents() == []
      ensures recv.bytes.Length == send.bytes.Length == capacity
    {
      this.id := id;
      recv := new Buffer(capacity);
      send := new Buffer(capacity);
      recvTotal, sendTotal := 0, 0;
    }

    ghost function Observe(inbox: Inbox): (v: View)
      requires recv.Valid()
      reads recv, recv.bytes, inbox
      ensures v == View(recv.Contents(), inbox.live, inbox.queued, inbox.tokens)
    {
      View(recv.Contents(), inbox.live, inbox.queued, inbox.tokens)
    }

    /** The checks on the header: the comparison is between unsigned numbers, so a negative length never fits. */
    method NextFrame() returns (payload: Option<Payload>, zero: bool)
      requires recv.Valid()
      ensures payload == if HasFrame(recv.Contents()) then Some(FirstFrame(recv.Contents())) else None
      ensures zero == (|recv.Contents()| >= HEADER_SIZE && Header(recv.Contents()) == 0)
    {
      ghost var s := recv.Contents();
      if recv.DataSize() < HEADER_SIZE {
        return None, false;
      }
      var header := Header(recv.bytes[recv.begin..recv.begin + HEADER_SIZE]);
      recv.Slice(0, HEADER_SIZE);
      assert header == Header(s);
      if recv.DataSize() - HEADER_SIZE < ToSizeT(header) {
        return None, false;
      }
      if header == 0 {
        return None, true;
      }
      recv.Slice(HEADER_SIZE, HEADER_SIZE + header);
      return Some(recv.bytes[recv.begin + HEADER_SIZE..recv.begin + HEADER_SIZE + header]), false;
    }

    /** One round of the loop of ExtractMsg. */
    method ExtractOne(inbox: Inbox, ghost v: View) returns (again: bool, ghost stop: Stop, ghost m: Option<nat>)
      requires recv.Valid() && inbox.Valid() && recv.Repr() !! inbox.Repr()
      requires v == Observe(inbox)
      modifies recv, inbox.Repr(), inbox.system
      ensures recv.Valid() && inbox.Valid()
      ensures m == None ==> !again && stop == if HasFrame(v.bytes) then NoMemory
                                              else if |v.bytes| < HEADER_SIZE || Header(v.bytes) != 0 then NoFrame
                                              else ZeroLength
      ensures m == None && HasFrame(v.bytes) ==>
                inbox.pool.Starved(|FirstFrame(v.bytes)|, inbox.system.refusals > old(inbox.system.refusals))
      ensures inbox.system.refusals >= old(inbox.system.refusals)
      ensures m == None ==> Observe(inbox) == v
      ensures m.Some? ==> HasFrame(v.bytes) && HandedOver(inbox, v, m.value)
      ensures m.Some? ==> again == (|v.queued| < inbox.Capacity()) && stop == QueueFull
    {
      hide Inbox.Valid, Buffer.Valid, MsgPool.Starved, Frames, Rest, HasFrame, FirstFrame, HandedOver;
      again, m := false, None;
      var payload, zero := NextFrame();
      if payload == None {
        stop := if zero then ZeroLength else NoFrame;
        return;
      }
      again, m := HandOver(inbox, v, payload.value);
      stop := if m == None then NoMemory else QueueFull;
    }

    /** The first frame has been cut off, and its message is in the queue if there was room, and signalled. */
    ghost predicate HandedOver(inbox: Inbox, v: View, m: nat)
      requires recv.Valid() && HasFrame(v.bytes)
      reads recv, recv.bytes, inbox, inbox.pool.Repr()
    {
      var p := FirstFrame(v.bytes);
      && m !in v.live && m in inbox.pool.headers.slots
      && Observe(inbox) == View(AfterFrame(v.bytes), v.live[m := LiveMsg(Recv, id, |p|, Some(p))],
                                Pushed(v.queued, m, inbox.Capacity()), v.tokens + 1)
    }

    /** What a round does with a frame: message, buffer, queue. */
    method HandOver(inbox: Inbox, ghost v: View, payload: Payload) returns (again: bool, ghost m: Option<nat>)
      requires recv.Valid() && inbox.Valid() && recv.Repr() !! inbox.Repr()
      requires v == Observe(inbox) && HasFrame(v.bytes) && payload == FirstFrame(v.bytes)
      modifies recv, inbox.Repr(), inbox.system
      ensures recv.Valid() && inbox.Valid()
      ensures m == None ==> !again && Observe(inbox) == v
      ensures m == None ==> inbox.pool.Starved(|payload|, inbox.system.refusals > old(inbox.system.refusals))
      ensures inbox.system.refusals >= old(inbox.system.refusals)
      ensures m.Some? ==> HandedOver(inbox, v, m.value) && again == (|v.queued| < inbox.Capacity())
    {
      FrameExtent(v.bytes);
      hide *;
      var stored := StoreFrame(inbox, payload);
      m := stored;
      if stored == None {
        return false, m;
      }
      again := CutAndInsert(inbox, |payload|, stored.value);
      IsHandedOver(inbox, v, stored.value);
    }

    /** The frame is copied into a message, and the buffer stays as it is. */
    method StoreFrame(inbox: Inbox, payload: Payload) returns (m: Option<nat>)
      requires recv.Valid() && inbox.Valid() && recv.Repr() !! inbox.Repr() && Sendable(payload)
      modifies inbox.Repr(), inbox.system
      ensures recv.Valid() && inbox.Valid() && recv.Contents() == old(recv.Contents())
      ensures inbox.queued == old(inbox.queued) && inbox.tokens == old(inbox.tokens)
      ensures m == None ==> inbox.live == old(inbox.live)
      ensures m == None ==> inbox.pool.Starved(|payload|, inbox.system.refusals > old(inbox.system.refusals))
      ensures inbox.system.refusals >= old(inbox.system.refusals)
      ensures m.Some? ==> m.value !in old(inbox.live) && m.value in inbox.pool.headers.slots
      ensures m.Some? ==> inbox.live == old(inbox.live)[m.value := LiveMsg(Recv, id, |payload|, Some(payload))]
    {
      hide Inbox.Valid, Buffer.Valid, MsgPool.Starved;
      m := inbox.Store(id, payload);
    }

    lemma IsHandedOver(inbox: Inbox, v: View, m: nat)
      requires recv.Valid() && HasFrame(v.bytes) && m !in v.live && m in inbox.pool.headers.slots
      requires var p := FirstFrame(v.bytes);
               HEADER_SIZE + |p| <= |v.bytes| && recv.Contents() == v.bytes[HEADER_SIZE + |p|..]
               && inbox.live == v.live[m := LiveMsg(Recv, id, |p|, Some(p))]
      requires inbox.queued == Pushed(v.queued, m, inbox.Capacity()) && inbox.tokens == v.tokens + 1
      ensures HandedOver(inbox, v, m)
    {
      FrameExtent(v.bytes);
    }

    /** The frame leaves the buffer, and its message goes to the queue. */
    method CutAndInsert(inbox: Inbox, size: nat, m: nat) returns (again: bool)
      requires recv.Valid() && inbox.Valid() && recv.Repr() !! inbox.Repr()
      requires HEADER_SIZE + size <= |recv.Contents()|
      modifies recv, inbox.Repr()
      ensures recv.Valid() && inbox.Valid()
      ensures recv.Contents() == old(recv.Contents())[HEADER_SIZE + size..]
      ensures inbox.live == old(inbox.live) && inbox.system.refusals == old(inbox.system.refusals)
      ensures inbox.queued == Pushed(old(inbox.queued), m, inbox.Capacity()) && inbox.tokens == old(inbox.tokens) + 1
      ensures again == (|old(inbox.queued)| < inbox.Capacity())
    {
      hide Inbox.Valid, Buffer.Valid, MsgPool.Starved;
      var _ := recv.IncreaseBegin(HEADER_SIZE + size);
      again := inbox.Insert(m);
    }

    /** How an extraction that made `before` into `after` has ended, in terms of the stream and the queue. */
    ghost predicate Ended(inbox: Inbox, before: View, slots: seq<nat>, stop: Stop)
      reads recv, recv.bytes, inbox, inbox.Repr()
      requires recv.Valid()
    {
      EndedAs(inbox, before, slots, stop, Observe(inbox))
    }

    ghost predicate EndedAs(inbox: Inbox, before: View, slots: seq<nat>, stop: Stop, after: View)
      reads inbox, inbox.Repr()
    {
      && Extracted(id, inbox.Capacity(), before, slots, after)
      && (forall i | 0 <= i < |slots| :: slots[i] in inbox.pool.headers.slots)
      && (stop == NoFrame ==> after.bytes == Rest(before.bytes) && ZeroFree(before.bytes))
      && (stop == ZeroLength ==> after.bytes == Rest(before.bytes) && !ZeroFree(before.bytes))
      && (stop == NoMemory ==> HasFrame(after.bytes))
      && (stop != QueueFull ==> after.queued == before.queued + slots)
      && (stop == QueueFull ==> |before.queued| + |slots| == inbox.Capacity() + 1)
      && (Pending(before.live, before.queued) ==> Pending(after.live, after.queued))
      && (Pending(before.live, before.queued) && |inbox.pool.headers.slots| <= inbox.Capacity() ==> stop != QueueFull)
    }

    /**
     * ExtractMsg: cut complete frames out of the receive buffer, in order, until there is none left, a length
     * of zero comes to the front, the pool is exhausted (the frame stays in the buffer), or the queue is full
     * (the last frame is lost). The queue is never full if the pool has no more header slots than the queue.
     */
    method ExtractMsg(inbox: Inbox) returns (ghost slots: seq<nat>, ghost stop: Stop)
      requires recv.Valid() && inbox.Valid() && recv.Repr() !! inbox.Repr()
      modifies recv, inbox.Repr(), inbox.system
      ensures recv.Valid() && inbox.Valid()
      ensures Ended(inbox, old(Observe(inbox)), slots, stop)
      ensures stop == NoMemory ==> ForWantOfMemory(inbox, inbox.system.refusals > old(inbox.system.refusals))
    {
      assert |inbox.queued| <= inbox.Capacity();
      ghost var before := Observe(inbox);
      slots := [];
      ExtractedNone(id, inbox.Capacity(), before);
      while true
        invariant recv.Valid() && inbox.Valid() && InProgress(inbox, before, slots)
        invariant inbox.system.refusals >= old(inbox.system.refusals)
        decreases |Frames(before.bytes)| - |slots|
      {
        hide *;
        var again;
        again, slots, stop := ExtractNext(inbox, before, slots);
        if !again {
          return;
        }
      }
    }

    /** The frame in front could not be had a message for: no slot, no block of its size, or malloc has refused. */
    ghost predicate ForWantOfMemory(inbox: Inbox, refused: bool)
      requires recv.Valid()
      reads recv, recv.bytes, inbox.pool.Repr()
    {
      HasFrame(recv.Contents()) && inbox.pool.Starved(|FirstFrame(recv.Contents())|, refused)
    }

    /** The loop of ExtractMsg at its head. */
    ghost predicate InProgress(inbox: Inbox, before: View, slots: seq<nat>)
      requires recv.Valid()
      reads recv, recv.bytes, inbox, inbox.Repr()
    {
      && Extracted(id, inbox.Capacity(), before, slots, Observe(inbox))
      && (forall i | 0 <= i < |slots| :: slots[i] in inbox.pool.headers.slots)
      && |slots| <= |Frames(before.bytes)|
      && |before.queued| + |slots| <= inbox.Capacity()
    }

    method ExtractNext(inbox: Inbox, ghost before: View, ghost sofar: seq<nat>)
      returns (again: bool, ghost slots: seq<nat>, ghost stop: Stop)
      requires recv.Valid() && inbox.Valid() && recv.Repr() !! inbox.Repr()
      requires InProgress(inbox, before, sofar)
      modifies recv, inbox.Repr(), inbox.system
      ensures recv.Valid() && inbox.Valid()
      ensures again ==> InProgress(inbox, before, slots) && |slots| > |sofar|
      ensures !again ==> Ended(inbox, before, slots, stop)
      ensures !again && stop == NoMemory ==> ForWantOfMemory(inbox, inbox.system.refusals > old(inbox.system.refusals))
      ensures inbox.system.refusals >= old(inbox.system.refusals)
    {
      hide Inbox.Valid, Buffer.Valid, MsgPool.Starved, Frames, Rest, HasFrame, Extracted, Ended;
      slots := sofar;
      ghost var v := Observe(inbox);
      ExtractedFacts(id, inbox.Capacity(), before, slots, v);
      ghost var m;
      again, stop, m := ExtractOne(inbox, v);
      if m.Some? {
        ExtractedOneMore(id, inbox.Capacity(), before, slots, v, m.value, Observe(inbox));
        slots := slots + [m.value];
      }
      if !again {
        HasEnded(inbox, before, slots, v, stop);
      }
    }

    /** What the last round of ExtractMsg leaves behind. */
    lemma HasEnded(inbox: Inbox, before: View, slots: seq<nat>, v: View, stop: Stop)
      requires recv.Valid() && inbox.Valid()
      requires Extracted(id, inbox.Capacity(), before, slots, Observe(inbox))
      requires forall i | 0 <= i < |slots| :: slots[i] in inbox.pool.headers.slots
      requires stop != QueueFull ==> v == Observe(inbox) && |before.queued| + |slots| <= inbox.Capacity()
      requires stop == QueueFull ==> |before.queued| + |slots| == inbox.Capacity() + 1
      requires stop == NoMemory ==> HasFrame(v.bytes)
      requires stop == NoFrame || stop == ZeroLength ==> !HasFrame(v.bytes)
      requires stop == NoFrame || stop == ZeroLength ==>
                 (stop == ZeroLength <==> |v.bytes| >= HEADER_SIZE && Header(v.bytes) == 0)
      ensures Ended(inbox, before, slots, stop)
    {
      var after := Observe(inbox);
      ExtractedFacts(id, inbox.Capacity(), before, slots, after);
      if Pending(before.live, before.queued) {
        ExtractedKeepsPending(id, inbox.Capacity(), before, slots, after);
        inbox.LiveFits();
      }
      hide Extracted, Pending, Inbox.Valid, HasFrame, Frames, Header;
    }

    /** ExtractMsg and MoveData, as every receive path ends. */
    method ExtractAndCompact(inbox: Inbox) returns (ghost slots: seq<nat>, ghost stop: Stop)
      requires recv.Valid() && inbox.Valid() && recv.Repr() !! inbox.Repr()
      modifies recv, recv.bytes, inbox.Repr(), inbox.system
      ensures recv.Valid() && inbox.Valid()
      ensures Ended(inbox, old(Observe(inbox)), slots, stop)
      ensures stop == NoMemory ==> ForWantOfMemory(inbox, inbox.system.refusals > old(inbox.system.refusals))
      ensures recv.begin == 0
    {
      hide Inbox.Valid, Buffer.Valid, EndedAs, MsgPool.Starved, HasFrame, FirstFrame;
      slots, stop := ExtractMsg(inbox);
      Compact(inbox);
    }

    /** MoveData, which nobody but the buffer notices. */
    method Compact(inbox: Inbox)
      requires recv.Valid() && inbox.Valid() && recv.Repr() !! inbox.Repr()
      modifies recv, recv.bytes
      ensures recv.Valid() && inbox.Valid() && recv.begin == 0
      ensures Observe(inbox) == old(Observe(inbox))
    {
      hide Inbox.Valid, Buffer.Valid;
      recv.MoveData();
    }

    /**
     * The free space after compaction: none exactly if the buffer was full and nothing could be extracted, because
     * the pool was exhausted, or because the pending length is not positive or makes the frame longer than the buffer.
     */
    ghost predicate Refilled(before: View, slots: seq<nat>, stop: Stop)
      requires recv.Valid()
      reads recv, recv.bytes
    {
      && recv.FreeSpaceSize() + |recv.Contents()| == recv.bytes.Length
      && (recv.FreeSpaceSize() == 0 <==> slots == [] && |before.bytes| == recv.bytes.Length)
      && (recv.FreeSpaceSize() == 0 && recv.bytes.Length >= HEADER_SIZE && stop != NoMemory ==>
            Header(recv.Contents()) <= 0 || HEADER_SIZE + Header(recv.Contents()) > recv.bytes.Length)
    }

    /** Received bytes are put behind the buffered ones and counted. */
    method TakeOver(inbox: Inbox, data: seq<Byte>)
      requires recv.Valid() && inbox.Valid() && recv.Repr() !! inbox.Repr() && this !in inbox.Repr()
          && this !in recv.Repr()
      requires |data| <= recv.FreeSpaceSize()
      modifies this`recvTotal, recv, recv.bytes
      ensures recv.Valid() && inbox.Valid()
      ensures Observe(inbox) == old(Observe(inbox)).(bytes := old(recv.Contents()) + data)
      ensures recvTotal == old(recvTotal) + |data|
    {
      hide Inbox.Valid, Buffer.Valid, Buffer.Contents;
      recv.Append(data);
      recvTotal := recvTotal + |data|;
    }

    /** Received bytes are taken over, extracted from and compacted. */
    method Receive(inbox: Inbox, data: seq<Byte>) returns (ghost slots: seq<nat>, ghost stop: Stop)
      requires recv.Valid() && inbox.Valid() && recv.Repr() !! inbox.Repr() && this !in inbox.Repr()
          && this !in recv.Repr()
      requires |data| <= recv.FreeSpaceSize()
      modifies this`recvTotal, recv, recv.bytes, inbox.Repr(), inbox.system
      ensures recv.Valid() && inbox.Valid()
      ensures Ended(inbox, old(Observe(inbox)).(bytes := old(recv.Contents()) + data), slots, stop)
      ensures stop == NoMemory ==> ForWantOfMemory(inbox, inbox.system.refusals > old(inbox.system.refusals))
      ensures Refilled(old(Observe(inbox)).(bytes := old(recv.Contents()) + data), slots, stop)
      ensures recvTotal == old(recvTotal) + |data|
    {
      ghost var was := Observe(inbox).(bytes := recv.Contents() + data);
      QueueFits(inbox);
      assert |was.bytes| <= recv.bytes.Length;
      hide *;
      TakeOver(inbox, data);
      slots, stop := ExtractAndCompact(inbox);
      FullAfterExtraction(this, inbox, was, slots, stop);
    }

    /**
     * SendMsg up to the point where the bytes are in the send buffer. The two checks look at the session's
     * active flag, which another thread may change in between.
     */
    method BufferMsg(activeBefore: bool, activeLocked: bool, data: Payload) returns (ok: bool)
      requires Valid()
      modifies send, send.bytes
      ensures Valid()
      ensures ok == (activeBefore && activeLocked && |data| <= old(send.FreeSpaceSize()))
      ensures send.Contents() == if ok then SendBuffered(old(send.Contents()), data, old(send.FreeSpaceSize()))
                                 else old(send.Contents())
      ensures send.begin == old(send.begin) && send.end >= old(send.end)
      ensures send.bytes[..old(send.end)] == old(send.bytes[..send.end])
    {
      if !activeBefore || !activeLocked {
        return false;
      }
      if send.FreeSpaceSize() < |data| {
        return false;
      }
      ghost var was, free, end, before := send.Contents(), send.FreeSpaceSize(), send.end, send.bytes[..];
      PutBehind(HeaderBytes(|data|));
      ghost var mid, between := send.end, send.bytes[..];
      PutBehind(data);
      hide SendBuffered, Buffer.Valid, Buffer.Contents;
      TwoPuts(was, data, free);
      SamePrefix(before, between, send.bytes[..], end, mid);
      return true;
    }

    /** memcpy to the end of the send buffer, and the cursor advance whose result nobody looks at. */
    method PutBehind(src: seq<Byte>)
      requires Valid()
      modifies send, send.bytes
      ensures Valid()
      ensures send.Contents() == if |src| <= old(send.FreeSpaceSize()) then old(send.Contents()) + src
          else old(send.Contents())
      ensures send.begin == old(send.begin)
      ensures send.end == if |src| <= old(send.FreeSpaceSize()) then old(send.end) + |src| else old(send.end)
      ensures send.bytes[..old(send.end)] == old(send.bytes[..send.end])
    {
      ghost var was := send.Contents();
      send.CopyToEnd(src);
      assert send.Contents() == send.bytes[..send.end][send.begin..] == was;
      if |src| <= send.FreeSpaceSize() {
        assert send.bytes[send.end..send.end + |src|] == src;
      }
      var _ := send.IncreaseEnd(|src|);
    }
  }

  /** The two halves of a frame, put behind the buffered bytes one after the other. */
  lemma {:induction false} TwoPuts(was: seq<Byte>, data: Payload, free: nat)
    requires |data| <= free
    ensures var header := HeaderBytes(|data|);
            var first := if |header| <= free then was + header else was;
            var left := if |header| <= free then free - |header| else free;
            SendBuffered(was, data, free) == if |data| <= left then first + data else first
  {
  }

  lemma {:induction false} SamePrefix(a: seq<Byte>, b: seq<Byte>, c: seq<Byte>, n: nat, m: nat)
    requires n <= m <= |b| && n <= |a| && m <= |c| && b[..n] == a[..n] && c[..m] == b[..m]
    ensures c[..n] == a[..n]
  {
    assert c[..n] == c[..m][..n] && b[..n] == b[..m][..n];
  }

  /** A buffer stays full only if nothing was extracted, for want of memory or under a length that no frame can have. */
  lemma FullAfterExtraction(session: Session, inbox: Inbox, before: View, slots: seq<nat>, stop: Stop)
    requires session.recv.Valid() && session.Ended(inbox, before, slots, stop)
    requires |before.bytes| <= session.recv.bytes.Length && |before.queued| <= inbox.Capacity()
    requires session.recv.begin == 0
    ensures session.Refilled(before, slots, stop)
  {
    CutShortens(before.bytes, |slots|);
    hide Pending, Frames;
    if |session.recv.Contents()| == session.recv.bytes.Length >= HEADER_SIZE && stop != NoMemory {
      NotLostWhileEmpty(session, inbox, before, slots, stop);
      FullWaitsInVain(session.recv.Contents(), session.recv.bytes.Length);
    }
  }

  /** Where nothing was extracted, the queue cannot have been the reason. */
  lemma NotLostWhileEmpty(session: Session, inbox: Inbox, before: View, slots: seq<nat>, stop: Stop)
    requires session.recv.Valid() && session.Ended(inbox, before, slots, stop)
    requires slots == [] && stop != NoMemory && |before.queued| <= inbox.Capacity()
    ensures !HasFrame(session.recv.Contents())
  {
    hide Pending;
  }

  lemma QueueFits(inbox: Inbox)
    requires inbox.Valid()
    ensures |inbox.queued| <= inbox.Capacity()
  {
  }
}
