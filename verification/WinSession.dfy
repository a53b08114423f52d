// The Windows port of a session: one overlapped send at a time on the live send buffer.
module WinSessions {
  import opened Buffers
  import opened Containers
  import opened Framing
  import opened Inboxes
  import opened Sessions

  class WinSession {
    const session: Session
    var sending: bool
    var sendingSize: nat
    /** The bytes the pending overlapped send was posted with; the kernel reads them from the buffer itself. */
    ghost var inFlight: Option<seq<Byte>>
    ghost var accepted: seq<Payload>
    ghost var taken: seq<Byte>

    /**
     * One send is in flight exactly while the flag is set; its bytes are at the front of the send buffer, just as
     * they were when it was posted; and without a send in flight there is nothing left to send.
     */
    ghost predicate Valid()
      reads this, session.Repr()
    {
      && session.Valid() && this !in session.Repr()
      && (sending <==> inFlight.Some?)
      && (sending ==> InFlightIntact(inFlight.value))
      && (!sending ==> session.send.Contents() == [])
    }

    ghost predicate InFlightIntact(posted: seq<Byte>)
      reads this, session.send, session.send.bytes
    {
      && session.send.begin == 0 && sendingSize == |posted|
      && sendingSize <= session.send.end && sendingSize <= session.send.bytes.Length
      && session.send.bytes[..sendingSize] == posted
    }

    /** What the network has taken and what is buffered is the stream of the accepted messages. */
    ghost predicate Exact()
      requires Valid()
      reads this, session.Repr()
    {
      taken + session.send.Contents() == EncodeAll(accepted)
    }

    constructor (id: int, capacity: nat)
      requires capacity < ADDRESS_LIMIT
      ensures Valid() && fresh(session.Repr()) && Exact()
      ensures accepted == [] && taken == [] && !sending
    {
      session := new Session(id, capacity);
      sending, sendingSize := false, 0;
      inFlight, accepted, taken := None, [], [];
    }

    /** PostSendOperation, when posting succeeds: the whole buffered data is given to the kernel. */
    method PostSendOperation()
      requires session.Valid() && this !in session.Repr()
      requires session.send.begin == 0
      modifies `sendingSize, `inFlight
      ensures sendingSize == |session.send.Contents()| && inFlight == Some(session.send.Contents())
      ensures InFlightIntact(session.send.Contents())
    {
      sendingSize := session.send.DataSize();
      inFlight := Some(session.send.Contents());
    }

    /**
     * SendMsg: the message goes behind whatever is in flight, which stays untouched. The stream stays exact if and
     * only if the message was refused or the free space held its header too.
     */
    method SendMsg(activeBefore: bool, activeLocked: bool, data: Payload) returns (ok: bool)
      requires Valid()
      modifies this, session.send, session.send.bytes
      ensures Valid()
      ensures ok == (activeBefore && activeLocked && |data| <= old(session.send.FreeSpaceSize()))
      ensures accepted == if ok then old(accepted) + [data] else old(accepted)
      ensures taken == old(taken)
      ensures session.send.Contents() ==
              if ok then SendBuffered(old(session.send.Contents()), data, old(session.send.FreeSpaceSize()))
                                         else old(session.send.Contents())
      ensures old(sending) ==> sending && inFlight == old(inFlight)
      ensures !old(sending) ==> inFlight == if ok then Some(session.send.Contents()) else None
      ensures old(Exact()) ==> (Exact() <==> !ok || |data| + HEADER_SIZE <= old(session.send.FreeSpaceSize()))
    {
      ghost var was, free, posted := session.send.Contents(), session.send.FreeSpaceSize(), session.send.end;
      hide EncodeAll, Encode, SendBuffered, Buffer.Valid;
      if |data| <= free {
        StreamGrowsIff(taken, was, accepted, data, free);
      }
      ok := session.BufferMsg(activeBefore, activeLocked, data);
      assert sending ==> session.send.bytes[..sendingSize] == session.send.bytes[..posted][..sendingSize];
      if ok {
        accepted := accepted + [data];
        if !sending {
          PostSendOperation();
          sending := true;
        }
      }
    }

    /** SendHandler::Complete: the kernel reports how many of the bytes it was given it has taken. */
    method SendComplete(bytesTransferred: nat)
      requires Valid()
      requires sending && bytesTransferred <= sendingSize
      modifies this, session`sendTotal, session.send, session.send.bytes
      ensures Valid()
      ensures taken == old(taken) + old(inFlight.value)[..bytesTransferred]
      ensures accepted == old(accepted)
      ensures session.send.Contents() == old(session.send.Contents())[bytesTransferred..]
      ensures inFlight == if session.send.Contents() == [] then None else Some(session.send.Contents())
      ensures session.sendTotal == old(session.sendTotal) + bytesTransferred
      ensures old(Exact()) ==> Exact()
    {
      ghost var was, posted, start, exact := session.send.Contents(), inFlight.value, taken, Exact();
      PostedIsFirst();
      hide EncodeAll, Exact, Buffer.Valid, InFlightIntact;
      taken := taken + posted[..bytesTransferred];
      Advance(bytesTransferred);
      PostRest();
      if exact {
        StillExact(start, was, posted, bytesTransferred);
      }
    }

    /** The next send, if anything is left. */
    method PostRest()
      requires session.Valid() && this !in session.Repr() && session.send.begin == 0 && sending
      modifies `sending, `sendingSize, `inFlight
      ensures Valid()
      ensures inFlight == if session.send.Contents() == [] then None else Some(session.send.Contents())
    {
      hide Buffer.Valid;
      if session.send.DataSize() != 0 {
        PostSendOperation();
      } else {
        sending := false;
        inFlight := None;
      }
    }

    lemma PostedIsFirst()
      requires Valid() && sending
      ensures |inFlight.value| <= |session.send.Contents()|
      ensures inFlight.value == session.send.Contents()[..|inFlight.value|]
      ensures Exact() ==> taken + session.send.Contents() == EncodeAll(accepted)
    {
      hide EncodeAll, Buffer.Valid;
    }

    lemma StillExact(start: seq<Byte>, was: seq<Byte>, posted: seq<Byte>, n: nat)
      requires Valid()
      requires n <= |posted| <= |was| && posted == was[..|posted|] && start + was == EncodeAll(accepted)
      requires taken == start + posted[..n] && session.send.Contents() == was[n..]
      ensures Exact()
    {
      hide EncodeAll, Buffer.Valid, InFlightIntact;
      StreamMoves(start, was, posted, n);
    }

    /** The bytes that have been sent leave the buffer, and the others move to its front. */
    method Advance(bytesTransferred: nat)
      requires session.Valid() && this !in session.Repr()
      requires bytesTransferred <= |session.send.Contents()|
      modifies session`sendTotal, session.send, session.send.bytes
      ensures session.Valid() && session.send.begin == 0
      ensures session.send.Contents() == old(session.send.Contents())[bytesTransferred..]
      ensures session.sendTotal == old(session.sendTotal) + bytesTransferred
    {
      hide Buffer.Valid;
      var _ := session.send.IncreaseBegin(bytesTransferred);
      session.send.MoveData();
      session.sendTotal := session.sendTotal + bytesTransferred;
    }

    /**
     * RecvHandler::Complete: the kernel has put the bytes behind the buffered ones. After extraction and
     * compaction the next receive is posted on the whole free space. There is none, so that this receive brings
     * no bytes and closes the session, exactly if the buffer was full and nothing could be extracted: because the
     * pool was exhausted, or because the pending length is not positive or makes the frame longer than the buffer.
     */
    method RecvComplete(inbox: Inbox, data: seq<Byte>) returns (ghost slots: seq<nat>, ghost stop: Stop)
      requires Valid() && inbox.Valid() && session.Repr() !! inbox.Repr() && this !in inbox.Repr()
      requires |data| <= session.recv.FreeSpaceSize()
      modifies session`recvTotal, session.recv, session.recv.bytes, inbox.Repr(), inbox.system
      ensures Valid() && inbox.Valid()
      ensures session.Ended(inbox, old(session.Observe(inbox)).(bytes := old(session.recv.Contents()) + data), slots,
          stop)
      ensures session.Refilled(old(session.Observe(inbox)).(bytes := old(session.recv.Contents()) + data), slots, stop)
      ensures stop == NoMemory ==> session.ForWantOfMemory(inbox, inbox.system.refusals > old(inbox.system.refusals))
      ensures session.recvTotal == old(session.recvTotal) + |data|
      ensures old(Exact()) ==> Exact()
    {
      hide Inbox.Valid, Session.Ended, Session.Refilled, EncodeAll;
      slots, stop := session.Receive(inbox, data);
    }

    /** At any time the other end can decode a prefix of what was accepted, and the buffer holds the rest. */
    lemma TakenIsPrefix()
      requires Valid() && Exact()
      requires AllSendable(accepted)
      ensures accepted == Frames(taken) + Frames(Rest(taken) + session.send.Contents())
      ensures !sending ==> Frames(taken) == accepted && Rest(taken) == []
    {
      StreamRoundTrip(accepted, []);
      assert EncodeAll(accepted) + [] == taken + session.send.Contents();
      assert accepted + Frames([]) == accepted;
      DecodeIncrementally(taken, session.send.Contents());
      if !sending {
        assert taken + [] == taken;
        assert Rest(taken) + [] == Rest(taken);
      }
    }
  }

  /** Behind an exact stream, what SendMsg buffers continues it exactly if the header fits too. */
  lemma {:induction false} StreamGrowsIff(taken: seq<Byte>, buffered: seq<Byte>, accepted: seq<Payload>, p: Payload,
      free: nat)
    requires |p| <= free
    ensures taken + buffered == EncodeAll(accepted) ==>
              (taken + SendBuffered(buffered, p, free) == EncodeAll(accepted + [p]) <==> |p| + HEADER_SIZE <= free)
  {
    EncodeAllAppend(accepted, [p]);
    assert EncodeAll([p]) == Encode(p) by { assert EncodeAll([p]) == Encode(p) + []; }
    assert taken + (buffered + Encode(p)) == (taken + buffered) + Encode(p);
    SendIsExactIff(buffered, p, free);
    hide EncodeAll, Encode, SendBuffered;
    var x, y := SendBuffered(buffered, p, free), buffered + Encode(p);
    assert taken + x == taken + y ==> (taken + x)[|taken|..] == (taken + y)[|taken|..];
    assert (taken + x)[|taken|..] == x && (taken + y)[|taken|..] == y;
  }

  lemma {:induction false} StreamMoves(taken: seq<Byte>, was: seq<Byte>, posted: seq<Byte>, n: nat)
    requires n <= |posted| <= |was| && posted == was[..|posted|]
    ensures taken + was == (taken + posted[..n]) + was[n..]
  {
    assert posted[..n] == was[..n] && was == was[..n] + was[n..];
  }
}
