// The operations that move bytes between a session's buffers and its socket: the loops of the
// Linux completion operation.
module SessionIo {
  import opened Framing
  import opened Inboxes
  import opened Sessions

  /** A connected stream socket: a foreign object that moves as many bytes at a time as it likes. */
  class Socket {
    /** What a read into no space answers while nothing is waiting: 0, or would-block. Systems differ. */
    const zeroRead: bool
    /** Bytes of the peer that have arrived and have not been read, those on the way, and whether none will follow. */
    var incoming: seq<Byte>
    var coming: seq<Byte>
    var peerClosed: bool
    /** Bytes handed to the network so far. */
    var outgoing: seq<Byte>
    /** How often a read has failed, would-block not counted. */
    ghost var errors: nat
    /** How often a send has been answered by -1, and how often of these by would-block. */
    ghost var refusals: nat
    ghost var blocks: nat

    constructor (zeroRead: bool)
      ensures this.zeroRead == zeroRead
      ensures incoming == [] && coming == [] && outgoing == [] && !peerClosed && errors == refusals == blocks == 0
    {
      this.zeroRead := zeroRead;
      incoming, coming, outgoing, peerClosed := [], [], [], false;
      errors, refusals, blocks := 0, 0, 0;
    }

    /** More bytes may arrive at any time; the end of the stream arrives behind the last one. */
    method Arrive() returns (ghost arrived: seq<Byte>)
      modifies `incoming, `coming, `peerClosed
      ensures old(coming) == arrived + coming && incoming == old(incoming) + arrived
      ensures old(peerClosed) ==> peerClosed && arrived == []
    {
      arrived := [];
      if peerClosed {
        return;
      }
      var k: nat :| k <= |coming|;
      arrived := coming[..k];
      incoming, coming := incoming + coming[..k], coming[k..];
      if * {
        peerClosed := coming == [];
      }
    }

    /**
     * recv: some bytes; 0 for end of stream or for an empty destination; -1 for an error, or for would-block,
     * which is the answer only while nothing is waiting that could be read. What arrives before it is answered
     * counts as waiting.
     */
    method Recv(len: nat) returns (ret: int, data: seq<Byte>, wouldBlock: bool, ghost arrived: seq<Byte>)
      modifies `incoming, `coming, `peerClosed, `errors
      ensures old(coming) == arrived + coming && old(incoming) + arrived == data + incoming
      ensures old(peerClosed) ==> peerClosed && arrived == []
      ensures -1 <= ret <= len
      ensures |data| == if ret > 0 then ret else 0
      ensures ret == 0 ==> (incoming == [] && peerClosed) || (len == 0 && (incoming != [] || zeroRead))
      ensures ret == -1 && wouldBlock ==> incoming == [] && !peerClosed && (len == 0 ==> !zeroRead)
      ensures errors == old(errors) + if ret == -1 && !wouldBlock then 1 else 0
    {
      data, wouldBlock := [], false;
      arrived := Arrive();
      if * {
        errors := errors + 1;
        return -1, [], false, arrived;
      }
      if incoming == [] {
        if peerClosed || (len == 0 && zeroRead) {
          return 0, [], false, arrived;
        }
        return -1, [], true, arrived;
      }
      if len == 0 {
        return 0, [], false, arrived;
      }
      var n: nat :| 0 < n <= len && n <= |incoming|;
      data := incoming[..n];
      incoming := incoming[n..];
      return n, data, false, arrived;
    }

    /** send: takes at least one byte, or returns -1. */
    method Send(data: seq<Byte>) returns (ret: int, wouldBlock: bool)
      requires data != []
      modifies `outgoing, `refusals, `blocks
      ensures ret == -1 || 0 < ret <= |data|
      ensures outgoing == if ret == -1 then old(outgoing) else old(outgoing) + data[..ret]
      ensures refusals == old(refusals) + if ret == -1 then 1 else 0
      ensures blocks == old(blocks) + if ret == -1 && wouldBlock then 1 else 0
    {
      wouldBlock := *;
      if * {
        refusals, blocks := refusals + 1, blocks + if wouldBlock then 1 else 0;
        return -1, wouldBlock;
      }
      var n: nat :| 0 < n <= |data|;
      outgoing := outgoing + data[..n];
      return n, false;
    }
  }

  datatype RecvOutcome = Inactive | Drained | Failed | Closed

  class SessionCompleteOperation {
    const session: Session
    const socket: Socket

    ghost predicate Valid()
      reads session.Repr()
    {
      session.Valid() && this !in session.Repr() && socket !in session.Repr()
    }

    constructor (session: Session, socket: Socket)
      requires session.Valid() && socket !in session.Repr()
      ensures Valid() && this.session == session && this.socket == socket
    {
      this.session := session;
      this.socket := socket;
    }

    /**
     * When a read that does not fail closes the session: `waiting` is all that had arrived by its end. It does if
     * the peer has closed, or if more was waiting than there was space, or just as much, where a read into no
     * space with nothing waiting is answered by 0.
     */
    predicate Closes(free: nat, waiting: seq<Byte>)
      reads socket
    {
      socket.peerClosed || free < |waiting| || (free == |waiting| && socket.zeroRead)
    }

    /**
     * Recv: read until the socket would block, then extract and compact. Whatever the outcome, the bytes
     * read are exactly the next bytes of the stream and sit behind the bytes that were buffered. A read
     * that returns 0 closes the session without extraction, also if the peer has not closed anything.
     */
    method Recv(active: bool, inbox: Inbox)
      returns (outcome: RecvOutcome, ghost arrived: seq<Byte>, ghost read: seq<Byte>, ghost slots: seq<nat>,
          ghost stop: Stop)
      requires Valid() && inbox.Valid()
      requires session.Repr() !! inbox.Repr() && socket !in inbox.Repr() && this !in inbox.Repr()
      modifies session`recvTotal, session.recv, session.recv.bytes
      modifies socket`incoming, socket`coming, socket`peerClosed, socket`errors, inbox.Repr(), inbox.system
      ensures Valid() && inbox.Valid()
      ensures outcome == Inactive <==> !active
      ensures old(socket.coming) == arrived + socket.coming
      ensures old(socket.incoming) + arrived == read + socket.incoming
      ensures |read| <= old(session.recv.FreeSpaceSize())
      ensures session.recvTotal == old(session.recvTotal) + |read|
      ensures !active ==> arrived == read == []
      ensures outcome == Drained ==> socket.incoming == [] && session.recv.begin == 0
      ensures outcome == Drained && stop == NoMemory ==>
                session.ForWantOfMemory(inbox, inbox.system.refusals > old(inbox.system.refusals))
      ensures outcome == Drained ==>
                session.Ended(inbox, old(session.Observe(inbox)).(bytes := old(session.recv.Contents()) + read),
                    slots, stop)
      ensures outcome != Drained ==>
                slots == [] && session.Observe(inbox)
                    == old(session.Observe(inbox)).(bytes := old(session.recv.Contents()) + read)
      ensures active && outcome != Failed ==>
                (outcome == Closed <==> Closes(old(session.recv.FreeSpaceSize()), old(socket.incoming) + arrived))
      ensures socket.errors == old(socket.errors) + if outcome == Failed then 1 else 0
    {
      hide Inbox.Valid, Session.Ended;
      slots, stop := [], NoFrame;
      if !active {
        return Inactive, [], [], [], stop;
      }
      outcome, arrived, read := ReadUntilStopped();
      if outcome == Drained {
        slots, stop := session.ExtractAndCompact(inbox);
      }
    }

    /** The reading loop. Drained stands for the would-block answer. */
    method ReadUntilStopped() returns (outcome: RecvOutcome, ghost arrived: seq<Byte>, ghost read: seq<Byte>)
      requires Valid()
      modifies session`recvTotal, session.recv, session.recv.bytes
      modifies socket`incoming, socket`coming, socket`peerClosed, socket`errors
      ensures Valid()
      ensures outcome != Inactive
      ensures old(socket.coming) == arrived + socket.coming
      ensures old(socket.incoming) + arrived == read + socket.incoming
      ensures |read| <= old(session.recv.FreeSpaceSize())
      ensures session.recvTotal == old(session.recvTotal) + |read|
      ensures session.recv.Contents() == old(session.recv.Contents()) + read
      ensures outcome == Drained ==> socket.incoming == []
      ensures outcome != Failed ==>
                (outcome == Closed <==> Closes(old(session.recv.FreeSpaceSize()), old(socket.incoming) + arrived))
      ensures socket.errors == old(socket.errors) + if outcome == Failed then 1 else 0
    {
      read, arrived := [], [];
      while true
        invariant Valid()
        invariant old(socket.coming) == arrived + socket.coming
        invariant old(socket.incoming) + arrived == read + socket.incoming
        invariant |read| + session.recv.FreeSpaceSize() == old(session.recv.FreeSpaceSize())
        invariant session.recvTotal == old(session.recvTotal) + |read|
        invariant session.recv.Contents() == old(session.recv.Contents()) + read
        invariant socket.errors == old(socket.errors)
        decreases session.recv.FreeSpaceSize()
      {
        ghost var soFar, had, before, on := arrived, read, socket.incoming, socket.coming;
        ghost var more;
        var ret, data, wouldBlock;
        ret, data, wouldBlock, more := socket.Recv(session.recv.FreeSpaceSize());
        arrived := arrived + more;
        StreamsGrow(old(socket.incoming), soFar, had, before, more, data, socket.incoming);
        Regroup(soFar, more, socket.coming);
        if ret == -1 {
          return if wouldBlock then Drained else Failed, arrived, read;
        } else if ret == 0 {
          return Closed, arrived, read;
        }
        Regroup(old(session.recv.Contents()), had, data);
        session.recv.Append(data);
        session.recvTotal := session.recvTotal + ret;
        read := read + data;
      }
    }

    lemma {:induction false} StreamsGrow(start: seq<Byte>, soFar: seq<Byte>, had: seq<Byte>, before: seq<Byte>,
                                         more: seq<Byte>, data: seq<Byte>, after: seq<Byte>)
      requires start + soFar == had + before && before + more == data + after
      ensures start + (soFar + more) == (had + data) + after
      ensures data == [] ==> start + (soFar + more) == had + after
    {
      Regroup(start, soFar, more);
      Regroup(had, before, more);
      Regroup(had, data, after);
      assert data == [] ==> had + data == had;
    }

    /**
     * Send: hand the buffered bytes to the socket until there are none left or it answers -1. What has been handed
     * over and what is still buffered is always the same stream. Would-block also compacts the buffer.
     */
    method Send(active: bool)
      requires Valid()
      modifies session`sendTotal, session.send, session.send.bytes
      modifies socket`outgoing, socket`refusals, socket`blocks
      ensures Valid()
      ensures socket.outgoing + session.send.Contents() == old(socket.outgoing + session.send.Contents())
      ensures |socket.outgoing| - |old(socket.outgoing)| == session.sendTotal - old(session.sendTotal) >= 0
      ensures !active ==>
                session.send.Contents() == old(session.send.Contents()) && socket.outgoing == old(socket.outgoing)
      ensures socket.refusals == old(socket.refusals) + if active && session.send.Contents() != [] then 1 else 0
      ensures socket.blocks != old(socket.blocks) ==> session.send.begin == 0
    {
      if !active {
        return;
      }
      while true
        invariant Valid()
        invariant socket.outgoing + session.send.Contents() == old(socket.outgoing + session.send.Contents())
        invariant |socket.outgoing| - |old(socket.outgoing)| == session.sendTotal - old(session.sendTotal) >= 0
        invariant socket.refusals == old(socket.refusals) && socket.blocks == old(socket.blocks)
        decreases |session.send.Contents()|
      {
        var again := SendOnce();
        if !again {
          return;
        }
      }
    }

    /** One round of the loop of Send. */
    method SendOnce() returns (again: bool)
      requires Valid()
      modifies session`sendTotal, session.send, session.send.bytes
      modifies socket`outgoing, socket`refusals, socket`blocks
      ensures Valid()
      ensures socket.outgoing + session.send.Contents() == old(socket.outgoing + session.send.Contents())
      ensures |socket.outgoing| - |old(socket.outgoing)| == session.sendTotal - old(session.sendTotal) >= 0
      ensures again ==> |session.send.Contents()| < |old(session.send.Contents())|
      ensures again ==> socket.refusals == old(socket.refusals) && socket.blocks == old(socket.blocks)
      ensures !again ==> socket.refusals == old(socket.refusals) + if session.send.Contents() != [] then 1 else 0
      ensures socket.blocks != old(socket.blocks) ==> session.send.begin == 0
    {
      if session.send.DataSize() == 0 {
        return false;
      }
      ghost var data, sent := session.send.Contents(), socket.outgoing;
      var ret, wouldBlock := socket.Send(session.send.bytes[session.send.begin..session.send.end]);
      if ret == -1 {
        if wouldBlock {
          session.send.MoveData();
        }
        return false;
      }
      assert sent + data == (sent + data[..ret]) + data[ret..];
      var _ := session.send.IncreaseBegin(ret);
      session.sendTotal := session.sendTotal + ret;
      return true;
    }

    /** Session::SendMsg on Linux: buffer the message under the send lock, then drain under it again. */
    method SendMsg(activeBefore: bool, activeLocked: bool, activeDraining: bool, data: Payload) returns (ok: bool)
      requires Valid()
      modifies session`sendTotal, session.send, session.send.bytes
      modifies socket`outgoing, socket`refusals, socket`blocks
      ensures Valid()
      ensures ok == (activeBefore && activeLocked && |data| <= old(session.send.FreeSpaceSize()))
      ensures |socket.outgoing| >= |old(socket.outgoing)|
      ensures socket.outgoing + session.send.Contents() ==
              old(socket.outgoing) + if ok then SendBuffered(old(session.send.Contents()), data,
                  old(session.send.FreeSpaceSize()))
                                     else old(session.send.Contents())
      ensures |socket.outgoing| - |old(socket.outgoing)| == session.sendTotal - old(session.sendTotal)
      ensures !(ok && activeDraining) ==> socket.outgoing == old(socket.outgoing)
      ensures socket.refusals
          == old(socket.refusals) + if ok && activeDraining && session.send.Contents() != [] then 1 else 0
      ensures socket.blocks != old(socket.blocks) ==> session.send.begin == 0
    {
      hide SendBuffered;
      ok := session.BufferMsg(activeBefore, activeLocked, data);
      if ok {
        Send(activeDraining);
      }
    }
  }
}
