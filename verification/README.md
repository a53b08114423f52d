# Verified model of the Crux messaging library

Crux moves length-prefixed messages over sockets. A sender copies a frame into a session's send buffer; the other
end appends what arrives to a receive buffer, cuts complete frames out of it, copies each into a message taken from
a pool, and pushes the message into a bounded queue, from which one loop hands it to the application. This project
models that path in Dafny, together with the memory it runs on, the threads and locks around it, and the two things
that surround it: the session ids and the configuration reader.

| file | models |
|---|---|
| `Framing.dfy` | the wire format, decoding in pieces |
| `Buffer.dfy`, `Containers.dfy` | the linear buffer; the ring queue and the array stack |
| `Sequences.dfy`, `Layout.dfy`, `FreeLists.dfy`, `Allocator.dfy`, `UniSizeAllocator.dfy` | the slab of size classes and the slab of equal slots, with free lists stored in the free memory itself; sequences without repetitions |
| `MsgPool.dfy`, `PoolCapacity.dfy`, `MsgQueue.dfy`, `Inbox.dfy` | payload plus header with rollback; how many messages can be alive; the queue with its semaphore; pool and queue together |
| `Session.dfy`, `SessionIo.dfy`, `WinSession.dfy`, `NetServer.dfy` | SendMsg and ExtractMsg, the Linux loops, the Windows handlers, the consuming loop |
| `MsgSystem.dfy`, `Delivery.dfy`, `Rounds.dfy`, `Overflow.dfy`, `Refinement.dfy` | the whole path as interleaved atomic steps of any number of threads and sessions; what holds in every run; messages handed over without interruption; the runs that lose messages; the class methods as runs |
| `Workers.dfy`, `Locks.dfy` | the operation queue with its workers and their shutdown; the order in which locks are taken, and what is worked on under them |
| `Registry.dfy`, `SessionMgr.dfy`, `SessionIds.dfy` | session ids, called atomically and interleaved |
| `ConfigReader.dfy`, `ConfigRoundTrip.dfy` | the configuration reader and what survives a round trip |

Code that changes state in place is modelled by classes with the same fields and loops, each method proved against
functions of its old state; the lemmas are about those functions. Concurrency is modelled by state machines whose
steps are the critical sections and the semaphore operations.

## Where the code does less than it promises

Each of these is a theorem with its exact condition, and the code was modelled as it is.

- SendMsg compares only the size of the data with the free space. In a window of two sizes it reports success, but
  the header or the data is not taken over into the buffer, and memcpy writes up to two bytes behind m_pBuffer,
  where m_pBegin lies (include/Buffer.h:33-37). The model says what becomes of the stream
  (`Sessions.SendIsExactIff`, `Sessions.SendKeepsStreamIff`), not of the begin cursor.
- Payloads of 0 bytes or more than 32767 do not survive the signed two-byte header (`Framing.FrameRoundTripIff`),
  and some larger ones would be given back to another list than they came from (`MsgPools.RouteIsKeptIff`).
- MemoryTotal starts at the literal 8, and the lists are BYTES_MAX / ALIGN in number, rounded down: both are right
  exactly for an ALIGN of 8 that divides BYTES_MAX (`Layout.ConfigurationIsSoundIff`).
- A frame length of zero passes the comparison in ExtractMsg, and the allocator is asked for zero bytes, for which
  FreeListIndex names list -1. What follows is undefined, so the model of ExtractMsg stops there. Unless it stops
  earlier, it gets there exactly if the stream brings such a length to the front (`Sessions.WaitsIff`,
  `Sessions.Session.ExtractMsg`), which a stream of sendable payloads never does (`Framing.PrintedIsZeroFree`).
- ExtractMsg loses a frame when the queue is full, which is impossible exactly if no more messages can be alive at
  once than MSG_QUEUE_SIZE (`Overflow.NothingIsLostIff`). That many are MSG_COUNT_MAX, or the blocks in the lists that
  serve the frames which fit the receive buffer, whichever is less; only the former if such a frame can exceed
  BYTES_MAX, since malloc serves it. Both shipped configurations have MSG_COUNT_MAX equal to MSG_QUEUE_SIZE, so
  nothing is lost (`Overflow.AsManySlotsAsMessages`).
- On Linux a read that fills the receive buffer is followed by a read into no space. An answer of 0 is taken for the
  end of the stream, and the session is closed without extraction, although the peer may have closed nothing: exactly
  if by the end of the call more has arrived than there was free space, or just as much, where a read into no space
  with nothing waiting is answered by 0 (`SessionIo.SessionCompleteOperation.Recv`).
- On Windows the next receive is posted on whatever space is free. On no space it completes with 0 bytes and the
  worker closes the session (src/Win/WorkerThread.cpp:58-76): exactly if the buffer was full and nothing could be
  extracted (`WinSessions.WinSession.RecvComplete`).
- A refused insertion into the operation queue still posts the semaphore, and a worker then calls Complete through
  an undefined pointer: as many workers as insertions met a full queue, once the surplus wake-ups are used up
  (`Workers.AstrayCount`, `Workers.CrashIffOverflow`); some run gets there for every capacity
  (`Workers.SomeRunCrashes`).
- DestroySession gives the id back before the slot. A create in between can find no slot, and the id it has taken
  is lost for good, and ids are lost in no other way (`SessionIds.NothingLostIff`,
  `SessionIds.NoSlotNeedsHalfDestroyed`, `SessionIds.SomeRunLosesAnId`).
- The configuration reader skips the character behind `=` when the value has no quotes
  (`ConfigRoundTrips.UnquotedRoundTripIff`, `ConfigRoundTrips.FileRoundTripIff`).

## Modelling assumptions

- The host is little-endian; `short` has 16 bits and `size_t` 64. Other counters are unbounded.
- Flags and counters are read and written in a sequentially consistent way; a wait on a semaphore returns only
  with a token. A session is destroyed once, by one thread.
- Bytes may arrive, and the peer may close, at any time during a read. `recv` answers would-block only when nothing
  is waiting that could be read, and 0 when everything has been read and the peer has closed. Into no space it
  answers 0 while something is waiting; with nothing waiting, 0 on some systems and would-block on others
  (`zeroRead`). Otherwise sockets move any number of bytes at a time, and any call may fail: the answers are
  nondeterministic. Posting an overlapped operation on Windows succeeds.
- `malloc` for payloads above BYTES_MAX refuses, or gives a block that is not in use. In `MsgSystem` an
  allocation can succeed if there is a header slot and a block in the list of its size; above BYTES_MAX malloc has one.
- A socket counts its errors and refusals, malloc its refusals, and the flag of NetLoop how often it was cleared; only
  their own methods raise these counts, which serve to say why a call has ended as it did.
- A link occupies the first cell of a free block, so a cell stands for a byte of a payload or for a whole link;
  a block is never smaller than a link.
- A byte that memcpy would put behind the end of a buffer is not stored anywhere.
- The two checks of the active flag in SendMsg and the one in Send are parameters, because another thread may
  change the flag in between.
- `Inboxes.Inbox` holds the message pool and the message queue, which the library reaches through two singletons;
  `SessionMgrs.SessionMgr` holds the session manager and the session pool in the same way.
- In `MsgSystem` the receive buffer holds at most `recvLimit` bytes: its size, or one byte less where a full buffer
  closes the session. A connection is one lifetime of a sending and a receiving session, named by a number that is never
  used again; the header slots are the addresses that the pool hands out; a buffer is bounded by its total size only,
  so the system has all the runs of the real cursors and more. Writing to the wire and reading from it may stop at any byte.

## Model

Lemmas about states of classes say what holds in every state their methods can reach, because every method keeps
`Valid`.

| member | source | states |
|---|---|---|
| `Framing.HeaderRoundTrip` | src/Session.cpp:249 | for every length up to 32767 the two little-endian bytes, read as a signed short in front of anything, give the length back |
| `Framing.HeaderOnTheWire` | src/Session.cpp:302-312 | a frame is two bytes more than its payload: the length, low byte first, and the payload; read back, the two bytes are a length that is negative from 32768 on |
| `Framing.FrameRoundTripIff` | src/Session.cpp:240-330 | a written frame decodes to exactly its payload and nothing else if and only if the payload has 1 to 32767 bytes |
| `Framing.StreamRoundTrip` | src/Session.cpp:240-330 | a printed sequence of payloads followed by any bytes decodes to those payloads and then to what the bytes decode to |
| `Framing.Reassemble` | src/Session.cpp:240-278 | for any bytes at all, the decoded frames printed again plus the undecoded tail are the bytes: decoding drops and invents nothing |
| `Framing.FrameIsStable` | src/Session.cpp:249-254 | bytes that arrive later never change a frame that is already complete |
| `Framing.DecodeIncrementally` | src/Session.cpp:240-278 | decoding what has arrived, keeping the tail and decoding it with what arrives next gives the frames and the tail of the whole |
| `Framing.CutFrames` | src/Session.cpp:240-278 | after n frames have been cut off the rest decodes to the other frames and the tail is the same; there is an (n+1)st exactly if a frame is in front |
| `Framing.TwoPieces` | src/Win/RecvHandler.cpp:8-19 | two reads have the effect of one read of both pieces together |
| `Framing.ChunkingIndependence` | src/Win/RecvHandler.cpp:8-19 | however a stream is cut into pieces, receiving them one by one yields the frames and the tail of decoding it at once |
| `Framing.WaitsInVainIff` | src/Session.cpp:244-254 | a buffer without a complete frame never gets one, whatever may still be received into it, if and only if the pending length is not positive or makes the frame longer than the buffer |
| `Framing.FullWaitsInVain` | src/Session.cpp:244-254 | a full buffer without a complete frame is always in that situation |
| `Framing.PrintedIsZeroFree` | src/Session.cpp:249-257 | at no cut of a stream of sendable payloads is a length of zero in front |
| `Framing.NeverWedges` | src/Session.cpp:244-269 | as long as every frame of the stream fits the buffer, free space is left after every extraction and compaction |
| `Buffers.Buffer.IncreaseBegin` | src/Buffer.cpp:36-53 | consuming takes bytes off the front of the contents, is refused exactly beyond the data, and rewinds both cursors when the data runs out |
| `Buffers.Buffer.IncreaseEnd` | src/Buffer.cpp:55-65 | advancing the end cursor takes over the bytes behind the data, and is refused exactly beyond the free space |
| `Buffers.Buffer.MoveData` | src/Buffer.cpp:67-79 | moving the data to the front, over overlapping ranges, keeps the contents and frees everything behind them |
| `Buffers.Buffer.Append` | src/Linux/SessionCompleteOperation.cpp:52-79 | bytes put behind the data and taken over are appended to the contents and overwrite nothing that was buffered |
| `Containers.Queue.PushBack` | include/Queue.h:60-74 | the ring is a bounded sequence: pushing appends, and is refused exactly when full |
| `Containers.Queue.Front` | include/Queue.h:76-88 | the first element of the sequence, or nothing exactly when it is empty |
| `Containers.Queue.PopFront` | include/Queue.h:90-107 | popping removes the first element, also where the cursors wrap around and where meeting cursors are both set to 0 |
| `Containers.Stack.Push` | include/Stack.h:57-72 | pushing appends to the bounded stack, and is refused exactly when full |
| `Containers.Stack.Pop` | include/Stack.h:74-88 | popping removes the last element, and is refused exactly when the stack is empty |
| `Containers.Stack.Top` | include/Stack.h:90-103 | the last element pushed, or nothing exactly when the stack is empty |
| `Layout.ListStartClosedForm` | src/Allocator.cpp:71-79 | what SetFreeListPtr adds up for list i is ALIGN * COUNT * i * (i + 1) / 2 |
| `Layout.ListsInOrder` | src/Allocator.cpp:71-95 | each list with all its blocks ends before any later list begins |
| `Layout.BlocksDisjoint` | src/Allocator.cpp:71-95 | no two different blocks overlap, within a list or across lists |
| `Layout.BlockExtents` | src/Allocator.cpp:71-95 | an address determines its size class, and blocks at different addresses do not overlap |
| `Layout.BlockAligned` | src/Allocator.cpp:71-95 | every block starts on a multiple of ALIGN |
| `Layout.BlocksTileSlab` | src/Allocator.cpp:71-95 | a byte lies in the slab if and only if it lies in a block, and then in only one |
| `Layout.PooledSizesServedIff` | src/Allocator.cpp:8-25 | for any BYTES_MAX: every pooled size has a list if and only if ALIGN divides BYTES_MAX |
| `Layout.ConfigurationIsSoundIff` | src/Allocator.cpp:8-69 | for any ALIGN and BYTES_MAX: every pooled size has a list and the memory that the loop from the literal 8 reserves holds all lists, if and only if ALIGN is 8 and divides BYTES_MAX; then it holds exactly the lists |
| `Layout.ClassServesRequest` | src/Allocator.cpp:56-59 | the list index names the smallest block size that is large enough |
| `Layout.MaskClearsLowBits` | src/Allocator.cpp:51-54 | and-ing with the complement of 2^n - 1 in a machine word subtracts the remainder by 2^n |
| `Layout.RoundUpIsBlockSize` | src/Allocator.cpp:51-59 | for alignments that are powers of two the mask form of RoundUp is the block size of the list that the division form selects |
| `FreeLists.FollowVisitsChain` | src/Allocator.cpp:77-94 | following the links stored in memory from the head visits exactly the blocks of the list and ends at NULL |
| `FreeLists.LinkedPush` | src/Allocator.cpp:44-48 | storing the old head in a block off the list makes a well-formed list with that block in front |
| `Sequences.DistinctSize` | src/UniSizeAllocator.cpp:40-53 | a list without repetitions is as long as its set of blocks is large |
| `Sequences.InjectionSize` | src/SessionMgr.cpp:34-61 | things that each have an image of their own are no more than the images: sessions and their ids, messages and their blocks |
| `UniSizeAllocators.UniSizeAllocator.constructor` | src/UniSizeAllocator.cpp:6-13 | count blocks of size bytes in a slab of count * size, all free, in address order, none overlapping another or the end of the slab |
| `UniSizeAllocators.UniSizeAllocator.LinkFreeElement` | src/UniSizeAllocator.cpp:40-53 | the linking loop leaves an acyclic list of all blocks in memory, each at least size bytes behind the one before |
| `UniSizeAllocators.UniSizeAllocator.Allocate` | src/UniSizeAllocator.cpp:21-31 | hands out the first free block, never one that is held, and fails exactly when every block is held |
| `UniSizeAllocators.UniSizeAllocator.Deallocate` | src/UniSizeAllocator.cpp:33-38 | puts the block in front of the free list and writes no cell but its link |
| `UniSizeAllocators.UniSizeAllocator.Write` | src/UniSizeAllocator.cpp:21-38 | a client that writes into the block it holds, over the old link, does not disturb the free list |
| `UniSizeAllocators.UniSizeAllocator.Conservation` | src/UniSizeAllocator.cpp:21-38 | free and held blocks always add up to the slab |
| `UniSizeAllocators.SlotCount` | src/UniSizeAllocator.cpp:6-13 | the slab is carved into exactly count different blocks |
| `Allocators.Allocator.MemoryTotal` | src/Allocator.cpp:61-69 | the loop returns the sum that Layout.ConfigurationIsSoundIff is about |
| `Allocators.Allocator.constructor` | src/Allocator.cpp:97-107 | after Initialize every block of every class is free, in a slab that the blocks fill exactly |
| `Allocators.Allocator.SetFreeListPtr` | src/Allocator.cpp:71-79 | every list head points to the start of its list |
| `Allocators.Allocator.LinkFreeElement` | src/Allocator.cpp:81-95 | the two loops link each list on its own, through all its blocks, without touching the links of another |
| `Allocators.GeometryOfSlab` | src/Allocator.cpp:71-95 | the blocks of the initial lists lie inside the slab and never overlap |
| `Allocators.ListsOfSlab` | src/Allocator.cpp:71-95 | the initial lists are ascending, COUNT blocks long, and one block size apart |
| `Allocators.Allocator.Allocate` | src/Allocator.cpp:17-34 | fails exactly when the list of the class is empty (or malloc refuses a large request), changes no memory, hands out a block nobody holds, and leaves all held blocks and their contents alone |
| `Allocators.Allocator.Deallocate` | src/Allocator.cpp:36-49 | gives the block back to the list it came from, writes only its link, and leaves all other held blocks and their contents alone |
| `Allocators.Allocator.Write` | src/Allocator.cpp:17-49 | bytes a client writes into its block are what it reads there afterwards; every list stays intact and every other held block keeps its contents |
| `Allocators.Allocator.OwnersAreApart` | src/Allocator.cpp:17-49 | blocks held for different requests share no cell |
| `Allocators.Allocator.LinksAreOutside` | src/Allocator.cpp:17-49 | no link of a free list is stored inside a held block |
| `Allocators.Allocator.Conservation` | src/Allocator.cpp:17-49 | in every class the free and the held blocks add up to the blocks of the class |
| `MsgPools.RouteIsKeptIff` | include/MsgPool.h:95-103 | for an ALIGN of at most 65536: the size stored as a short leads a payload back to the list (or to free) that it came from if and only if it was pooled and has at most 32767 bytes, or it was not and its low sixteen bits still exceed BYTES_MAX or 32767; so always for 1 to 32767 bytes |
| `MsgPools.MsgPool.constructor` | include/MsgPool.h:48-54 | no message is alive, there are MSG_COUNT_MAX header slots and FREE_LIST_ELEMENT_COUNT blocks in each list, and all of them are free |
| `MsgPools.MsgPool.NotExhausted` | include/MsgPool.h:64-91 | with a free block in every list and a free slot, as after Initialize, every request for a pooled size succeeds |
| `MsgPools.MsgPool.AllocateMsg` | include/MsgPool.h:64-91 | fails exactly when the payload or the header cannot be had, and then both allocators are as before, memory included; otherwise one new message is alive and the others keep their contents |
| `MsgPools.MsgPool.GiveDataBack` | include/MsgPool.h:80-83 | the rollback puts the payload block back in front of its own list |
| `MsgPools.MsgPool.DeallocateMsg` | include/MsgPool.h:93-103 | the message is gone, its slot and its payload go back to where they came from, all other messages keep their contents |
| `MsgPools.MsgPool.Fill` | src/Session.cpp:263-266 | copying a payload into a message changes what that message holds and no other message |
| `MsgPools.MsgPool.ReadPayload` | src/NetServer.cpp:51-54 | what the consumer reads behind the data pointer is what was filled in, byte for byte |
| `MsgPools.MsgPool.LiveIsBounded` | include/MsgPool.h:40-51 | never more live messages than header slots |
| `PoolCapacity.AliveAreBounded` | include/MsgPool.h:64-91 | while payloads have at most a given size, no more messages are alive than there are header slots, nor, if that size is pooled, than the lists serving such payloads have blocks |
| `PoolCapacity.AnotherFits` | include/MsgPool.h:64-91 | that bound is reached: below it there is always a size, within the given one, for which slot and block can be had |
| `PoolCapacity.UsersHaveBlocks` | src/Allocator.cpp:17-34 | in every state of the pool, the live messages whose payload a list serves are no more than the blocks of that list |
| `MsgQueues.MsgQueue.InsertMsg` | src/MsgQueue.cpp:22-33 | the message is appended unless the queue is full, and the semaphore is posted in either case |
| `MsgQueues.MsgQueue.RemoveMsg` | src/MsgQueue.cpp:35-48 | the oldest message, or NULL exactly when the queue is empty |
| `Inboxes.Inbox.constructor` | include/MsgPool.h:48-54 | the same for the pool, with an empty queue and no token |
| `Inboxes.Inbox.Allocate` | include/MsgPool.h:64-91 | malloc is asked only for what is not pooled; a request fails only for want of a header slot, of a block in the list of its size, or because malloc has refused it |
| `Inboxes.Inbox.Store` | src/Session.cpp:257-266 | a frame becomes a new live message with its type, session and bytes, or nothing changes, for one of these reasons |
| `Inboxes.Inbox.InsertSimpleMsg` | src/MsgQueue.cpp:50-71 | either the pool was exhausted and nothing changed, or a one-byte message is alive and pushed; success tells whether the queue had room, which it always has if the pool has no more header slots than the queue |
| `Inboxes.Inbox.FreshFits` | src/MsgQueue.cpp:22-33 | a live message that is not queued yet finds room in the queue if the pool has no more header slots than the queue |
| `Inboxes.PendingGrows` | src/Session.cpp:257-272 | a new message is not in the queue yet and may join it; the queue holds different live messages throughout |
| `Inboxes.PendingShrinks` | src/NetServer.cpp:27-74 | taking the front message out and freeing it leaves a queue of different live messages |
| `Sessions.SendIsExactIff` | src/Session.cpp:302-312 | SendMsg buffers exactly one whole frame if and only if the free space holds the header too |
| `Sessions.SendInWindow` | src/Session.cpp:302-312 | what is buffered where the data fits and the header does not beside it: the header alone if there is room for one, the data alone otherwise |
| `Sessions.SendKeepsStreamIff` | src/Session.cpp:302-312 | after a successful SendMsg the receiver decodes everything before, the data and everything later if and only if the free space held the header too, whatever part of the stream the network has taken already |
| `Sessions.Session.BufferMsg` | src/Session.cpp:280-313 | accepted exactly if both checks find the session active and the data fits; the bytes buffered before are not overwritten |
| `Sessions.WaitsIff` | src/Session.cpp:249-254 | the comparison between unsigned numbers waits for more bytes exactly if there is no whole frame and the length is not zero |
| `Sessions.Session.NextFrame` | src/Session.cpp:244-254 | a frame is found exactly when a whole frame of positive length is in front, and a length of zero is told apart |
| `Sessions.Session.ExtractMsg` | src/Session.cpp:240-278 | cuts frames off in order, each into a message of its own in a header slot, pushed and signalled in order; stops without a frame, at a length of zero, for want of memory (no slot, no block of the size, or malloc refusing) with the frame still buffered, or with a full queue, which never happens if the pool has no more header slots than the queue |
| `Sessions.Session.ExtractAndCompact` | src/Linux/SessionCompleteOperation.cpp:58-59 | the same, with the tail at the front of the buffer afterwards |
| `Sessions.Session.Receive` | src/Win/RecvHandler.cpp:8-19 | received bytes are appended, extracted and compacted; no free space is left exactly if the buffer was full and nothing could be extracted, for want of memory or under a length that is not positive or too long |
| `Sessions.FilledHolds` | src/Session.cpp:256-266 | each extracted message holds its own frame and all earlier messages are unchanged |
| `Sessions.PushedAllFits` | src/Session.cpp:271-276 | while there is room, the messages join the queue in stream order |
| `Sessions.ExtractedFacts` | src/Session.cpp:240-278 | what has been extracted and what is still buffered decode to the same frames as before, with the same tail |
| `Sessions.ExtractedKeepsPending` | src/Session.cpp:256-276 | the queue keeps holding different live messages, and queued and extracted ones together are no more than the live ones |
| `SessionIo.SessionCompleteOperation.Recv` | src/Linux/SessionCompleteOperation.cpp:40-82 | while bytes may arrive throughout the call: the bytes read are the next ones of the stream and sit behind the buffered ones; a would-block answer extracts and compacts; it fails exactly if a read gives an error other than would-block; unless it fails, the session is closed, without extraction, if and only if the peer has closed, or more has arrived by the end of the call than there was free space, or just as much where a read into no space answers 0 |
| `SessionIo.SessionCompleteOperation.ReadUntilStopped` | src/Linux/SessionCompleteOperation.cpp:49-81 | the loop loses and reorders no byte and counts them all; it reads everything that has arrived by its end, or ends as closed under that same condition, or fails exactly on an error of the socket |
| `SessionIo.SessionCompleteOperation.Send` | src/Linux/SessionCompleteOperation.cpp:84-129 | what the network has and what is buffered stay the same stream, whatever the network takes at a time, and the counter tells what it took; an active session goes on until nothing is buffered or the socket answers -1, once, and would-block compacts the buffer |
| `SessionIo.SessionCompleteOperation.SendMsg` | src/Session.cpp:280-330 | an accepted message is appended to the stream of sent and buffered bytes, and unless the session is found inactive by then or the socket refuses, all of it is sent at once; a refused message leaves stream and network alone |
| `WinSessions.WinSession.PostSendOperation` | src/Session.cpp:203-229 | the whole buffered data goes into flight |
| `WinSessions.WinSession.SendMsg` | src/Session.cpp:280-321 | while a send is in flight its bytes are neither moved nor overwritten and no second one is posted; otherwise what has been buffered goes into flight at once; the stream stays exact if and only if the message was refused or the free space held its header too |
| `WinSessions.WinSession.SendComplete` | src/Win/SendHandler.cpp:8-25 | what the network took leaves the front of the stream, the rest goes into flight again, and the flag falls exactly when nothing is left |
| `WinSessions.WinSession.RecvComplete` | src/Win/RecvHandler.cpp:8-19 | the bytes are appended, extracted in order and compacted; the next receive is posted on no space, which closes the session, exactly if the buffer was full and nothing could be extracted; the sending side is untouched |
| `WinSessions.StreamGrowsIff` | src/Session.cpp:302-312 | behind an exact stream, what SendMsg buffers is the next frame if and only if the header fits too |
| `WinSessions.WinSession.TakenIsPrefix` | src/Win/SendHandler.cpp:8-25 | at any time the other end decodes a prefix of what was accepted and the buffer completes it; when nothing is in flight it decodes all of it |
| `NetServer.Dispatch` | src/NetServer.cpp:40-58 | OnAccept, OnConnect, OnClose or OnReceive is called by the type of the message, with its session and, for OnReceive, the bytes that were received; no handler for any other type |
| `NetServer.HandleNext` | src/NetServer.cpp:22-75 | one token and one message are taken; the message is freed after its handler has run, the shutdown message is not |
| `NetServer.NetLoop` | src/NetServer.cpp:19-75 | until the shutdown message, a wait, or the flag being cleared by another thread: the handler sees the queued messages in queue order, exactly those are freed, and the queue keeps holding different live messages |
| `Delivery.QueueIsSmall` | src/MsgQueue.cpp:22-33 | different queued messages, with one more live message not queued, are fewer than the live ones |
| `Delivery.PushFindsRoom` | src/MsgQueue.cpp:22-33 | if no more messages can be alive at once than MSG_QUEUE_SIZE, no push is ever refused |
| `Delivery.InvariantKept` | src/Session.cpp:240-278 | every atomic step of any thread keeps ownership of messages, token accounting and the contents of every channel |
| `Delivery.InvariantOfRun` | src/Session.cpp:240-330 | the same over every run |
| `Delivery.EndToEndFifo` | src/Session.cpp:240-330 | in every reachable state, for every connection, if no more messages can be alive than MSG_QUEUE_SIZE: delivered ++ held ++ queued ++ in hand ++ decoded(receive buffer ++ wire ++ send buffer) are the accepted payloads, with nothing undecodable left |
| `Delivery.DeliveredAtRest` | src/NetServer.cpp:22-75 | once buffers, wire and queue are empty the handler has seen exactly what was accepted |
| `Delivery.SemaphoreCountsQueue` | src/MsgQueue.cpp:22-48 | tokens, outstanding posts and a consumer past its wait add up to the queue length: RemoveMsg never gives NULL and no message is stranded |
| `Delivery.EmptyRemovesAreBounded` | src/NetServer.cpp:22-33 | even with refused pushes, there are no more NULL messages than refusals and never fewer wake-ups than messages |
| `Delivery.HandOverIsNeverBlocked` | src/Session.cpp:257-277 | a thread in the middle of handing a message over can always go on |
| `Overflow.SomeRunLosesAMessage` | src/Session.cpp:269-276 | for every configuration in which more messages can be alive than the queue has slots: a run, with slots and blocks that the pool has, that loses an accepted message for good |
| `Overflow.NothingIsLostIff` | include/ConstConfigData.h:26-44 | for all numbers of header slots, lists, blocks, queue slots and buffer bytes: every run keeps all messages if and only if the most messages that can be alive (header slots, or blocks of the lists that frames fitting the buffer can reach, if all of them are pooled) are no more than MSG_QUEUE_SIZE, or no frame fits at all |
| `Overflow.AsManySlotsAsMessages` | include/ConstConfigData.h:36-44 | MSG_COUNT_MAX <= MSG_QUEUE_SIZE, as in both shipped configurations, is enough for that |
| `Refinement.RoundIsFourSteps` | src/Session.cpp:240-278 | one round of the extraction loop, as the method is proved to act, is the steps allocate, consume, push, post |
| `Refinement.ExtractionIsARun` | src/Session.cpp:240-278 | every extraction that the contract of ExtractMsg admits, with slots of the pool as it promises, is a run of the system that ends in the observed state and changes nothing else |
| `Refinement.ExtractMsgIsARun` | src/Session.cpp:240-278 | each call of ExtractMsg on a session, a pool and a queue that look like a state of the system is a run of the system from that state |
| `Refinement.NotificationIsARun` | src/MsgQueue.cpp:50-71 | what InsertSimpleMsg does with a slot of the pool is three steps of the system |
| `Refinement.InsertSimpleMsgIsARun` | src/MsgQueue.cpp:50-71 | each call of InsertSimpleMsg, whether the pool gives a slot or not, is a run of the system |
| `Refinement.ConsumerRoundIsARun` | src/NetServer.cpp:22-75 | a round of NetLoop on a message other than the shutdown message is four steps of the system |
| `Refinement.RoundIsARun` | src/NetServer.cpp:22-75 | so is every round, also on an empty queue and on the shutdown message |
| `Refinement.HandleNextIsARun` | src/NetServer.cpp:22-75 | each call of the loop body is a run of the system that delivers to the channel what the handler is called with |
| `Refinement.SendIsAStep` | src/Session.cpp:302-312 | SendMsg with room for the whole frame behind the end cursor is the sending step of the system, with the same new state |
| `Refinement.SendMsgIsARun` | src/Session.cpp:280-330 | each call of SendMsg on Linux that is not in the window of two sizes is a run: the sending step if it is accepted, and the bytes the network takes move onto the wire |
| `Refinement.RecvIsARun` | src/Linux/SessionCompleteOperation.cpp:40-82 | each call of Recv, unless the session is closed with the buffer filled up, is a run: lock, read what was read off the wire, extract, unlock |
| `Refinement.RecvCompleteIsARun` | src/Win/RecvHandler.cpp:8-19 | so is each completed receive on Windows |
| `Refinement.SendCompleteIsARun` | src/Win/SendHandler.cpp:8-25 | so is each completed send: the bytes taken move from the send buffer to the wire |
| `Refinement.ReceiptIsARun` | src/Session.cpp:240-278 | reading some bytes and any extraction that the contract admits afterwards is a run that ends in the observed state |
| `Workers.AsyncOperationQueue.InsertAsyncOperation` | src/Linux/AsyncOperationQueue.cpp:20-31 | appended unless the queue is full; the semaphore is posted in either case |
| `Workers.AsyncOperationQueue.RemoveAsyncOperation` | src/Linux/AsyncOperationQueue.cpp:33-46 | the oldest operation, or an undefined one exactly when the queue is empty |
| `Workers.InvariantKept` | src/Linux/WorkerThread.cpp:20-37 | every step of every producer, worker and of Shutdown keeps accounting, order, flags and supply of stop tokens |
| `Workers.NoWakeUpIsLost` | src/Linux/AsyncOperationQueue.cpp:20-46 | in every run, overflow included: wake-ups exceed queued operations by refused pushes minus empty looks, and all workers together take out the accepted operations in order |
| `Workers.AcceptedIsCompleted` | src/Linux/WorkerThread.cpp:22-34 | in every run each accepted operation with a target has been completed, is in the hands of one worker, or is still queued, as often as it was accepted; with queue and hands empty, exactly the accepted ones have been completed |
| `Workers.TakenIsCompleted` | src/Linux/WorkerThread.cpp:26-33 | whatever its flag says by then, a worker calls Complete for what it has taken out, with that very operation |
| `Workers.CrashNeedsOverflow` | src/Linux/WorkerThread.cpp:22-34 | while no push has been refused no worker finds the queue empty or calls Complete through an undefined pointer, and a stop token always ends its worker |
| `Workers.OverflowsAreRefused` | src/Linux/AsyncOperationQueue.cpp:20-31 | over every run the refused pushes are the insertions that met a full queue |
| `Workers.AstrayCount` | src/Linux/WorkerThread.cpp:22-34 | for every run: workers that crashed or are about to, plus wake-ups beyond the queued operations, are exactly the insertions that met a full queue |
| `Workers.CrashIffOverflow` | src/Linux/WorkerThread.cpp:22-34 | once the wake-ups are down to one for each queued operation, some worker has crashed or is about to if and only if some insertion met a full queue |
| `Workers.AstrayStays` | src/Linux/WorkerThread.cpp:26-33 | a worker that came back from an empty queue can only crash, and stays crashed |
| `Workers.RankFalls` | src/Linux/WorkerThread.cpp:22-34 | from the moment the last flag is down each step of a worker brings the workers nearer to their end and no other step sets them back |
| `Workers.ShutdownIsBounded` | src/TCPStream.cpp:131-161 | from then on all n workers together take at most 6n more steps under any interleaving |
| `Workers.SomeWorkerCanStep` | src/TCPStream.cpp:139-161 | after the last stop token has been posted no worker waits for ever |
| `Workers.ShutdownGoesOn` | src/TCPStream.cpp:131-161 | nothing holds Shutdown up: until the last stop token is posted it has a step to take, and there are 3n + 2 of them |
| `Workers.AllWorkersExit` | src/TCPStream.cpp:131-161 | from the moment the last flag is down every worker uses at most one more token, and when none can step any more all have exited, provided no push was refused |
| `Workers.SomeRunCrashes` | src/Linux/WorkerThread.cpp:24-33 | for every capacity, a run in which one refused push makes a worker call Complete through an undefined pointer |
| `Locks.PathsAreRanked` | src/Linux/SessionCompleteOperation.cpp:40-159 | every path through the modelled entry points, with any calls that a message handler makes between logging and freeing, takes locks in strictly rising rank, releases what it takes, works on buffers, pools, queues, ids and log only under their locks, and waits on semaphores holding none |
| `Locks.OrderlyKept` | include/MutexGuard.h:28-56 | every step of every thread keeps the lock order and mutual exclusion |
| `Locks.WantedRises` | src/Linux/SessionCompleteOperation.cpp:131-134 | along a chain of threads that wait for each other the wanted locks rise in rank |
| `Locks.NoCircle` | src/Linux/SessionCompleteOperation.cpp:40-159 | no chain of waiting threads closes into a circle |
| `Locks.Climb` | src/Linux/SessionCompleteOperation.cpp:131-134 | from any thread that holds or wants a lock, following who waits for whom ends in a thread that can step |
| `Locks.NoDeadlock` | src/Linux/SessionCompleteOperation.cpp:40-159 | for any number of threads and sessions, in every reachable state: no threads wait for each other in a circle, and every thread that holds or wants a lock can step or waits, directly or through others, for one that can |
| `Locks.NoRace` | src/Linux/SessionCompleteOperation.cpp:40-159 | in every reachable state, whoever is about to work on a buffer, pool, queue, the ids or the log holds its lock, nobody else does, and no other thread is about to work on it |
| `Locks.RecvWorks` | src/Linux/SessionCompleteOperation.cpp:40-82 | a read works on its own session's receive buffer and no other unless the session is inactive, and on pool and queue once for each frame and message; only one that ends as closed clears the status and queues an operation |
| `Locks.SendWorks` | src/Session.cpp:280-330 | SendMsg works on its own session's send buffer only: to fill it, and once more to drain it |
| `Locks.CloseWorks` | src/Linux/SessionCompleteOperation.cpp:131-159 | closing works on both sides of the session and on its status |
| `Locks.GuardIsBalancedIff` | include/MutexGuard.h:42-56 | a guard gives its mutex up exactly once however often UnLock is called; it goes wrong if and only if Lock is called on a guard that owns its mutex |
| `Locks.MutexGuard.constructor` | include/MutexGuard.h:28-33 | the new guard owns the mutex after one acquisition |
| `Locks.MutexGuard.Lock` | include/MutexGuard.h:41-46 | one acquisition, and the guard owns the mutex |
| `Locks.MutexGuard.UnLock` | include/MutexGuard.h:48-56 | one release if the guard owned the mutex, none otherwise |
| `Registries.RoomToPush` | include/Stack.h:57-72 | a stack of different ids of the range with one id missing has room for it |
| `Registries.FirstIdIs1000` | src/SessionMgr.cpp:18-26 | the ids are 1000 and up, all stacked, inactive and without an entry |
| `SessionMgrs.SessionMgr.constructor` | src/SessionMgr.cpp:13-26 | ids 1000 to 1000+N-1 are on the stack, inactive and without an entry; no slot is held |
| `SessionMgrs.SessionMgr.GenerateSessionID` | src/SessionMgr.cpp:104-119 | takes the id off the top of the stack and makes it active, and no other, or returns 0 and changes nothing exactly when there is none |
| `SessionMgrs.SessionMgr.InsertSession` | src/SessionMgr.cpp:121-134 | the entry of the id carried by the session is the session |
| `SessionMgrs.SessionMgr.RemoveSession` | src/SessionMgr.cpp:136-157 | the status falls in any case; the entry goes and the id returns to the stack exactly when the id is known and the stack has room |
| `SessionMgrs.SessionMgr.AllocateSession` | include/SessionPool.h:49-64 | a slot nobody holds, filled with the session, or NULL exactly when all slots are held |
| `SessionMgrs.SessionMgr.DeallocateSession` | include/SessionPool.h:66-77 | the slot is free again and the other sessions are unchanged |
| `SessionMgrs.SessionMgr.CreateSession` | src/SessionMgr.cpp:34-61 | fails exactly when every id belongs to a live session, and then changes nothing; otherwise adds one session with the id from the top of the stack and a fresh slot, active and found under its id |
| `SessionMgrs.SessionMgr.DestroySession` | src/SessionMgr.cpp:63-70 | removing a live session never fails: its id is back on the stack and inactive, its entry NULL, its slot free, and the others are unchanged |
| `SessionMgrs.SessionMgr.SetSessionActive` | src/SessionMgr.cpp:179-192 | changes the status of a known id and nothing else; clearing it, or setting it for a live session, keeps the manager in order |
| `SessionMgrs.SessionMgr.GetSession` | src/SessionMgr.cpp:159-167 | the session that carries the id, or NULL exactly if no session with it is live |
| `SessionMgrs.SessionMgr.DestroyAllSessions` | src/SessionMgr.cpp:72-102 | no session, no held slot and every id on the stack afterwards; the sockets closed are exactly those of the sessions that were live and active, in ascending order of their ids |
| `SessionMgrs.SlotForId` | src/SessionMgr.cpp:36-55 | a free id always comes with a free slot |
| `SessionIds.InvariantKept` | src/SessionMgr.cpp:104-157 | every critical section of every thread keeps ids and slots split between stack, free list and their holders |
| `SessionIds.IdPartition` | src/SessionMgr.cpp:104-157 | in every run with any number of threads: no id twice on the stack; each id is either there or with exactly one thread or session or lost; free ids are inactive with a NULL entry; no two sessions or threads share an id or a slot |
| `SessionIds.ActiveIff` | src/SessionMgr.cpp:104-192 | over every run: an id is active from the moment a create takes it, and a session in use is active if and only if nobody has begun to close it since it was created |
| `SessionIds.RemovalSucceeds` | src/SessionMgr.cpp:136-157 | destroying a session in use always finds its entry and room on the stack, under any interleaving |
| `SessionIds.NothingLostIff` | src/SessionMgr.cpp:34-54 | over every run, ids are lost if and only if some create comes to an empty pool, and a lost id never returns |
| `SessionIds.NoSlotNeedsHalfDestroyed` | src/SessionMgr.cpp:63-70 | a create comes to an empty pool only while some destroy has given back an id but not yet its slot |
| `SessionIds.SomeRunLosesAnId` | src/SessionMgr.cpp:34-70 | for every number of ids, a run of two threads after which nothing is under way, a slot is free, and an id is lost |
| `ConfigReaders.ConfigReader.ParseLine` | src/ConfigReader.cpp:44-90 | the index arithmetic, size_t wrap-around included, stores the key and value that the structure of the line means, keeps an earlier value, and throws exactly when no value is left |
| `ConfigReaders.ConfigReader.Init` | src/ConfigReader.cpp:15-42 | the lines are parsed in order up to the first that throws |
| `ConfigReaders.ReadLines` | src/ConfigReader.cpp:24-31 | the getline loop reads the lines of up to 99 characters before the first longer one |
| `ConfigReaders.KeyFound` | src/ConfigReader.cpp:60-63 | the key found by searching both ways is the trimmed text before the =, or what begins with the = when there is only blank space before it |
| `ConfigReaders.QuotedFound` | src/ConfigReader.cpp:65-80 | a quoted value runs from behind the first quote to in front of the last character that is not blank |
| `ConfigReaders.UnquotedFound` | src/ConfigReader.cpp:82-87 | any other value is the trimmed text that begins two characters behind the = |
| `ConfigRoundTrips.IgnoredIff` | src/ConfigReader.cpp:46-79 | a line is passed over if and only if it has a # anywhere, no =, or a single quote behind the = with nothing but blanks after it |
| `ConfigRoundTrips.QuotedRoundTrip` | src/ConfigReader.cpp:71-81 | key = "s" comes back as (key, s), for any blanks, with s possibly empty and holding quotes and = |
| `ConfigRoundTrips.UnquotedRoundTripIff` | src/ConfigReader.cpp:82-87 | key=v comes back as (key, v) if and only if a blank follows the =; without it the first character is lost, or a one-character value throws |
| `ConfigRoundTrips.LinesRoundTrip` | src/ConfigReader.cpp:20-31 | joined lines are read back one by one, up to the first of 100 characters or more |
| `ConfigRoundTrips.FirstLineWins` | src/ConfigReader.cpp:33-39 | over a whole file each key has the value of the first line that stores it, and there are no other keys |
| `ConfigRoundTrips.LoadThrowsIff` | src/ConfigReader.cpp:33-39 | reading ends with an exception if and only if some line throws |
| `ConfigRoundTrips.FileRoundTripIff` | src/ConfigReader.cpp:15-90 | a file written from settings with different keys brings all of them back if and only if each is quoted or has a blank behind its = |

## Left out

- Sockets, epoll, completion ports, listening, accepting, connecting, addresses: foreign calls, replaced by
  nondeterministic answers.
- Creating, cancelling and joining threads, the dispatcher and its edge-triggered events: for the receive path on
  Linux only safety is claimed.
- Object lifetimes around Close: a session's mutexes are destroyed while guards on them are in scope.
- The text of log entries, the message handler itself, `Singleton`, the getters of `Config` and `ReadInteger`,
  which only reads a number with a stream.
- SessionIo.SessionCompleteOperation.Recv: an end as closed is a result of the call; the cleared status and the queued
  close operation that follow it are steps of `SessionIds` and `Workers`, and so is what Close does to the manager.
- The entries and statuses that SessionActive, GetSession and DestroyAllSessions read without a lock: `Locks.NoRace` is
  about where they are changed.
- NetServer.NetLoop: ends where the code would go on waiting on the semaphore, because no other thread takes a step in
  it; the waiting, and the threads that end it, are steps of `MsgSystem`.
- The number of receives that NetLoop counts for its log entry.
- `WorkerThread::Run` and `TCPStream::Shutdown` are steps of the machine in `Workers.dfy`, not methods: what matters
  about them is their interleaving.
- The time Complete takes: a worker is assumed to come back from it, and to insert at most one operation of its own
  each time.
- Locks.NoDeadlock: a mutex is given up by its path's own steps; fairness of the scheduler is not modelled, so it
  says who can step, not that each one does.
- Sessions.Session.ExtractMsg: stops at a frame length of zero, because what the code does there is undefined.
- Sessions.Session.BufferMsg: the bytes that memcpy puts behind the array in the window of two sizes are dropped, where
  the code changes its own begin cursor and what follows is undefined.
- WinSessions.WinSession.SendMsg: drops the same bytes.
- Refinement.SendMsgIsARun: leaves out that window, in which the stream is corrupt and the system has no such step.
- Refinement.RecvIsARun: leaves out a call that fills the buffer where that closes the session, because the system never
  lets in the last byte there.
- MsgPools.MsgPool.AllocateMsg: is stated for 1 to 32767 bytes, the sizes a frame can carry; what other sizes do to
  the stored size is `MsgPools.RouteIsKeptIff`.
- Layout.RoundUpIsBlockSize: needs an alignment that is a power of two, as the mask does.
- Workers.AllWorkersExit: supposes that no push was refused, because of `Workers.SomeRunCrashes`.
- Delivery.EndToEndFifo: senders offer 1 to 32767 bytes, and only where the frame fits with its header. What a closed
  connection has not delivered stays in its buffers and on its wire, and still counts as not lost.
- SessionIds.IdPartition: DestroyAllSessions, which takes no lock of its own, is not among the interleaved steps.
