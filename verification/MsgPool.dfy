// The message pool: a payload block and a header slot per message, taken together or not at all.
module MsgPools {
  import opened Allocators
  import opened Containers
  import opened FreeLists
  import opened Framing
  import opened UniSizeAllocators
  import Layout

  datatype MsgType = Invalid | AcceptExternal | AcceptInternal | Connect | Close | Recv | Shutdown

  /** A message header. Its size field is a signed short. */
  datatype Msg = Msg(kind: MsgType, session: int, size: int, data: Ptr)

  /** What the client of the pool knows of a live message; the payload is unknown until it is filled in. */
  datatype LiveMsg = LiveMsg(kind: MsgType, session: int, size: nat, payload: Option<Payload>)

  const SIZE_T := 0x1_0000_0000_0000_0000

  /** static_cast<short> of a size_t. */
  function ToShort(size: nat): (h: int)
    ensures -SHORT_MAX - 1 <= h <= SHORT_MAX
  {
    var low := size % 65536;
    if low <= SHORT_MAX then low else low - 65536
  }

  /** Conversion of a short back to size_t. */
  function ToSizeT(h: int): int {
    if h < 0 then h + SIZE_T else h
  }

  /** The route of a request through the allocator. */
  datatype Route = Misrouted | Pooled(list: nat) | ToSystem

  function RouteOf(size: int, align: nat, bytesMax: nat): Route
    requires align > 0
  {
    if bytesMax < size then ToSystem
    else if size <= 0 then Misrouted
    else Pooled(Layout.FreeListIndex(size, align))
  }

  /**
   * DeallocateMsg routes by the stored short. A payload goes back where it came from exactly when a pooled
   * request fits the short, or the low sixteen bits of any other still name a size above the pooled ones,
   * as those above 32767 do, for they come back as huge numbers. Every request of 1 to 32767 bytes is kept.
   */
  lemma RouteIsKeptIff(size: nat, align: nat, bytesMax: nat)
    requires 0 < size < SIZE_T && 0 < align <= 65536 && bytesMax < SIZE_T - 32768
    ensures RouteOf(ToSizeT(ToShort(size)), align, bytesMax) == RouteOf(size, align, bytesMax)
            <==> if size <= bytesMax then size <= SHORT_MAX else size % 65536 > bytesMax || size % 65536 > SHORT_MAX
    ensures size <= SHORT_MAX ==> ToSizeT(ToShort(size)) == size
  {
    var low := size % 65536;
    if 0 < low <= SHORT_MAX < size {
      IndexRises(low, size, align);
    }
  }

  /** Sizes that are a block apart are in different lists. */
  lemma IndexRises(small: nat, large: nat, align: nat)
    requires 0 < small && 0 < align && small + align <= large
    ensures Layout.FreeListIndex(small, align) != Layout.FreeListIndex(large, align)
  {
    Layout.ClassServesRequest(small, align);
    Layout.ClassServesRequest(large, align);
  }

  class MsgPool {
    const slab: Allocator
    const headers: UniSizeAllocator<Msg>
    ghost var live: map<nat, LiveMsg>

    ghost function Repr(): set<object> {
      {this} + slab.Repr() + headers.Repr()
    }

    /** The message in slot m is the header stored there, with its payload block. */
    ghost predicate MsgOk(m: nat)
      reads Repr()
    {
      && m in live && m < headers.mem.Length
      && headers.mem[m].Client?
      && var msg := headers.mem[m].value;
         var known := live[m];
      && msg.kind == known.kind && msg.session == known.session && msg.size == known.size
      && 0 < known.size <= SHORT_MAX
      && slab.Owns(msg.data, known.size)
      && (known.payload.Some? ==>
            |known.payload.value| == known.size && slab.Read(msg.data, known.size) == Stored(known.payload.value))
    }

    ghost function DataOf(m: nat): Ptr
      reads headers.mem
    {
      if m < headers.mem.Length && headers.mem[m].Client? then headers.mem[m].value.data else Null
    }

    ghost predicate Valid()
      reads Repr()
    {
      && Apart()
      && slab.Valid() && headers.Valid()
      && live.Keys == headers.held
      && MessagesOk()
    }

    ghost predicate Apart() {
      slab.Repr() !! headers.Repr() && this !in slab.Repr() && this !in headers.Repr()
    }

    ghost predicate MessagesOk()
      reads Repr()
    {
      && (forall m | m in live :: MsgOk(m))
      && (forall m, m' | m in live && m' in live && m != m' :: DataOf(m) != DataOf(m'))
    }

    /** No live message has its payload in this block. */
    ghost predicate Unowned(data: Ptr)
      reads this, headers.mem
    {
      forall m | m in live :: DataOf(m) != data
    }

    constructor (lists: nat, elementCount: nat, msgSize: nat, msgCountMax: nat)
      requires lists > 0 && elementCount > 0 && msgSize > 0 && msgCountMax > 0
      ensures Valid() && fresh(slab.Repr()) && fresh(headers.Repr())
      ensures live == map[] && |headers.slots| == msgCountMax
      ensures slab.align == 8 && slab.bytesMax == lists * 8 && slab.Lists() == lists
      ensures forall i | 0 <= i < lists :: |slab.blocks[i]| == elementCount
      ensures headers.chain != [] && forall i | 0 <= i < lists :: slab.chains[i] != []
      ensures slab.big == map[]
    {
      hide Allocator.Valid, UniSizeAllocator.Valid, AllClassAddresses, ClassSizes, ToSets, Layout.ListStart, SlotSet,
          Addresses;
      slab := new Allocator(lists, elementCount);
      headers := new UniSizeAllocator<Msg>(msgSize, msgCountMax);
      live := map[];
      SlotCount(msgSize, msgCountMax);
    }

    /** With every block and every slot free, any pooled request succeeds. */
    lemma NotExhausted(size: nat, sys: Option<nat>)
      requires Valid() && headers.chain != [] && forall i | 0 <= i < slab.Lists() :: slab.chains[i] != []
      requires 0 < size <= slab.bytesMax
      ensures !Exhausted(size, sys)
    {
    }

    /** No more messages are alive than there are header slots. */
    lemma LiveIsBounded()
      requires Valid()
      ensures |live| <= |headers.slots|
    {
      headers.Conservation();
      assert |live| == |live.Keys|;
    }

    /** The whole state of the two allocators, for saying that it has not changed at all. */
    twostate predicate Untouched()
      reads Repr()
    {
      && live == old(live)
      && slab.chains == old(slab.chains) && slab.held == old(slab.held) && slab.big == old(slab.big)
      && slab.mem[..] == old(slab.mem[..])
      && headers.chain == old(headers.chain) && headers.held == old(headers.held)
      && headers.mem[..] == old(headers.mem[..])
    }

    /** Why AllocateMsg fails: the payload cannot be had, or no header slot is free. */
    ghost predicate Exhausted(size: nat, sys: Option<nat>)
      requires Valid() && size > 0
      reads Repr()
    {
      || (if size <= slab.bytesMax then slab.chains[slab.Index(size)] == [] else sys == None)
      || headers.chain == []
    }

    /** Why the pool has failed a request: no header slot, no block in the list, or malloc has refused. */
    ghost predicate Starved(size: nat, refused: bool)
      reads Repr()
    {
      || headers.chain == []
      || (size > slab.bytesMax && refused)
      || (0 < size <= slab.bytesMax && slab.align > 0
          && slab.Index(size) < |slab.chains| && slab.chains[slab.Index(size)] == [])
    }

    /** A message gets both its blocks, or the pool is left exactly as it was. */
    method AllocateMsg(size: nat, sys: Option<nat>) returns (m: Option<nat>)
      requires Valid()
      requires 0 < size <= SHORT_MAX
      requires sys.Some? ==> sys.value !in slab.big
      modifies Repr()
      ensures Valid()
      ensures m == None <==> old(Exhausted(size, sys))
      ensures m == None ==> Untouched() && Starved(size, sys == None)
      ensures m.Some? ==> m.value !in old(live) && m.value in headers.slots
      ensures m.Some? ==> live == old(live)[m.value := LiveMsg(Invalid, 0, size, None)]
    {
      hide Valid;
      WhyStarved(size, sys);
      ghost var chains, held, big, mem := slab.chains, slab.held, slab.big, slab.mem[..];
      var data := TakeData(size, sys);
      if data != Null {
        ghost var taken, taken2, taken3, mid := slab.chains, slab.held, slab.big, slab.mem[..];
        m := TakeHeader(size, data);
        if m == None {
          GiveDataBack(data, size);
          if size <= slab.bytesMax {
            var i := slab.Index(size);
            BackInPlace(chains, taken, slab.chains, i, [data.addr] + taken[i]);
            BackInPlace(held, taken2, slab.held, i, taken2[i] - {data.addr});
            BackInPlace(mem, mid, slab.mem[..], data.addr, Link(HeadOf(taken[i])));
          }
        }
      } else {
        m := None;
      }
    }

    lemma WhyStarved(size: nat, sys: Option<nat>)
      requires Valid() && size > 0
      ensures Exhausted(size, sys) ==> Starved(size, sys == None)
    {
    }

    /** The payload block that was just taken was the first free one of its list. */
    twostate predicate DataTaken(data: Ptr, size: nat)
      requires size > 0 && slab.align > 0
      reads slab, slab.mem
    {
      && (size <= slab.bytesMax ==>
            var i := slab.Index(size);
            && i < |slab.chains| == |old(slab.chains)| && i < |slab.held| == |old(slab.held)|
            && data.Slab? && data.addr < slab.mem.Length && data.addr !in old(slab.held[i])
            && old(slab.chains[i]) == [data.addr] + slab.chains[i]
            && slab.chains == old(slab.chains)[i := slab.chains[i]]
            && slab.held == old(slab.held)[i := old(slab.held)[i] + {data.addr}]
            && slab.big == old(slab.big)
            && slab.mem[data.addr] == Link(HeadOf(slab.chains[i])))
      && (size > slab.bytesMax ==>
            && data.System? && data.handle in slab.big && data.handle !in old(slab.big)
            && slab.chains == old(slab.chains) && slab.held == old(slab.held)
            && slab.big == old(slab.big)[data.handle := slab.big[data.handle]])
    }

    /** Alloc::allocate as the pool sees it: no live message is affected, and none owns the new block. */
    method TakeData(size: nat, sys: Option<nat>) returns (data: Ptr)
      requires Valid()
      requires 0 < size <= SHORT_MAX
      requires sys.Some? ==> sys.value !in slab.big
      modifies slab, slab.freeList
      ensures Valid()
      ensures data == Null <==> if size <= slab.bytesMax then old(slab.chains[slab.Index(size)]) == [] else sys == None
      ensures data == Null ==>
                slab.chains == old(slab.chains) && slab.held == old(slab.held) && slab.big == old(slab.big)
      ensures data != Null ==> slab.Owns(data, size) && DataTaken(data, size)
      ensures data != Null ==> Unowned(data)
    {
      if size <= slab.bytesMax && slab.chains[slab.Index(size)] != [] {
        slab.FirstLink(slab.Index(size));
      }
      data := slab.Allocate(size, sys);
      forall m | m in live
        ensures MsgOk(m) && DataOf(m) != data
      {
        assert old(MsgOk(m));
      }
    }

    /** m_MsgAlloc.allocate and the construction of the header in the slot. */
    method TakeHeader(size: nat, data: Ptr) returns (m: Option<nat>)
      requires Valid()
      requires 0 < size <= SHORT_MAX
      requires slab.Owns(data, size) && Unowned(data)
      modifies `live, headers, headers.mem
      ensures Valid()
      ensures m == None <==> old(headers.chain) == []
      ensures m == None ==>
                live == old(live) && headers.chain == old(headers.chain) && headers.held == old(headers.held)
      ensures m == None ==> headers.mem[..] == old(headers.mem[..])
      ensures m.Some? ==> m.value !in old(live) && m.value in headers.slots
      ensures m.Some? ==> live == old(live)[m.value := LiveMsg(Invalid, 0, size, None)]
    {
      var header := ToShort(size);
      assert header == size;
      hide ToShort, Allocator.Valid, Allocator.Owns, Allocator.Read, UniSizeAllocator.Valid;
      var slot := headers.Allocate();
      assert MessagesOk() && Unowned(data) by {
        assert forall m | m in live :: old(MsgOk(m)) ==> MsgOk(m);
      }
      if slot == NULL {
        return None;
      }
      ConstructHeader(slot, Msg(Invalid, 0, header, data), size);
      return Some(slot);
    }

    /** Placement new of a header in a slot that has just been taken. */
    method ConstructHeader(slot: nat, header: Msg, size: nat)
      requires Apart() && slab.Valid() && headers.Valid()
      requires slot in headers.held && slot !in live && slot < headers.mem.Length
      requires live.Keys == headers.held - {slot}
      requires MessagesOk() && Unowned(header.data)
      requires header == Msg(Invalid, 0, size, header.data)
      requires 0 < size <= SHORT_MAX && slab.Owns(header.data, size)
      modifies `live, headers.mem
      ensures Valid()
      ensures live == old(live)[slot := LiveMsg(Invalid, 0, size, None)]
    {
      hide Allocator.Valid, Allocator.Owns, Allocator.Read, UniSizeAllocator.Valid;
      headers.Write(slot, header);
      live := live[slot := LiveMsg(Invalid, 0, size, None)];
      forall m | m in live
        ensures MsgOk(m)
      {
        if m != slot {
          assert old(MsgOk(m));
        }
      }
    }

    /** Alloc::deallocate of a payload block that no message owns. */
    method GiveDataBack(data: Ptr, size: nat)
      requires Valid()
      requires 0 < size <= SHORT_MAX
      requires slab.Owns(data, size) && Unowned(data)
      modifies slab, slab.mem, slab.freeList
      ensures Valid()
      ensures size <= slab.bytesMax ==>
                var i := slab.Index(size);
                && slab.chains == old(slab.chains)[i := [data.addr] + old(slab.chains[i])]
                && slab.held == old(slab.held)[i := old(slab.held)[i] - {data.addr}]
                && slab.big == old(slab.big)
                && data.addr < slab.mem.Length
                && slab.mem[..] == old(slab.mem[..])[data.addr := Link(HeadOf(old(slab.chains[i])))]
      ensures size > slab.bytesMax ==>
                && slab.chains == old(slab.chains) && slab.held == old(slab.held)
                && slab.big == old(slab.big) - {data.handle}
                && slab.mem[..] == old(slab.mem[..])
    {
      slab.Deallocate(data, size);
      forall m | m in live
        ensures MsgOk(m)
      {
        assert old(MsgOk(m));
      }
    }

    /** The producer sets the type and the session of a message it has allocated. */
    method Label(m: nat, kind: MsgType, session: int)
      requires Valid()
      requires m in live
      modifies `live, headers.mem
      ensures Valid()
      ensures live == old(live)[m := old(live[m]).(kind := kind, session := session)]
    {
      hide Allocator.Valid, Allocator.Owns, Allocator.Read, UniSizeAllocator.Valid;
      assert MsgOk(m);
      headers.Write(m, headers.mem[m].value.(kind := kind, session := session));
      live := live[m := live[m].(kind := kind, session := session)];
      forall m' | m' in live
        ensures MsgOk(m') && DataOf(m') == old(DataOf(m'))
      {
        assert old(MsgOk(m'));
      }
    }

    /** memcpy of the payload into the message's block. */
    method Fill(m: nat, payload: Payload)
      requires Valid()
      requires m in live && |payload| == live[m].size
      modifies `live, slab`big, slab.mem
      ensures Valid()
      ensures live == old(live)[m := old(live[m]).(payload := Some(payload))]
      ensures slab.big.Keys == old(slab.big.Keys)
    {
      hide Allocator.Valid, Allocator.Owns, Allocator.Read, UniSizeAllocator.Valid;
      assert MsgOk(m);
      var msg := headers.mem[m].value;
      slab.Write(msg.data, msg.size, 0, payload);
      assert slab.Read(msg.data, msg.size) == Stored(payload);
      live := live[m := live[m].(payload := Some(payload))];
      forall m' | m' in live
        ensures MsgOk(m')
      {
        assert old(MsgOk(m'));
        assert m' != m ==> old(DataOf(m')) != old(DataOf(m));
      }
    }

    /** What a consumer reads behind the message's data pointer. */
    method ReadPayload(m: nat) returns (payload: Payload)
      requires Valid()
      requires m in live && live[m].payload.Some?
      ensures payload == live[m].payload.value
    {
      assert MsgOk(m);
      var msg := headers.mem[m].value;
      slab.ReadLength(msg.data, msg.size);
      payload := [];
      for i := 0 to msg.size
        invariant payload == live[m].payload.value[..i]
      {
        var cell := if msg.data.Slab? then slab.mem[msg.data.addr + i] else slab.big[msg.data.handle][i];
        assert cell == slab.Read(msg.data, msg.size)[i];
        payload := payload + [cell.value];
      }
    }

    /** Gives both blocks back: the payload by the size stored in the header, then the header. */
    method DeallocateMsg(m: nat)
      requires Valid()
      requires m in live
      modifies Repr()
      ensures Valid()
      ensures live == old(live) - {m}
      ensures headers.chain == [m] + old(headers.chain)
      ensures old(live[m].size) <= slab.bytesMax ==>
                var i := slab.Index(old(live[m].size));
                old(DataOf(m)).Slab? && slab.chains
                    == old(slab.chains)[i := [old(DataOf(m)).addr] + old(slab.chains[i])]
      ensures old(live[m].size) > slab.bytesMax ==>
                old(DataOf(m)).System? && slab.big == old(slab.big) - {old(DataOf(m)).handle}
    {
      hide Allocator.Valid, UniSizeAllocator.Valid;
      FreePayload(m);
      label payloadFreed:
      headers.Deallocate(m);
      forall m' | m' in live
        ensures MsgOk(m') && DataOf(m') == old@payloadFreed(DataOf(m'))
      {
        assert old@payloadFreed(MsgOk(m'));
      }
    }

    /** Alloc::deallocate of the payload of a message that is going away. */
    method FreePayload(m: nat)
      requires Valid()
      requires m in live
      modifies `live, slab, slab.mem, slab.freeList
      ensures Apart() && slab.Valid() && headers.Valid()
      ensures live == old(live) - {m} && MessagesOk()
      ensures old(live[m].size) <= slab.bytesMax ==>
                var i := slab.Index(old(live[m].size));
                DataOf(m).Slab? && slab.chains == old(slab.chains)[i := [DataOf(m).addr] + old(slab.chains[i])]
      ensures old(live[m].size) > slab.bytesMax ==>
                DataOf(m).System? && slab.big == old(slab.big) - {DataOf(m).handle}
    {
      assert MsgOk(m);
      var msg := headers.mem[m].value;
      assert if msg.size <= slab.bytesMax then msg.data.Slab? else msg.data.System?;
      hide Allocator.Valid, Allocator.Owns, Allocator.Read, UniSizeAllocator.Valid;
      live := live - {m};
      slab.Deallocate(msg.data, msg.size);
      forall m' | m' in live
        ensures MsgOk(m')
      {
        assert old(MsgOk(m'));
        assert old(DataOf(m')) != old(DataOf(m));
      }
    }
  }

  /** An element that has been replaced and put back. */
  lemma {:induction false} BackInPlace<T>(s: seq<T>, t: seq<T>, u: seq<T>, i: nat, x: T)
    requires i < |s| == |t| && (forall k | 0 <= k < |s| && k != i :: t[k] == s[k])
    requires u == t[i := x] && x == s[i]
    ensures u == s
  {
  }
}
