// How many messages can be alive at once: each takes a header slot, and a payload block of its size class
// unless its payload is so large that it comes from malloc.
module PoolCapacity {
  import opened MsgPools
  import opened Sequences
  import Layout

  /** The header slots, however they are addressed, and the lists of the payload slab with their common length. */
  datatype Memory = Memory(slots: set<nat>, lists: nat, count: nat)

  function BytesMax(pool: Memory): nat {
    pool.lists * Layout.ALIGN
  }

  /** The live messages whose payloads come from the list. */
  function Users(live: map<nat, LiveMsg>, bytesMax: nat, list: nat): set<nat> {
    set m | m in live && RouteOf(live[m].size, Layout.ALIGN, bytesMax) == Pooled(list)
  }

  /** There is a block for a payload of this size; malloc is taken to have one. */
  predicate HasRoom(live: map<nat, LiveMsg>, pool: Memory, size: nat) {
    match RouteOf(size, Layout.ALIGN, BytesMax(pool))
    case Pooled(list) => |Users(live, BytesMax(pool), list)| < pool.count
    case ToSystem => true
    case Misrouted => false
  }

  /** The live messages have slots of their own, sizes up to the largest, and no more blocks than there are. */
  ghost predicate Stocked(live: map<nat, LiveMsg>, pool: Memory, largest: nat) {
    && live.Keys <= pool.slots
    && (forall m | m in live :: 1 <= live[m].size <= largest)
    && (forall list: nat :: |Users(live, BytesMax(pool), list)| <= pool.count)
  }

  /**
   * The most messages that can be alive when payloads have 1 to largest bytes: as many as there are header slots,
   * or blocks in the lists that such payloads are served from; only the slots if the largest comes from malloc.
   */
  function MostAlive(pool: Memory, largest: nat): nat
    requires largest > 0
  {
    if BytesMax(pool) < largest then |pool.slots|
    else
      var blocks := pool.count * (Layout.FreeListIndex(largest, Layout.ALIGN) + 1);
      if blocks < |pool.slots| then blocks else |pool.slots|
  }

  // ------------------------------------------------------------------ the bound holds

  /** The live messages that are served from the first n lists. */
  function UsersBelow(live: map<nat, LiveMsg>, bytesMax: nat, n: nat): set<nat> {
    set m | m in live && var r := RouteOf(live[m].size, Layout.ALIGN, bytesMax); r.Pooled? && r.list < n
  }

  lemma {:induction false} OneListMore(live: map<nat, LiveMsg>, bytesMax: nat, n: nat)
    ensures |UsersBelow(live, bytesMax, n + 1)| == |UsersBelow(live, bytesMax, n)| + |Users(live, bytesMax, n)|
  {
    assert UsersBelow(live, bytesMax, n + 1) == UsersBelow(live, bytesMax, n) + Users(live, bytesMax, n);
    assert UsersBelow(live, bytesMax, n) !! Users(live, bytesMax, n);
  }

  lemma {:induction false} BoundOfUsers(live: map<nat, LiveMsg>, bytesMax: nat, count: nat, n: nat)
    ensures (forall i | 0 <= i < n :: |Users(live, bytesMax, i)| <= count)
        ==> |UsersBelow(live, bytesMax, n)| <= count * n
    ensures (forall i | 0 <= i < n :: |Users(live, bytesMax, i)| >= count)
        ==> |UsersBelow(live, bytesMax, n)| >= count * n
    decreases n
  {
    hide UsersBelow, Users;
    if n > 0 {
      BoundOfUsers(live, bytesMax, count, n - 1);
      OneListMore(live, bytesMax, n - 1);
      assert count * n == count * (n - 1) + count;
    } else {
      NoListNoUser(live, bytesMax);
    }
  }

  lemma {:induction false} NoListNoUser(live: map<nat, LiveMsg>, bytesMax: nat)
    ensures UsersBelow(live, bytesMax, 0) == {}
  {
  }

  /** While even the largest payload is pooled, the messages are the users of the lists up to its list. */
  lemma {:induction false} AllArePooled(live: map<nat, LiveMsg>, bytesMax: nat, largest: nat)
    requires 0 < largest <= bytesMax
    requires forall m | m in live :: 1 <= live[m].size <= largest
    ensures UsersBelow(live, bytesMax, Layout.FreeListIndex(largest, Layout.ALIGN) + 1) == live.Keys
  {
  }

  lemma {:induction false} AliveAreBounded(live: map<nat, LiveMsg>, pool: Memory, largest: nat)
    requires largest > 0 && Stocked(live, pool, largest)
    ensures |live| <= MostAlive(pool, largest)
  {
    hide Users, UsersBelow;
    SubsetSize(live.Keys, pool.slots);
    assert |live| == |live.Keys|;
    if largest <= BytesMax(pool) {
      AllArePooled(live, BytesMax(pool), largest);
      BoundOfUsers(live, BytesMax(pool), pool.count, Layout.FreeListIndex(largest, Layout.ALIGN) + 1);
    }
  }

  // --------------------------------------------------------------- the bound is reached

  lemma {:induction false} SizeOfList(bytesMax: nat, list: nat)
    requires list * Layout.ALIGN + 1 <= bytesMax
    ensures RouteOf(list * Layout.ALIGN + 1, Layout.ALIGN, bytesMax) == Pooled(list)
  {
  }

  /** Below the bound, another message of some size can be had. */
  lemma {:induction false} AnotherFits(live: map<nat, LiveMsg>, pool: Memory, largest: nat) returns (m: nat, size: nat)
    requires largest > 0 && Stocked(live, pool, largest)
    requires |live| < MostAlive(pool, largest)
    ensures m in pool.slots && m !in live
    ensures 1 <= size <= largest && HasRoom(live, pool, size)
  {
    m := SomeSlotIsFree(live, pool.slots);
    if BytesMax(pool) < largest {
      size := largest;
    } else {
      var n := Layout.FreeListIndex(largest, Layout.ALIGN) + 1;
      var list := SomeListHasRoom(live, pool, largest, n);
      size := list * Layout.ALIGN + 1;
      assert size <= largest;
      SizeOfList(BytesMax(pool), list);
    }
  }

  lemma {:induction false} SomeSlotIsFree(live: map<nat, LiveMsg>, slots: set<nat>) returns (m: nat)
    requires live.Keys <= slots && |live| < |slots|
    ensures m in slots && m !in live
  {
    assert |live| == |live.Keys|;
    assert slots == live.Keys + (slots - live.Keys);
    m :| m in slots - live.Keys;
  }

  lemma {:induction false} SomeListHasRoom(live: map<nat, LiveMsg>, pool: Memory, largest: nat, n: nat)
      returns (list: nat)
    requires 0 < largest <= BytesMax(pool) && Stocked(live, pool, largest)
    requires n == Layout.FreeListIndex(largest, Layout.ALIGN) + 1 && |live| < pool.count * n
    ensures list < n && |Users(live, BytesMax(pool), list)| < pool.count
  {
    hide Users, UsersBelow, Layout.FreeListIndex;
    AllArePooled(live, BytesMax(pool), largest);
    BoundOfUsers(live, BytesMax(pool), pool.count, n);
    assert |live| == |live.Keys|;
    list :| list < n && |Users(live, BytesMax(pool), list)| < pool.count;
  }

  // ------------------------------------------------------ allocation and deallocation

  lemma {:induction false} UsersGrow(live: map<nat, LiveMsg>, m: nat, msg: LiveMsg, bytesMax: nat, list: nat)
    requires m !in live
    ensures |Users(live[m := msg], bytesMax, list)|
            == |Users(live, bytesMax, list)|
               + if RouteOf(msg.size, Layout.ALIGN, bytesMax) == Pooled(list) then 1 else 0
  {
    var users, grown := Users(live, bytesMax, list), Users(live[m := msg], bytesMax, list);
    if RouteOf(msg.size, Layout.ALIGN, bytesMax) == Pooled(list) {
      assert grown == users + {m};
    } else {
      assert grown == users;
    }
  }

  lemma {:induction false} StockedGrows(live: map<nat, LiveMsg>, pool: Memory, largest: nat, m: nat, msg: LiveMsg)
    requires Stocked(live, pool, largest)
    requires m in pool.slots && m !in live && 1 <= msg.size <= largest && HasRoom(live, pool, msg.size)
    ensures Stocked(live[m := msg], pool, largest)
  {
    hide Users, RouteOf;
    var grown, bytesMax := live[m := msg], BytesMax(pool);
    forall list: nat
      ensures |Users(grown, bytesMax, list)| <= pool.count
    {
      UsersGrow(live, m, msg, bytesMax, list);
    }
  }

  lemma {:induction false} StockedShrinks(live: map<nat, LiveMsg>, pool: Memory, largest: nat, m: nat)
    requires Stocked(live, pool, largest)
    ensures Stocked(live - {m}, pool, largest)
  {
    var rest, bytesMax := live - {m}, BytesMax(pool);
    forall list: nat
      ensures |Users(rest, bytesMax, list)| <= pool.count
    {
      SubsetSize(Users(rest, bytesMax, list), Users(live, bytesMax, list));
    }
  }

  /** If the pool with one message more is within its blocks, there was room for it. */
  lemma {:induction false} RoomInside(live: map<nat, LiveMsg>, pool: Memory, m: nat, msg: LiveMsg,
                                      later: map<nat, LiveMsg>)
    requires m !in live && msg.size > 0
    requires forall x | x in live[m := msg] :: x in later && later[x] == live[m := msg][x]
    requires forall list: nat :: |Users(later, BytesMax(pool), list)| <= pool.count
    ensures HasRoom(live, pool, msg.size)
  {
    var route, grown := RouteOf(msg.size, Layout.ALIGN, BytesMax(pool)), live[m := msg];
    if route.Pooled? {
      UsersGrow(live, m, msg, BytesMax(pool), route.list);
      UsersInside(grown, later, BytesMax(pool), route.list);
    }
  }

  lemma {:induction false} UsersInside(live: map<nat, LiveMsg>, later: map<nat, LiveMsg>, bytesMax: nat, list: nat)
    requires forall x | x in live :: x in later && later[x] == live[x]
    ensures |Users(live, bytesMax, list)| <= |Users(later, bytesMax, list)|
  {
    SubsetSize(Users(live, bytesMax, list), Users(later, bytesMax, list));
  }

  // ---------------------------------------------------------------- the pool's own blocks

  /** No more live messages of a list than it has blocks: each holds a block of its own. */
  lemma {:induction false} UsersHaveBlocks(pool: MsgPool, list: nat)
    requires pool.Valid() && pool.slab.align == Layout.ALIGN
    ensures |Users(pool.live, pool.slab.bytesMax, list)|
            <= if list < pool.slab.Lists() then |pool.slab.blocks[list]| else 0
  {
    var users := Users(pool.live, pool.slab.bytesMax, list);
    var blockOf := map m | m in users :: pool.DataOf(m).addr;
    forall m | m in users
      ensures pool.DataOf(m).Slab? && list < pool.slab.Lists() && pool.DataOf(m).addr in pool.slab.held[list]
    {
      UserHoldsBlock(pool, m, list);
    }
    if list < pool.slab.Lists() {
      InjectionSize(users, blockOf, pool.slab.held[list]);
      pool.slab.Conservation(list);
    } else {
      assert users == {};
    }
  }

  lemma {:induction false} UserHoldsBlock(pool: MsgPool, m: nat, list: nat)
    requires pool.Valid() && pool.slab.align == Layout.ALIGN
    requires m in Users(pool.live, pool.slab.bytesMax, list)
    ensures pool.DataOf(m).Slab? && list < pool.slab.Lists() && pool.DataOf(m).addr in pool.slab.held[list]
  {
    assert pool.MsgOk(m);
  }
}
