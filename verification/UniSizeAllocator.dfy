// The allocator of fixed-size blocks that backs the message headers and the sessions.
module UniSizeAllocators {
  import opened FreeLists
  import opened Sequences
  import Layout

  function SlotAddr(size: nat, k: nat): nat {
    k * size
  }

  /** The blocks in address order. */
  function Addresses(size: nat, count: nat): (s: seq<nat>)
    ensures |s| == count
    ensures forall k | 0 <= k < count :: s[k] == SlotAddr(size, k)
  {
    seq(count, k requires k >= 0 => SlotAddr(size, k))
  }

  function SlotSet(size: nat, count: nat): set<nat> {
    Elements(Addresses(size, count))
  }

  lemma AddressesAscend(size: nat, count: nat)
    requires size > 0
    ensures forall i, j | 0 <= i < j < count :: Addresses(size, count)[i] + size <= Addresses(size, count)[j]
    ensures forall k | 0 <= k < count :: Addresses(size, count)[k] + size <= count * size
  {
    forall i, j | 0 <= i < j < count
      ensures Addresses(size, count)[i] + size <= Addresses(size, count)[j]
    {
      Layout.MulMono(i + 1, j, size);
    }
    forall k | 0 <= k < count
      ensures Addresses(size, count)[k] + size <= count * size
    {
      Layout.MulMono(k + 1, count, size);
    }
  }

  /** Every block has size bytes below the limit to itself. */
  ghost predicate SpacedOut(slots: set<nat>, size: nat, limit: nat) {
    && (forall a, b | a in slots && b in slots && a != b :: a + size <= b || b + size <= a)
    && (forall a | a in slots :: a + size <= limit)
  }

  /** The blocks follow each other in address order. */
  ghost predicate AscendBy(chain: seq<nat>, size: nat) {
    forall i, j | 0 <= i < j < |chain| :: chain[i] + size <= chain[j]
  }

  lemma {:induction false} SlotsSpacedOut(size: nat, count: nat)
    requires size > 0
    ensures AscendBy(Addresses(size, count), size)
    ensures SpacedOut(SlotSet(size, count), size, count * size)
  {
    AddressesAscend(size, count);
    hide Addresses, SlotAddr;
    ghost var s := Addresses(size, count);
    forall a, b | a in SlotSet(size, count) && b in SlotSet(size, count) && a != b
      ensures a + size <= b || b + size <= a
    {
      var i :| 0 <= i < |s| && s[i] == a;
      var j :| 0 <= j < |s| && s[j] == b;
      assert i < j || j < i;
    }
  }

  lemma {:induction false} AddressFacts(size: nat, count: nat)
    requires size > 0 && count > 0
    ensures var s := Addresses(size, count);
            && s[0] == 0 && (forall k | 0 <= k < count :: s[k] < count * size)
            && (forall i, j | 0 <= i < j < count :: s[i] < s[j])
            && (forall k | 0 <= k < count - 1 :: StepsBy(s, size, k))
            && SlotSet(size, count) == Elements(s)
  {
    AddressesAscend(size, count);
    hide Elements, SlotSet;
    forall k | 0 <= k < count - 1
      ensures StepsBy(Addresses(size, count), size, k)
    {
      assert (k + 1) * size == k * size + size;
    }
    SlotSetIs(size, count);
  }

  lemma {:induction false} SlotSetIs(size: nat, count: nat)
    ensures SlotSet(size, count) == Elements(Addresses(size, count))
  {
  }

  class UniSizeAllocator<T(0)> {
    const mem: array<Cell<T>>
    const size: nat
    var freeList: int
    ghost const slots: set<nat>
    ghost var chain: seq<nat>
    ghost var held: set<nat>

    /** The links stored in memory form the free list; free and held blocks partition the slab. */
    ghost predicate Valid()
      reads this, mem
    {
      && freeList == HeadOf(chain)
      && Linked(mem[..], chain)
      && (forall a | a in slots :: a < mem.Length)
      && SpacedOut(slots, size, mem.Length)
      && Partition(slots, chain, held)
    }

    ghost function Repr(): set<object> {
      {this, mem}
    }

    constructor (size: nat, count: nat)
      requires size > 0 && count > 0
      ensures Valid() && fresh(mem)
      ensures mem.Length == count * size
      ensures slots == SlotSet(size, count)
      ensures this.size == size && |slots| == |chain| == count
      ensures held == {} && chain == Addresses(size, count)
      ensures AscendBy(chain, size)
    {
      hide SpacedOut, AscendBy;
      this.size := size;
      SlotCount(size, count);
      mem := new Cell<T>[count * size](_ => Link(NULL));
      freeList := NULL;
      slots := SlotSet(size, count);
      chain := [];
      held := {};
      new;
      LinkFreeElement(size, count);
    }

    /** Links the blocks in address order. */
    method LinkFreeElement(size: nat, count: nat)
      requires size > 0 && count > 0
      requires mem.Length == count * size
      requires slots == SlotSet(size, count) && this.size == size
      modifies this, mem
      ensures Valid()
      ensures held == {} && chain == Addresses(size, count)
      ensures AscendBy(chain, size)
    {
      ghost var s := Addresses(size, count);
      AddressFacts(size, count);
      SlotsSpacedOut(size, count);
      hide *;
      chain, held := s, {};
      freeList := 0;
      LinkBlocks(s, count);
      ghost var cells := mem[..];
      ValidAtStart(s, cells);
    }

    lemma ValidAtStart(s: seq<nat>, cells: seq<Cell<T>>)
      requires cells == mem[..] && Linked(cells, s) && s != [] && s[0] == 0
      requires freeList == 0 && chain == s && held == {} && slots == Elements(s)
      requires SpacedOut(slots, size, mem.Length)
      ensures Valid()
    {
      hide SpacedOut, Distinct;
    }

    /** The loop of LinkFreeElement. */
    method LinkBlocks(ghost s: seq<nat>, count: nat)
      requires |s| == count > 0 && s[0] == 0
      requires forall k | 0 <= k < count :: s[k] < mem.Length
      requires forall k, l | 0 <= k < l < count :: s[k] < s[l]
      requires forall k | 0 <= k < count - 1 :: StepsBy(s, size, k)
      modifies mem
      ensures Linked(mem[..], s)
    {
      var current := 0;
      for n := 0 to count - 1
        invariant current == s[n]
        invariant forall k | 0 <= k < n :: mem[s[k]] == Link(NextIn(s, k))
      {
        hide NextIn, StepsBy;
        NextAt(s, size, n);
        var next := current + size;
        mem[current] := Link(next);
        current := next;
      }
      mem[current] := Link(NULL);
      hide *;
      LinkedThrough(mem[..], s);
    }

    /** Takes the first free block; fails exactly when every block is held. */
    method Allocate() returns (p: int)
      requires Valid()
      modifies this
      ensures Valid()
      ensures p == NULL <==> old(held) == slots
      ensures p == NULL <==> old(chain) == []
      ensures p == NULL ==> held == old(held) && chain == old(chain)
      ensures p != NULL ==> 0 <= p < mem.Length && p !in old(held) && p in slots
      ensures p != NULL ==> old(chain) == [p] + chain && held == old(held) + {p}
    {
      hide SpacedOut;
      var current := freeList;
      NoneFreeIff(slots, chain, held);
      if current == NULL {
        return NULL;
      }
      LinkedTail(mem[..], chain);
      TakeFirst(slots, chain, held);
      freeList := mem[current].next;
      held := held + {current as nat};
      chain := chain[1..];
      assert old(chain) == [current as nat] + chain;
      return current;
    }

    /** Puts a held block in front of the free list. Only the block's own link cell is written. */
    method Deallocate(p: nat)
      requires Valid()
      requires p in held
      modifies this, mem
      ensures Valid()
      ensures held == old(held) - {p} && chain == [p] + old(chain)
      ensures p < mem.Length && mem[p] == Link(HeadOf(old(chain)))
      ensures forall a: nat | a < mem.Length && a != p :: mem[a] == old(mem[a])
    {
      hide SpacedOut;
      GiveBack(slots, chain, held, p);
      LinkedPush(mem[..], p, chain);
      mem[p] := Link(freeList);
      freeList := p;
      held := held - {p};
      chain := [p] + chain;
    }

    /** A client writes into the block it holds. */
    method Write(p: nat, value: T)
      requires Valid()
      requires p in held
      modifies mem
      ensures Valid()
      ensures p < mem.Length && mem[p] == Client(value)
      ensures forall a: nat | a < mem.Length && a != p :: mem[a] == old(mem[a])
    {
      assert p in slots;
      LinkedFrame(mem[..], mem[..][p := Client(value)], chain);
      mem[p] := Client(value);
    }

    /** Conservation: the free and the held blocks always add up to the slab. */
    lemma Conservation()
      requires Valid()
      ensures |chain| + |held| == |slots|
    {
      var free := slots - held;
      DistinctSize(chain);
      assert Elements(chain) == free;
      assert slots == free + held;
    }
  }

  /** The slab is carved into exactly count blocks. */
  lemma SlotCount(size: nat, count: nat)
    requires size > 0
    ensures |SlotSet(size, count)| == count
  {
    AddressesAscend(size, count);
    DistinctSize(Addresses(size, count));
  }
}
