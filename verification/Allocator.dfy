// The segregated-list allocator of message payloads: one slab, carved into one intrusive free
// list per size class, with the system heap behind it for large requests.
module Allocators {
  import opened Containers
  import opened FreeLists
  import opened Sequences
  import opened Framing
  import Layout

  /** malloc and free are foreign; a block they hand out is known by a handle. */
  datatype Ptr = Null | Slab(addr: nat) | System(handle: nat)

  type Data = seq<Cell<Byte>>

  function Stored(bytes: seq<Byte>): (d: Data)
    ensures |d| == |bytes|
    ensures forall i | 0 <= i < |bytes| :: d[i] == Client(bytes[i])
  {
    seq(|bytes|, i requires 0 <= i < |bytes| => Client(bytes[i]))
  }

  // -------------------------------------------------------------------- geometry

  /** The blocks of one list, in address order. */
  function ClassAddresses(align: nat, count: nat, i: nat): (s: seq<nat>)
    ensures |s| == count
    ensures forall k | 0 <= k < count :: s[k] == Layout.BlockAddr(align, count, i, k)
  {
    seq(count, k requires k >= 0 => Layout.BlockAddr(align, count, i, k))
  }

  function AllClassAddresses(align: nat, count: nat, lists: nat): (s: seq<seq<nat>>)
    ensures |s| == lists
    ensures forall i | 0 <= i < lists :: s[i] == ClassAddresses(align, count, i)
  {
    seq(lists, i requires i >= 0 => ClassAddresses(align, count, i))
  }

  function ClassSizes(align: nat, lists: nat): (s: seq<nat>)
    ensures |s| == lists
    ensures forall i | 0 <= i < lists :: s[i] == Layout.BlockSize(align, i)
  {
    seq(lists, i requires i >= 0 => Layout.BlockSize(align, i))
  }

  function ToSets(ss: seq<seq<nat>>): (r: seq<set<nat>>)
    ensures |r| == |ss|
    ensures forall i | 0 <= i < |ss| :: r[i] == Elements(ss[i])
  {
    seq(|ss|, i requires 0 <= i < |ss| => Elements(ss[i]))
  }

  ghost predicate Inside(blocks: set<nat>, size: nat, total: nat) {
    forall a | a in blocks :: 0 < size && a + size <= total
  }

  ghost predicate NoOverlap(blocks: set<nat>, size: nat, blocks': set<nat>, size': nat, same: bool) {
    forall a, b | a in blocks && b in blocks' :: (same && a == b) || a + size <= b || b + size' <= a
  }

  /** Blocks lie inside the slab, no two of them overlap, and an address belongs to one class only. */
  ghost predicate Geometry(blocks: seq<set<nat>>, sizes: seq<nat>, total: nat) {
    && |blocks| == |sizes|
    && (forall i | 0 <= i < |blocks| :: Inside(blocks[i], sizes[i], total))
    && (forall i, j | 0 <= i < |blocks| && 0 <= j < |blocks| ::
          NoOverlap(blocks[i], sizes[i], blocks[j], sizes[j], i == j))
  }

  lemma GeometryOfSlab(align: nat, count: nat, lists: nat)
    requires align > 0
    ensures Geometry(ToSets(AllClassAddresses(align, count, lists)), ClassSizes(align, lists),
                     Layout.ListStart(align, count, lists))
  {
    var blocks, sizes := ToSets(AllClassAddresses(align, count, lists)), ClassSizes(align, lists);
    forall i, a | 0 <= i < lists && a in blocks[i]
      ensures Layout.IsBlock(align, count, i, a)
      ensures 0 < sizes[i] && a + sizes[i] <= Layout.ListStart(align, count, lists)
    {
      var k :| 0 <= k < count && ClassAddresses(align, count, i)[k] == a;
      assert a == Layout.BlockAddr(align, count, i, k);
      Layout.BlockInSlab(align, count, lists, i, a);
    }
    forall i, j | 0 <= i < lists && 0 <= j < lists
      ensures NoOverlap(blocks[i], sizes[i], blocks[j], sizes[j], i == j)
    {
      forall a, b | a in blocks[i] && b in blocks[j]
        ensures (i == j && a == b) || a + sizes[i] <= b || b + sizes[j] <= a
      {
        Layout.BlockExtents(align, count, i, a, j, b);
      }
    }
  }

  lemma ListsOfSlab(align: nat, count: nat, lists: nat)
    requires align > 0 && count > 0
    ensures var cs := AllClassAddresses(align, count, lists);
            && (forall i | 0 <= i < lists :: cs[i][0] == Layout.ListStart(align, count, i))
            && (forall i, k, l | 0 <= i < lists && 0 <= k < l < count :: cs[i][k] < cs[i][l])
            && (forall i, k | 0 <= i < lists && 0 <= k < count - 1 :: cs[i][k + 1] == cs[i][k] + (i + 1) * align)
  {
    var cs := AllClassAddresses(align, count, lists);
    forall i, k, l | 0 <= i < lists && 0 <= k < l < count
      ensures cs[i][k] < cs[i][l]
    {
      Layout.BlocksDisjoint(align, count, i, k, i, l);
    }
    forall i, k | 0 <= i < lists && 0 <= k < count - 1
      ensures cs[i][k + 1] == cs[i][k] + (i + 1) * align
    {
      Layout.NextBlock(align, count, i, k);
    }
  }

  lemma {:induction false} FreshHandleExists(keys: set<nat>)
    ensures exists k: nat :: k !in keys
  {
    var bound := Above(keys);
    assert bound !in keys;
  }

  lemma {:induction false} Above(keys: set<nat>) returns (bound: nat)
    ensures forall k | k in keys :: k < bound
  {
    if keys == {} {
      bound := 0;
    } else {
      var k :| k in keys;
      var b := Above(keys - {k});
      bound := if b <= k then k + 1 else b;
      assert keys == (keys - {k}) + {k};
    }
  }

  lemma ChainInSlab(blocks: seq<set<nat>>, sizes: seq<nat>, total: nat, i: nat, chain: seq<nat>)
    requires Geometry(blocks, sizes, total)
    requires i < |blocks| && forall a | a in chain :: a in blocks[i]
    ensures forall k | 0 <= k < |chain| :: chain[k] < total
  {
    assert Inside(blocks[i], sizes[i], total);
    assert forall k | 0 <= k < |chain| :: chain[k] in blocks[i];
  }

  lemma ChainsApart(blocks: seq<set<nat>>, sizes: seq<nat>, total: nat, i: nat, chain: seq<nat>, j: nat,
      chain': seq<nat>)
    requires Geometry(blocks, sizes, total)
    requires i < |blocks| && forall a | a in chain :: a in blocks[i]
    requires j < |blocks| && forall a | a in chain' :: a in blocks[j]
    requires i != j
    ensures forall k | 0 <= k < |chain| :: chain[k] !in chain'
  {
    forall k | 0 <= k < |chain|
      ensures chain[k] !in chain'
    {
      assert NoOverlap(blocks[i], sizes[i], blocks[j], sizes[j], i == j);
      assert Inside(blocks[i], sizes[i], total);
      assert chain[k] in blocks[i];
    }
  }

  // ------------------------------------------------------------------- allocator

  /** The system's malloc. */
  class SystemAllocator {
    /** How often it has refused. */
    ghost var refusals: nat

    constructor ()
      ensures refusals == 0
    {
      refusals := 0;
    }

    /** NULL, or a block that is not in use. */
    method Allocate(inUse: set<nat>) returns (h: Option<nat>)
      modifies `refusals
      ensures h.Some? ==> h.value !in inUse
      ensures refusals == old(refusals) + if h == None then 1 else 0
    {
      if * {
        refusals := refusals + 1;
        return None;
      }
      FreshHandleExists(inUse);
      var k: nat :| k !in inUse;
      return Some(k);
    }
  }

  class Allocator {
    const align: nat
    const bytesMax: nat
    const mem: array<Cell<Byte>>
    const freeList: array<int>
    /** What malloc has handed out, by handle. */
    var big: map<nat, Data>

    ghost const blocks: seq<set<nat>>
    ghost const sizes: seq<nat>
    ghost var chains: seq<seq<nat>>
    ghost var held: seq<set<nat>>

    ghost function Lists(): nat {
      freeList.Length
    }

    ghost function Repr(): set<object> {
      {this, mem, freeList}
    }

    ghost predicate Shape()
      reads this
    {
      && align > 0
      && |blocks| == |sizes| == |chains| == |held| == freeList.Length
      && Geometry(blocks, sizes, mem.Length)
      && (forall n | 0 < n <= bytesMax :: Index(n) < freeList.Length && n <= sizes[Index(n)])
    }

    /** List i: the head, the links in memory, and the split of its blocks into free and held ones. */
    ghost predicate ListOk(i: nat)
      requires i < |chains| && i < |blocks| && i < |held| && i < freeList.Length
      reads this, mem, freeList
    {
      && freeList[i] == HeadOf(chains[i])
      && Linked(mem[..], chains[i])
      && Partition(blocks[i], chains[i], held[i])
    }

    ghost predicate Valid()
      reads this, mem, freeList
    {
      && Shape()
      && (forall i | 0 <= i < freeList.Length :: ListOk(i))
    }

    /** FreeListIndex. */
    function Index(bytes: nat): nat
      requires bytes > 0 && align > 0
    {
      Layout.FreeListIndex(bytes, align)
    }

    /** p was handed out for a request of n bytes and has not been given back. */
    ghost predicate Owns(p: Ptr, n: nat)
      reads this
    {
      || (p.Slab? && align > 0 && 0 < n <= bytesMax && Index(n) < |held| && p.addr in held[Index(n)])
      || (p.System? && bytesMax < n && p.handle in big && |big[p.handle]| == n)
    }

    /** The first n cells behind p. */
    ghost function Read(p: Ptr, n: nat): (d: Data)
      reads this, mem
    {
      if p.Slab? && p.addr + n <= mem.Length then mem[p.addr..p.addr + n]
      else if p.System? && p.handle in big then big[p.handle]
      else []
    }

    lemma ReadLength(p: Ptr, n: nat)
      requires Valid()
      requires n > 0 && Owns(p, n)
      ensures |Read(p, n)| == n
    {
      assert p.Slab? ==> ListOk(Index(n)) && Inside(blocks[Index(n)], sizes[Index(n)], mem.Length);
    }

    /** MemoryTotal: the loop adds up one list after the other, starting at the literal 8. */
    static method MemoryTotal(align: nat, bytesMax: nat, count: nat) returns (size: nat)
      requires align > 0
      ensures size == Layout.TotalFrom(8, align, bytesMax, count)
    {
      size := 0;
      var i := 8;
      while i <= bytesMax
        invariant size + Layout.TotalFrom(i, align, bytesMax, count) == Layout.TotalFrom(8, align, bytesMax, count)
        decreases bytesMax + align - i
      {
        size := size + i * count;
        i := i + align;
      }
    }

    /**
     * Initialize. The slab is as large as MemoryTotal says, which is what the lists need exactly
     * when the alignment is 8 (Layout.MemoryTotalFitsIff).
     */
    constructor (lists: nat, count: nat)
      requires lists > 0 && count > 0
      ensures Valid() && fresh(mem) && fresh(freeList)
      ensures align == 8 && bytesMax == lists * 8 && Lists() == lists
      ensures mem.Length == Layout.ListStart(8, count, lists)
      ensures blocks == ToSets(AllClassAddresses(8, count, lists)) && sizes == ClassSizes(8, lists)
      ensures chains == AllClassAddresses(8, count, lists)
      ensures big == map[] && forall i | 0 <= i < lists :: held[i] == {}
      ensures forall i | 0 <= i < lists :: |chains[i]| == |blocks[i]| == count
    {
      align := 8;
      bytesMax := lists * 8;
      var total := MemoryTotal(8, lists * 8, count);
      Layout.MemoryTotalFitsIff(8, lists, count);
      mem := new Cell<Byte>[total](_ => Link(NULL));
      freeList := new int[lists];
      big := map[];
      blocks := ToSets(AllClassAddresses(8, count, lists));
      sizes := ClassSizes(8, lists);
      chains := AllClassAddresses(8, count, lists);
      held := seq(lists, i => {});
      new;
      GeometryOfSlab(8, count, lists);
      ListsOfSlab(8, count, lists);
      IndexFits();
      SetFreeListPtr(count);
      LinkFreeElement(count);
      AllFree(count);
    }

    /** While nothing is held, the lists are as long as there are blocks. */
    lemma AllFree(count: nat)
      requires Valid()
      requires forall i | 0 <= i < Lists() :: held[i] == {} && |chains[i]| == count
      ensures forall i | 0 <= i < Lists() :: |blocks[i]| == count
    {
      forall i | 0 <= i < Lists()
        ensures |blocks[i]| == count
      {
        hide Valid;
        Conservation(i);
      }
    }

    lemma IndexFits()
      requires align > 0
      requires freeList.Length == |sizes| && sizes == ClassSizes(align, |sizes|)
      requires bytesMax == |sizes| * align
      ensures forall n | 0 < n <= bytesMax :: Index(n) < freeList.Length && n <= sizes[Index(n)]
    {
      forall n | 0 < n <= bytesMax
        ensures Index(n) < freeList.Length && n <= sizes[Index(n)]
      {
        Layout.ClassIsPooled(n, align, |sizes|);
        Layout.ClassServesRequest(n, align);
      }
    }

    /** Stores the head of every list, walking the slab by the size of the list before. */
    method SetFreeListPtr(count: nat)
      requires align > 0
      modifies freeList
      ensures forall i | 0 <= i < Lists() :: freeList[i] == Layout.ListStart(align, count, i)
    {
      var current := 0;
      for i := 0 to freeList.Length
        invariant current == if i == 0 then 0 else Layout.ListStart(align, count, i - 1)
        invariant forall j | 0 <= j < i :: freeList[j] == Layout.ListStart(align, count, j)
      {
        current := current + align * i * count;
        assert current == Layout.ListStart(align, count, i);
        freeList[i] := current;
      }
    }

    /** Links the blocks of every list in address order. */
    method LinkFreeElement(count: nat)
      requires Shape()
      requires count > 0
      requires forall i | 0 <= i < Lists() :: held[i] == {} && blocks[i] == Elements(chains[i])
      requires forall i | 0 <= i < Lists() :: |chains[i]| == count && freeList[i] == chains[i][0]
      requires forall i, k, l | 0 <= i < Lists() && 0 <= k < l < count :: chains[i][k] < chains[i][l]
      requires forall i, k | 0 <= i < Lists() && 0 <= k < count - 1 :: StepsBy(chains[i], Layout.BlockSize(align, i), k)
      modifies mem
      ensures Valid()
    {
      for i := 0 to freeList.Length
        invariant forall j | 0 <= j < i :: Linked(mem[..], chains[j])
      {
        ghost var before := mem[..];
        ChainInSlab(blocks, sizes, mem.Length, i, chains[i]);
        var size := (i + 1) * align;
        assert size == Layout.BlockSize(align, i);
        LinkList(chains[i], freeList[i], size, count);
        forall j | 0 <= j < i
          ensures Linked(mem[..], chains[j])
        {
          ChainsApart(blocks, sizes, mem.Length, j, chains[j], i, chains[i]);
          LinkedFrame(before, mem[..], chains[j]);
        }
      }
      assert forall i | 0 <= i < Lists() :: Partition(blocks[i], chains[i], held[i]);
    }

    /** The inner loop of LinkFreeElement. */
    method LinkList(ghost s: seq<nat>, first: int, size: nat, count: nat)
      requires |s| == count > 0 && first == s[0]
      requires forall k | 0 <= k < count :: s[k] < mem.Length
      requires forall k, l | 0 <= k < l < count :: s[k] < s[l]
      requires forall k | 0 <= k < count - 1 :: StepsBy(s, size, k)
      modifies mem
      ensures Linked(mem[..], s)
      ensures forall a: nat | a < mem.Length && a !in s :: mem[a] == old(mem[a])
    {
      var current := first;
      for n := 0 to count - 1
        invariant current == s[n]
        invariant forall k | 0 <= k < n :: mem[s[k]] == Link(NextIn(s, k))
        invariant forall a: nat | a < mem.Length && a !in s :: mem[a] == old(mem[a])
      {
        hide NextIn, StepsBy;
        NextAt(s, size, n);
        var next := current + size;
        mem[current] := Link(next);
        current := next;
      }
      mem[current] := Link(NULL);
      hide *;
      LinkedThrough(mem[..], s);
    }

    // ------------------------------------------------------- allocate and deallocate

    lemma FreeIsUnowned(i: nat, a: nat)
      requires Valid()
      requires i < Lists() && a in chains[i]
      ensures forall j | 0 <= j < Lists() :: a !in held[j]
    {
      assert ListOk(i);
      forall j | 0 <= j < Lists()
        ensures a !in held[j]
      {
        assert ListOk(j);
        assert NoOverlap(blocks[i], sizes[i], blocks[j], sizes[j], i == j);
      }
    }

    /**
     * allocate. sys is what malloc would answer: None, or a block not handed out so far.
     * A pooled request fails exactly when its free list is empty, and never touches memory.
     */
    method Allocate(size: nat, sys: Option<nat>) returns (p: Ptr)
      requires Valid()
      requires size > 0
      requires sys.Some? ==> sys.value !in big
      modifies this, freeList
      ensures mem[..] == old(mem[..])
      ensures Valid()
      ensures p == Null <==> if size <= bytesMax then old(chains[Index(size)]) == [] else sys == None
      ensures p == Null ==> chains == old(chains) && held == old(held) && big == old(big)
      ensures p != Null ==> Owns(p, size) && forall n | n > 0 :: !old(Owns(p, n))
      ensures OthersKept(Null)
      ensures p != Null && size <= bytesMax ==>
                var i := Index(size);
                && p.Slab? && old(chains[i]) == [p.addr] + chains[i]
                && chains == old(chains)[i := chains[i]]
                && held == old(held)[i := old(held)[i] + {p.addr}]
                && big == old(big)
      ensures p != Null && size > bytesMax ==>
                && p == System(sys.value)
                && chains == old(chains) && held == old(held)
                && p.handle in big && big == old(big)[p.handle := big[p.handle]]
    {
      if bytesMax < size {
        if sys == None {
          return Null;
        }
        big := big[sys.value := seq(size, i => Link(NULL))];
        assert forall i | 0 <= i < Lists() :: old(ListOk(i)) ==> ListOk(i);
        return System(sys.value);
      }
      p := PopFree(Index(size));
    }

    /** Takes the first block of list i. */
    method PopFree(i: nat) returns (p: Ptr)
      requires Valid()
      requires i < Lists()
      modifies `chains, `held, freeList
      ensures Valid()
      ensures p == Null <==> old(chains[i]) == []
      ensures p == Null ==> chains == old(chains) && held == old(held) && freeList[..] == old(freeList[..])
      ensures p != Null ==>
                && p.Slab? && old(chains[i]) == [p.addr] + chains[i]
                && chains == old(chains)[i := chains[i]]
                && held == old(held)[i := old(held)[i] + {p.addr}]
                && (forall j | 0 <= j < Lists() :: p.addr !in old(held[j]))
    {
      var result := freeList[i];
      assert ListOk(i);
      if result == NULL {
        return Null;
      }
      ghost var chain := chains[i];
      LinkedTail(mem[..], chain);
      TakeFirst(blocks[i], chain, held[i]);
      FreeIsUnowned(i, chain[0]);
      freeList[i] := mem[result].next;
      chains := chains[i := chain[1..]];
      held := held[i := held[i] + {chain[0]}];
      assert chain == [result as nat] + chain[1..];
      forall j | 0 <= j < Lists()
        ensures ListOk(j)
      {
        assert old(ListOk(j));
      }
      return Slab(result);
    }

    /** Every block that was handed out, other than p, is still owned and holds the same cells. */
    twostate predicate OthersKept(p: Ptr)
      reads this, mem
    {
      forall q, n | n > 0 && q != p && old(Owns(q, n)) :: Owns(q, n) && Read(q, n) == old(Read(q, n))
    }

    /** Blocks held for different requests do not share a cell. */
    lemma OwnersAreApart(i: nat, a: nat)
      requires Valid()
      requires i < Lists() && a in held[i]
      ensures forall q: Ptr, n: nat | n > 0 && Owns(q, n) && q.Slab? && q != Slab(a) ::
                (a + sizes[i] <= q.addr || q.addr + n <= a) && q.addr + n <= mem.Length
    {
      assert ListOk(i);
      forall q: Ptr, n: nat | n > 0 && Owns(q, n) && q.Slab? && q != Slab(a)
        ensures (a + sizes[i] <= q.addr || q.addr + n <= a) && q.addr + n <= mem.Length
      {
        var j := Index(n);
        assert ListOk(j);
        assert Inside(blocks[j], sizes[j], mem.Length);
        assert NoOverlap(blocks[i], sizes[i], blocks[j], sizes[j], i == j);
      }
    }

    lemma FirstLink(i: nat)
      requires Valid()
      requires i < Lists() && chains[i] != []
      ensures chains[i][0] < mem.Length && mem[chains[i][0]] == Link(HeadOf(chains[i][1..]))
      ensures chains[i][0] !in held[i]
    {
      assert ListOk(i);
      LinkedTail(mem[..], chains[i]);
      assert chains[i][0] in chains[i];
    }

    /** Gives a block back to the list it came from; only the block's own link cell is written. */
    method Deallocate(p: Ptr, size: nat)
      requires Valid()
      requires size > 0 && Owns(p, size)
      modifies this, mem, freeList
      ensures Valid()
      ensures size <= bytesMax ==>
                var i := Index(size);
                && chains == old(chains)[i := [p.addr] + old(chains[i])]
                && held == old(held)[i := old(held)[i] - {p.addr}]
                && big == old(big)
                && p.addr < mem.Length
                && mem[..] == old(mem[..])[p.addr := Link(HeadOf(old(chains[i])))]
      ensures size > bytesMax ==>
                && chains == old(chains) && held == old(held)
                && big == old(big) - {p.handle}
                && mem[..] == old(mem[..])
      ensures OthersKept(p)
    {
      if bytesMax < size {
        big := big - {p.handle};
        assert forall i | 0 <= i < Lists() :: old(ListOk(i)) ==> ListOk(i);
        return;
      }
      PushFree(Index(size), p.addr, p);
    }

    /** Puts a held block in front of list i. */
    method PushFree(i: nat, a: nat, ghost p: Ptr)
      requires Valid()
      requires i < Lists() && a in held[i] && p == Slab(a)
      modifies `chains, `held, mem, freeList
      ensures Valid()
      ensures chains == old(chains)[i := [a] + old(chains[i])]
      ensures held == old(held)[i := old(held)[i] - {a}]
      ensures a < mem.Length && mem[..] == old(mem[..])[a := Link(HeadOf(old(chains[i])))]
      ensures OthersKept(p)
    {
      assert ListOk(i) && Inside(blocks[i], sizes[i], mem.Length);
      GiveBack(blocks[i], chains[i], held[i], a);
      LinkedPush(mem[..], a, chains[i]);
      HeldIsUnlisted(i, a);
      OwnersAreApart(i, a);
      mem[a] := Link(freeList[i]);
      freeList[i] := a;
      chains := chains[i := [a] + chains[i]];
      held := held[i := held[i] - {a}];
      forall j | 0 <= j < Lists()
        ensures ListOk(j)
      {
        assert old(ListOk(j));
        if j != i {
          LinkedFrame(old(mem[..]), mem[..], chains[j]);
        }
      }
    }

    lemma HeldIsUnlisted(i: nat, a: nat)
      requires Valid()
      requires i < Lists() && a in held[i]
      ensures forall j | 0 <= j < Lists() :: a !in chains[j]
      ensures forall j | 0 <= j < Lists() && j != i :: a !in held[j]
    {
      assert ListOk(i);
      forall j | 0 <= j < Lists()
        ensures a !in chains[j] && (j != i ==> a !in held[j])
      {
        assert ListOk(j);
        assert NoOverlap(blocks[i], sizes[i], blocks[j], sizes[j], i == j);
      }
    }

    /** A client writes into the block it was given for a request of n bytes, from byte offset on. */
    method Write(p: Ptr, n: nat, offset: nat, data: seq<Byte>)
      requires Valid()
      requires n > 0 && Owns(p, n) && offset + |data| <= n
      modifies `big, mem
      ensures Valid()
      ensures Owns(p, n) && |old(Read(p, n))| == n
      ensures Read(p, n) == old(Read(p, n))[..offset] + Stored(data) + old(Read(p, n))[offset + |data|..]
      ensures big.Keys == old(big.Keys)
      ensures OthersKept(p)
    {
      hide Index, Partition, Linked, Geometry;
      ReadLength(p, n);
      if p.System? {
        var block := big[p.handle];
        big := big[p.handle := block[..offset] + Stored(data) + block[offset + |data|..]];
        assert forall i | 0 <= i < Lists() :: old(ListOk(i)) ==> ListOk(i);
      } else {
        ghost var was := Read(p, n);
        ghost var goal := was[..offset] + Stored(data) + was[offset + |data|..];
        WriteSlab(Index(n), p.addr, offset, data, p);
        assert forall k | 0 <= k < n :: was[k] == old(mem[p.addr + k]);
        forall k | 0 <= k < n
          ensures mem[p.addr + k] == goal[k]
        {
        }
        assert Read(p, n) == goal;
      }
    }

    method WriteSlab(i: nat, a: nat, offset: nat, data: seq<Byte>, ghost p: Ptr)
      requires Valid()
      requires i < Lists() && a in held[i] && p == Slab(a)
      requires offset + |data| <= sizes[i]
      modifies mem
      ensures Valid()
      ensures a + sizes[i] <= mem.Length
      ensures forall x | 0 <= x < mem.Length ::
                mem[x] == if a + offset <= x < a + offset + |data| then Client(data[x - a - offset]) else old(mem[x])
      ensures OthersKept(p)
    {
      assert ListOk(i) && Inside(blocks[i], sizes[i], mem.Length);
      hide Partition, NoOverlap, Index;
      OwnersAreApart(i, a);
      LinksAreOutside(i, a);
      forall x | a + offset <= x < a + offset + |data| {
        mem[x] := Client(data[x - a - offset]);
      }
      forall j | 0 <= j < Lists()
        ensures ListOk(j)
      {
        assert old(ListOk(j));
        LinkedFrame(old(mem[..]), mem[..], chains[j]);
      }
    }

    /** No link of any free list is stored inside a held block. */
    lemma LinksAreOutside(i: nat, a: nat)
      requires Valid()
      requires i < Lists() && a in held[i]
      ensures forall j, k | 0 <= j < Lists() && 0 <= k < |chains[j]| :: chains[j][k] < a || a + sizes[i] <= chains[j][k]
    {
      assert ListOk(i);
      forall j, k | 0 <= j < Lists() && 0 <= k < |chains[j]|
        ensures chains[j][k] < a || a + sizes[i] <= chains[j][k]
      {
        assert ListOk(j);
        assert chains[j][k] in chains[j];
        assert NoOverlap(blocks[i], sizes[i], blocks[j], sizes[j], i == j);
        assert Inside(blocks[j], sizes[j], mem.Length);
      }
    }

    /** The free and the held blocks of a class always add up to the blocks of that class. */
    lemma Conservation(i: nat)
      requires Valid()
      requires i < Lists()
      ensures |chains[i]| + |held[i]| == |blocks[i]|
    {
      assert ListOk(i);
      var free := blocks[i] - held[i];
      DistinctSize(chains[i]);
      assert Elements(chains[i]) == free;
      assert blocks[i] == free + held[i];
    }
  }
}
