// Intrusive free lists: a free block stores the link to the next free block in its own first
// cell, the cells of an allocated block belong to the client.
module FreeLists {
  import opened Sequences

  const NULL := -1

  datatype Cell<+T> = Link(next: int) | Client(value: T)

  function HeadOf(chain: seq<nat>): int {
    if chain == [] then NULL else chain[0]
  }

  function NextIn(chain: seq<nat>, k: nat): int {
    if k + 1 < |chain| then chain[k + 1] else NULL
  }

  /** The cells of the chain hold the links of an acyclic list that visits the chain in order. */
  ghost predicate Linked<T>(mem: seq<Cell<T>>, chain: seq<nat>) {
    && Distinct(chain)
    && (forall k | 0 <= k < |chain| :: chain[k] < |mem| && mem[chain[k]] == Link(NextIn(chain, k)))
  }

  /** Follow n links in memory, starting at p; None once a cell holds no link. */
  datatype Walk = Walk(visited: seq<nat>, end: int) | Broken

  function Follow<T>(mem: seq<Cell<T>>, p: int, n: nat): Walk
    decreases n
  {
    if n == 0 then Walk([], p)
    else if 0 <= p < |mem| && mem[p].Link? then
      match Follow(mem, mem[p].next, n - 1)
      case Walk(visited, end) => Walk([p] + visited, end)
      case Broken => Broken
    else Broken
  }

  lemma LinkedTail<T>(mem: seq<Cell<T>>, chain: seq<nat>)
    requires Linked(mem, chain) && chain != []
    ensures Linked(mem, chain[1..])
    ensures mem[chain[0]] == Link(HeadOf(chain[1..]))
  {
    forall k | 0 <= k < |chain| - 1
      ensures chain[1..][k] < |mem| && mem[chain[1..][k]] == Link(NextIn(chain[1..], k))
    {
      assert chain[1..][k] == chain[k + 1];
      assert NextIn(chain[1..], k) == NextIn(chain, k + 1);
    }
  }

  /** Following the links stored in memory from the head visits exactly the chain and ends at NULL. */
  lemma {:induction false} FollowVisitsChain<T>(mem: seq<Cell<T>>, chain: seq<nat>)
    requires Linked(mem, chain)
    ensures Follow(mem, HeadOf(chain), |chain|) == Walk(chain, NULL)
    decreases |chain|
  {
    if chain != [] {
      LinkedTail(mem, chain);
      FollowVisitsChain(mem, chain[1..]);
      assert [chain[0]] + chain[1..] == chain;
    }
  }

  /** The block in place k is followed by the next one at a fixed distance. */
  ghost predicate StepsBy(chain: seq<nat>, size: nat, k: nat) {
    k + 1 < |chain| ==> chain[k + 1] == chain[k] + size
  }

  lemma {:induction false} LinkedThrough<T>(mem: seq<Cell<T>>, chain: seq<nat>)
    requires chain != [] && forall k | 0 <= k < |chain| :: chain[k] < |mem|
    requires forall i, j | 0 <= i < j < |chain| :: chain[i] < chain[j]
    requires forall k | 0 <= k < |chain| - 1 :: mem[chain[k]] == Link(NextIn(chain, k))
    requires mem[chain[|chain| - 1]] == Link(NULL)
    ensures Linked(mem, chain)
  {
    assert NextIn(chain, |chain| - 1) == NULL;
    hide NextIn;
  }

  lemma {:induction false} NextAt(chain: seq<nat>, size: nat, k: nat)
    requires k + 1 < |chain| && StepsBy(chain, size, k)
    ensures NextIn(chain, k) == chain[k + 1] == chain[k] + size
  {
  }

  /** Overwriting a cell outside the chain leaves the chain alone. */
  lemma LinkedFrame<T>(mem: seq<Cell<T>>, mem': seq<Cell<T>>, chain: seq<nat>)
    requires Linked(mem, chain)
    requires |mem'| == |mem|
    requires forall k | 0 <= k < |chain| :: mem'[chain[k]] == mem[chain[k]]
    ensures Linked(mem', chain)
  {
  }

  /** Storing the old head in a cell that is not on the chain puts that cell in front of the chain. */
  lemma LinkedPush<T>(mem: seq<Cell<T>>, p: nat, chain: seq<nat>)
    requires Linked(mem, chain)
    requires p < |mem| && p !in chain
    ensures Linked(mem[p := Link(HeadOf(chain))], [p] + chain)
  {
    var mem', chain' := mem[p := Link(HeadOf(chain))], [p] + chain;
    forall k | 0 <= k < |chain'|
      ensures chain'[k] < |mem'| && mem'[chain'[k]] == Link(NextIn(chain', k))
    {
      if k > 0 {
        assert chain'[k] == chain[k - 1];
        assert NextIn(chain', k) == NextIn(chain, k - 1);
      }
    }
  }

  /** Every block is either free or held, and none is both. */
  ghost predicate Partition(blocks: set<nat>, chain: seq<nat>, held: set<nat>) {
    && (forall a: nat | a in chain :: a in blocks && a !in held)
    && (forall a: nat | a in held :: a in blocks)
    && (forall a: nat | a in blocks && a !in held :: a in chain)
  }

  lemma TakeFirst(blocks: set<nat>, chain: seq<nat>, held: set<nat>)
    requires Partition(blocks, chain, held) && Distinct(chain) && chain != []
    ensures chain[0] in blocks && chain[0] !in held
    ensures Partition(blocks, chain[1..], held + {chain[0]})
  {
    assert forall a: nat | a in chain :: a == chain[0] || a in chain[1..];
  }

  lemma GiveBack(blocks: set<nat>, chain: seq<nat>, held: set<nat>, p: nat)
    requires Partition(blocks, chain, held) && p in held
    ensures p in blocks && p !in chain
    ensures Partition(blocks, [p] + chain, held - {p})
  {
    var chain' := [p] + chain;
    assert p == chain'[0];
    forall a: nat | a in chain
      ensures a in chain'
    {
      var k :| 0 <= k < |chain| && chain[k] == a;
      assert chain'[k + 1] == a;
    }
  }

  lemma NoneFreeIff(blocks: set<nat>, chain: seq<nat>, held: set<nat>)
    requires Partition(blocks, chain, held)
    ensures chain == [] <==> held == blocks
  {
    if chain != [] {
      assert chain[0] in chain;
    }
  }
}
