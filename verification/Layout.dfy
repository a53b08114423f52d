// Where the size classes of the allocator lie in its slab: list i holds count blocks of
// (i + 1) * align bytes, one list after the other.
module Layout {

  /** config_ALIGN, which the literal in MemoryTotal takes for granted. */
  const ALIGN: nat := 8

  lemma MulMono(a: nat, b: nat, c: nat)
    requires a <= b
    ensures a * c <= b * c
  {
  }

  function BlockSize(align: nat, i: nat): nat {
    (i + 1) * align
  }

  /** The position SetFreeListPtr has reached when it stores the head of list i. */
  function ListStart(align: nat, count: nat, i: nat): nat {
    if i == 0 then 0 else ListStart(align, count, i - 1) + align * i * count
  }

  function BlockAddr(align: nat, count: nat, i: nat, k: nat): nat {
    ListStart(align, count, i) + k * BlockSize(align, i)
  }

  /** a is the first byte of one of the count blocks of list i. */
  ghost predicate IsBlock(align: nat, count: nat, i: nat, a: nat) {
    exists k: nat | k < count :: a == BlockAddr(align, count, i, k)
  }

  /** The triangular offsets in closed form. */
  lemma {:induction false} ListStartClosedForm(align: nat, count: nat, i: nat)
    ensures 2 * ListStart(align, count, i) == align * count * (i * (i + 1))
  {
    if i > 0 {
      ListStartClosedForm(align, count, i - 1);
      TriangleStep(align * count, i);
      MulSwap(align, i, count);
    }
  }

  lemma TriangleStep(c: nat, i: nat)
    requires i > 0
    ensures c * (i * (i + 1)) == c * ((i - 1) * (i - 1 + 1)) + 2 * (c * i)
  {
    assert i * (i + 1) == (i - 1) * (i - 1 + 1) + 2 * i;
  }

  lemma MulSwap(a: nat, b: nat, c: nat)
    ensures a * b * c == a * c * b
  {
  }

  lemma DivMod(d: nat, s: nat)
    requires s > 0
    ensures (d / s) * s <= d < (d / s) * s + s
    ensures d - d % s == (d / s) * s
  {
  }

  lemma ListSpan(align: nat, count: nat, i: nat)
    ensures ListStart(align, count, i + 1) == ListStart(align, count, i) + count * BlockSize(align, i)
  {
    assert align * (i + 1) * count == count * ((i + 1) * align);
  }

  lemma {:induction false} ListStartGrows(align: nat, count: nat, j: nat)
    requires j > 0
    ensures ListStart(align, count, j - 1) <= ListStart(align, count, j)
  {
    var bytes: nat := align * j * count;
    assert ListStart(align, count, j) == ListStart(align, count, j - 1) + bytes;
  }

  /** List i ends before list j begins. */
  lemma {:induction false} ListsInOrder(align: nat, count: nat, i: nat, j: nat)
    requires i < j
    ensures ListStart(align, count, i) + count * BlockSize(align, i) <= ListStart(align, count, j)
    decreases j
  {
    hide ListStart, BlockSize;
    if i + 1 < j {
      ListsInOrder(align, count, i, j - 1);
      ListStartGrows(align, count, j);
    } else {
      ListSpan(align, count, i);
    }
  }

  lemma NextBlock(align: nat, count: nat, i: nat, k: nat)
    ensures BlockAddr(align, count, i, k + 1) == BlockAddr(align, count, i, k) + (i + 1) * align
  {
    var s := BlockSize(align, i);
    assert (k + 1) * s == k * s + s;
  }

  /** A block lies inside its list. */
  lemma BlockInList(align: nat, count: nat, i: nat, k: nat)
    requires k < count
    ensures ListStart(align, count, i) <= BlockAddr(align, count, i, k)
    ensures BlockAddr(align, count, i, k) + BlockSize(align, i)
        <= ListStart(align, count, i) + count * BlockSize(align, i)
  {
    var s := BlockSize(align, i);
    MulMono(k + 1, count, s);
    assert (k + 1) * s == k * s + s;
  }

  /** Different blocks never overlap, within one list or across lists. */
  lemma BlocksDisjoint(align: nat, count: nat, i: nat, k: nat, j: nat, l: nat)
    requires k < count && l < count
    requires i < j || (i == j && k < l)
    ensures BlockAddr(align, count, i, k) + BlockSize(align, i) <= BlockAddr(align, count, j, l)
  {
    if i < j {
      BlockInList(align, count, i, k);
      ListsInOrder(align, count, i, j);
      BlockInList(align, count, j, l);
    } else {
      var s := BlockSize(align, i);
      MulMono(k + 1, l, s);
      assert (k + 1) * s == k * s + s;
    }
  }

  /** The same, for blocks given by their addresses: an address determines its class and its extent. */
  lemma BlockExtents(align: nat, count: nat, i: nat, a: nat, j: nat, b: nat)
    requires align > 0
    requires IsBlock(align, count, i, a) && IsBlock(align, count, j, b)
    ensures a == b ==> i == j
    ensures a != b ==> a + BlockSize(align, i) <= b || b + BlockSize(align, j) <= a
  {
    var k: nat :| k < count && a == BlockAddr(align, count, i, k);
    var l: nat :| l < count && b == BlockAddr(align, count, j, l);
    assert BlockSize(align, i) > 0 && BlockSize(align, j) > 0;
    if i < j || (i == j && k < l) {
      BlocksDisjoint(align, count, i, k, j, l);
    } else if j < i || l < k {
      BlocksDisjoint(align, count, j, l, i, k);
    }
  }

  lemma BlockInSlab(align: nat, count: nat, lists: nat, i: nat, a: nat)
    requires i < lists
    requires IsBlock(align, count, i, a)
    ensures a + BlockSize(align, i) <= ListStart(align, count, lists)
  {
    var k: nat :| k < count && a == BlockAddr(align, count, i, k);
    BlockInList(align, count, i, k);
    ListsInOrder(align, count, i, lists);
  }

  /** Every block starts on a multiple of align. */
  lemma {:induction false} ListStartAligned(align: nat, count: nat, i: nat) returns (q: nat)
    ensures ListStart(align, count, i) == q * align
  {
    if i == 0 {
      q := 0;
    } else {
      var p := ListStartAligned(align, count, i - 1);
      q := p + i * count;
      assert align * i * count == (i * count) * align;
      assert (p + i * count) * align == p * align + (i * count) * align;
    }
  }

  lemma BlockAligned(align: nat, count: nat, i: nat, k: nat)
    requires align > 0
    ensures BlockAddr(align, count, i, k) % align == 0
  {
    var p := ListStartAligned(align, count, i);
    var q := p + k * (i + 1);
    assert k * ((i + 1) * align) == (k * (i + 1)) * align;
    assert q * align == p * align + (k * (i + 1)) * align;
    assert BlockAddr(align, count, i, k) == q * align;
    MultipleHasNoRemainder(q, align);
  }

  lemma {:induction false} MultipleHasNoRemainder(q: nat, m: nat)
    requires m > 0
    ensures q * m % m == 0
    ensures q * m / m == q
  {
    RemainderIs(q * m, m, q, 0);
    var d := q * m / m;
    assert q * m == m * d + q * m % m;
    assert m * (d - q) == 0;
    if d > q {
      MulMono(1, d - q, m);
      assert false;
    } else if d < q {
      MulMono(1, q - d, m);
      assert false;
    }
  }

  lemma LocateInList(d: nat, size: nat, count: nat) returns (k: nat)
    requires d < count * size
    ensures k < count
    ensures k * size <= d < k * size + size
  {
    assert size > 0;
    k := d / size;
    DivMod(d, size);
    if k >= count {
      MulMono(count, k, size);
      assert false;
    }
  }

  /** The list and the block a byte of the slab belongs to. */
  lemma {:induction false} Locate(align: nat, count: nat, lists: nat, x: nat) returns (i: nat, k: nat)
    requires align > 0
    requires x < ListStart(align, count, lists)
    ensures i < lists && k < count
    ensures BlockAddr(align, count, i, k) <= x < BlockAddr(align, count, i, k) + BlockSize(align, i)
    decreases lists
  {
    if x < ListStart(align, count, lists - 1) {
      i, k := Locate(align, count, lists - 1, x);
    } else {
      i := lists - 1;
      ListSpan(align, count, i);
      k := LocateInList(x - ListStart(align, count, i), BlockSize(align, i), count);
    }
  }

  /** The blocks of all lists tile the slab: every byte lies in one block, and in no other. */
  lemma BlocksTileSlab(align: nat, count: nat, lists: nat, x: nat)
    requires align > 0
    ensures x < ListStart(align, count, lists) <==>
            exists i: nat, k: nat | i < lists && k < count ::
              BlockAddr(align, count, i, k) <= x < BlockAddr(align, count, i, k) + BlockSize(align, i)
    ensures forall i: nat, k: nat, j: nat, l: nat | k < count && l < count
              && BlockAddr(align, count, i, k) <= x < BlockAddr(align, count, i, k) + BlockSize(align, i)
              && BlockAddr(align, count, j, l) <= x < BlockAddr(align, count, j, l) + BlockSize(align, j)
              :: i == j && k == l
  {
    if x < ListStart(align, count, lists) {
      var i, k := Locate(align, count, lists, x);
    }
    forall i: nat, k: nat | i < lists && k < count
      ensures BlockAddr(align, count, i, k) + BlockSize(align, i) <= ListStart(align, count, lists)
    {
      assert IsBlock(align, count, i, BlockAddr(align, count, i, k));
      BlockInSlab(align, count, lists, i, BlockAddr(align, count, i, k));
    }
    forall i: nat, k: nat, j: nat, l: nat | k < count && l < count
      && BlockAddr(align, count, i, k) <= x < BlockAddr(align, count, i, k) + BlockSize(align, i)
      && BlockAddr(align, count, j, l) <= x < BlockAddr(align, count, j, l) + BlockSize(align, j)
      ensures i == j && k == l
    {
      if i < j || (i == j && k < l) {
        BlocksDisjoint(align, count, i, k, j, l);
      } else if j < i || l < k {
        BlocksDisjoint(align, count, j, l, i, k);
      }
    }
  }

  // ------------------------------------------------------------- size of the slab

  /** What the loop of MemoryTotal adds up from element size i on. */
  function TotalFrom(i: nat, align: nat, bytesMax: nat, count: nat): nat
    requires align > 0
    decreases bytesMax + align - i
  {
    if i > bytesMax then 0 else i * count + TotalFrom(i + align, align, bytesMax, count)
  }

  /** The bytes of lists j - 1, ..., lists - 1. */
  function ListsFrom(j: nat, align: nat, lists: nat, count: nat): nat
    decreases lists + 1 - j
  {
    if j > lists then 0 else j * align * count + ListsFrom(j + 1, align, lists, count)
  }

  lemma {:induction false} ListsFromIsTail(j: nat, align: nat, lists: nat, count: nat)
    requires j <= lists
    ensures ListStart(align, count, j) + ListsFrom(j + 1, align, lists, count) == ListStart(align, count, lists)
    decreases lists - j
  {
    if j < lists {
      ListsFromIsTail(j + 1, align, lists, count);
      assert align * (j + 1) * count == (j + 1) * align * count;
    }
  }

  /** Starting anywhere after (j - 1) * align, the loop adds up no more than the lists from j - 1 on need. */
  lemma {:induction false} LoopStaysBelow(i: nat, j: nat, align: nat, lists: nat, count: nat)
    requires align > 0
    requires i <= j * align
    requires j > 0 && (j - 1) * align < i
    ensures TotalFrom(i, align, lists * align, count) <= ListsFrom(j, align, lists, count)
    decreases lists + 1 - j
  {
    if j > lists {
      MulMono(lists, j - 1, align);
    } else {
      assert (j + 1) * align == j * align + align;
      assert j * align == (j - 1) * align + align;
      LoopStaysBelow(i + align, j + 1, align, lists, count);
      MulMono(i, j * align, count);
    }
  }

  lemma {:induction false} LoopMeetsLists(j: nat, align: nat, lists: nat, count: nat)
    requires align > 0
    ensures TotalFrom(j * align, align, lists * align, count) == ListsFrom(j, align, lists, count)
    decreases lists + 1 - j
  {
    assert (j + 1) * align == j * align + align;
    if j <= lists {
      MulMono(j, lists, align);
      LoopMeetsLists(j + 1, align, lists, count);
    } else {
      MulMono(lists + 1, j, align);
      assert (lists + 1) * align == lists * align + align;
    }
  }

  /**
   * The loop of MemoryTotal starts at the literal 8. It reserves what the lists need exactly when
   * align is 8; with any other alignment the slab is too small and the last blocks lie outside it.
   */
  lemma MemoryTotalFitsIff(align: nat, lists: nat, count: nat)
    requires align > 0 && lists > 0 && count > 0
    ensures TotalFrom(8, align, lists * align, count) == ListStart(align, count, lists) <==> align == 8
    ensures TotalFrom(8, align, lists * align, count) <= ListStart(align, count, lists)
  {
    ListsFromIsTail(0, align, lists, count);
    assert lists * align >= align by { MulMono(1, lists, align); }
    if align == 8 {
      LoopMeetsLists(1, align, lists, count);
    } else if align > 8 {
      LoopStaysBelow(8 + align, 2, align, lists, count);
      assert 8 * count < align * count by { MulLess(8, align, count); }
    } else {
      var j := FirstMultiple(align);
      LoopStaysBelow(8, j, align, lists, count);
      ListsFromShrinks(2, j, align, lists, count);
      assert 1 * align * count > 0 by { MulLess(0, align, count); }
    }
  }

  lemma MulLess(a: nat, b: nat, c: nat)
    requires a < b && c > 0
    ensures a * c < b * c
  {
  }

  /** For align below 8 the first multiple not below 8 is at least the second one. */
  lemma FirstMultiple(align: nat) returns (j: nat)
    requires 0 < align < 8
    ensures j >= 2 && 8 <= j * align && (j - 1) * align < 8
  {
    j := (8 + align - 1) / align;
  }

  lemma {:induction false} ListsFromNext(i: nat, align: nat, lists: nat, count: nat)
    ensures ListsFrom(i + 1, align, lists, count) <= ListsFrom(i, align, lists, count)
  {
    var bytes: nat := i * align * count;
    if i <= lists {
      assert ListsFrom(i, align, lists, count) == bytes + ListsFrom(i + 1, align, lists, count);
    }
  }

  lemma {:induction false} ListsFromShrinks(i: nat, j: nat, align: nat, lists: nat, count: nat)
    requires i <= j
    ensures ListsFrom(j, align, lists, count) <= ListsFrom(i, align, lists, count)
    decreases j - i
  {
    hide ListsFrom;
    if i < j {
      ListsFromShrinks(i + 1, j, align, lists, count);
      ListsFromNext(i, align, lists, count);
    }
  }

  // ---------------------------------------------------------------- size classes

  /** The size class that serves a request; the caller promises bytes > 0. */
  function FreeListIndex(bytes: nat, align: nat): nat
    requires bytes > 0 && align > 0
  {
    (bytes + align - 1) / align - 1
  }

  /** A request is served by the smallest class whose blocks are large enough. */
  lemma ClassServesRequest(bytes: nat, align: nat)
    requires bytes > 0 && align > 0
    ensures bytes <= BlockSize(align, FreeListIndex(bytes, align))
    ensures BlockSize(align, FreeListIndex(bytes, align)) < bytes + align
  {
    var q := (bytes + align - 1) / align;
    assert bytes + align - 1 == align * q + (bytes + align - 1) % align;
    assert q >= 1 by {
      if q == 0 { assert false; }
    }
    assert BlockSize(align, q - 1) == align * q;
  }

  lemma ClassIsPooled(bytes: nat, align: nat, lists: nat)
    requires 0 < bytes <= lists * align && align > 0
    ensures FreeListIndex(bytes, align) < lists
  {
    ClassServesRequest(bytes, align);
    var i := FreeListIndex(bytes, align);
    assert i * align + align < bytes + align;
    if i >= lists {
      MulMono(lists, i, align);
      assert false;
    }
  }

  /** Every pooled size has a list, whatever BYTES_MAX is, if and only if the alignment divides it. */
  lemma {:induction false} PooledSizesServedIff(align: nat, bytesMax: nat)
    requires align > 0 && bytesMax > 0
    ensures (forall n: nat | 0 < n <= bytesMax :: FreeListIndex(n, align) < bytesMax / align) <==> bytesMax % align == 0
  {
    var lists, r := bytesMax / align, bytesMax % align;
    DivMod(bytesMax, align);
    assert bytesMax == lists * align + r;
    if r == 0 {
      forall n: nat | 0 < n <= bytesMax
        ensures FreeListIndex(n, align) < lists
      {
        ClassIsPooled(n, align, lists);
      }
    } else {
      LastClass(align, lists, r);
    }
  }

  lemma {:induction false} LastClass(align: nat, lists: nat, r: nat)
    requires 0 < r < align
    ensures FreeListIndex(lists * align + r, align) == lists
  {
    var x := lists * align + r + align - 1;
    assert x == align * (lists + 1) + (r - 1);
    var q := x / align;
    assert x == align * q + x % align;
    assert align * (q - (lists + 1)) == (r - 1) - x % align;
    if q < lists + 1 {
      MulMono(1, lists + 1 - q, align);
      assert false;
    } else if q > lists + 1 {
      MulMono(1, q - (lists + 1), align);
      assert false;
    }
  }

  /**
   * For every alignment and every BYTES_MAX: all pooled sizes have a list and the slab that MemoryTotal reserves
   * holds all the lists, if and only if the alignment is 8 and divides BYTES_MAX; and then it holds nothing else.
   */
  lemma {:induction false} ConfigurationIsSoundIff(align: nat, bytesMax: nat, count: nat)
    requires align > 0 && bytesMax > 0 && count > 0
    ensures (forall n: nat | 0 < n <= bytesMax :: FreeListIndex(n, align) < bytesMax / align)
            && TotalFrom(8, align, bytesMax, count) >= ListStart(align, count, bytesMax / align)
            <==> align == 8 && bytesMax % 8 == 0
    ensures align == 8 && bytesMax % 8 == 0
        ==> TotalFrom(8, align, bytesMax, count) == ListStart(align, count, bytesMax / align)
  {
    PooledSizesServedIff(align, bytesMax);
    hide FreeListIndex, TotalFrom, ListStart;
    if bytesMax % align == 0 {
      var lists := bytesMax / align;
      DivMod(bytesMax, align);
      assert bytesMax == lists * align;
      assert lists > 0 by {
        assert 0 * align == 0;
      }
      MemoryTotalFitsIff(align, lists, count);
    }
  }

  /** Bitwise and of two machine words. */
  function And(x: nat, y: nat): nat {
    if x == 0 || y == 0 then 0 else 2 * And(x / 2, y / 2) + (x % 2) * (y % 2)
  }

  function Pow2(n: nat): (p: nat)
    ensures p > 0
  {
    if n == 0 then 1 else 2 * Pow2(n - 1)
  }

  /** Bitwise complement of a word of the given width. */
  function Complement(x: nat, width: nat): nat
    requires x < Pow2(width)
  {
    Pow2(width) - 1 - x
  }

  /** RoundUp as written, with the mask on a size_t of the given width. */
  function RoundUp(bytes: nat, align: nat, width: nat): nat
    requires 0 < align <= Pow2(width)
  {
    And(bytes + align - 1, Complement(align - 1, width))
  }

  lemma {:induction false} MaskClearsLowBits(x: nat, n: nat, width: nat)
    requires n <= width
    requires x < Pow2(width)
    requires Pow2(n) <= Pow2(width)
    ensures And(x, Complement(Pow2(n) - 1, width)) == x - x % Pow2(n)
    decreases width
  {
    var y := Complement(Pow2(n) - 1, width);
    if n == 0 {
      AllOnes(x, width);
    } else {
      assert Pow2(width) == 2 * Pow2(width - 1) && Pow2(n) == 2 * Pow2(n - 1);
      assert y == 2 * (Pow2(width - 1) - Pow2(n - 1));
      assert y / 2 == Complement(Pow2(n - 1) - 1, width - 1) && y % 2 == 0;
      MaskClearsLowBits(x / 2, n - 1, width - 1);
      HalveRemainder(x, Pow2(n - 1));
      if x == 0 || y == 0 {
        if y == 0 {
          assert Pow2(n) == Pow2(width);
        }
      }
    }
  }

  lemma HalveRemainder(x: nat, m: nat)
    requires m > 0
    ensures x - x % (2 * m) == 2 * (x / 2 - (x / 2) % m)
  {
    var q, r := (x / 2) / m, (x / 2) % m;
    assert x / 2 == m * q + r;
    assert x == (2 * m) * q + (2 * r + x % 2);
    assert 0 <= 2 * r + x % 2 < 2 * m;
    RemainderIs(x, 2 * m, q, 2 * r + x % 2);
  }

  lemma RemainderIs(x: nat, m: nat, q: nat, r: nat)
    requires m > 0 && x == m * q + r && r < m
    ensures x % m == r
  {
    var d := x / m - q;
    assert x == m * (x / m) + x % m;
    assert m * (x / m) - m * q == m * d;
    assert m * d == r - x % m;
    assert d == 0;
  }

  lemma {:induction false} AllOnes(x: nat, width: nat)
    requires x < Pow2(width)
    ensures And(x, Pow2(width) - 1) == x
    decreases width
  {
    if width > 0 && x > 0 {
      assert Pow2(width) == 2 * Pow2(width - 1);
      assert (Pow2(width) - 1) / 2 == Pow2(width - 1) - 1 && (Pow2(width) - 1) % 2 == 1;
      AllOnes(x / 2, width - 1);
    }
  }

  /** The mask form of RoundUp and the division form of FreeListIndex agree on every pooled class. */
  lemma RoundUpIsBlockSize(bytes: nat, n: nat, width: nat)
    requires n <= width && Pow2(n) <= Pow2(width)
    requires bytes > 0 && bytes + Pow2(n) - 1 < Pow2(width)
    ensures RoundUp(bytes, Pow2(n), width) == BlockSize(Pow2(n), FreeListIndex(bytes, Pow2(n)))
    ensures bytes <= RoundUp(bytes, Pow2(n), width) < bytes + Pow2(n)
  {
    var align := Pow2(n);
    var x := bytes + align - 1;
    MaskClearsLowBits(x, n, width);
    ClassServesRequest(bytes, align);
    DivMod(x, align);
    assert FreeListIndex(bytes, align) + 1 == x / align;
  }
}
