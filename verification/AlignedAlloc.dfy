/** Aligned allocation on top of the small-memory heap: the block is over-allocated, the
    address is moved up to a multiple of the alignment, and the address of the block itself
    is kept in the word just below. */
module AlignedAlloc {
  import opened HeapTiling
  import opened SmallMem
  import opened Arith

  const VOID_SIZE: nat := 4

  predicate PowerOfTwo(n: nat) {
    n == 1 || (n > 1 && n % 2 == 0 && PowerOfTwo(n / 2))
  }

  /** The alignment the code works with: at least a pointer. */
  function Rounded(align: Word): Word {
    RtAlign(align)
  }

  /** Bytes requested from the heap. */
  function Total(size: Word, align: Word): nat {
    RtAlign(size) + Rounded(align)
  }

  /** `ptr` is an aligned address inside live block `b`: `size` bytes from `ptr` on belong to `b`,
      and so does the word below, which holds the address of `b`. */
  ghost predicate AlignedIn(m: SmallMem, ptr: nat, size: nat, b: Block)
    reads m, m.heap
  {
    && b in m.Live()
    && m.Addr(b) + VOID_SIZE <= ptr
    && ptr + size <= m.Addr(b) + Data(SIZEOF_STRUCT_MEM, b)
    && ptr - VOID_SIZE - m.heapPtr < m.heap.Length
    && m.heap[ptr - VOID_SIZE - m.heapPtr] == m.Addr(b)
  }

  lemma RoundedAlignment(align: Word)
    requires PowerOfTwo(align) && align <= WORD_LIMIT - 4
    ensures Rounded(align) == if align < 4 then 4 else align
    ensures Aligned(Rounded(align))
  {
    if align >= 4 {
      var half := align / 2;
      assert align == 2 * half && half == 2 * (half / 2);
      assert align == 4 * (half / 2);
    }
  }

  /** Moving up from a word-aligned address to the next multiple of `align` moves at least a word
      and at most `align`. */
  lemma MoveUp(ptr: nat, align: nat)
    requires Aligned(ptr) && Aligned(align) && align > 0
    ensures ptr % align == 0 ==> (ptr + align) % align == 0
    ensures ptr % align != 0 ==>
              var up := (ptr + (align - 1)) / align * align;
              up % align == 0 && ptr + VOID_SIZE <= up <= ptr + align - VOID_SIZE
  {
    var d, q := ptr / align, ptr % align;
    assert ptr == align * d + q;
    Above(align, d, q);
    if q != 0 { WordRemainder(ptr, align, d, q); }
  }

  lemma Above(align: nat, d: nat, q: nat)
    requires q < align
    ensures q == 0 ==> (align * d + q + align) % align == 0
    ensures q != 0 ==> var up := (align * d + q + (align - 1)) / align * align;
                       up % align == 0 && up == align * d + align
  {
    var m := align * (d + 1);
    assert m == align * d + align;
    Quotient(align, d + 1, 0);
    if q != 0 { UpTo(align, d + 1, align * d + q + (align - 1), q - 1); }
  }

  lemma UpTo(align: nat, k: nat, n: nat, r: nat)
    requires r < align && n == align * k + r
    ensures n / align * align == align * k && align * k % align == 0
  {
    Quotient(align, k, r);
    Quotient(align, k, 0);
  }

  lemma WordRemainder(ptr: nat, align: nat, d: nat, q: nat)
    requires Aligned(ptr) && Aligned(align) && ptr == align * d + q && 0 < q < align
    ensures VOID_SIZE <= q <= align - VOID_SIZE
  {
    var p, a := ptr / 4, align / 4;
    assert align * d == 4 * (a * d) by {
      assert align == 4 * a;
    }
    assert q == 4 * (p - a * d);
  }

  lemma Divides(r: nat)
    ensures r % 4 == 0 ==> r % 2 == 0
  {
    var k := r / 4;
    if r % 4 == 0 { Quotient(2, 2 * k, 0); }
  }

  /** Some alignments are below the word size and are met by any word-aligned address. */
  lemma SmallAlignment(r: nat, align: nat)
    requires PowerOfTwo(align) && r % (if align < 4 then 4 else align) == 0
    ensures r % align == 0
  {
    if align < 4 {
      assert PowerOfTwo(align) && align != 0 && align != 3;
      Divides(r);
      if align == 1 { assert r % 1 == 0; } else { assert align == 2; }
    }
  }

  /** What is asked for beyond the rounded size is the alignment, and at least a word. */
  lemma TotalIs(size: Word, align: Word)
    requires PowerOfTwo(align) && size <= WORD_LIMIT - 4 && align <= WORD_LIMIT - 4
    ensures var spare := if align < VOID_SIZE then VOID_SIZE else align;
            && size + spare <= Total(size, align) < size + 4 + spare
            && Aligned(Total(size, align))
  {
    RoundedAlignment(align);
    AlignedSum(RtAlign(size), Rounded(align));
  }

  /** In 32-bit arithmetic the heap is asked for enough if and only if the rounded size and the rounded
      alignment have a sum that fits. */
  lemma AskedForEnough(size: Word, align: Word)
    requires PowerOfTwo(align)
    ensures Total(size, align) % WORD_LIMIT >= size + VOID_SIZE
            <==> size <= WORD_LIMIT - 4 && align <= WORD_LIMIT - 4 && Total(size, align) <= WORD_LIMIT - 4
  {
    hide PowerOfTwo, Aligned, RtAlign;
    OneOrMore(align);
    AlignedSum(RtAlign(size), RtAlign(align));
    Wraps(RtAlign(size), RtAlign(align), size, align);
  }

  lemma OneOrMore(align: nat)
    requires PowerOfTwo(align)
    ensures align >= 1
  {
  }

  lemma Wraps(n: nat, al: nat, size: Word, align: Word)
    requires Aligned(n + al) && Aligned(al) && n < WORD_LIMIT && al < WORD_LIMIT && align >= 1
    requires if size <= WORD_LIMIT - 4 then size <= n < size + 4 else n == 0
    requires if align <= WORD_LIMIT - 4 then align <= al < align + 4 else al == 0
    ensures (n + al) % WORD_LIMIT >= size + VOID_SIZE
            <==> size <= WORD_LIMIT - 4 && align <= WORD_LIMIT - 4 && n + al <= WORD_LIMIT - 4
  {
    BelowLimit(al);
    if n + al < WORD_LIMIT {
      BelowLimit(n + al);
    } else {
      assert (n + al) % WORD_LIMIT == n + al - WORD_LIMIT;
    }
  }

  /** Allocates `size` bytes at a multiple of `align`, a power of two. */
  method MallocAlign(m: SmallMem, size: Word, align: Word) returns (r: nat, ghost i: int)
    requires m.Valid() && PowerOfTwo(align)
    requires size <= WORD_LIMIT - 4 && align <= WORD_LIMIT - 4 && Total(size, align) <= WORD_LIMIT - 4
    modifies m`bs, m`lfree, m`used, m`history, m`max, m.heap
    ensures m.Valid()
    ensures r == NULL <==> NoFit(old(m.bs), Need(Total(size, align)))
    ensures r == NULL ==> unchanged(m) && m.heap[..] == old(m.heap[..])
    ensures r != NULL ==> r % align == 0
    ensures r != NULL ==>
              && Allocated(old(m.bs), m.bs, Need(Total(size, align)), i)
              && AlignedIn(m, r, size, Granted(old(m.bs)[i], Need(Total(size, align))))
    ensures DataKept(SIZEOF_STRUCT_MEM, old(m.heap[..]), m.heap[..], old(m.Live()))
  {
    hide SmallMem.Valid, Aligned, DataKept, NoFit, UsedBlocks;
    var al := Rounded(align);
    RoundedAlignment(align);
    var alignSize := RtAlign(size) + al;
    ghost var h0, bs0 := m.heap[..], m.bs;
    m.Facts();
    r, i := m.Alloc(alignSize);
    if r == NULL {
      return;
    }
    m.Facts();
    ghost var h1 := m.heap[..];
    ghost var g := Granted(bs0[i], Need(alignSize));
    GrantFacts(bs0, m.bs, m.End(), i, Need(alignSize));
    MoveUp(r, al);
    var alignPtr := if r % al == 0 then r + al else (r + (al - 1)) / al * al;
    SmallAlignment(alignPtr, align);
    hide RtAlign;
    m.Store(alignPtr - VOID_SIZE, r, g);
    KeptTwice(SIZEOF_STRUCT_MEM, h0, h1, m.heap[..], UsedBlocks(bs0), UsedBlocks(bs0), m.Live() - {g});
    r := alignPtr;
  }

  /** What the heap grants is a new live block of the size asked for. */
  lemma GrantFacts(bs: seq<Block>, bs': seq<Block>, end: nat, i: int, need: nat)
    requires Tiles(SIZEOF_STRUCT_MEM, bs, 0, end) && Allocated(bs, bs', need, i)
    ensures var g := Granted(bs[i], need);
            && g in UsedBlocks(bs') && UsedBlocks(bs) <= UsedBlocks(bs') - {g}
            && Data(SIZEOF_STRUCT_MEM, g) >= need && g.start == bs[i].start && g.next <= end
  {
    var g := Granted(bs[i], need);
    Ordered(SIZEOF_STRUCT_MEM, bs, 0, end);
    forall b | b in UsedBlocks(bs) ensures b != g {
      var j :| 0 <= j < |bs| && bs[j] == b;
    }
  }

  /** Gives back the block that `ptr` was carved from. */
  method FreeAlign(m: SmallMem, ptr: nat, ghost size: nat, ghost b: Block)
    requires m.Valid() && (ptr == NULL || AlignedIn(m, ptr, size, b))
    modifies m`bs, m`lfree, m`used, m`history, m.heap
    ensures m.Valid()
    ensures ptr == NULL ==> unchanged(m) && m.heap[..] == old(m.heap[..])
    ensures ptr != NULL ==> m.Live() == old(m.Live()) - {b}
    ensures DataKept(SIZEOF_STRUCT_MEM, old(m.heap[..]), m.heap[..], m.Live())
  {
    if ptr == NULL {
      return;
    }
    hide SmallMem.Valid, DataKept, Linked, Tiles;
    var realPtr := m.heap[ptr - VOID_SIZE - m.heapPtr];
    assert m.Allotted(realPtr);
    m.Facts();
    UsedApart(m.bs, m.End(), b);
    assert (set x | x in m.Live() && m.Addr(x) != realPtr) == m.Live() - {b};
    m.Free(realPtr);
  }

  /** Allocating aligned and giving it back restores the heap's tiling exactly. */
  method RoundTrip(m: SmallMem, size: Word, align: Word)
    requires m.Valid() && PowerOfTwo(align)
    requires size <= WORD_LIMIT - 4 && align <= WORD_LIMIT - 4 && Total(size, align) <= WORD_LIMIT - 4
    modifies m`bs, m`lfree, m`used, m`history, m`max, m.heap
    ensures m.Valid() && m.bs == old(m.bs) && m.used == old(m.used) && m.lfree == old(m.lfree)
  {
    var r;
    ghost var i;
    r, i := MallocAlign(m, size, align);
    if r != NULL {
      ghost var bs1 := m.bs;
      ghost var need := Need(Total(size, align));
      ghost var g := Granted(old(m.bs)[i], need);
      UsedApart(bs1, m.End(), g);
      FreeAlign(m, r, size, g);
      FreeUndoesAlloc(old(m.bs), bs1, m.bs, m.End(), need, i);
      LowestUnique(m.bs, m.End(), m.lfree, old(m.lfree));
    }
  }
}
