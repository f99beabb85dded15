/** The small-memory heap: first fit over an address-ordered list of blocks whose headers
    live inside the managed memory itself. */
module SmallMem {
  import opened HeapTiling
  import MemOps

  const SIZEOF_STRUCT_MEM: nat := 12
  const MIN_SIZE: nat := 12
  const NULL: nat := 0
  const WORD_LIMIT: nat := 0x1_0000_0000

  /** A request or address that fits a 32-bit register. */
  type Word = n: nat | n < WORD_LIMIT

  /** Rounding up to a multiple of four in 32-bit arithmetic; the addition may wrap. */
  function RtAlign(size: Word): (r: Word)
    ensures Aligned(r)
    ensures r >= size <==> size <= WORD_LIMIT - 4
    ensures size <= WORD_LIMIT - 4 ==> r < size + 4
    ensures size > WORD_LIMIT - 4 ==> r == 0
    ensures Aligned(size) ==> r == size
  {
    (size + 3) % WORD_LIMIT / 4 * 4
  }

  function RtAlignDown(size: nat): (r: nat)
    ensures Aligned(r) && r <= size < r + 4
  {
    size / 4 * 4
  }

  /** Data bytes that an allocation asks the free list for. */
  function Need(size: Word): (r: Word)
    ensures Aligned(r) && r >= MIN_SIZE
    ensures size <= WORD_LIMIT - 4 ==> r >= size
  {
    if RtAlign(size) < MIN_SIZE then MIN_SIZE else RtAlign(size)
  }

  // ----- headers inside the memory -----

  /** The header at byte offset `o`: pool pointer with the used bit, offsets of the neighbours.
      A header word is kept in the cell of its first byte. */
  ghost predicate HeaderAt(h: seq<int>, o: nat, pool: int, next: nat, prev: nat) {
    && o + SIZEOF_STRUCT_MEM <= |h|
    && h[o] == pool && h[o + 4] == next && h[o + 8] == prev
  }

  function Tag(addr: nat, used: bool): nat {
    if used then addr + 1 else addr
  }

  predicate UsedBit(pool: int) {
    pool % 2 == 1
  }

  lemma TagBit(addr: nat)
    requires Aligned(addr)
    ensures UsedBit(addr + 1) && !UsedBit(addr)
  {
    var k := addr / 4;
    Parity(2 * k);
    assert addr == 2 * (2 * k);
  }

  lemma Parity(m: nat)
    ensures 2 * m % 2 == 0 && (2 * m + 1) % 2 == 1
  {
  }

  /** The header of block `i` says what the tiling says. */
  ghost predicate BlockHeader(h: seq<int>, bs: seq<Block>, addr: nat, i: nat)
    requires i < |bs|
  {
    HeaderAt(h, bs[i].start, Tag(addr, bs[i].used), bs[i].next, if i == 0 then 0 else bs[i - 1].start)
  }

  /** The memory holds the headers of `bs`, and the end sentinel behind the last block.
      Nothing is said of the sentinel's `prev`, which the code leaves stale. */
  ghost predicate Linked(h: seq<int>, bs: seq<Block>, addr: nat, end: nat) {
    && |h| == end + SIZEOF_STRUCT_MEM
    && (forall i :: 0 <= i < |bs| ==> BlockHeader(h, bs, addr, i))
    && h[end] == Tag(addr, true) && h[end + 4] == end
    && Aligned(addr)
  }

  /** No header is written outside the headers of `bs` and the sentinel, so data is kept. */
  lemma HeaderWrites(h: seq<int>, h': seq<int>, bs: seq<Block>, end: nat, a: nat, b: nat, c: nat)
    requires Tiles(SIZEOF_STRUCT_MEM, bs, 0, end) && |h| == |h'| == end + SIZEOF_STRUCT_MEM
    requires a <= b <= c <= |bs|
    requires forall x ::
               0 <= x < |h| && !InHeader(bs, end, a, x) && !InHeader(bs, end, b, x) && !InHeader(bs, end, c, x) ==>
                 h'[x] == h[x]
    ensures DataKept(SIZEOF_STRUCT_MEM, h, h', UsedBlocks(bs))
  {
    Ordered(SIZEOF_STRUCT_MEM, bs, 0, end);
    forall k, x | 0 <= k < |bs| && bs[k].start + SIZEOF_STRUCT_MEM <= x < bs[k].next
      ensures h'[x] == h[x]
    {
      DataNotHeader(bs, end, k, a, x);
      DataNotHeader(bs, end, k, b, x);
      DataNotHeader(bs, end, k, c, x);
    }
  }

  ghost function StartOf(bs: seq<Block>, end: nat, m: nat): nat
    requires m <= |bs|
  {
    if m < |bs| then bs[m].start else end
  }

  ghost predicate InHeader(bs: seq<Block>, end: nat, m: nat, x: int)
    requires m <= |bs|
  {
    StartOf(bs, end, m) <= x < StartOf(bs, end, m) + SIZEOF_STRUCT_MEM
  }

  lemma DataNotHeader(bs: seq<Block>, end: nat, k: nat, m: nat, x: nat)
    requires Tiles(SIZEOF_STRUCT_MEM, bs, 0, end) && k < |bs| && m <= |bs|
    requires bs[k].start + SIZEOF_STRUCT_MEM <= x < bs[k].next
    ensures !InHeader(bs, end, m, x)
  {
    Ordered(SIZEOF_STRUCT_MEM, bs, 0, end);
  }

  // ----- the three edits, as they happen in memory -----

  function SplitWrites(h: seq<int>, p: nat, mid: nat, n: nat, addr: nat, end: nat): (r: seq<int>)
    requires p + 12 <= mid && mid + 12 <= n <= end && |h| == end + 12
    ensures |r| == |h|
  {
    var h1 := h[mid := addr][mid + 4 := n][mid + 8 := p][p + 4 := mid];
    if n != end then h1[n + 8 := mid] else h1
  }

  /** Everything one edit needs to know about block `k` relative to block `i`. */
  lemma HeaderOf(h: seq<int>, bs: seq<Block>, addr: nat, end: nat, k: nat, i: nat)
    requires Tiles(SIZEOF_STRUCT_MEM, bs, 0, end) && Linked(h, bs, addr, end) && k < |bs| && i < |bs|
    ensures BlockHeader(h, bs, addr, k)
    ensures UsedBit(h[bs[k].start]) == bs[k].used && UsedBit(h[end])
    ensures bs[k].start + SIZEOF_STRUCT_MEM <= bs[k].next <= end
    ensures k < i ==> bs[k].next <= bs[i].start
    ensures k > i ==> bs[i].next <= bs[k].start
    ensures k == i + 1 ==> bs[i].next == bs[k].start
    ensures k + 1 == |bs| ==> bs[k].next == end
  {
    Ordered(SIZEOF_STRUCT_MEM, bs, 0, end);
    TagBit(addr);
    if k == i + 1 { assert Meet(bs, i); }
  }

  /** Headers in front of the split block stay; the one right behind learns its new neighbour. */
  lemma SplitElsewhere(h: seq<int>, p: nat, mid: nat, n: nat, addr: nat, end: nat, o: nat, pool: int, next: nat,
      prev: nat)
    requires p + 12 <= mid && mid + 12 <= n <= end && |h| == end + 12
    requires HeaderAt(h, o, pool, next, prev) && (o + 12 <= p || n <= o) && o + 12 <= end
    requires o < p || o == n || n + 12 <= o
    ensures HeaderAt(SplitWrites(h, p, mid, n, addr, end), o, pool, next, if o == n then mid else prev)
  {
  }

  lemma SplitHeaderFront(h: seq<int>, bs: seq<Block>, i: nat, mid: nat, addr: nat, end: nat, k: nat)
    requires Tiles(SIZEOF_STRUCT_MEM, bs, 0, end) && Linked(h, bs, addr, end) && i < |bs|
    requires bs[i].start + 12 <= mid && mid + 12 <= bs[i].next <= end
    requires k <= i + 1
    ensures BlockHeader(SplitWrites(h, bs[i].start, mid, bs[i].next, addr, end), Split(bs, i, mid, bs[i].used), addr, k)
  {
    var bs' := Split(bs, i, mid, bs[i].used);
    var p, n := bs[i].start, bs[i].next;
    HeaderOf(h, bs, addr, end, i, i);
    if k < i {
      HeaderOf(h, bs, addr, end, k, i);
      assert bs'[k] == bs[k] && (k > 0 ==> bs'[k - 1] == bs[k - 1]);
      SplitElsewhere(h, p, mid, n, addr, end, bs[k].start, Tag(addr, bs[k].used), bs[k].next,
                     if k == 0 then 0 else bs[k - 1].start);
    } else if k == i {
      assert bs'[i] == Block(p, mid, bs[i].used) && (i > 0 ==> bs'[i - 1] == bs[i - 1]);
    } else {
      assert bs'[k] == Block(mid, n, false) && bs'[i] == Block(p, mid, bs[i].used);
    }
  }

  lemma SplitHeaderBack(h: seq<int>, bs: seq<Block>, i: nat, mid: nat, addr: nat, end: nat, k: nat)
    requires Tiles(SIZEOF_STRUCT_MEM, bs, 0, end) && Linked(h, bs, addr, end) && i < |bs|
    requires bs[i].start + 12 <= mid && mid + 12 <= bs[i].next <= end
    requires i < k < |bs|
    ensures BlockHeader(SplitWrites(h, bs[i].start, mid, bs[i].next, addr, end), Split(bs, i, mid, bs[i].used), addr,
        k + 1)
  {
    var bs' := Split(bs, i, mid, bs[i].used);
    HeaderOf(h, bs, addr, end, k, i);
    HeaderOf(h, bs, addr, end, i + 1, i);
    if k > i + 1 { HeaderOf(h, bs, addr, end, k, i + 1); }
    assert bs'[k + 1] == bs[k];
    assert bs'[k].start == if k == i + 1 then mid else bs[k - 1].start;
    SplitElsewhere(h, bs[i].start, mid, bs[i].next, addr, end, bs[k].start, Tag(addr, bs[k].used), bs[k].next,
        bs[k - 1].start);
    assert k > i + 1 ==> bs[k].start != bs[i].next;
  }

  lemma LinkedSplit(h: seq<int>, bs: seq<Block>, i: nat, mid: nat, addr: nat, end: nat)
    requires Tiles(SIZEOF_STRUCT_MEM, bs, 0, end) && Linked(h, bs, addr, end) && i < |bs|
    requires bs[i].start + 12 <= mid && mid + 12 <= bs[i].next <= end
    ensures var bs' := Split(bs, i, mid, bs[i].used);
            var h' := SplitWrites(h, bs[i].start, mid, bs[i].next, addr, end);
            Linked(h', bs', addr, end) && DataKept(SIZEOF_STRUCT_MEM, h, h', UsedBlocks(bs'))
  {
    var bs' := Split(bs, i, mid, bs[i].used);
    var h' := SplitWrites(h, bs[i].start, mid, bs[i].next, addr, end);
    forall k | 0 <= k < |bs'|
      ensures BlockHeader(h', bs', addr, k)
    {
      if k <= i + 1 {
        SplitHeaderFront(h, bs, i, mid, addr, end, k);
      } else {
        SplitHeaderBack(h, bs, i, mid, addr, end, k - 1);
      }
    }
    HeaderOf(h, bs, addr, end, i, i);
    if i + 1 < |bs| { HeaderOf(h, bs, addr, end, i + 1, i); }
    assert Linked(h', bs', addr, end);
    SplitFacts(SIZEOF_STRUCT_MEM, bs, end, i, mid, bs[i].used);
    HeaderWrites(h, h', bs', end, i, i + 1, i + 2);
  }

  lemma LinkedMark(h: seq<int>, bs: seq<Block>, i: nat, used: bool, addr: nat, end: nat)
    requires Tiles(SIZEOF_STRUCT_MEM, bs, 0, end) && Linked(h, bs, addr, end) && i < |bs|
    ensures bs[i].start < |h|
    ensures var bs' := Mark(bs, i, used);
            var h' := h[bs[i].start := Tag(addr, used)];
            Linked(h', bs', addr, end) && DataKept(SIZEOF_STRUCT_MEM, h, h', UsedBlocks(bs'))
  {
    var bs' := Mark(bs, i, used);
    HeaderOf(h, bs, addr, end, i, i);
    var h' := h[bs[i].start := Tag(addr, used)];
    forall k | 0 <= k < |bs'|
      ensures BlockHeader(h', bs', addr, k)
    {
      HeaderOf(h, bs, addr, end, k, i);
    }
    assert Linked(h', bs', addr, end);
    MarkFacts(SIZEOF_STRUCT_MEM, bs, end, i, used);
    HeaderWrites(h, h', bs', end, i, i, i);
  }

  function JoinWrites(h: seq<int>, p: nat, m: nat, n: nat): (r: seq<int>)
    requires p + 12 <= m && m + 12 <= n && n + 12 <= |h|
    ensures |r| == |h|
  {
    h[m := 0][p + 4 := n][n + 8 := p]
  }

  lemma JoinElsewhere(h: seq<int>, p: nat, m: nat, n: nat, o: nat, pool: int, next: nat, prev: nat)
    requires p + 12 <= m && m + 12 <= n && n + 12 <= |h|
    requires HeaderAt(h, o, pool, next, prev) && (o + 12 <= p || o == n || n + 12 <= o)
    ensures HeaderAt(JoinWrites(h, p, m, n), o, pool, next, if o == n then p else prev)
  {
  }

  lemma JoinHeader(h: seq<int>, bs: seq<Block>, i: nat, addr: nat, end: nat, k: nat)
    requires Tiles(SIZEOF_STRUCT_MEM, bs, 0, end) && Linked(h, bs, addr, end)
    requires i + 1 < |bs| && !bs[i].used && bs[i + 1].next <= end && k < |bs| - 1
    requires bs[i].start + 12 <= bs[i + 1].start && bs[i + 1].start + 12 <= bs[i + 1].next
    ensures var bs' := Join(bs, i);
            var h' := JoinWrites(h, bs[i].start, bs[i + 1].start, bs[i + 1].next);
            BlockHeader(h', bs', addr, k)
  {
    var bs' := Join(bs, i);
    var p, m, n := bs[i].start, bs[i + 1].start, bs[i + 1].next;
    HeaderOf(h, bs, addr, end, i, i);
    HeaderOf(h, bs, addr, end, i + 1, i);
    if k < i {
      HeaderOf(h, bs, addr, end, k, i);
      assert bs'[k] == bs[k] && (k > 0 ==> bs'[k - 1] == bs[k - 1]);
      JoinElsewhere(h, p, m, n, bs[k].start, Tag(addr, bs[k].used), bs[k].next, if k == 0 then 0 else bs[k - 1].start);
    } else if k > i {
      HeaderOf(h, bs, addr, end, k + 1, i + 1);
      HeaderOf(h, bs, addr, end, k, i);
      HeaderOf(h, bs, addr, end, k + 1, k);
      assert bs'[k] == bs[k + 1];
      if k == i + 1 {
        assert bs'[k - 1].start == p;
      } else {
        assert bs'[k - 1] == bs[k];
        HeaderOf(h, bs, addr, end, k, i + 1);
      }
      JoinElsewhere(h, p, m, n, bs[k + 1].start, Tag(addr, bs[k + 1].used), bs[k + 1].next, bs[k].start);
    } else {
      assert bs'[i] == Block(p, n, bs[i].used) && (i > 0 ==> bs'[i - 1] == bs[i - 1]);
    }
  }

  lemma JoinData(h: seq<int>, h': seq<int>, bs: seq<Block>, i: nat, m: nat, end: nat)
    requires Tiles(SIZEOF_STRUCT_MEM, bs, 0, end) && |h| == |h'| == end + SIZEOF_STRUCT_MEM
    requires i < |bs| && !bs[i].used && bs[i].start <= m < bs[i].next
    requires forall x :: 0 <= x < |h| && x != m && !InHeader(bs, end, i, x) && !InHeader(bs, end, i + 1, x) ==>
        h'[x] == h[x]
    ensures DataKept(SIZEOF_STRUCT_MEM, h, h', UsedBlocks(bs))
  {
    Ordered(SIZEOF_STRUCT_MEM, bs, 0, end);
    forall k, x | 0 <= k < |bs| && bs[k].used && bs[k].start + SIZEOF_STRUCT_MEM <= x < bs[k].next
      ensures h'[x] == h[x]
    {
      DataNotHeader(bs, end, k, i, x);
      DataNotHeader(bs, end, k, i + 1, x);
    }
  }

  lemma LinkedJoin(h: seq<int>, bs: seq<Block>, i: nat, addr: nat, end: nat)
    requires Tiles(SIZEOF_STRUCT_MEM, bs, 0, end) && Linked(h, bs, addr, end)
    requires i + 1 < |bs| && !bs[i].used && !bs[i + 1].used && bs[i + 1].next <= end
    requires bs[i].start + 12 <= bs[i + 1].start && bs[i + 1].start + 12 <= bs[i + 1].next
    ensures var bs' := Join(bs, i);
            var h' := JoinWrites(h, bs[i].start, bs[i + 1].start, bs[i + 1].next);
            Linked(h', bs', addr, end) && DataKept(SIZEOF_STRUCT_MEM, h, h', UsedBlocks(bs'))
  {
    var bs' := Join(bs, i);
    var p, m, n := bs[i].start, bs[i + 1].start, bs[i + 1].next;
    var h' := JoinWrites(h, p, m, n);
    forall k | 0 <= k < |bs'|
      ensures BlockHeader(h', bs', addr, k)
    {
      JoinHeader(h, bs, i, addr, end, k);
    }
    HeaderOf(h, bs, addr, end, i + 1, i);
    if i + 2 < |bs| { HeaderOf(h, bs, addr, end, i + 2, i + 1); }
    assert Linked(h', bs', addr, end);
    JoinFacts(SIZEOF_STRUCT_MEM, bs, end, i);
    JoinData(h, h', bs', i, m, end);
  }

  // ----- searching -----

  /** Block `i` is free, holds `need` bytes, and no lower block does. */
  ghost predicate FirstFit(bs: seq<Block>, need: nat, i: int) {
    && 0 <= i < |bs|
    && Fits(SIZEOF_STRUCT_MEM, bs[i], need)
    && forall j :: 0 <= j < i ==> !Fits(SIZEOF_STRUCT_MEM, bs[j], need)
  }

  ghost predicate NoFit(bs: seq<Block>, need: nat) {
    forall j :: 0 <= j < |bs| ==> !Fits(SIZEOF_STRUCT_MEM, bs[j], need)
  }

  /** What becomes of free block `b`: its front part, or all of it when no further block fits behind. */
  function Granted(b: Block, need: nat): Block {
    if Data(SIZEOF_STRUCT_MEM, b) >= need + SIZEOF_STRUCT_MEM + MIN_SIZE
    then Block(b.start, b.start + SIZEOF_STRUCT_MEM + need, true)
    else b.(used := true)
  }

  /** The used blocks grow by what first fit grants from block `i`. */
  ghost predicate Allocated(bs: seq<Block>, bs': seq<Block>, need: nat, i: int) {
    && FirstFit(bs, need, i)
    && UsedBlocks(bs') == UsedBlocks(bs) + {Granted(bs[i], need)}
  }

  class SmallMem {
    const addr: nat      // address of this control block
    const heapPtr: nat   // address of the managed memory
    const memSize: nat   // mem_size_aligned
    const heap: array<int>
    var lfree: nat
    var used: nat
    var max: nat
    ghost var bs: seq<Block>
    ghost var history: seq<nat>   // every value `used` has had, the present one last

    ghost function End(): nat {
      memSize + SIZEOF_STRUCT_MEM
    }

    ghost predicate Fixed() {
      && Aligned(addr) && 0 < heapPtr && Aligned(heapPtr) && Aligned(memSize)
      && heapPtr + memSize + 2 * SIZEOF_STRUCT_MEM <= WORD_LIMIT
      && heap.Length == End() + SIZEOF_STRUCT_MEM
    }

    /** Tiling and memory agree. */
    ghost predicate Shape()
      reads this, heap
    {
      && Fixed()
      && Tiles(SIZEOF_STRUCT_MEM, bs, 0, End())
      && AllAligned(bs)
      && Linked(heap[..], bs, addr, End())
    }

    ghost predicate Valid()
      reads this, heap
    {
      && Shape()
      && Coalesced(bs)
      && LowestFree(bs, End(), lfree)
      && used == UsedSpan(bs)
      && Recorded()
    }

    /** The history ends with the present value, and `max` is the largest of it. */
    ghost predicate Recorded()
      reads this`used, this`max, this`history
    {
      && |history| > 0 && history[|history| - 1] == used
      && Highest(history, max)
    }

    lemma Facts()
      requires Valid()
      ensures Shape()
    {
    }

    ghost function Live(): set<Block>
      reads this
    {
      UsedBlocks(bs)
    }

    /** The address handed out for block `b`. */
    function Addr(b: Block): nat {
      heapPtr + b.start + SIZEOF_STRUCT_MEM
    }

    /** `rmem` was handed out and has not been given back. */
    ghost predicate Allotted(rmem: nat)
      reads this
    {
      exists b :: b in Live() && Addr(b) == rmem
    }

    predicate IsUsed(o: nat)
      reads heap
      requires o < heap.Length
    {
      UsedBit(heap[o])
    }

    constructor (addr: nat, heapPtr: nat, memSize: nat)
      requires Aligned(addr) && 0 < heapPtr && Aligned(heapPtr) && Aligned(memSize)
      requires heapPtr + memSize + 2 * SIZEOF_STRUCT_MEM <= WORD_LIMIT
      ensures Valid() && this.addr == addr && this.heapPtr == heapPtr && this.memSize == memSize
      ensures bs == [Block(0, End(), false)] && history == [0] && fresh(heap)
    {
      this.addr, this.heapPtr, this.memSize := addr, heapPtr, memSize;
      heap := new int[memSize + 2 * SIZEOF_STRUCT_MEM];
      used, max, lfree := 0, 0, 0;
      bs, history := [Block(0, memSize + SIZEOF_STRUCT_MEM, false)], [0];
      new;
      heap[0] := addr;
      heap[4] := memSize + SIZEOF_STRUCT_MEM;
      heap[8] := 0;
      var end := heap[4];
      heap[end] := addr + 1;
      heap[end + 4] := memSize + SIZEOF_STRUCT_MEM;
      heap[end + 8] := memSize + SIZEOF_STRUCT_MEM;
      assert bs[..0] == [];
      assert BlockHeader(heap[..], bs, addr, 0);
    }

    /** Lays the control block and the heap out in [beginAddr, beginAddr + size), or finds it too small.
        `ctrl` is the size of the control block. */
    static method Init(beginAddr: nat, size: nat, ctrl: nat) returns (m: SmallMem?)
      requires 0 < ctrl && Aligned(ctrl)
      requires beginAddr + size < WORD_LIMIT && beginAddr + ctrl + 4 <= WORD_LIMIT
      ensures m == null <==> RtAlignDown(beginAddr + size) < RtAlign(beginAddr) + ctrl + 2 * SIZEOF_STRUCT_MEM
      ensures m != null ==> fresh(m) && m.Valid() && m.bs == [Block(0, m.End(), false)]
      ensures m != null ==> beginAddr <= m.addr < beginAddr + 4 && m.addr + ctrl == m.heapPtr
      ensures m != null ==> beginAddr + size - 4 < m.heapPtr + m.memSize + 2 * SIZEOF_STRUCT_MEM <= beginAddr + size
    {
      hide RtAlign, RtAlignDown, SmallMem.Valid, Aligned;
      var smallMem := RtAlign(beginAddr);
      var startAddr := smallMem + ctrl;
      var beginAlign := RtAlign(startAddr);
      var endAlign := RtAlignDown(beginAddr + size);
      AlignedSum(smallMem, ctrl);
      AlignedSum(endAlign, -startAddr - 48);
      if endAlign > 2 * SIZEOF_STRUCT_MEM && endAlign - 2 * SIZEOF_STRUCT_MEM >= startAddr {
        m := new SmallMem(smallMem, beginAlign, endAlign - beginAlign - 2 * SIZEOF_STRUCT_MEM);
      } else {
        m := null;
      }
    }

    /** Block `p` takes in its free right neighbour `m` (the body of either hole plugging step). */
    method Absorb(p: nat, m: nat, ghost i: nat)
      requires Shape()
      requires i + 1 < |bs| && bs[i].start == p && bs[i + 1].start == m && !bs[i].used && !bs[i + 1].used
      modifies this`bs, this`lfree, heap
      ensures Shape() && lfree == if old(lfree) == m then p else old(lfree)
      ensures bs == Join(old(bs), i)
      ensures Live() == old(Live()) && UsedSpan(bs) == old(UsedSpan(bs))
      ensures DataKept(SIZEOF_STRUCT_MEM, old(heap[..]), heap[..], Live())
    {
      hide Tiles, Linked, Coalesced, LowestFree, UsedSpan, UsedBit, Aligned, DataKept, UsedBlocks;
      ghost var h := heap[..];
      HeaderOf(h, bs, addr, End(), i + 1, i);
      HeaderOf(h, bs, addr, End(), i, i);
      ghost var n := bs[i + 1].next;
      assert p + 12 <= m && m + 12 <= n && n + 12 <= heap.Length && heap[m + 4] == n;
      if lfree == m {
        lfree := p;
      }
      heap[m] := 0;
      heap[p + 4] := heap[m + 4];
      assert heap[m + 4] == n;
      heap[heap[m + 4] + 8] := p;
      assert heap[..] == JoinWrites(h, p, m, n);
      LinkedJoin(h, bs, i, addr, End());
      JoinFacts(SIZEOF_STRUCT_MEM, bs, End(), i);
      bs := Join(bs, i);
    }

    method PlugForward(mem: nat, ghost i: nat)
      requires Shape() && LowestFree(bs, End(), lfree)
      requires i < |bs| && bs[i].start == mem && !bs[i].used && CoalescedBut(bs, {i - 1, i})
      modifies this`bs, this`lfree, heap
      ensures Shape() && LowestFree(bs, End(), lfree) && CoalescedBut(bs, {i - 1})
      ensures i < |bs| && bs[i].start == mem && !bs[i].used
      ensures Live() == old(Live()) && UsedSpan(bs) == old(UsedSpan(bs))
      ensures DataKept(SIZEOF_STRUCT_MEM, old(heap[..]), heap[..], Live())
    {
      hide Linked, UsedSpan, UsedBit, Aligned;
      HeaderOf(heap[..], bs, addr, End(), i, i);
      if i + 1 < |bs| { HeaderOf(heap[..], bs, addr, End(), i + 1, i); }
      var nmem := heap[mem + 4];
      if mem != nmem && !IsUsed(nmem) && nmem != memSize + SIZEOF_STRUCT_MEM {
        LowestJoin(bs, End(), i, lfree);
        JoinMends(bs, i, {i - 1});
        Absorb(mem, nmem, i);
      } else {
        assert i + 1 < |bs| ==> OneUsed(bs, i);
      }
    }

    method PlugBackward(mem: nat, ghost i: nat)
      requires Shape() && LowestFree(bs, End(), lfree)
      requires i < |bs| && bs[i].start == mem && !bs[i].used && CoalescedBut(bs, {i - 1})
      modifies this`bs, this`lfree, heap
      ensures Shape() && LowestFree(bs, End(), lfree) && Coalesced(bs)
      ensures Live() == old(Live()) && UsedSpan(bs) == old(UsedSpan(bs))
      ensures DataKept(SIZEOF_STRUCT_MEM, old(heap[..]), heap[..], Live())
    {
      hide Linked, UsedSpan, UsedBit, Aligned;
      HeaderOf(heap[..], bs, addr, End(), i, i);
      if i > 0 { HeaderOf(heap[..], bs, addr, End(), i - 1, i); }
      var pmem := heap[mem + 8];
      if pmem != mem && !IsUsed(pmem) {
        LowestJoin(bs, End(), i - 1, lfree);
        JoinMends(bs, i - 1, {});
        Absorb(pmem, mem, i - 1);
      } else {
        assert i > 0 ==> OneUsed(bs, i - 1);
      }
    }

    /** Merges the free block at `mem` with free neighbours on either side. */
    method PlugHoles(mem: nat, ghost i: nat)
      requires Shape() && LowestFree(bs, End(), lfree)
      requires i < |bs| && bs[i].start == mem && !bs[i].used && CoalescedBut(bs, {i - 1, i})
      modifies this`bs, this`lfree, heap
      ensures Shape() && LowestFree(bs, End(), lfree) && Coalesced(bs)
      ensures Live() == old(Live()) && UsedSpan(bs) == old(UsedSpan(bs))
      ensures DataKept(SIZEOF_STRUCT_MEM, old(heap[..]), heap[..], Live())
    {
      hide Tiles, Linked, Coalesced, LowestFree, UsedSpan, UsedBit, Aligned;
      PlugForward(mem, i);
      PlugBackward(mem, i);
    }

    /** Writes the header of a further block at `ptr2`, behind the block at `ptr`. */
    method WriteHeader(ptr: nat, ptr2: nat, ghost n: nat)
      requires heap.Length == End() + SIZEOF_STRUCT_MEM
      requires ptr + 12 <= ptr2 && ptr2 + 12 <= n <= End() && heap[ptr + 4] == n && (n != End() ==> n + 12 <= End())
      modifies heap
      ensures heap[..] == SplitWrites(old(heap[..]), ptr, ptr2, n, addr, End())
    {
      var next := heap[ptr + 4];
      heap[ptr2] := addr;
      heap[ptr2 + 4] := next;
      heap[ptr2 + 8] := ptr;
      heap[ptr + 4] := ptr2;
      if next != memSize + SIZEOF_STRUCT_MEM {
        heap[next + 8] := ptr2;
      }
    }

    /** Cuts block `i` at `mid`; the rear part becomes a free block of its own. */
    method Carve(ptr: nat, ptr2: nat, ghost i: nat)
      requires Shape()
      requires i < |bs| && bs[i].start == ptr && ptr + 12 <= ptr2 && ptr2 + 12 <= bs[i].next && Aligned(ptr2)
      modifies this`bs, heap
      ensures Shape() && bs == Split(old(bs), i, ptr2, old(bs)[i].used)
      ensures UsedSpan(bs) == old(UsedSpan(bs)) - if old(bs)[i].used then old(bs)[i].next - ptr2 else 0
      ensures Live() == old(Live()) - {old(bs)[i]} + (if old(bs)[i].used then {Block(ptr, ptr2, true)} else {})
      ensures DataKept(SIZEOF_STRUCT_MEM, old(heap[..]), heap[..], Live())
    {
      hide Tiles, Linked, Coalesced, LowestFree, UsedSpan, UsedBit, Aligned, DataKept, UsedBlocks, SplitWrites;
      ghost var h, n := heap[..], bs[i].next;
      HeaderOf(h, bs, addr, End(), i, i);
      if i + 1 < |bs| { HeaderOf(h, bs, addr, End(), i + 1, i); }
      WriteHeader(ptr, ptr2, n);
      LinkedSplit(h, bs, i, ptr2, addr, End());
      SplitFacts(SIZEOF_STRUCT_MEM, bs, End(), i, ptr2, bs[i].used);
      bs := Split(bs, i, ptr2, bs[i].used);
    }

    method SetTag(ptr: nat, use: bool, ghost i: nat)
      requires Shape() && i < |bs| && bs[i].start == ptr && bs[i].used != use
      modifies this`bs, heap
      ensures Shape() && bs == Mark(old(bs), i, use)
      ensures UsedSpan(bs) + (if use then 0 else bs[i].next - ptr) == old(UsedSpan(bs))
          + (if use then bs[i].next - ptr else 0)
      ensures Live() == if use then old(Live()) + {bs[i]} else old(Live()) - {old(bs)[i]}
      ensures DataKept(SIZEOF_STRUCT_MEM, old(heap[..]), heap[..], Live())
    {
      hide Tiles, Linked, Coalesced, LowestFree, UsedSpan, UsedBit, Aligned;
      ghost var h := heap[..];
      HeaderOf(h, bs, addr, End(), i, i);
      heap[ptr] := if use then addr + 1 else addr;
      assert heap[..] == h[ptr := Tag(addr, use)];
      LinkedMark(h, bs, i, use, addr, End());
      MarkFacts(SIZEOF_STRUCT_MEM, bs, End(), i, use);
      bs := Mark(bs, i, use);
    }

    /** Moves `lfree` up from the block just taken to the next free one. */
    method AdvanceLowest(ghost i: nat)
      requires Shape() && i < |bs| && bs[i].start == lfree
      requires forall j :: 0 <= j < i ==> bs[j].used
      modifies this`lfree
      ensures LowestFree(bs, End(), lfree)
    {
      ghost var k := i;
      Ordered(SIZEOF_STRUCT_MEM, bs, 0, End());
      while IsUsed(lfree) && lfree != memSize + SIZEOF_STRUCT_MEM
        invariant k <= |bs| && lfree == StartOf(bs, End(), k)
        invariant forall j :: 0 <= j < k ==> bs[j].used
        decreases |bs| - k
      {
        HeaderOf(heap[..], bs, addr, End(), k, k);
        if k + 1 < |bs| { assert Meet(bs, k); }
        lfree := heap[lfree + 4];
        k := k + 1;
      }
      if k < |bs| { HeaderOf(heap[..], bs, addr, End(), k, k); }
      assert lfree == memSize + SIZEOF_STRUCT_MEM || !IsUsed(lfree);
    }

    /** Accounts for `more` bytes going into use. */
    method Count(more: nat)
      requires Recorded()
      modifies this`used, this`history, this`max
      ensures Recorded() && used == old(used) + more && history == old(history) + [used]
      ensures max == Max(old(max), used)
    {
      hide Highest;
      HighestNext(history, max, used + more);
      used := used + more;
      if max < used { max := used; }
      history := history + [used];
    }

    /** Makes the free block at `ptr` as long as the request, if a further block fits behind, and counts it. */
    method Fit(ptr: nat, size: nat, ghost i: nat)
      requires Valid() && FirstFit(bs, size, i) && bs[i].start == ptr
      requires Aligned(size) && size >= MIN_SIZE
      modifies this`bs, this`used, this`history, this`max, heap
      ensures Shape() && Recorded() && i < |bs| && bs[i].start == ptr && !bs[i].used
      ensures bs[i].(used := true) == Granted(old(bs)[i], size) && bs[..i] == old(bs)[..i]
      ensures Coalesced(Mark(bs, i, true)) && Live() == old(Live())
      ensures UsedSpan(bs) == old(UsedSpan(bs)) && used == old(used) + Span(Granted(old(bs)[i], size))
      ensures history == old(history) + [used] && max == Max(old(max), used)
      ensures DataKept(SIZEOF_STRUCT_MEM, old(heap[..]), heap[..], old(Live()))
    {
      hide Tiles, Linked, Coalesced, LowestFree, UsedSpan, UsedBit, Aligned, DataKept, Recorded;
      HeaderOf(heap[..], bs, addr, End(), i, i);
      if heap[ptr + 4] - (ptr + SIZEOF_STRUCT_MEM) >= size + SIZEOF_STRUCT_MEM + MIN_SIZE {
        SplitCoalesced(bs, i, ptr + SIZEOF_STRUCT_MEM + size);
        AlignedSum(ptr, size);
        Carve(ptr, ptr + SIZEOF_STRUCT_MEM + size, i);
        Count(size + SIZEOF_STRUCT_MEM);
        assert Mark(bs, i, true) == Split(old(bs), i, ptr + SIZEOF_STRUCT_MEM + size, true);
      } else {
        MarkCoalesced(bs, i);
        Count(heap[ptr + 4] - ptr);
        KeptSame(SIZEOF_STRUCT_MEM, heap[..], Live());
      }
    }

    /** Cuts the request off the free block at `ptr`, or takes all of it, and counts it as used. */
    method Grant(ptr: nat, size: nat, ghost i: nat)
      requires Valid() && FirstFit(bs, size, i) && bs[i].start == ptr
      requires Aligned(size) && size >= MIN_SIZE
      modifies this`bs, this`used, this`history, this`max, heap
      ensures Shape() && Coalesced(bs) && used == UsedSpan(bs) && Recorded()
      ensures Allocated(old(bs), bs, size, i)
      ensures used == old(used) + Span(Granted(old(bs)[i], size)) && history == old(history) + [used]
      ensures i < |bs| && bs[i].used && bs[..i] == old(bs)[..i] && bs[i].start == ptr
      ensures max == Max(old(max), used)
      ensures DataKept(SIZEOF_STRUCT_MEM, old(heap[..]), heap[..], old(Live()))
    {
      hide Tiles, Linked, Coalesced, LowestFree, UsedSpan, UsedBit, Aligned, DataKept, Recorded, UsedBlocks;
      ghost var h0 := heap[..];
      Fit(ptr, size, i);
      ghost var h1 := heap[..];
      SetTag(ptr, true, i);
      KeptTwice(SIZEOF_STRUCT_MEM, h0, h1, heap[..], old(Live()), old(Live()), Live());
    }

    /** Turns the free block at `ptr`, found to be large enough, into a used one. */
    method Take(ptr: nat, size: nat, ghost i: nat)
      requires Valid() && FirstFit(bs, size, i) && bs[i].start == ptr
      requires Aligned(size) && size >= MIN_SIZE
      modifies this`bs, this`lfree, this`used, this`history, this`max, heap
      ensures Valid() && Allocated(old(bs), bs, size, i)
      ensures max == Max(old(max), used)
      ensures used == old(used) + Span(Granted(old(bs)[i], size)) && history == old(history) + [used]
      ensures DataKept(SIZEOF_STRUCT_MEM, old(heap[..]), heap[..], old(Live()))
    {
      hide Tiles, Linked, Coalesced, LowestFree, UsedSpan, UsedBit, Aligned;
      Grant(ptr, size, i);
      LowestGrant(old(bs), bs, End(), i, lfree);
      if ptr == lfree {
        AdvanceLowest(i);
      }
    }

    ghost function BlockAt(rmem: nat): (b: Block)
      reads this
      requires Allotted(rmem)
      ensures b in Live() && Addr(b) == rmem
    {
      var b :| b in Live() && Addr(b) == rmem; b
    }

    /** The search loop: from the lowest free block upwards, up to the last offset that could fit. */
    method Search(need: nat) returns (found: bool, ptr: nat, ghost k: nat)
      requires Valid() && need <= memSize
      ensures found ==> FirstFit(bs, need, k) && ptr == bs[k].start
      ensures !found ==> NoFit(bs, need)
    {
      ptr := lfree;
      k := FromLowest(bs, End(), lfree, need);
      ghost var h := heap[..];
      while ptr <= memSize - need
        invariant k <= |bs| && ptr == StartOf(bs, End(), k)
        invariant forall j :: 0 <= j < k ==> !Fits(SIZEOF_STRUCT_MEM, bs[j], need)
        decreases |bs| - k
      {
        HeaderOf(h, bs, addr, End(), k, k);
        if !IsUsed(ptr) && heap[ptr + 4] - (ptr + SIZEOF_STRUCT_MEM) >= need {
          return true, ptr, k;
        }
        NextStart(bs, End(), k);
        ptr := heap[ptr + 4];
        k := k + 1;
      }
      TooHigh(bs, End(), k, need);
      found := false;
    }

    /** First-fit allocation of at least `size` bytes; `i` is the index of the block it is taken from. */
    method Alloc(size: Word) returns (rmem: nat, ghost i: int)
      requires Valid()
      modifies this`bs, this`lfree, this`used, this`history, this`max, heap
      ensures Valid()
      ensures rmem == NULL <==> size == 0 || NoFit(old(bs), Need(size))
      ensures rmem == NULL ==> unchanged(this) && heap[..] == old(heap[..])
      ensures rmem != NULL ==> Allocated(old(bs), bs, Need(size), i) && rmem == Addr(old(bs)[i])
      ensures rmem == NULL && size != 0 <==>
                size != 0 && forall f :: f in old(bs) && !f.used ==> Data(SIZEOF_STRUCT_MEM, f) < Need(size)
      ensures rmem != NULL ==>
                forall f :: f in old(bs) && !f.used && Data(SIZEOF_STRUCT_MEM, f) >= Need(size) ==> rmem <= Addr(f)
      ensures rmem != NULL ==>
                Served(SIZEOF_STRUCT_MEM, MIN_SIZE, old(Live()), Live(), rmem - heapPtr - SIZEOF_STRUCT_MEM, Need(size))
      ensures rmem != NULL ==>
                Counted(SIZEOF_STRUCT_MEM, MIN_SIZE, used - old(used), Need(size), Data(SIZEOF_STRUCT_MEM, old(bs)[i]))
      ensures rmem != NULL ==> Aligned(rmem) && rmem + Need(size) <= heapPtr + End()
      ensures max == Max(old(max), used)
      ensures rmem != NULL ==>
                && used == old(used) + Span(Granted(old(bs)[i], Need(size)))
                && history == old(history) + [used]
      ensures DataKept(SIZEOF_STRUCT_MEM, old(heap[..]), heap[..], old(Live()))
    {
      hide Tiles, Linked, Coalesced, LowestFree, UsedSpan, UsedBit, Aligned;
      if size == 0 {
        return NULL, 0;
      }
      var need := RtAlign(size);
      if need < MIN_SIZE {
        need := MIN_SIZE;
      }
      assert need == Need(size);
      NoFitIs(bs, need);
      if need > memSize {
        Ordered(SIZEOF_STRUCT_MEM, bs, 0, End());
        return NULL, 0;
      }
      var found, ptr;
      ghost var k;
      found, ptr, k := Search(need);
      if found {
        FitAddress(heapPtr, bs, End(), k, need);
        LowestFit(bs, End(), need, k);
        Take(ptr, need, k);
        GrantServes(old(bs), bs, End(), need, k);
        return heapPtr + ptr + SIZEOF_STRUCT_MEM, k;
      }
      return NULL, 0;
    }

    /** Marks block `i` free, lowers `lfree` and uncounts it; its neighbours may still be free too. */
    method Release(mem: nat, ghost i: nat)
      requires Valid() && i < |bs| && bs[i].start == mem && bs[i].used
      modifies this`bs, this`lfree, this`used, this`history, heap
      ensures Shape() && LowestFree(bs, End(), lfree) && used == UsedSpan(bs)
      ensures Recorded() && history == old(history) + [used] && used == old(used) - Span(old(bs)[i])
      ensures i < |bs| && bs[i].start == mem && !bs[i].used && CoalescedBut(bs, {i - 1, i})
      ensures Live() == old(Live()) - {old(bs)[i]}
      ensures DataKept(SIZEOF_STRUCT_MEM, old(heap[..]), heap[..], Live())
    {
      hide Tiles, Linked, Coalesced, LowestFree, UsedSpan, UsedBit, Aligned;
      LowestFreed(bs, End(), i, lfree);
      SetTag(mem, false, i);
      HeaderOf(heap[..], bs, addr, End(), i, i);
      if mem < lfree {
        lfree := mem;
      }
      used := used - (heap[mem + 4] - mem);
      HighestNext(history, max, used);
      history := history + [used];
    }

    /** Gives the block at `rmem` back. */
    method Free(rmem: nat)
      requires Valid() && (rmem == NULL || Allotted(rmem))
      modifies this`bs, this`lfree, this`used, this`history, heap
      ensures Valid()
      ensures Live() == set b | b in old(Live()) && Addr(b) != rmem
      ensures rmem == NULL ==> unchanged(this) && heap[..] == old(heap[..])
      ensures rmem != NULL ==> history == old(history) + [used] && used == old(used) - Span(old(BlockAt(rmem)))
      ensures DataKept(SIZEOF_STRUCT_MEM, old(heap[..]), heap[..], Live())
    {
      hide Tiles, Linked, Coalesced, LowestFree, UsedSpan, UsedBit, Aligned;
      if rmem == NULL {
        return;
      }
      ghost var b := BlockAt(rmem);
      assert b in bs && b.used && Addr(b) == rmem;
      ghost var i :| 0 <= i < |bs| && bs[i] == b;
      ghost var h0 := heap[..];
      var mem := rmem - SIZEOF_STRUCT_MEM - heapPtr;
      HeaderOf(h0, bs, addr, End(), i, i);
      FreeChecks(h0, bs, addr, End(), i);
      OthersStay(SIZEOF_STRUCT_MEM, bs, End(), i);
      Release(mem, i);
      ghost var h1 := heap[..];
      PlugHoles(mem, i);
      KeptTwice(SIZEOF_STRUCT_MEM, h0, h1, heap[..], Live(), Live(), Live());
    }

    /** The owner of a block writes one byte of its data; the heap does not notice. */
    method Store(a: nat, v: int, ghost b: Block)
      requires Valid() && b in Live() && Addr(b) <= a < Addr(b) + Data(SIZEOF_STRUCT_MEM, b)
      modifies heap
      ensures Valid()
      ensures a - heapPtr < heap.Length && heap[..] == old(heap[..])[a - heapPtr := v]
      ensures DataKept(SIZEOF_STRUCT_MEM, old(heap[..]), heap[..], Live() - {b})
    {
      hide Tiles, Linked, Coalesced, LowestFree, UsedSpan, UsedBit, Aligned;
      ghost var i :| 0 <= i < |bs| && bs[i] == b;
      ghost var h := heap[..];
      HeaderOf(h, bs, addr, End(), i, i);
      heap[a - heapPtr] := v;
      DataWrite(h, heap[..], bs, addr, End(), i);
    }

    /** Cuts the tail off a used block; the tail may still have a free neighbour. */
    method CutTail(ptr: nat, newsize: nat, ghost i: nat)
      requires Valid() && i < |bs| && bs[i].used && ptr == bs[i].start
      requires Aligned(newsize) && newsize + SIZEOF_STRUCT_MEM + MIN_SIZE < Data(SIZEOF_STRUCT_MEM, bs[i])
      modifies this`bs, this`lfree, this`used, this`history, heap
      ensures Shape() && LowestFree(bs, End(), lfree) && used == UsedSpan(bs)
      ensures Recorded() && history == old(history) + [used]
      ensures used == old(used) - (Data(SIZEOF_STRUCT_MEM, old(bs)[i]) - newsize)
      ensures i + 1 < |bs| && bs[i + 1].start == ptr + SIZEOF_STRUCT_MEM + newsize && !bs[i + 1].used
      ensures CoalescedBut(bs, {i, i + 1})
      ensures Live() == old(Live()) - {old(bs)[i]} + {Block(ptr, ptr + SIZEOF_STRUCT_MEM + newsize, true)}
      ensures DataKept(SIZEOF_STRUCT_MEM, old(heap[..]), heap[..], Live())
    {
      hide Tiles, Linked, Coalesced, LowestFree, UsedSpan, UsedBit, Aligned;
      HeaderOf(heap[..], bs, addr, End(), i, i);
      var size := heap[ptr + 4] - ptr - SIZEOF_STRUCT_MEM;
      var ptr2 := ptr + SIZEOF_STRUCT_MEM + newsize;
      LowestCut(bs, End(), i, ptr2, lfree);
      CutCoalesced(bs, i, ptr2);
      AlignedSum(ptr, newsize);
      Carve(ptr, ptr2, i);
      used := used - (size - newsize);
      HighestNext(history, max, used);
      history := history + [used];
      if ptr2 < lfree {
        lfree := ptr2;
      }
    }

    /** Cuts the tail off a used block and gives it back. */
    method Shrink(rmem: nat, newsize: nat, ghost i: nat)
      requires Valid() && i < |bs| && bs[i].used && rmem == Addr(bs[i])
      requires Aligned(newsize) && newsize + SIZEOF_STRUCT_MEM + MIN_SIZE < Data(SIZEOF_STRUCT_MEM, bs[i])
      modifies this`bs, this`lfree, this`used, this`history, heap
      ensures Valid() && history == old(history) + [used]
      ensures used == old(used) - (Data(SIZEOF_STRUCT_MEM, old(bs)[i]) - newsize)
      ensures Live() == old(Live()) - {old(bs)[i]}
                        + {Block(old(bs)[i].start, old(bs)[i].start + SIZEOF_STRUCT_MEM + newsize, true)}
      ensures DataKept(SIZEOF_STRUCT_MEM, old(heap[..]), heap[..], Live())
    {
      hide Tiles, Linked, Coalesced, LowestFree, UsedSpan, UsedBit, Aligned;
      ghost var h0 := heap[..];
      var ptr := rmem - SIZEOF_STRUCT_MEM - heapPtr;
      CutTail(ptr, newsize, i);
      ghost var h1 := heap[..];
      PlugHoles(ptr + SIZEOF_STRUCT_MEM + newsize, i + 1);
      KeptTwice(SIZEOF_STRUCT_MEM, h0, h1, heap[..], Live(), Live(), Live());
    }

    /** Copies the first `n` data bytes of block `b` to block `g`. */
    method CopyData(dst: nat, src: nat, n: nat, ghost g: Block, ghost b: Block)
      requires Valid() && g in Live() && b in Live() && b != g
      requires dst == g.start + SIZEOF_STRUCT_MEM && src == b.start + SIZEOF_STRUCT_MEM
      requires n <= Data(SIZEOF_STRUCT_MEM, b) && n <= Data(SIZEOF_STRUCT_MEM, g)
      modifies heap
      ensures Valid()
      ensures Carried(old(heap[..]), heap[..], b.start + SIZEOF_STRUCT_MEM, g.start + SIZEOF_STRUCT_MEM, n)
      ensures DataKept(SIZEOF_STRUCT_MEM, old(heap[..]), heap[..], Live() - {g})
    {
      hide Tiles, Linked, Coalesced, LowestFree, UsedSpan, UsedBit, Aligned, MemOps.Copied, DataKept, Carried;
      ghost var h := heap[..];
      ghost var k :| 0 <= k < |bs| && bs[k] == g;
      ghost var j :| 0 <= j < |bs| && bs[j] == b;
      HeaderOf(h, bs, addr, End(), k, j);
      HeaderOf(h, bs, addr, End(), j, k);
      MemOps.MemCpy(heap, dst, src, n);
      MemOps.Arrived(h, heap[..], dst, src, n);
      MemOps.Elsewhere(h, heap[..], dst, src, n, g.start + SIZEOF_STRUCT_MEM, g.next);
      IsCarried(h, heap[..], src, dst, n);
      DataWrite(h, heap[..], bs, addr, End(), k);
    }

    /** Moves a used block to a newly allocated one, if there is room for it. */
    method Move(rmem: nat, size: nat, newsize: Word, ghost b: Block) returns (nmem: nat, ghost i: int)
      requires Valid() && b in Live() && rmem == Addr(b) && newsize > 0 && Aligned(newsize)
      requires size == Data(SIZEOF_STRUCT_MEM, b)
      modifies this`bs, this`lfree, this`used, this`history, this`max, heap
      ensures Valid()
      ensures nmem == NULL <==> NoFit(old(bs), Need(newsize))
      ensures nmem == NULL ==> unchanged(this) && heap[..] == old(heap[..])
      ensures nmem != NULL ==> Moved(old(bs), bs, Need(newsize), b, i) && nmem == Addr(old(bs)[i])
      ensures nmem != NULL ==> Carried(old(heap[..]), heap[..], rmem - heapPtr, nmem - heapPtr, Least(size, newsize))
      ensures DataKept(SIZEOF_STRUCT_MEM, old(heap[..]), heap[..], old(Live()) * Live())
      ensures nmem != NULL ==> var both := old(used) + Span(Granted(old(bs)[i], Need(newsize)));
                               history == old(history) + [both, used] && max == Max(old(max), both)
    {
      hide Tiles, Linked, Coalesced, LowestFree, UsedSpan, UsedBit, Aligned, Valid, DataKept, SameBytes, Carried, NoFit,
           RtAlign, Need, UsedBlocks, Fits, Fixed, HeaderAt, AllAligned, Granted, FirstFit;
      ghost var h0, bs0 := heap[..], bs;
      Facts();
      nmem, i := Alloc(newsize);
      if nmem == NULL {
        KeptSame(SIZEOF_STRUCT_MEM, h0, old(Live()) * Live());
        return;
      }
      Facts();
      ghost var h1, bs1 := heap[..], bs;
      GrantedIs(bs0, Need(newsize), i);
      ghost var g := Granted(bs0[i], Need(newsize));
      GrantedApart(SIZEOF_STRUCT_MEM, bs0, bs1, End(), i, g, b);
      var n := if size < newsize then size else newsize;
      NeedAligned(newsize);
      MoveData(rmem, nmem, n, b, g);
      MoveConclude(SIZEOF_STRUCT_MEM, h0, h1, heap[..], UsedBlocks(bs0), UsedBlocks(bs1), UsedBlocks(bs), b, g, n);
    }

    /** The second half of a move: copy the data, give the old block back. */
    method MoveData(rmem: nat, nmem: nat, n: nat, ghost b: Block, ghost g: Block)
      requires Valid() && b in Live() && g in Live() && b != g && rmem == Addr(b) && nmem == Addr(g)
      requires n <= Data(SIZEOF_STRUCT_MEM, b) && n <= Data(SIZEOF_STRUCT_MEM, g)
      modifies this`bs, this`lfree, this`used, this`history, heap
      ensures Valid() && history == old(history) + [used]
      ensures Live() == old(Live()) - {b}
      ensures Carried(old(heap[..]), heap[..], b.start + SIZEOF_STRUCT_MEM, g.start + SIZEOF_STRUCT_MEM, n)
      ensures DataKept(SIZEOF_STRUCT_MEM, old(heap[..]), heap[..], old(Live()) - {b, g})
    {
      hide Tiles, Linked, Coalesced, LowestFree, UsedSpan, UsedBit, Aligned;
      ghost var h1 := heap[..];
      CopyData(nmem - heapPtr, rmem - heapPtr, n, g, b);
      ghost var h2 := heap[..];
      assert Allotted(rmem);
      UsedApart(bs, End(), b);
      assert (set x | x in Live() && Addr(x) != rmem) == old(Live()) - {b};
      Free(rmem);
      assert g in Live();
      assert SameBytes(h2, heap[..], g.start + SIZEOF_STRUCT_MEM, g.next);
      CarriedOn(SIZEOF_STRUCT_MEM, h1, h2, heap[..], b, g, n);
      KeptTwice(SIZEOF_STRUCT_MEM, h1, h2, heap[..], old(Live()) - {b, g}, old(Live()) - {g}, Live());
    }

    /** What a request for `n` (rounded, not zero, not beyond the heap) does to the used block `b`,
        and the values that `used` takes on: a move holds both blocks for a while. */
    twostate predicate Resized(b: Block, n: Word, r: nat, i: int)
      reads this
    {
      if InPlace(b, n) then
        && r == Addr(b) && Live() == old(Live()) - {b} + {Block(b.start, b.start + SIZEOF_STRUCT_MEM + n, true)}
        && history == old(history) + (if Data(SIZEOF_STRUCT_MEM, b) == n then [] else [used])
        && used == old(used) - (Data(SIZEOF_STRUCT_MEM, b) - n) && max == old(max)
      else if NoFit(old(bs), Need(n)) then
        r == NULL
      else
        && r != NULL && Moved(old(bs), bs, Need(n), b, i) && r == Addr(old(bs)[i])
        && Served(SIZEOF_STRUCT_MEM, MIN_SIZE, old(Live()) - {b}, Live(), old(bs)[i].start, Need(n))
        && var both := old(used) + Span(Granted(old(bs)[i], Need(n)));
           && history == old(history) + [both, used] && max == Max(old(max), both)
           && Counted(SIZEOF_STRUCT_MEM, MIN_SIZE, both - old(used), Need(n), Data(SIZEOF_STRUCT_MEM, old(bs)[i]))
    }

    method DataSize(rmem: nat, ghost b: Block) returns (size: nat, ghost i: nat)
      requires Valid() && b in Live() && rmem == Addr(b)
      ensures i < |bs| && bs[i] == b && b.used && size == Data(SIZEOF_STRUCT_MEM, b) && b.next <= heap.Length
    {
      hide Tiles, Linked, Coalesced, LowestFree, UsedSpan, UsedBit, Aligned;
      i :| 0 <= i < |bs| && bs[i] == b;
      HeaderOf(heap[..], bs, addr, End(), i, i);
      var ptr := rmem - SIZEOF_STRUCT_MEM - heapPtr;
      size := heap[ptr + 4] - ptr - SIZEOF_STRUCT_MEM;
    }

    /** A used block is to hold as many bytes as it does, or so many fewer that the rest makes a block. */
    method ShrinkOrKeep(rmem: nat, size: nat, n: Word, ghost b: Block, ghost i: nat)
      requires Valid() && i < |bs| && bs[i] == b && b.used && rmem == Addr(b) && b.next <= heap.Length
      requires size == Data(SIZEOF_STRUCT_MEM, b) && InPlace(b, n) && Aligned(n)
      modifies this`bs, this`lfree, this`used, this`history, heap
      ensures Valid()
      ensures Resized(b, n, rmem, 0)
      ensures Carried(old(heap[..]), heap[..], rmem - heapPtr, rmem - heapPtr, n)
      ensures DataKept(SIZEOF_STRUCT_MEM, old(heap[..]), heap[..], old(Live()) * Live())
    {
      hide Tiles, Linked, Coalesced, LowestFree, UsedSpan, UsedBit, Aligned, DataKept, Carried, Valid, Moved, NoFit;
      ghost var h := heap[..];
      ghost var c := Block(b.start, b.start + SIZEOF_STRUCT_MEM + n, true);
      if size == n {
        assert c == b && Live() == Live() - {b} + {b};
        KeptSame(SIZEOF_STRUCT_MEM, h, Live() * Live());
      } else {
        Shrink(rmem, n, i);
        KeptLess(SIZEOF_STRUCT_MEM, h, heap[..], Live(), old(Live()) * Live());
        KeptOne(SIZEOF_STRUCT_MEM, h, heap[..], Live(), c);
      }
      CutKeeps(h, heap[..], b, n);
    }

    method ReallocUsed(rmem: nat, n: Word, ghost b: Block) returns (r: nat, ghost at: int)
      requires Valid() && b in Live() && rmem == Addr(b)
      requires 0 < n <= memSize && Aligned(n)
      modifies this`bs, this`lfree, this`used, this`history, this`max, heap
      ensures Valid()
      ensures Resized(b, n, r, at)
      ensures r == NULL ==> unchanged(this) && heap[..] == old(heap[..])
      ensures r != NULL ==>
                Carried(old(heap[..]), heap[..], rmem - heapPtr, r - heapPtr, Least(Data(SIZEOF_STRUCT_MEM, b), n))
      ensures DataKept(SIZEOF_STRUCT_MEM, old(heap[..]), heap[..], old(Live()) * Live())
    {
      hide Tiles, Linked, Coalesced, LowestFree, UsedSpan, UsedBit, Aligned, DataKept, Carried, SameBytes, Valid, Moved,
           NoFit, UsedBlocks;
      var size;
      ghost var i;
      size, i := DataSize(rmem, b);
      if size == n || n + SIZEOF_STRUCT_MEM + MIN_SIZE < size {
        ShrinkOrKeep(rmem, size, n, b, i);
        return rmem, 0;
      }
      ghost var bs0 := bs;
      Facts();
      r, at := Move(rmem, size, n, b);
      if r != NULL {
        MoveServes(bs0, bs, End(), Need(n), b, at);
      }
    }

    /** Resizes a block.  Note that the size is rounded to four, not raised to the minimum,
        and that a small reduction is served by moving the block, so that it may fail. */
    method Realloc(rmem: nat, newsize: Word) returns (r: nat, ghost at: int)
      requires Valid() && (rmem == NULL || Allotted(rmem))
      modifies this`bs, this`lfree, this`used, this`history, this`max, heap
      ensures Valid()
      ensures RtAlign(newsize) > memSize ==> r == NULL
      ensures RtAlign(newsize) == 0 ==>
                && r == NULL && Live() == (set b | b in old(Live()) && Addr(b) != rmem)
                && history == old(history) + (if rmem == NULL then [] else [used]) && max == old(max)
      ensures 0 < RtAlign(newsize) <= memSize && rmem == NULL ==>
                && (r == NULL <==> NoFit(old(bs), Need(RtAlign(newsize))))
                && (r != NULL ==> Allocated(old(bs), bs, Need(RtAlign(newsize)), at) && r == Addr(old(bs)[at])
                                  && Served(SIZEOF_STRUCT_MEM, MIN_SIZE, old(Live()), Live(), old(bs)[at].start,
                                            Need(RtAlign(newsize)))
                                  && Counted(SIZEOF_STRUCT_MEM, MIN_SIZE, used - old(used), Need(RtAlign(newsize)),
                                             Data(SIZEOF_STRUCT_MEM, old(bs)[at]))
                                  && history == old(history) + [used] && max == Max(old(max), used))
      ensures 0 < RtAlign(newsize) <= memSize && rmem != NULL ==>
                && Resized(old(BlockAt(rmem)), RtAlign(newsize), r, at)
                && (r != NULL ==> Carried(old(heap[..]), heap[..], rmem - heapPtr, r - heapPtr,
                                          Least(Data(SIZEOF_STRUCT_MEM, old(BlockAt(rmem))), RtAlign(newsize))))
      ensures r == NULL && (RtAlign(newsize) != 0 || rmem == NULL) ==> unchanged(this) && heap[..] == old(heap[..])
      ensures rmem != NULL ==> (r == NULL && !Allotted(rmem) <==> newsize == 0 || newsize > WORD_LIMIT - 4)
      ensures DataKept(SIZEOF_STRUCT_MEM, old(heap[..]), heap[..], old(Live()) * Live())
    {
      hide Tiles, Linked, Coalesced, LowestFree, UsedSpan, UsedBit, Aligned, RtAlign, Need;
      RoundsToZero(newsize);
      var n: Word := RtAlign(newsize);
      if n > memSize {
        return NULL, 0;
      } else if n == 0 {
        Free(rmem);
        return NULL, 0;
      }
      if rmem == NULL {
        r, at := Alloc(n);
        return;
      }
      r, at := ReallocUsed(rmem, n, BlockAt(rmem));
    }
  }

  /** Bytes of a block, its header included. */
  function Span(b: Block): int {
    b.next - b.start
  }

  /** Block `b` was exchanged for what first fit granted from block `i`. */
  ghost predicate Moved(bs: seq<Block>, bs': seq<Block>, need: nat, b: Block, i: int) {
    && FirstFit(bs, need, i)
    && UsedBlocks(bs') == UsedBlocks(bs) - {b} + {Granted(bs[i], need)}
  }

  /** Besides nothing at all, the three largest sizes round to zero. */
  lemma RoundsToZero(size: Word)
    ensures RtAlign(size) == 0 <==> size == 0 || size > WORD_LIMIT - 4
  {
  }

  lemma BelowLimit(n: nat)
    requires Aligned(n) && n < WORD_LIMIT
    ensures n <= WORD_LIMIT - 4
  {
  }

  /** No smaller number of bytes would do. */
  lemma NeedIsLeast(size: Word, m: nat)
    requires size <= WORD_LIMIT - 4 && Aligned(m) && m >= MIN_SIZE && m >= size
    ensures Need(size) <= m
  {
  }

  lemma NeedAligned(size: Word)
    requires Aligned(size)
    ensures Need(size) >= size
  {
  }

  lemma GrantedIs(bs: seq<Block>, need: nat, i: int)
    requires FirstFit(bs, need, i)
    ensures 0 <= i < |bs|
    ensures var g := Granted(bs[i], need);
            g.used && g.start == bs[i].start && Data(SIZEOF_STRUCT_MEM, g) >= need && !bs[i].used
  {
  }

  /** No free block is large enough. */
  lemma NoFitIs(bs: seq<Block>, need: nat)
    ensures NoFit(bs, need) <==> forall f :: f in bs && !f.used ==> Data(SIZEOF_STRUCT_MEM, f) < need
  {
    if NoFit(bs, need) {
      forall f | f in bs && !f.used ensures Data(SIZEOF_STRUCT_MEM, f) < need {
        var i :| 0 <= i < |bs| && bs[i] == f;
        assert !Fits(SIZEOF_STRUCT_MEM, bs[i], need);
      }
    } else {
      var i :| 0 <= i < |bs| && Fits(SIZEOF_STRUCT_MEM, bs[i], need);
      assert bs[i] in bs;
    }
  }

  /** First fit takes the lowest free block that is large enough. */
  lemma LowestFit(bs: seq<Block>, end: nat, need: nat, i: int)
    requires Tiles(SIZEOF_STRUCT_MEM, bs, 0, end) && FirstFit(bs, need, i)
    ensures 0 <= i < |bs| && !bs[i].used && Data(SIZEOF_STRUCT_MEM, bs[i]) >= need
    ensures forall f :: f in bs && !f.used && Data(SIZEOF_STRUCT_MEM, f) >= need ==> bs[i].start <= f.start
  {
    Ordered(SIZEOF_STRUCT_MEM, bs, 0, end);
    forall f | f in bs && !f.used && Data(SIZEOF_STRUCT_MEM, f) >= need ensures bs[i].start <= f.start {
      var j :| 0 <= j < |bs| && bs[j] == f;
      assert Fits(SIZEOF_STRUCT_MEM, bs[j], need);
    }
  }

  /** What is granted: as little as the free block allows. */
  lemma GrantedSize(bs: seq<Block>, need: nat, i: int)
    requires FirstFit(bs, need, i)
    ensures var got := Data(SIZEOF_STRUCT_MEM, Granted(bs[i], need));
            need <= got < need + SIZEOF_STRUCT_MEM + MIN_SIZE
    ensures Counted(SIZEOF_STRUCT_MEM, MIN_SIZE, Span(Granted(bs[i], need)), need, Data(SIZEOF_STRUCT_MEM, bs[i]))
  {
  }

  lemma GrantServes(bs: seq<Block>, bs': seq<Block>, end: nat, need: nat, i: int)
    requires Tiles(SIZEOF_STRUCT_MEM, bs, 0, end) && Allocated(bs, bs', need, i)
    ensures Served(SIZEOF_STRUCT_MEM, MIN_SIZE, UsedBlocks(bs), UsedBlocks(bs'), bs[i].start, need)
    ensures Counted(SIZEOF_STRUCT_MEM, MIN_SIZE, Span(Granted(bs[i], need)), need, Data(SIZEOF_STRUCT_MEM, bs[i]))
  {
    hide Tiles, UsedBlocks;
    GrantedSize(bs, need, i);
    StartsApart(SIZEOF_STRUCT_MEM, bs, end, i, Granted(bs[i], need));
    IsServed(SIZEOF_STRUCT_MEM, MIN_SIZE, UsedBlocks(bs), UsedBlocks(bs'), Granted(bs[i], need), need);
  }

  /** A move, too, takes no more than it needs. */
  lemma MoveServes(bs: seq<Block>, bs': seq<Block>, end: nat, need: nat, b: Block, i: int)
    requires Tiles(SIZEOF_STRUCT_MEM, bs, 0, end) && Moved(bs, bs', need, b, i)
    ensures Served(SIZEOF_STRUCT_MEM, MIN_SIZE, UsedBlocks(bs) - {b}, UsedBlocks(bs'), bs[i].start, need)
    ensures Counted(SIZEOF_STRUCT_MEM, MIN_SIZE, Span(Granted(bs[i], need)), need, Data(SIZEOF_STRUCT_MEM, bs[i]))
  {
    hide Tiles, UsedBlocks;
    GrantedSize(bs, need, i);
    StartsApart(SIZEOF_STRUCT_MEM, bs, end, i, Granted(bs[i], need));
    IsServed(SIZEOF_STRUCT_MEM, MIN_SIZE, UsedBlocks(bs) - {b}, UsedBlocks(bs'), Granted(bs[i], need), need);
  }

  lemma UsedApart(bs: seq<Block>, end: nat, b: Block)
    requires Tiles(SIZEOF_STRUCT_MEM, bs, 0, end) && b in UsedBlocks(bs)
    ensures UsedBlocks(bs) - {b} == set x | x in UsedBlocks(bs) && x.start != b.start
  {
    var i :| 0 <= i < |bs| && bs[i] == b;
    OthersStay(SIZEOF_STRUCT_MEM, bs, end, i);
  }

  /** A block that already has `n` data bytes stays; so does one whose spare part can be cut off as a block. */
  predicate InPlace(b: Block, n: nat) {
    Data(SIZEOF_STRUCT_MEM, b) == n || n + SIZEOF_STRUCT_MEM + MIN_SIZE < Data(SIZEOF_STRUCT_MEM, b)
  }

  /** A shortened block keeps its bytes. */
  lemma CutKeeps(h: seq<int>, h': seq<int>, b: Block, n: nat)
    requires b.start + SIZEOF_STRUCT_MEM + n <= b.next <= |h|
    requires SameBytes(h, h', b.start + SIZEOF_STRUCT_MEM, b.start + SIZEOF_STRUCT_MEM + n)
    ensures Carried(h, h', b.start + SIZEOF_STRUCT_MEM, b.start + SIZEOF_STRUCT_MEM, n)
  {
  }

  /** Cutting a used block keeps the lowest free block or makes the rest the lowest. */
  lemma LowestCut(bs: seq<Block>, hi: nat, i: nat, mid: nat, lf: nat)
    requires Tiles(SIZEOF_STRUCT_MEM, bs, 0, hi) && LowestFree(bs, hi, lf) && i < |bs| && bs[i].used
    requires bs[i].start < mid < bs[i].next
    ensures LowestFree(Split(bs, i, mid, true), hi, if mid < lf then mid else lf)
  {
    var r := Split(bs, i, mid, true);
    Ordered(SIZEOF_STRUCT_MEM, bs, 0, hi);
    assert forall k :: 0 <= k < i ==> r[k] == bs[k];
    assert forall k :: i + 2 <= k < |r| ==> r[k] == bs[k - 1];
    if mid < lf {
      assert r[i + 1].start == mid;
    } else {
      var k :| 0 <= k < |bs| && bs[k].start == lf && !bs[k].used;
      assert k < i;
      assert r[k].start == lf;
    }
  }

  lemma CutCoalesced(bs: seq<Block>, i: nat, mid: nat)
    requires Coalesced(bs) && i < |bs| && bs[i].used
    ensures CoalescedBut(Split(bs, i, mid, true), {i, i + 1})
  {
    var r := Split(bs, i, mid, true);
    forall k | 0 <= k < |r| - 1 && k !in {i, i + 1} ensures OneUsed(r, k) {
      if k < i { assert OneUsed(bs, k); } else { assert OneUsed(bs, k - 1); }
    }
  }

  /** Writes inside the data of block `k` touch no header and no other block's data. */
  lemma DataWrite(h: seq<int>, h': seq<int>, bs: seq<Block>, addr: nat, end: nat, k: nat)
    requires Tiles(SIZEOF_STRUCT_MEM, bs, 0, end) && Linked(h, bs, addr, end) && k < |bs| && |h'| == |h|
    requires forall x :: 0 <= x < |h| && !(bs[k].start + SIZEOF_STRUCT_MEM <= x < bs[k].next) ==> h'[x] == h[x]
    ensures Linked(h', bs, addr, end) && DataKept(SIZEOF_STRUCT_MEM, h, h', UsedBlocks(bs) - {bs[k]})
  {
    HeaderOf(h, bs, addr, end, k, k);
    forall m | 0 <= m < |bs| ensures BlockHeader(h', bs, addr, m) {
      HeaderOf(h, bs, addr, end, m, k);
    }
    Ordered(SIZEOF_STRUCT_MEM, bs, 0, end);
    forall b | b in UsedBlocks(bs) - {bs[k]} ensures SameBytes(h, h', b.start + SIZEOF_STRUCT_MEM, b.next) {
      var j :| 0 <= j < |bs| && bs[j] == b;
    }
  }

  /** Starting at the lowest free block skips no block that fits. */
  lemma FromLowest(bs: seq<Block>, end: nat, lf: nat, need: nat) returns (k: nat)
    requires Tiles(SIZEOF_STRUCT_MEM, bs, 0, end) && LowestFree(bs, end, lf)
    ensures k <= |bs| && lf == StartOf(bs, end, k)
    ensures forall j :: 0 <= j < k ==> !Fits(SIZEOF_STRUCT_MEM, bs[j], need)
  {
    Ordered(SIZEOF_STRUCT_MEM, bs, 0, end);
    if lf == end {
      k := |bs|;
    } else {
      k :| 0 <= k < |bs| && bs[k].start == lf && !bs[k].used;
    }
  }

  lemma NextStart(bs: seq<Block>, end: nat, k: nat)
    requires Tiles(SIZEOF_STRUCT_MEM, bs, 0, end) && k < |bs|
    ensures StartOf(bs, end, k + 1) == bs[k].next
  {
    if k + 1 < |bs| { assert Meet(bs, k); }
  }

  /** Stopping at an offset from which `need` bytes cannot fit skips no block that fits. */
  lemma TooHigh(bs: seq<Block>, end: nat, k: nat, need: nat)
    requires Tiles(SIZEOF_STRUCT_MEM, bs, 0, end) && k <= |bs|
    requires forall j :: 0 <= j < k ==> !Fits(SIZEOF_STRUCT_MEM, bs[j], need)
    requires StartOf(bs, end, k) + SIZEOF_STRUCT_MEM + need > end
    ensures NoFit(bs, need)
  {
    Ordered(SIZEOF_STRUCT_MEM, bs, 0, end);
    forall j | k <= j < |bs| ensures !Fits(SIZEOF_STRUCT_MEM, bs[j], need) {
      assert bs[k].start <= bs[j].start;
    }
  }

  /** What the code asserts of a block before it gives it back. */
  lemma FreeChecks(h: seq<int>, bs: seq<Block>, addr: nat, end: nat, i: nat)
    requires Tiles(SIZEOF_STRUCT_MEM, bs, 0, end) && Linked(h, bs, addr, end) && i < |bs| && bs[i].used
    ensures var mem := bs[i].start;
            && 0 <= mem < end && UsedBit(h[mem]) && h[mem] / 2 * 2 == addr
            && 0 <= h[mem + 4] <= end && h[h[mem + 4]] / 2 * 2 == addr
  {
    HeaderOf(h, bs, addr, end, i, i);
    TagBit(addr);
    if i + 1 < |bs| { HeaderOf(h, bs, addr, end, i + 1, i); }
  }

  lemma FitAddress(heapPtr: nat, bs: seq<Block>, end: nat, i: nat, need: nat)
    requires Tiles(SIZEOF_STRUCT_MEM, bs, 0, end) && FirstFit(bs, need, i) && Aligned(heapPtr) && AllAligned(bs)
    ensures Aligned(heapPtr + bs[i].start + SIZEOF_STRUCT_MEM)
    ensures heapPtr + bs[i].start + SIZEOF_STRUCT_MEM + need <= heapPtr + end
  {
    Ordered(SIZEOF_STRUCT_MEM, bs, 0, end);
  }

  /** A block given back is the lowest free one if it lies below the lowest so far. */
  lemma LowestFreed(bs: seq<Block>, hi: nat, i: nat, lf: nat)
    requires Tiles(SIZEOF_STRUCT_MEM, bs, 0, hi) && LowestFree(bs, hi, lf) && i < |bs| && Coalesced(bs)
    ensures LowestFree(Mark(bs, i, false), hi, if bs[i].start < lf then bs[i].start else lf)
    ensures CoalescedBut(Mark(bs, i, false), {i - 1, i})
  {
    var r := Mark(bs, i, false);
    Ordered(SIZEOF_STRUCT_MEM, bs, 0, hi);
    if bs[i].start < lf {
      assert r[i].start == bs[i].start;
    } else {
      var k :| 0 <= k < |bs| && bs[k].start == lf && !bs[k].used;
      assert r[k].start == lf;
    }
    forall k | 0 <= k < |r| - 1 && k !in {i - 1, i} ensures OneUsed(r, k) {
      assert OneUsed(bs, k);
    }
  }

  /** Taking block `i` moves the lowest free block only if it was block `i`. */
  lemma LowestGrant(bs: seq<Block>, bs': seq<Block>, hi: nat, i: nat, lf: nat)
    requires Tiles(SIZEOF_STRUCT_MEM, bs, 0, hi) && Tiles(SIZEOF_STRUCT_MEM, bs', 0, hi) && LowestFree(bs, hi, lf)
    requires i < |bs| && i < |bs'| && !bs[i].used && bs[..i] == bs'[..i] && bs'[i].start == bs[i].start && bs'[i].used
    ensures lf == bs[i].start ==> forall j :: 0 <= j < i ==> bs'[j].used
    ensures lf != bs[i].start ==> LowestFree(bs', hi, lf)
  {
    Ordered(SIZEOF_STRUCT_MEM, bs, 0, hi);
    Ordered(SIZEOF_STRUCT_MEM, bs', 0, hi);
    assert forall j :: 0 <= j < i ==> bs'[..i][j] == bs[..i][j];
    assert forall j :: 0 <= j < i ==> bs'[j] == bs[j];
    var k :| 0 <= k < |bs| && bs[k].start == lf && !bs[k].used;
    assert k <= i;
    if k < i { assert bs'[k] == bs[k]; }
  }

  /** Joining two free blocks does not move the lowest free one. */
  lemma LowestJoin(bs: seq<Block>, hi: nat, i: nat, lf: nat)
    requires Tiles(SIZEOF_STRUCT_MEM, bs, 0, hi) && LowestFree(bs, hi, lf)
    requires i + 1 < |bs| && !bs[i].used && !bs[i + 1].used
    ensures lf <= bs[i].start && LowestFree(Join(bs, i), hi, lf)
  {
    Ordered(SIZEOF_STRUCT_MEM, bs, 0, hi);
    var j :| 0 <= j < |bs| && bs[j].start == lf && !bs[j].used;
    assert j <= i;
    assert Join(bs, i)[j].start == lf;
  }

  // ----- what whole runs amount to -----

  lemma LowestUnique(bs: seq<Block>, hi: nat, a: nat, b: nat)
    requires Tiles(SIZEOF_STRUCT_MEM, bs, 0, hi) && LowestFree(bs, hi, a) && LowestFree(bs, hi, b)
    ensures a == b
  {
    Ordered(SIZEOF_STRUCT_MEM, bs, 0, hi);
  }

  /** Giving back what was just allocated restores the very same tiling, split or no split. */
  lemma FreeUndoesAlloc(bs: seq<Block>, bs1: seq<Block>, bs2: seq<Block>, end: nat, need: nat, i: nat)
    requires Tiles(SIZEOF_STRUCT_MEM, bs, 0, end) && Coalesced(bs)
    requires Tiles(SIZEOF_STRUCT_MEM, bs1, 0, end) && Allocated(bs, bs1, need, i)
    requires Tiles(SIZEOF_STRUCT_MEM, bs2, 0, end) && Coalesced(bs2)
    requires UsedBlocks(bs2) == set b | b in UsedBlocks(bs1) && b.start != bs[i].start
    ensures bs2 == bs
  {
    Ordered(SIZEOF_STRUCT_MEM, bs, 0, end);
    forall b | b in UsedBlocks(bs) ensures b.start != bs[i].start {
      var j :| 0 <= j < |bs| && bs[j] == b;
    }
    assert UsedBlocks(bs2) == UsedBlocks(bs);
    Canonical(SIZEOF_STRUCT_MEM, bs2, bs, 0, end);
  }

  /** An allocation provides the bytes asked for, except for the three sizes whose rounding wraps to zero. */
  lemma RequestMet(bs: seq<Block>, end: nat, size: Word, i: nat)
    requires Tiles(SIZEOF_STRUCT_MEM, bs, 0, end) && end + SIZEOF_STRUCT_MEM <= WORD_LIMIT
    requires FirstFit(bs, Need(size), i)
    ensures Data(SIZEOF_STRUCT_MEM, Granted(bs[i], Need(size))) >= size <==> size <= WORD_LIMIT - 4
  {
    Ordered(SIZEOF_STRUCT_MEM, bs, 0, end);
  }

  /** A request for fewer bytes is refused if and only if it spares no more than a smallest block and
      no free block is as large as the request. */
  lemma SmallerIsRefused(bs: seq<Block>, b: Block, n: Word)
    requires 0 < n < Data(SIZEOF_STRUCT_MEM, b)
    ensures !InPlace(b, n) && NoFit(bs, Need(n)) <==>
            && Data(SIZEOF_STRUCT_MEM, b) - n <= SIZEOF_STRUCT_MEM + MIN_SIZE
            && forall f :: f in bs && !f.used ==> Data(SIZEOF_STRUCT_MEM, f) < Need(n)
  {
    forall f | f in bs && !f.used && NoFit(bs, Need(n)) ensures Data(SIZEOF_STRUCT_MEM, f) < Need(n) {
      var i :| 0 <= i < |bs| && bs[i] == f;
      assert !Fits(SIZEOF_STRUCT_MEM, bs[i], Need(n));
    }
    forall i | 0 <= i < |bs| && Fits(SIZEOF_STRUCT_MEM, bs[i], Need(n)) ensures bs[i] in bs && !bs[i].used {
    }
  }

  /** So it happens: 96 of 100 bytes, with no other block to move to. */
  lemma SmallerMayBeRefused()
    ensures exists bs: seq<Block>, end: nat ::
              && Tiles(SIZEOF_STRUCT_MEM, bs, 0, end) && Coalesced(bs) && |bs| == 1 && bs[0].used
              && Data(SIZEOF_STRUCT_MEM, bs[0]) == 100 && !InPlace(bs[0], 96) && NoFit(bs, Need(96))
  {
    var bs := [Block(0, 112, true)];
    assert Tiles(SIZEOF_STRUCT_MEM, bs, 0, 112) && NoFit(bs, Need(96));
  }
}
