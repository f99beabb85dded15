/** The memheap allocator: all blocks on one circular list in address order, the free ones on a
    second, both threaded through headers inside the pool. */
module MemHeap {
  import opened HeapTiling
  import MemOps
  import opened IpcList
  import opened RtList
  import SM = SmallMem

  type Word = SM.Word

  const RT_MEMHEAP_SIZE: nat := 24
  const MINIALLOC: nat := 12
  const MAGIC: int := 0x1ea01ea0
  const NULL: int := -1

  function Magic(used: bool): int {
    if used then MAGIC + 1 else MAGIC
  }

  /** Data bytes a request is served with: rounded to four, at least twelve. */
  function Need(size: Word): (r: Word)
    ensures Aligned(r) && r >= MINIALLOC
    ensures size <= SM.WORD_LIMIT - 4 ==> r >= size
  {
    if SM.RtAlign(size) < MINIALLOC then MINIALLOC else SM.RtAlign(size)
  }

  // ----- headers inside the pool -----

  /** Word by word, the header at address `a`; a word is kept in the cell of its first byte. */
  ghost predicate HeaderAt(c: seq<int>, a: int, magic: int, next: int, prev: int, nextFree: int, prevFree: int) {
    && 0 <= a && a + RT_MEMHEAP_SIZE <= |c|
    && c[a] == magic && c[a + 8] == next && c[a + 12] == prev && c[a + 16] == nextFree && c[a + 20] == prevFree
  }

  ghost predicate Stored(c: seq<int>, mg: Links, nx: Links, pv: Links, nf: Links, pf: Links) {
    && mg.Keys == nx.Keys == pv.Keys == nf.Keys == pf.Keys
    && forall a :: a in mg ==> HeaderAt(c, a, mg[a], nx[a], pv[a], nf[a], pf[a])
  }

  /** Headers do not overlap. */
  ghost predicate HeadersApart(keys: set<int>) {
    forall a, b :: a in keys && b in keys && a < b ==> a + RT_MEMHEAP_SIZE <= b
  }

  ghost predicate NoHeader(keys: set<int>, x: int) {
    forall a :: a in keys ==> x < a || a + RT_MEMHEAP_SIZE <= x
  }

  /** Nothing was written outside the headers at `keys`. */
  ghost predicate OnlyHeaders(c: seq<int>, c': seq<int>, keys: set<int>) {
    && |c| == |c'|
    && forall x :: 0 <= x < |c| && NoHeader(keys, x) ==> c'[x] == c[x]
  }

  // ----- the lists and the tiling -----

  ghost function Starts(bs: seq<Block>): (r: seq<int>)
    ensures |r| == |bs| && forall i :: 0 <= i < |bs| ==> r[i] == bs[i].start
  {
    seq(|bs|, i requires 0 <= i < |bs| => bs[i].start)
  }

  ghost predicate Magics(mg: Links, bs: seq<Block>) {
    forall i :: 0 <= i < |bs| ==> bs[i].start in mg && mg[bs[i].start] == Magic(bs[i].used)
  }

  /** Headers are at the starts of blocks, and at `pool` for the head of the free list. */
  ghost predicate KeysOf(keys: set<int>, starts: seq<int>, pool: nat) {
    forall a :: a in keys <==> a == pool || a in starts
  }

  /** The pool ends with a used block without data. */
  ghost predicate Tailed(bs: seq<Block>, pool: nat) {
    |bs| >= 2 && pool >= RT_MEMHEAP_SIZE && bs[|bs| - 1] == Block(pool - RT_MEMHEAP_SIZE, pool, true)
  }

  ghost predicate FreeAt(bs: seq<Block>, i: int, a: int) {
    0 <= i < |bs| && !bs[i].used && bs[i].start == a
  }

  /** The free list holds exactly the free blocks, but for the one at `h` (or NULL), which is still to be listed. */
  ghost predicate Matches(bs: seq<Block>, fl: seq<int>, h: int) {
    && (forall a :: IsFree(bs, a) ==> a in fl || a == h)
    && (forall a :: a in fl ==> IsFree(bs, a) && a != h)
    && (h == NULL || IsFree(bs, h))
  }

  ghost predicate IsFree(bs: seq<Block>, a: int) {
    exists i :: FreeAt(bs, i, a)
  }

  lemma KeysApart(keys: set<int>, bs: seq<Block>, pool: nat)
    requires Tiles(RT_MEMHEAP_SIZE, bs, 0, pool) && KeysOf(keys, Starts(bs), pool)
    ensures HeadersApart(keys)
    ensures forall a :: a in keys ==> 0 <= a <= pool
  {
    Ordered(RT_MEMHEAP_SIZE, bs, 0, pool);
    forall a, b | a in keys && b in keys && a < b ensures a + RT_MEMHEAP_SIZE <= b {
      if a != pool {
        var i :| 0 <= i < |bs| && bs[i].start == a;
        if b != pool {
          var j :| 0 <= j < |bs| && bs[j].start == b;
        }
      }
    }
  }

  /** A header that is no longer in use lies inside a free block. */
  ghost predicate Spare(bs: seq<Block>, x: int) {
    x == NULL || exists i :: 0 <= i < |bs| && !bs[i].used && bs[i].start <= x && x + RT_MEMHEAP_SIZE <= bs[i].next
  }

  lemma HeadersKeepData(c: seq<int>, c': seq<int>, keys: set<int>, bs: seq<Block>, pool: nat, x: int)
    requires Tiles(RT_MEMHEAP_SIZE, bs, 0, pool) && KeysOf(keys - {x}, Starts(bs), pool) && Spare(bs, x)
    requires OnlyHeaders(c, c', keys) && |c| == pool + RT_MEMHEAP_SIZE
    ensures DataKept(RT_MEMHEAP_SIZE, c, c', UsedBlocks(bs))
  {
    Ordered(RT_MEMHEAP_SIZE, bs, 0, pool);
    forall k, y | 0 <= k < |bs| && bs[k].used && bs[k].start + RT_MEMHEAP_SIZE <= y < bs[k].next ensures c'[y] == c[y] {
      forall a | a in keys ensures y < a || a + RT_MEMHEAP_SIZE <= y {
        if a == x {
          if a !in keys - {x} { SpareApart(bs, pool, x, k); }
        } else if a != pool {
          assert a in keys - {x} && a in Starts(bs);
          var i :| 0 <= i < |bs| && bs[i].start == a;
        }
      }
      assert NoHeader(keys, y);
    }
  }

  lemma SpareApart(bs: seq<Block>, pool: nat, x: int, k: nat)
    requires Tiles(RT_MEMHEAP_SIZE, bs, 0, pool) && Spare(bs, x) && k < |bs| && bs[k].used
    ensures x + RT_MEMHEAP_SIZE <= bs[k].start + RT_MEMHEAP_SIZE || bs[k].next <= x
  {
    Ordered(RT_MEMHEAP_SIZE, bs, 0, pool);
  }

  lemma SplitStarts(bs: seq<Block>, i: nat, mid: nat, first: bool)
    requires i < |bs|
    ensures Starts(Split(bs, i, mid, first)) == Inserted(Starts(bs), i, mid)
  {
    var r := Split(bs, i, mid, first);
    assert forall k :: 0 <= k < |r| ==>
             r[k].start == if k <= i then bs[k].start else if k == i + 1 then mid else bs[k - 1].start;
  }

  lemma JoinStarts(bs: seq<Block>, i: nat)
    requires i + 1 < |bs|
    ensures Starts(Join(bs, i)) == Removed(Starts(bs), i + 1)
  {
    forall k | 0 <= k < |bs| - 1 ensures Starts(Join(bs, i))[k] == Removed(Starts(bs), i + 1)[k] {
      if k > i { assert Join(bs, i)[k] == bs[k + 1]; } else if k < i { assert Join(bs, i)[k] == bs[k]; }
    }
  }

  lemma MarkStarts(bs: seq<Block>, i: nat, used: bool)
    requires i < |bs|
    ensures Starts(Mark(bs, i, used)) == Starts(bs)
  {
    assert forall k :: 0 <= k < |bs| ==> Mark(bs, i, used)[k].start == bs[k].start;
  }

  lemma SplitMagics(mg: Links, bs: seq<Block>, i: nat, mid: nat)
    requires Magics(mg, bs) && i < |bs| && mid !in Starts(bs)
    ensures Magics(mg[mid := MAGIC], Split(bs, i, mid, bs[i].used))
  {
    var r := Split(bs, i, mid, bs[i].used);
    forall k | 0 <= k < |r| ensures r[k].start in mg[mid := MAGIC] && mg[mid := MAGIC][r[k].start] == Magic(r[k].used) {
      if k <= i {
        assert r[k].start == Starts(bs)[k] && r[k].used == bs[k].used;
      } else if k > i + 1 {
        assert r[k] == bs[k - 1] && r[k].start == Starts(bs)[k - 1];
      }
    }
  }

  lemma JoinMagics(mg: Links, bs: seq<Block>, i: nat)
    requires Magics(mg, bs) && i + 1 < |bs|
    ensures Magics(mg, Join(bs, i))
  {
    var r := Join(bs, i);
    forall k | 0 <= k < |r| ensures r[k].start in mg && mg[r[k].start] == Magic(r[k].used) {
      if k <= i {
        assert r[k].start == bs[k].start && r[k].used == bs[k].used;
      } else {
        assert r[k] == bs[k + 1];
      }
    }
  }

  /** What one needs to know of block `i` before following its header. */
  lemma BlockFacts(bs: seq<Block>, nx: Links, pv: Links, mg: Links, pool: nat, i: nat)
    requires Tiles(RT_MEMHEAP_SIZE, bs, 0, pool) && Ring(nx, pv, Starts(bs)) && Magics(mg, bs)
    requires Tailed(bs, pool) && i < |bs|
    ensures var a := bs[i].start;
            && a in nx && a in pv && a in mg && (mg[a] % 2 == 1 <==> bs[i].used)
            && a + RT_MEMHEAP_SIZE <= bs[i].next <= pool
            && (i + 1 < |bs| ==> nx[a] == bs[i].next == bs[i + 1].start && bs[i].next + RT_MEMHEAP_SIZE <= pool)
            && (i > 0 ==> pv[a] == bs[i - 1].start && bs[i - 1].next == a)
            && (i == 0 ==> pv[a] == bs[|bs| - 1].start && a == 0)
  {
    Ordered(RT_MEMHEAP_SIZE, bs, 0, pool);
    assert LinkAt(nx, pv, Starts(bs), i);
    if i + 1 < |bs| { assert Meet(bs, i); }
    if i > 0 { assert Meet(bs, i - 1); }
  }

  // ----- searching -----

  ghost predicate TooSmall(bs: seq<Block>, a: int, need: int) {
    forall i :: FreeAt(bs, i, a) ==> Data(RT_MEMHEAP_SIZE, bs[i]) < need
  }

  /** Block `i` is entry `k` of the free list and holds `need` bytes, which no earlier entry does. */
  ghost predicate FirstListed(bs: seq<Block>, fl: seq<int>, need: int, i: int, k: int) {
    && 0 <= k < |fl| && FreeAt(bs, i, fl[k]) && Data(RT_MEMHEAP_SIZE, bs[i]) >= need
    && forall j :: 0 <= j < k ==> TooSmall(bs, fl[j], need)
  }

  ghost predicate NoFit(bs: seq<Block>, need: nat) {
    forall j :: 0 <= j < |bs| ==> !Fits(RT_MEMHEAP_SIZE, bs[j], need)
  }

  lemma NoneListed(bs: seq<Block>, fl: seq<int>, need: nat)
    requires Matches(bs, fl, NULL)
    requires forall j :: 0 <= j < |fl| ==> TooSmall(bs, fl[j], need)
    ensures NoFit(bs, need)
  {
    forall i | 0 <= i < |bs| ensures !Fits(RT_MEMHEAP_SIZE, bs[i], need) {
      if !bs[i].used {
        assert FreeAt(bs, i, bs[i].start) && IsFree(bs, bs[i].start);
        var j :| 0 <= j < |fl| && fl[j] == bs[i].start;
        assert TooSmall(bs, fl[j], need) && FreeAt(bs, i, fl[j]);
      }
    }
  }

  lemma ListedIsFree(bs: seq<Block>, fl: seq<int>, pool: nat, k: nat) returns (i: nat)
    requires Matches(bs, fl, NULL) && k < |fl| && Tailed(bs, pool) && Tiles(RT_MEMHEAP_SIZE, bs, 0, pool)
    ensures FreeAt(bs, i, fl[k]) && i + 1 < |bs|
    ensures forall j :: FreeAt(bs, j, fl[k]) ==> j == i
  {
    assert fl[k] in fl;
    assert IsFree(bs, fl[k]);
    i :| FreeAt(bs, i, fl[k]);
    forall j | FreeAt(bs, j, fl[k]) ensures j == i {
      SameStart(RT_MEMHEAP_SIZE, bs, 0, pool, i, j);
    }
  }

  /** What becomes of free block `b`: its front part, or all of it when no further block fits behind. */
  function Granted(b: Block, need: nat): Block {
    if Data(RT_MEMHEAP_SIZE, b) >= need + RT_MEMHEAP_SIZE + MINIALLOC
    then Block(b.start, b.start + RT_MEMHEAP_SIZE + need, true)
    else b.(used := true)
  }

  /** What is no longer available when a request is served from `b`. */
  function Uses(b: Block, need: nat): int {
    if Data(RT_MEMHEAP_SIZE, b) >= need + RT_MEMHEAP_SIZE + MINIALLOC then need + RT_MEMHEAP_SIZE
    else Data(RT_MEMHEAP_SIZE, b)
  }

  /** The rest that goes to the front of the free list when a request is served from `b`. */
  function Unlisted(b: Block, need: nat): seq<int> {
    if Data(RT_MEMHEAP_SIZE, b) >= need + RT_MEMHEAP_SIZE + MINIALLOC then [b.start + RT_MEMHEAP_SIZE + need] else []
  }

  /** The free list without the entry `a`. */
  function Less(fl: seq<int>, a: int): seq<int> {
    if fl == [] then [] else if fl[0] == a then fl[1..] else [fl[0]] + Less(fl[1..], a)
  }

  lemma {:induction false} LessEntry(fl: seq<int>, k: nat)
    requires Distinct(fl) && k < |fl|
    ensures Less(fl, fl[k]) == Removed(fl, k)
  {
    if k > 0 {
      var rest := fl[1..];
      assert rest[k - 1] == fl[k] && fl[0] != fl[k];
      assert fl == [fl[0]] + rest;
      DistinctTail(fl[0], rest);
      LessEntry(rest, k - 1);
      assert [fl[0]] + Removed(rest, k - 1) == Removed(fl, k);
    } else {
      assert Removed(fl, 0) == fl[1..];
    }
  }

  /** The free list after used block `i` has been given back: a free right neighbour leaves it, and
      the block goes to its front unless a free left neighbour, listed already, takes it in. */
  ghost function Relisted(bs: seq<Block>, fl: seq<int>, i: nat): seq<int>
    requires i + 1 < |bs|
  {
    var rest := if bs[i + 1].used then fl else Less(fl, bs[i + 1].start);
    if i > 0 && !bs[i - 1].used then rest else [bs[i].start] + rest
  }

  ghost predicate Allocated(bs: seq<Block>, bs': seq<Block>, fl: seq<int>, need: nat, i: int, k: int) {
    && FirstListed(bs, fl, need, i, k)
    && UsedBlocks(bs') == UsedBlocks(bs) + {Granted(bs[i], need)}
  }

  /** Block `b` was exchanged for what the search granted from block `i`. */
  ghost predicate Moved(bs: seq<Block>, bs': seq<Block>, fl: seq<int>, need: nat, b: Block, i: int, k: int) {
    && FirstListed(bs, fl, need, i, k)
    && UsedBlocks(bs') == UsedBlocks(bs) - {b} + {Granted(bs[i], need)}
  }

  /** A block that holds `n` bytes, with no room for another block behind them. */
  predicate Kept(b: Block, n: nat) {
    n <= Data(RT_MEMHEAP_SIZE, b) <= n + RT_MEMHEAP_SIZE + MINIALLOC
  }

  /** There is a free block behind `b`, and with it enough room for `n` bytes and a block behind them. */
  ghost predicate RoomBehind(bs: seq<Block>, b: Block, n: nat) {
    exists j :: FreeAt(bs, j, b.next) && Data(RT_MEMHEAP_SIZE, bs[j]) + Data(RT_MEMHEAP_SIZE, b) > n + MINIALLOC
  }

  /** The block behind `b` is free. */
  ghost predicate FreeBehind(bs: seq<Block>, b: Block) {
    exists j :: FreeAt(bs, j, b.next)
  }

  ghost predicate StaysPut(bs: seq<Block>, b: Block, n: nat) {
    n <= Data(RT_MEMHEAP_SIZE, b) || RoomBehind(bs, b, n)
  }

  /** The pool turns a request down without searching when it asks for all that is left, or more. */
  ghost predicate Refused(bs: seq<Block>, need: nat) {
    need >= FreeData(RT_MEMHEAP_SIZE, bs) || NoFit(bs, need)
  }

  /** What a request for `n` bytes (rounded, not zero) does to used block `b`. */
  ghost predicate Exchanged(bs: seq<Block>, bs': seq<Block>, fl: seq<int>, b: Block, n: Word, r: int, i: int, k: int) {
    if Kept(b, n) then
      r == b.start + RT_MEMHEAP_SIZE && bs' == bs
    else if StaysPut(bs, b, n) then
      && r == b.start + RT_MEMHEAP_SIZE
      && UsedBlocks(bs') == UsedBlocks(bs) - {b} + {Block(b.start, b.start + RT_MEMHEAP_SIZE + n, true)}
    else if Refused(bs, n) then
      r == NULL
    else
      r != NULL && Moved(bs, bs', fl, n, b, i, k) && r == bs[i].start + RT_MEMHEAP_SIZE
  }

  class MemHeap {
    const poolSize: nat
    const cells: array<int>     // the pool, and behind it the head of the free list
    var availableSize: int
    var maxUsedSize: int
    ghost var bs: seq<Block>
    ghost var fl: seq<int>
    ghost var mg: Links
    ghost var nx: Links
    ghost var pv: Links
    ghost var nf: Links
    ghost var pf: Links
    ghost var history: seq<int>   // what was in use whenever the heap was unlocked, the present amount last

    ghost predicate Fixed() {
      Aligned(poolSize) && poolSize < SM.WORD_LIMIT && cells.Length == poolSize + RT_MEMHEAP_SIZE
    }

    ghost predicate Held()
      reads this`mg, this`nx, this`pv, this`nf, this`pf, cells
    {
      && Fixed()
      && Stored(cells[..], mg, nx, pv, nf, pf) && HeadersApart(mg.Keys)
    }

    /** Memory, lists and tiling agree; `x` may still be a header although it starts no block. */
    ghost predicate Shape(x: int)
      reads this`bs, this`fl, this`mg, this`nx, this`pv, this`nf, this`pf, cells
    {
      && Held()
      && Tiles(RT_MEMHEAP_SIZE, bs, 0, poolSize) && AllAligned(bs) && Tailed(bs, poolSize)
      && Magics(mg, bs) && KeysOf(mg.Keys - {x}, Starts(bs), poolSize)
      && Ring(nx, pv, Starts(bs)) && Ring(nf, pf, [poolSize] + fl)
    }

    ghost predicate Valid()
      reads this, cells
    {
      && Shape(NULL)
      && Coalesced(bs) && Matches(bs, fl, NULL)
      && availableSize == FreeData(RT_MEMHEAP_SIZE, bs)
      && Recorded()
    }

    /** Bytes that are not free data. */
    ghost function InUse(): int
      reads this`availableSize
    {
      poolSize - availableSize
    }

    /** The history ends with the present amount, and `maxUsedSize` is the largest of it. */
    ghost predicate Recorded()
      reads this`availableSize, this`maxUsedSize, this`history
    {
      && |history| > 0 && history[|history| - 1] == InUse()
      && Highest(history, maxUsedSize)
    }

    // ----- reading and writing header words -----

    /** Every header word is where the ghost maps say it is. */
    lemma Words(a: int)
      requires Held() && (a in mg || a in nx || a in pv || a in nf || a in pf)
      ensures a in mg && a in nx && a in pv && a in nf && a in pf
      ensures HeaderAt(cells[..], a, mg[a], nx[a], pv[a], nf[a], pf[a])
    {
      assert a in mg.Keys && a in nx.Keys && a in pv.Keys && a in nf.Keys && a in pf.Keys;
    }

    lemma NoNull()
      requires Held()
      ensures mg.Keys - {NULL} == mg.Keys && nf.Keys == mg.Keys && nx.Keys == mg.Keys
    {
      if NULL in mg { Words(NULL); }
    }

    method IsUsed(a: int) returns (r: bool)
      requires Held() && a in mg
      ensures r <==> mg[a] % 2 == 1
    {
      Words(a);
      r := cells[a] % 2 == 1;
    }

    method Next(a: int) returns (v: int)
      requires Held() && a in mg
      ensures a in nx && v == nx[a]
    {
      Words(a);
      v := cells[a + 8];
    }

    method Prev(a: int) returns (v: int)
      requires Held() && a in mg
      ensures a in pv && v == pv[a]
    {
      Words(a);
      v := cells[a + 12];
    }

    method NextFree(a: int) returns (v: int)
      requires Held() && a in mg
      ensures a in nf && v == nf[a]
    {
      Words(a);
      v := cells[a + 16];
    }

    method PrevFree(a: int) returns (v: int)
      requires Held() && a in mg
      ensures a in pf && v == pf[a]
    {
      Words(a);
      v := cells[a + 20];
    }

    method ItemSize(a: int) returns (v: int)
      requires Held() && a in mg
      ensures a in nx && v == nx[a] - a - RT_MEMHEAP_SIZE
    {
      var next := Next(a);
      v := next - a - RT_MEMHEAP_SIZE;
    }

    method SetMagic(a: int, v: int)
      requires Held() && a in mg
      modifies cells, this`mg
      ensures Held() && mg == old(mg)[a := v] && OnlyHeaders(old(cells[..]), cells[..], mg.Keys)
    {
      Words(a);
      hide Stored, HeadersApart, OnlyHeaders;
      ghost var c := cells[..];
      cells[a] := v;
      mg := mg[a := v];
      WordWritten(c, cells[..], old(mg), nx, pv, nf, pf, mg, nx, pv, nf, pf, a);
    }

    method SetNext(a: int, v: int)
      requires Held() && a in mg
      modifies cells, this`nx
      ensures Held() && nx == old(nx)[a := v] && OnlyHeaders(old(cells[..]), cells[..], mg.Keys)
    {
      Words(a);
      hide Stored, HeadersApart, OnlyHeaders;
      ghost var c := cells[..];
      cells[a + 8] := v;
      nx := nx[a := v];
      WordWritten(c, cells[..], mg, old(nx), pv, nf, pf, mg, nx, pv, nf, pf, a);
    }

    method SetPrev(a: int, v: int)
      requires Held() && a in mg
      modifies cells, this`pv
      ensures Held() && pv == old(pv)[a := v] && OnlyHeaders(old(cells[..]), cells[..], mg.Keys)
    {
      Words(a);
      hide Stored, HeadersApart, OnlyHeaders;
      ghost var c := cells[..];
      cells[a + 12] := v;
      pv := pv[a := v];
      WordWritten(c, cells[..], mg, nx, old(pv), nf, pf, mg, nx, pv, nf, pf, a);
    }

    method SetNextFree(a: int, v: int)
      requires Held() && a in mg
      modifies cells, this`nf
      ensures Held() && nf == old(nf)[a := v] && OnlyHeaders(old(cells[..]), cells[..], mg.Keys)
    {
      Words(a);
      hide Stored, HeadersApart, OnlyHeaders;
      ghost var c := cells[..];
      cells[a + 16] := v;
      nf := nf[a := v];
      WordWritten(c, cells[..], mg, nx, pv, old(nf), pf, mg, nx, pv, nf, pf, a);
    }

    method SetPrevFree(a: int, v: int)
      requires Held() && a in mg
      modifies cells, this`pf
      ensures Held() && pf == old(pf)[a := v] && OnlyHeaders(old(cells[..]), cells[..], mg.Keys)
    {
      Words(a);
      hide Stored, HeadersApart, OnlyHeaders;
      ghost var c := cells[..];
      cells[a + 20] := v;
      pf := pf[a := v];
      WordWritten(c, cells[..], mg, nx, pv, nf, old(pf), mg, nx, pv, nf, pf, a);
    }

    /** From here on the words at `a` count as a header. */
    ghost method Adopt(a: int)
      requires Held() && a !in mg && 0 <= a && a + RT_MEMHEAP_SIZE <= cells.Length && HeadersApart(mg.Keys + {a})
      modifies this`mg, this`nx, this`pv, this`nf, this`pf
      ensures Held() && mg.Keys == old(mg).Keys + {a}
      ensures Outside(old(mg), mg, [], a) && Outside(old(nx), nx, [], a) && Outside(old(pv), pv, [], a)
      ensures Outside(old(nf), nf, [], a) && Outside(old(pf), pf, [], a)
    {
      Adopted(cells[..], mg, nx, pv, nf, pf, a);
      hide Stored, HeadersApart;
      mg, nx, pv := mg[a := cells[a]], nx[a := cells[a + 8]], pv[a := cells[a + 12]];
      nf, pf := nf[a := cells[a + 16]], pf[a := cells[a + 20]];
      assert mg.Keys == old(mg).Keys + {a};
    }

    /** From here on the words at `a` are data. */
    ghost method Drop(a: int)
      requires Held()
      modifies this`mg, this`nx, this`pv, this`nf, this`pf
      ensures Held() && mg.Keys == old(mg).Keys - {a}
      ensures Outside(old(mg), mg, [], a) && Outside(old(nx), nx, [], a) && Outside(old(pv), pv, [], a)
      ensures Outside(old(nf), nf, [], a) && Outside(old(pf), pf, [], a)
    {
      mg, nx, pv, nf, pf := mg - {a}, nx - {a}, pv - {a}, nf - {a}, pf - {a};
    }

    /** `a` goes behind block `hd` on the block list. */
    method LinkAfter(hd: int, a: int, ghost s: seq<int>, ghost k: nat)
      requires Held() && Ring(nx, pv, s) && k < |s| && s[k] == hd && a !in s && a in mg
      modifies this`nx, this`pv, cells
      ensures Held() && Ring(nx, pv, Inserted(s, k, a))
      ensures OnlyHeaders(old(cells[..]), cells[..], mg.Keys)
    {
      hide Stored, HeadersApart, NoHeader;
      InsertRing(nx, pv, s, k, a);
      assert LinkAt(nx, pv, s, k) && Succ(s, k) in s;
      RingKeys(nx, pv, s);
      NoNull();
      hide RtList.Ring, LinkAt, Inserted;
      SetPrev(a, hd);
      var next := Next(hd);
      SetNext(a, next);
      SetPrev(next, a);
      SetNext(hd, a);
      assert nx == NextInsert(old(nx), hd, a) && pv == PrevInsert(old(nx), old(pv), hd, a);
    }

    /** Cuts block `i` at `newPtr`; the rear part becomes a free block of its own. */
    method Cut(hd: int, newPtr: int, ghost i: nat)
      requires Shape(NULL) && i + 1 < |bs| && bs[i].start == hd && Aligned(newPtr)
      requires hd + RT_MEMHEAP_SIZE <= newPtr && newPtr + RT_MEMHEAP_SIZE <= bs[i].next
      modifies this`bs, this`mg, this`nx, this`pv, this`nf, this`pf, cells
      ensures Shape(NULL) && bs == Split(old(bs), i, newPtr, old(bs)[i].used)
      ensures newPtr in mg && newPtr !in [poolSize] + fl
      ensures DataKept(RT_MEMHEAP_SIZE, old(cells[..]), cells[..], UsedBlocks(bs))
    {
      hide Stored, HeadersApart, RtList.Ring, Tiles, KeysOf, Magics, Aligned, AllAligned, NoHeader, DataKept,
           Tailed, Outside, Inserted;
      ghost var c := cells[..];
      NoNull();
      NewHeader(mg.Keys, nf, pf, bs, fl, poolSize, i, newPtr);
      SplitStarts(bs, i, newPtr, bs[i].used);
      SplitFacts(RT_MEMHEAP_SIZE, bs, poolSize, i, newPtr, bs[i].used);
      SplitOther(bs, poolSize, i, newPtr);
      Adopt(newPtr);
      Frame(old(mg), old(nx), old(pv), old(nf), old(pf), mg, nx, pv, nf, pf, bs, [poolSize] + fl, newPtr);
      SplitMagics(mg, bs, i, newPtr);
      SetMagic(newPtr, MAGIC);
      LinkAfter(hd, newPtr, Starts(bs), i);
      bs := Split(bs, i, newPtr, bs[i].used);
      NoNull();
      assert mg.Keys == old(mg).Keys + {newPtr};
      HeadersKeepData(c, cells[..], mg.Keys, bs, poolSize, NULL);
    }

    /** The tag of block `i` changes. */
    method SetUsed(a: int, use: bool, ghost i: nat)
      requires Shape(NULL) && i + 1 < |bs| && bs[i].start == a
      modifies this`bs, this`mg, cells
      ensures Shape(NULL) && bs == Mark(old(bs), i, use)
      ensures DataKept(RT_MEMHEAP_SIZE, old(cells[..]), cells[..], UsedBlocks(bs))
    {
      hide Stored, HeadersApart, Tiles, KeysOf, Aligned, AllAligned, NoHeader, DataKept, Tailed;
      ghost var c := cells[..];
      assert Distinct(Starts(bs));
      hide RtList.Ring;
      MarkFacts(RT_MEMHEAP_SIZE, bs, poolSize, i, use);
      MarkStarts(bs, i, use);
      MarkOther(bs, mg, poolSize, i, use);
      hide Magics;
      SetMagic(a, if use then MAGIC + 1 else MAGIC);
      bs := Mark(bs, i, use);
      NoNull();
      assert mg.Keys == old(mg).Keys;
      HeadersKeepData(c, cells[..], mg.Keys, bs, poolSize, NULL);
    }

    /** Takes `a` off the free list. */
    method UnlinkFree(a: int, ghost k: nat, ghost x: int)
      requires Shape(x) && k < |fl| && fl[k] == a && Spare(bs, x)
      modifies this`fl, this`nf, this`pf, cells
      ensures Shape(x) && fl == Removed(old(fl), k)
      ensures DataKept(RT_MEMHEAP_SIZE, old(cells[..]), cells[..], UsedBlocks(bs))
    {
      hide Stored, HeadersApart, Tiles, KeysOf, Aligned, AllAligned, NoHeader, DataKept, Tailed, Magics, Spare;
      ghost var c, s := cells[..], [poolSize] + fl;
      assert s[k + 1] == a;
      RemoveRing(nf, pf, s, k + 1);
      RemovedTail(poolSize, fl, k);
      assert LinkAt(nf, pf, s, k + 1);
      assert Succ(s, k + 1) in s && Pred(s, k + 1) in s;
      RingKeys(nf, pf, s);
      NoNull();
      assert nf[a] != a && pf[a] != a;
      hide RtList.Ring, LinkAt, Removed;
      var next := NextFree(a);
      var prev := PrevFree(a);
      SetPrevFree(next, prev);
      SetNextFree(prev, next);
      fl := Removed(fl, k);
      HeadersKeepData(c, cells[..], mg.Keys, bs, poolSize, x);
    }

    /** Puts `a` at the front of the free list. */
    method PushFree(a: int)
      requires Shape(NULL) && a in mg && a !in [poolSize] + fl
      modifies this`fl, this`nf, this`pf, cells
      ensures Shape(NULL) && fl == [a] + old(fl)
      ensures DataKept(RT_MEMHEAP_SIZE, old(cells[..]), cells[..], UsedBlocks(bs))
    {
      hide Stored, HeadersApart, Tiles, KeysOf, Aligned, AllAligned, NoHeader, DataKept, Tailed, Magics;
      ghost var c, s := cells[..], [poolSize] + fl;
      InsertRing(nf, pf, s, 0, a);
      assert Inserted(s, 0, a) == [poolSize] + ([a] + fl);
      assert LinkAt(nf, pf, s, 0);
      assert Succ(s, 0) in s && s[0] in s;
      RingKeys(nf, pf, s);
      NoNull();
      hide RtList.Ring, LinkAt, Inserted;
      var next := NextFree(poolSize);
      SetNextFree(a, next);
      SetPrevFree(a, poolSize);
      SetPrevFree(next, a);
      SetNextFree(poolSize, a);
      assert nf == NextInsert(old(nf), poolSize, a) && pf == PrevInsert(old(nf), old(pf), poolSize, a);
      fl := [a] + fl;
      HeadersKeepData(c, cells[..], mg.Keys, bs, poolSize, NULL);
    }

    /** The same, by way of the first entry's back link. */
    method PushFreeBefore(a: int)
      requires Shape(NULL) && a in mg && a !in [poolSize] + fl
      modifies this`fl, this`nf, this`pf, cells
      ensures Shape(NULL) && fl == [a] + old(fl)
      ensures DataKept(RT_MEMHEAP_SIZE, old(cells[..]), cells[..], UsedBlocks(bs))
    {
      hide Stored, HeadersApart, Tiles, KeysOf, Aligned, AllAligned, NoHeader, DataKept, Tailed, Magics;
      ghost var c, s := cells[..], [poolSize] + fl;
      InsertRing(nf, pf, s, 0, a);
      assert Inserted(s, 0, a) == [poolSize] + ([a] + fl);
      assert LinkAt(nf, pf, s, 0) && LinkAt(nf, pf, s, if |s| > 1 then 1 else 0);
      assert Succ(s, 0) in s && s[0] in s;
      RingKeys(nf, pf, s);
      NoNull();
      hide RtList.Ring, LinkAt, Inserted;
      var n := NextFree(poolSize);
      var prev := PrevFree(n);
      assert prev == poolSize && n != a;
      SetNextFree(a, n);
      SetPrevFree(a, prev);
      SetNextFree(prev, a);
      SetPrevFree(n, a);
      assert nf == NextInsert(old(nf), poolSize, a) && pf == PrevInsert(old(nf), old(pf), poolSize, a);
      fl := [a] + fl;
      HeadersKeepData(c, cells[..], mg.Keys, bs, poolSize, NULL);
    }

    /** Empties the free links of a block that is off the free list. */
    method ClearFree(a: int)
      requires Shape(NULL) && a in mg && a !in [poolSize] + fl
      modifies this`nf, this`pf, cells
      ensures Shape(NULL)
      ensures DataKept(RT_MEMHEAP_SIZE, old(cells[..]), cells[..], UsedBlocks(bs))
    {
      hide Stored, HeadersApart, Tiles, KeysOf, Aligned, AllAligned, NoHeader, DataKept, Tailed, Magics;
      ghost var c, s := cells[..], [poolSize] + fl;
      SetNextFree(a, NULL);
      SetPrevFree(a, NULL);
      NoNull();
      OtherRing(old(nf), old(pf), nf, pf, [], a, s);
      HeadersKeepData(c, cells[..], mg.Keys, bs, poolSize, NULL);
    }

    /** Block `p` takes in its free right neighbour `m`, whose header stays behind. */
    method UnlinkBlock(p: int, m: int, ghost i: nat)
      requires Shape(NULL) && i + 2 < |bs| && bs[i].start == p && bs[i + 1].start == m && !bs[i + 1].used
      modifies this`bs, this`nx, this`pv, cells
      ensures Shape(m) && bs == Join(old(bs), i)
      ensures DataKept(RT_MEMHEAP_SIZE, old(cells[..]), cells[..], old(UsedBlocks(bs)))
      ensures !old(bs)[i].used ==> Spare(bs, m)
    {
      hide Stored, HeadersApart, Tiles, KeysOf, Aligned, AllAligned, NoHeader, DataKept, Tailed, Magics;
      ghost var c, s := cells[..], Starts(bs);
      NoNull();
      RemoveRing(nx, pv, s, i + 1);
      assert LinkAt(nx, pv, s, i + 1);
      assert Succ(s, i + 1) in s && Pred(s, i + 1) in s;
      RingKeys(nx, pv, s);
      JoinStarts(bs, i);
      JoinMagics(mg, bs, i);
      JoinOther(mg.Keys, bs, poolSize, i);
      hide RtList.Ring, LinkAt, Removed;
      var next := Next(m);
      assert nx[m] != m && pv[m] == p;
      SetPrev(next, p);
      SetNext(p, next);
      HeadersKeepData(c, cells[..], mg.Keys, bs, poolSize, NULL);
      bs := Join(bs, i);
    }

    /** The header left behind becomes data. */
    ghost method Forget(m: int)
      requires Shape(m) && m !in [poolSize] + fl && m !in Starts(bs)
      modifies this`mg, this`nx, this`pv, this`nf, this`pf
      ensures Shape(NULL)
    {
      hide Stored, HeadersApart, RtList.Ring, Tiles, KeysOf, Magics, Aligned, AllAligned, Tailed, Outside;
      Drop(m);
      Frame(old(mg), old(nx), old(pv), old(nf), old(pf), mg, nx, pv, nf, pf, bs, [poolSize] + fl, m);
      NoNull();
    }

    constructor (size: Word)
      requires size >= 2 * RT_MEMHEAP_SIZE
      ensures Valid() && poolSize == SM.RtAlignDown(size) && fresh(cells)
      ensures bs == [Block(0, poolSize - RT_MEMHEAP_SIZE, false), Block(poolSize - RT_MEMHEAP_SIZE, poolSize, true)]
      ensures availableSize == poolSize - 2 * RT_MEMHEAP_SIZE && history == [2 * RT_MEMHEAP_SIZE]
    {
      hide Stored, HeadersApart, Tiles, KeysOf, Aligned, AllAligned, Coalesced, Tailed, Magics, Matches,
           RtList.Ring, SM.RtAlignDown, FreeData;
      var pool := SM.RtAlignDown(size);
      poolSize := pool;
      cells := new int[pool + RT_MEMHEAP_SIZE];
      availableSize := pool - 2 * RT_MEMHEAP_SIZE;
      maxUsedSize, history := 2 * RT_MEMHEAP_SIZE, [2 * RT_MEMHEAP_SIZE];
      var tail := pool - RT_MEMHEAP_SIZE;
      bs, fl := [Block(0, pool - RT_MEMHEAP_SIZE, false), Block(pool - RT_MEMHEAP_SIZE, pool, true)], [0];
      mg := map[pool := MAGIC, 0 := MAGIC, tail := MAGIC + 1];
      nx := map[pool := NULL, 0 := tail, tail := 0];
      pv := map[pool := NULL, 0 := tail, tail := 0];
      nf := map[pool := 0, 0 := pool, tail := NULL];
      pf := map[pool := 0, 0 := pool, tail := NULL];
      new;
      DownBound(size);
      WriteHeaders();
      InitialTiling(pool, bs);
      InitialHeaders(cells[..], pool, mg, nx, pv, nf, pf, bs);
      assert [pool] + fl == [pool, 0];
    }

    /** The words that `rt_memheap_init` writes: an empty free list, one big block that is put
        on it, and the tail. */
    method WriteHeaders()
      requires poolSize >= 2 * RT_MEMHEAP_SIZE && cells.Length == poolSize + RT_MEMHEAP_SIZE
      requires availableSize == poolSize - 2 * RT_MEMHEAP_SIZE
      modifies cells
      ensures HeaderAt(cells[..], poolSize, MAGIC, NULL, NULL, 0, 0)
      ensures HeaderAt(cells[..], 0, MAGIC, poolSize - 24, poolSize - 24, poolSize, poolSize)
      ensures HeaderAt(cells[..], poolSize - 24, MAGIC + 1, 0, 0, NULL, NULL)
    {
      var head, item := poolSize, 0;
      WriteHeader(head, MAGIC, NULL, NULL, head, head);
      var next := item + availableSize + RT_MEMHEAP_SIZE;
      WriteHeader(item, MAGIC, next, next, item, item);
      var first := cells[head + 16];
      assert first == head;
      cells[item + 16], cells[item + 20] := first, head;
      cells[first + 20] := item;
      cells[head + 16] := item;
      assert HeaderAt(cells[..], item, MAGIC, next, next, head, head)
          && HeaderAt(cells[..], head, MAGIC, NULL, NULL, item, item);
      WriteHeader(next, MAGIC + 1, item, item, NULL, NULL);
    }

    method WriteHeader(a: int, magic: int, next: int, prev: int, nextFree: int, prevFree: int)
      requires 0 <= a && a + RT_MEMHEAP_SIZE <= cells.Length
      modifies cells
      ensures HeaderAt(cells[..], a, magic, next, prev, nextFree, prevFree)
      ensures forall x :: 0 <= x < cells.Length && !(a <= x < a + RT_MEMHEAP_SIZE) ==> cells[x] == old(cells[x])
    {
      cells[a], cells[a + 8], cells[a + 12] := magic, next, prev;
      cells[a + 16], cells[a + 20] := nextFree, prevFree;
    }

    /** The search along the free list. */
    method Search(size: nat) returns (header: int, freeSize: int, ghost i: int, ghost k: nat)
      requires Shape(NULL) && Matches(bs, fl, NULL) && size > 0
      ensures freeSize >= size ==>
                && FirstListed(bs, fl, size, i, k) && header == fl[k]
                && freeSize == Data(RT_MEMHEAP_SIZE, bs[i]) && i + 1 < |bs|
      ensures freeSize < size ==> NoFit(bs, size)
    {
      hide Stored, HeadersApart, Tiles, KeysOf, Aligned, AllAligned, NoHeader, Tailed, Magics, Matches, FreeAt,
           RtList.Ring, TooSmall;
      freeSize, i, k := 0, 0, 0;
      ListStep(0);
      header := NextFree(poolSize);
      while header != poolSize && freeSize < size
        invariant k <= |fl| && header == (if k < |fl| then fl[k] else poolSize)
        invariant forall j :: 0 <= j < k ==> TooSmall(bs, fl[j], size)
        invariant freeSize >= size ==>
                  && k < |fl| && 0 <= i < |bs| - 1 && FreeAt(bs, i, fl[k])
                  && freeSize == Data(RT_MEMHEAP_SIZE, bs[i])
        decreases |fl| - k, if freeSize < size then 1 else 0
      {
        ListStep(k);
        i := ListedIsFree(bs, fl, poolSize, k);
        FreeBlock(i, k);
        freeSize := ItemSize(header);
        if freeSize < size {
          ListStep(k + 1);
          header := NextFree(header);
          k := k + 1;
        }
      }
      if freeSize < size {
        ListStep(k);
        NoneListed(bs, fl, size);
      }
    }

    /** Entry `k` of the free list, counted from the head, can be followed. */
    lemma ListStep(k: nat)
      requires Shape(NULL) && k <= |fl|
      ensures ([poolSize] + fl)[k] in mg && ([poolSize] + fl)[k] in nf
      ensures nf[([poolSize] + fl)[k]] == if k < |fl| then fl[k] else poolSize
      ensures k < |fl| ==> fl[k] != poolSize
    {
      NoNull();
      assert LinkAt(nf, pf, [poolSize] + fl, k);
      if k < |fl| {
        assert ([poolSize] + fl)[k + 1] == fl[k] && ([poolSize] + fl)[0] == poolSize;
      }
      assert ([poolSize] + fl)[k] in nf.Keys;
    }

    lemma FreeBlock(i: nat, k: nat)
      requires Shape(NULL) && k < |fl| && FreeAt(bs, i, fl[k]) && i + 1 < |bs|
      requires forall j :: FreeAt(bs, j, fl[k]) ==> j == i
      ensures fl[k] in mg && fl[k] in nx && nx[fl[k]] - fl[k] - RT_MEMHEAP_SIZE == Data(RT_MEMHEAP_SIZE, bs[i])
      ensures Data(RT_MEMHEAP_SIZE, bs[i]) >= 0
      ensures forall need: int :: Data(RT_MEMHEAP_SIZE, bs[i]) < need ==> TooSmall(bs, fl[k], need)
    {
      BlockFacts(bs, nx, pv, mg, poolSize, i);
    }

    /** Serves a request from the front of free block `i`; the rest goes to the front of the free list. */
    method TakeSplit(header: int, size: nat, ghost i: nat, ghost k: nat)
      requires Shape(NULL) && Matches(bs, fl, NULL) && k < |fl| && fl[k] == header && FreeAt(bs, i, header)
      requires i + 1 < |bs|
      requires Aligned(size) && Data(RT_MEMHEAP_SIZE, bs[i]) >= size + RT_MEMHEAP_SIZE + MINIALLOC
      modifies this`bs, this`fl, this`mg, this`nx, this`pv, this`nf, this`pf, cells
      ensures Shape(NULL) && bs == Split(old(bs), i, header + RT_MEMHEAP_SIZE + size, true)
      ensures fl == [header + RT_MEMHEAP_SIZE + size] + Removed(old(fl), k) && Matches(bs, fl, NULL)
      ensures DataKept(RT_MEMHEAP_SIZE, old(cells[..]), cells[..], old(UsedBlocks(bs)))
    {
      hide Shape, Held, Tiles, Matches, Aligned, DataKept, UsedBlocks, FreeData;
      ghost var newPtr := header + RT_MEMHEAP_SIZE + size;
      ghost var b0, f0, c0 := bs, fl, cells[..];
      TilesOf();
      AlignedSum(header, size);
      FreeNotUsed(bs, i);
      MatchSplit(bs, fl, poolSize, i, k, newPtr);
      SplitFacts(RT_MEMHEAP_SIZE, bs, poolSize, i, newPtr, false);
      SplitFacts(RT_MEMHEAP_SIZE, bs, poolSize, i, newPtr, true);
      assert UsedBlocks(Split(bs, i, newPtr, false)) == UsedBlocks(bs);
      var rest := header + size + RT_MEMHEAP_SIZE;
      Cut(header, rest, i);
      TilesOf();
      assert bs[i].start == header;
      RemovedOut(fl, k);
      ghost var c1 := cells[..];
      UnlinkFree(header, k, NULL);
      ghost var c2 := cells[..];
      ClearFree(header);
      ghost var c3 := cells[..];
      PushFree(rest);
      ghost var c4 := cells[..];
      SetUsed(header, true, i);
      assert bs == Split(b0, i, newPtr, true);
      KeptChain(c0, c1, c2, c3, c4, UsedBlocks(b0));
      KeptTwice(RT_MEMHEAP_SIZE, c0, c4, cells[..], UsedBlocks(b0), UsedBlocks(b0), UsedBlocks(bs));
    }

    /** Serves a request with all of free block `i`. */
    method TakeWhole(header: int, ghost i: nat, ghost k: nat)
      requires Shape(NULL) && Matches(bs, fl, NULL) && k < |fl| && fl[k] == header && FreeAt(bs, i, header)
      requires i + 1 < |bs|
      modifies this`bs, this`fl, this`mg, this`nf, this`pf, cells
      ensures Shape(NULL) && bs == Mark(old(bs), i, true)
      ensures fl == Removed(old(fl), k) && Matches(bs, fl, NULL)
      ensures DataKept(RT_MEMHEAP_SIZE, old(cells[..]), cells[..], old(UsedBlocks(bs)))
    {
      hide Shape, Held, Tiles, Matches, Aligned, DataKept, UsedBlocks, FreeData;
      ghost var b0, c0 := bs, cells[..];
      TilesOf();
      FreeNotUsed(bs, i);
      MatchTake(bs, fl, poolSize, i, k);
      MarkFacts(RT_MEMHEAP_SIZE, bs, poolSize, i, true);
      RemovedOut(fl, k);
      UnlinkFree(header, k, NULL);
      ghost var c1 := cells[..];
      ClearFree(header);
      ghost var c2 := cells[..];
      SetUsed(header, true, i);
      KeptTwice(RT_MEMHEAP_SIZE, c0, c1, c2, UsedBlocks(b0), UsedBlocks(b0), UsedBlocks(b0));
      KeptTwice(RT_MEMHEAP_SIZE, c0, c2, cells[..], UsedBlocks(b0), UsedBlocks(b0), UsedBlocks(bs));
    }

    /** Accounts for `more` bytes going into use. */
    method Count(more: int)
      requires Recorded()
      modifies this`availableSize, this`history, this`maxUsedSize
      ensures Recorded() && InUse() == old(InUse()) + more && history == old(history) + [InUse()]
      ensures maxUsedSize == Max(old(maxUsedSize), InUse())
    {
      hide Highest;
      HighestNext(history, maxUsedSize, InUse() + more);
      availableSize := availableSize - more;
      if poolSize - availableSize > maxUsedSize {
        maxUsedSize := poolSize - availableSize;
      }
      history := history + [InUse()];
    }

    /** Serves a request from free block `i`, entry `k` of the free list. */
    method Grant(header: int, freeSize: int, size: nat, ghost i: nat, ghost k: nat)
      requires Valid() && k < |fl| && fl[k] == header && FreeAt(bs, i, header) && i + 1 < |bs|
      requires freeSize == Data(RT_MEMHEAP_SIZE, bs[i]) >= size && Aligned(size)
      modifies this`bs, this`fl, this`mg, this`nx, this`pv, this`nf, this`pf, this`availableSize, this`history,
               this`maxUsedSize, cells
      ensures Valid() && UsedBlocks(bs) == old(UsedBlocks(bs)) + {Granted(old(bs)[i], size)}
      ensures fl == Unlisted(old(bs)[i], size) + Removed(old(fl), k)
      ensures DataKept(RT_MEMHEAP_SIZE, old(cells[..]), cells[..], old(UsedBlocks(bs)))
      ensures maxUsedSize == Max(old(maxUsedSize), InUse())
      ensures InUse() == old(InUse()) + Uses(old(bs)[i], size) && history == old(history) + [InUse()]
    {
      hide Shape, Held, Tiles, Matches, Aligned, DataKept, UsedBlocks, FreeData, Coalesced, Recorded;
      TilesOf();
      FreeNotUsed(bs, i);
      if freeSize >= size + RT_MEMHEAP_SIZE + MINIALLOC {
        SplitCoalesced(bs, i, header + RT_MEMHEAP_SIZE + size);
        SplitFacts(RT_MEMHEAP_SIZE, bs, poolSize, i, header + RT_MEMHEAP_SIZE + size, true);
        TakeSplit(header, size, i, k);
        Count(size + RT_MEMHEAP_SIZE);
      } else {
        MarkCoalesced(bs, i);
        MarkFacts(RT_MEMHEAP_SIZE, bs, poolSize, i, true);
        Count(freeSize);
        TakeWhole(header, i, k);
      }
    }

    /** `rt_memheap_alloc`: the first entry of the free list that is large enough. */
    method Alloc(request: Word) returns (ptr: int, ghost i: int, ghost k: int)
      requires Valid()
      modifies this`bs, this`fl, this`mg, this`nx, this`pv, this`nf, this`pf, this`availableSize, this`history,
               this`maxUsedSize, cells
      ensures Valid()
      ensures ptr == NULL <==> Refused(old(bs), Need(request))
      ensures ptr == NULL ==> unchanged(this) && unchanged(cells)
      ensures ptr != NULL ==>
                && Allocated(old(bs), bs, old(fl), Need(request), i, k)
                && ptr == old(bs)[i].start + RT_MEMHEAP_SIZE
      ensures ptr != NULL ==> fl == Unlisted(old(bs)[i], Need(request)) + Removed(old(fl), k)
      ensures DataKept(RT_MEMHEAP_SIZE, old(cells[..]), cells[..], old(UsedBlocks(bs)))
      ensures maxUsedSize == Max(old(maxUsedSize), InUse())
      ensures ptr != NULL ==>
                && InUse() == old(InUse()) + Uses(old(bs)[i], Need(request))
                && history == old(history) + [InUse()]
    {
      hide Shape, Held, Tiles, Matches, Aligned, UsedBlocks, FreeData, Coalesced, Need;
      var size := Need(request);
      if size < availableSize {
        var header, freeSize;
        header, freeSize, i, k := Search(size);
        if freeSize >= size {
          Grant(header, freeSize, size, i, k);
          ptr := header + RT_MEMHEAP_SIZE;
          return;
        }
      }
      return NULL, 0, 0;
    }

    /** A block still to be listed is taken in by its left neighbour if that one is free. */
    method MergeLeft(header: int, ghost i: nat) returns (merged: bool, at: int, ghost j: nat)
      requires Shape(NULL) && availableSize == FreeData(RT_MEMHEAP_SIZE, bs)
      requires i + 1 < |bs| && bs[i].start == header && !bs[i].used && Matches(bs, fl, header)
      requires CoalescedBut(bs, {i - 1, i})
      modifies this`bs, this`mg, this`nx, this`pv, this`nf, this`pf, this`availableSize, cells
      ensures Shape(NULL) && availableSize == FreeData(RT_MEMHEAP_SIZE, bs) >= old(availableSize)
      ensures j + 1 < |bs| && bs[j].start == at && !bs[j].used && CoalescedBut(bs, {j})
      ensures merged == (i > 0 && !old(bs)[i - 1].used) && bs[j + 1] == old(bs)[i + 1] && (!merged ==> at == header)
      ensures Matches(bs, fl, if merged then NULL else at)
      ensures UsedBlocks(bs) == old(UsedBlocks(bs))
      ensures DataKept(RT_MEMHEAP_SIZE, old(cells[..]), cells[..], UsedBlocks(bs))
    {
      hide Shape, Held, Tiles, Matches, Aligned, DataKept, UsedBlocks, FreeData, IsFree, CoalescedBut;
      TilesOf();
      At(i);
      At(if i > 0 then i - 1 else |bs| - 1);
      var prev := Prev(header);
      var used := IsUsed(prev);
      if used {
        NoLeftHole(bs, i);
        KeptSame(RT_MEMHEAP_SIZE, cells[..], UsedBlocks(bs));
        return false, header, i;
      }
      JoinFacts(RT_MEMHEAP_SIZE, bs, poolSize, i - 1);
      JoinShifts(bs, i - 1);
      availableSize := availableSize + RT_MEMHEAP_SIZE;
      AbsorbLeft(prev, header, i - 1);
      return true, prev, i - 1;
    }

    /** Free block `i` takes in its right neighbour, which is free and not listed. */
    method AbsorbLeft(prev: int, header: int, ghost i: nat)
      requires Shape(NULL) && i + 2 < |bs| && bs[i].start == prev && bs[i + 1].start == header
      requires !bs[i].used && !bs[i + 1].used && Matches(bs, fl, header)
      modifies this`bs, this`mg, this`nx, this`pv, this`nf, this`pf, cells
      ensures Shape(NULL) && bs == Join(old(bs), i) && Matches(bs, fl, NULL)
      ensures UsedBlocks(bs) == old(UsedBlocks(bs))
      ensures DataKept(RT_MEMHEAP_SIZE, old(cells[..]), cells[..], UsedBlocks(bs))
    {
      hide Shape, Held, Tiles, Matches, Aligned, DataKept, UsedBlocks, FreeData, IsFree;
      TilesOf();
      At(i + 1);
      JoinFacts(RT_MEMHEAP_SIZE, bs, poolSize, i);
      MatchLeft(bs, fl, poolSize, i);
      StaleStart(bs, poolSize, i);
      NotListed(bs, fl, poolSize, header);
      UnlinkBlock(prev, header, i);
      Forget(header);
    }

    /** Block `i` takes in its right neighbour if that one is free. */
    method MergeRight(header: int, ghost i: nat, ghost h: int)
      requires Shape(NULL) && availableSize == FreeData(RT_MEMHEAP_SIZE, bs)
      requires i + 1 < |bs| && bs[i].start == header && !bs[i].used && CoalescedBut(bs, {i})
      requires Matches(bs, fl, h) && (h == NULL || h == header)
      modifies this`bs, this`fl, this`mg, this`nx, this`pv, this`nf, this`pf, this`availableSize, cells
      ensures Shape(NULL) && availableSize == FreeData(RT_MEMHEAP_SIZE, bs) >= old(availableSize)
      ensures i + 1 < |bs| && bs[i].start == header && !bs[i].used && Coalesced(bs) && Matches(bs, fl, h)
      ensures fl == if old(bs)[i + 1].used then old(fl) else Less(old(fl), old(bs)[i + 1].start)
      ensures UsedBlocks(bs) == old(UsedBlocks(bs))
      ensures DataKept(RT_MEMHEAP_SIZE, old(cells[..]), cells[..], UsedBlocks(bs))
    {
      hide Shape, Held, Tiles, Matches, Aligned, DataKept, UsedBlocks, FreeData, IsFree, CoalescedBut, Coalesced;
      TilesOf();
      At(i);
      At(i + 1);
      var newPtr := Next(header);
      var used := IsUsed(newPtr);
      if used {
        NoRightHole(bs, i);
        KeptSame(RT_MEMHEAP_SIZE, cells[..], UsedBlocks(bs));
        return;
      }
      JoinFacts(RT_MEMHEAP_SIZE, bs, poolSize, i);
      JoinHeals(bs, i);
      availableSize := availableSize + RT_MEMHEAP_SIZE;
      AbsorbRight(header, newPtr, i, h);
      assert bs[i].start == header && !bs[i].used;
    }

    /** Free block `i` takes in its free right neighbour, which leaves the free list. */
    method AbsorbRight(header: int, newPtr: int, ghost i: nat, ghost h: int)
      requires Shape(NULL) && i + 2 < |bs| && bs[i].start == header && bs[i + 1].start == newPtr
      requires !bs[i].used && !bs[i + 1].used && Matches(bs, fl, h) && (h == NULL || h == header)
      modifies this`bs, this`fl, this`mg, this`nx, this`pv, this`nf, this`pf, cells
      ensures Shape(NULL) && bs == Join(old(bs), i) && Matches(bs, fl, h)
      ensures fl == Less(old(fl), newPtr)
      ensures UsedBlocks(bs) == old(UsedBlocks(bs))
      ensures DataKept(RT_MEMHEAP_SIZE, old(cells[..]), cells[..], UsedBlocks(bs))
    {
      hide Shape, Held, Tiles, Matches, Aligned, DataKept, UsedBlocks, FreeData, IsFree;
      TilesOf();
      At(i + 1);
      ghost var k := ListedAt(bs, fl, i + 1, h);
      JoinFacts(RT_MEMHEAP_SIZE, bs, poolSize, i);
      MatchRight(bs, fl, poolSize, i, k, h);
      StaleStart(bs, poolSize, i);
      RemovedOut(fl, k);
      LessEntry(fl, k);
      ghost var c := cells[..];
      UnlinkBlock(header, newPtr, i);
      ghost var c1 := cells[..];
      UnlinkFree(newPtr, k, newPtr);
      Forget(newPtr);
      KeptTwice(RT_MEMHEAP_SIZE, c, c1, cells[..], UsedBlocks(bs), UsedBlocks(bs), UsedBlocks(bs));
    }

    /** The free block `i`, not listed yet, is merged on both sides and listed, unless its left neighbour is. */
    method MergeAndList(header: int, ghost i: nat)
      requires Shape(NULL) && availableSize == FreeData(RT_MEMHEAP_SIZE, bs)
      requires i + 1 < |bs| && bs[i].start == header && !bs[i].used && Matches(bs, fl, header)
      requires CoalescedBut(bs, {i - 1, i})
      modifies this`bs, this`fl, this`mg, this`nx, this`pv, this`nf, this`pf, this`availableSize, cells
      ensures Shape(NULL) && Coalesced(bs) && Matches(bs, fl, NULL)
      ensures availableSize == FreeData(RT_MEMHEAP_SIZE, bs) >= old(availableSize)
      ensures fl == Relisted(old(bs), old(fl), i)
      ensures UsedBlocks(bs) == old(UsedBlocks(bs))
      ensures DataKept(RT_MEMHEAP_SIZE, old(cells[..]), cells[..], UsedBlocks(bs))
    {
      hide Shape, Held, Tiles, Matches, Aligned, DataKept, UsedBlocks, FreeData, IsFree, CoalescedBut, Coalesced,
           Less;
      ghost var c, u := cells[..], UsedBlocks(bs);
      var merged, at;
      ghost var j;
      merged, at, j := MergeLeft(header, i);
      ghost var c1 := cells[..];
      MergeRight(at, j, if merged then NULL else at);
      ghost var c2 := cells[..];
      KeptTwice(RT_MEMHEAP_SIZE, c, c1, c2, u, u, u);
      if !merged {
        TilesOf();
        NotListed(bs, fl, poolSize, at);
        MatchPush(bs, fl, at);
        PushFreeBefore(at);
        KeptTwice(RT_MEMHEAP_SIZE, c, c2, cells[..], u, u, u);
      }
    }

    /** Gives used block `i` back. */
    method Release(header: int, ghost i: nat)
      requires Valid() && i + 1 < |bs| && bs[i].start == header && bs[i].used
      modifies this`bs, this`fl, this`mg, this`nx, this`pv, this`nf, this`pf, this`availableSize, this`history, cells
      ensures Valid() && UsedBlocks(bs) == old(UsedBlocks(bs)) - {old(bs)[i]}
      ensures fl == Relisted(old(bs), old(fl), i)
      ensures InUse() <= old(InUse()) && history == old(history) + [InUse()]
      ensures DataKept(RT_MEMHEAP_SIZE, old(cells[..]), cells[..], UsedBlocks(bs))
    {
      hide Shape, Held, Tiles, Matches, Aligned, DataKept, UsedBlocks, FreeData, IsFree, CoalescedBut, Coalesced,
           Less, Highest;
      BelowHighest(history, maxUsedSize);
      ghost var c, u := cells[..], UsedBlocks(bs) - {bs[i]};
      TilesOf();
      MarkFacts(RT_MEMHEAP_SIZE, bs, poolSize, i, false);
      assert UsedBlocks(Mark(bs, i, false)) == u;
      MatchFreed(bs, fl, poolSize, i);
      FreedCoalesced(bs, i);
      SetUsed(header, false, i);
      ghost var c1 := cells[..];
      TilesOf();
      At(i);
      var size := ItemSize(header);
      availableSize := availableSize + size;
      MergeAndList(header, i);
      KeptTwice(RT_MEMHEAP_SIZE, c, c1, cells[..], u, u, u);
      HighestNext(history, maxUsedSize, InUse());
      history := history + [InUse()];
    }

    /** The magic numbers that `rt_memheap_free` checks are in place. */
    lemma MagicChecks(i: nat)
      requires Shape(NULL) && i + 1 < |bs| && bs[i].used
      ensures var a := bs[i].start;
              a in mg && a in nx && nx[a] in mg && mg[a] == MAGIC + 1 && mg[nx[a]] / 2 * 2 == MAGIC
    {
      At(i);
      At(i + 1);
    }

    ghost predicate Allotted(ptr: int)
      reads this`bs
    {
      exists i :: 0 <= i < |bs| - 1 && bs[i].used && bs[i].start + RT_MEMHEAP_SIZE == ptr
    }

    /** `rt_memheap_free` */
    method Free(ptr: int)
      requires Valid() && (ptr == NULL || Allotted(ptr))
      modifies this`bs, this`fl, this`mg, this`nx, this`pv, this`nf, this`pf, this`availableSize, this`history, cells
      ensures Valid()
      ensures UsedBlocks(bs) == set b | b in old(UsedBlocks(bs)) && b.start + RT_MEMHEAP_SIZE != ptr
      ensures ptr == NULL ==> unchanged(this) && unchanged(cells)
      ensures ptr != NULL ==> history == old(history) + [InUse()]
      ensures ptr != NULL ==>
                exists i ::
                  && 0 <= i < |old(bs)| - 1 && old(bs)[i].start + RT_MEMHEAP_SIZE == ptr
                  && fl == Relisted(old(bs), old(fl), i)
      ensures DataKept(RT_MEMHEAP_SIZE, old(cells[..]), cells[..], UsedBlocks(bs))
    {
      hide Shape, Held, Tiles, Matches, FreeData, Coalesced, DataKept, UsedBlocks;
      if ptr == NULL {
        AllBut(bs, poolSize, 0, ptr);
        KeptSame(RT_MEMHEAP_SIZE, cells[..], UsedBlocks(bs));
        return;
      }
      ghost var i :| 0 <= i < |bs| - 1 && bs[i].used && bs[i].start + RT_MEMHEAP_SIZE == ptr;
      TilesOf();
      AllBut(bs, poolSize, i, ptr);
      Release(ptr - RT_MEMHEAP_SIZE, i);
    }

    /** Used block `i` takes over the front of its free right neighbour. */
    method Grow(ptr: int, oldsize: int, newsize: int, ghost i: nat)
      requires Valid() && i + 2 < |bs| && bs[i].start + RT_MEMHEAP_SIZE == ptr && bs[i].used && !bs[i + 1].used
      requires oldsize == Data(RT_MEMHEAP_SIZE, bs[i]) < newsize && Aligned(newsize)
      requires Data(RT_MEMHEAP_SIZE, bs[i + 1]) + oldsize > newsize + MINIALLOC
      modifies this`bs, this`fl, this`mg, this`nx, this`pv, this`nf, this`pf, this`availableSize, this`history,
               this`maxUsedSize, cells
      ensures Valid() && maxUsedSize == Max(old(maxUsedSize), InUse())
      ensures InUse() == old(InUse()) + (newsize - oldsize) && history == old(history) + [InUse()]
      ensures UsedBlocks(bs) == old(UsedBlocks(bs)) - {old(bs)[i]} + {Block(ptr - RT_MEMHEAP_SIZE, ptr + newsize, true)}
      ensures fl == [ptr + newsize] + Less(old(fl), old(bs)[i + 1].start)
      ensures DataKept(RT_MEMHEAP_SIZE, old(cells[..]), cells[..], old(UsedBlocks(bs)))
    {
      hide Shape, Held, Tiles, Matches, Aligned, DataKept, UsedBlocks, FreeData, IsFree, Coalesced, Less,
           SameBytes, Removed, Join, Split, Recorded;
      TilesOf();
      At(i);
      At(i + 1);
      ghost var c, b0, mid := cells[..], bs, ptr + newsize;
      var header := ptr - RT_MEMHEAP_SIZE;
      var next := Next(header);
      GrowFacts(bs, poolSize, i, mid);
      ghost var k := GrowLists(bs, fl, poolSize, i, mid);
      AlignedSum(header, newsize);
      Count(newsize - oldsize);
      UnlinkFree(next, k, NULL);
      ghost var c1 := cells[..];
      UnlinkBlock(header, next, i);
      ghost var c2 := cells[..];
      Forget(next);
      Cut(header, ptr + newsize, i);
      ghost var c3 := cells[..];
      PushFree(ptr + newsize);
      KeptGrown(c, c1, c2, c3, cells[..], b0, bs, i, mid);
    }

    /** Used block `i` keeps its first `newsize` data bytes; the rest is given back. */
    method Shrink(ptr: int, newsize: int, ghost i: nat)
      requires Valid() && i + 1 < |bs| && bs[i].start + RT_MEMHEAP_SIZE == ptr && bs[i].used
      requires Aligned(newsize) && 0 <= newsize
      requires newsize + RT_MEMHEAP_SIZE + MINIALLOC < Data(RT_MEMHEAP_SIZE, bs[i])
      modifies this`bs, this`fl, this`mg, this`nx, this`pv, this`nf, this`pf, this`availableSize, this`history, cells
      ensures Valid() && InUse() <= old(InUse()) && history == old(history) + [InUse()]
      ensures UsedBlocks(bs) == old(UsedBlocks(bs)) - {old(bs)[i]} + {Block(ptr - RT_MEMHEAP_SIZE, ptr + newsize, true)}
      ensures fl == [ptr + newsize] + if old(bs)[i + 1].used then old(fl) else Less(old(fl), old(bs)[i + 1].start)
      ensures DataKept(RT_MEMHEAP_SIZE, old(cells[..]), cells[..], UsedBlocks(bs))
    {
      hide Shape, Held, Tiles, Matches, Aligned, DataKept, UsedBlocks, FreeData, IsFree, Coalesced, CoalescedBut;
      BelowHighest(history, maxUsedSize);
      ghost var c, n := cells[..], bs[i].next;
      var header := ptr - RT_MEMHEAP_SIZE;
      var newPtr := header + newsize + RT_MEMHEAP_SIZE;
      TilesOf();
      AlignedSum(header, newsize);
      SplitFacts(RT_MEMHEAP_SIZE, bs, poolSize, i, newPtr, true);
      CutCoalesced(bs, i, newPtr);
      MatchCut(bs, fl, poolSize, i, newPtr);
      Cut(header, newPtr, i);
      ghost var c1 := cells[..];
      GiveRest(newPtr, i + 1);
      HighestNext(history, maxUsedSize, InUse());
      history := history + [InUse()];
      KeptTwice(RT_MEMHEAP_SIZE, c, c1, cells[..], UsedBlocks(bs), UsedBlocks(bs), UsedBlocks(bs));
    }

    /** The part cut off, not listed yet, joins a free right neighbour. */
    method JoinRest(newPtr: int, ghost i: nat)
      requires Shape(NULL) && i + 1 < |bs| && bs[i].start == newPtr && !bs[i].used
      requires Matches(bs, fl, newPtr) && CoalescedBut(bs, {i})
      requires availableSize == FreeData(RT_MEMHEAP_SIZE, bs) - Data(RT_MEMHEAP_SIZE, bs[i])
      modifies this`bs, this`fl, this`mg, this`nx, this`pv, this`nf, this`pf, this`availableSize, cells
      ensures Shape(NULL) && i + 1 < |bs| && bs[i].start == newPtr && !bs[i].used
      ensures Matches(bs, fl, newPtr) && Coalesced(bs)
      ensures fl == if old(bs)[i + 1].used then old(fl) else Less(old(fl), old(bs)[i + 1].start)
      ensures availableSize == FreeData(RT_MEMHEAP_SIZE, bs) - Data(RT_MEMHEAP_SIZE, bs[i])
      ensures FreeData(RT_MEMHEAP_SIZE, bs) >= old(FreeData(RT_MEMHEAP_SIZE, bs))
      ensures UsedBlocks(bs) == old(UsedBlocks(bs))
      ensures DataKept(RT_MEMHEAP_SIZE, old(cells[..]), cells[..], UsedBlocks(bs))
    {
      hide Shape, Held, Tiles, Matches, Aligned, DataKept, UsedBlocks, FreeData, IsFree, Coalesced, CoalescedBut;
      TilesOf();
      At(i);
      At(i + 1);
      var next := Next(newPtr);
      var used := IsUsed(next);
      if !used {
        var size := ItemSize(next);
        availableSize := availableSize - size;
        JoinFacts(RT_MEMHEAP_SIZE, bs, poolSize, i);
        JoinHeals(bs, i);
        AbsorbRight(newPtr, next, i, newPtr);
      } else {
        NoRightHole(bs, i);
        KeptSame(RT_MEMHEAP_SIZE, cells[..], UsedBlocks(bs));
      }
    }

    /** The part cut off joins a free right neighbour and goes to the front of the free list. */
    method GiveRest(newPtr: int, ghost i: nat)
      requires Shape(NULL) && i + 1 < |bs| && bs[i].start == newPtr && !bs[i].used
      requires Matches(bs, fl, newPtr) && CoalescedBut(bs, {i})
      requires availableSize == FreeData(RT_MEMHEAP_SIZE, bs) - Data(RT_MEMHEAP_SIZE, bs[i])
      modifies this`bs, this`fl, this`mg, this`nx, this`pv, this`nf, this`pf, this`availableSize, cells
      ensures Shape(NULL) && Coalesced(bs) && Matches(bs, fl, NULL)
      ensures fl == [newPtr] + if old(bs)[i + 1].used then old(fl) else Less(old(fl), old(bs)[i + 1].start)
      ensures availableSize == FreeData(RT_MEMHEAP_SIZE, bs) >= old(availableSize)
      ensures UsedBlocks(bs) == old(UsedBlocks(bs))
      ensures DataKept(RT_MEMHEAP_SIZE, old(cells[..]), cells[..], UsedBlocks(bs))
    {
      hide Shape, Held, Tiles, Matches, Aligned, DataKept, UsedBlocks, FreeData, IsFree, Coalesced, CoalescedBut, Less;
      ghost var c := cells[..];
      At(i);
      JoinRest(newPtr, i);
      ghost var c1 := cells[..];
      TilesOf();
      At(i);
      NotListed(bs, fl, poolSize, newPtr);
      MatchPush(bs, fl, newPtr);
      PushFree(newPtr);
      TilesOf();
      At(i);
      var rest := ItemSize(newPtr);
      availableSize := availableSize + rest;
      KeptTwice(RT_MEMHEAP_SIZE, c, c1, cells[..], UsedBlocks(bs), UsedBlocks(bs), UsedBlocks(bs));
    }

    /** Copies the first `n` data bytes of block `b` to block `g`. */
    method CopyData(dst: int, src: int, n: nat, ghost g: Block, ghost b: Block)
      requires Valid() && g in UsedBlocks(bs) && b in UsedBlocks(bs) && (g.next <= b.start || b.next <= g.start)
      requires dst == g.start + RT_MEMHEAP_SIZE && src == b.start + RT_MEMHEAP_SIZE && g.next <= poolSize
      requires b.next <= poolSize
      requires n <= Data(RT_MEMHEAP_SIZE, b) && n <= Data(RT_MEMHEAP_SIZE, g)
      modifies cells
      ensures Valid()
      ensures Carried(old(cells[..]), cells[..], src, dst, n)
      ensures DataKept(RT_MEMHEAP_SIZE, old(cells[..]), cells[..], UsedBlocks(bs) - {g})
    {
      hide Tiles, Matches, Aligned, DataKept, FreeData, IsFree, Coalesced, Stored, HeadersApart, KeysOf, Magics,
           RtList.Ring, AllAligned, Tailed;
      ghost var c := cells[..];
      NoNull();
      MemOps.MemCpy(cells, dst, src, n);
      MemOps.Arrived(c, cells[..], dst, src, n);
      DataWritten(c, cells[..], mg, nx, pv, nf, pf, bs, poolSize, g);
      assert cells[dst..dst + n] == c[src..src + n];
    }

    /** The owner of a block writes one byte of its data; the heap does not notice. */
    method Store(a: int, v: int, ghost b: Block)
      requires Valid() && b in UsedBlocks(bs) && b.start + RT_MEMHEAP_SIZE <= a < b.next
      modifies cells
      ensures Valid()
      ensures a < cells.Length && cells[..] == old(cells[..])[a := v]
      ensures DataKept(RT_MEMHEAP_SIZE, old(cells[..]), cells[..], UsedBlocks(bs) - {b})
    {
      hide Matches, Aligned, DataKept, FreeData, IsFree, Coalesced, Stored, HeadersApart, KeysOf, Magics,
           RtList.Ring, AllAligned, Tailed;
      ghost var c := cells[..];
      NoNull();
      Ordered(RT_MEMHEAP_SIZE, bs, 0, poolSize);
      ghost var i :| 0 <= i < |bs| && bs[i] == b;
      hide Tiles;
      cells[a] := v;
      DataWritten(c, cells[..], mg, nx, pv, nf, pf, bs, poolSize, b);
    }

    /** The second half of a move: copy the data, give the old block back. */
    method MoveData(ptr: int, newPtr: int, n: nat, ghost b: Block, ghost g: Block, ghost i: nat)
      requires Valid() && g in UsedBlocks(bs) && i + 1 < |bs| && bs[i] == b && b.used && b != g
          && (g.next <= b.start || b.next <= g.start)
      requires newPtr == g.start + RT_MEMHEAP_SIZE && ptr == b.start + RT_MEMHEAP_SIZE && g.next <= poolSize
      requires b.next <= poolSize
      requires n <= Data(RT_MEMHEAP_SIZE, b) && n <= Data(RT_MEMHEAP_SIZE, g)
      modifies this`bs, this`fl, this`mg, this`nx, this`pv, this`nf, this`pf, this`availableSize, this`history, cells
      ensures Valid() && UsedBlocks(bs) == old(UsedBlocks(bs)) - {b}
      ensures InUse() <= old(InUse()) && history == old(history) + [InUse()]
      ensures Carried(old(cells[..]), cells[..], ptr, newPtr, n)
      ensures DataKept(RT_MEMHEAP_SIZE, old(cells[..]), cells[..], old(UsedBlocks(bs)) - {b, g})
    {
      hide Shape, Matches, DataKept, FreeData, Coalesced, Carried, SameBytes, Tiles;
      ghost var c, u := cells[..], UsedBlocks(bs);
      CopyData(newPtr, ptr, n, g, b);
      ghost var c1 := cells[..];
      Release(ptr - RT_MEMHEAP_SIZE, i);
      assert g in UsedBlocks(bs);
      KeptOne(RT_MEMHEAP_SIZE, c1, cells[..], UsedBlocks(bs), g);
      CarriedBounds(c, c1, ptr, newPtr, n);
      CarriedOn(RT_MEMHEAP_SIZE, c, c1, cells[..], b, g, n);
      KeptTwice(RT_MEMHEAP_SIZE, c, c1, cells[..], u - {b, g}, u - {g}, UsedBlocks(bs));
    }

    /** Moves used block `b` to a newly allocated one, if there is room for it. */
    method Move(ptr: int, oldsize: nat, newsize: Word, ghost b: Block) returns (r: int, ghost i: int, ghost k: int)
      requires Valid() && b in UsedBlocks(bs) && b.start + RT_MEMHEAP_SIZE < poolSize
      requires ptr == b.start + RT_MEMHEAP_SIZE
      requires oldsize == Data(RT_MEMHEAP_SIZE, b) < newsize && Aligned(newsize)
      modifies this`bs, this`fl, this`mg, this`nx, this`pv, this`nf, this`pf, this`availableSize, this`history,
               this`maxUsedSize, cells
      ensures Valid()
      ensures r == NULL <==> Refused(old(bs), Need(newsize))
      ensures r == NULL ==> unchanged(this) && unchanged(cells)
      ensures r != NULL ==>
                && Moved(old(bs), bs, old(fl), Need(newsize), b, i, k)
                && r == old(bs)[i].start + RT_MEMHEAP_SIZE
      ensures r != NULL ==> Carried(old(cells[..]), cells[..], ptr, r, oldsize)
      ensures r != NULL ==> var both := old(InUse()) + Uses(old(bs)[i], Need(newsize));
                            history == old(history) + [both, InUse()] && maxUsedSize == Max(old(maxUsedSize), both)
      ensures DataKept(RT_MEMHEAP_SIZE, old(cells[..]), cells[..], old(UsedBlocks(bs)) * UsedBlocks(bs))
    {
      hide Shape, Held, Tiles, Matches, Aligned, DataKept, UsedBlocks, FreeData, IsFree, Coalesced, Refused,
           Highest, Uses, FirstListed, Need, Granted, Carried, SameBytes, Tailed;
      ghost var c, b0, u0 := cells[..], bs, UsedBlocks(bs);
      TilesOf();
      NeedAligned(newsize);
      r, i, k := Alloc(newsize);
      if r == NULL {
        assert cells[..] == c;
        KeptSame(RT_MEMHEAP_SIZE, c, u0 * UsedBlocks(bs));
        return;
      }
      ghost var c1, u1 := cells[..], UsedBlocks(bs);
      TilesOf();
      GrantedIs(b0, old(fl), Need(newsize), i, k);
      ghost var g := Granted(b0[i], Need(newsize));
      GrantedApart(RT_MEMHEAP_SIZE, b0, bs, poolSize, i, g, b);
      ghost var j := UsedIndex(bs, poolSize, b);
      MoveData(ptr, r, if oldsize < newsize then oldsize else newsize, b, g, j);
      MoveConclude(RT_MEMHEAP_SIZE, c, c1, cells[..], u0, u1, UsedBlocks(bs), b, g, oldsize);
    }

    /** The exchange and the amounts in use meanwhile: a move holds both blocks for a while. */
    twostate predicate Resized(b: Block, n: Word, r: int, i: int, k: int)
      reads this`bs, this`availableSize, this`maxUsedSize, this`history
    {
      && Exchanged(old(bs), bs, old(fl), b, n, r, i, k)
      && if Kept(b, n) || r == NULL then
        history == old(history) && maxUsedSize == old(maxUsedSize)
      else if StaysPut(old(bs), b, n) then
        history == old(history) + [InUse()] && maxUsedSize == Max(old(maxUsedSize), InUse())
      else
        var both := old(InUse()) + Uses(old(bs)[i], n);
        history == old(history) + [both, InUse()] && maxUsedSize == Max(old(maxUsedSize), both)
    }

    /** Used block `i` is to hold more bytes. */
    method GrowOrMove(ptr: int, oldsize: nat, newsize: Word, ghost i: nat) returns (r: int, ghost at: int, ghost k: int)
      requires Valid() && i + 1 < |bs| && bs[i].used && ptr == bs[i].start + RT_MEMHEAP_SIZE
      requires oldsize == Data(RT_MEMHEAP_SIZE, bs[i]) < newsize && Aligned(newsize)
      requires newsize >= MINIALLOC && (newsize + MINIALLOC < SM.WORD_LIMIT || bs[i + 1].used)
      modifies this`bs, this`fl, this`mg, this`nx, this`pv, this`nf, this`pf, this`availableSize, this`history,
               this`maxUsedSize, cells
      ensures Valid()
      ensures Resized(old(bs[i]), newsize, r, at, k)
      ensures r == NULL ==> unchanged(this) && unchanged(cells)
      ensures r != NULL ==> Carried(old(cells[..]), cells[..], ptr, r, oldsize)
      ensures DataKept(RT_MEMHEAP_SIZE, old(cells[..]), cells[..], old(UsedBlocks(bs)) * UsedBlocks(bs))
    {
      hide Shape, Held, Tiles, Matches, Aligned, DataKept, UsedBlocks, FreeData, IsFree, Coalesced, Refused,
           Need, Carried, SameBytes, Moved, Tailed, RoomBehind, Recorded, AllAligned;
      ghost var c, b, u := cells[..], bs[i], UsedBlocks(bs);
      TilesOf();
      At(i);
      At(i + 1);
      InUsed(bs, i);
      RoomIs(bs, poolSize, i, newsize);
      NeedIs(newsize);
      var next := Next(ptr - RT_MEMHEAP_SIZE);
      var used := IsUsed(next);
      if !used {
        var nextsize := ItemSize(next);
        if GrowTest(nextsize, oldsize, newsize) {
          Grow(ptr, oldsize, newsize, i);
          KeptOne(RT_MEMHEAP_SIZE, c, cells[..], u, b);
          CarriedSame(c, cells[..], ptr, oldsize);
          KeptLess(RT_MEMHEAP_SIZE, c, cells[..], u, u * UsedBlocks(bs));
          return ptr, 0, 0;
        }
      }
      r, at, k := Move(ptr, oldsize, newsize, b);
    }

    /** A request for fewer bytes, or hardly fewer: the block stays where it is. */
    method ShrinkOrKeep(ptr: int, oldsize: nat, newsize: Word, ghost i: nat)
      requires Valid() && i + 1 < |bs| && bs[i].used && ptr == bs[i].start + RT_MEMHEAP_SIZE
      requires oldsize == Data(RT_MEMHEAP_SIZE, bs[i]) >= newsize && Aligned(newsize)
      modifies this`bs, this`fl, this`mg, this`nx, this`pv, this`nf, this`pf, this`availableSize, this`history, cells
      ensures Valid()
      ensures Resized(old(bs[i]), newsize, ptr, 0, 0)
      ensures Carried(old(cells[..]), cells[..], ptr, ptr, newsize)
      ensures DataKept(RT_MEMHEAP_SIZE, old(cells[..]), cells[..], old(UsedBlocks(bs)) * UsedBlocks(bs))
    {
      hide Shape, Held, Tiles, Matches, Aligned, DataKept, UsedBlocks, FreeData, IsFree, Coalesced, Refused,
           Need, Carried, SameBytes, Moved;
      ghost var c, u := cells[..], UsedBlocks(bs);
      TilesOf();
      At(i);
      if newsize + RT_MEMHEAP_SIZE + MINIALLOC >= oldsize {
        KeptSame(RT_MEMHEAP_SIZE, c, u * UsedBlocks(bs));
        SameCarried(c, ptr, newsize);
        return;
      }
      Shrink(ptr, newsize, i);
      ghost var b := Block(ptr - RT_MEMHEAP_SIZE, ptr + newsize, true);
      KeptOne(RT_MEMHEAP_SIZE, c, cells[..], UsedBlocks(bs), b);
      CarriedSame(c, cells[..], ptr, newsize);
      KeptLess(RT_MEMHEAP_SIZE, c, cells[..], UsedBlocks(bs), u * UsedBlocks(bs));
    }

    /** The block whose data starts at `ptr`. */
    ghost function BlockAt(ptr: int): (b: Block)
      requires Allotted(ptr)
      reads this`bs
      ensures b in UsedBlocks(bs) && b.used && b.start + RT_MEMHEAP_SIZE == ptr
      ensures exists i :: 0 <= i < |bs| - 1 && bs[i] == b
    {
      var i :| 0 <= i < |bs| - 1 && bs[i].used && bs[i].start + RT_MEMHEAP_SIZE == ptr;
      bs[i]
    }

    /** `rt_memheap_realloc`.  The one request left out is for 2^32 - 12 bytes or more when the block behind
        is free: there the test for room wraps, see `WrappedGrowth`. */
    method Realloc(ptr: int, newsize: Word) returns (r: int, ghost at: int, ghost k: int)
      requires Valid() && (ptr == NULL || Allotted(ptr))
      requires ptr != NULL && newsize > 0 ==>
                 Need(newsize) + MINIALLOC < SM.WORD_LIMIT || !FreeBehind(bs, BlockAt(ptr))
      modifies this`bs, this`fl, this`mg, this`nx, this`pv, this`nf, this`pf, this`availableSize, this`history,
               this`maxUsedSize, cells
      ensures Valid()
      ensures newsize == 0 ==>
                && r == NULL && UsedBlocks(bs) == (set b | b in old(UsedBlocks(bs)) && b.start + RT_MEMHEAP_SIZE != ptr)
                && history == old(history) + (if ptr == NULL then [] else [InUse()]) && maxUsedSize == old(maxUsedSize)
      ensures newsize > 0 && ptr == NULL ==>
                && (r == NULL <==> Refused(old(bs), Need(newsize)))
                && (r != NULL ==> Allocated(old(bs), bs, old(fl), Need(newsize), at, k)
                                  && r == old(bs)[at].start + RT_MEMHEAP_SIZE
                                  && history == old(history) + [InUse()]
                                      && maxUsedSize == Max(old(maxUsedSize), InUse()))
      ensures newsize > 0 && ptr != NULL ==>
                && Resized(old(BlockAt(ptr)), Need(newsize), r, at, k)
                && (r != NULL ==> Carried(old(cells[..]), cells[..], ptr, r,
                                          Least(Data(RT_MEMHEAP_SIZE, old(BlockAt(ptr))), Need(newsize))))
      ensures r == NULL && (newsize > 0 || ptr == NULL) ==> unchanged(this) && unchanged(cells)
      ensures DataKept(RT_MEMHEAP_SIZE, old(cells[..]), cells[..], old(UsedBlocks(bs)) * UsedBlocks(bs))
    {
      hide Shape, Held, Tiles, Matches, Aligned, DataKept, UsedBlocks, FreeData, IsFree, Coalesced, Refused,
           Need, Carried, SameBytes, Moved, FirstListed, Granted;
      ghost var c, u := cells[..], UsedBlocks(bs);
      if newsize == 0 {
        Free(ptr);
        KeptLess(RT_MEMHEAP_SIZE, c, cells[..], UsedBlocks(bs), u * UsedBlocks(bs));
        return NULL, 0, 0;
      }
      NeedTwice(newsize);
      var n := Need(newsize);
      if ptr == NULL {
        r, at, k := Alloc(n);
        KeptLess(RT_MEMHEAP_SIZE, c, cells[..], u, u * UsedBlocks(bs));
        return;
      }
      TilesOf();
      ghost var b := BlockAt(ptr);
      ghost var i :| 0 <= i < |bs| - 1 && bs[i] == b;
      At(i);
      var oldsize := ItemSize(ptr - RT_MEMHEAP_SIZE);
      BehindIs(bs, poolSize, i);
      if n > oldsize {
        r, at, k := GrowOrMove(ptr, oldsize, n, i);
      } else {
        ShrinkOrKeep(ptr, oldsize, n, i);
        return ptr, 0, 0;
      }
    }

    lemma At(i: nat)
      requires Shape(NULL) && i < |bs|
      ensures var a := bs[i].start;
              && a in nx && a in pv && a in mg && (mg[a] % 2 == 1 <==> bs[i].used)
              && a + RT_MEMHEAP_SIZE <= bs[i].next <= poolSize
              && (i + 1 < |bs| ==> nx[a] == bs[i].next == bs[i + 1].start && bs[i].next + RT_MEMHEAP_SIZE <= poolSize)
              && (i > 0 ==> pv[a] == bs[i - 1].start && bs[i - 1].next == a)
              && (i == 0 ==> pv[a] == bs[|bs| - 1].start && a == 0)
    {
      BlockFacts(bs, nx, pv, mg, poolSize, i);
    }

    lemma TilesOf()
      requires Shape(NULL)
      ensures Held() && Tiles(RT_MEMHEAP_SIZE, bs, 0, poolSize) && Tailed(bs, poolSize) && AllAligned(bs)
      ensures Distinct(fl) && poolSize !in fl && cells.Length == poolSize + RT_MEMHEAP_SIZE
      ensures poolSize < SM.WORD_LIMIT
      ensures forall i :: 0 <= i < |bs| ==> bs[i].start in mg && bs[i].start < poolSize
    {
      DistinctTail(poolSize, fl);
      forall i | 0 <= i < |bs| ensures bs[i].start in mg && bs[i].start < poolSize {
        BlockFacts(bs, nx, pv, mg, poolSize, i);
      }
    }
  }

  lemma DistinctTail(x: int, s: seq<int>)
    requires Distinct([x] + s)
    ensures Distinct(s) && x !in s
  {
    assert forall k :: 0 <= k < |s| ==> ([x] + s)[k + 1] == s[k];
    assert ([x] + s)[0] == x;
  }

  lemma FreeNotUsed(bs: seq<Block>, i: nat)
    requires i < |bs| && !bs[i].used
    ensures UsedBlocks(bs) - {bs[i]} == UsedBlocks(bs)
  {
  }

  /** Which blocks are free after each edit. */
  lemma SplitFree(bs: seq<Block>, pool: nat, i: nat, mid: nat, a: int)
    requires Tiles(RT_MEMHEAP_SIZE, bs, 0, pool) && i < |bs| && bs[i].start < mid < bs[i].next
    ensures IsFree(Split(bs, i, mid, true), a) <==> a == mid || (IsFree(bs, a) && a != bs[i].start)
  {
    var r := Split(bs, i, mid, true);
    Ordered(RT_MEMHEAP_SIZE, bs, 0, pool);
    if a == mid {
      assert FreeAt(r, i + 1, mid);
    } else {
      if IsFree(bs, a) && a != bs[i].start {
        var j :| FreeAt(bs, j, a);
        if j < i { assert FreeAt(r, j, a); } else { assert r[j + 1] == bs[j] && FreeAt(r, j + 1, a); }
      }
      if IsFree(r, a) {
        var j :| FreeAt(r, j, a);
        assert j != i && j != i + 1;
        if j < i { assert FreeAt(bs, j, a); } else { assert r[j] == bs[j - 1] && FreeAt(bs, j - 1, a); }
      }
    }
  }

  lemma MarkFree(bs: seq<Block>, pool: nat, i: nat, use: bool, a: int)
    requires Tiles(RT_MEMHEAP_SIZE, bs, 0, pool) && i < |bs|
    ensures IsFree(Mark(bs, i, use), a) <==> if a == bs[i].start then !use else IsFree(bs, a)
  {
    var r := Mark(bs, i, use);
    Ordered(RT_MEMHEAP_SIZE, bs, 0, pool);
    if a == bs[i].start {
      if !use { assert FreeAt(r, i, a); }
    } else {
      if IsFree(bs, a) {
        var j :| FreeAt(bs, j, a);
        assert FreeAt(r, j, a);
      }
      if IsFree(r, a) {
        var j :| FreeAt(r, j, a);
        assert FreeAt(bs, j, a);
      }
    }
  }

  lemma JoinFree(bs: seq<Block>, pool: nat, i: nat, a: int)
    requires Tiles(RT_MEMHEAP_SIZE, bs, 0, pool) && i + 1 < |bs|
    ensures IsFree(Join(bs, i), a) <==> IsFree(bs, a) && a != bs[i + 1].start
  {
    var r := Join(bs, i);
    Ordered(RT_MEMHEAP_SIZE, bs, 0, pool);
    if IsFree(bs, a) && a != bs[i + 1].start {
      var j :| FreeAt(bs, j, a);
      if j <= i { assert FreeAt(r, j, a); } else { assert r[j - 1] == bs[j] && FreeAt(r, j - 1, a); }
    }
    if IsFree(r, a) {
      var j :| FreeAt(r, j, a);
      if j <= i { assert FreeAt(bs, j, a); } else { assert r[j] == bs[j + 1] && FreeAt(bs, j + 1, a); }
    }
  }

  lemma MatchSplit(bs: seq<Block>, fl: seq<int>, pool: nat, i: nat, k: nat, mid: nat)
    requires Tiles(RT_MEMHEAP_SIZE, bs, 0, pool) && Matches(bs, fl, NULL) && Distinct(fl) && k < |fl|
    requires FreeAt(bs, i, fl[k])
    requires bs[i].start < mid < bs[i].next
    ensures Matches(Split(bs, i, mid, true), [mid] + Removed(fl, k), NULL)
  {
    var r := Split(bs, i, mid, true);
    forall a ensures IsFree(r, a) <==> a == mid || (IsFree(bs, a) && a != bs[i].start) {
      SplitFree(bs, pool, i, mid, a);
    }
    hide IsFree;
    RemovedOut(fl, k);
    RemovedMembers(fl, k);
  }

  lemma MatchTake(bs: seq<Block>, fl: seq<int>, pool: nat, i: nat, k: nat)
    requires Tiles(RT_MEMHEAP_SIZE, bs, 0, pool) && Matches(bs, fl, NULL) && Distinct(fl) && k < |fl|
    requires FreeAt(bs, i, fl[k])
    ensures Matches(Mark(bs, i, true), Removed(fl, k), NULL)
  {
    forall a ensures IsFree(Mark(bs, i, true), a) <==> IsFree(bs, a) && a != bs[i].start {
      MarkFree(bs, pool, i, true, a);
    }
    hide IsFree;
    RemovedOut(fl, k);
    RemovedMembers(fl, k);
  }

  lemma MatchFreed(bs: seq<Block>, fl: seq<int>, pool: nat, i: nat)
    requires Tiles(RT_MEMHEAP_SIZE, bs, 0, pool) && Matches(bs, fl, NULL) && i < |bs| && bs[i].used
    ensures Matches(Mark(bs, i, false), fl, bs[i].start)
  {
    Ordered(RT_MEMHEAP_SIZE, bs, 0, pool);
    assert !IsFree(bs, bs[i].start);
    forall a ensures IsFree(Mark(bs, i, false), a) <==> IsFree(bs, a) || a == bs[i].start {
      MarkFree(bs, pool, i, false, a);
    }
    hide IsFree;
  }

  /** A freed block disappears in its free left neighbour, which is listed already. */
  lemma MatchLeft(bs: seq<Block>, fl: seq<int>, pool: nat, i: nat)
    requires Tiles(RT_MEMHEAP_SIZE, bs, 0, pool) && i + 1 < |bs| && Matches(bs, fl, bs[i + 1].start)
    ensures Matches(Join(bs, i), fl, NULL)
  {
    NoNullStart(bs);
    forall a ensures IsFree(Join(bs, i), a) <==> IsFree(bs, a) && a != bs[i + 1].start {
      JoinFree(bs, pool, i, a);
    }
    hide IsFree;
  }

  /** A block takes in its free right neighbour, which leaves the list. */
  lemma MatchRight(bs: seq<Block>, fl: seq<int>, pool: nat, i: nat, k: nat, h: int)
    requires Tiles(RT_MEMHEAP_SIZE, bs, 0, pool) && i + 1 < |bs| && Matches(bs, fl, h) && Distinct(fl)
    requires k < |fl| && fl[k] == bs[i + 1].start
    ensures Matches(Join(bs, i), Removed(fl, k), h)
  {
    forall a ensures IsFree(Join(bs, i), a) <==> IsFree(bs, a) && a != bs[i + 1].start {
      JoinFree(bs, pool, i, a);
    }
    hide IsFree;
    assert fl[k] in fl;
    RemovedOut(fl, k);
    RemovedMembers(fl, k);
  }

  lemma MatchPush(bs: seq<Block>, fl: seq<int>, h: int)
    requires Matches(bs, fl, h) && h != NULL
    ensures Matches(bs, [h] + fl, NULL)
  {
    hide IsFree;
    NoNullStart(bs);
    assert forall a :: a in [h] + fl <==> a == h || a in fl;
  }

  /** A used block is cut; the rear part is listed. */
  lemma MatchCut(bs: seq<Block>, fl: seq<int>, pool: nat, i: nat, mid: nat)
    requires Tiles(RT_MEMHEAP_SIZE, bs, 0, pool) && Matches(bs, fl, NULL) && i < |bs| && bs[i].used
    requires bs[i].start < mid < bs[i].next
    ensures Matches(Split(bs, i, mid, true), [mid] + fl, NULL)
    ensures Matches(Split(bs, i, mid, true), fl, mid)
  {
    var r := Split(bs, i, mid, true);
    Ordered(RT_MEMHEAP_SIZE, bs, 0, pool);
    assert !IsFree(bs, bs[i].start);
    assert !IsFree(bs, mid);
    forall a ensures IsFree(r, a) <==> a == mid || IsFree(bs, a) {
      SplitFree(bs, pool, i, mid, a);
    }
    hide IsFree;
    assert forall a :: a in [mid] + fl <==> a == mid || a in fl;
  }

  /** What growing does to the tiling. */
  lemma GrowFacts(bs: seq<Block>, pool: nat, i: nat, mid: nat)
    requires Tiles(RT_MEMHEAP_SIZE, bs, 0, pool) && Coalesced(bs) && i + 2 < |bs| && bs[i].used && !bs[i + 1].used
    requires bs[i].next < mid && mid + RT_MEMHEAP_SIZE <= bs[i + 1].next
    ensures |Join(bs, i)| == |bs| - 1 && Join(bs, i)[i] == Block(bs[i].start, bs[i + 1].next, true)
    ensures Tiles(RT_MEMHEAP_SIZE, Join(bs, i), 0, pool)
    ensures var r := Split(Join(bs, i), i, mid, true);
            && FreeData(RT_MEMHEAP_SIZE, r) == FreeData(RT_MEMHEAP_SIZE, bs) - (mid - bs[i].next)
            && UsedBlocks(r) == UsedBlocks(bs) - {bs[i]} + {Block(bs[i].start, mid, true)}
            && Coalesced(r)
  {
    hide UsedBlocks, FreeData, Coalesced;
    var joined := Join(bs, i);
    assert Meet(bs, i) && joined[i] == Block(bs[i].start, bs[i + 1].next, true);
    ExtendFacts(RT_MEMHEAP_SIZE, bs, pool, i);
    SplitFacts(RT_MEMHEAP_SIZE, joined, pool, i, mid, true);
    FreshBlock(bs, pool, i, bs[i + 1].next);
    GrowCoalesced(bs, i, mid);
  }

  /** What growing does to the free list: the neighbour leaves it, the new block is put in front. */
  lemma GrowLists(bs: seq<Block>, fl: seq<int>, pool: nat, i: nat, mid: nat) returns (k: nat)
    requires Tiles(RT_MEMHEAP_SIZE, bs, 0, pool) && Matches(bs, fl, NULL) && Distinct(fl) && pool !in fl
    requires i + 2 < |bs| && bs[i].used && !bs[i + 1].used && bs[i].next < mid
    requires mid + RT_MEMHEAP_SIZE <= bs[i + 1].next <= pool
    ensures k < |fl| && fl[k] == bs[i + 1].start
    ensures bs[i + 1].start !in [pool] + Removed(fl, k) && bs[i + 1].start !in Starts(Join(bs, i))
    ensures Matches(Split(Join(bs, i), i, mid, true), [mid] + Removed(fl, k), NULL)
    ensures Removed(fl, k) == Less(fl, bs[i + 1].start)
  {
    hide UsedBlocks, FreeData, IsFree;
    assert Meet(bs, i) && Join(bs, i)[i] == Block(bs[i].start, bs[i + 1].next, true);
    ExtendFacts(RT_MEMHEAP_SIZE, bs, pool, i);
    k := ListedAt(bs, fl, i + 1, NULL);
    LessEntry(fl, k);
    MatchRight(bs, fl, pool, i, k, NULL);
    StaleStart(bs, pool, i);
    RemovedOut(fl, k);
    MatchCut(Join(bs, i), Removed(fl, k), pool, i, mid);
  }

  lemma GrowCoalesced(bs: seq<Block>, i: nat, mid: nat)
    requires Coalesced(bs) && i + 2 < |bs| && bs[i].used && !bs[i + 1].used
    ensures Coalesced(Split(Join(bs, i), i, mid, true))
  {
    var r := Split(Join(bs, i), i, mid, true);
    GrowShape(bs, i, mid);
    hide Split, Join;
    forall k | 0 <= k < |r| - 1 ensures OneUsed(r, k) {
      assert OneUsed(bs, k);
    }
  }

  lemma GrowShape(bs: seq<Block>, i: nat, mid: nat)
    requires i + 1 < |bs| && bs[i].used
    ensures var r := Split(Join(bs, i), i, mid, true);
            && |r| == |bs| && r[i] == Block(bs[i].start, mid, true) && r[i + 1] == Block(mid, bs[i + 1].next, false)
            && forall k :: 0 <= k < |r| && k != i && k != i + 1 ==> r[k] == bs[k]
  {
    var j := Join(bs, i);
    assert j[..i] == bs[..i] && j[i + 1..] == bs[i + 2..];
    var r := Split(j, i, mid, true);
    assert r == bs[..i] + [Block(bs[i].start, mid, true), Block(mid, bs[i + 1].next, false)] + bs[i + 2..];
  }

  lemma FreshBlock(bs: seq<Block>, pool: nat, i: nat, n: nat)
    requires Tiles(RT_MEMHEAP_SIZE, bs, 0, pool) && i < |bs| && n != bs[i].next
    ensures Block(bs[i].start, n, true) !in UsedBlocks(bs)
  {
    Ordered(RT_MEMHEAP_SIZE, bs, 0, pool);
  }

  lemma KeptGrown(c: seq<int>, c1: seq<int>, c2: seq<int>, c3: seq<int>, c4: seq<int>, bs: seq<Block>, bs': seq<Block>,
      i: nat, mid: nat)
    requires i < |bs| && bs[i].used && bs[i].next <= mid
    requires UsedBlocks(bs') == UsedBlocks(bs) - {bs[i]} + {Block(bs[i].start, mid, true)}
    requires DataKept(RT_MEMHEAP_SIZE, c, c1, UsedBlocks(bs)) && DataKept(RT_MEMHEAP_SIZE, c1, c2, UsedBlocks(bs))
    requires DataKept(RT_MEMHEAP_SIZE, c2, c3, UsedBlocks(bs')) && DataKept(RT_MEMHEAP_SIZE, c3, c4, UsedBlocks(bs'))
    ensures DataKept(RT_MEMHEAP_SIZE, c, c4, UsedBlocks(bs))
  {
    hide UsedBlocks;
    KeptTwice(RT_MEMHEAP_SIZE, c, c1, c2, UsedBlocks(bs), UsedBlocks(bs), UsedBlocks(bs));
    KeptTwice(RT_MEMHEAP_SIZE, c2, c3, c4, UsedBlocks(bs'), UsedBlocks(bs'), UsedBlocks(bs'));
    var g := Block(bs[i].start, mid, true);
    forall b | b in UsedBlocks(bs) ensures SameBytes(c, c4, b.start + RT_MEMHEAP_SIZE, b.next) {
      assert SameBytes(c, c2, b.start + RT_MEMHEAP_SIZE, b.next);
      if b == bs[i] {
        assert SameBytes(c2, c4, g.start + RT_MEMHEAP_SIZE, g.next);
      } else {
        assert b in UsedBlocks(bs');
        assert SameBytes(c2, c4, b.start + RT_MEMHEAP_SIZE, b.next);
      }
    }
  }

  lemma AllBut(bs: seq<Block>, pool: nat, i: nat, ptr: int)
    requires ptr == NULL || (Tiles(RT_MEMHEAP_SIZE, bs, 0, pool) && i < |bs| && bs[i].start + RT_MEMHEAP_SIZE == ptr)
    ensures (set b | b in UsedBlocks(bs) && b.start + RT_MEMHEAP_SIZE != ptr) ==
            if ptr == NULL then UsedBlocks(bs) else UsedBlocks(bs) - {bs[i]}
  {
    if ptr != NULL { OthersStay(RT_MEMHEAP_SIZE, bs, pool, i); }
  }

  /** Writes inside the data of used block `g` touch no header and no other block's data. */
  lemma DataWritten(c: seq<int>, c': seq<int>, mg: Links, nx: Links, pv: Links, nf: Links, pf: Links,
                    bs: seq<Block>, pool: nat, g: Block)
    requires Stored(c, mg, nx, pv, nf, pf) && KeysOf(mg.Keys, Starts(bs), pool)
    requires Tiles(RT_MEMHEAP_SIZE, bs, 0, pool) && g in UsedBlocks(bs) && |c'| == |c|
    requires forall x :: 0 <= x < |c| && !(g.start + RT_MEMHEAP_SIZE <= x < g.next) ==> c'[x] == c[x]
    ensures Stored(c', mg, nx, pv, nf, pf)
    ensures DataKept(RT_MEMHEAP_SIZE, c, c', UsedBlocks(bs) - {g})
  {
    Ordered(RT_MEMHEAP_SIZE, bs, 0, pool);
    var k :| 0 <= k < |bs| && bs[k] == g;
    forall a | a in mg ensures HeaderAt(c', a, mg[a], nx[a], pv[a], nf[a], pf[a]) {
      assert a in mg.Keys && HeaderAt(c, a, mg[a], nx[a], pv[a], nf[a], pf[a]);
      if a != pool {
        var i :| 0 <= i < |bs| && Starts(bs)[i] == a;
      }
    }
    forall b | b in UsedBlocks(bs) - {g} ensures SameBytes(c, c', b.start + RT_MEMHEAP_SIZE, b.next) {
      var j :| 0 <= j < |bs| && bs[j] == b;
    }
  }

  lemma NeedAligned(size: Word)
    requires Aligned(size)
    ensures Need(size) >= size
  {
  }

  lemma GrantedIs(bs: seq<Block>, fl: seq<int>, need: nat, i: int, k: int)
    requires FirstListed(bs, fl, need, i, k)
    ensures 0 <= i < |bs|
    ensures var g := Granted(bs[i], need);
            g.used && g.start == bs[i].start && Data(RT_MEMHEAP_SIZE, g) >= need && !bs[i].used
  {
  }

  /** Only the tail reaches the end of the pool. */
  lemma UsedIndex(bs: seq<Block>, pool: nat, b: Block) returns (i: nat)
    requires Tailed(bs, pool) && b in UsedBlocks(bs) && b.start + RT_MEMHEAP_SIZE < pool
    ensures i + 1 < |bs| && bs[i] == b && b.used
  {
    i :| 0 <= i < |bs| && bs[i] == b;
  }

  lemma InUsed(bs: seq<Block>, i: nat)
    requires i < |bs| && bs[i].used
    ensures bs[i] in UsedBlocks(bs)
  {
  }

  lemma RoomIs(bs: seq<Block>, pool: nat, i: nat, n: nat)
    requires Tiles(RT_MEMHEAP_SIZE, bs, 0, pool) && i + 1 < |bs|
    ensures RoomBehind(bs, bs[i], n) <==>
            !bs[i + 1].used && Data(RT_MEMHEAP_SIZE, bs[i + 1]) + Data(RT_MEMHEAP_SIZE, bs[i]) > n + MINIALLOC
    ensures 0 <= Data(RT_MEMHEAP_SIZE, bs[i + 1]) + Data(RT_MEMHEAP_SIZE, bs[i]) < pool
  {
    Ordered(RT_MEMHEAP_SIZE, bs, 0, pool);
    assert Meet(bs, i);
    if RoomBehind(bs, bs[i], n) {
      var j :| FreeAt(bs, j, bs[i].next) && Data(RT_MEMHEAP_SIZE, bs[j]) + Data(RT_MEMHEAP_SIZE, bs[i]) > n + MINIALLOC;
      SameStart(RT_MEMHEAP_SIZE, bs, 0, pool, i + 1, j);
    }
    if !bs[i + 1].used { assert FreeAt(bs, i + 1, bs[i].next); }
  }

  lemma BehindIs(bs: seq<Block>, pool: nat, i: nat)
    requires Tiles(RT_MEMHEAP_SIZE, bs, 0, pool) && i + 1 < |bs|
    ensures FreeBehind(bs, bs[i]) <==> !bs[i + 1].used
  {
    assert Meet(bs, i);
    if FreeBehind(bs, bs[i]) {
      var j :| FreeAt(bs, j, bs[i].next);
      SameStart(RT_MEMHEAP_SIZE, bs, 0, pool, i + 1, j);
    }
    if !bs[i + 1].used { assert FreeAt(bs, i + 1, bs[i].next); }
  }

  /** The largest of a history is no less than its last value. */
  lemma BelowHighest(s: seq<int>, m: int)
    requires Highest(s, m) && |s| > 0
    ensures s[|s| - 1] <= m
  {
  }

  lemma NeedIs(size: Word)
    requires Aligned(size) && size >= MINIALLOC
    ensures Need(size) == size
  {
  }

  lemma NeedTwice(size: Word)
    ensures Need(Need(size)) == Need(size) >= MINIALLOC && Aligned(Need(size))
  {
    NeedIs(Need(size));
  }

  lemma CarriedSame(c: seq<int>, c': seq<int>, at: int, n: nat)
    requires 0 <= at && at + n <= |c| && SameBytes(c, c', at, at + n)
    ensures Carried(c, c', at, at, n)
  {
  }

  lemma SameCarried(c: seq<int>, at: int, n: nat)
    requires 0 <= at && at + n <= |c|
    ensures Carried(c, c, at, at, n)
  {
  }

  lemma NoNullStart(bs: seq<Block>)
    ensures !IsFree(bs, NULL)
  {
  }

  lemma JoinShifts(bs: seq<Block>, i: nat)
    requires i + 1 < |bs| && CoalescedBut(bs, {i, i + 1})
    ensures CoalescedBut(Join(bs, i), {i})
  {
    var r := Join(bs, i);
    forall k | 0 <= k < |r| - 1 && k != i ensures OneUsed(r, k) {
      if k < i { assert OneUsed(bs, k); } else { assert OneUsed(bs, k + 1); }
    }
  }

  /** The start of a block that was taken in is no start any more. */
  lemma StaleStart(bs: seq<Block>, pool: nat, i: nat)
    requires Tiles(RT_MEMHEAP_SIZE, bs, 0, pool) && i + 1 < |bs| && bs[i + 1].start < pool
    ensures bs[i + 1].start !in Starts(Join(bs, i))
  {
    Ordered(RT_MEMHEAP_SIZE, bs, 0, pool);
    JoinStarts(bs, i);
    RemovedOut(Starts(bs), i + 1);
  }

  lemma NotListed(bs: seq<Block>, fl: seq<int>, pool: nat, h: int)
    requires Matches(bs, fl, h) && h < pool
    ensures h !in [pool] + fl
  {
  }

  lemma ListedAt(bs: seq<Block>, fl: seq<int>, i: nat, h: int) returns (k: nat)
    requires Matches(bs, fl, h) && i < |bs| && !bs[i].used && bs[i].start != h
    ensures k < |fl| && fl[k] == bs[i].start
  {
    assert FreeAt(bs, i, bs[i].start);
    assert IsFree(bs, bs[i].start);
    k :| 0 <= k < |fl| && fl[k] == bs[i].start;
  }

  lemma NoRightHole(bs: seq<Block>, i: nat)
    requires i + 1 < |bs| && CoalescedBut(bs, {i}) && bs[i + 1].used
    ensures Coalesced(bs)
  {
    assert OneUsed(bs, i);
  }

  lemma JoinHeals(bs: seq<Block>, i: nat)
    requires i + 1 < |bs| && CoalescedBut(bs, {i}) && !bs[i].used && !bs[i + 1].used
    ensures Coalesced(Join(bs, i))
  {
    var none: set<int> := {};
    assert none + {i} == {i};
    JoinMends(bs, i, none);
    forall k | 0 <= k < |Join(bs, i)| - 1 ensures OneUsed(Join(bs, i), k) {
      assert k !in none;
    }
  }

  lemma FreedCoalesced(bs: seq<Block>, i: nat)
    requires i < |bs| && Coalesced(bs)
    ensures CoalescedBut(Mark(bs, i, false), {i - 1, i})
  {
    forall k | 0 <= k < |bs| - 1 && k !in {i - 1, i} ensures OneUsed(Mark(bs, i, false), k) {
      assert OneUsed(bs, k);
    }
  }

  lemma CutCoalesced(bs: seq<Block>, i: nat, mid: nat)
    requires Coalesced(bs) && i < |bs| && bs[i].used
    ensures CoalescedBut(Split(bs, i, mid, true), {i + 1})
  {
    var r := Split(bs, i, mid, true);
    assert r[i] == Block(bs[i].start, mid, true);
    forall k | 0 <= k < |r| - 1 && k != i + 1 ensures OneUsed(r, k) {
      if k < i { assert OneUsed(bs, k); } else if k > i + 1 { assert OneUsed(bs, k - 1); }
    }
  }

  lemma NoLeftHole(bs: seq<Block>, i: nat)
    requires i < |bs| && CoalescedBut(bs, {i - 1, i}) && (i > 0 ==> bs[i - 1].used)
    ensures CoalescedBut(bs, {i})
  {
    assert i > 0 && i < |bs| ==> OneUsed(bs, i - 1);
  }

  lemma KeptChain(c0: seq<int>, c1: seq<int>, c2: seq<int>, c3: seq<int>, c4: seq<int>, keep: set<Block>)
    requires DataKept(RT_MEMHEAP_SIZE, c0, c1, keep) && DataKept(RT_MEMHEAP_SIZE, c1, c2, keep)
    requires DataKept(RT_MEMHEAP_SIZE, c2, c3, keep) && DataKept(RT_MEMHEAP_SIZE, c3, c4, keep)
    ensures DataKept(RT_MEMHEAP_SIZE, c0, c4, keep)
  {
    KeptTwice(RT_MEMHEAP_SIZE, c0, c1, c2, keep, keep, keep);
    KeptTwice(RT_MEMHEAP_SIZE, c0, c2, c3, keep, keep, keep);
    KeptTwice(RT_MEMHEAP_SIZE, c0, c3, c4, keep, keep, keep);
  }

  lemma DownBound(size: nat)
    ensures size >= 2 * RT_MEMHEAP_SIZE ==> SM.RtAlignDown(size) >= 2 * RT_MEMHEAP_SIZE
  {
  }

  lemma InitialTiling(pool: nat, bs: seq<Block>)
    requires pool >= 2 * RT_MEMHEAP_SIZE && Aligned(pool)
    requires bs == [Block(0, pool - RT_MEMHEAP_SIZE, false), Block(pool - RT_MEMHEAP_SIZE, pool, true)]
    ensures Tiles(RT_MEMHEAP_SIZE, bs, 0, pool) && AllAligned(bs) && Coalesced(bs) && Tailed(bs, pool)
    ensures FreeData(RT_MEMHEAP_SIZE, bs) == pool - 2 * RT_MEMHEAP_SIZE
    ensures Matches(bs, [0], NULL)
  {
    assert bs[..1] == [bs[0]];
    assert Meet(bs, 0) && OneUsed(bs, 0);
    assert FreeAt(bs, 0, 0);
    SumsOfTwo(RT_MEMHEAP_SIZE, bs[0], bs[1]);
    AlignedSum(pool, -48);
  }

  lemma InitialHeaders(c: seq<int>, pool: nat, mg: Links, nx: Links, pv: Links, nf: Links, pf: Links, bs: seq<Block>)
    requires pool >= 2 * RT_MEMHEAP_SIZE && |c| == pool + RT_MEMHEAP_SIZE
    requires bs == [Block(0, pool - RT_MEMHEAP_SIZE, false), Block(pool - RT_MEMHEAP_SIZE, pool, true)]
    requires HeaderAt(c, pool, MAGIC, NULL, NULL, 0, 0)
    requires HeaderAt(c, 0, MAGIC, pool - 24, pool - 24, pool, pool)
    requires HeaderAt(c, pool - 24, MAGIC + 1, 0, 0, NULL, NULL)
    requires mg == map[pool := MAGIC, 0 := MAGIC, pool - 24 := MAGIC + 1]
    requires nx == map[pool := NULL, 0 := pool - 24, pool - 24 := 0]
    requires pv == map[pool := NULL, 0 := pool - 24, pool - 24 := 0]
    requires nf == map[pool := 0, 0 := pool, pool - 24 := NULL]
    requires pf == map[pool := 0, 0 := pool, pool - 24 := NULL]
    ensures Stored(c, mg, nx, pv, nf, pf) && HeadersApart(mg.Keys)
    ensures Magics(mg, bs) && KeysOf(mg.Keys - {NULL}, Starts(bs), pool)
    ensures RtList.Ring(nx, pv, Starts(bs)) && RtList.Ring(nf, pf, [pool, 0])
  {
    InitialKeys(c, pool, mg, nx, pv, nf, pf);
    assert Starts(bs) == [0, pool - 24];
    TwoRing(nx, pv, 0, pool - 24);
    TwoRing(nf, pf, pool, 0);
  }

  lemma InitialKeys(c: seq<int>, pool: nat, mg: Links, nx: Links, pv: Links, nf: Links, pf: Links)
    requires pool >= 2 * RT_MEMHEAP_SIZE && |c| == pool + RT_MEMHEAP_SIZE
    requires forall m :: m in [mg, nx, pv, nf, pf] ==> m.Keys == {pool, 0, pool - 24}
    requires HeaderAt(c, pool, mg[pool], nx[pool], pv[pool], nf[pool], pf[pool])
    requires HeaderAt(c, 0, mg[0], nx[0], pv[0], nf[0], pf[0])
    requires HeaderAt(c, pool - 24, mg[pool - 24], nx[pool - 24], pv[pool - 24], nf[pool - 24], pf[pool - 24])
    ensures Stored(c, mg, nx, pv, nf, pf) && HeadersApart(mg.Keys)
  {
  }

  lemma TwoRing(next: Links, prev: Links, a: int, b: int)
    requires a != b && a in next && b in next && a in prev && b in prev
    requires next[a] == b && next[b] == a && prev[a] == b && prev[b] == a
    ensures RtList.Ring(next, prev, [a, b])
  {
    assert LinkAt(next, prev, [a, b], 0) && LinkAt(next, prev, [a, b], 1);
  }

  lemma RemovedTail(x: int, s: seq<int>, k: nat)
    requires k < |s|
    ensures Removed([x] + s, k + 1) == [x] + Removed(s, k)
  {
  }

  lemma MarkOther(bs: seq<Block>, mg: Links, pool: nat, i: nat, use: bool)
    requires Tailed(bs, pool) && AllAligned(bs) && Magics(mg, bs) && Distinct(Starts(bs)) && i + 1 < |bs|
    ensures Tailed(Mark(bs, i, use), pool) && AllAligned(Mark(bs, i, use))
    ensures Magics(mg[bs[i].start := Magic(use)], Mark(bs, i, use))
  {
    forall k | 0 <= k < |bs| && k != i ensures bs[k].start != bs[i].start {
      assert Starts(bs)[k] == bs[k].start && Starts(bs)[i] == bs[i].start;
    }
  }

  lemma JoinAligned(bs: seq<Block>, i: nat)
    requires AllAligned(bs) && i + 1 < |bs|
    ensures AllAligned(Join(bs, i))
  {
    forall k | 0 <= k < |Join(bs, i)| ensures Aligned(Join(bs, i)[k].start) {
      assert Starts(Join(bs, i))[k] == if k <= i then bs[k].start else bs[k + 1].start by { JoinStarts(bs, i); }
    }
  }

  lemma JoinKeys(keys: set<int>, bs: seq<Block>, pool: nat, i: nat)
    requires KeysOf(keys, Starts(bs), pool) && Distinct(Starts(bs)) && i + 1 < |bs| && bs[i + 1].start != pool
    ensures KeysOf(keys - {bs[i + 1].start}, Starts(Join(bs, i)), pool)
  {
    hide Join, Removed, Starts;
    JoinStarts(bs, i);
    RemovedOut(Starts(bs), i + 1);
    RemovedMembers(Starts(bs), i + 1);
  }

  lemma JoinOther(keys: set<int>, bs: seq<Block>, pool: nat, i: nat)
    requires Tiles(RT_MEMHEAP_SIZE, bs, 0, pool) && KeysOf(keys, Starts(bs), pool) && Distinct(Starts(bs))
    requires Tailed(bs, pool) && AllAligned(bs) && i + 2 < |bs| && !bs[i + 1].used
    ensures Tiles(RT_MEMHEAP_SIZE, Join(bs, i), 0, pool)
    ensures Tailed(Join(bs, i), pool) && AllAligned(Join(bs, i))
    ensures KeysOf(keys - {bs[i + 1].start}, Starts(Join(bs, i)), pool)
    ensures !bs[i].used ==> Spare(Join(bs, i), bs[i + 1].start)
  {
    hide KeysOf, AllAligned;
    JoinAligned(bs, i);
    Ordered(RT_MEMHEAP_SIZE, bs, 0, pool);
    JoinKeys(keys, bs, pool, i);
    if bs[i].used { ExtendFacts(RT_MEMHEAP_SIZE, bs, pool, i); } else { JoinFacts(RT_MEMHEAP_SIZE, bs, pool, i); }
    hide Tiles;
    var r := Join(bs, i);
    assert r[|r| - 1] == bs[|bs| - 1];
    assert r[i] == Block(bs[i].start, bs[i + 1].next, bs[i].used);
  }

  lemma RemovedMembers(s: seq<int>, k: nat)
    requires k < |s|
    ensures forall x :: x in s ==> x == s[k] || x in Removed(s, k)
  {
    assert s == s[..k] + [s[k]] + s[k + 1..];
  }

  lemma Adopted(c: seq<int>, mg: Links, nx: Links, pv: Links, nf: Links, pf: Links, a: int)
    requires Stored(c, mg, nx, pv, nf, pf) && 0 <= a && a + RT_MEMHEAP_SIZE <= |c|
    ensures Stored(c, mg[a := c[a]], nx[a := c[a + 8]], pv[a := c[a + 12]], nf[a := c[a + 16]], pf[a := c[a + 20]])
  {
    var m, n, v, f, g := mg[a := c[a]], nx[a := c[a + 8]], pv[a := c[a + 12]], nf[a := c[a + 16]], pf[a := c[a + 20]];
    assert m.Keys == mg.Keys + {a} && n.Keys == nx.Keys + {a} && v.Keys == pv.Keys + {a} && f.Keys == nf.Keys + {a}
        && g.Keys == pf.Keys + {a};
    forall b | b in m ensures HeaderAt(c, b, m[b], n[b], v[b], f[b], g[b]) {
      if b != a {
        assert b in mg.Keys && b in nx.Keys && b in pv.Keys && b in nf.Keys && b in pf.Keys;
        assert HeaderAt(c, b, mg[b], nx[b], pv[b], nf[b], pf[b]);
      }
    }
  }

  lemma MidIsNoStart(bs: seq<Block>, pool: nat, i: nat, mid: nat)
    requires Tiles(RT_MEMHEAP_SIZE, bs, 0, pool) && i < |bs|
    requires bs[i].start + RT_MEMHEAP_SIZE <= mid && mid + RT_MEMHEAP_SIZE <= bs[i].next
    ensures mid !in Starts(bs) && mid < pool
  {
    Ordered(RT_MEMHEAP_SIZE, bs, 0, pool);
  }

  /** A cut in the middle of a block is at no header. */
  lemma NewHeader(keys: set<int>, nf: Links, pf: Links, bs: seq<Block>, fl: seq<int>, pool: nat, i: nat, mid: nat)
    requires Tiles(RT_MEMHEAP_SIZE, bs, 0, pool) && KeysOf(keys, Starts(bs), pool) && i < |bs|
    requires bs[i].start + RT_MEMHEAP_SIZE <= mid && mid + RT_MEMHEAP_SIZE <= bs[i].next
    requires Ring(nf, pf, [pool] + fl) && nf.Keys == keys
    ensures mid !in keys && mid < pool && HeadersApart(keys + {mid})
    ensures KeysOf(keys + {mid}, Starts(Split(bs, i, mid, bs[i].used)), pool)
    ensures mid !in Starts(bs) && mid !in [pool] + fl
  {
    hide Tiles, RtList.Ring, HeadersApart, Split, Inserted;
    MidIsNoStart(bs, pool, i, mid);
    SplitFacts(RT_MEMHEAP_SIZE, bs, pool, i, mid, bs[i].used);
    SplitStarts(bs, i, mid, bs[i].used);
    InsertedMembers(Starts(bs), i, mid);
    KeysApart(keys + {mid}, Split(bs, i, mid, bs[i].used), pool);
    RingKeys(nf, pf, [pool] + fl);
  }

  lemma RingKeys(next: Links, prev: Links, s: seq<int>)
    requires Ring(next, prev, s)
    ensures forall x :: x in s ==> x in next.Keys && x in prev.Keys
  {
    forall x | x in s ensures x in next.Keys && x in prev.Keys {
      var k :| 0 <= k < |s| && s[k] == x;
      assert LinkAt(next, prev, s, k);
    }
  }

  lemma InsertedMembers(s: seq<int>, k: nat, a: int)
    requires k < |s|
    ensures forall x :: x in Inserted(s, k, a) <==> x == a || x in s
  {
    assert s == s[..k + 1] + s[k + 1..];
  }

  /** Adopting or dropping a header elsewhere leaves both lists and the marks alone. */
  lemma Frame(mg: Links, nx: Links, pv: Links, nf: Links, pf: Links,
              mg': Links, nx': Links, pv': Links, nf': Links, pf': Links, bs: seq<Block>, ring: seq<int>, a: int)
    requires Magics(mg, bs) && Ring(nx, pv, Starts(bs)) && Ring(nf, pf, ring)
    requires a !in Starts(bs) && a !in ring
    requires Outside(mg, mg', [], a) && Outside(nx, nx', [], a) && Outside(pv, pv', [], a)
    requires Outside(nf, nf', [], a) && Outside(pf, pf', [], a)
    ensures Magics(mg', bs) && Ring(nx', pv', Starts(bs)) && Ring(nf', pf', ring)
  {
    OtherRing(nx, pv, nx', pv', [], a, Starts(bs));
    OtherRing(nf, pf, nf', pf', [], a, ring);
    forall i | 0 <= i < |bs| ensures bs[i].start in mg' && mg'[bs[i].start] == Magic(bs[i].used) {
      assert Starts(bs)[i] == bs[i].start;
    }
  }

  /** Cutting an inner block keeps the tail and the alignment. */
  lemma SplitOther(bs: seq<Block>, pool: nat, i: nat, mid: nat)
    requires Tailed(bs, pool) && AllAligned(bs) && i + 1 < |bs| && Aligned(mid)
    ensures Tailed(Split(bs, i, mid, bs[i].used), pool) && AllAligned(Split(bs, i, mid, bs[i].used))
  {
    var r := Split(bs, i, mid, bs[i].used);
    assert forall k :: 0 <= k < |r| ==>
             r[k].start == if k <= i then bs[k].start else if k == i + 1 then mid else bs[k - 1].start;
    assert r[|r| - 1] == bs[|bs| - 1];
  }

  ghost predicate SameBut(m: Links, m': Links, a: int) {
    m'.Keys == m.Keys && forall b :: b in m && b != a ==> m'[b] == m[b]
  }

  /** A write inside the header at `a` disturbs no other header and no data. */
  lemma WordWritten(c: seq<int>, c': seq<int>, mg: Links, nx: Links, pv: Links, nf: Links, pf: Links,
                    mg': Links, nx': Links, pv': Links, nf': Links, pf': Links, a: int)
    requires Stored(c, mg, nx, pv, nf, pf) && HeadersApart(mg.Keys) && a in mg && |c'| == |c|
    requires SameBut(mg, mg', a) && SameBut(nx, nx', a) && SameBut(pv, pv', a) && SameBut(nf, nf', a)
    requires SameBut(pf, pf', a)
    requires a in mg' && a in nx' && a in pv' && a in nf' && a in pf'
    requires HeaderAt(c', a, mg'[a], nx'[a], pv'[a], nf'[a], pf'[a])
    requires forall x :: 0 <= x < |c| && !(a <= x < a + RT_MEMHEAP_SIZE) ==> c'[x] == c[x]
    ensures Stored(c', mg', nx', pv', nf', pf') && HeadersApart(mg'.Keys)
    ensures OnlyHeaders(c, c', mg.Keys)
  {
    forall b | b in mg' ensures HeaderAt(c', b, mg'[b], nx'[b], pv'[b], nf'[b], pf'[b]) {
      assert b in mg.Keys && b in nx.Keys && b in pv.Keys && b in nf.Keys && b in pf.Keys && a in mg.Keys;
      if b != a {
        assert HeaderAt(c, b, mg[b], nx[b], pv[b], nf[b], pf[b]);
        assert mg'[b] == mg[b] && nx'[b] == nx[b] && pv'[b] == pv[b] && nf'[b] == nf[b] && pf'[b] == pf[b];
      }
    }
  }

  // ----- what whole runs amount to -----

  /** Giving back what was just allocated restores the very same tiling, split or no split. */
  lemma FreeUndoesAlloc(bs: seq<Block>, bs1: seq<Block>, bs2: seq<Block>, fl: seq<int>, pool: nat, need: nat, i: nat,
      k: nat)
    requires Tiles(RT_MEMHEAP_SIZE, bs, 0, pool) && Coalesced(bs)
    requires Tiles(RT_MEMHEAP_SIZE, bs1, 0, pool) && Allocated(bs, bs1, fl, need, i, k)
    requires Tiles(RT_MEMHEAP_SIZE, bs2, 0, pool) && Coalesced(bs2)
    requires UsedBlocks(bs2) == set b | b in UsedBlocks(bs1) && b.start != bs[i].start
    ensures bs2 == bs
  {
    Ordered(RT_MEMHEAP_SIZE, bs, 0, pool);
    forall b | b in UsedBlocks(bs) ensures b.start != bs[i].start {
      var j :| 0 <= j < |bs| && bs[j] == b;
    }
    assert UsedBlocks(bs2) == UsedBlocks(bs);
    Canonical(RT_MEMHEAP_SIZE, bs2, bs, 0, pool);
  }

  lemma {:induction false} DataBelowTotal(bs: seq<Block>, i: nat)
    requires i < |bs| && !bs[i].used && forall j :: 0 <= j < |bs| ==> Data(RT_MEMHEAP_SIZE, bs[j]) >= 0
    ensures Data(RT_MEMHEAP_SIZE, bs[i]) <= FreeData(RT_MEMHEAP_SIZE, bs)
    decreases |bs|
  {
    var n := |bs| - 1;
    if i < n {
      assert bs[..n][i] == bs[i];
      DataBelowTotal(bs[..n], i);
    } else {
      TotalNotNegative(bs[..n]);
    }
  }

  lemma {:induction false} TotalNotNegative(bs: seq<Block>)
    requires forall j :: 0 <= j < |bs| ==> Data(RT_MEMHEAP_SIZE, bs[j]) >= 0
    ensures FreeData(RT_MEMHEAP_SIZE, bs) >= 0
    decreases |bs|
  {
    if |bs| == 0 {
    } else {
      TotalNotNegative(bs[..|bs| - 1]);
    }
  }

  /** A request that some free block could serve is refused exactly when it asks for all that is free. */
  lemma RefusedThoughItFits(bs: seq<Block>, pool: nat, need: nat)
    requires Tiles(RT_MEMHEAP_SIZE, bs, 0, pool) && !NoFit(bs, need)
    ensures Refused(bs, need) <==> need == FreeData(RT_MEMHEAP_SIZE, bs)
  {
    Ordered(RT_MEMHEAP_SIZE, bs, 0, pool);
    var i :| 0 <= i < |bs| && Fits(RT_MEMHEAP_SIZE, bs[i], need);
    DataBelowTotal(bs, i);
  }

  /** For instance, a fresh pool never gives out its one block whole. */
  lemma WholePoolRefused(bs: seq<Block>, pool: nat)
    requires pool >= 2 * RT_MEMHEAP_SIZE && Aligned(pool)
    requires bs == [Block(0, pool - RT_MEMHEAP_SIZE, false), Block(pool - RT_MEMHEAP_SIZE, pool, true)]
    ensures Refused(bs, pool - 2 * RT_MEMHEAP_SIZE) && !NoFit(bs, pool - 2 * RT_MEMHEAP_SIZE)
  {
    InitialTiling(pool, bs);
    assert Fits(RT_MEMHEAP_SIZE, bs[0], pool - 2 * RT_MEMHEAP_SIZE);
  }

  /** The test for room behind a block, in 32-bit arithmetic. */
  predicate GrowTest(nextsize: nat, oldsize: nat, newsize: Word) {
    (nextsize + oldsize) % SM.WORD_LIMIT > (newsize + MINIALLOC) % SM.WORD_LIMIT
  }

  /** For a block of at least the smallest size the test is right if and only if the rounded size plus
      twelve fits in 32 bits; otherwise it says that there is room. */
  lemma GrowTestIsRight(nextsize: nat, oldsize: nat, newsize: Word)
    requires nextsize + oldsize < SM.WORD_LIMIT && oldsize >= MINIALLOC && Aligned(newsize)
    ensures (GrowTest(nextsize, oldsize, newsize) <==> nextsize + oldsize > newsize + MINIALLOC)
            <==> newsize + MINIALLOC < SM.WORD_LIMIT
    ensures newsize + MINIALLOC >= SM.WORD_LIMIT ==> GrowTest(nextsize, oldsize, newsize)
  {
    if newsize + MINIALLOC >= SM.WORD_LIMIT {
      SM.BelowLimit(newsize);
      assert (newsize + MINIALLOC) % SM.WORD_LIMIT == newsize + MINIALLOC - SM.WORD_LIMIT;
    }
  }

  /** Where the test is wrong, the header of the supposed rest is written inside the block's own header,
      four, eight or twelve bytes below its data. */
  lemma WrappedGrowth(addr: Word, nextsize: nat, oldsize: nat, newsize: Word)
    requires addr >= RT_MEMHEAP_SIZE && nextsize + oldsize < SM.WORD_LIMIT && oldsize >= MINIALLOC
    requires Aligned(newsize) && newsize + MINIALLOC >= SM.WORD_LIMIT
    ensures GrowTest(nextsize, oldsize, newsize)
    ensures var rest := (addr + newsize) % SM.WORD_LIMIT;
            rest == addr - (SM.WORD_LIMIT - newsize) && addr - MINIALLOC <= rest <= addr - 4
  {
    GrowTestIsRight(nextsize, oldsize, newsize);
    SM.BelowLimit(newsize);
  }

  /** So it happens: a 12-byte block is to hold 2^32 - 4 bytes with twelve bytes free behind it. */
  lemma NoRoomButGrows()
    ensures GrowTest(12, 12, SM.RtAlign(0xffff_fffc)) && 12 + 12 <= SM.RtAlign(0xffff_fffc) + MINIALLOC
  {
  }

  /** A request served by a whole block wastes less than a block; one that is cut wastes nothing, and what
      is left then goes to the front of the free list. */
  lemma GrantedSize(bs: seq<Block>, fl: seq<int>, pool: nat, size: Word, i: int, k: int)
    requires Tiles(RT_MEMHEAP_SIZE, bs, 0, pool) && FirstListed(bs, fl, Need(size), i, k) && pool < SM.WORD_LIMIT
    ensures var data, got := Data(RT_MEMHEAP_SIZE, bs[i]), Data(RT_MEMHEAP_SIZE, Granted(bs[i], Need(size)));
            && Need(size) <= got < Need(size) + RT_MEMHEAP_SIZE + MINIALLOC
            && (got >= size <==> size <= SM.WORD_LIMIT - 4)
            && got == (if data >= Need(size) + RT_MEMHEAP_SIZE + MINIALLOC then Need(size) else data)
            && Uses(bs[i], Need(size)) == (if got == data then data else got + RT_MEMHEAP_SIZE)
            && Unlisted(bs[i], Need(size)) == if got == data then [] else [Granted(bs[i], Need(size)).next]
  {
    Ordered(RT_MEMHEAP_SIZE, bs, 0, pool);
  }

  /** The search takes the free block that is listed first among those large enough. */
  lemma FirstListedIs(bs: seq<Block>, fl: seq<int>, need: nat, i: int, k: int, j: nat, m: nat)
    requires FirstListed(bs, fl, need, i, k)
    requires j < |bs| && m < |fl| && !bs[j].used && bs[j].start == fl[m] && Data(RT_MEMHEAP_SIZE, bs[j]) >= need
    ensures 0 <= i < |bs| && !bs[i].used && Data(RT_MEMHEAP_SIZE, bs[i]) >= need && bs[i].start == fl[k] && k <= m
  {
    assert FreeAt(bs, j, fl[m]);
  }

  /** What was just given back, with what it was merged with, is the next to be looked at, unless its left
      neighbour is free: that one keeps its place.  The order of all others stays. */
  lemma RelistedIs(bs: seq<Block>, fl: seq<int>, i: nat)
    requires i + 1 < |bs| && Matches(bs, fl, NULL) && Distinct(fl)
    ensures var r := Relisted(bs, fl, i);
            var front := i == 0 || bs[i - 1].used;
            && (front ==> r != [] && r[0] == bs[i].start)
            && (bs[i + 1].used ==> r[if front then 1 else 0..] == fl)
            && (!bs[i + 1].used ==>
                  exists k :: 0 <= k < |fl| && fl[k] == bs[i + 1].start
                              && r[if front then 1 else 0..] == fl[..k] + fl[k + 1..])
  {
    if !bs[i + 1].used {
      NoNullStart(bs);
      var k := ListedAt(bs, fl, i + 1, NULL);
      LessEntry(fl, k);
    }
  }

  /** However a block is resized, it ends up as one block of the size asked for and little more; it moves
      only when it has to grow and has no room behind it. */
  lemma ExchangedSize(bs: seq<Block>, bs': seq<Block>, fl: seq<int>, pool: nat, b: Block, n: Word, r: int, i: int,
                      k: int)
    requires Tiles(RT_MEMHEAP_SIZE, bs, 0, pool) && b in UsedBlocks(bs)
    requires Exchanged(bs, bs', fl, b, n, r, i, k) && r != NULL
    ensures exists g: Block ::
              && g in UsedBlocks(bs') && UsedBlocks(bs') == UsedBlocks(bs) - {b} + {g}
              && r == g.start + RT_MEMHEAP_SIZE
              && n <= Data(RT_MEMHEAP_SIZE, g) <= n + RT_MEMHEAP_SIZE + MINIALLOC
    ensures r == b.start + RT_MEMHEAP_SIZE <==>
              || n <= Data(RT_MEMHEAP_SIZE, b)
              || exists f :: f in bs && !f.used && f.start == b.next
                             && Data(RT_MEMHEAP_SIZE, f) + Data(RT_MEMHEAP_SIZE, b) > n + MINIALLOC
  {
    RoomIsFree(bs, b, n);
    if Kept(b, n) {
      assert UsedBlocks(bs) - {b} + {b} == UsedBlocks(bs);
    } else if StaysPut(bs, b, n) {
      var g := Block(b.start, b.start + RT_MEMHEAP_SIZE + n, true);
      assert g in UsedBlocks(bs');
    } else {
      var g := Granted(bs[i], n);
      assert g in UsedBlocks(bs');
      var j :| 0 <= j < |bs| && bs[j] == b;
      if bs[i].start == b.start { SameStart(RT_MEMHEAP_SIZE, bs, 0, pool, i, j); }
    }
  }

  lemma RoomIsFree(bs: seq<Block>, b: Block, n: nat)
    ensures RoomBehind(bs, b, n) <==>
              exists f :: f in bs && !f.used && f.start == b.next
                          && Data(RT_MEMHEAP_SIZE, f) + Data(RT_MEMHEAP_SIZE, b) > n + MINIALLOC
  {
    if RoomBehind(bs, b, n) {
      var j :| FreeAt(bs, j, b.next) && Data(RT_MEMHEAP_SIZE, bs[j]) + Data(RT_MEMHEAP_SIZE, b) > n + MINIALLOC;
      assert bs[j] in bs;
    }
    if f :| f in bs && !f.used && f.start == b.next
                   && Data(RT_MEMHEAP_SIZE, f) + Data(RT_MEMHEAP_SIZE, b) > n + MINIALLOC {
      var j :| 0 <= j < |bs| && bs[j] == f;
      assert FreeAt(bs, j, b.next);
    }
  }
}
