/** The memory pool: blocks of one size, each behind a link word.  The link words of the free
    blocks form a chain inside the pool; that of a block in use names the pool. */
module MemPool {
  import opened IpcList
  import R = Rendezvous
  import opened Arith
  import SM = SmallMem
  import MqStore

  type Word = SM.Word

  const LINK_SIZE: nat := 4
  const NULL: int := -1
  /** What the link word of a block in use holds. */
  const POOL: int := -2

  /** Address of block `i`, counted from the start of the pool. */
  function Block(i: nat, blockSize: nat): nat {
    i * (blockSize + LINK_SIZE)
  }

  /** `at` is the first block of the chain `free`, whose links are in `cells`. */
  ghost predicate Chain(cells: seq<int>, blockSize: nat, at: int, free: seq<nat>)
    decreases |free|
  {
    if free == [] then at == NULL
    else
      && at == Block(free[0], blockSize) && 0 <= at < |cells|
      && Chain(cells, blockSize, cells[at], free[1..])
  }

  /** Blocks do not overlap and lie inside the pool. */
  lemma Apart(i: nat, j: nat, n: nat, blockSize: nat)
    requires i < n && j < n
    ensures Block(i, blockSize) + blockSize + LINK_SIZE <= Block(n, blockSize)
    ensures i < j ==> Block(i, blockSize) + blockSize + LINK_SIZE <= Block(j, blockSize)
    ensures Block(i, blockSize) == Block(j, blockSize) ==> i == j
  {
    Steps(i, n, blockSize);
    Steps(j, n, blockSize);
    if i < j { Steps(i, j, blockSize); }
    if j < i { Steps(j, i, blockSize); }
  }

  lemma {:induction false} Steps(i: nat, j: nat, blockSize: nat)
    requires i < j
    ensures Block(i, blockSize) + blockSize + LINK_SIZE <= Block(j, blockSize)
    decreases j
  {
    assert Block(j, blockSize) == Block(j - 1, blockSize) + blockSize + LINK_SIZE;
    if i == j - 1 {
    } else {
      Steps(i, j - 1, blockSize);
    }
  }

  /** Writes to other words leave the chain alone. */
  lemma {:induction false} ChainFrame(c: seq<int>, c': seq<int>, blockSize: nat, at: int, free: seq<nat>)
    requires Chain(c, blockSize, at, free) && |c| == |c'|
    requires forall k :: 0 <= k < |free| && Block(free[k], blockSize) < |c| ==>
        c'[Block(free[k], blockSize)] == c[Block(free[k], blockSize)]
    ensures Chain(c', blockSize, at, free)
    decreases |free|
  {
    if free == [] {
    } else {
      assert forall k :: 0 <= k < |free[1..]| ==> free[1..][k] == free[k + 1];
      ChainFrame(c, c', blockSize, c[at], free[1..]);
    }
  }

  class MemPool {
    const blockSize: nat
    const totalCount: nat
    const cells: array<int>
    var freeCount: nat
    var blockList: int
    var waiting: seq<Tid>
    ghost var free: seq<nat>
    ghost var woken: set<Tid>

    ghost predicate Fixed() {
      0 < totalCount && Block(totalCount, blockSize) <= cells.Length
    }

    /** A free block is a thing to take; a block in use is room for one to be given back. */
    ghost function Meeting(): R.State
      reads this
      requires freeCount <= totalCount
    {
      R.State(freeCount, totalCount - freeCount, waiting, [], woken, {})
    }

    ghost predicate InUse(i: nat)
      reads this
    {
      i < totalCount && i !in free
    }

    /** The chain is the free blocks, once each; every other block names the pool. */
    ghost predicate Linked()
      reads this`blockList, this`free, cells
    {
      && Fixed()
      && Distinct(free) && (forall k :: 0 <= k < |free| ==> free[k] < totalCount)
      && Chain(cells[..], blockSize, blockList, free)
      && forall i :: 0 <= i < totalCount && i !in free ==>
                && 0 <= Block(i, blockSize) < cells.Length
                && cells[Block(i, blockSize)] == POOL
    }

    ghost predicate Valid()
      reads this, cells
    {
      && Linked() && freeCount == |free| <= totalCount && R.Inv(Meeting())
    }

    /** `rt_mp_init`, for a pool that has room for a block. */
    constructor (size: Word, requested: Word)
      requires 0 < requested <= SM.WORD_LIMIT - 8 && SM.RtAlignDown(size) >= SM.RtAlign(requested) + LINK_SIZE
      ensures Valid() && fresh(cells) && cells.Length == SM.RtAlignDown(size) && blockSize >= requested
      ensures size - 4 < cells.Length && cells.Length < Block(totalCount + 1, blockSize)
      ensures blockSize == SM.RtAlign(requested)
      ensures totalCount == SM.RtAlignDown(size) / (blockSize + LINK_SIZE)
      ensures freeCount == totalCount && free == Range(0, totalCount)
      ensures Meeting() == R.State(totalCount, 0, [], [], {}, {})
    {
      hide Chain, R.Inv, Block, SM.RtAlign, SM.RtAlignDown, Range;
      var poolSize, aligned := SM.RtAlignDown(size), SM.RtAlign(requested);
      var n := poolSize / (aligned + LINK_SIZE);
      blockSize, totalCount, freeCount := aligned, n, n;
      cells := new int[poolSize];
      waiting, woken, free := [], {}, Range(0, n);
      blockList := 0;
      Whole(poolSize, aligned, n);
      RangeFacts(0, n);
      R.FreshInv(n, 0);
      new;
      LinkAll();
    }

    /** The loop that links every block to the next, and the last to none. */
    method LinkAll()
      requires Fixed()
      modifies cells
      ensures Chain(cells[..], blockSize, 0, Range(0, totalCount))
    {
      hide Block, Chain;
      var offset := 0;
      while offset < totalCount
        invariant 0 <= offset <= totalCount
        invariant forall i :: 0 <= i < offset ==>
                  && 0 <= Block(i, blockSize) < cells.Length
                  && cells[Block(i, blockSize)] == Block(i + 1, blockSize)
      {
        forall i | 0 <= i <= offset ensures 0 <= Block(i, blockSize) < cells.Length
            && (Block(i, blockSize) == Block(offset, blockSize) ==> i == offset) {
          Apart(i, offset, totalCount, blockSize);
        }
        cells[Block(offset, blockSize)] := Block(offset + 1, blockSize);
        offset := offset + 1;
      }
      forall i | 0 <= i < totalCount ensures Block(i, blockSize) == Block(totalCount - 1, blockSize) ==>
          i == totalCount - 1 {
        Apart(i, totalCount - 1, totalCount, blockSize);
      }
      cells[Block(offset - 1, blockSize)] := NULL;
      FirstBlock(blockSize);
      ChainUp(cells[..], blockSize, 0, totalCount);
    }

    /** One round of `rt_mp_alloc` by thread `t`. */
    method Alloc(t: Tid, time: int) returns (r: int, asleep: bool, ghost i: nat)
      requires Valid() && R.Enabled(Meeting(), R.TakeEvent(t, true, 0))
      modifies this, cells
      ensures Valid()
      ensures Meeting() == R.Take(old(Meeting()), t, time != 0, 0)
      ensures r == NULL <==> old(free) == []
      ensures r == NULL ==> free == [] && cells[..] == old(cells[..]) && (asleep <==> time != 0)
      ensures asleep ==> waiting == [t] + old(waiting)
      ensures r != NULL ==> old(free) == [i] + free && r == Block(i, blockSize) + LINK_SIZE && InUse(i) && !asleep
      ensures r != NULL ==> r + blockSize <= cells.Length && cells[..] == old(cells[..])[r - LINK_SIZE := POOL]
    {
      hide R.Inv, Block;
      R.StepKeeps(Meeting(), R.TakeEvent(t, time != 0, 0));
      assert [] == Without([], t);
      woken := woken - {t};
      if freeCount == 0 {
        if time == 0 {
          return NULL, false, 0;
        }
        assert R.Inserted(waiting, 0, t) == [t] + waiting;
        waiting := [t] + waiting;
        return NULL, true, 0;
      }
      i := free[0];
      freeCount := freeCount - 1;
      var blockPtr := TakeFirst();
      return blockPtr + LINK_SIZE, false, i;
    }

    /** Takes the first block off the chain; the chain is not empty when it is read. */
    method TakeFirst() returns (blockPtr: int)
      requires Linked() && free != []
      modifies this`blockList, this`free, cells
      ensures Linked() && old(free) == [old(free)[0]] + free && old(free)[0] !in free && old(free)[0] < totalCount
      ensures blockPtr == Block(old(free)[0], blockSize) && blockPtr + blockSize + LINK_SIZE <= cells.Length
      ensures cells[..] == old(cells[..])[blockPtr := POOL]
    {
      hide Block;
      ghost var c, f := cells[..], free;
      ghost var i := free[0];
      assert f == [i] + f[1..];
      forall k | 0 <= k < |f| ensures f[k] < totalCount && Block(f[k], blockSize) < cells.Length
          && (Block(f[k], blockSize) == Block(i, blockSize) ==> f[k] == i) {
        Apart(f[k], i, totalCount, blockSize);
      }
      Apart(i, i, totalCount, blockSize);
      blockPtr := blockList;
      assert blockPtr != NULL;
      blockList := cells[blockPtr];
      cells[blockPtr] := POOL;
      free := free[1..];
      ChainFrame(c, cells[..], blockSize, blockList, free);
      forall j | 0 <= j < totalCount && j !in free
          ensures 0 <= Block(j, blockSize) < cells.Length && cells[Block(j, blockSize)] == POOL {
        if j != i { assert j !in f; }
      }
    }

    /** `rt_mp_free` by thread `t` */
    method Free(t: Tid, block: int, ghost i: nat) returns (resched: bool)
      requires Valid() && InUse(i) && block == Block(i, blockSize) + LINK_SIZE
      requires R.Enabled(Meeting(), R.GiveEvent(t, false, 0))
      modifies this, cells
      ensures Valid() && free == [i] + old(free) && !InUse(i)
      ensures Meeting() == R.Give(old(Meeting()), t, false, 0)
      ensures forall x :: 0 <= x < cells.Length && x != block - LINK_SIZE ==> cells[x] == old(cells[x])
      ensures resched <==> old(waiting) != []
      ensures waiting == if resched then old(waiting)[1..] else []
    {
      hide R.Inv, Block;
      R.StepKeeps(Meeting(), R.GiveEvent(t, false, 0));
      assert Meeting().wokenGivers - {t} == {};
      ghost var others := [i] + free;
      assert forall k :: 1 <= k < |others| ==> others[k] == free[k - 1];
      MqStore.Pigeonhole(others, totalCount);
      freeCount := freeCount + 1;
      PutFirst(block - LINK_SIZE, i);
      resched := waiting != [];
      if resched {
        woken := woken + {waiting[0]};
        waiting := waiting[1..];
      }
    }

    method PutFirst(blockPtr: int, ghost i: nat)
      requires Linked() && i < totalCount && i !in free && blockPtr == Block(i, blockSize)
      modifies this`blockList, this`free, cells
      ensures Linked() && free == [i] + old(free)
      ensures forall x :: 0 <= x < cells.Length && x != blockPtr ==> cells[x] == old(cells[x])
    {
      hide Block;
      ghost var c, f := cells[..], free;
      forall k | 0 <= k < |f| ensures Block(f[k], blockSize) != blockPtr {
        Apart(f[k], i, totalCount, blockSize);
      }
      forall j | 0 <= j < totalCount ensures Block(j, blockSize) == blockPtr ==> j == i {
        Apart(j, i, totalCount, blockSize);
      }
      Apart(i, i, totalCount, blockSize);
      assert 0 <= blockPtr < cells.Length;
      ghost var at := blockList;
      cells[blockPtr] := blockList;
      blockList := blockPtr;
      free := [i] + free;
      ChainFrame(c, cells[..], blockSize, at, f);
      assert free[1..] == f;
      assert forall k :: 1 <= k < |free| ==> free[k] == f[k - 1];
    }

    /** The timer of a sleeping thread runs out. */
    method Expire(t: Tid)
      requires Valid()
      modifies this`waiting
      ensures Valid() && Meeting() == R.Expire(old(Meeting()), t)
    {
      hide R.Inv, Block;
      R.StepKeeps(Meeting(), R.ExpireEvent(t));
      waiting := Without(waiting, t);
    }
  }

  ghost function Range(a: nat, b: nat): seq<nat>
    decreases b - a
  {
    if a < b then [a] + Range(a + 1, b) else []
  }

  lemma {:induction false} RangeFacts(a: nat, b: nat)
    requires a <= b
    ensures |Range(a, b)| == b - a && forall k :: 0 <= k < b - a ==> Range(a, b)[k] == a + k
    ensures forall x: nat :: a <= x < b ==> x in Range(a, b)
    decreases b - a
  {
    if a == b {
    } else {
      RangeFacts(a + 1, b);
    }
    forall x: nat | a <= x < b ensures x in Range(a, b) {
      assert Range(a, b)[x - a] == x;
    }
  }

  /** The link word of block `i` names the next block, that of the last one names none. */
  ghost predicate LinkUp(c: seq<int>, blockSize: nat, n: nat, i: nat) {
    && 0 <= Block(i, blockSize) < |c|
    && c[Block(i, blockSize)] == if i + 1 < n then Block(i + 1, blockSize) else NULL
  }

  lemma {:induction false} ChainUp(c: seq<int>, blockSize: nat, k: nat, n: nat)
    requires k <= n && n > 0 && forall i: nat :: i < n ==> LinkUp(c, blockSize, n, i)
    ensures Chain(c, blockSize, if k < n then Block(k, blockSize) else NULL, Range(k, n))
    decreases n - k
  {
    hide Block, Range, Chain;
    RangeStep(k, n);
    if k == n {
      ChainNone(c, blockSize);
    } else {
      ChainUp(c, blockSize, k + 1, n);
      assert LinkUp(c, blockSize, n, k);
      ChainCons(c, blockSize, k, Range(k + 1, n));
    }
  }

  lemma RangeStep(k: nat, n: nat)
    requires k <= n
    ensures Range(k, n) == if k < n then [k] + Range(k + 1, n) else []
  {
  }

  lemma ChainNone(c: seq<int>, blockSize: nat)
    ensures Chain(c, blockSize, NULL, [])
  {
  }

  lemma ChainCons(c: seq<int>, blockSize: nat, k: nat, rest: seq<nat>)
    requires 0 <= Block(k, blockSize) < |c| && Chain(c, blockSize, c[Block(k, blockSize)], rest)
    ensures Chain(c, blockSize, Block(k, blockSize), [k] + rest)
  {
    assert ([k] + rest)[1..] == rest;
  }

  lemma FirstBlock(blockSize: nat)
    ensures Block(0, blockSize) == 0
  {
  }

  /** As many blocks as fit. */
  lemma Whole(size: nat, blockSize: nat, n: nat)
    requires n == size / (blockSize + LINK_SIZE) && size >= blockSize + LINK_SIZE
    ensures n > 0 && Block(n, blockSize) <= size < Block(n + 1, blockSize)
  {
    var w := blockSize + LINK_SIZE;
    assert size == w * n + size % w;
    assert (n + 1) * w == n * w + w;
    if n == 0 { assert false; }
  }

  /** The data of two blocks in use do not overlap, and no link word lies in either. */
  lemma LiveApart(i: nat, j: nat, k: nat, n: nat, blockSize: nat)
    requires i < n && j < n && k < n && i != j
    ensures var a, b, w := Block(i, blockSize) + LINK_SIZE, Block(j, blockSize) + LINK_SIZE, Block(k, blockSize);
            && (a + blockSize <= b || b + blockSize <= a)
            && (w + LINK_SIZE <= a || a + blockSize <= w)
            && a + blockSize <= Block(n, blockSize)
  {
    Apart(i, j, n, blockSize);
    Apart(j, i, n, blockSize);
    Apart(i, k, n, blockSize);
    Apart(k, i, n, blockSize);
  }
}
