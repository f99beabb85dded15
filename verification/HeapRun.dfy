/** Whole runs of either heap: any sequence of allocations, resizings and releases, with callers writing
    to their blocks in between.  What callers see is a map from addresses to byte strings, and a heap
    behaves like such a map. */
module HeapRun {
  import opened HeapTiling
  import opened SmallMem
  import opened IpcList
  import M = MemHeap

  datatype Op = Alloc(size: Word) | Free(a: int) | Realloc(a: int, size: Word) | Store(a: int, k: nat, x: int)

  /** The addresses handed out and not given back, each with the bytes that belong to its owner. */
  type View = map<int, seq<int>>

  // ----- what callers rely on -----

  /** Address `r` is new and comes with at least the bytes asked for; all else is as before.  (A request
      for one of the three sizes that round to zero gets less.) */
  ghost predicate Gained(v: View, v': View, r: int, size: Word) {
    && r !in v && r in v' && v' == v[r := v'[r]]
    && (size <= WORD_LIMIT - 4 ==> |v'[r]| >= size)
  }

  /** What one operation with result `r` does to the view.  Addresses that are not outstanding are left
      alone.  Resizing to zero, or to more than `last`, gives the block back. */
  ghost predicate Serves(none: int, last: Word, op: Op, r: int, v: View, v': View) {
    match op
    case Alloc(size) => if r == none then v' == v else Gained(v, v', r, size)
    case Free(a) => v' == v - {a}
    case Store(a, k, x) => v' == if a in v && k < |v[a]| then v[a := v[a][k := x]] else v
    case Realloc(a, size) =>
      if a == none then if r == none then v' == v else Gained(v, v', r, size)
      else if a !in v then v' == v
      else if r == none then v' == if size == 0 || size > last then v - {a} else v
      else Gained(v - {a}, v', r, size) && SamePrefix(v[a], v'[r], size)
  }

  ghost predicate SamePrefix(d: seq<int>, d': seq<int>, size: nat) {
    forall j :: 0 <= j < |d| && j < |d'| && j < size ==> d'[j] == d[j]
  }

  ghost predicate StepAt(none: int, last: Word, ops: seq<Op>, rs: seq<int>, views: seq<View>, i: nat)
    requires i < |ops| && i < |rs| && i + 1 < |views|
  {
    Serves(none, last, ops[i], rs[i], views[i], views[i + 1])
  }

  ghost predicate Trace(none: int, last: Word, ops: seq<Op>, rs: seq<int>, views: seq<View>) {
    && |rs| == |ops| && |views| == |ops| + 1
    && forall i: nat :: i < |ops| ==> StepAt(none, last, ops, rs, views, i)
  }

  lemma TraceNext(none: int, last: Word, ops: seq<Op>, n: nat, rs: seq<int>, views: seq<View>, r: int, v: View)
    requires n < |ops| && Trace(none, last, ops[..n], rs, views) && Serves(none, last, ops[n], r, views[n], v)
    ensures Trace(none, last, ops[..n + 1], rs + [r], views + [v])
  {
    hide Serves;
    var ops', rs', views' := ops[..n + 1], rs + [r], views + [v];
    forall i: nat | i < n + 1 ensures StepAt(none, last, ops', rs', views', i) {
      if i < n { assert StepAt(none, last, ops[..n], rs, views, i); }
    }
  }

  predicate Touches(op: Op, a: int) {
    !op.Alloc? && op.a == a
  }

  /** A block that nobody gives back, resizes or writes to keeps its address and every byte, whatever else
      is done in between. */
  lemma {:induction false} DataStays(none: int, last: Word, ops: seq<Op>, rs: seq<int>, views: seq<View>,
                                     i: nat, j: nat, a: int)
    requires Trace(none, last, ops, rs, views) && i <= j <= |ops| && a in views[i] && a != none
    requires forall k :: i <= k < j ==> !Touches(ops[k], a)
    ensures a in views[j] && views[j][a] == views[i][a]
    decreases j
  {
    if i == j {
    } else {
      DataStays(none, last, ops, rs, views, i, j - 1, a);
      assert StepAt(none, last, ops, rs, views, j - 1);
      assert !Touches(ops[j - 1], a);
    }
  }

  // ----- how a heap shows it -----

  function Place(base: nat, b: Block): int {
    base + b.start
  }

  /** The bytes of used block `b` are those that the view gives for its address. */
  ghost predicate Shown(hdr: nat, base: nat, h: seq<int>, b: Block, v: View) {
    && b.start + hdr <= b.next <= |h|
    && Place(base, b) in v && v[Place(base, b)] == h[b.start + hdr..b.next]
  }

  ghost predicate Has(used: set<Block>, base: nat, a: int) {
    exists b :: b in used && Place(base, b) == a
  }

  /** Memory `h` with used blocks `used` shows the view `v`. */
  ghost predicate Shows(hdr: nat, base: nat, h: seq<int>, used: set<Block>, v: View) {
    && (forall b :: b in used ==> Shown(hdr, base, h, b, v))
    && (forall a :: a in v ==> Has(used, base, a))
  }

  function Bytes(hdr: nat, h: seq<int>, b: Block): seq<int>
    requires b.start + hdr <= b.next <= |h|
  {
    h[b.start + hdr..b.next]
  }

  lemma ShownStill(hdr: nat, base: nat, h: seq<int>, h': seq<int>, b: Block, v: View)
    requires Shown(hdr, base, h, b, v) && SameBytes(h, h', b.start + hdr, b.next)
    ensures Shown(hdr, base, h', b, v)
  {
    assert h'[b.start + hdr..b.next] == h[b.start + hdr..b.next];
  }

  lemma Added(hdr: nat, base: nat, h: seq<int>, h': seq<int>, used: set<Block>, g: Block, v: View)
    requires Shows(hdr, base, h, used, v) && DataKept(hdr, h, h', used)
    requires g.start + hdr <= g.next <= |h'| && forall b :: b in used ==> b.start != g.start
    ensures Place(base, g) !in v
    ensures Shows(hdr, base, h', used + {g}, v[Place(base, g) := Bytes(hdr, h', g)])
  {
    var v' := v[Place(base, g) := Bytes(hdr, h', g)];
    assert !Has(used, base, Place(base, g));
    forall b | b in used + {g} ensures Shown(hdr, base, h', b, v') {
      if b in used {
        assert Shown(hdr, base, h, b, v);
        ShownStill(hdr, base, h, h', b, v);
      }
    }
    forall a | a in v' ensures Has(used + {g}, base, a) {
      if a in v {
        var b :| b in used && Place(base, b) == a;
        assert b in used + {g};
      } else {
        assert g in used + {g};
      }
    }
  }

  lemma Taken(hdr: nat, base: nat, h: seq<int>, h': seq<int>, used: set<Block>, rest: set<Block>, v: View, a: int)
    requires Shows(hdr, base, h, used, v) && DataKept(hdr, h, h', rest)
    requires rest == set b | b in used && Place(base, b) != a
    ensures Shows(hdr, base, h', rest, v - {a})
  {
    hide Place;
    forall b | b in rest ensures Shown(hdr, base, h', b, v - {a}) {
      assert Shown(hdr, base, h, b, v);
      ShownStill(hdr, base, h, h', b, v);
    }
    forall x | x in v - {a} ensures Has(rest, base, x) {
      var b :| b in used && Place(base, b) == x;
      assert b in rest;
    }
  }

  /** Block `b` becomes block `g`, perhaps elsewhere, with its first `n` bytes. */
  lemma Swapped(hdr: nat, base: nat, h: seq<int>, h': seq<int>, used: set<Block>, b: Block, g: Block, v: View,
                n: nat)
    requires Shows(hdr, base, h, used, v) && b in used
    requires used - {b} == set x | x in used && x.start != b.start
    requires forall x :: x in used - {b} ==> x.start != g.start
    requires DataKept(hdr, h, h', used - {b}) && g.start + hdr <= g.next <= |h'|
    requires n <= Data(hdr, b) && n <= Data(hdr, g)
    requires Carried(h, h', b.start + hdr, g.start + hdr, n)
    ensures var r := Place(base, g);
            var rest := v - {Place(base, b)};
            && Place(base, b) in v && r !in rest
            && Shows(hdr, base, h', used - {b} + {g}, rest[r := Bytes(hdr, h', g)])
            && |v[Place(base, b)]| == Data(hdr, b) && SamePrefix(v[Place(base, b)], Bytes(hdr, h', g), n)
  {
    assert Shown(hdr, base, h, b, v);
    assert (set x | x in used && Place(base, x) != Place(base, b)) == used - {b};
    Taken(hdr, base, h, h', used, used - {b}, v, Place(base, b));
    KeptSame(hdr, h', used - {b});
    Added(hdr, base, h', h', used - {b}, g, v - {Place(base, b)});
    PrefixCarried(h, h', b.start + hdr, b.next, g.start + hdr, g.next, n);
  }

  lemma PrefixCarried(h: seq<int>, h': seq<int>, src: nat, srcEnd: nat, dst: nat, dstEnd: nat, n: nat)
    requires Carried(h, h', src, dst, n) && src + n <= srcEnd <= |h| && dst + n <= dstEnd <= |h'|
    ensures SamePrefix(h[src..srcEnd], h'[dst..dstEnd], n)
  {
    forall j | 0 <= j < n ensures h'[dst..dstEnd][j] == h[src..srcEnd][j] {
      assert h'[dst..dst + n][j] == h[src..src + n][j];
    }
  }

  lemma Written(hdr: nat, base: nat, h: seq<int>, h': seq<int>, used: set<Block>, b: Block, v: View, k: nat, x: int)
    requires Shows(hdr, base, h, used, v) && b in used
    requires used - {b} == set c | c in used && c.start != b.start
    requires k < Data(hdr, b) && b.next <= |h| && h' == h[b.start + hdr + k := x]
    requires DataKept(hdr, h, h', used - {b})
    ensures var a := Place(base, b);
            a in v && k < |v[a]| && Shows(hdr, base, h', used, v[a := v[a][k := x]])
  {
    var a := Place(base, b);
    assert Shown(hdr, base, h, b, v);
    var v' := v[a := v[a][k := x]];
    assert h'[b.start + hdr..b.next] == v[a][k := x];
    forall c | c in used ensures Shown(hdr, base, h', c, v') {
      if c != b {
        assert c in used - {b};
        assert Shown(hdr, base, h, c, v);
        ShownStill(hdr, base, h, h', c, v);
      }
    }
    forall y | y in v' ensures Has(used, base, y) {
      assert y in v;
    }
  }

  lemma AllOut(hdr: nat, base: nat, h: seq<int>, used: set<Block>, v: View)
    requires Shows(hdr, base, h, used, v)
    ensures v.Keys == {} ==> used == {}
  {
    forall b | b in used ensures Place(base, b) in v.Keys {
      assert Shown(hdr, base, h, b, v);
    }
  }

  // ----- the small-memory heap -----

  ghost predicate InStep(m: SmallMem, out: set<int>, v: View)
    reads m, m.heap
  {
    && m.Valid() && out == v.Keys
    && Shows(SIZEOF_STRUCT_MEM, m.heapPtr + SIZEOF_STRUCT_MEM, m.heap[..], m.Live(), v)
  }

  /** After any run the heap is in order, every result was as callers rely on, the memory shows what they
      see, and `max` is the largest value that `used` ever had; once everything has been given back, in
      whatever order, the heap is the one free block it started as. */
  method Run(m: SmallMem, ops: seq<Op>) returns (out: set<int>, ghost rs: seq<int>, ghost views: seq<View>)
    requires m.Valid() && m.bs == [Block(0, m.End(), false)]
    modifies m`bs, m`lfree, m`used, m`history, m`max, m.heap
    ensures Trace(NULL, WORD_LIMIT - 4, ops, rs, views) && views[0] == map[]
    ensures InStep(m, out, views[|ops|])
    ensures old(m.history) <= m.history && Highest(m.history, m.max)
    ensures out == {} ==> m.bs == [Block(0, m.End(), false)] && m.lfree == 0 && m.used == 0
  {
    hide Serves, SmallMem.Valid, Shows;
    out, rs, views := {}, [], [map[]];
    NothingShown(m);
    var n := 0;
    while n < |ops|
      invariant n <= |ops| && |views| == n + 1 && InStep(m, out, views[n]) && views[0] == map[]
      invariant Trace(NULL, WORD_LIMIT - 4, ops[..n], rs, views)
      invariant old(m.history) <= m.history
    {
      var r;
      ghost var v;
      r, out, v := Do(m, ops[n], out, views[n]);
      TraceNext(NULL, WORD_LIMIT - 4, ops, n, rs, views, r, v);
      rs, views, n := rs + [r], views + [v], n + 1;
    }
    assert ops[..n] == ops;
    Restored(m, out, views[n]);
  }

  lemma NothingShown(m: SmallMem)
    requires m.Valid() && m.bs == [Block(0, m.End(), false)]
    ensures InStep(m, {}, map[])
  {
    assert m.Live() == {};
  }

  lemma Restored(m: SmallMem, out: set<int>, v: View)
    requires InStep(m, out, v)
    ensures Highest(m.history, m.max)
    ensures out == {} ==> m.bs == [Block(0, m.End(), false)] && m.lfree == 0 && m.used == 0
  {
    if out == {} {
      AllOut(SIZEOF_STRUCT_MEM, m.heapPtr + SIZEOF_STRUCT_MEM, m.heap[..], m.Live(), v);
      Ordered(SIZEOF_STRUCT_MEM, m.bs, 0, m.End());
      SumsOfOne(SIZEOF_STRUCT_MEM, Block(0, m.End(), false));
      AllFreedRestores(SIZEOF_STRUCT_MEM, m.bs, m.End());
      assert m.bs[..0] == [];
    }
  }

  /** One operation; addresses that are not outstanding may not be passed and are left alone. */
  method Do(m: SmallMem, op: Op, out: set<int>, ghost v: View) returns (r: int, out': set<int>, ghost v': View)
    requires InStep(m, out, v)
    modifies m`bs, m`lfree, m`used, m`history, m`max, m.heap
    ensures InStep(m, out', v') && Serves(NULL, WORD_LIMIT - 4, op, r, v, v')
    ensures old(m.history) <= m.history
  {
    hide InStep;
    match op
    case Alloc(size) =>
      r, out', v' := DoAlloc(m, size, out, v);
    case Free(a) =>
      out', v' := DoFree(m, a, out, v);
      r := NULL;
    case Store(a, k, x) =>
      v' := DoStore(m, a, k, x, out, v);
      r, out' := NULL, out;
    case Realloc(a, size) =>
      r, out', v' := Resize(m, a, size, out, v);
  }

  method DoAlloc(m: SmallMem, size: Word, out: set<int>, ghost v: View) returns (r: int, out': set<int>, ghost v': View)
    requires InStep(m, out, v)
    modifies m`bs, m`lfree, m`used, m`history, m`max, m.heap
    ensures InStep(m, out', v') && old(m.history) <= m.history
    ensures if r == NULL then v' == v else Gained(v, v', r, size)
  {
    hide SmallMem.Valid, DataKept, NoFit, FirstFit, RtAlign, Need, UsedBlocks, Tiles, Linked, Shows;
    hide Granted, Served, Counted;
    m.Facts();
    ghost var h := m.heap[..];
    ghost var i;
    r, i := m.Alloc(size);
    if r == NULL {
      return r, out, v;
    }
    m.Facts();
    AllocShows(m.heapPtr + SIZEOF_STRUCT_MEM, m.End(), old(m.bs), m.bs, h, m.heap[..], Need(size), i, v);
    out', v' := out + {r}, v[r := Bytes(SIZEOF_STRUCT_MEM, m.heap[..], Granted(old(m.bs)[i], Need(size)))];
  }

  lemma AllocShows(base: nat, end: nat, bs: seq<Block>, bs': seq<Block>, h: seq<int>, h': seq<int>, need: nat,
                   i: int, v: View)
    requires Tiles(SIZEOF_STRUCT_MEM, bs, 0, end) && Tiles(SIZEOF_STRUCT_MEM, bs', 0, end)
    requires Allocated(bs, bs', need, i) && |h'| >= end
    requires DataKept(SIZEOF_STRUCT_MEM, h, h', UsedBlocks(bs))
    requires Shows(SIZEOF_STRUCT_MEM, base, h, UsedBlocks(bs), v)
    ensures 0 <= i < |bs|
    ensures var g := Granted(bs[i], need);
            && g.start == bs[i].start && g.start + SIZEOF_STRUCT_MEM <= g.next <= |h'| && Place(base, g) !in v
            && Shows(SIZEOF_STRUCT_MEM, base, h', UsedBlocks(bs'), v[Place(base, g) := Bytes(SIZEOF_STRUCT_MEM, h', g)])
            && |Bytes(SIZEOF_STRUCT_MEM, h', g)| >= need
  {
    hide Shows, DataKept, Tiles, UsedBlocks;
    GrantedIs(bs, need, i);
    var g := Granted(bs[i], need);
    NewAndApart(SIZEOF_STRUCT_MEM, bs, bs', end, i, g);
    Added(SIZEOF_STRUCT_MEM, base, h, h', UsedBlocks(bs), g, v);
  }

  /** A granted block starts where no used block does. */
  lemma NewAndApart(hdr: nat, bs: seq<Block>, bs': seq<Block>, end: nat, i: nat, g: Block)
    requires Tiles(hdr, bs, 0, end) && Tiles(hdr, bs', 0, end) && i < |bs| && !bs[i].used
    requires g.used && g.start == bs[i].start && g in UsedBlocks(bs')
    ensures g.start + hdr <= g.next <= end
    ensures forall x :: x in UsedBlocks(bs) ==> x.start != g.start
  {
    Ordered(hdr, bs', 0, end);
    forall x | x in UsedBlocks(bs) ensures x.start != g.start {
      var j :| 0 <= j < |bs| && bs[j] == x;
      if x.start == g.start { SameStart(hdr, bs, 0, end, i, j); }
    }
  }

  method DoFree(m: SmallMem, a: int, out: set<int>, ghost v: View) returns (out': set<int>, ghost v': View)
    requires InStep(m, out, v)
    modifies m`bs, m`lfree, m`used, m`history, m.heap
    ensures InStep(m, out', v') && old(m.history) <= m.history
    ensures v' == v - {a}
  {
    hide SmallMem.Valid, DataKept, UsedBlocks, Tiles, Linked, Shows;
    out', v' := out - {a}, v - {a};
    if a in out {
      ghost var h, u, base := m.heap[..], m.Live(), m.heapPtr + SIZEOF_STRUCT_MEM;
      ghost var b := OwnerOf(m, out, v, a);
      m.Free(a);
      assert m.Live() == set x | x in u && Place(base, x) != a;
      Taken(SIZEOF_STRUCT_MEM, base, h, m.heap[..], u, m.Live(), v, a);
    } else {
      assert v' == v && out' == out;
    }
  }

  /** The block behind an outstanding address. */
  lemma OwnerOf(m: SmallMem, out: set<int>, v: View, a: int) returns (b: Block)
    requires InStep(m, out, v) && a in out
    ensures b in m.Live() && m.Addr(b) == a && m.Allotted(a) && a > NULL && m.BlockAt(a) == b
    ensures |v[a]| == Data(SIZEOF_STRUCT_MEM, b) && b.start + SIZEOF_STRUCT_MEM <= b.next <= m.End() <= m.heap.Length
    ensures m.Live() - {b} == set x | x in m.Live() && x.start != b.start
  {
    hide SmallMem.Valid;
    m.Facts();
    assert a in v;
    b :| b in m.Live() && Place(m.heapPtr + SIZEOF_STRUCT_MEM, b) == a;
    assert m.Addr(b) == a && m.Allotted(a);
    assert Shown(SIZEOF_STRUCT_MEM, m.heapPtr + SIZEOF_STRUCT_MEM, m.heap[..], b, v);
    UsedApart(m.bs, m.End(), b);
    Ordered(SIZEOF_STRUCT_MEM, m.bs, 0, m.End());
    var c := m.BlockAt(a);
    assert c !in m.Live() - {b};
  }

  method DoStore(m: SmallMem, a: int, k: nat, x: int, out: set<int>, ghost v: View) returns (ghost v': View)
    requires InStep(m, out, v)
    modifies m.heap
    ensures InStep(m, out, v')
    ensures v' == if a in v && k < |v[a]| then v[a := v[a][k := x]] else v
  {
    hide SmallMem.Valid, DataKept, UsedBlocks, Tiles, Linked, Shows;
    v' := v;
    if a in out {
      ghost var h, base := m.heap[..], m.heapPtr + SIZEOF_STRUCT_MEM;
      ghost var b := OwnerOf(m, out, v, a);
      var size;
      ghost var i;
      size, i := m.DataSize(a, b);
      if k < size {
        m.Store(a + k, x, b);
        Written(SIZEOF_STRUCT_MEM, base, h, m.heap[..], m.Live(), b, v, k, x);
        v' := v[a := v[a][k := x]];
      }
    }
  }

  method Resize(m: SmallMem, a: int, size: Word, out: set<int>, ghost v: View)
    returns (r: int, out': set<int>, ghost v': View)
    requires InStep(m, out, v)
    modifies m`bs, m`lfree, m`used, m`history, m`max, m.heap
    ensures InStep(m, out', v') && Serves(NULL, WORD_LIMIT - 4, Realloc(a, size), r, v, v')
    ensures old(m.history) <= m.history
  {
    if a == NULL {
      r, out', v' := ResizeNull(m, size, out, v);
    } else if a in out {
      r, out', v' := ResizeBlock(m, a, size, out, v);
    } else {
      r, out', v' := NULL, out, v;
    }
  }

  method ResizeNull(m: SmallMem, size: Word, out: set<int>, ghost v: View)
    returns (r: int, out': set<int>, ghost v': View)
    requires InStep(m, out, v)
    modifies m`bs, m`lfree, m`used, m`history, m`max, m.heap
    ensures InStep(m, out', v') && old(m.history) <= m.history
    ensures if r == NULL then v' == v else Gained(v, v', r, size)
  {
    hide SmallMem.Valid, DataKept, NoFit, FirstFit, RtAlign, Need, UsedBlocks, Tiles, Linked, Shows;
    hide Granted, Served, Counted;
    m.Facts();
    ghost var h := m.heap[..];
    ghost var i;
    r, i := m.Realloc(NULL, size);
    if r == NULL {
      return r, out, v;
    }
    m.Facts();
    ghost var n := Need(RtAlign(size));
    assert old(m.Live()) * m.Live() == old(m.Live());
    AllocShows(m.heapPtr + SIZEOF_STRUCT_MEM, m.End(), old(m.bs), m.bs, h, m.heap[..], n, i, v);
    out', v' := out + {r}, v[r := Bytes(SIZEOF_STRUCT_MEM, m.heap[..], Granted(old(m.bs)[i], n))];
  }

  method ResizeBlock(m: SmallMem, a: int, size: Word, out: set<int>, ghost v: View)
    returns (r: int, out': set<int>, ghost v': View)
    requires InStep(m, out, v) && a in out && a != NULL
    modifies m`bs, m`lfree, m`used, m`history, m`max, m.heap
    ensures InStep(m, out', v') && Serves(NULL, WORD_LIMIT - 4, Realloc(a, size), r, v, v')
    ensures old(m.history) <= m.history
  {
    hide SmallMem.Valid, SmallMem.Allotted, DataKept, NoFit, FirstFit, RtAlign, Need, UsedBlocks, Carried,
         InPlace, Shows, Granted, Fits, Tiles, Linked, SmallMem.Fixed, AllAligned, SamePrefix, Served, Counted;
    ghost var h, u, base, bs := m.heap[..], m.Live(), m.heapPtr + SIZEOF_STRUCT_MEM, m.bs;
    ghost var b := OwnerOf(m, out, v, a);
    m.Facts();
    ghost var i;
    r, i := m.Realloc(a, size);
    RoundsToZero(size);
    if r == NULL {
      out', v' := out, v;
      if RtAlign(size) == 0 {
        assert m.Live() == set x | x in u && Place(base, x) != a;
        KeptLess(SIZEOF_STRUCT_MEM, h, m.heap[..], u * m.Live(), m.Live());
        Taken(SIZEOF_STRUCT_MEM, base, h, m.heap[..], u, m.Live(), v, a);
        out', v' := out - {a}, v - {a};
      }
      return;
    }
    ghost var n := RtAlign(size);
    ghost var g := Block(b.start, b.start + SIZEOF_STRUCT_MEM + n, true);
    if InPlace(b, n) {
      ShorterBlock(b, n);
    } else {
      m.Facts();
      GrantedIs(bs, Need(n), i);
      g := Granted(bs[i], Need(n));
      NeedAligned(n);
      NewAndApart(SIZEOF_STRUCT_MEM, bs, m.bs, m.End(), i, g);
    }
    assert m.Live() == u - {b} + {g} && r == Place(base, g);
    KeptLess(SIZEOF_STRUCT_MEM, h, m.heap[..], u * m.Live(), u - {b});
    Swapped(SIZEOF_STRUCT_MEM, base, h, m.heap[..], u, b, g, v, Least(Data(SIZEOF_STRUCT_MEM, b), n));
    out', v' := out - {a} + {r}, (v - {a})[r := Bytes(SIZEOF_STRUCT_MEM, m.heap[..], g)];
    PrefixLess(v[a], v'[r], Least(Data(SIZEOF_STRUCT_MEM, b), n), size);
  }

  lemma ShorterBlock(b: Block, n: nat)
    requires InPlace(b, n)
    ensures n <= Data(SIZEOF_STRUCT_MEM, b)
  {
  }

  lemma PrefixLess(d: seq<int>, d': seq<int>, n: nat, size: nat)
    requires SamePrefix(d, d', n) && (size <= n || |d| <= n || |d'| <= n)
    ensures SamePrefix(d, d', size)
  {
  }

  // ----- the same for the memheap -----

  ghost function Tail(m: M.MemHeap): Block {
    Block(if m.poolSize >= M.RT_MEMHEAP_SIZE then m.poolSize - M.RT_MEMHEAP_SIZE else 0, m.poolSize, true)
  }

  /** The blocks in the hands of callers; the tail is not one of them. */
  ghost function Held(m: M.MemHeap): set<Block>
    reads m
  {
    UsedBlocks(m.bs) - {Tail(m)}
  }

  ghost predicate NoneTiny(v: View) {
    forall a :: a in v ==> |v[a]| >= M.MINIALLOC
  }

  ghost predicate InStepWith(m: M.MemHeap, out: set<int>, v: View)
    reads m, m.cells
  {
    && m.Valid() && out == v.Keys && NoneTiny(v)
    && Shows(M.RT_MEMHEAP_SIZE, M.RT_MEMHEAP_SIZE, m.cells[..], Held(m), v)
  }

  /** After any run of the memheap, too: results as callers rely on, their bytes in the pool, no block
      smaller than the smallest size, `maxUsedSize` the largest amount ever in use, and everything given
      back makes the heap what it was at first. */
  method RunMemHeap(m: M.MemHeap, ops: seq<Op>) returns (out: set<int>, ghost rs: seq<int>, ghost views: seq<View>)
    requires m.Valid() && Held(m) == {}
    modifies m`bs, m`fl, m`mg, m`nx, m`pv, m`nf, m`pf, m`availableSize, m`history, m`maxUsedSize, m.cells
    ensures Trace(M.NULL, WORD_LIMIT - 1, ops, rs, views) && views[0] == map[]
    ensures InStepWith(m, out, views[|ops|])
    ensures old(m.history) <= m.history && Highest(m.history, m.maxUsedSize)
    ensures out == {} ==>
              && m.bs == [Block(0, m.poolSize - M.RT_MEMHEAP_SIZE, false), Tail(m)] && m.fl == [0]
              && m.availableSize == m.poolSize - 2 * M.RT_MEMHEAP_SIZE
  {
    hide Serves, M.MemHeap.Valid, Shows, Held;
    out, rs, views := {}, [], [map[]];
    NoneHeld(m);
    var n := 0;
    while n < |ops|
      invariant n <= |ops| && |views| == n + 1 && InStepWith(m, out, views[n]) && views[0] == map[]
      invariant Trace(M.NULL, WORD_LIMIT - 1, ops[..n], rs, views)
      invariant old(m.history) <= m.history
    {
      var r;
      ghost var v;
      r, out, v := DoMemHeap(m, ops[n], out, views[n]);
      TraceNext(M.NULL, WORD_LIMIT - 1, ops, n, rs, views, r, v);
      rs, views, n := rs + [r], views + [v], n + 1;
    }
    assert ops[..n] == ops;
    MemHeapHighest(m);
    AllOut(M.RT_MEMHEAP_SIZE, M.RT_MEMHEAP_SIZE, m.cells[..], Held(m), views[n]);
    if out == {} { MemHeapRestored(m); }
  }

  lemma NoneHeld(m: M.MemHeap)
    requires m.Valid() && Held(m) == {}
    ensures InStepWith(m, {}, map[])
  {
  }

  lemma MemHeapHighest(m: M.MemHeap)
    requires m.Valid()
    ensures Highest(m.history, m.maxUsedSize)
  {
  }

  lemma MemHeapRestored(m: M.MemHeap)
    requires m.Valid() && Held(m) == {}
    ensures m.bs == [Block(0, m.poolSize - M.RT_MEMHEAP_SIZE, false), Tail(m)] && m.fl == [0]
    ensures m.availableSize == m.poolSize - 2 * M.RT_MEMHEAP_SIZE
  {
    var first := [Block(0, m.poolSize - M.RT_MEMHEAP_SIZE, false), Tail(m)];
    m.TilesOf();
    TailUsed(m.bs, m.poolSize);
    assert UsedBlocks(m.bs) == {Tail(m)};
    PoolHasRoom(m.bs, m.poolSize);
    M.InitialTiling(m.poolSize, first);
    SumsOfTwo(M.RT_MEMHEAP_SIZE, first[0], first[1]);
    assert UsedBlocks(first) == {Tail(m)};
    Canonical(M.RT_MEMHEAP_SIZE, m.bs, first, 0, m.poolSize);
    OneListed(m.fl, m.poolSize);
  }

  lemma TailUsed(bs: seq<Block>, pool: nat)
    requires M.Tailed(bs, pool)
    ensures Block(pool - M.RT_MEMHEAP_SIZE, pool, true) in UsedBlocks(bs)
  {
    assert bs[|bs| - 1] in bs;
  }

  lemma PoolHasRoom(bs: seq<Block>, pool: nat)
    requires M.Tailed(bs, pool) && Tiles(M.RT_MEMHEAP_SIZE, bs, 0, pool) && AllAligned(bs)
    ensures pool >= 2 * M.RT_MEMHEAP_SIZE && Aligned(pool)
  {
    Ordered(M.RT_MEMHEAP_SIZE, bs, 0, pool);
    AlignedSum(bs[|bs| - 1].start, 0);
  }

  lemma Repeats(s: seq<int>, x: int)
    requires |s| > 1 && forall i :: 0 <= i < |s| ==> s[i] == x
    ensures !Distinct(s)
  {
    assert s[0] == s[1];
  }

  lemma OneListed(fl: seq<int>, pool: nat)
    requires pool >= 2 * M.RT_MEMHEAP_SIZE
    requires var bs := [Block(0, pool - M.RT_MEMHEAP_SIZE, false), Block(pool - M.RT_MEMHEAP_SIZE, pool, true)];
             M.Matches(bs, fl, M.NULL)
    requires Distinct(fl)
    ensures fl == [0]
  {
    hide Distinct;
    var bs := [Block(0, pool - M.RT_MEMHEAP_SIZE, false), Block(pool - M.RT_MEMHEAP_SIZE, pool, true)];
    assert M.FreeAt(bs, 0, 0);
    assert M.IsFree(bs, 0);
    assert forall a :: M.IsFree(bs, a) ==> a == 0;
    forall i | 0 <= i < |fl| ensures fl[i] == 0 {
      assert fl[i] in fl;
      assert M.IsFree(bs, fl[i]);
    }
    if |fl| > 1 { Repeats(fl, 0); }
  }

  /** A block granted from a free one is not the tail. */
  lemma NotTail(bs: seq<Block>, pool: nat, i: nat, g: Block)
    requires Tiles(M.RT_MEMHEAP_SIZE, bs, 0, pool) && M.Tailed(bs, pool) && i < |bs| && !bs[i].used
    requires g.start == bs[i].start
    ensures g != Block(pool - M.RT_MEMHEAP_SIZE, pool, true)
  {
    if g.start == pool - M.RT_MEMHEAP_SIZE {
      SameStart(M.RT_MEMHEAP_SIZE, bs, 0, pool, i, |bs| - 1);
    }
  }

  lemma ShownAt(hdr: nat, base: nat, h: seq<int>, used: set<Block>, v: View, a: int) returns (b: Block)
    requires Shows(hdr, base, h, used, v) && a in v
    ensures b in used && Place(base, b) == a && |v[a]| == Data(hdr, b) && b.next <= |h|
  {
    assert Has(used, base, a);
    b :| b in used && Place(base, b) == a;
    assert Shown(hdr, base, h, b, v);
  }

  /** A used block that is not the tail is in front of it. */
  lemma IndexOf(bs: seq<Block>, pool: nat, b: Block) returns (i: nat)
    requires Tiles(M.RT_MEMHEAP_SIZE, bs, 0, pool) && M.Tailed(bs, pool) && pool >= M.RT_MEMHEAP_SIZE
    requires b in UsedBlocks(bs) && b != Block(pool - M.RT_MEMHEAP_SIZE, pool, true)
    ensures i + 1 < |bs| && bs[i] == b && b.used && b.start != pool - M.RT_MEMHEAP_SIZE
    ensures UsedBlocks(bs) - {b} == set x | x in UsedBlocks(bs) && x.start != b.start
  {
    i :| 0 <= i < |bs| && bs[i] == b;
    OthersStay(M.RT_MEMHEAP_SIZE, bs, pool, i);
    if b.start == pool - M.RT_MEMHEAP_SIZE { SameStart(M.RT_MEMHEAP_SIZE, bs, 0, pool, i, |bs| - 1); }
  }

  lemma BlockIs(m: M.MemHeap, i: nat)
    requires Tiles(M.RT_MEMHEAP_SIZE, m.bs, 0, m.poolSize) && i + 1 < |m.bs| && m.bs[i].used
    ensures m.Allotted(m.bs[i].start + M.RT_MEMHEAP_SIZE)
    ensures m.BlockAt(m.bs[i].start + M.RT_MEMHEAP_SIZE) == m.bs[i]
  {
    assert m.Allotted(m.bs[i].start + M.RT_MEMHEAP_SIZE);
    var c := m.BlockAt(m.bs[i].start + M.RT_MEMHEAP_SIZE);
    var j :| 0 <= j < |m.bs| - 1 && m.bs[j] == c;
    SameStart(M.RT_MEMHEAP_SIZE, m.bs, 0, m.poolSize, i, j);
  }

  /** The block behind an outstanding address, which is not the tail. */
  lemma HolderOf(m: M.MemHeap, out: set<int>, v: View, a: int) returns (i: nat)
    requires InStepWith(m, out, v) && a in out
    ensures m.Allotted(a) && a != M.NULL && i + 1 < |m.bs| && m.BlockAt(a) == m.bs[i] && m.bs[i].used
    ensures m.bs[i].start + M.RT_MEMHEAP_SIZE == a && m.bs[i] in Held(m) && m.bs[i].next <= |m.cells[..]|
    ensures |v[a]| == Data(M.RT_MEMHEAP_SIZE, m.bs[i]) >= M.MINIALLOC
    ensures Held(m) - {m.bs[i]} == set x | x in Held(m) && x.start != m.bs[i].start
    ensures m.bs[i].start != Tail(m).start
  {
    hide M.MemHeap.Shape, M.Matches, Coalesced, FreeData, M.MemHeap.Recorded, Shows, M.MemHeap.Allotted, Tiles,
         M.Tailed, UsedBlocks, M.MemHeap.Held;
    m.TilesOf();
    assert a in v;
    var b := ShownAt(M.RT_MEMHEAP_SIZE, M.RT_MEMHEAP_SIZE, m.cells[..], Held(m), v, a);
    PoolHasRoom(m.bs, m.poolSize);
    i := IndexOf(m.bs, m.poolSize, b);
    BlockIs(m, i);
    assert Held(m) - {b} == (UsedBlocks(m.bs) - {b}) - {Tail(m)};
  }

  /** One operation of the memheap.  A resize that its growth test gets wrong, see `M.WrappedGrowth`, is
      left out. */
  method DoMemHeap(m: M.MemHeap, op: Op, out: set<int>, ghost v: View)
    returns (r: int, out': set<int>, ghost v': View)
    requires InStepWith(m, out, v)
    modifies m`bs, m`fl, m`mg, m`nx, m`pv, m`nf, m`pf, m`availableSize, m`history, m`maxUsedSize, m.cells
    ensures InStepWith(m, out', v') && Serves(M.NULL, WORD_LIMIT - 1, op, r, v, v')
    ensures old(m.history) <= m.history
  {
    hide InStepWith;
    match op
    case Alloc(size) =>
      r, out', v' := DoAllocWith(m, size, out, v);
    case Free(a) =>
      out', v' := DoFreeWith(m, a, out, v);
      r := M.NULL;
    case Store(a, k, x) =>
      v' := DoStoreWith(m, a, k, x, out, v);
      r, out' := M.NULL, out;
    case Realloc(a, size) =>
      r, out', v' := ResizeWith(m, a, size, out, v);
  }

  /** What the memheap grants is a new block in the hands of a caller. */
  lemma AllocShowsWith(m: M.MemHeap, bs: seq<Block>, fl: seq<int>, h: seq<int>, need: nat, i: int, k: int, v: View)
    requires m.Valid() && Tiles(M.RT_MEMHEAP_SIZE, bs, 0, m.poolSize) && M.Tailed(bs, m.poolSize)
    requires M.Allocated(bs, m.bs, fl, need, i, k) && need >= M.MINIALLOC && NoneTiny(v)
    requires DataKept(M.RT_MEMHEAP_SIZE, h, m.cells[..], UsedBlocks(bs))
    requires Shows(M.RT_MEMHEAP_SIZE, M.RT_MEMHEAP_SIZE, h, UsedBlocks(bs) - {Tail(m)}, v)
    ensures 0 <= i < |bs|
    ensures var g := M.Granted(bs[i], need);
            && g.start == bs[i].start && g.start + M.RT_MEMHEAP_SIZE <= g.next <= |m.cells[..]|
            && var r := Place(M.RT_MEMHEAP_SIZE, g);
            var v' := v[r := Bytes(M.RT_MEMHEAP_SIZE, m.cells[..], g)];
            && r !in v && |v'[r]| >= need && InStepWith(m, v'.Keys, v')
  {
    hide M.MemHeap.Shape, M.Tailed, M.Matches, FreeData, Coalesced, M.FirstListed, Shows, DataKept, Tiles;
    m.TilesOf();
    M.GrantedIs(bs, fl, need, i, k);
    var g := M.Granted(bs[i], need);
    NewAndApart(M.RT_MEMHEAP_SIZE, bs, m.bs, m.poolSize, i, g);
    NotTail(bs, m.poolSize, i, g);
    KeptLess(M.RT_MEMHEAP_SIZE, h, m.cells[..], UsedBlocks(bs), UsedBlocks(bs) - {Tail(m)});
    Added(M.RT_MEMHEAP_SIZE, M.RT_MEMHEAP_SIZE, h, m.cells[..], UsedBlocks(bs) - {Tail(m)}, g, v);
    assert Held(m) == UsedBlocks(bs) - {Tail(m)} + {g};
  }

  method DoAllocWith(m: M.MemHeap, size: Word, out: set<int>, ghost v: View)
    returns (r: int, out': set<int>, ghost v': View)
    requires InStepWith(m, out, v)
    modifies m`bs, m`fl, m`mg, m`nx, m`pv, m`nf, m`pf, m`availableSize, m`history, m`maxUsedSize, m.cells
    ensures InStepWith(m, out', v') && old(m.history) <= m.history
    ensures if r == M.NULL then v' == v else Gained(v, v', r, size)
  {
    hide M.MemHeap.Shape, M.Tailed, M.Matches, FreeData, Coalesced, M.FirstListed, Shows, DataKept, Tiles, M.Need,
         M.Refused, M.Granted, UsedBlocks, Highest;
    m.TilesOf();
    ghost var h := m.cells[..];
    ghost var i, k;
    r, i, k := m.Alloc(size);
    if r == M.NULL {
      return r, out, v;
    }
    AllocShowsWith(m, old(m.bs), old(m.fl), h, M.Need(size), i, k, v);
    out', v' := out + {r}, v[r := Bytes(M.RT_MEMHEAP_SIZE, m.cells[..], M.Granted(old(m.bs)[i], M.Need(size)))];
  }

  method DoFreeWith(m: M.MemHeap, a: int, out: set<int>, ghost v: View) returns (out': set<int>, ghost v': View)
    requires InStepWith(m, out, v)
    modifies m`bs, m`fl, m`mg, m`nx, m`pv, m`nf, m`pf, m`availableSize, m`history, m.cells
    ensures InStepWith(m, out', v') && old(m.history) <= m.history
    ensures v' == v - {a}
  {
    hide M.MemHeap.Shape, M.Tailed, M.Matches, FreeData, Coalesced, Shows, DataKept, UsedBlocks, Highest;
    out', v' := out - {a}, v - {a};
    if a in out {
      ghost var h, u := m.cells[..], Held(m);
      ghost var i := HolderOf(m, out, v, a);
      m.Free(a);
      KeptLess(M.RT_MEMHEAP_SIZE, h, m.cells[..], UsedBlocks(m.bs), Held(m));
      assert Held(m) == set b | b in u && Place(M.RT_MEMHEAP_SIZE, b) != a;
      Taken(M.RT_MEMHEAP_SIZE, M.RT_MEMHEAP_SIZE, h, m.cells[..], u, Held(m), v, a);
    } else {
      assert v' == v && out' == out;
    }
  }

  method DoStoreWith(m: M.MemHeap, a: int, k: nat, x: int, out: set<int>, ghost v: View) returns (ghost v': View)
    requires InStepWith(m, out, v)
    modifies m.cells
    ensures InStepWith(m, out, v')
    ensures v' == if a in v && k < |v[a]| then v[a := v[a][k := x]] else v
  {
    hide M.MemHeap.Shape, M.Tailed, M.Matches, FreeData, Coalesced, Shows, DataKept, UsedBlocks, Highest;
    v' := v;
    if a in out {
      ghost var h := m.cells[..];
      ghost var i := HolderOf(m, out, v, a);
      m.TilesOf();
      m.At(i);
      var size := m.ItemSize(a - M.RT_MEMHEAP_SIZE);
      if k < size {
        ghost var b := m.bs[i];
        m.Store(a + k, x, b);
        KeptLess(M.RT_MEMHEAP_SIZE, h, m.cells[..], UsedBlocks(m.bs) - {b}, Held(m) - {b});
        Written(M.RT_MEMHEAP_SIZE, M.RT_MEMHEAP_SIZE, h, m.cells[..], Held(m), b, v, k, x);
        v' := v[a := v[a][k := x]];
      }
    }
  }

  method ResizeWith(m: M.MemHeap, a: int, size: Word, out: set<int>, ghost v: View)
    returns (r: int, out': set<int>, ghost v': View)
    requires InStepWith(m, out, v)
    modifies m`bs, m`fl, m`mg, m`nx, m`pv, m`nf, m`pf, m`availableSize, m`history, m`maxUsedSize, m.cells
    ensures InStepWith(m, out', v') && Serves(M.NULL, WORD_LIMIT - 1, Realloc(a, size), r, v, v')
    ensures old(m.history) <= m.history
  {
    r, out', v' := M.NULL, out, v;
    if a == M.NULL {
      r, out', v' := ResizeNullWith(m, size, out, v);
    } else if a in out {
      var right := TestIsRight(m, a, size, out, v);
      if right {
        r, out', v' := ResizeBlockWith(m, a, size, out, v);
      }
    }
  }

  /** Whether the growth test of a resize does not wrap or is not reached. */
  method TestIsRight(m: M.MemHeap, a: int, size: Word, out: set<int>, ghost v: View) returns (right: bool)
    requires InStepWith(m, out, v) && a in out
    ensures m.Allotted(a)
    ensures right <==> size == 0 || M.Need(size) + M.MINIALLOC < WORD_LIMIT || !M.FreeBehind(m.bs, m.BlockAt(a))
  {
    hide M.MemHeap.Shape, M.Tailed, M.Matches, FreeData, Coalesced, Shows, UsedBlocks, Highest, M.Need, Held,
         M.MemHeap.Held, M.MemHeap.Allotted, M.FreeBehind, Tiles, M.MemHeap.Recorded, NoneTiny, AllAligned;
    ghost var i := HolderOf(m, out, v, a);
    m.TilesOf();
    m.At(i);
    m.At(i + 1);
    M.BehindIs(m.bs, m.poolSize, i);
    var next := m.Next(a - M.RT_MEMHEAP_SIZE);
    var used := m.IsUsed(next);
    right := size == 0 || M.Need(size) + M.MINIALLOC < WORD_LIMIT || used;
  }

  method ResizeNullWith(m: M.MemHeap, size: Word, out: set<int>, ghost v: View)
    returns (r: int, out': set<int>, ghost v': View)
    requires InStepWith(m, out, v)
    modifies m`bs, m`fl, m`mg, m`nx, m`pv, m`nf, m`pf, m`availableSize, m`history, m`maxUsedSize, m.cells
    ensures InStepWith(m, out', v') && old(m.history) <= m.history
    ensures if r == M.NULL then v' == v else Gained(v, v', r, size)
  {
    hide M.MemHeap.Shape, M.Tailed, M.Matches, FreeData, Coalesced, M.FirstListed, Shows, DataKept, Tiles, M.Need,
         M.Refused, M.Granted, UsedBlocks, Highest;
    m.TilesOf();
    ghost var h := m.cells[..];
    ghost var i, k;
    r, i, k := m.Realloc(M.NULL, size);
    if r == M.NULL {
      return r, out, v;
    }
    assert old(UsedBlocks(m.bs)) * UsedBlocks(m.bs) == old(UsedBlocks(m.bs));
    AllocShowsWith(m, old(m.bs), old(m.fl), h, M.Need(size), i, k, v);
    out', v' := out + {r}, v[r := Bytes(M.RT_MEMHEAP_SIZE, m.cells[..], M.Granted(old(m.bs)[i], M.Need(size)))];
  }

  method ResizeBlockWith(m: M.MemHeap, a: int, size: Word, out: set<int>, ghost v: View)
    returns (r: int, out': set<int>, ghost v': View)
    requires InStepWith(m, out, v) && a in out && a != M.NULL && m.Allotted(a)
    requires size == 0 || M.Need(size) + M.MINIALLOC < WORD_LIMIT || !M.FreeBehind(m.bs, m.BlockAt(a))
    modifies m`bs, m`fl, m`mg, m`nx, m`pv, m`nf, m`pf, m`availableSize, m`history, m`maxUsedSize, m.cells
    ensures InStepWith(m, out', v') && Serves(M.NULL, WORD_LIMIT - 1, Realloc(a, size), r, v, v')
    ensures old(m.history) <= m.history
  {
    hide M.MemHeap.Shape, M.MemHeap.Held, M.MemHeap.Allotted, Tiles, M.Tailed, M.Matches, FreeData, Coalesced,
         UsedBlocks, Shows, M.Need, DataKept, Highest, M.FreeBehind, M.Exchanged, Carried;
    ghost var h, u, all, bs := m.cells[..], Held(m), UsedBlocks(m.bs), m.bs;
    ghost var j := HolderOf(m, out, v, a);
    ghost var b := m.bs[j];
    m.TilesOf();
    ghost var i, k;
    r, i, k := m.Realloc(a, size);
    if size == 0 {
      assert Held(m) == set x | x in u && Place(M.RT_MEMHEAP_SIZE, x) != a;
      KeptLess(M.RT_MEMHEAP_SIZE, h, m.cells[..], all * UsedBlocks(m.bs), Held(m));
      Taken(M.RT_MEMHEAP_SIZE, M.RT_MEMHEAP_SIZE, h, m.cells[..], u, Held(m), v, a);
      out', v' := out - {a}, v - {a};
    } else if r == M.NULL {
      out', v' := out, v;
    } else {
      ghost var g, len := Exchanged(m, bs, old(m.fl), u, h, b, M.Need(size), r, i, k);
      KeptLess(M.RT_MEMHEAP_SIZE, h, m.cells[..], all * UsedBlocks(m.bs), u - {b});
      ExchangeShows(m, h, u, b, g, v, len, size);
      out', v' := out - {a} + {r}, (v - {a})[r := Bytes(M.RT_MEMHEAP_SIZE, m.cells[..], g)];
    }
  }

  /** The block that `b` was exchanged for, and how many bytes they share. */
  lemma Exchanged(m: M.MemHeap, bs: seq<Block>, fl: seq<int>, u: set<Block>, h: seq<int>, b: Block, n: Word,
                  r: int, i: int, k: int) returns (g: Block, len: nat)
    requires m.Valid() && Tiles(M.RT_MEMHEAP_SIZE, bs, 0, m.poolSize) && M.Tailed(bs, m.poolSize)
    requires u == UsedBlocks(bs) - {Tail(m)} && b in u && b.start != Tail(m).start
    requires u - {b} == set x | x in u && x.start != b.start
    requires M.Exchanged(bs, m.bs, fl, b, n, r, i, k) && r != M.NULL
    requires b.next <= |h| == |m.cells[..]| && Data(M.RT_MEMHEAP_SIZE, b) >= 0
    requires Carried(h, m.cells[..], b.start + M.RT_MEMHEAP_SIZE, r, Least(Data(M.RT_MEMHEAP_SIZE, b), n))
    requires DataKept(M.RT_MEMHEAP_SIZE, h, m.cells[..], UsedBlocks(bs) * UsedBlocks(m.bs))
    ensures Held(m) == u - {b} + {g} && r == Place(M.RT_MEMHEAP_SIZE, g)
    ensures g.start + M.RT_MEMHEAP_SIZE <= g.next <= |m.cells[..]| && Data(M.RT_MEMHEAP_SIZE, g) >= n
    ensures forall x :: x in u - {b} ==> x.start != g.start
    ensures len <= Data(M.RT_MEMHEAP_SIZE, b) && len <= Data(M.RT_MEMHEAP_SIZE, g)
    ensures len == Data(M.RT_MEMHEAP_SIZE, b) || len == Data(M.RT_MEMHEAP_SIZE, g)
    ensures Carried(h, m.cells[..], b.start + M.RT_MEMHEAP_SIZE, g.start + M.RT_MEMHEAP_SIZE, len)
  {
    hide M.MemHeap.Shape, M.MemHeap.Held, M.MemHeap.Allotted, Tiles, M.Tailed, M.Matches, FreeData, Coalesced,
         UsedBlocks, M.Granted, M.FirstListed, M.Refused, DataKept, M.RoomBehind, Carried, Highest;
    m.TilesOf();
    len := Least(Data(M.RT_MEMHEAP_SIZE, b), n);
    if M.Kept(b, n) {
      g, len := b, Data(M.RT_MEMHEAP_SIZE, b);
      assert u - {b} + {b} == u;
      assert b in UsedBlocks(bs) * UsedBlocks(m.bs);
      KeptOne(M.RT_MEMHEAP_SIZE, h, m.cells[..], UsedBlocks(bs) * UsedBlocks(m.bs), b);
      M.CarriedSame(h, m.cells[..], r, len);
    } else if M.StaysPut(bs, b, n) {
      g := Block(b.start, b.start + M.RT_MEMHEAP_SIZE + n, true);
      InPool(m.bs, m.poolSize, g);
      assert Held(m) == u - {b} + {g};
    } else {
      M.GrantedIs(bs, fl, n, i, k);
      g := M.Granted(bs[i], n);
      NewAndApart(M.RT_MEMHEAP_SIZE, bs, m.bs, m.poolSize, i, g);
      NotTail(bs, m.poolSize, i, g);
      assert Held(m) == u - {b} + {g};
    }
  }

  lemma InPool(bs: seq<Block>, pool: nat, g: Block)
    requires Tiles(M.RT_MEMHEAP_SIZE, bs, 0, pool) && g in UsedBlocks(bs)
    ensures g.start + M.RT_MEMHEAP_SIZE <= g.next <= pool
  {
    Ordered(M.RT_MEMHEAP_SIZE, bs, 0, pool);
  }

  lemma ExchangeShows(m: M.MemHeap, h: seq<int>, u: set<Block>, b: Block, g: Block, v: View, len: nat, size: Word)
    requires m.Valid() && NoneTiny(v) && Shows(M.RT_MEMHEAP_SIZE, M.RT_MEMHEAP_SIZE, h, u, v) && b in u
    requires u - {b} == (set x | x in u && x.start != b.start) && Held(m) == u - {b} + {g}
    requires forall x :: x in u - {b} ==> x.start != g.start
    requires g.start + M.RT_MEMHEAP_SIZE <= g.next <= |m.cells[..]|
    requires len <= Data(M.RT_MEMHEAP_SIZE, b) && M.Need(size) <= Data(M.RT_MEMHEAP_SIZE, g)
    requires len == Data(M.RT_MEMHEAP_SIZE, b) || len == Data(M.RT_MEMHEAP_SIZE, g)
    requires len <= Data(M.RT_MEMHEAP_SIZE, g)
    requires Carried(h, m.cells[..], b.start + M.RT_MEMHEAP_SIZE, g.start + M.RT_MEMHEAP_SIZE, len)
    requires DataKept(M.RT_MEMHEAP_SIZE, h, m.cells[..], u - {b}) && size > 0
    ensures var a, r := Place(M.RT_MEMHEAP_SIZE, b), Place(M.RT_MEMHEAP_SIZE, g);
            var v' := (v - {a})[r := Bytes(M.RT_MEMHEAP_SIZE, m.cells[..], g)];
            InStepWith(m, v'.Keys, v') && Serves(M.NULL, WORD_LIMIT - 1, Realloc(a, size), r, v, v')
  {
    hide M.MemHeap.Shape, M.MemHeap.Valid, UsedBlocks, Shows, M.Need, DataKept, Carried, SamePrefix, Held;
    Swapped(M.RT_MEMHEAP_SIZE, M.RT_MEMHEAP_SIZE, h, m.cells[..], u, b, g, v, len);
    NeedIsEnough(size);
    var a := Place(M.RT_MEMHEAP_SIZE, b);
    PrefixLess(v[a], Bytes(M.RT_MEMHEAP_SIZE, m.cells[..], g), len, size);
  }

  lemma NeedIsEnough(size: Word)
    ensures size <= WORD_LIMIT - 4 ==> M.Need(size) >= size
    ensures size > WORD_LIMIT - 4 ==> M.Need(size) == M.MINIALLOC
  {
  }
}
