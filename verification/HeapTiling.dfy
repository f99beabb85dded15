/** The specification both kernel heaps refine: a pool of `hi` bytes is cut, without gaps
    or overlaps, into blocks; every block starts with a header of `hdr` bytes and is either
    used or free.  A tiling with no two free neighbours is determined by its used blocks
    alone (see `Canonical`), so the operations of a heap can be specified by what they do
    to the set of used blocks. */
module HeapTiling {

  datatype Block = Block(start: nat, next: nat, used: bool)

  /** Bytes of a block that the caller may use. */
  function Data(hdr: nat, b: Block): int {
    b.next - b.start - hdr
  }

  /** `bs` covers [lo, hi) in address order, and headers fit. */
  ghost predicate Tiles(hdr: nat, bs: seq<Block>, lo: nat, hi: nat) {
    && 0 < hdr
    && (|bs| == 0 ==> lo == hi)
    && (|bs| > 0 ==> bs[0].start == lo && bs[|bs| - 1].next == hi)
    && (forall i :: 0 <= i < |bs| ==> bs[i].start + hdr <= bs[i].next)
    && (forall i :: 0 <= i < |bs| - 1 ==> Meet(bs, i))
  }

  predicate Aligned(a: int) {
    a % 4 == 0
  }

  ghost predicate AllAligned(bs: seq<Block>) {
    forall i :: 0 <= i < |bs| ==> Aligned(bs[i].start)
  }

  lemma AlignedSum(a: int, b: int)
    requires Aligned(a) && Aligned(b)
    ensures Aligned(a + b) && Aligned(a - b) && Aligned(a + b + 12) && Aligned(a + b + 24)
  {
    var i, j := a / 4, b / 4;
    assert a + b == 4 * (i + j) && a - b == 4 * (i - j);
  }

  /** Block `i` ends where the next one starts. */
  ghost predicate Meet(bs: seq<Block>, i: int)
    requires 0 <= i < |bs| - 1
  {
    bs[i].next == bs[i + 1].start
  }

  /** Block `i` and the next one are not both free. */
  ghost predicate OneUsed(bs: seq<Block>, i: int)
    requires 0 <= i < |bs| - 1
  {
    bs[i].used || bs[i + 1].used
  }

  /** No two neighbours are both free. */
  ghost predicate Coalesced(bs: seq<Block>) {
    forall i :: 0 <= i < |bs| - 1 ==> OneUsed(bs, i)
  }

  ghost function UsedBlocks(bs: seq<Block>): set<Block> {
    set b | b in bs && b.used
  }

  ghost predicate Proper(bs: seq<Block>) {
    forall i :: 0 <= i < |bs| ==> bs[i].start <= bs[i].next
  }

  /** Bytes, headers included, that belong to used blocks. */
  ghost function UsedSpan(bs: seq<Block>): nat
    requires Proper(bs)
  {
    if |bs| == 0 then 0
    else UsedSpan(bs[..|bs| - 1]) + if bs[|bs| - 1].used then bs[|bs| - 1].next - bs[|bs| - 1].start else 0
  }

  /** Bytes of data in free blocks. */
  ghost function FreeData(hdr: nat, bs: seq<Block>): int {
    if |bs| == 0 then 0
    else FreeData(hdr, bs[..|bs| - 1]) + if bs[|bs| - 1].used then 0 else Data(hdr, bs[|bs| - 1])
  }

  /** `lf` is the start of the lowest free block, or `hi` when every block is used. */
  ghost predicate LowestFree(bs: seq<Block>, hi: nat, lf: nat) {
    && (forall i :: 0 <= i < |bs| && bs[i].start < lf ==> bs[i].used)
    && (lf == hi || exists i :: 0 <= i < |bs| && bs[i].start == lf && !bs[i].used)
  }

  ghost predicate Fits(hdr: nat, b: Block, need: nat) {
    !b.used && Data(hdr, b) >= need
  }

  // ----- what a request gets -----

  /** The used blocks grew by one, which starts at `start`, holds `need` bytes and wastes less than a
      smallest block, one with `least` bytes. */
  ghost predicate Served(hdr: nat, least: nat, u: set<Block>, u': set<Block>, start: nat, need: nat) {
    exists g: Block ::
      && g in u' && g !in u && u' == u + {g} && g.start == start
      && need <= Data(hdr, g) < need + hdr + least
  }

  /** Bytes that go into use, header included, with a block for `need` bytes out of one with `data` bytes. */
  ghost predicate Counted(hdr: nat, least: nat, more: int, need: nat, data: int) {
    && hdr + need <= more < need + 2 * hdr + least
    && (data >= need + hdr + least ==> more == hdr + need)
    && (data < need + hdr + least ==> more == hdr + data)
  }

  lemma IsServed(hdr: nat, least: nat, u: set<Block>, u': set<Block>, g: Block, need: nat)
    requires g !in u && u' == u + {g} && need <= Data(hdr, g) < need + hdr + least
    ensures Served(hdr, least, u, u', g.start, need)
  {
    assert g in u';
  }

  /** A used block does not start where a free one does. */
  lemma StartsApart(hdr: nat, bs: seq<Block>, hi: nat, i: nat, g: Block)
    requires Tiles(hdr, bs, 0, hi) && i < |bs| && !bs[i].used && g.start == bs[i].start
    ensures g !in UsedBlocks(bs)
  {
    forall b | b in UsedBlocks(bs) ensures b.start != g.start {
      var j :| 0 <= j < |bs| && bs[j] == b;
      if b.start == g.start { SameStart(hdr, bs, 0, hi, i, j); }
    }
  }

  // ----- order -----

  lemma TailTiles(hdr: nat, bs: seq<Block>, lo: nat, hi: nat)
    requires Tiles(hdr, bs, lo, hi) && |bs| > 0
    ensures Tiles(hdr, bs[1..], bs[0].next, hi)
  {
    if |bs| > 1 { assert Meet(bs, 0); }
    forall i | 0 <= i < |bs[1..]| - 1 ensures Meet(bs[1..], i) {
      assert Meet(bs, i + 1);
    }
  }

  lemma {:induction false} Ordered(hdr: nat, bs: seq<Block>, lo: nat, hi: nat)
    requires Tiles(hdr, bs, lo, hi)
    ensures forall i, j :: 0 <= i < j < |bs| ==> bs[i].next <= bs[j].start
    ensures forall i :: 0 <= i < |bs| ==> lo <= bs[i].start && bs[i].next <= hi
    ensures lo <= hi
  {
    if |bs| == 0 {
    } else {
      var rest := bs[1..];
      assert forall i :: 0 <= i < |rest| ==> rest[i] == bs[i + 1];
      TailTiles(hdr, bs, lo, hi);
      Ordered(hdr, rest, bs[0].next, hi);
      forall i, j | 0 <= i < j < |bs| ensures bs[i].next <= bs[j].start {
        assert bs[j] == rest[j - 1];
        if i > 0 { assert bs[i] == rest[i - 1]; }
      }
      forall i | 0 <= i < |bs| ensures lo <= bs[i].start && bs[i].next <= hi {
        if i > 0 { assert bs[i] == rest[i - 1]; }
      }
    }
  }

  /** A block is found again by its start. */
  lemma SameStart(hdr: nat, bs: seq<Block>, lo: nat, hi: nat, i: nat, j: nat)
    requires Tiles(hdr, bs, lo, hi) && i < |bs| && j < |bs| && bs[i].start == bs[j].start
    ensures i == j
  {
    Ordered(hdr, bs, lo, hi);
  }

  // ----- canonicity -----

  lemma UsedTail(hdr: nat, bs: seq<Block>, lo: nat, hi: nat)
    requires Tiles(hdr, bs, lo, hi) && |bs| > 0
    ensures Tiles(hdr, bs[1..], bs[0].next, hi)
    ensures Coalesced(bs) ==> Coalesced(bs[1..])
    ensures UsedBlocks(bs[1..]) == UsedBlocks(bs) - {bs[0]}
  {
    Ordered(hdr, bs, lo, hi);
    TailTiles(hdr, bs, lo, hi);
    forall i | 0 <= i < |bs[1..]| - 1 && Coalesced(bs) ensures OneUsed(bs[1..], i) {
      assert OneUsed(bs, i + 1);
    }
    forall b ensures b in UsedBlocks(bs[1..]) <==> b in UsedBlocks(bs) - {bs[0]} {
      if b in bs && b != bs[0] {
        var j :| 0 <= j < |bs| && bs[j] == b;
        assert bs[1..][j - 1] == b;
      }
    }
  }

  /** If the first blocks of two canonical tilings differ, a used block tells them apart. */
  lemma FirstBlockAgrees(hdr: nat, a: seq<Block>, b: seq<Block>, lo: nat, hi: nat)
    requires Tiles(hdr, a, lo, hi) && Tiles(hdr, b, lo, hi) && Coalesced(a)
    requires UsedBlocks(a) <= UsedBlocks(b)
    requires |a| > 0 && |b| > 0
    ensures a[0].used ==> a[0] == b[0]
    ensures !a[0].used && !b[0].used ==> b[0].next <= a[0].next
  {
    Ordered(hdr, a, lo, hi);
    Ordered(hdr, b, lo, hi);
    if a[0].used {
      assert a[0] in UsedBlocks(a);
      var j :| 0 <= j < |b| && b[j] == a[0];
    } else if |a| > 1 && !b[0].used {
      assert OneUsed(a, 0) && Meet(a, 0);
      assert a[1] in UsedBlocks(a);
      var j :| 0 <= j < |b| && b[j] == a[1];
      assert Meet(a, 0);
    }
  }

  /** A coalesced tiling is determined by its used blocks. */
  lemma {:induction false} Canonical(hdr: nat, a: seq<Block>, b: seq<Block>, lo: nat, hi: nat)
    requires Tiles(hdr, a, lo, hi) && Tiles(hdr, b, lo, hi)
    requires Coalesced(a) && Coalesced(b)
    requires UsedBlocks(a) == UsedBlocks(b)
    ensures a == b
    decreases |a|
  {
    if |a| == 0 || |b| == 0 {
      if |a| > 0 { Ordered(hdr, a, lo, hi); }
      if |b| > 0 { Ordered(hdr, b, lo, hi); }
    } else {
      FirstBlockAgrees(hdr, a, b, lo, hi);
      FirstBlockAgrees(hdr, b, a, lo, hi);
      assert a[0] == b[0];
      UsedTail(hdr, a, lo, hi);
      UsedTail(hdr, b, lo, hi);
      Canonical(hdr, a[1..], b[1..], a[0].next, hi);
      assert a == [a[0]] + a[1..] && b == [b[0]] + b[1..];
    }
  }

  /** Once every block has been given back, in whatever order, the pool is one free block again. */
  lemma AllFreedRestores(hdr: nat, bs: seq<Block>, hi: nat)
    requires Tiles(hdr, bs, 0, hi) && Coalesced(bs) && |bs| > 0
    requires UsedBlocks(bs) == {}
    ensures bs == [Block(0, hi, false)]
  {
    Ordered(hdr, bs, 0, hi);
    Canonical(hdr, bs, [Block(0, hi, false)], 0, hi);
  }

  // ----- the three edits of a tiling -----

  function Split(bs: seq<Block>, i: nat, mid: nat, first: bool): seq<Block>
    requires i < |bs|
  {
    bs[..i] + [Block(bs[i].start, mid, first), Block(mid, bs[i].next, false)] + bs[i + 1..]
  }

  function Mark(bs: seq<Block>, i: nat, used: bool): seq<Block>
    requires i < |bs|
  {
    bs[i := bs[i].(used := used)]
  }

  function Join(bs: seq<Block>, i: nat): seq<Block>
    requires i + 1 < |bs|
  {
    bs[..i] + [Block(bs[i].start, bs[i + 1].next, bs[i].used)] + bs[i + 2..]
  }

  ghost function Weight(b: Block): nat
    requires b.start <= b.next
  {
    if b.used then b.next - b.start else 0
  }

  lemma {:induction false} SpanConcat(a: seq<Block>, b: seq<Block>)
    requires Proper(a) && Proper(b)
    ensures UsedSpan(a + b) == UsedSpan(a) + UsedSpan(b)
    decreases |b|
  {
    if |b| == 0 {
      assert a + b == a;
    } else {
      SpanConcat(a, b[..|b| - 1]);
      assert (a + b)[..|a + b| - 1] == a + b[..|b| - 1];
    }
  }

  lemma {:induction false} FreeConcat(hdr: nat, a: seq<Block>, b: seq<Block>)
    ensures FreeData(hdr, a + b) == FreeData(hdr, a) + FreeData(hdr, b)
    decreases |b|
  {
    if |b| == 0 {
      assert a + b == a;
    } else {
      FreeConcat(hdr, a, b[..|b| - 1]);
      assert (a + b)[..|a + b| - 1] == a + b[..|b| - 1];
    }
  }

  lemma UsedConcat(a: seq<Block>, b: seq<Block>)
    ensures UsedBlocks(a + b) == UsedBlocks(a) + UsedBlocks(b)
  {
  }

  lemma SumsOfThree(hdr: nat, pre: seq<Block>, m: seq<Block>, post: seq<Block>)
    requires Proper(pre) && Proper(m) && Proper(post)
    ensures Proper(pre + m + post)
    ensures UsedSpan(pre + m + post) == UsedSpan(pre) + UsedSpan(m) + UsedSpan(post)
    ensures FreeData(hdr, pre + m + post) == FreeData(hdr, pre) + FreeData(hdr, m) + FreeData(hdr, post)
    ensures UsedBlocks(pre + m + post) == UsedBlocks(pre) + UsedBlocks(m) + UsedBlocks(post)
  {
    SpanConcat(pre, m); SpanConcat(pre + m, post);
    FreeConcat(hdr, pre, m); FreeConcat(hdr, pre + m, post);
    UsedConcat(pre, m); UsedConcat(pre + m, post);
  }

  lemma TilesAppend(hdr: nat, a: seq<Block>, b: seq<Block>, lo: nat, mid: nat, hi: nat)
    requires Tiles(hdr, a, lo, mid) && Tiles(hdr, b, mid, hi)
    ensures Tiles(hdr, a + b, lo, hi)
  {
    var r := a + b;
    forall k | 0 <= k < |r| - 1 ensures Meet(r, k) {
      if k >= |a| {
        assert Meet(b, k - |a|);
      } else if k + 1 < |a| {
        assert Meet(a, k);
      }
    }
  }

  lemma TilesDivide(hdr: nat, a: seq<Block>, b: seq<Block>, lo: nat, hi: nat) returns (mid: nat)
    requires Tiles(hdr, a + b, lo, hi)
    ensures Tiles(hdr, a, lo, mid) && Tiles(hdr, b, mid, hi)
  {
    var r := a + b;
    assert forall k :: 0 <= k < |a| ==> r[k] == a[k];
    assert forall k :: 0 <= k < |b| ==> r[|a| + k] == b[k];
    mid := if |b| > 0 then b[0].start else hi;
    forall k | 0 <= k < |a| - 1 ensures Meet(a, k) {
      assert Meet(r, k);
    }
    forall k | 0 <= k < |b| - 1 ensures Meet(b, k) {
      assert Meet(r, |a| + k);
    }
    if |a| > 0 && |b| > 0 {
      assert Meet(r, |a| - 1);
    }
  }

  /** Blocks of adjacent stretches are different. */
  lemma Apart(hdr: nat, a: seq<Block>, b: seq<Block>, lo: nat, mid: nat, hi: nat)
    requires Tiles(hdr, a, lo, mid) && Tiles(hdr, b, mid, hi)
    ensures UsedBlocks(a) !! UsedBlocks(b)
  {
    Ordered(hdr, a, lo, mid);
    Ordered(hdr, b, mid, hi);
    forall x | x in UsedBlocks(a) ensures x !in b {
      var j :| 0 <= j < |a| && a[j] == x;
      assert x.start < mid;
    }
  }

  /** All a heap needs to know about exchanging a section. */
  lemma Replace(hdr: nat, pre: seq<Block>, m: seq<Block>, m': seq<Block>, post: seq<Block>, hi: nat)
    requires |m| > 0 && |m'| > 0
    requires Tiles(hdr, pre + m + post, 0, hi)
    requires Tiles(hdr, m', m[0].start, m[|m| - 1].next)
    ensures Tiles(hdr, pre + m' + post, 0, hi)
    ensures Proper(m) && Proper(m')
    ensures UsedSpan(pre + m' + post) - UsedSpan(m') == UsedSpan(pre + m + post) - UsedSpan(m)
    ensures FreeData(hdr, pre + m' + post) - FreeData(hdr, m') == FreeData(hdr, pre + m + post) - FreeData(hdr, m)
    ensures UsedBlocks(pre + m' + post) == UsedBlocks(pre + m + post) - UsedBlocks(m) + UsedBlocks(m')
  {
    var y := TilesDivide(hdr, pre + m, post, 0, hi);
    var x := TilesDivide(hdr, pre, m, 0, y);
    TilesAppend(hdr, pre, m', 0, x, y);
    TilesAppend(hdr, pre + m', post, 0, y, hi);
    Apart(hdr, pre, m, 0, x, y);
    Apart(hdr, m, post, x, y, hi);
    SumsOfThree(hdr, pre, m, post);
    SumsOfThree(hdr, pre, m', post);
  }

  lemma SumsOfOne(hdr: nat, b: Block)
    requires b.start <= b.next
    ensures UsedSpan([b]) == Weight(b)
    ensures FreeData(hdr, [b]) == if b.used then 0 else Data(hdr, b)
    ensures UsedBlocks([b]) == if b.used then {b} else {}
  {
    assert [b][..0] == [];
  }

  lemma SumsOfTwo(hdr: nat, b: Block, c: Block)
    requires b.start <= b.next && c.start <= c.next
    ensures UsedSpan([b, c]) == Weight(b) + Weight(c)
    ensures FreeData(hdr, [b, c]) == (if b.used then 0 else Data(hdr, b)) + if c.used then 0 else Data(hdr, c)
    ensures UsedBlocks([b, c]) == (if b.used then {b} else {}) + if c.used then {c} else {}
  {
    assert [b, c][..1] == [b];
    SumsOfOne(hdr, b);
  }

  lemma SplitFacts(hdr: nat, bs: seq<Block>, hi: nat, i: nat, mid: nat, first: bool)
    requires Tiles(hdr, bs, 0, hi) && i < |bs|
    requires bs[i].start + hdr <= mid && mid + hdr <= bs[i].next
    ensures Tiles(hdr, Split(bs, i, mid, first), 0, hi)
    ensures UsedSpan(Split(bs, i, mid, first)) == UsedSpan(bs) - Weight(bs[i]) + Weight(Block(bs[i].start, mid, first))
    ensures FreeData(hdr, Split(bs, i, mid, first)) == FreeData(hdr, bs) - (if bs[i].used then 0 else Data(hdr, bs[i]))
              + (if first then 0 else mid - bs[i].start - hdr) + (bs[i].next - mid - hdr)
    ensures UsedBlocks(Split(bs, i, mid, first)) ==
            UsedBlocks(bs) - {bs[i]} + (if first then {Block(bs[i].start, mid, true)} else {})
  {
    hide UsedSpan, FreeData;
    var a, c := Block(bs[i].start, mid, first), Block(mid, bs[i].next, false);
    assert bs == bs[..i] + [bs[i]] + bs[i + 1..];
    assert Split(bs, i, mid, first) == bs[..i] + [a, c] + bs[i + 1..];
    Replace(hdr, bs[..i], [bs[i]], [a, c], bs[i + 1..], hi);
    SumsOfOne(hdr, bs[i]);
    SumsOfTwo(hdr, a, c);
  }

  lemma SplitCoalesced(bs: seq<Block>, i: nat, mid: nat)
    requires i < |bs| && !bs[i].used && Coalesced(bs)
    ensures Coalesced(Split(bs, i, mid, true))
  {
    var r := Split(bs, i, mid, true);
    assert forall k :: 0 <= k < i ==> r[k] == bs[k];
    assert forall k :: i + 2 <= k < |r| ==> r[k] == bs[k - 1];
    forall k | 0 <= k < |r| - 1 ensures OneUsed(r, k) {
      if k < i - 1 {
        assert OneUsed(bs, k);
      } else if k > i {
        assert OneUsed(bs, k - 1);
      }
    }
  }

  lemma MarkFacts(hdr: nat, bs: seq<Block>, hi: nat, i: nat, used: bool)
    requires Tiles(hdr, bs, 0, hi) && i < |bs|
    ensures Tiles(hdr, Mark(bs, i, used), 0, hi)
    ensures UsedSpan(Mark(bs, i, used)) == UsedSpan(bs) - Weight(bs[i]) + if used then bs[i].next - bs[i].start else 0
    ensures FreeData(hdr, Mark(bs, i, used)) == FreeData(hdr, bs)
              - (if bs[i].used then 0 else Data(hdr, bs[i])) + (if used then 0 else Data(hdr, bs[i]))
    ensures UsedBlocks(Mark(bs, i, used)) == UsedBlocks(bs) - {bs[i]} + if used then {bs[i].(used := true)} else {}
  {
    hide UsedSpan, FreeData;
    var a := bs[i].(used := used);
    assert bs == bs[..i] + [bs[i]] + bs[i + 1..];
    assert Mark(bs, i, used) == bs[..i] + [a] + bs[i + 1..];
    Replace(hdr, bs[..i], [bs[i]], [a], bs[i + 1..], hi);
    SumsOfOne(hdr, bs[i]);
    SumsOfOne(hdr, a);
  }

  lemma MarkCoalesced(bs: seq<Block>, i: nat)
    requires i < |bs| && Coalesced(bs)
    ensures Coalesced(Mark(bs, i, true))
  {
    var r := Mark(bs, i, true);
    forall k | 0 <= k < |r| - 1 ensures OneUsed(r, k) {
      assert OneUsed(bs, k);
    }
  }

  lemma JoinFacts(hdr: nat, bs: seq<Block>, hi: nat, i: nat)
    requires Tiles(hdr, bs, 0, hi) && i + 1 < |bs| && !bs[i].used && !bs[i + 1].used
    ensures Tiles(hdr, Join(bs, i), 0, hi)
    ensures UsedSpan(Join(bs, i)) == UsedSpan(bs)
    ensures FreeData(hdr, Join(bs, i)) == FreeData(hdr, bs) + hdr
    ensures UsedBlocks(Join(bs, i)) == UsedBlocks(bs)
  {
    hide UsedSpan, FreeData, UsedBlocks;
    var a := Block(bs[i].start, bs[i + 1].next, false);
    assert Meet(bs, i);
    assert bs == bs[..i] + [bs[i], bs[i + 1]] + bs[i + 2..];
    assert Join(bs, i) == bs[..i] + [a] + bs[i + 2..];
    Replace(hdr, bs[..i], [bs[i], bs[i + 1]], [a], bs[i + 2..], hi);
    SumsOfTwo(hdr, bs[i], bs[i + 1]);
    SumsOfOne(hdr, a);
  }

  /** A used block takes in its free right neighbour. */
  lemma ExtendFacts(hdr: nat, bs: seq<Block>, hi: nat, i: nat)
    requires Tiles(hdr, bs, 0, hi) && i + 1 < |bs| && bs[i].used && !bs[i + 1].used
    ensures Tiles(hdr, Join(bs, i), 0, hi)
    ensures FreeData(hdr, Join(bs, i)) == FreeData(hdr, bs) - Data(hdr, bs[i + 1])
    ensures UsedBlocks(Join(bs, i)) == UsedBlocks(bs) - {bs[i]} + {Block(bs[i].start, bs[i + 1].next, true)}
  {
    hide UsedSpan, FreeData, UsedBlocks;
    var a := Block(bs[i].start, bs[i + 1].next, true);
    assert Meet(bs, i);
    assert bs == bs[..i] + [bs[i], bs[i + 1]] + bs[i + 2..];
    assert Join(bs, i) == bs[..i] + [a] + bs[i + 2..];
    Replace(hdr, bs[..i], [bs[i], bs[i + 1]], [a], bs[i + 2..], hi);
    SumsOfTwo(hdr, bs[i], bs[i + 1]);
    SumsOfOne(hdr, a);
  }

  /** Only the pairs in `ex` may consist of two free blocks. */
  ghost predicate CoalescedBut(bs: seq<Block>, ex: set<int>) {
    forall k :: 0 <= k < |bs| - 1 && k !in ex ==> OneUsed(bs, k)
  }

  /** Joining pair `i` mends it; the pairs in front of it are as before. */
  lemma JoinMends(bs: seq<Block>, i: nat, ex: set<int>)
    requires i + 1 < |bs| && !bs[i].used && !bs[i + 1].used
    requires CoalescedBut(bs, ex + {i}) && forall k :: k in ex ==> k < i
    ensures CoalescedBut(Join(bs, i), ex)
  {
    var r := Join(bs, i);
    forall k | 0 <= k < |r| - 1 && k !in ex ensures OneUsed(r, k) {
      if k < i { assert OneUsed(bs, k); } else { assert OneUsed(bs, k + 1); }
    }
  }

  // ----- contents of the memory -----

  ghost predicate SameBytes(h: seq<int>, h': seq<int>, lo: nat, hi: nat) {
    |h| == |h'| && forall x :: lo <= x < hi && x < |h| ==> h'[x] == h[x]
  }

  /** `n` bytes at `src` of the old memory are found at `dst` of the new one. */
  ghost predicate Carried(h: seq<int>, h': seq<int>, src: int, dst: int, n: int) {
    && 0 <= src && 0 <= dst && 0 <= n && src + n <= |h| && dst + n <= |h'|
    && h'[dst..dst + n] == h[src..src + n]
  }

  function Least(a: int, b: int): int {
    if a < b then a else b
  }

  function Max(a: int, b: int): int {
    if a < b then b else a
  }

  // ----- the largest use -----

  /** `m` is the largest value in `s`. */
  ghost predicate Highest(s: seq<int>, m: int) {
    m in s && forall i :: 0 <= i < |s| ==> s[i] <= m
  }

  lemma HighestNext(s: seq<int>, m: int, v: int)
    requires Highest(s, m)
    ensures Highest(s + [v], Max(m, v))
  {
    var r := s + [v];
    var k :| 0 <= k < |s| && s[k] == m;
    assert r[k] == m && r[|s|] == v;
  }

  /** The data of every block of `keep` reads the same in both memories. */
  ghost predicate DataKept(hdr: nat, h: seq<int>, h': seq<int>, keep: set<Block>) {
    forall b :: b in keep ==> SameBytes(h, h', b.start + hdr, b.next)
  }

  lemma KeptOne(hdr: nat, h: seq<int>, h': seq<int>, keep: set<Block>, b: Block)
    requires DataKept(hdr, h, h', keep) && b in keep
    ensures SameBytes(h, h', b.start + hdr, b.next)
  {
  }

  lemma KeptSame(hdr: nat, h: seq<int>, keep: set<Block>)
    ensures DataKept(hdr, h, h, keep)
  {
  }

  lemma KeptLess(hdr: nat, c: seq<int>, c': seq<int>, u: set<Block>, keep: set<Block>)
    requires DataKept(hdr, c, c', u) && keep <= u
    ensures DataKept(hdr, c, c', keep)
  {
  }

  lemma KeptTwice(hdr: nat, h0: seq<int>, h1: seq<int>, h2: seq<int>, keep: set<Block>, k1: set<Block>, k2: set<Block>)
    requires DataKept(hdr, h0, h1, k1) && DataKept(hdr, h1, h2, k2) && keep <= k1 && keep <= k2
    ensures DataKept(hdr, h0, h2, keep)
  {
    forall b | b in keep ensures SameBytes(h0, h2, b.start + hdr, b.next) {
      assert SameBytes(h0, h1, b.start + hdr, b.next);
      assert SameBytes(h1, h2, b.start + hdr, b.next);
    }
  }

  lemma OthersStay(hdr: nat, bs: seq<Block>, end: nat, i: nat)
    requires Tiles(hdr, bs, 0, end) && i < |bs|
    ensures UsedBlocks(bs) - {bs[i]} == set b | b in UsedBlocks(bs) && b.start != bs[i].start
  {
    forall x | x in UsedBlocks(bs) && x.start == bs[i].start ensures x == bs[i] {
      var j :| 0 <= j < |bs| && bs[j] == x;
      SameStart(hdr, bs, 0, end, i, j);
    }
  }

  /** What was copied to `g` stays while `g` is kept. */
  lemma CarriedOn(hdr: nat, h1: seq<int>, h2: seq<int>, h3: seq<int>, b: Block, g: Block, n: nat)
    requires |h1| == |h2| == |h3| && SameBytes(h2, h3, g.start + hdr, g.next)
    requires g.start + hdr + n <= g.next
    requires Carried(h1, h2, b.start + hdr, g.start + hdr, n)
    ensures Carried(h1, h3, b.start + hdr, g.start + hdr, n)
  {
    var dst := g.start + hdr;
    assert h3[dst..dst + n] == h2[dst..dst + n];
  }

  /** What is copied from `b` is what `b` held before, while `b` is kept. */
  lemma Carry(hdr: nat, h0: seq<int>, h1: seq<int>, h2: seq<int>, b: Block, g: Block, n: nat)
    requires |h0| == |h1| == |h2| && SameBytes(h0, h1, b.start + hdr, b.next)
    requires b.start + hdr + n <= b.next
    requires Carried(h1, h2, b.start + hdr, g.start + hdr, n)
    ensures Carried(h0, h2, b.start + hdr, g.start + hdr, n)
  {
    var src := b.start + hdr;
    assert h0[src..src + n] == h1[src..src + n];
  }

  /** A newly granted block is none of the used ones and overlaps none of them. */
  lemma GrantedApart(hdr: nat, bs: seq<Block>, bs': seq<Block>, hi: nat, i: nat, g: Block, b: Block)
    requires Tiles(hdr, bs, 0, hi) && Tiles(hdr, bs', 0, hi) && i < |bs| && !bs[i].used
    requires g.used && g.start == bs[i].start && UsedBlocks(bs') == UsedBlocks(bs) + {g} && b in UsedBlocks(bs)
    ensures g !in UsedBlocks(bs) && b in UsedBlocks(bs') && g in UsedBlocks(bs') && b != g
    ensures (g.next <= b.start || b.next <= g.start) && g.next <= hi && b.next <= hi
    ensures b.start + hdr <= b.next && g.start + hdr <= g.next
  {
    Ordered(hdr, bs, 0, hi);
    Ordered(hdr, bs', 0, hi);
    assert g in UsedBlocks(bs') && b in UsedBlocks(bs');
    if g in UsedBlocks(bs) {
      var j :| 0 <= j < |bs| && bs[j] == g;
      SameStart(hdr, bs, 0, hi, i, j);
      assert false;
    }
    var j :| 0 <= j < |bs'| && bs'[j] == g;
    var k :| 0 <= k < |bs'| && bs'[k] == b;
    assert j != k;
  }

  /** Allocation, copy and release together exchange `b` for `g` and carry its bytes. */
  lemma MoveConclude(hdr: nat, h0: seq<int>, h1: seq<int>, h3: seq<int>, u0: set<Block>, u1: set<Block>, u3: set<Block>,
                     b: Block, g: Block, n: nat)
    requires u1 == u0 + {g} && u3 == u1 - {b} && b in u0 && g !in u0
    requires |h0| == |h1| == |h3| && n <= Data(hdr, b)
    requires DataKept(hdr, h0, h1, u0) && DataKept(hdr, h1, h3, u1 - {b, g})
    requires Carried(h1, h3, b.start + hdr, g.start + hdr, n)
    ensures u3 == u0 - {b} + {g}
    ensures Carried(h0, h3, b.start + hdr, g.start + hdr, n)
    ensures DataKept(hdr, h0, h3, u0 * u3)
  {
    hide Carried, SameBytes, DataKept;
    KeptOne(hdr, h0, h1, u0, b);
    CarriedBounds(h1, h3, b.start + hdr, g.start + hdr, n);
    Carry(hdr, h0, h1, h3, b, g, n);
    KeptTwice(hdr, h0, h1, h3, u0 * u3, u0, u1 - {b, g});
  }

  lemma IsCarried(h: seq<int>, h': seq<int>, src: nat, dst: nat, n: nat)
    requires src + n <= |h| && dst + n <= |h'| && h'[dst..dst + n] == h[src..src + n]
    ensures Carried(h, h', src, dst, n)
  {
  }

  lemma CarriedBounds(h: seq<int>, h': seq<int>, src: int, dst: int, n: int)
    requires Carried(h, h', src, dst, n)
    ensures src + n <= |h| && dst + n <= |h'|
  {
  }
}
