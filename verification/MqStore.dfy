/** The message nodes of a queue: one array of link words and one of message buffers, threaded
    into a chain of queued messages and a chain of free nodes.  A node that is being filled or
    read out with interrupts enabled is on neither chain. */
module MqStore {
  import opened IpcList
  import SM = SmallMem

  const NIL: int := -1
  const ENTRY_MAX: nat := 0xffff
  const LINK_SIZE: nat := 4

  type Byte = b: nat | b < 256
  type Buffer = seq<Byte>

  // ----- chains -----

  ghost predicate Link(n: seq<int>, s: seq<int>, i: int)
    requires 0 <= i < |s|
  {
    0 <= s[i] < |n| && n[s[i]] == if i + 1 < |s| then s[i + 1] else NIL
  }

  /** Following the links from `first` visits `s` and ends. */
  ghost predicate Chain(n: seq<int>, first: int, s: seq<int>) {
    && first == (if s == [] then NIL else s[0])
    && forall i :: 0 <= i < |s| ==> Link(n, s, i)
  }

  lemma ChainFrame(n: seq<int>, n': seq<int>, first: int, s: seq<int>)
    requires Chain(n, first, s) && |n'| == |n|
    requires forall x :: x in s && 0 <= x < |n| ==> n'[x] == n[x]
    ensures Chain(n', first, s)
  {
    forall i | 0 <= i < |s| ensures Link(n', s, i) {
      assert Link(n, s, i) && s[i] in s;
    }
  }

  lemma ChainPush(n: seq<int>, first: int, s: seq<int>, m: int)
    requires Chain(n, first, s) && 0 <= m < |n| && m !in s
    ensures Chain(n[m := first], m, [m] + s)
  {
    var n', s' := n[m := first], [m] + s;
    ChainFrame(n, n', first, s);
    forall i | 0 <= i < |s'| ensures Link(n', s', i) {
      if i > 0 { assert Link(n', s, i - 1); }
    }
  }

  lemma ChainPop(n: seq<int>, first: int, s: seq<int>)
    requires Chain(n, first, s) && s != []
    ensures 0 <= first < |n| && Chain(n, n[first], s[1..])
  {
    assert Link(n, s, 0);
    forall i | 0 <= i < |s[1..]| ensures Link(n, s[1..], i) {
      assert Link(n, s, i + 1);
    }
  }

  lemma ChainAppend(n: seq<int>, first: int, s: seq<int>, m: int)
    requires Chain(n, first, s) && s != [] && Distinct(s) && 0 <= m < |n| && m !in s && n[m] == NIL
    ensures 0 <= s[|s| - 1] < |n| && Chain(n[s[|s| - 1] := m], first, s + [m])
  {
    var last := s[|s| - 1];
    assert Link(n, s, |s| - 1);
    var n', s' := n[last := m], s + [m];
    forall i | 0 <= i < |s'| ensures Link(n', s', i) {
      if i < |s| { assert Link(n, s, i); }
    }
  }

  lemma ChainInRange(n: seq<int>, first: int, s: seq<int>)
    requires Chain(n, first, s)
    ensures forall x :: x in s ==> 0 <= x < |n|
  {
    forall x | x in s ensures 0 <= x < |n| {
      var i :| 0 <= i < |s| && s[i] == x;
      assert Link(n, s, i);
    }
  }

  /** Distinct nodes are not more than there are nodes. */
  lemma {:induction false} Pigeonhole(s: seq<int>, n: nat)
    requires Distinct(s) && forall x :: x in s ==> 0 <= x < n
    ensures |s| <= n
  {
    if s == [] {
      return;
    }
    var x := s[0];
    assert x in s;
    if n - 1 in s {
      var k :| 0 <= k < |s| && s[k] == n - 1;
      var r := s[..k] + s[k + 1..];
      forall x | x in r ensures 0 <= x < n - 1 {
        var j :| 0 <= j < |r| && r[j] == x;
        var j' := if j < k then j else j + 1;
        assert x == s[j'] && s[j'] in s && s[j'] != s[k];
      }
      assert Distinct(r) by {
        assert forall j :: 0 <= j < |r| ==> r[j] == s[if j < k then j else j + 1];
      }
      Pigeonhole(r, n - 1);
    } else {
      Pigeonhole(s, n - 1);
    }
  }

  lemma DistinctParts(a: seq<int>, b: seq<int>)
    ensures Distinct(a + b) <==> Distinct(a) && Distinct(b) && forall x :: x in a ==> x !in b
  {
    var s := a + b;
    assert forall i :: 0 <= i < |a| ==> s[i] == a[i];
    assert forall i :: 0 <= i < |b| ==> s[|a| + i] == b[i];
    if Distinct(s) {
      forall i, j | 0 <= i < j < |b| ensures b[i] != b[j] {
        assert s[|a| + i] != s[|a| + j];
      }
      forall x | x in a ensures x !in b {
        var i :| 0 <= i < |a| && a[i] == x;
        forall j | 0 <= j < |b| ensures b[j] != x {
          assert s[i] != s[|a| + j];
        }
      }
    } else {
      var i, j :| 0 <= i < j < |s| && s[i] == s[j];
      assert i < |a| <= j ==> a[i] in a && b[j - |a|] in b;
      assert i >= |a| ==> b[i - |a|] == b[j - |a|];
    }
  }

  /** k - 1 down to 0. */
  function Down(k: nat): (r: seq<int>)
    ensures |r| == k && forall i :: 0 <= i < k ==> r[i] == k - 1 - i
  {
    seq(k, i => k - 1 - i)
  }

  function Reverse<T>(s: seq<T>): (r: seq<T>)
    ensures |r| == |s|
  {
    if s == [] then [] else Reverse(s[1..]) + [s[0]]
  }

  /** A buffer after the first bytes have been overwritten by a message. */
  function Overlay(msg: Buffer, old_: Buffer): (r: Buffer)
    requires |msg| <= |old_|
    ensures |r| == |old_| && r[..|msg|] == msg && r[|msg|..] == old_[|msg|..]
  {
    msg + old_[|msg|..]
  }

  /** The length of a message, rounded up to four and cut to the sixteen bits the control block keeps. */
  function MsgSize(size: SM.Word): (r: nat)
    ensures r <= 0xfffc
    ensures r >= size <==> size <= 0xfffc
  {
    SM.RtAlign(size) % 0x1_0000
  }

  /** Nodes a pool of `poolSize` bytes holds, in sixteen bits, too. */
  function MaxMsgs(poolSize: nat, msgSize: nat): nat {
    poolSize / (msgSize + LINK_SIZE) % 0x1_0000
  }

  /** As many nodes as fit, if their number fits in sixteen bits. */
  lemma MaxMsgsIs(poolSize: nat, msgSize: nat)
    ensures var n := MaxMsgs(poolSize, msgSize);
            && n <= ENTRY_MAX && n * (msgSize + LINK_SIZE) <= poolSize
            && (poolSize / (msgSize + LINK_SIZE) <= ENTRY_MAX <==> poolSize < (n + 1) * (msgSize + LINK_SIZE))
  {
    var w, q, n := msgSize + LINK_SIZE, poolSize / (msgSize + LINK_SIZE), MaxMsgs(poolSize, msgSize);
    assert poolSize == w * q + poolSize % w;
    Scaled(w, n, q);
    if n < q { Scaled(w, n + 1, q); }
  }

  lemma Scaled(w: nat, a: nat, b: nat)
    requires a <= b
    ensures a * w <= w * b
  {
    assert w * b - a * w == w * (b - a);
  }

  class Store {
    const msgSize: nat
    const maxMsgs: nat
    const next: array<int>
    const data: array<Buffer>
    var head: int
    var tail: int
    var free: int
    var entry: nat
    ghost var queue: seq<int>
    ghost var idle: seq<int>

    ghost predicate Valid()
      reads this, next, data
    {
      && next.Length == data.Length == maxMsgs <= ENTRY_MAX
      && (forall i :: 0 <= i < data.Length ==> |data[i]| == msgSize)
      && Chain(next[..], head, queue) && Chain(next[..], free, idle)
      && tail == (if queue == [] then NIL else queue[|queue| - 1])
      && entry == |queue|
      && Distinct(queue) && Distinct(idle)
      && forall x :: x in queue ==> x !in idle
    }

    /** Off both chains: some thread has it in hand. */
    ghost predicate InHand(m: int)
      reads this
    {
      0 <= m < maxMsgs && m !in queue && m !in idle
    }

    /** `rt_mq_init` for messages of `size` bytes: thread every node of the pool onto the free chain. */
    constructor (poolSize: nat, size: SM.Word)
      ensures Valid() && msgSize == MsgSize(size) && maxMsgs == MaxMsgs(poolSize, msgSize)
      ensures queue == [] && idle == Down(maxMsgs) && fresh(next) && fresh(data)
    {
      var msgSize := MsgSize(size);
      this.msgSize := msgSize;
      maxMsgs := MaxMsgs(poolSize, msgSize);
      next := new int[MaxMsgs(poolSize, msgSize)](_ => NIL);
      data := new Buffer[MaxMsgs(poolSize, msgSize)](_ => seq(msgSize, _ => 0));
      head, tail, free, entry := NIL, NIL, NIL, 0;
      queue, idle := [], [];
      new;
      var temp := 0;
      while temp < maxMsgs
        invariant temp <= maxMsgs && idle == Down(temp) && queue == [] && Valid()
      {
        ghost var n := next[..];
        next[temp] := free;
        free := temp;
        assert next[..] == n[temp := next[temp]];
        ChainPush(n, if idle == [] then NIL else idle[0], idle, temp);
        idle := [temp] + idle;
        assert idle == Down(temp + 1);
        temp := temp + 1;
      }
    }

    /** First section of a send: take a node off the free chain. */
    method TakeFree() returns (m: int)
      requires Valid()
      modifies this`free, this`idle
      ensures Valid()
      ensures m == (if old(idle) == [] then NIL else old(idle)[0])
      ensures idle == (if old(idle) == [] then [] else old(idle)[1..])
      ensures m != NIL ==> InHand(m)
    {
      m := free;
      if m == NIL {
        assert idle != [] ==> Link(next[..], idle, 0);
        return;
      }
      ChainPop(next[..], free, idle);
      ChainInRange(next[..], free, idle);
      free := next[m];
      DistinctParts([idle[0]], idle[1..]);
      assert idle == [idle[0]] + idle[1..];
      idle := idle[1..];
    }

    /** With interrupts enabled: the node is to be the new last one. */
    method EndChain(m: int)
      requires Valid() && InHand(m)
      modifies next
      ensures Valid() && next[..] == old(next[..])[m := NIL]
    {
      ghost var n := next[..];
      next[m] := NIL;
      ChainFrame(n, next[..], head, queue);
      ChainFrame(n, next[..], free, idle);
    }

    /** With interrupts enabled: copy the message into the node. */
    method Fill(m: int, msg: Buffer)
      requires Valid() && InHand(m) && |msg| <= msgSize
      modifies data
      ensures Valid()
      ensures data[..] == old(data[..])[m := Overlay(msg, old(data[m]))]
    {
      data[m] := Overlay(msg, data[m]);
    }

    /** The queue is empty exactly when its head, or its tail, is null. */
    lemma EndsInQueue()
      requires Valid()
      ensures head == NIL <==> queue == []
      ensures tail == NIL <==> queue == []
    {
      ChainInRange(next[..], head, queue);
      if queue != [] { assert queue[0] in queue && queue[|queue| - 1] in queue; }
    }

    lemma RoomForEntry(m: int)
      requires Valid() && InHand(m)
      ensures entry < ENTRY_MAX
    {
      ChainInRange(next[..], head, queue);
      DistinctParts([m], queue);
      Pigeonhole([m] + queue, maxMsgs);
    }

    /** Second section of a send: link the filled node behind the last message. */
    method LinkTail(m: int)
      requires Valid() && InHand(m) && next[m] == NIL
      modifies this`head, this`tail, this`entry, this`queue, next
      ensures Valid() && queue == old(queue) + [m]
      ensures forall x :: 0 <= x < maxMsgs && x !in queue ==> next[x] == old(next[x])
    {
      ghost var n := next[..];
      EndsInQueue();
      RoomForEntry(m);
      ChainInRange(n, head, queue);
      DistinctParts(queue, [m]);
      if queue != [] {
        ChainAppend(n, head, queue, m);
      }
      if tail != NIL {
        next[tail] := m;
        assert next[..] == n[tail := m];
      }
      tail := m;
      if head == NIL {
        head := m;
      }
      if entry < ENTRY_MAX {
        entry := entry + 1;
      } else {
        assert false;
      }
      ChainFrame(n, next[..], free, idle);
      queue := queue + [m];
      if |queue| == 1 { assert Link(next[..], queue, 0); }
    }

    /** Second section of an urgent send: link the node in front. */
    method LinkHead(m: int)
      requires Valid() && InHand(m)
      modifies this`head, this`tail, this`entry, this`queue, next
      ensures Valid() && queue == [m] + old(queue)
      ensures forall x :: 0 <= x < maxMsgs && x !in queue ==> next[x] == old(next[x])
    {
      ghost var n := next[..];
      EndsInQueue();
      RoomForEntry(m);
      ChainPush(n, head, queue, m);
      DistinctParts([m], queue);
      next[m] := head;
      assert next[..] == n[m := head];
      ChainFrame(n, next[..], free, idle);
      ChainInRange(n, head, queue);
      head := m;
      if tail == NIL {
        tail := m;
      }
      if entry < ENTRY_MAX {
        entry := entry + 1;
      } else {
        assert false;
      }
      queue := [m] + queue;
    }

    /** First section of a receive: take the first message off the queue. */
    method Unlink() returns (m: int)
      requires Valid() && entry != 0
      modifies this`head, this`tail, this`entry, this`queue
      ensures Valid() && m == old(queue)[0] && queue == old(queue)[1..] && InHand(m)
    {
      m := head;
      ChainPop(next[..], head, queue);
      ChainInRange(next[..], head, queue);
      DistinctParts([queue[0]], queue[1..]);
      assert queue == [queue[0]] + queue[1..];
      head := next[m];
      if tail == m {
        assert |queue| == 1;
        tail := NIL;
      }
      entry := entry - 1;
      queue := queue[1..];
    }

    /** With interrupts enabled: copy `size` bytes out, or the whole buffer if that is less. */
    method ReadOut(m: int, size: nat) returns (out: Buffer)
      requires Valid() && InHand(m)
      ensures out == data[m][..if size > msgSize then msgSize else size]
    {
      out := data[m][..if size > msgSize then msgSize else size];
    }

    /** Last section of a receive: put the node back. */
    method PutFree(m: int)
      requires Valid() && InHand(m)
      modifies this`free, this`idle, next
      ensures Valid() && idle == [m] + old(idle)
      ensures forall x :: 0 <= x < maxMsgs && x != m ==> next[x] == old(next[x])
    {
      ghost var n := next[..];
      ChainPush(n, free, idle, m);
      DistinctParts([m], idle);
      next[m] := free;
      assert next[..] == n[m := free];
      ChainFrame(n, next[..], head, queue);
      free := m;
      idle := [m] + idle;
    }

    /** A reset moves every queued node to the free chain, one by one. */
    method Drain()
      requires Valid()
      modifies this`head, this`tail, this`free, this`entry, this`queue, this`idle, next
      ensures Valid() && queue == [] && idle == Reverse(old(queue)) + old(idle)
      ensures forall x :: 0 <= x < maxMsgs && x !in old(queue) ==> next[x] == old(next[x])
    {
      ghost var q0, i0 := queue, idle;
      EndsInQueue();
      while head != NIL
        invariant Valid() && (head == NIL <==> queue == [])
        invariant Reverse(q0) + i0 == Reverse(queue) + idle
        invariant forall x :: x in queue ==> x in q0
        invariant forall x :: 0 <= x < maxMsgs && x !in q0 ==> next[x] == old(next[x])
        decreases |queue|
      {
        ghost var q, i := queue, idle;
        var m := Unlink();
        PutFree(m);
        EndsInQueue();
        assert Reverse(q) + i == Reverse(q[1..]) + ([q[0]] + i);
      }
      entry := 0;
    }
  }
}
