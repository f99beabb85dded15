/** The mailbox: a ring of message words with a write and a read position.  Each method is one
    section that runs with interrupts disabled. */
module Mailbox {
  import opened IpcList
  import R = Rendezvous

  const ENTRY_MAX: nat := 0xffff

  type Word = n: nat | n < 0x1_0000_0000

  datatype Outcome = Ok | Full | Empty | Sleeping

  /** Position `k` places after `at` on a ring of `size` cells. */
  function Slot(at: nat, k: nat, size: nat): nat {
    if at + k < size then at + k else at + k - size
  }

  /** `|c|` words are waiting, the first of them at position `outOffset`. */
  ghost predicate Ring(pool: seq<int>, inOffset: nat, outOffset: nat, c: seq<int>) {
    && |c| <= |pool|
    && (if |pool| == 0 then inOffset == outOffset == 0
        else outOffset < |pool| && inOffset == Slot(outOffset, |c|, |pool|))
    && forall k :: 0 <= k < |c| ==> pool[Slot(outOffset, k, |pool|)] == c[k]
  }

  lemma InBounds(pool: seq<int>, inOffset: nat, outOffset: nat, c: seq<int>)
    requires Ring(pool, inOffset, outOffset, c) && |pool| > 0
    ensures inOffset < |pool| && outOffset < |pool|
    ensures |c| < |pool| ==> inOffset == Slot(outOffset, |c|, |pool|)
    ensures |c| == |pool| ==> inOffset == outOffset
  {
    if |c| == |pool| { assert Slot(outOffset, |c|, |pool|) == outOffset; }
  }

  lemma Appended(pool: seq<int>, inOffset: nat, outOffset: nat, c: seq<int>, v: int)
    requires Ring(pool, inOffset, outOffset, c) && |c| < |pool|
    ensures inOffset < |pool|
    ensures Ring(pool[inOffset := v], if inOffset + 1 >= |pool| then 0 else inOffset + 1, outOffset, c + [v])
  {
    InBounds(pool, inOffset, outOffset, c);
  }

  lemma Prepended(pool: seq<int>, inOffset: nat, outOffset: nat, c: seq<int>, v: int)
    requires Ring(pool, inOffset, outOffset, c) && |c| < |pool|
    ensures var o := if outOffset > 0 then outOffset - 1 else |pool| - 1;
            Ring(pool[o := v], inOffset, o, [v] + c)
  {
    InBounds(pool, inOffset, outOffset, c);
    var o := if outOffset > 0 then outOffset - 1 else |pool| - 1;
    var p := pool[o := v];
    forall k | 0 <= k < |c| + 1 ensures p[Slot(o, k, |p|)] == ([v] + c)[k] {
      if k > 0 { assert Slot(o, k, |p|) == Slot(outOffset, k - 1, |p|) != o; }
    }
  }

  lemma Removed(pool: seq<int>, inOffset: nat, outOffset: nat, c: seq<int>)
    requires Ring(pool, inOffset, outOffset, c) && c != []
    ensures outOffset < |pool| && pool[outOffset] == c[0]
    ensures Ring(pool, inOffset, if outOffset + 1 >= |pool| then 0 else outOffset + 1, c[1..])
  {
    InBounds(pool, inOffset, outOffset, c);
    assert pool[Slot(outOffset, 0, |pool|)] == c[0];
    var o := if outOffset + 1 >= |pool| then 0 else outOffset + 1;
    forall k | 0 <= k < |c[1..]| ensures pool[Slot(o, k, |pool|)] == c[1..][k] {
      assert Slot(o, k, |pool|) == Slot(outOffset, k + 1, |pool|);
    }
  }

  lemma RingBounds(pool: seq<int>, inOffset: nat, outOffset: nat, c: seq<int>)
    requires Ring(pool, inOffset, outOffset, c) && |pool| > 0
    ensures inOffset < |pool| && outOffset < |pool|
  {
  }

  lemma EmptyRing(pool: seq<int>)
    ensures Ring(pool, 0, 0, [])
  {
  }

  class Mailbox {
    const msgPool: array<int>
    const size: nat
    const flag: Flag
    var entry: nat
    var inOffset: nat
    var outOffset: nat
    var receivers: seq<Tid>
    var senders: seq<Tid>
    ghost var contents: seq<int>
    ghost var wokenReceivers: set<Tid>
    ghost var wokenSenders: set<Tid>

    /** The mailbox as a meeting place: mails are things, empty cells are room. */
    ghost function Meeting(): R.State
      reads this
      requires entry <= size
    {
      R.State(entry, size - entry, receivers, senders, wokenReceivers, wokenSenders)
    }

    ghost predicate Valid()
      reads this, msgPool
    {
      && Stored() && entry <= size && entry == |contents| && R.Inv(Meeting())
    }

    /** `rt_mb_init`; the size is cut to sixteen bits. */
    constructor (size: Word, flag: Flag)
      ensures Valid() && fresh(msgPool) && this.size == size % (ENTRY_MAX + 1) && contents == []
      ensures Meeting() == R.State(0, this.size, [], [], {}, {})
    {
      this.size, this.flag := size % (ENTRY_MAX + 1), flag;
      msgPool := new int[size % (ENTRY_MAX + 1)];
      entry, inOffset, outOffset := 0, 0, 0;
      receivers, senders, contents, wokenReceivers, wokenSenders := [], [], [], {}, {};
    }

    /** Wakes the first waiting receiver. */
    method WakeReceiver() returns (resched: bool)
      modifies this`receivers, this`wokenReceivers
      ensures resched <==> old(receivers) != []
      ensures receivers == if resched then old(receivers)[1..] else []
      ensures wokenReceivers == if resched then old(wokenReceivers) + {old(receivers)[0]} else old(wokenReceivers)
    {
      resched := receivers != [];
      if resched {
        wokenReceivers := wokenReceivers + {receivers[0]};
        receivers := receivers[1..];
      }
    }

    method WakeSender() returns (resched: bool)
      modifies this`senders, this`wokenSenders
      ensures resched <==> old(senders) != []
      ensures senders == if resched then old(senders)[1..] else []
      ensures wokenSenders == if resched then old(wokenSenders) + {old(senders)[0]} else old(wokenSenders)
    {
      resched := senders != [];
      if resched {
        wokenSenders := wokenSenders + {senders[0]};
        senders := senders[1..];
      }
    }

    /** The ring alone. */
    ghost predicate Stored()
      reads this`entry, this`inOffset, this`outOffset, this`contents, msgPool
    {
      && size <= ENTRY_MAX && msgPool.Length == size
      && entry == |contents|
      && Ring(msgPool[..], inOffset, outOffset, contents)
    }

    /** Writes at the end.  The test for an overflow of the counter never fires. */
    method Deposit(value: int)
      requires Stored() && entry < size
      modifies this`entry, this`inOffset, this`contents, msgPool
      ensures Stored() && contents == old(contents) + [value]
      ensures entry == old(entry) + 1
    {
      hide Ring, Slot;
      ghost var pool := msgPool[..];
      Appended(pool, inOffset, outOffset, contents, value);
      msgPool[inOffset] := value;
      assert msgPool[..] == pool[inOffset := value];
      inOffset := inOffset + 1;
      if inOffset >= size {
        inOffset := 0;
      }
      contents := contents + [value];
      if entry < ENTRY_MAX {
        entry := entry + 1;
      } else {
        assert false;
      }
    }

    /** Rewinds the read position and writes there. */
    method DepositFront(value: int)
      requires Stored() && entry < size
      modifies this`entry, this`outOffset, this`contents, msgPool
      ensures Stored() && contents == [value] + old(contents)
      ensures entry == old(entry) + 1
    {
      hide Ring, Slot;
      ghost var pool := msgPool[..];
      Prepended(pool, inOffset, outOffset, contents, value);
      RingBounds(pool, inOffset, outOffset, contents);
      if outOffset > 0 {
        outOffset := outOffset - 1;
      } else {
        outOffset := size - 1;
      }
      msgPool[outOffset] := value;
      assert msgPool[..] == pool[outOffset := value];
      entry := entry + 1;
      contents := [value] + contents;
    }

    /** Reads at the front. */
    method Collect() returns (value: int)
      requires Stored() && contents != []
      modifies this`entry, this`outOffset, this`contents
      ensures Stored() && value == old(contents)[0] && contents == old(contents)[1..]
      ensures entry == old(entry) - 1
    {
      hide Ring, Slot;
      Removed(msgPool[..], inOffset, outOffset, contents);
      value := msgPool[outOffset];
      outOffset := outOffset + 1;
      if outOffset >= size {
        outOffset := 0;
      }
      contents := contents[1..];
      if entry > 0 {
        entry := entry - 1;
      }
    }

    /** One round of `rt_mb_send_wait` by thread `t`: the mail goes to the end, or `t` goes to sleep. */
    method SendWait(t: Tid, value: int, timeout: int, prio: map<Tid, Priority>)
      returns (r: Outcome, resched: bool, ghost k: nat)
      requires Valid() && R.Enabled(Meeting(), R.GiveEvent(t, true, 0)) && t in prio && Known(senders, prio)
      modifies this, msgPool
      ensures Valid()
      ensures Meeting() == R.Give(old(Meeting()), t, timeout != 0, k)
      ensures contents == if r == Ok then old(contents) + [value] else old(contents)
      ensures r == Ok <==> old(entry) < size
      ensures r == Full <==> old(entry) == size && timeout == 0
      ensures r == Sleeping ==> senders == Enqueue(old(senders), t, flag, prio)
      ensures resched <==> r == Sleeping || (r == Ok && old(receivers) != [])
    {
      hide Stored, R.Inv, R.Lists, Enqueue;
      R.GiveKeeps(Meeting(), t, timeout != 0, 0);
      k := 0;
      if entry == size {
        wokenSenders := wokenSenders - {t};
        if timeout == 0 {
          return Full, false, 0;
        }
        ghost var list := senders;
        k := EnqueueInserts(senders, t, flag, prio);
        R.GiveKeeps(old(Meeting()), t, true, k);
        senders := SuspendInsert(senders, t, flag, prio);
        assert senders == R.Inserted(list, k, t);
        return Sleeping, true, k;
      }
      wokenSenders := wokenSenders - {t};
      Deposit(value);
      resched := WakeReceiver();
      r := Ok;
      assert Meeting() == R.Give(old(Meeting()), t, timeout != 0, k);
    }

    /** `rt_mb_urgent`: the mail goes to the front. */
    method Urgent(t: Tid, value: int) returns (r: Outcome, resched: bool)
      requires Valid() && R.Enabled(Meeting(), R.GiveEvent(t, false, 0))
      modifies this, msgPool
      ensures Valid()
      ensures Meeting() == R.Give(old(Meeting()), t, false, 0)
      ensures contents == if r == Ok then [value] + old(contents) else old(contents)
      ensures r == if old(entry) < size then Ok else Full
      ensures resched <==> r == Ok && old(receivers) != []
    {
      hide Stored, R.Inv, R.Lists, Enqueue;
      R.GiveKeeps(Meeting(), t, false, 0);
      wokenSenders := wokenSenders - {t};
      if entry == size {
        return Full, false;
      }
      DepositFront(value);
      resched := WakeReceiver();
      r := Ok;
    }

    /** One round of `rt_mb_recv` by thread `t`: the first mail is taken out, or `t` goes to sleep. */
    method Recv(t: Tid, timeout: int, prio: map<Tid, Priority>)
      returns (r: Outcome, value: int, resched: bool, ghost k: nat)
      requires Valid() && R.Enabled(Meeting(), R.TakeEvent(t, true, 0)) && t in prio && Known(receivers, prio)
      modifies this
      ensures Valid() && msgPool[..] == old(msgPool[..])
      ensures Meeting() == R.Take(old(Meeting()), t, timeout != 0, k)
      ensures r == Ok <==> old(contents) != []
      ensures r == Ok ==> value == old(contents)[0] && contents == old(contents)[1..]
      ensures r != Ok ==> contents == []
      ensures r == Empty <==> old(contents) == [] && timeout == 0
      ensures r == Sleeping ==> receivers == Enqueue(old(receivers), t, flag, prio)
      ensures resched <==> r == Sleeping || (r == Ok && old(senders) != [])
    {
      hide Stored, R.Inv, R.Lists, Enqueue;
      R.StepKeeps(Meeting(), R.TakeEvent(t, timeout != 0, 0));
      k := 0;
      value := 0;
      if entry == 0 {
        wokenReceivers := wokenReceivers - {t};
        if timeout == 0 {
          return Empty, 0, false, 0;
        }
        ghost var list := receivers;
        k := EnqueueInserts(receivers, t, flag, prio);
        R.StepKeeps(old(Meeting()), R.TakeEvent(t, true, k));
        receivers := SuspendInsert(receivers, t, flag, prio);
        assert receivers == R.Inserted(list, k, t);
        return Sleeping, 0, true, k;
      }
      wokenReceivers := wokenReceivers - {t};
      value := Collect();
      resched := WakeSender();
      r := Ok;
    }

    /** The timer of a sleeping thread runs out. */
    method Expire(t: Tid)
      requires Valid()
      modifies this`receivers, this`senders
      ensures Valid() && Meeting() == R.Expire(old(Meeting()), t)
    {
      hide Stored, R.Inv, R.Lists, Enqueue;
      R.StepKeeps(Meeting(), R.ExpireEvent(t));
      receivers := Without(receivers, t);
      senders := Without(senders, t);
    }

    /** `rt_mb_control` with the reset command */
    method Reset()
      requires Valid()
      modifies this
      ensures Valid() && contents == [] && msgPool[..] == old(msgPool[..]) && receivers == [] && senders == []
      ensures Meeting() == R.Reset(old(Meeting()))
    {
      hide R.Inv, R.Lists;
      R.StepKeeps(Meeting(), R.ResetEvent);
      receivers, senders := [], [];
      EmptyRing(msgPool[..]);
      entry, inOffset, outOffset := 0, 0, 0;
      contents := [];
    }
  }
}
