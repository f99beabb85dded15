/** The ready queue and the scheduler: one list of ready threads per priority, a bitmap saying
    which lists are not empty, and the choice of the thread to run. */
module Scheduler {
  import opened Bits
  import opened IpcList

  const PRIORITY_MAX: nat := 32

  // ----- the two-level bitmap of the 256-priority configuration -----

  const LEVELS: nat := 256

  datatype TwoLevel = TwoLevel(group: nat, table: seq<nat>)

  /** Bit `n` of the group says that table byte `n` is not zero; bit `k` of byte `n` says that the
      list of priority `8n + k` is not empty. */
  ghost predicate Indexes2(x: TwoLevel, ready: set<nat>) {
    && x.group < WORD && |x.table| == 32
    && (forall n :: 0 <= n < 32 ==> x.table[n] < 256)
    && (forall n :: 0 <= n < 32 ==> (Bit(x.group, n) <==> x.table[n] != 0))
    && (forall n, k :: 0 <= n < 32 && 0 <= k < 8 ==> (Bit(x.table[n], k) <==> 8 * n + k in ready))
  }

  function Insert2(x: TwoLevel, p: nat): TwoLevel
    requires |x.table| == 32 && p < LEVELS
  {
    TwoLevel(Or(x.group, Pow2(p / 8)), x.table[p / 8 := Or(x.table[p / 8], Pow2(p % 8))])
  }

  /** The list of priority `p` has just become empty. */
  function Remove2(x: TwoLevel, p: nat): TwoLevel
    requires |x.table| == 32 && p < LEVELS
  {
    var byte := AndNot(x.table[p / 8], Pow2(p % 8));
    TwoLevel(if byte == 0 then AndNot(x.group, Pow2(p / 8)) else x.group, x.table[p / 8 := byte])
  }

  function Highest2(x: TwoLevel): int
    requires |x.table| == 32 && 0 < x.group < WORD && forall n :: 0 <= n < 32 ==> x.table[n] < 256
  {
    var number := FfsTable(x.group) - 1;
    WordIsPow();
    FfsTableCorrect(x.group);
    TrailingZerosBound(x.group, 32);
    8 * number + FfsTable(x.table[number]) - 1
  }

  lemma Insert2Indexes(x: TwoLevel, ready: set<nat>, p: nat)
    requires Indexes2(x, ready) && p < LEVELS
    ensures Indexes2(Insert2(x, p), ready + {p})
  {
    var n0, k0, y := p / 8, p % 8, Insert2(x, p);
    WordIsPow();
    PowBelow(n0, 32);
    PowBelow(k0, 8);
    assert Pow2(8) == 256 by { BytePow(); }
    OrBound(x.group, Pow2(n0), 32);
    OrBound(x.table[n0], Pow2(k0), 8);
    OrBit(x.table[n0], Pow2(k0), k0);
    PowBit(k0, k0);
    NonZeroHasBit(y.table[n0], 8);
    forall n | 0 <= n < 32 ensures Bit(y.group, n) <==> y.table[n] != 0 {
      OrBit(x.group, Pow2(n0), n);
      PowBit(n0, n);
    }
    forall n, k | 0 <= n < 32 && 0 <= k < 8 ensures Bit(y.table[n], k) <==> 8 * n + k in ready + {p} {
      OrBit(x.table[n0], Pow2(k0), k);
      PowBit(k0, k);
      assert p == 8 * n0 + k0;
    }
  }

  lemma Remove2Indexes(x: TwoLevel, ready: set<nat>, p: nat)
    requires Indexes2(x, ready) && p < LEVELS
    ensures Indexes2(Remove2(x, p), ready - {p})
  {
    var n0, k0, y := p / 8, p % 8, Remove2(x, p);
    AndNotBound(x.group, Pow2(n0));
    AndNotBound(x.table[n0], Pow2(k0));
    assert Pow2(8) == 256 by { BytePow(); }
    forall n | 0 <= n < 32 ensures Bit(y.group, n) <==> y.table[n] != 0 {
      AndNotBit(x.group, Pow2(n0), n);
      PowBit(n0, n);
      if n == n0 && x.table[n] == 0 { ZeroAndNot(Pow2(k0)); }
    }
    forall n, k | 0 <= n < 32 && 0 <= k < 8 ensures Bit(y.table[n], k) <==> 8 * n + k in ready - {p} {
      AndNotBit(x.table[n0], Pow2(k0), k);
      PowBit(k0, k);
      assert p == 8 * n0 + k0;
    }
  }

  lemma ZeroAndNot(b: nat)
    ensures AndNot(0, b) == 0
  {
  }

  /** The two find-first-set lookups name the smallest ready priority. */
  lemma Highest2IsLowest(x: TwoLevel, ready: set<nat>)
    requires Indexes2(x, ready) && x.group != 0
    ensures 0 <= Highest2(x) < LEVELS && Highest2(x) in ready
    ensures forall p :: p in ready && p < LEVELS ==> Highest2(x) <= p
  {
    hide FfsTable, TrailingZeros, Bit;
    WordIsPow();
    BytePow();
    FfsTableCorrect(x.group);
    TrailingZerosBound(x.group, 32);
    var number := FfsTable(x.group) - 1;
    TrailingZerosIsLowest(x.group, number);
    var byte := x.table[number];
    FfsTableCorrect(byte);
    TrailingZerosBound(byte, 8);
    var bit := FfsTable(byte) - 1;
    TrailingZerosIsLowest(byte, bit);
    assert 8 * number + bit == Highest2(x);
    forall p | p in ready && p < LEVELS ensures Highest2(x) <= p {
      var n, k := p / 8, p % 8;
      assert p == 8 * n + k && Bit(x.table[n], k);
      NonZeroHasBit(x.table[n], 8);
      TrailingZerosIsLowest(x.group, n);
      if n == number { TrailingZerosIsLowest(byte, k); }
    }
  }

  lemma BytePow()
    ensures Pow2(8) == 256
  {
    assert Pow2(4) == 16;
  }

  // ----- threads -----

  datatype Stat = Initial | Ready | Suspended | Running | Closed

  /** Able to run: waiting for the processor, or on it. */
  ghost predicate Runs(s: Stat) {
    s == Ready || s == Running
  }

  /** `index` marks exactly the priorities whose list is not empty. */
  ghost predicate Indexes(index: nat, lists: seq<seq<Tid>>) {
    && index < WORD
    && |lists| == PRIORITY_MAX
    && forall p :: 0 <= p < PRIORITY_MAX ==> (Bit(index, p) <==> lists[p] != [])
  }

  lemma IndexInsert(index: nat, lists: seq<seq<Tid>>, p: nat, l: seq<Tid>)
    requires Indexes(index, lists) && p < PRIORITY_MAX && l != []
    ensures Indexes(Or(index, Pow2(p)), lists[p := l])
  {
    WordIsPow();
    PowBelow(p, 32);
    OrBound(index, Pow2(p), 32);
    forall q | 0 <= q < PRIORITY_MAX ensures Bit(Or(index, Pow2(p)), q) <==> lists[p := l][q] != [] {
      OrBit(index, Pow2(p), q);
      PowBit(p, q);
    }
  }

  lemma IndexRemove(index: nat, lists: seq<seq<Tid>>, p: nat)
    requires Indexes(index, lists) && p < PRIORITY_MAX
    ensures Indexes(AndNot(index, Pow2(p)), lists[p := []])
  {
    AndNotBound(index, Pow2(p));
    forall q | 0 <= q < PRIORITY_MAX ensures Bit(AndNot(index, Pow2(p)), q) <==> lists[p := []][q] != [] {
      AndNotBit(index, Pow2(p), q);
      PowBit(p, q);
    }
  }

  /** The find-first-set lookup names the smallest priority with a ready thread. */
  lemma HighestReady(index: nat, lists: seq<seq<Tid>>)
    requires Indexes(index, lists) && index != 0
    ensures var h := FfsTable(index) - 1;
            && 0 <= h < PRIORITY_MAX && lists[h] != []
            && forall p :: 0 <= p < h ==> lists[p] == []
  {
    WordIsPow();
    FfsTableCorrect(index);
    TrailingZerosBound(index, 32);
    var h := FfsTable(index) - 1;
    TrailingZerosIsLowest(index, h);
    forall p | 0 <= p < h ensures lists[p] == [] {
      TrailingZerosIsLowest(index, p);
    }
  }

  lemma EmptyIndex(index: nat, lists: seq<seq<Tid>>)
    requires Indexes(index, lists)
    ensures index == 0 <==> forall p :: 0 <= p < PRIORITY_MAX ==> lists[p] == []
  {
    WordIsPow();
    NonZeroHasBit(index, 32);
  }

  /** Each thread is listed at most once, and only under its own priority. */
  ghost predicate Filed(lists: seq<seq<Tid>>, priority: map<Tid, nat>) {
    && |lists| == PRIORITY_MAX
    && (forall t :: t in priority ==> priority[t] < PRIORITY_MAX)
    && (forall p :: 0 <= p < PRIORITY_MAX ==> Distinct(lists[p]))
    && (forall p, t :: 0 <= p < PRIORITY_MAX && t in lists[p] ==> t in priority && priority[t] == p)
  }

  ghost predicate Listed(lists: seq<seq<Tid>>, t: Tid) {
    exists p :: 0 <= p < |lists| && t in lists[p]
  }

  /** Outside `ex`, the listed threads are the ready ones. */
  ghost predicate ReadyIsListed(lists: seq<seq<Tid>>, stat: map<Tid, Stat>, ex: set<Tid>) {
    && (forall t :: Listed(lists, t) ==> t in stat)
    && (forall t :: t in stat && t !in ex ==> (stat[t] == Ready <==> Listed(lists, t)))
  }

  /** No ready thread is more urgent than `t`. */
  ghost predicate MostUrgent(stat: map<Tid, Stat>, priority: map<Tid, nat>, t: Tid)
    requires t in priority && stat.Keys <= priority.Keys
  {
    forall u :: u in stat && stat[u] == Ready ==> priority[t] <= priority[u]
  }

  lemma PriorityBound(lists: seq<seq<Tid>>, priority: map<Tid, nat>, t: Tid)
    requires Filed(lists, priority) && t in priority
    ensures priority[t] < |lists| == PRIORITY_MAX
    ensures Listed(lists, t) <==> t in lists[priority[t]]
  {
  }

  lemma PriorityChange(lists: seq<seq<Tid>>, priority: map<Tid, nat>, t: Tid, level: nat)
    requires Filed(lists, priority) && !Listed(lists, t) && level < PRIORITY_MAX
    ensures Filed(lists, priority[t := level])
  {
  }

  lemma HeadIsListed(lists: seq<seq<Tid>>, priority: map<Tid, nat>, p: nat)
    requires Filed(lists, priority) && p < PRIORITY_MAX && lists[p] != []
    ensures var t := lists[p][0]; Listed(lists, t) && t in priority && priority[t] == p
    ensures Distinct(lists[p])
  {
    assert lists[p][0] in lists[p];
  }

  /** Every ready thread is strictly less urgent than `t`. */
  ghost predicate Alone(stat: map<Tid, Stat>, priority: map<Tid, nat>, t: Tid)
    requires t in priority && stat.Keys <= priority.Keys
  {
    forall u :: u in stat && stat[u] == Ready ==> priority[t] < priority[u]
  }

  /** A thread goes into its list at either end. */
  lemma FileOne(lists: seq<seq<Tid>>, priority: map<Tid, nat>, t: Tid, l: seq<Tid>)
    requires Filed(lists, priority) && t in priority && !Listed(lists, t)
    requires l == lists[priority[t]] + [t] || l == [t] + lists[priority[t]]
    ensures Filed(lists[priority[t] := l], priority)
    ensures forall u :: Listed(lists[priority[t] := l], u) <==> u == t || Listed(lists, u)
  {
    var p := priority[t];
    var after := lists[p := l];
    assert t !in lists[p];
    InsertDistinct(lists[p], if l == [t] + lists[p] then 0 else |lists[p]|, t);
    assert lists[p][..0] + [t] + lists[p][0..] == [t] + lists[p];
    assert lists[p][..|lists[p]|] + [t] + lists[p][|lists[p]|..] == lists[p] + [t];
    assert forall u :: u in l <==> u == t || u in lists[p];
    assert t in after[p];
    forall u | Listed(lists, u) ensures Listed(after, u) {
      var q :| 0 <= q < |lists| && u in lists[q];
      assert u in after[q];
    }
  }

  /** A thread leaves its list. */
  lemma UnfileOne(lists: seq<seq<Tid>>, priority: map<Tid, nat>, t: Tid)
    requires Filed(lists, priority) && t in priority
    ensures var after := lists[priority[t] := Without(lists[priority[t]], t)];
            && Filed(after, priority)
            && forall u :: Listed(after, u) <==> u != t && Listed(lists, u)
  {
    var p := priority[t];
    var after := lists[p := Without(lists[p], t)];
    WithoutKeeps(lists[p], t);
    forall u | u != t && Listed(lists, u) ensures Listed(after, u) {
      var q :| 0 <= q < |lists| && u in lists[q];
      assert u in after[q];
    }
  }

  ghost predicate AnyReady(stat: map<Tid, Stat>) {
    exists t :: t in stat && stat[t] == Ready
  }

  lemma ReadyKnown(lists: seq<seq<Tid>>, stat: map<Tid, Stat>, index: nat)
    requires Indexes(index, lists) && ReadyIsListed(lists, stat, {})
    ensures index != 0 <==> AnyReady(stat)
  {
    EmptyIndex(index, lists);
    if index == 0 {
      NothingListed(index, lists);
    } else {
      var p :| 0 <= p < PRIORITY_MAX && lists[p] != [];
      assert lists[p][0] in lists[p];
      assert Listed(lists, lists[p][0]);
    }
  }

  lemma NothingListed(index: nat, lists: seq<seq<Tid>>)
    requires Indexes(index, lists) && index == 0
    ensures forall t :: !Listed(lists, t)
  {
    EmptyIndex(index, lists);
  }

  ghost predicate AllStopped(stat: map<Tid, Stat>) {
    forall t :: t in stat ==> !Runs(stat[t])
  }

  /** A choice moves threads between ready and running only, and only the chosen one runs. */
  ghost predicate Chosen(before: map<Tid, Stat>, after: map<Tid, Stat>, current: Tid) {
    && after.Keys == before.Keys
    && forall t :: t in after ==>
        && (Runs(after[t]) <==> Runs(before[t]))
        && (!Runs(after[t]) ==> after[t] == before[t])
        && (after[t] == Running ==> t == current)
  }

  ghost predicate Head(lists: seq<seq<Tid>>, p: nat, t: Tid) {
    p < |lists| && lists[p] != [] && lists[p][0] == t
  }

  /** The lists after `from` has been put in front of list `p`, if it is filed again, and `to` taken
      out of list `q`. */
  ghost function Switched(lists: seq<seq<Tid>>, refile: bool, p: nat, from: Tid, q: nat, to: Tid): seq<seq<Tid>>
  {
    var filed := if refile && p < |lists| then lists[p := [from] + lists[p]] else lists;
    if q < |filed| then filed[q := Without(filed[q], to)] else filed
  }

  /** The lists after `t` has left list `p`. */
  ghost function Unfiled(lists: seq<seq<Tid>>, p: nat, t: Tid): seq<seq<Tid>>
    requires p < |lists|
  {
    lists[p := Without(lists[p], t)]
  }

  lemma UnfiledNothing(lists: seq<seq<Tid>>, p: nat, t: Tid)
    requires p < |lists| && t !in lists[p]
    ensures Unfiled(lists, p, t) == lists
  {
    WithoutNothing(lists[p], t);
  }

  /** The lists after `t` has been put into list `p`, in front or, after yielding, at the end. */
  ghost function FiledAt(lists: seq<seq<Tid>>, p: nat, t: Tid, yielded: bool): seq<seq<Tid>>
    requires p < |lists|
  {
    lists[p := if yielded then lists[p] + [t] else [t] + lists[p]]
  }

  lemma {:induction false} WithoutNothing(list: seq<Tid>, t: Tid)
    requires t !in list
    ensures Without(list, t) == list
  {
    if list == [] {
    } else {
      assert list == [list[0]] + list[1..];
      WithoutNothing(list[1..], t);
    }
  }

  lemma HeadSwaps(list: seq<Tid>, from: Tid)
    requires list != [] && Distinct(list) && from !in list
    ensures Without([from] + list, list[0]) == [from] + list[1..]
    ensures Without([list[0]] + ([from] + list[1..]), from) == list
  {
    assert ([from] + list)[1..] == list;
    WithoutNothing(list[1..], list[0]);
    assert ([list[0]] + ([from] + list[1..]))[1..] == [from] + list[1..];
    assert ([from] + list[1..])[1..] == list[1..];
    WithoutNothing(list[1..], from);
  }

  class Scheduler {
    const priorityTable: array<seq<Tid>>
    var readyGroup: nat
    var current: Tid
    var lockNest: int
    var stat: map<Tid, Stat>
    var yielding: set<Tid>
    var priority: map<Tid, nat>

    ghost predicate Tables()
      reads this, priorityTable
    {
      && priorityTable.Length == PRIORITY_MAX
      && Indexes(readyGroup, priorityTable[..])
      && Filed(priorityTable[..], priority)
      && stat.Keys == priority.Keys && current in stat
    }

    /** Bitmap and lists agree, the lists hold exactly the ready threads, and only the current
        thread can be running. */
    ghost predicate Valid()
      reads this, priorityTable
    {
      && Tables()
      && ReadyIsListed(priorityTable[..], stat, {})
      && (forall t :: t in stat && stat[t] == Running ==> t == current)
      && stat[current] != Ready
      && 0 <= lockNest
    }

    constructor (idle: Tid, stat: map<Tid, Stat>, priority: map<Tid, nat>)
      requires stat.Keys == priority.Keys && idle in stat && stat[idle] == Running
      requires forall t :: t in stat && t != idle ==> stat[t] == Initial || stat[t] == Suspended
      requires forall t :: t in priority ==> priority[t] < PRIORITY_MAX
      ensures Valid() && fresh(priorityTable) && lockNest == 0 && current == idle
    {
      priorityTable := new seq<Tid>[PRIORITY_MAX](_ => []);
      readyGroup, current, lockNest := 0, idle, 0;
      this.stat, this.priority, yielding := stat, priority, {};
      new;
      forall p | 0 <= p < PRIORITY_MAX ensures !Bit(0, p) {
        ZeroBit(p);
      }
    }

    /** `rt_schedule_insert_thread` */
    method InsertThread(thread: Tid)
      requires Tables() && thread in stat && !Listed(priorityTable[..], thread)
      requires ReadyIsListed(priorityTable[..], stat, {thread})
      modifies this`stat, this`readyGroup, priorityTable
      ensures Tables() && ReadyIsListed(priorityTable[..], stat, {})
      ensures stat == old(stat)[thread := if thread == current then Running else Ready]
      ensures thread == current ==> priorityTable[..] == old(priorityTable[..])
      ensures thread != current ==> var old_ := old(priorityTable[..][priority[thread]]);
              priorityTable[..] == old(priorityTable[..])
                [priority[thread] := if thread in yielding then old_ + [thread] else [thread] + old_]
    {
      hide Filed, Indexes, Listed;
      if thread == current {
        stat := stat[thread := Running];
        return;
      }
      PriorityBound(priorityTable[..], priority, thread);
      stat := stat[thread := Ready];
      var p := priority[thread];
      ghost var lists := priorityTable[..];
      if thread in yielding {
        priorityTable[p] := priorityTable[p] + [thread];
      } else {
        priorityTable[p] := [thread] + priorityTable[p];
      }
      assert priorityTable[..] == lists[p := priorityTable[p]];
      FileOne(lists, priority, thread, priorityTable[p]);
      IndexInsert(readyGroup, lists, p, priorityTable[p]);
      readyGroup := Or(readyGroup, Pow2(p));
    }

    /** `rt_schedule_remove_thread` */
    method RemoveThread(thread: Tid)
      requires Tables() && thread in stat && ReadyIsListed(priorityTable[..], stat, {thread})
      modifies this`readyGroup, priorityTable
      ensures Tables() && !Listed(priorityTable[..], thread)
      ensures ReadyIsListed(priorityTable[..], stat, {thread})
      ensures var p := priority[thread];
              priorityTable[..] ==
                old(priorityTable[..])[p := old(Without(priorityTable[..][priority[thread]], thread))]
    {
      hide Filed, Listed;
      PriorityBound(priorityTable[..], priority, thread);
      var p := priority[thread];
      ghost var lists := priorityTable[..];
      UnfileOne(lists, priority, thread);
      WithoutKeeps(lists[p], thread);
      priorityTable[p] := Without(priorityTable[p], thread);
      assert priorityTable[..] == lists[p := priorityTable[p]];
      if priorityTable[p] == [] {
        IndexRemove(readyGroup, lists, p);
        readyGroup := AndNot(readyGroup, Pow2(p));
      } else {
        assert lists[p] != [];
      }
    }

    /** `_scheduler_get_highest_priority_thread` */
    method HighestPriorityThread() returns (thread: Tid, priorityLevel: nat)
      requires Tables() && readyGroup != 0
      ensures priorityLevel < PRIORITY_MAX && priorityTable[priorityLevel] != []
      ensures Head(priorityTable[..], priorityLevel, thread)
      ensures thread in priority && priority[thread] == priorityLevel
      ensures Listed(priorityTable[..], thread)
      ensures forall t :: Listed(priorityTable[..], t) ==> t in priority && priorityLevel <= priority[t]
    {
      HighestReady(readyGroup, priorityTable[..]);
      WordIsPow();
      priorityLevel := FfsTable(readyGroup) - 1;
      thread := priorityTable[priorityLevel][0];
      assert thread in priorityTable[..][priorityLevel];
    }

    /** The switch at the heart of `rt_schedule`: the old thread is filed again if it could still
        run, and the new one leaves its list. */
    method SwitchTo(toThread: Tid, needInsertFromThread: bool)
      requires Valid() && toThread in stat && stat[toThread] == Ready
      requires MostUrgent(stat, priority, toThread)
      requires needInsertFromThread == (stat[current] == Running) && (needInsertFromThread ==> current !in yielding)
      requires needInsertFromThread ==> priority[toThread] <= priority[current]
      modifies this`current, this`stat, this`readyGroup, priorityTable
      ensures Valid() && current == toThread
      ensures stat == old(stat[current := if needInsertFromThread then Ready else stat[current]][toThread := Running])
      ensures MostUrgent(stat, priority, current)
      ensures priorityTable[..] == Switched(old(priorityTable[..]), needInsertFromThread, priority[old(current)],
          old(current), priority[toThread], toThread)
    {
      hide Filed, Indexes, Listed;
      var fromThread := current;
      PriorityBound(priorityTable[..], priority, fromThread);
      PriorityBound(priorityTable[..], priority, toThread);
      current := toThread;
      if needInsertFromThread {
        InsertThread(fromThread);
      }
      RemoveThread(toThread);
      stat := stat[toThread := Running];
    }

    /** The current thread goes on; it was in no list. */
    method Stay()
      requires Valid() && stat[current] == Running
      modifies this`stat, this`readyGroup, priorityTable
      ensures Valid() && stat == old(stat) && priorityTable[..] == old(priorityTable[..])
    {
      hide Filed, Indexes, Listed;
      PriorityBound(priorityTable[..], priority, current);
      WithoutNothing(priorityTable[..][priority[current]], current);
      RemoveThread(current);
      stat := stat[current := Running];
    }

    /** The current thread need not make way: nobody is more urgent, and nobody equal if it has yielded. */
    ghost predicate Stays()
      requires current in priority && stat.Keys <= priority.Keys
      reads this
    {
      MostUrgent(stat, priority, current) && (current in yielding ==> Alone(stat, priority, current))
    }

    /** `rt_schedule` */
    method Schedule()
      requires Valid()
      modifies this`current, this`stat, this`yielding, this`readyGroup, priorityTable
      ensures Valid()
      ensures lockNest != 0 ==> current == old(current) && stat == old(stat) && yielding == old(yielding)
      ensures Chosen(old(stat), stat, current)
      ensures lockNest == 0 ==>
                old(AllStopped(stat)) || (stat[current] == Running && MostUrgent(stat, priority, current))
      ensures lockNest == 0 && old(stat[current] == Running) ==> (current == old(current) <==> old(Stays()))
      ensures yielding == if lockNest == 0 && old(stat[current] == Running && AnyReady(stat))
                          then old(yielding) - {old(current)} else old(yielding)
      ensures current != old(current) ==> Head(old(priorityTable[..]), priority[current], current)
      ensures priorityTable[..] == if current == old(current) then old(priorityTable[..])
                else Switched(old(priorityTable[..]), old(stat[current] == Running), priority[old(current)],
                    old(current), priority[current], current)
    {
      hide Filed, Indexes, Listed;
      ReadyKnown(priorityTable[..], stat, readyGroup);
      if lockNest == 0 {
        if readyGroup == 0 {
          NothingListed(readyGroup, priorityTable[..]);
        } else {
          var needInsertFromThread := false;
          var toThread, highest := HighestPriorityThread();
          if stat[current] == Running {
            if priority[current] < highest {
              toThread := current;
            } else if priority[current] == highest && current !in yielding {
              toThread := current;
            } else {
              needInsertFromThread := true;
            }
            yielding := yielding - {current};
          }
          if toThread != current {
            SwitchTo(toThread, needInsertFromThread);
          } else {
            Stay();
          }
        }
      }
    }

    /** `rt_thread_suspend`, which a thread may only call on itself. */
    method Suspend() returns (ok: bool)
      requires Valid()
      modifies this`stat, this`readyGroup, priorityTable
      ensures Valid()
      ensures ok == old(stat[current] == Running)
      ensures stat == if ok then old(stat)[current := Suspended] else old(stat)
      ensures priorityTable[..] == old(priorityTable[..])
    {
      hide Filed, Indexes, Listed;
      if stat[current] != Running {
        return false;
      }
      PriorityBound(priorityTable[..], priority, current);
      WithoutNothing(priorityTable[..][priority[current]], current);
      RemoveThread(current);
      stat := stat[current := Suspended];
      return true;
    }

    /** `rt_thread_resume` */
    method Resume(thread: Tid) returns (ok: bool)
      requires Valid() && thread in stat
      modifies this`stat, this`readyGroup, priorityTable
      ensures Valid()
      ensures ok == old(stat[thread] == Suspended)
      ensures stat == if ok then old(stat)[thread := if thread == current then Running else Ready] else old(stat)
      ensures priority[thread] < priorityTable.Length
      ensures priorityTable[..] == if ok && thread != current
                                   then FiledAt(old(priorityTable[..]), priority[thread], thread, thread in yielding)
                                   else old(priorityTable[..])
    {
      hide Filed, Indexes, Listed;
      PriorityBound(priorityTable[..], priority, thread);
      if stat[thread] != Suspended {
        return false;
      }
      InsertThread(thread);
      return true;
    }

    /** `rt_thread_control` with the change-priority command */
    method ChangePriority(thread: Tid, level: nat)
      requires Valid() && thread in stat && level < PRIORITY_MAX
      modifies this`stat, this`priority, this`readyGroup, priorityTable
      ensures Valid()
      ensures stat == old(stat) && priority == old(priority)[thread := level]
      ensures old(priority[thread] < priorityTable.Length)
      ensures priorityTable[..] ==
                if stat[thread] != Ready then old(priorityTable[..])
                else FiledAt(Unfiled(old(priorityTable[..]), old(priority[thread]), thread), level, thread,
                             thread in yielding)
    {
      hide Filed, Indexes, Listed;
      PriorityBound(priorityTable[..], priority, thread);
      if stat[thread] == Ready {
        RemoveThread(thread);
        PriorityChange(priorityTable[..], priority, thread, level);
        priority := priority[thread := level];
        InsertThread(thread);
      } else {
        PriorityChange(priorityTable[..], priority, thread, level);
        priority := priority[thread := level];
      }
    }

    /** `rt_thread_detach` and `rt_thread_delete`, which do not reschedule. */
    method Close(thread: Tid)
      requires Valid() && thread in stat
      modifies this`stat, this`readyGroup, priorityTable
      ensures Valid()
      ensures stat == old(stat)[thread := Closed]
      ensures priority[thread] < priorityTable.Length
      ensures priorityTable[..] ==
                if old(stat[thread]) == Ready then Unfiled(old(priorityTable[..]), priority[thread], thread)
                else old(priorityTable[..])
    {
      hide Filed, Indexes, Listed;
      PriorityBound(priorityTable[..], priority, thread);
      ghost var lists := priorityTable[..];
      if stat[thread] != Ready { UnfiledNothing(lists, priority[thread], thread); }
      if stat[thread] != Closed {
        if stat[thread] != Initial {
          RemoveThread(thread);
          assert priorityTable[..] == Unfiled(lists, priority[thread], thread);
        }
        stat := stat[thread := Closed];
      }
    }

    /** `rt_thread_yield` */
    method Yield()
      requires Valid()
      modifies this`current, this`stat, this`yielding, this`readyGroup, priorityTable
      ensures Valid()
      ensures Chosen(old(stat), stat, current)
      ensures lockNest == 0 ==>
                old(AllStopped(stat)) || (stat[current] == Running && MostUrgent(stat, priority, current))
      ensures lockNest == 0 && old(stat[current] == Running) ==>
                (current == old(current) <==> old(Alone(stat, priority, current)))
      ensures current != old(current) ==> Head(old(priorityTable[..]), priority[current], current)
      ensures priorityTable[..] == if current == old(current) then old(priorityTable[..])
                else Switched(old(priorityTable[..]), old(stat[current] == Running), priority[old(current)],
                    old(current), priority[current], current)
    {
      yielding := yielding + {current};
      Schedule();
    }

    /** `rt_enter_critical` */
    method EnterCritical()
      requires Valid()
      modifies this`lockNest
      ensures Valid() && lockNest == old(lockNest) + 1
    {
      lockNest := lockNest + 1;
    }

    /** `rt_exit_critical` */
    method ExitCritical()
      requires Valid()
      modifies this`lockNest, this`current, this`stat, this`yielding, this`readyGroup, priorityTable
      ensures Valid()
      ensures lockNest == if old(lockNest) > 1 then old(lockNest) - 1 else 0
      ensures Chosen(old(stat), stat, current)
      ensures lockNest != 0 ==> current == old(current) && stat == old(stat) && yielding == old(yielding)
      ensures lockNest == 0 ==>
                old(AllStopped(stat)) || (stat[current] == Running && MostUrgent(stat, priority, current))
      ensures lockNest == 0 && old(stat[current] == Running) ==> (current == old(current) <==> old(Stays()))
    {
      lockNest := lockNest - 1;
      if lockNest <= 0 {
        lockNest := 0;
        Schedule();
      }
    }

    /** What goes on inside a critical section, from its entry on: it is entered more deeply, left again
        but not altogether, and threads are woken up.  It changes nobody's turn. */
    method InCritical(ops: seq<CriticalOp>)
      requires Valid() && lockNest >= 1 && StaysInside(ops, lockNest)
      requires forall op :: op in ops && op.WakeUp? ==> op.thread in stat
      modifies this`lockNest, this`current, this`stat, this`yielding, this`readyGroup, priorityTable
      ensures Valid() && lockNest == old(lockNest) + Depth(ops) && current == old(current) && yielding == old(yielding)
      ensures Awoken(old(stat), stat, current, ops)
    {
      hide Filed, Indexes, Listed, ReadyIsListed;
      var n := 0;
      assert ops[..0] == [];
      while n < |ops|
        invariant n <= |ops| && Valid() && current == old(current) && yielding == old(yielding)
        invariant lockNest == old(lockNest) + Depth(ops[..n]) && lockNest >= 1
        invariant Awoken(old(stat), stat, current, ops[..n])
      {
        DepthNext(ops, n);
        assert ops[n] in ops;
        ghost var before := stat;
        match ops[n] {
          case Enter => EnterCritical();
          case Exit => ExitCritical();
          case WakeUp(thread) =>
            var ok := Resume(thread);
            Schedule();
        }
        AwokenNext(old(stat), before, stat, current, ops, n);
        n := n + 1;
      }
      assert ops[..n] == ops;
    }

    /** Wake-ups inside a critical section, however many and however deeply nested, take effect at its
        outermost exit, and that exit honours them all. */
    method DeferredWakeUps(ops: seq<CriticalOp>)
      requires Valid() && lockNest == 0 && stat[current] == Running
      requires StaysInside(ops, 1) && Depth(ops) == 0
      requires forall op :: op in ops && op.WakeUp? ==> op.thread in stat
      modifies this`lockNest, this`current, this`stat, this`yielding, this`readyGroup, priorityTable
      ensures Valid() && lockNest == 0 && stat.Keys == old(stat.Keys)
      ensures stat[current] == Running && MostUrgent(stat, priority, current)
      ensures forall t :: t in stat ==>
                (Runs(stat[t]) <==> old(Runs(stat[t])) || (old(stat[t]) == Suspended && WakeUp(t) in ops))
      ensures old(current) in priority && stat.Keys <= priority.Keys
      ensures current == old(current) <==>
                forall t :: t in stat && t != old(current) && Runs(stat[t]) ==>
                  && priority[old(current)] <= priority[t]
                  && (old(current in yielding) ==> priority[old(current)] < priority[t])
    {
      hide Filed, Indexes, Listed, ReadyIsListed;
      EnterCritical();
      InCritical(ops);
      ghost var first, before := current, stat;
      ExitCritical();
      SameCompany(before, stat, priority, first);
    }

    /** The current thread runs at priority `p`, and nobody who is ready is more urgent. */
    ghost predicate Leads(p: nat)
      reads this, priorityTable
    {
      && stat.Keys == priority.Keys && current in stat && p < PRIORITY_MAX == priorityTable.Length
      && stat[current] == Running && MostUrgent(stat, priority, current) && priority[current] == p
    }

    /** Yields once when list `p`, that of the current thread's priority, is `list`. */
    method YieldOnce(p: nat, ghost list: seq<Tid>)
      requires Valid() && lockNest == 0 && Leads(p) && list == priorityTable[p]
      modifies this`current, this`stat, this`yielding, this`readyGroup, priorityTable
      ensures Valid() && lockNest == 0 && Leads(p)
      ensures current == if list == [] then old(current) else list[0]
      ensures priorityTable[p] == if list == [] then [] else [old(current)] + list[1..]
      ensures Distinct(list) && old(current) !in list
    {
      hide Filed, Indexes, Listed;
      ghost var first, lists := current, priorityTable[..];
      PriorityBound(lists, priority, first);
      if lists[p] == [] {
        NobodyElse(lists, stat, priority, first);
      } else {
        HeadIsListed(lists, priority, p);
        HeadSwaps(lists[p], first);
      }
      Yield();
    }

    /** Yielding rotates threads of equal priority if and only if the yielding thread shares its priority with
        at most one other: two threads alternate, but of three or more the first two do, and the others are
        passed over.  `ran` lists who has the processor after each of `n` yields. */
    method Yields(p: nat, n: nat) returns (ran: seq<Tid>)
      requires Valid() && lockNest == 0 && Leads(p)
      modifies this`current, this`stat, this`yielding, this`readyGroup, priorityTable
      ensures Valid() && lockNest == 0 && Leads(p)
      ensures |ran| == n && forall i :: 0 <= i < n ==> ran[i] == Turn(old(current), old(priorityTable[p]), i + 1)
      ensures n >= |old(priorityTable[p])| ==>
                ((forall t :: t in old(priorityTable[p]) ==> t in ran) <==> |old(priorityTable[p])| <= 1)
    {
      hide Valid, MostUrgent, Turn, ListAfter, Distinct;
      ghost var first, list := current, priorityTable[p];
      ran := [];
      var i := 0;
      TurnNext(first, list, 0);
      while i < n
        invariant i <= n && |ran| == i
        invariant Valid() && lockNest == 0 && Leads(p)
        invariant current == Turn(first, list, i) && priorityTable[p] == ListAfter(first, list, i)
        invariant i > 0 ==> Distinct(list) && first !in list
        invariant forall j :: 0 <= j < i ==> ran[j] == Turn(first, list, j + 1)
      {
        TurnNext(first, list, i);
        ghost var now := priorityTable[p];
        YieldOnce(p, now);
        if i == 0 { assert now == list; }
        ran := ran + [current];
        i := i + 1;
      }
      if n >= |list| { WhoRan(first, list, ran); }
    }
  }

  /** Whose turn it is after `i` yields. */
  ghost function Turn(first: Tid, list: seq<Tid>, i: nat): Tid {
    if list == [] || i % 2 == 0 then first else list[0]
  }

  /** The list of that priority after `i` yields. */
  ghost function ListAfter(first: Tid, list: seq<Tid>, i: nat): seq<Tid> {
    if list == [] || i % 2 == 0 then list else [first] + list[1..]
  }

  lemma TurnNext(first: Tid, list: seq<Tid>, i: nat)
    ensures Turn(first, list, 0) == first && ListAfter(first, list, 0) == list
    ensures var now := ListAfter(first, list, i);
            && (now == [] <==> list == [])
            && Turn(first, list, i + 1) == (if now == [] then Turn(first, list, i) else now[0])
            && ListAfter(first, list, i + 1) == if now == [] then [] else [Turn(first, list, i)] + now[1..]
  {
    assert (i + 1) % 2 != i % 2;
    if list != [] {
      assert [list[0]] + ([first] + list[1..])[1..] == list;
    }
  }

  lemma WhoRan(first: Tid, list: seq<Tid>, ran: seq<Tid>)
    requires |ran| >= |list| && forall i :: 0 <= i < |ran| ==> ran[i] == Turn(first, list, i + 1)
    requires |ran| > 0 ==> Distinct(list) && first !in list
    ensures (forall t :: t in list ==> t in ran) <==> |list| <= 1
  {
    if |list| == 1 {
      assert ran[0] == list[0];
    } else if |list| > 1 {
      assert list[1] in list && list[1] !in ran;
    }
  }

  /** A thread whose list is empty shares its priority with no ready thread. */
  lemma NobodyElse(lists: seq<seq<Tid>>, stat: map<Tid, Stat>, priority: map<Tid, nat>, t: Tid)
    requires Filed(lists, priority) && ReadyIsListed(lists, stat, {}) && stat.Keys == priority.Keys
    requires t in priority && priority[t] < |lists| && lists[priority[t]] == [] && MostUrgent(stat, priority, t)
    ensures Alone(stat, priority, t)
  {
    forall u | u in stat && stat[u] == Ready ensures priority[t] < priority[u] {
      PriorityBound(lists, priority, u);
    }
  }

  /** Before the choice and after it the same threads compete with `t`. */
  lemma SameCompany(before: map<Tid, Stat>, after: map<Tid, Stat>, priority: map<Tid, nat>, t: Tid)
    requires before.Keys == after.Keys && t in priority && before.Keys <= priority.Keys
    requires forall u :: u in before && before[u] == Running ==> u == t
    requires forall u :: u in before && u != t ==> (Runs(after[u]) <==> Runs(before[u]))
    requires t in before && before[t] == Running
    ensures MostUrgent(before, priority, t) <==>
              forall u :: u in after && u != t && Runs(after[u]) ==> priority[t] <= priority[u]
    ensures Alone(before, priority, t) <==>
              forall u :: u in after && u != t && Runs(after[u]) ==> priority[t] < priority[u]
  {
    assert forall u :: u in before && u != t ==> (before[u] == Ready <==> Runs(after[u]));
  }

  // ----- critical sections -----

  datatype CriticalOp = Enter | Exit | WakeUp(thread: Tid)

  /** How much deeper the nesting is after `ops`. */
  function Depth(ops: seq<CriticalOp>): int {
    if ops == [] then 0
    else Depth(ops[..|ops| - 1]) + match ops[|ops| - 1] case Enter => 1 case Exit => -1 case WakeUp(_) => 0
  }

  /** Starting at depth `nest`, the section is never left altogether. */
  ghost predicate StaysInside(ops: seq<CriticalOp>, nest: int) {
    forall n: nat :: n <= |ops| ==> nest + Depth(ops[..n]) >= 1
  }

  lemma DepthNext(ops: seq<CriticalOp>, n: nat)
    requires n < |ops|
    ensures Depth(ops[..n + 1]) == Depth(ops[..n]) + match ops[n] case Enter => 1 case Exit => -1 case WakeUp(_) => 0
  {
    assert ops[..n + 1][..n] == ops[..n];
  }

  /** Just the suspended threads that were woken up can run in addition. */
  ghost predicate Awoken(before: map<Tid, Stat>, after: map<Tid, Stat>, current: Tid, ops: seq<CriticalOp>) {
    && after.Keys == before.Keys
    && forall t :: t in after ==>
         after[t] == if before[t] == Suspended && WakeUp(t) in ops then if t == current then Running else Ready
                     else before[t]
  }

  lemma AwokenNext(first: map<Tid, Stat>, before: map<Tid, Stat>, after: map<Tid, Stat>, current: Tid,
                   ops: seq<CriticalOp>, n: nat)
    requires n < |ops| && Awoken(first, before, current, ops[..n])
    requires after == if ops[n].WakeUp? && ops[n].thread in before && before[ops[n].thread] == Suspended
                      then before[ops[n].thread := if ops[n].thread == current then Running else Ready] else before
    ensures Awoken(first, after, current, ops[..n + 1])
  {
    assert ops[..n + 1] == ops[..n] + [ops[n]];
    assert forall t :: WakeUp(t) in ops[..n + 1] <==> WakeUp(t) in ops[..n] || WakeUp(t) == ops[n];
  }
}
