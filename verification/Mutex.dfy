/** The mutex: recursive takes, direct hand-off to the first waiter and priority inheritance.
    Each section that runs with interrupts disabled is one step; other threads and timer
    expiries happen between steps. */
module Mutex {
  import opened IpcList

  const HOLD_MAX: nat := 0xff
  const VALUE_MAX: nat := 0xffff
  const NO_PRIORITY: Priority := 0xff

  datatype Owner = Nobody | Held(tid: Tid)
  datatype Outcome = Ok | Timeout | Full | Error | Sleeping

  datatype State = State(value: nat, owner: Owner, hold: nat, originalPriority: Priority,
                         waiters: seq<Tid>, prio: map<Tid, Priority>)

  function Init(base: map<Tid, Priority>): State {
    State(1, Nobody, 0, NO_PRIORITY, [], base)
  }

  /** A thread can call the mutex unless it sleeps on it. */
  predicate Awake(s: State, t: Tid) {
    t in s.prio && t !in s.waiters
  }

  function TakeStep(s: State, t: Tid, timeout: int): (State, Outcome)
    requires Awake(s, t) && Known(s.waiters, s.prio)
  {
    if s.owner == Held(t) then
      if s.hold < HOLD_MAX then (s.(hold := s.hold + 1), Ok) else (s, Full)
    else if s.value > 0 then
      var s1 := s.(value := s.value - 1, owner := Held(t), originalPriority := s.prio[t]);
      if s1.hold < HOLD_MAX then (s1.(hold := s1.hold + 1), Ok) else (s1, Full)
    else if timeout == 0 then
      (s, Timeout)
    else
      var prio := Lend(s, t);
      (s.(prio := prio, waiters := Enqueue(s.waiters, t, Prio, prio)), Sleeping)
  }

  /** A more urgent waiter lends the owner its priority. */
  function Lend(s: State, t: Tid): (r: map<Tid, Priority>)
    requires t in s.prio
    ensures r.Keys == s.prio.Keys
  {
    if s.owner.Held? && s.owner.tid in s.prio && s.prio[t] < s.prio[s.owner.tid]
    then s.prio[s.owner.tid := s.prio[t]]
    else s.prio
  }

  function ReleaseStep(s: State, t: Tid): (State, Outcome)
    requires Awake(s, t) && Known(s.waiters, s.prio)
  {
    if s.owner != Held(t) then (s, Error)
    else
      var s1 := s.(hold := if s.hold == 0 then 0xff else s.hold - 1);
      if s1.hold != 0 then (s1, Ok) else LetGo(s1.(prio := s1.prio[t := s1.originalPriority]))
  }

  /** The last hold is gone and the owner has its priority back: hand over, or become free. */
  function LetGo(s: State): (State, Outcome)
    requires Known(s.waiters, s.prio)
  {
    if s.waiters != [] then
      var n := s.waiters[0];
      var s1 := s.(owner := Held(n), originalPriority := s.prio[n]);
      if s1.hold < HOLD_MAX then (s1.(hold := s1.hold + 1, waiters := s1.waiters[1..]), Ok) else (s1, Full)
    else if s.value < VALUE_MAX then
      (s.(value := s.value + 1, owner := Nobody, originalPriority := NO_PRIORITY), Ok)
    else (s, Full)
  }

  /** The timer of a sleeping thread runs out; its take returns the timeout error. */
  function ExpireStep(s: State, t: Tid): State {
    s.(waiters := Without(s.waiters, t))
  }

  // ----- the invariant -----

  ghost predicate Inv(s: State, base: map<Tid, Priority>) {
    && s.prio.Keys == base.Keys
    && Known(s.waiters, s.prio) && Distinct(s.waiters) && Sorted(s.waiters, s.prio)
    && (s.owner == Nobody ==> s.value == 1 && s.hold == 0 && s.waiters == [] && s.originalPriority == NO_PRIORITY)
    && (s.owner.Held? ==>
          && s.value == 0 && 1 <= s.hold <= HOLD_MAX
          && s.owner.tid in s.prio && s.owner.tid !in s.waiters
          && s.originalPriority == base[s.owner.tid]
          && s.prio[s.owner.tid] <= base[s.owner.tid]
          && (forall w :: w in s.waiters ==> s.prio[s.owner.tid] <= s.prio[w]))
    && (forall t :: t in s.prio && s.owner != Held(t) ==> s.prio[t] == base[t])
  }

  lemma TakeKeeps(s: State, t: Tid, timeout: int, base: map<Tid, Priority>)
    requires Inv(s, base) && Awake(s, t)
    ensures Inv(TakeStep(s, t, timeout).0, base)
    ensures TakeStep(s, t, timeout).1 == Full <==> s.owner == Held(t) && s.hold == HOLD_MAX
  {
    if s.owner != Held(t) && s.value == 0 && timeout != 0 {
      var o, prio := s.owner.tid, Lend(s, t);
      var r := Enqueue(s.waiters, t, Prio, prio);
      assert Known(s.waiters, prio) && Sorted(s.waiters, prio);
      EnqueueKeeps(s.waiters, t, Prio, prio);
      EnqueueSorted(s.waiters, t, prio);
      assert forall w :: w in r ==> prio[o] <= prio[w];
    }
  }

  /** The first waiter is the most urgent one, and the rest of the queue is a queue. */
  lemma FirstWaiter(waiters: seq<Tid>, prio: map<Tid, Priority>)
    requires Known(waiters, prio) && Distinct(waiters) && Sorted(waiters, prio) && waiters != []
    ensures var rest := waiters[1..];
            && Known(rest, prio) && Distinct(rest) && Sorted(rest, prio)
            && (forall w :: w in waiters <==> w == waiters[0] || w in rest) && waiters[0] !in rest
    ensures forall w :: w in waiters ==> prio[waiters[0]] <= prio[w]
  {
    var rest := waiters[1..];
    assert forall i :: 0 <= i < |rest| ==> rest[i] == waiters[i + 1];
    assert waiters == [waiters[0]] + rest;
    forall w | w in waiters ensures prio[waiters[0]] <= prio[w] {
      var i :| 0 <= i < |waiters| && waiters[i] == w;
    }
  }

  /** A full release hands over to the most urgent waiter, or frees the mutex; no branch for an overflow is taken. */
  lemma ReleaseKeeps(s: State, t: Tid, base: map<Tid, Priority>)
    requires Inv(s, base) && Awake(s, t)
    ensures Inv(ReleaseStep(s, t).0, base)
    ensures ReleaseStep(s, t).1 == if s.owner == Held(t) then Ok else Error
    ensures s.owner == Held(t) && s.hold == 1 ==>
              && ReleaseStep(s, t).0.prio[t] == base[t]
              && (s.waiters == [] ==> ReleaseStep(s, t).0.owner == Nobody)
              && (s.waiters != [] ==> HandedOver(s, ReleaseStep(s, t).0, base))
  {
    hide Sorted, Distinct;
    if s.owner == Held(t) && s.hold == 1 {
      LoanReturned(s, t, base);
      if s.waiters != [] { FirstWaiter(s.waiters, base); }
    }
  }

  /** With the owner's own priority restored, everyone has their own. */
  lemma LoanReturned(s: State, t: Tid, base: map<Tid, Priority>)
    requires Inv(s, base) && s.owner == Held(t)
    ensures var prio := s.prio[t := s.originalPriority];
            prio == base && Known(s.waiters, prio) && Sorted(s.waiters, prio)
  {
    var prio := s.prio[t := s.originalPriority];
    assert forall w :: w in s.waiters ==> prio[w] == s.prio[w] == base[w];
  }

  /** The new owner was the first waiter, and no waiter was more urgent. */
  ghost predicate HandedOver(s: State, s': State, base: map<Tid, Priority>)
    requires s.waiters != []
  {
    && s'.owner == Held(s.waiters[0]) && s'.hold == 1
    && s'.waiters == s.waiters[1..]
    && forall w :: w in s.waiters && w in base && s.waiters[0] in base ==> base[s.waiters[0]] <= base[w]
  }

  lemma ExpireKeeps(s: State, t: Tid, base: map<Tid, Priority>)
    requires Inv(s, base) && t in s.waiters
    ensures Inv(ExpireStep(s, t), base)
  {
    WithoutKeeps(s.waiters, t);
    WithoutSorted(s.waiters, t, s.prio);
  }

  // ----- what each call answers -----

  function Least(a: Priority, b: Priority): (r: Priority)
    ensures (r == a || r == b) && r <= a && r <= b
  {
    if b < a then b else a
  }

  /** Some other thread has the mutex. */
  predicate Taken(s: State, t: Tid) {
    s.owner != Nobody && s.owner != Held(t)
  }

  /** A take succeeds unless somebody else has the mutex; then it gives up if and only if it may not wait, and
      otherwise sleeps, having lent the owner its priority if that is more urgent, and nobody anything else. */
  lemma TakeAnswers(s: State, t: Tid, timeout: int, base: map<Tid, Priority>)
    requires Inv(s, base) && Awake(s, t)
    ensures var (s', r) := TakeStep(s, t, timeout);
            && (r == Sleeping <==> Taken(s, t) && timeout != 0)
            && (r == Timeout <==> Taken(s, t) && timeout == 0)
            && (r == Full <==> s.owner == Held(t) && s.hold == HOLD_MAX)
            && r != Error
            && (r == Ok ==> s'.owner == Held(t) && s'.hold == HoldOf(s, t) + 1 && s'.value == 0
                            && s'.waiters == s.waiters && s'.prio == s.prio)
            && (r == Timeout || r == Full ==> s' == s)
            && (r == Sleeping ==>
                  && s'.owner == s.owner && s'.hold == s.hold && s'.value == s.value
                  && s.owner.tid in s.prio && s'.prio == s.prio[s.owner.tid := Least(s.prio[s.owner.tid], s.prio[t])]
                  && forall u :: u in s'.waiters <==> u in s.waiters || u == t)
  {
    if Taken(s, t) && timeout != 0 {
      assert Known(s.waiters, Lend(s, t));
      EnqueueKeeps(s.waiters, t, Prio, Lend(s, t));
    }
  }

  /** A release changes no priority but that of the owner, which its last release restores; an inner one gives
      back one hold, one by another thread nothing. */
  lemma ReleaseAnswers(s: State, t: Tid, base: map<Tid, Priority>)
    requires Inv(s, base) && Awake(s, t)
    ensures var (s', r) := ReleaseStep(s, t);
            && r == (if s.owner == Held(t) then Ok else Error)
            && (r == Error ==> s' == s)
            && (r == Ok && s.hold > 1 ==> s' == s.(hold := s.hold - 1))
            && (r == Ok && s.hold == 1 ==>
                  && s'.prio == base
                  && (s.waiters == [] ==> s' == Init(base))
                  && (s.waiters != [] ==> s'.owner == Held(s.waiters[0]) && s'.waiters == s.waiters[1..]))
  {
    ReleaseKeeps(s, t, base);
    hide Sorted, Distinct;
    if s.owner == Held(t) && s.hold == 1 { LoanReturned(s, t, base); }
  }

  ghost function HoldOf(s: State, t: Tid): nat {
    if s.owner == Held(t) then s.hold else 0
  }

  // ----- runs -----

  datatype Event = Take(t: Tid, timeout: int) | Release(t: Tid) | Expire(t: Tid)

  predicate Enabled(s: State, e: Event) {
    if e.Expire? then e.t in s.waiters else Awake(s, e.t)
  }

  function Step(s: State, e: Event): (State, Outcome)
    requires Known(s.waiters, s.prio) && Enabled(s, e)
  {
    match e
    case Take(t, timeout) => TakeStep(s, t, timeout)
    case Release(t) => ReleaseStep(s, t)
    case Expire(t) => (ExpireStep(s, t), Timeout)
  }

  lemma StepKeeps(s: State, e: Event, base: map<Tid, Priority>)
    requires Inv(s, base) && Enabled(s, e)
    ensures Inv(Step(s, e).0, base)
  {
    match e
    case Take(t, timeout) => TakeKeeps(s, t, timeout, base);
    case Release(t) => ReleaseKeeps(s, t, base);
    case Expire(t) => ExpireKeeps(s, t, base);
  }

  /** `trace` starts with a new mutex and goes on by the steps `evs`, each by a thread that can take it. */
  ghost predicate Run(base: map<Tid, Priority>, evs: seq<Event>, trace: seq<State>) {
    && |trace| == |evs| + 1
    && trace[0] == Init(base)
    && forall i :: 0 <= i < |evs| ==> Goes(trace[i], evs[i], trace[i + 1])
  }

  ghost predicate Goes(s: State, e: Event, s': State) {
    Known(s.waiters, s.prio) && Enabled(s, e) && s' == Step(s, e).0
  }

  /** Takes that `t` has been told succeeded, minus its successful releases. */
  ghost function Balance(t: Tid, evs: seq<Event>, trace: seq<State>): int
    requires |trace| == |evs| + 1
    requires forall i :: 0 <= i < |evs| ==> Goes(trace[i], evs[i], trace[i + 1])
  {
    if evs == [] then 0
    else
      var k := |evs| - 1;
      assert Goes(trace[k], evs[k], trace[k + 1]);
      assert forall i :: 0 <= i < k ==> Goes(trace[i], evs[i], trace[i + 1]);
      Balance(t, evs[..k], trace[..k + 1]) + Gain(t, trace[k], evs[k])
  }

  /** What one step tells `t`: its own take or release, or that a sleeping take of `t` now succeeds. */
  ghost function Gain(t: Tid, s: State, e: Event): int
    requires Known(s.waiters, s.prio) && Enabled(s, e)
  {
    var (s', r) := Step(s, e);
    if r != Ok then 0
    else if e.Take? then if e.t == t then 1 else 0
    else (if e.t == t then -1 else 0) + if t in s.waiters && t !in s'.waiters then 1 else 0
  }

  lemma GainIsHold(t: Tid, s: State, e: Event, base: map<Tid, Priority>)
    requires Inv(s, base) && Enabled(s, e)
    ensures HoldOf(Step(s, e).0, t) == HoldOf(s, t) + Gain(t, s, e)
  {
    match e {
      case Take(u, timeout) => TakeKeeps(s, u, timeout, base);
      case Release(u) =>
        ReleaseKeeps(s, u, base);
        if s.waiters != [] { FirstWaiter(s.waiters, s.prio); }
      case Expire(u) =>
    }
  }

  /** In every run, at every moment: the invariant holds, and what each thread has been told
      adds up to its share of the mutex.  So at most one thread has ever been told more takes
      than it has given back, and it is the owner. */
  lemma {:induction false} RunTheorem(base: map<Tid, Priority>, evs: seq<Event>, trace: seq<State>)
    requires Run(base, evs, trace)
    ensures forall i :: 0 <= i < |trace| ==> Inv(trace[i], base)
    ensures forall t :: Balance(t, evs, trace) == HoldOf(trace[|evs|], t)
    ensures forall t, u :: Balance(t, evs, trace) > 0 && Balance(u, evs, trace) > 0 ==> t == u
  {
    if evs == [] {
    } else {
      var k := |evs| - 1;
      RunTheorem(base, evs[..k], trace[..k + 1]);
      assert forall i :: 0 <= i <= k ==> trace[..k + 1][i] == trace[i];
      assert Goes(trace[k], evs[k], trace[k + 1]);
      assert Inv(trace[..k + 1][k], base);
      StepKeeps(trace[k], evs[k], base);
      forall t ensures Balance(t, evs, trace) == HoldOf(trace[|evs|], t) {
        GainIsHold(t, trace[k], evs[k], base);
      }
    }
  }

  // ----- how much is lent -----

  ghost function Sleepers(s: State): set<Tid> {
    set t | t in s.waiters
  }

  /** The threads that have waited at some time since the owner got the mutex. */
  ghost function Waited(evs: seq<Event>, trace: seq<State>): set<Tid>
    requires |trace| == |evs| + 1
  {
    var now := Sleepers(trace[|evs|]);
    if evs == [] || trace[|evs|].owner != trace[|evs| - 1].owner then now
    else Waited(evs[..|evs| - 1], trace[..|evs|]) + now
  }

  /** No wait has run out since the owner got the mutex. */
  ghost predicate NoneExpired(evs: seq<Event>, trace: seq<State>)
    requires |trace| == |evs| + 1
  {
    || evs == [] || trace[|evs|].owner != trace[|evs| - 1].owner
    || (!evs[|evs| - 1].Expire? && NoneExpired(evs[..|evs| - 1], trace[..|evs|]))
  }

  /** `p` is the most urgent priority among that of `o` and those of `ts`. */
  ghost predicate MostUrgentOf(p: Priority, o: Tid, ts: set<Tid>, base: map<Tid, Priority>) {
    && o in base && ts <= base.Keys
    && p <= base[o] && (forall t :: t in ts ==> p <= base[t])
    && (p == base[o] || exists t :: t in ts && p == base[t])
  }

  ghost predicate OwnerLent(s: State, waited: set<Tid>, base: map<Tid, Priority>) {
    s.owner.Held? ==> s.owner.tid in s.prio && MostUrgentOf(s.prio[s.owner.tid], s.owner.tid, waited, base)
  }

  lemma LentStep(s: State, e: Event, waited: set<Tid>, base: map<Tid, Priority>)
    requires Inv(s, base) && Enabled(s, e) && OwnerLent(s, waited, base) && Sleepers(s) <= waited
    ensures var s' := Step(s, e).0;
            var now := Sleepers(s');
            OwnerLent(s', if s'.owner == s.owner then waited + now else now, base)
  {
    hide Sorted, Distinct;
    var s' := Step(s, e).0;
    StepKeeps(s, e, base);
    match e {
      case Take(t, timeout) =>
        TakeAnswers(s, t, timeout, base);
        if Taken(s, t) && timeout != 0 {
          assert s.prio[t] == base[t] && t in s'.waiters;
          LentMore(s, s', t, waited, base);
        }
      case Release(t) => ReleaseAnswers(s, t, base);
      case Expire(t) => WithoutKeeps(s.waiters, t);
    }
  }

  lemma LentMore(s: State, s': State, t: Tid, waited: set<Tid>, base: map<Tid, Priority>)
    requires s.owner.Held? && s'.owner == s.owner && t in base && t in s.prio && OwnerLent(s, waited, base)
    requires s.prio[t] == base[t] && s'.prio == s.prio[s.owner.tid := Least(s.prio[s.owner.tid], s.prio[t])]
    requires t in s'.waiters && forall u :: u in s'.waiters ==> u in waited || u == t
    ensures OwnerLent(s', waited + Sleepers(s'), base)
  {
    var o, all := s.owner.tid, waited + Sleepers(s');
    assert all == waited + {t};
    if s.prio[t] < s.prio[o] {
      assert t in all;
    } else if s.prio[o] != base[o] {
      var u :| u in waited && s.prio[o] == base[u];
      assert u in all;
    }
  }

  /** In every run the owner has exactly the most urgent priority among its own and those of the threads that
      have waited since it got the mutex: so just its own and those of its waiters, unless a wait has run out. */
  lemma {:induction false} OwnersPriority(base: map<Tid, Priority>, evs: seq<Event>, trace: seq<State>)
    requires Run(base, evs, trace)
    ensures var s := trace[|evs|];
            && Sleepers(s) <= Waited(evs, trace) && OwnerLent(s, Waited(evs, trace), base)
            && (NoneExpired(evs, trace) ==> OwnerLent(s, Sleepers(s), base))
  {
    hide Inv, Step, Enabled;
    LentOnly(base, evs, trace);
    if evs == [] {
    } else {
      var k := |evs| - 1;
      OwnersPriority(base, evs[..k], trace[..k + 1]);
      RunTheorem(base, evs[..k], trace[..k + 1]);
      assert trace[..k + 1][k] == trace[k];
      assert Goes(trace[k], evs[k], trace[k + 1]);
      assert Inv(trace[..k + 1][k], base);
      LentStep(trace[k], evs[k], Waited(evs[..k], trace[..k + 1]), base);
    }
  }

  /** While no wait runs out, those who have waited still do. */
  lemma {:induction false} LentOnly(base: map<Tid, Priority>, evs: seq<Event>, trace: seq<State>)
    requires Run(base, evs, trace)
    ensures NoneExpired(evs, trace) ==> Waited(evs, trace) == Sleepers(trace[|evs|])
  {
    hide Inv, Step, Enabled;
    if evs == [] {
    } else {
      var k := |evs| - 1;
      LentOnly(base, evs[..k], trace[..k + 1]);
      RunTheorem(base, evs[..k], trace[..k + 1]);
      assert trace[..k + 1][k] == trace[k];
      assert Goes(trace[k], evs[k], trace[k + 1]);
      assert Inv(trace[..k + 1][k], base);
      if !evs[k].Expire? && trace[k + 1].owner == trace[k].owner {
        StaysAsleep(trace[k], evs[k], base);
      }
    }
  }

  lemma StaysAsleep(s: State, e: Event, base: map<Tid, Priority>)
    requires Inv(s, base) && Enabled(s, e) && !e.Expire? && Step(s, e).0.owner == s.owner
    ensures forall t :: t in s.waiters ==> t in Step(s, e).0.waiters
  {
    hide Sorted;
    match e {
      case Take(t, timeout) => TakeAnswers(s, t, timeout, base);
      case Release(t) =>
        ReleaseAnswers(s, t, base);
        if s.waiters != [] { assert s.waiters[0] in s.waiters; }
    }
  }

  // ----- the object, updated in place -----

  class MutexObject {
    var value: nat
    var owner: Owner
    var hold: nat
    var originalPriority: Priority
    var suspendThread: seq<Tid>
    var currentPriority: map<Tid, Priority>

    ghost function Abs(): State
      reads this
    {
      State(value, owner, hold, originalPriority, suspendThread, currentPriority)
    }

    constructor (base: map<Tid, Priority>)
      ensures Abs() == Init(base) && Inv(Abs(), base)
    {
      value, owner, hold, originalPriority := 1, Nobody, 0, NO_PRIORITY;
      suspendThread, currentPriority := [], base;
    }

    /** `rt_mutex_take` up to the point where it returns or goes to sleep. */
    method Take(thread: Tid, timeout: int, ghost base: map<Tid, Priority>) returns (r: Outcome)
      requires Inv(Abs(), base) && Awake(Abs(), thread)
      modifies this
      ensures (Abs(), r) == TakeStep(old(Abs()), thread, timeout)
      ensures Inv(Abs(), base)
    {
      TakeKeeps(Abs(), thread, timeout, base);
      if owner == Held(thread) {
        if hold < HOLD_MAX {
          hold := hold + 1;
        } else {
          return Full;
        }
      } else {
        if value > 0 {
          value := value - 1;
          owner := Held(thread);
          originalPriority := currentPriority[thread];
          // hold is zero here, so the overflow return of the code cannot be reached
          assert hold < HOLD_MAX;
          hold := hold + 1;
        } else {
          if timeout == 0 {
            return Timeout;
          }
          if currentPriority[thread] < currentPriority[owner.tid] {
            currentPriority := currentPriority[owner.tid := currentPriority[thread]];
          }
          suspendThread := SuspendInsert(suspendThread, thread, Prio, currentPriority);
          return Sleeping;
        }
      }
      r := Ok;
    }

    method Release(thread: Tid, ghost base: map<Tid, Priority>) returns (r: Outcome)
      requires Inv(Abs(), base) && Awake(Abs(), thread)
      modifies this
      ensures (Abs(), r) == ReleaseStep(old(Abs()), thread)
      ensures Inv(Abs(), base)
    {
      ReleaseKeeps(Abs(), thread, base);
      if owner != Held(thread) {
        return Error;
      }
      hold := hold - 1;
      if hold == 0 {
        if originalPriority != currentPriority[owner.tid] {
          currentPriority := currentPriority[owner.tid := originalPriority];
        }
        assert currentPriority == old(currentPriority)[thread := originalPriority];
        if suspendThread != [] {
          var next := suspendThread[0];
          owner := Held(next);
          originalPriority := currentPriority[next];
          assert hold < HOLD_MAX;
          hold := hold + 1;
          suspendThread := suspendThread[1..];
        } else {
          assert value < VALUE_MAX;
          value := value + 1;
          owner := Nobody;
          originalPriority := NO_PRIORITY;
        }
      }
      r := Ok;
    }

    method Expire(thread: Tid, ghost base: map<Tid, Priority>)
      requires Inv(Abs(), base) && thread in suspendThread
      modifies this
      ensures Abs() == ExpireStep(old(Abs()), thread) && Inv(Abs(), base)
    {
      ExpireKeeps(Abs(), thread, base);
      suspendThread := Without(suspendThread, thread);
    }
  }
}
