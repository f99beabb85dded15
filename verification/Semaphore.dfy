/** The counting semaphore: a release hands its unit straight to the first waiter and counts it
    only when nobody waits. */
module Semaphore {
  import opened IpcList

  const VALUE_MAX: nat := 0xffff

  datatype State = State(value: nat, waiters: seq<Tid>, flag: Flag)

  datatype Outcome = Taken | Timeout | Sleeping | Released(to: Tid) | Counted | Full

  datatype Event = Take(t: Tid, timeout: int) | Release | Expire(t: Tid)

  function TakeStep(s: State, t: Tid, timeout: int, prio: map<Tid, Priority>): (State, Outcome)
    requires Known(s.waiters, prio) && t in prio
  {
    if s.value > 0 then (s.(value := s.value - 1), Taken)
    else if timeout == 0 then (s, Timeout)
    else (s.(waiters := Enqueue(s.waiters, t, s.flag, prio)), Sleeping)
  }

  function ReleaseStep(s: State): (State, Outcome) {
    if s.waiters != [] then (s.(waiters := s.waiters[1..]), Released(s.waiters[0]))
    else if s.value < VALUE_MAX then (s.(value := s.value + 1), Counted)
    else (s, Full)
  }

  function Step(s: State, e: Event, prio: map<Tid, Priority>): (State, Outcome)
    requires Known(s.waiters, prio) && (e.Take? ==> e.t in prio)
  {
    match e
    case Take(t, timeout) => TakeStep(s, t, timeout, prio)
    case Release => ReleaseStep(s)
    case Expire(t) => (s.(waiters := Without(s.waiters, t)), Timeout)
  }

  /** Threads wait, once each, only while there is nothing to take. */
  ghost predicate Inv(s: State, prio: map<Tid, Priority>) {
    && Known(s.waiters, prio) && Distinct(s.waiters) && s.value <= VALUE_MAX
    && (s.waiters != [] ==> s.value == 0)
    && (s.flag == Prio ==> Sorted(s.waiters, prio))
  }

  ghost predicate Enabled(s: State, e: Event, prio: map<Tid, Priority>) {
    e.Take? ==> e.t in prio && e.t !in s.waiters
  }

  /** Units that a step takes out of the semaphore, and units that it accepts. */
  function Out(o: Outcome): nat {
    if o.Taken? || o.Released? then 1 else 0
  }

  function In(o: Outcome): nat {
    if o.Released? || o.Counted? then 1 else 0
  }

  lemma StepKeeps(s: State, e: Event, prio: map<Tid, Priority>)
    requires Inv(s, prio) && Enabled(s, e, prio)
    ensures var (s', o) := Step(s, e, prio);
            && Inv(s', prio) && s'.flag == s.flag
            && s'.value + Out(o) == s.value + In(o)
            && (o.Full? ==> s.waiters == [] && s.value == VALUE_MAX)
            && (o.Timeout? && e.Take? ==> s.value == 0 && e.timeout == 0)
  {
    match e
    case Take(t, timeout) =>
      if s.value == 0 && timeout != 0 {
        EnqueueKeeps(s.waiters, t, s.flag, prio);
        if s.flag == Prio { EnqueueSorted(s.waiters, t, prio); }
      }
    case Release =>
      if s.waiters != [] {
        assert s.waiters == [s.waiters[0]] + s.waiters[1..];
        if s.flag == Prio { SortedTail(s.waiters, prio); }
      }
    case Expire(t) =>
      WithoutKeeps(s.waiters, t);
      if s.flag == Prio { WithoutSorted(s.waiters, t, prio); }
  }

  // ----- what each call answers -----

  /** A take succeeds if and only if there is a unit; otherwise it gives up if it may not wait, and else sleeps,
      behind everybody under first-come-first-served. */
  lemma TakeAnswers(s: State, t: Tid, timeout: int, prio: map<Tid, Priority>)
    requires Inv(s, prio) && t in prio && t !in s.waiters
    ensures var (s', o) := TakeStep(s, t, timeout, prio);
            && (o == Taken <==> s.value > 0)
            && (o == Timeout <==> s.value == 0 && timeout == 0)
            && (o == Sleeping <==> s.value == 0 && timeout != 0)
            && (o == Taken ==> s' == s.(value := s.value - 1))
            && (o == Timeout ==> s' == s)
            && (o == Sleeping ==>
                  && s'.value == 0 && s'.flag == s.flag && (forall u :: u in s'.waiters <==> u in s.waiters || u == t)
                  && (s.flag == Fifo ==> s'.waiters == s.waiters + [t]))
  {
    EnqueueKeeps(s.waiters, t, s.flag, prio);
  }

  /** A release hands its unit to the first waiter, of whom none is more urgent if the flag says so; without
      waiters it is counted, unless the counter is full. */
  lemma ReleaseAnswers(s: State, prio: map<Tid, Priority>)
    requires Inv(s, prio)
    ensures var (s', o) := ReleaseStep(s);
            && (o.Released? <==> s.waiters != [])
            && (o == Counted <==> s.waiters == [] && s.value < VALUE_MAX)
            && (o == Full <==> s.waiters == [] && s.value == VALUE_MAX)
            && (o.Released? ==>
                  && s.waiters == [o.to] + s'.waiters && s'.value == s.value
                  && (s.flag == Prio ==> forall w :: w in s.waiters ==> o.to in prio && prio[o.to] <= prio[w]))
            && (o == Counted ==> s' == s.(value := s.value + 1))
            && (o == Full ==> s' == s)
  {
    if s.waiters != [] {
      assert s.waiters == [s.waiters[0]] + s.waiters[1..];
      assert s.waiters[0] in s.waiters;
      if s.flag == Prio { SortedTail(s.waiters, prio); }
    }
  }

  /** Of two who wait, the one in front stays in front for as long as both wait, and is released first: under
      first-come-first-served, the one who came first. */
  lemma NobodyOvertakes(s: State, e: Event, prio: map<Tid, Priority>, u: Tid, v: Tid)
    requires Inv(s, prio) && Enabled(s, e, prio) && Before(s.waiters, u, v)
    ensures var (s', o) := Step(s, e, prio);
            && (u in s'.waiters && v in s'.waiters ==> Before(s'.waiters, u, v))
            && o != Released(v)
  {
    match e
    case Take(t, timeout) => EnqueueOrder(s.waiters, t, s.flag, prio, u, v);
    case Release => if s.waiters != [] { BeforeTail(s.waiters, u, v); }
    case Expire(t) =>
      WithoutKeeps(s.waiters, t);
      if u != t && v != t { WithoutOrder(s.waiters, t, u, v); }
  }

  ghost predicate Possible(s: State, run: seq<Event>, prio: map<Tid, Priority>)
    decreases |run|
  {
    run == [] || (Known(s.waiters, prio) && Enabled(s, run[0], prio)
        && Possible(Step(s, run[0], prio).0, run[1..], prio))
  }

  ghost function Final(s: State, run: seq<Event>, prio: map<Tid, Priority>): State
    requires Possible(s, run, prio)
    decreases |run|
  {
    if run == [] then s else Final(Step(s, run[0], prio).0, run[1..], prio)
  }

  /** Units handed out, and units given back, over a run. */
  ghost function TotalOut(s: State, run: seq<Event>, prio: map<Tid, Priority>): nat
    requires Possible(s, run, prio)
    decreases |run|
  {
    if run == [] then 0 else Out(Step(s, run[0], prio).1) + TotalOut(Step(s, run[0], prio).0, run[1..], prio)
  }

  ghost function TotalIn(s: State, run: seq<Event>, prio: map<Tid, Priority>): nat
    requires Possible(s, run, prio)
    decreases |run|
  {
    if run == [] then 0 else In(Step(s, run[0], prio).1) + TotalIn(Step(s, run[0], prio).0, run[1..], prio)
  }

  /** In every run, no unit is lost or made up: what was handed out never exceeds the initial value
      and what was released, and nobody waits while there is a unit. */
  lemma {:induction false} RunTheorem(s: State, run: seq<Event>, prio: map<Tid, Priority>)
    requires Inv(s, prio) && Possible(s, run, prio)
    ensures var f := Final(s, run, prio);
            && Inv(f, prio)
            && f.value + TotalOut(s, run, prio) == s.value + TotalIn(s, run, prio)
            && (f.waiters != [] ==> TotalOut(s, run, prio) == s.value + TotalIn(s, run, prio))
    decreases |run|
  {
    if run == [] {
    } else {
      StepKeeps(s, run[0], prio);
      RunTheorem(Step(s, run[0], prio).0, run[1..], prio);
    }
  }

  class SemaphoreObject {
    var value: nat
    var suspendThread: seq<Tid>
    const flag: Flag

    constructor (value: nat, flag: Flag)
      requires value <= VALUE_MAX
      ensures Abs() == State(value, [], flag)
    {
      this.value, suspendThread, this.flag := value, [], flag;
    }

    function Abs(): State
      reads this
    {
      State(value, suspendThread, flag)
    }

    /** `rt_sem_take`, up to the point where the thread has the unit, has given up or sleeps. */
    method Take(t: Tid, timeout: int, prio: map<Tid, Priority>) returns (r: Outcome)
      requires Inv(Abs(), prio) && t in prio && t !in suspendThread
      modifies this
      ensures (Abs(), r) == TakeStep(old(Abs()), t, timeout, prio) && Inv(Abs(), prio)
    {
      StepKeeps(Abs(), Event.Take(t, timeout), prio);
      if value > 0 {
        value := value - 1;
        return Taken;
      }
      if timeout == 0 {
        return Timeout;
      }
      suspendThread := SuspendInsert(suspendThread, t, flag, prio);
      return Sleeping;
    }

    /** `rt_sem_release` */
    method Release(prio: map<Tid, Priority>) returns (r: Outcome)
      requires Inv(Abs(), prio)
      modifies this
      ensures (Abs(), r) == ReleaseStep(old(Abs())) && Inv(Abs(), prio)
    {
      StepKeeps(Abs(), Event.Release, prio);
      if suspendThread != [] {
        r := Released(suspendThread[0]);
        suspendThread := suspendThread[1..];
      } else if value < VALUE_MAX {
        value := value + 1;
        r := Counted;
      } else {
        r := Full;
      }
    }
  }
}
