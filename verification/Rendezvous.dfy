/** Blocking hand-over of countable things, in the form the mailbox and the memory pool share:
    takers sleep while there is nothing, givers sleep while there is no room, and whoever adds
    something wakes one sleeper of the other side, who then has to look again. */
module Rendezvous {
  import opened IpcList

  /** `full` things and `room` for more; sleeping threads in the order in which they will be woken;
      threads that were woken and have not run yet. */
  datatype State = State(full: nat, room: nat,
                         takers: seq<Tid>, givers: seq<Tid>,
                         wokenTakers: set<Tid>, wokenGivers: set<Tid>)

  /** The same seen from the other side. */
  function Mirror(s: State): State {
    State(s.room, s.full, s.givers, s.takers, s.wokenGivers, s.wokenTakers)
  }

  function Inserted(list: seq<Tid>, k: nat, t: Tid): seq<Tid> {
    if k <= |list| then list[..k] + [t] + list[k..] else list + [t]
  }

  /** Thread `t`, awake, adds one thing; without room it goes to sleep at place `k` of the waiting
      givers, or gives up. */
  function Give(s: State, t: Tid, mayWait: bool, k: nat): State {
    var s1 := s.(wokenGivers := s.wokenGivers - {t});
    if s.room > 0 then
      var s2 := s1.(room := s.room - 1, full := s.full + 1);
      if s.takers == [] then s2
      else s2.(takers := s.takers[1..], wokenTakers := s.wokenTakers + {s.takers[0]})
    else if mayWait then s1.(givers := Inserted(s.givers, k, t))
    else s1
  }

  function Take(s: State, t: Tid, mayWait: bool, k: nat): State {
    Mirror(Give(Mirror(s), t, mayWait, k))
  }

  /** A sleeper's timer runs out. */
  function Expire(s: State, t: Tid): State {
    s.(takers := Without(s.takers, t), givers := Without(s.givers, t))
  }

  /** Everything is thrown away and every sleeper is woken with an error. */
  function Reset(s: State): State {
    s.(full := 0, room := s.full + s.room, takers := [], givers := [])
  }

  datatype Event =
    | GiveEvent(t: Tid, mayWait: bool, k: nat)
    | TakeEvent(t: Tid, mayWait: bool, k: nat)
    | ExpireEvent(t: Tid)
    | ResetEvent

  ghost predicate Asleep(s: State, t: Tid) {
    t in s.takers || t in s.givers
  }

  /** A thread that is still waiting on one side cannot act; one that was woken as a taker first
      looks for what it was woken for. */
  ghost predicate Enabled(s: State, e: Event) {
    match e
    case GiveEvent(t, _, _) => !Asleep(s, t) && t !in s.wokenTakers
    case TakeEvent(t, _, _) => !Asleep(s, t) && t !in s.wokenGivers
    case _ => true
  }

  function Step(s: State, e: Event): State {
    match e
    case GiveEvent(t, mayWait, k) => Give(s, t, mayWait, k)
    case TakeEvent(t, mayWait, k) => Take(s, t, mayWait, k)
    case ExpireEvent(t) => Expire(s, t)
    case ResetEvent => Reset(s)
  }

  /** Takers sleep only while every thing there is has a woken taker coming for it. */
  ghost predicate Served(full: nat, takers: seq<Tid>, woken: set<Tid>) {
    takers != [] ==> full <= |woken|
  }

  ghost predicate Lists(s: State) {
    && Distinct(s.takers) && Distinct(s.givers)
    && (forall t :: t in s.takers ==> t !in s.givers && t !in s.wokenTakers && t !in s.wokenGivers)
    && (forall t :: t in s.givers ==> t !in s.wokenTakers && t !in s.wokenGivers)
    && s.wokenTakers !! s.wokenGivers
  }

  ghost predicate Inv(s: State) {
    && Lists(s)
    && Served(s.full, s.takers, s.wokenTakers)
    && Served(s.room, s.givers, s.wokenGivers)
  }

  lemma MirrorInv(s: State)
    requires Inv(s)
    ensures Inv(Mirror(s))
  {
  }

  lemma GiveLists(s: State, t: Tid, mayWait: bool, k: nat)
    requires Lists(s) && !Asleep(s, t) && t !in s.wokenTakers
    ensures Lists(Give(s, t, mayWait, k))
  {
    if s.room > 0 {
      if s.takers != [] {
        assert s.takers == [s.takers[0]] + s.takers[1..];
        assert s.takers[0] !in s.takers[1..];
      }
    } else if mayWait {
      var j := if k <= |s.givers| then k else |s.givers|;
      assert Inserted(s.givers, k, t) == s.givers[..j] + [t] + s.givers[j..];
      InsertMembers(s.givers, j, t);
      InsertDistinct(s.givers, j, t);
    }
  }

  lemma GiveKeeps(s: State, t: Tid, mayWait: bool, k: nat)
    requires Inv(s) && !Asleep(s, t) && t !in s.wokenTakers
    ensures Inv(Give(s, t, mayWait, k))
    ensures Give(s, t, mayWait, k).full + Give(s, t, mayWait, k).room == s.full + s.room
  {
    GiveLists(s, t, mayWait, k);
    if s.room > 0 && s.takers != [] {
      assert s.takers[0] in s.takers && s.takers[0] !in s.wokenTakers;
    }
  }

  lemma StepKeeps(s: State, e: Event)
    requires Inv(s) && Enabled(s, e)
    ensures Inv(Step(s, e))
    ensures Step(s, e).full + Step(s, e).room == s.full + s.room
  {
    match e
    case GiveEvent(t, mayWait, k) => GiveKeeps(s, t, mayWait, k);
    case TakeEvent(t, mayWait, k) =>
      MirrorInv(s);
      GiveKeeps(Mirror(s), t, mayWait, k);
      MirrorInv(Give(Mirror(s), t, mayWait, k));
    case ExpireEvent(t) =>
      WithoutKeeps(s.takers, t);
      WithoutKeeps(s.givers, t);
    case ResetEvent =>
  }

  // ----- what each step does -----

  /** With room, one thing is added and the first taker who sleeps is woken, if any; without room the thread
      sleeps at the place given, if it may wait.  Nobody else is moved. */
  lemma GiveAnswers(s: State, t: Tid, mayWait: bool, k: nat)
    requires k <= |s.givers|
    ensures var s' := Give(s, t, mayWait, k);
            && s'.wokenGivers == s.wokenGivers - {t}
            && (s.room > 0 ==>
                  && s'.room == s.room - 1 && s'.full == s.full + 1 && s'.givers == s.givers
                  && (s.takers == [] ==> s'.takers == [] && s'.wokenTakers == s.wokenTakers)
                  && (s.takers != [] ==> s.takers == [s.takers[0]] + s'.takers
                                         && s'.wokenTakers == s.wokenTakers + {s.takers[0]}))
            && (s.room == 0 ==>
                  && s'.room == 0 && s'.full == s.full && s'.takers == s.takers && s'.wokenTakers == s.wokenTakers
                  && s'.givers == if mayWait then s.givers[..k] + [t] + s.givers[k..] else s.givers)
  {
  }

  /** The same for a taker. */
  lemma TakeAnswers(s: State, t: Tid, mayWait: bool, k: nat)
    requires k <= |s.takers|
    ensures var s' := Take(s, t, mayWait, k);
            && s'.wokenTakers == s.wokenTakers - {t}
            && (s.full > 0 ==>
                  && s'.full == s.full - 1 && s'.room == s.room + 1 && s'.takers == s.takers
                  && (s.givers == [] ==> s'.givers == [] && s'.wokenGivers == s.wokenGivers)
                  && (s.givers != [] ==> s.givers == [s.givers[0]] + s'.givers
                                         && s'.wokenGivers == s.wokenGivers + {s.givers[0]}))
            && (s.full == 0 ==>
                  && s'.full == 0 && s'.room == s.room && s'.givers == s.givers && s'.wokenGivers == s.wokenGivers
                  && s'.takers == if mayWait then s.takers[..k] + [t] + s.takers[k..] else s.takers)
  {
    GiveAnswers(Mirror(s), t, mayWait, k);
  }

  /** A timeout takes just its thread off the lists; a reset empties both and throws everything away. */
  lemma OthersAnswer(s: State, t: Tid)
    ensures var s' := Expire(s, t);
            && s' == s.(takers := s'.takers, givers := s'.givers)
            && (forall u :: u in s'.takers <==> u in s.takers && u != t)
            && (forall u :: u in s'.givers <==> u in s.givers && u != t)
    ensures var s' := Reset(s);
            && s'.full == 0 && s'.room == s.full + s.room && s'.takers == [] && s'.givers == []
            && s'.wokenTakers == s.wokenTakers && s'.wokenGivers == s.wokenGivers
  {
    WithoutKeeps(s.takers, t);
    WithoutKeeps(s.givers, t);
  }

  ghost predicate Possible(s: State, run: seq<Event>)
    decreases |run|
  {
    run == [] || (Enabled(s, run[0]) && Possible(Step(s, run[0]), run[1..]))
  }

  function Final(s: State, run: seq<Event>): State
    decreases |run|
  {
    if run == [] then s else Final(Step(s, run[0]), run[1..])
  }

  /** In every run of any threads, no wake-up is lost: once the woken threads have looked,
      takers sleep only if there is nothing and givers only if there is no room. */
  lemma {:induction false} RunTheorem(s: State, run: seq<Event>)
    requires Inv(s) && Possible(s, run)
    ensures var f := Final(s, run);
            && Inv(f) && f.full + f.room == s.full + s.room
            && (f.takers != [] ==> f.full <= |f.wokenTakers|)
            && (f.givers != [] ==> f.room <= |f.wokenGivers|)
            && (f.takers != [] && f.wokenTakers == {} ==> f.full == 0)
            && (f.givers != [] && f.wokenGivers == {} ==> f.room == 0)
    decreases |run|
  {
    if run != [] {
      StepKeeps(s, run[0]);
      RunTheorem(Step(s, run[0]), run[1..]);
    }
  }

  /** Of all runs from the start, too. */
  lemma FreshInv(full: nat, room: nat)
    ensures Inv(State(full, room, [], [], {}, {}))
  {
  }
}
