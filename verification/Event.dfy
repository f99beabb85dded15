/** The event set: threads wait for all or any of some bits; a send wakes every waiter whose
    condition holds, in queue order, while earlier waiters clear bits the later ones may need. */
module Event {
  import opened IpcList

  /** A 32-bit event set, as the set of its one bits: `|`, `&` and `& ~` are `+`, `*` and `-`. */
  type Bit = b: nat | b < 32
  type Bits = set<Bit>

  /** The option byte of a receive: the AND, OR and CLEAR flags. */
  datatype Option = Option(and: bool, or: bool, clear: bool)

  /** What a suspended thread carries: the bits it asked for and how. */
  datatype Waiter = Waiter(tid: Tid, bits: Bits, option: Option)

  datatype Outcome = Ok(received: Bits) | Sent | Timeout | Error | Invalid | Sleeping

  datatype State = State(bits: Bits, waiters: seq<Waiter>)

  datatype Woken = Woken(tid: Tid, received: Bits)

  /** The condition a receive asks for; AND is looked at first. */
  predicate Satisfied(bits: Bits, w: Waiter) {
    if w.option.and then w.bits <= bits else w.option.or && bits * w.bits != {}
  }

  /** A receive says what it waits for, and how. */
  predicate Proper(w: Waiter) {
    w.bits != {} && (w.option.and || w.option.or)
  }

  // ----- the three steps -----

  /** A receive that finds its condition satisfied: what it reports and what it leaves. */
  function Immediate(bits: Bits, w: Waiter): (Bits, Bits) {
    (bits * w.bits, if w.option.clear then bits - w.bits else bits)
  }

  /** What the scan of a send does for a satisfied waiter: an AND waiter keeps the bits it asked
      for as its report, an OR waiter the bits that are there; CLEAR removes the report. */
  function Deferred(bits: Bits, w: Waiter): (Bits, Bits) {
    var report := if w.option.and then w.bits else w.bits * bits;
    (report, if w.option.clear then bits - report else bits)
  }

  datatype Scanned = Scanned(waiters: seq<Waiter>, bits: Bits, woken: seq<Woken>)

  /** The scan: who stays, which bits are left, who is woken with what. */
  function Scan(ws: seq<Waiter>, bits: Bits): Scanned {
    if ws == [] then Scanned([], bits, [])
    else if Satisfied(bits, ws[0]) then
      var (report, left) := Deferred(bits, ws[0]);
      var r := Scan(ws[1..], left);
      r.(woken := [Woken(ws[0].tid, report)] + r.woken)
    else
      var r := Scan(ws[1..], bits);
      r.(waiters := [ws[0]] + r.waiters)
  }

  /** The same waiters receiving afresh, one after the other, each queueing again if it must. */
  function Replay(ws: seq<Waiter>, bits: Bits): Scanned {
    if ws == [] then Scanned([], bits, [])
    else if Satisfied(bits, ws[0]) then
      var (report, left) := Immediate(bits, ws[0]);
      var r := Replay(ws[1..], left);
      r.(woken := [Woken(ws[0].tid, report)] + r.woken)
    else
      var r := Replay(ws[1..], bits);
      r.(waiters := [ws[0]] + r.waiters)
  }

  // ----- bit facts -----

  lemma FewerBits(bits: Bits, left: Bits, w: Waiter)
    requires !Satisfied(bits, w) && left <= bits
    ensures !Satisfied(left, w)
  {
  }

  lemma SameReport(bits: Bits, w: Waiter)
    requires Satisfied(bits, w)
    ensures Deferred(bits, w) == Immediate(bits, w)
  {
    assert w.bits * bits == bits * w.bits;
    assert bits - w.bits * bits == bits - w.bits;
    assert w.bits <= bits ==> bits * w.bits == w.bits;
  }

  // ----- the laws -----

  /** Delayed delivery reports and clears exactly what an immediate receive would. */
  lemma {:induction false} DelayedIsImmediate(ws: seq<Waiter>, bits: Bits)
    ensures Scan(ws, bits) == Replay(ws, bits)
  {
    if ws == [] {
    } else {
      if Satisfied(bits, ws[0]) {
        SameReport(bits, ws[0]);
        DelayedIsImmediate(ws[1..], Deferred(bits, ws[0]).1);
      } else {
        DelayedIsImmediate(ws[1..], bits);
      }
    }
  }

  /** Whoever stays in the queue is unsatisfied by what is left, whatever was cleared after its turn. */
  lemma {:induction false} NoneLeftSatisfied(ws: seq<Waiter>, bits: Bits)
    ensures var r := Scan(ws, bits);
            && (forall w :: w in r.waiters ==> w in ws && !Satisfied(r.bits, w))
            && r.bits <= bits
  {
    if ws == [] {
    } else {
      if Satisfied(bits, ws[0]) {
        NoneLeftSatisfied(ws[1..], Deferred(bits, ws[0]).1);
      } else {
        NoneLeftSatisfied(ws[1..], bits);
        FewerBits(bits, Scan(ws[1..], bits).bits, ws[0]);
      }
    }
  }

  /** The bits the woken CLEAR waiters report. */
  function Cleared(ws: seq<Waiter>, bits: Bits): Bits {
    if ws == [] then {}
    else if Satisfied(bits, ws[0]) then
      var (report, left) := Deferred(bits, ws[0]);
      (if ws[0].option.clear then report else {}) + Cleared(ws[1..], left)
    else Cleared(ws[1..], bits)
  }

  /** Bits vanish only by being reported to a waiter that asked to clear them. */
  lemma {:induction false} OnlyReportedBitsVanish(ws: seq<Waiter>, bits: Bits)
    ensures Scan(ws, bits).bits == bits - Cleared(ws, bits)
  {
    if ws == [] {
    } else {
      OnlyReportedBitsVanish(ws[1..], if Satisfied(bits, ws[0]) then Deferred(bits, ws[0]).1 else bits);
    }
  }

  function Tids(ws: seq<Waiter>): seq<Tid> {
    seq(|ws|, i requires 0 <= i < |ws| => ws[i].tid)
  }

  function WokenTids(ws: seq<Woken>): seq<Tid> {
    seq(|ws|, i requires 0 <= i < |ws| => ws[i].tid)
  }

  /** Every waiter is either woken once or still queued. */
  lemma {:induction false} NobodyLost(ws: seq<Waiter>, bits: Bits)
    ensures multiset(Tids(ws)) == multiset(Tids(Scan(ws, bits).waiters)) + multiset(WokenTids(Scan(ws, bits).woken))
  {
    if ws == [] {
    } else {
      TidsCons(ws);
      if Satisfied(bits, ws[0]) {
        var (report, left) := Deferred(bits, ws[0]);
        NobodyLost(ws[1..], left);
        var r := Scan(ws[1..], left);
        assert WokenTids([Woken(ws[0].tid, report)] + r.woken) == [ws[0].tid] + WokenTids(r.woken);
      } else {
        NobodyLost(ws[1..], bits);
        TidsCons([ws[0]] + Scan(ws[1..], bits).waiters);
      }
    }
  }

  lemma TidsCons(ws: seq<Waiter>)
    requires ws != []
    ensures multiset(Tids(ws)) == multiset{ws[0].tid} + multiset(Tids(ws[1..]))
  {
    assert Tids(ws) == [ws[0].tid] + Tids(ws[1..]);
  }

  /** The woken are woken in the order in which they waited, and those who stay keep theirs. */
  lemma {:induction false} ScanOrder(ws: seq<Waiter>, bits: Bits, u: Tid, v: Tid)
    ensures Before(WokenTids(Scan(ws, bits).woken), u, v) ==> Before(Tids(ws), u, v)
    ensures Before(Tids(Scan(ws, bits).waiters), u, v) ==> Before(Tids(ws), u, v)
  {
    hide Before, Satisfied, Deferred;
    if ws == [] {
      NoneBefore(u, v);
    } else {
      var ok := Satisfied(bits, ws[0]);
      var left := if ok then Deferred(bits, ws[0]).1 else bits;
      var rest, whole := Scan(ws[1..], left), Scan(ws, bits);
      ScanOrder(ws[1..], left, u, v);
      ScanMembers(ws[1..], left);
      assert Tids(ws) == [ws[0].tid] + Tids(ws[1..]);
      BeforeTail(Tids(ws), u, v);
      assert Tids(ws)[1..] == Tids(ws[1..]);
      if ok {
        assert WokenTids(whole.woken) == [ws[0].tid] + WokenTids(rest.woken);
        assert WokenTids(whole.woken)[1..] == WokenTids(rest.woken);
        BeforeTail(WokenTids(whole.woken), u, v);
      } else {
        assert Tids(whole.waiters) == [ws[0].tid] + Tids(rest.waiters);
        assert Tids(whole.waiters)[1..] == Tids(rest.waiters);
        BeforeTail(Tids(whole.waiters), u, v);
      }
    }
  }

  lemma NoneBefore(u: Tid, v: Tid)
    ensures !Before([], u, v) && WokenTids([]) == [] && Tids([]) == []
  {
  }

  lemma ScanMembers(ws: seq<Waiter>, bits: Bits)
    ensures forall t :: t in WokenTids(Scan(ws, bits).woken) || t in Tids(Scan(ws, bits).waiters) ==> t in Tids(ws)
  {
    NobodyLost(ws, bits);
    hide Scan;
    var r := Scan(ws, bits);
    forall t | t in WokenTids(r.woken) || t in Tids(r.waiters) ensures t in Tids(ws) {
      assert t in multiset(WokenTids(r.woken)) || t in multiset(Tids(r.waiters));
      assert t in multiset(Tids(ws));
    }
  }

  // ----- steps and runs -----

  /** No queued waiter's condition holds; they wait once each, by priority if the flag says so. */
  ghost predicate Inv(s: State, flag: Flag, prio: map<Tid, Priority>) {
    && (forall w :: w in s.waiters ==> Proper(w) && !Satisfied(s.bits, w))
    && Distinct(Tids(s.waiters)) && Known(Tids(s.waiters), prio)
    && (flag == Prio ==> Sorted(Tids(s.waiters), prio))
  }

  predicate Awake(s: State, t: Tid) {
    t !in Tids(s.waiters)
  }

  function SendStep(s: State, bits: Bits): (State, Outcome, seq<Woken>) {
    if bits == {} then (s, Error, [])
    else
      var r := Scan(s.waiters, s.bits + bits);
      (State(r.bits, r.waiters), Sent, r.woken)
  }

  function RecvStep(s: State, w: Waiter, timeout: int, flag: Flag, prio: map<Tid, Priority>): (State, Outcome)
    requires Known(Tids(s.waiters), prio) && w.tid in prio
  {
    if w.bits == {} then (s, Error)
    else if Satisfied(s.bits, w) then
      var (report, left) := Immediate(s.bits, w);
      (s.(bits := left), Ok(report))
    else if timeout == 0 then (s, Timeout)
    else
      var at := PlaceOf(Tids(s.waiters), w.tid, flag, prio);
      (s.(waiters := s.waiters[..at] + [w] + s.waiters[at..]), Sleeping)
  }

  function ExpireStep(s: State, at: nat): State
    requires at < |s.waiters|
  {
    s.(waiters := s.waiters[..at] + s.waiters[at + 1..])
  }

  function ResetStep(): State {
    State({}, [])
  }

  lemma MultisetDistinct(a: seq<Tid>, b: seq<Tid>, c: seq<Tid>)
    requires Distinct(a) && multiset(a) == multiset(b) + multiset(c)
    ensures Distinct(b)
  {
    forall i, j | 0 <= i < j < |b| ensures b[i] != b[j] {
      if b[i] == b[j] {
        assert b == b[..i] + [b[i]] + b[i + 1..j] + [b[j]] + b[j + 1..];
        assert multiset(b)[b[i]] >= 2;
        DistinctOnce(a, b[i]);
      }
    }
  }

  lemma {:induction false} DistinctOnce(a: seq<Tid>, x: Tid)
    requires Distinct(a)
    ensures multiset(a)[x] <= 1
  {
    if a == [] {
    } else {
      assert a == [a[0]] + a[1..];
      assert forall i :: 0 <= i < |a[1..]| ==> a[1..][i] == a[i + 1];
      DistinctOnce(a[1..], x);
      assert a[0] !in a[1..];
      assert multiset(a) == multiset{a[0]} + multiset(a[1..]);
    }
  }

  lemma {:induction false} ScanSorted(ws: seq<Waiter>, bits: Bits, prio: map<Tid, Priority>)
    requires Known(Tids(ws), prio)
    ensures Known(Tids(Scan(ws, bits).waiters), prio)
    ensures Sorted(Tids(ws), prio) ==> Sorted(Tids(Scan(ws, bits).waiters), prio)
  {
    if ws == [] {
    } else {
      var left := if Satisfied(bits, ws[0]) then Deferred(bits, ws[0]).1 else bits;
      var rest := Scan(ws[1..], left).waiters;
      assert Tids(ws) == [ws[0].tid] + Tids(ws[1..]);
      assert Tids(ws)[1..] == Tids(ws[1..]);
      assert ws[0].tid in Tids(ws);
      assert Known(Tids(ws[1..]), prio);
      ScanSorted(ws[1..], left, prio);
      NoneLeftSatisfied(ws[1..], left);
      if Sorted(Tids(ws), prio) {
        SortedTail(Tids(ws), prio);
        FewerTids(rest, ws[1..]);
        ConsSorted(ws[0].tid, Tids(rest), prio);
      }
      assert Tids([ws[0]] + rest) == [ws[0].tid] + Tids(rest);
    }
  }

  lemma FewerTids(rest: seq<Waiter>, ws: seq<Waiter>)
    requires forall w :: w in rest ==> w in ws
    ensures forall t :: t in Tids(rest) ==> t in Tids(ws)
  {
    forall t | t in Tids(rest) ensures t in Tids(ws) {
      var i :| 0 <= i < |rest| && rest[i].tid == t;
      assert rest[i] in ws;
      var j :| 0 <= j < |ws| && ws[j] == rest[i];
      assert Tids(ws)[j] == t;
    }
  }

  lemma SendKeeps(s: State, bits: Bits, flag: Flag, prio: map<Tid, Priority>)
    requires Inv(s, flag, prio)
    ensures Inv(SendStep(s, bits).0, flag, prio) && SendStep(s, bits).1 != Invalid
  {
    if bits != {} {
      var all := s.bits + bits;
      NoneLeftSatisfied(s.waiters, all);
      NobodyLost(s.waiters, all);
      ScanSorted(s.waiters, all, prio);
      var r := Scan(s.waiters, all);
      MultisetDistinct(Tids(s.waiters), Tids(r.waiters), WokenTids(r.woken));
    }
  }

  lemma RecvKeeps(s: State, w: Waiter, timeout: int, flag: Flag, prio: map<Tid, Priority>)
    requires Inv(s, flag, prio) && Awake(s, w.tid) && w.tid in prio && (w.option.and || w.option.or)
    ensures Inv(RecvStep(s, w, timeout, flag, prio).0, flag, prio)
  {
    hide Sorted, Known, Distinct, PlaceOf, Tids;
    if w.bits != {} && !Satisfied(s.bits, w) && timeout != 0 {
      SleepKeeps(s, w, flag, prio);
    } else {
      var s' := RecvStep(s, w, timeout, flag, prio).0;
      forall v | v in s.waiters ensures !Satisfied(s'.bits, v) {
        FewerBits(s.bits, s'.bits, v);
      }
    }
  }

  lemma SleepKeeps(s: State, w: Waiter, flag: Flag, prio: map<Tid, Priority>)
    requires Inv(s, flag, prio) && Awake(s, w.tid) && w.tid in prio && Proper(w) && !Satisfied(s.bits, w)
    ensures var at := PlaceOf(Tids(s.waiters), w.tid, flag, prio);
            Inv(s.(waiters := s.waiters[..at] + [w] + s.waiters[at..]), flag, prio)
  {
    hide Sorted, Known, Distinct, PlaceOf, Satisfied, Proper;
    var ws := s.waiters;
    var at := EnqueueInserts(Tids(ws), w.tid, flag, prio);
    var ws' := ws[..at] + [w] + ws[at..];
    assert Tids(ws') == Tids(ws)[..at] + [w.tid] + Tids(ws)[at..];
    hide Tids;
    EnqueueKeeps(Tids(ws), w.tid, flag, prio);
    if flag == Prio { EnqueueSorted(Tids(ws), w.tid, prio); }
    forall v | v in ws' ensures v == w || v in ws {
      assert v in ws[..at] || v == w || v in ws[at..];
    }
  }

  lemma ExpireKeeps(s: State, at: nat, flag: Flag, prio: map<Tid, Priority>)
    requires Inv(s, flag, prio) && at < |s.waiters|
    ensures Inv(ExpireStep(s, at), flag, prio)
  {
    var ws := s.waiters;
    var r := ws[..at] + ws[at + 1..];
    var ts, us := Tids(ws), Tids(r);
    forall i | 0 <= i < |us| ensures us[i] == ts[if i < at then i else i + 1] {
    }
    forall t | t in us ensures t in ts {
    }
  }

  datatype Call = Send(sent: Bits) | Recv(w: Waiter, timeout: int) | Expire(at: nat) | Reset

  ghost predicate Enabled(s: State, c: Call, prio: map<Tid, Priority>) {
    match c
    case Send(_) => true
    case Recv(w, _) =>
      Known(Tids(s.waiters), prio) && w.tid in prio && Awake(s, w.tid) && (w.option.and || w.option.or)
    case Expire(at) => at < |s.waiters|
    case Reset => true
  }

  ghost function Step(s: State, c: Call, flag: Flag, prio: map<Tid, Priority>): State
    requires Enabled(s, c, prio)
  {
    match c
    case Send(bits) => SendStep(s, bits).0
    case Recv(w, timeout) => RecvStep(s, w, timeout, flag, prio).0
    case Expire(at) => ExpireStep(s, at)
    case Reset => ResetStep()
  }

  ghost predicate Run(calls: seq<Call>, trace: seq<State>, flag: Flag, prio: map<Tid, Priority>) {
    && |trace| == |calls| + 1
    && trace[0] == State({}, [])
    && forall i :: 0 <= i < |calls| ==> Goes(trace[i], calls[i], trace[i + 1], flag, prio)
  }

  ghost predicate Goes(s: State, c: Call, s': State, flag: Flag, prio: map<Tid, Priority>) {
    Enabled(s, c, prio) && s' == Step(s, c, flag, prio)
  }

  /** In every reachable state nobody sleeps on a condition that holds. */
  lemma {:induction false} RunTheorem(calls: seq<Call>, trace: seq<State>, flag: Flag, prio: map<Tid, Priority>)
    requires Run(calls, trace, flag, prio)
    ensures forall i :: 0 <= i < |trace| ==> Inv(trace[i], flag, prio)
  {
    hide Known, Sorted, Distinct, Enabled;
    if calls == [] {
      NobodyWaits(flag, prio);
    } else {
      var k := |calls| - 1;
      RunTheorem(calls[..k], trace[..k + 1], flag, prio);
      assert forall i :: 0 <= i <= k ==> trace[..k + 1][i] == trace[i];
      assert Goes(trace[k], calls[k], trace[k + 1], flag, prio) && Inv(trace[..k + 1][k], flag, prio);
      StepKeeps(trace[k], calls[k], flag, prio);
    }
  }

  lemma NobodyWaits(flag: Flag, prio: map<Tid, Priority>)
    ensures Inv(State({}, []), flag, prio)
  {
  }

  lemma StepKeeps(s: State, c: Call, flag: Flag, prio: map<Tid, Priority>)
    requires Inv(s, flag, prio) && Enabled(s, c, prio)
    ensures Inv(Step(s, c, flag, prio), flag, prio)
  {
    match c {
      case Send(sent) => SendKeeps(s, sent, flag, prio);
      case Recv(w, timeout) => RecvKeeps(s, w, timeout, flag, prio);
      case Expire(at) => ExpireKeeps(s, at, flag, prio);
      case Reset => NobodyWaits(flag, prio);
    }
  }

  // ----- what becomes of each bit -----

  /** The condition, bit by bit. */
  lemma SatisfiedIs(bits: Bits, w: Waiter)
    ensures w.option.and ==> (Satisfied(bits, w) <==> forall b :: b in w.bits ==> b in bits)
    ensures !w.option.and && w.option.or ==> (Satisfied(bits, w) <==> exists b :: b in w.bits && b in bits)
    ensures !w.option.and && !w.option.or ==> !Satisfied(bits, w)
  {
    if b :| b in w.bits && b in bits { assert b in bits * w.bits; }
  }

  /** Some waiter of `ws` that asked to clear was woken with a report of `b`. */
  ghost predicate Told(ws: seq<Waiter>, woken: seq<Woken>, b: Bit) {
    exists w, r :: w in ws && r in woken && ToldTo(w, r, b)
  }

  ghost predicate ToldTo(w: Waiter, r: Woken, b: Bit) {
    w.option.clear && w.tid == r.tid && b in r.received
  }

  lemma {:induction false} WokenWaited(ws: seq<Waiter>, bits: Bits)
    ensures forall r :: r in Scan(ws, bits).woken ==> r.tid in Tids(ws)
  {
    if ws == [] {
    } else {
      var left := if Satisfied(bits, ws[0]) then Deferred(bits, ws[0]).1 else bits;
      WokenWaited(ws[1..], left);
      assert Tids(ws) == [ws[0].tid] + Tids(ws[1..]);
    }
  }

  /** The bits cleared are those that clearing waiters are told of. */
  lemma {:induction false} ClearedIsTold(ws: seq<Waiter>, bits: Bits, b: Bit)
    requires Distinct(Tids(ws))
    ensures b in Cleared(ws, bits) <==> Told(ws, Scan(ws, bits).woken, b)
  {
    if ws == [] {
    } else {
      var w, rest := ws[0], ws[1..];
      var ok := Satisfied(bits, w);
      var left := if ok then Deferred(bits, w).1 else bits;
      var more := Scan(rest, left).woken;
      assert Tids(ws) == [w.tid] + Tids(rest);
      TailDistinct(Tids(ws));
      ClearedIsTold(rest, left, b);
      WokenWaited(rest, left);
      TidsOf(rest);
      if ok {
        ToldFirst(ws, Woken(w.tid, Deferred(bits, w).0), more, b);
      } else {
        ToldRest(ws, more, b);
      }
    }
  }

  lemma TailDistinct(l: seq<Tid>)
    requires l != [] && Distinct(l)
    ensures Distinct(l[1..]) && l[0] !in l[1..]
  {
    assert forall i :: 0 <= i < |l[1..]| ==> l[1..][i] == l[i + 1];
  }

  lemma TidsOf(ws: seq<Waiter>)
    ensures forall w :: w in ws ==> w.tid in Tids(ws)
  {
    forall w | w in ws ensures w.tid in Tids(ws) {
      var i :| 0 <= i < |ws| && ws[i] == w;
      assert Tids(ws)[i] == w.tid;
    }
  }

  lemma ToldRest(ws: seq<Waiter>, more: seq<Woken>, b: Bit)
    requires ws != [] && forall r :: r in more ==> r.tid != ws[0].tid
    ensures Told(ws, more, b) <==> Told(ws[1..], more, b)
  {
    assert forall w :: w in ws <==> w == ws[0] || w in ws[1..];
  }

  lemma ToldFirst(ws: seq<Waiter>, first: Woken, more: seq<Woken>, b: Bit)
    requires ws != [] && first.tid == ws[0].tid && forall r :: r in more ==> r.tid != ws[0].tid
    requires forall w :: w in ws[1..] ==> w.tid != ws[0].tid
    ensures Told(ws, [first] + more, b) <==> ToldTo(ws[0], first, b) || Told(ws[1..], more, b)
  {
    hide ToldTo;
    var all := [first] + more;
    assert forall w :: w in ws <==> w == ws[0] || w in ws[1..];
    assert forall r :: r in all <==> r == first || r in more;
    if ToldTo(ws[0], first, b) { assert ws[0] in ws && first in all; }
    if Told(ws[1..], more, b) {
      var w, r :| w in ws[1..] && r in more && ToldTo(w, r, b);
      assert w in ws && r in all;
    }
    if Told(ws, all, b) {
      var w, r :| w in ws && r in all && ToldTo(w, r, b);
      SameTid(w, r, b);
    }
  }

  lemma SameTid(w: Waiter, r: Woken, b: Bit)
    requires ToldTo(w, r, b)
    ensures w.tid == r.tid
  {
  }

  /** After a send a bit is set if and only if it was set before or sent, and no clearing waiter was woken
      with a report of it.  Sending nothing is an error and changes nothing. */
  lemma SendSets(s: State, bits: Bits, b: Bit, flag: Flag, prio: map<Tid, Priority>)
    requires Inv(s, flag, prio)
    ensures var (s', r, woken) := SendStep(s, bits);
            && (b in s'.bits <==> (b in s.bits || b in bits) && !Told(s.waiters, woken, b))
            && r == (if bits == {} then Error else Sent)
            && (r == Error ==> s' == s && woken == [])
  {
    if bits != {} {
      OnlyReportedBitsVanish(s.waiters, s.bits + bits);
      ClearedIsTold(s.waiters, s.bits + bits, b);
    }
  }

  /** A send wakes every waiter whose condition now holds, with the bits it asked for that are set, if nobody
      in front of it clears. */
  lemma {:induction false} SendWakes(ws: seq<Waiter>, bits: Bits, k: nat)
    requires k < |ws| && Satisfied(bits, ws[k])
    requires forall j :: 0 <= j < k ==> !ws[j].option.clear || !Satisfied(bits, ws[j])
    ensures Woken(ws[k].tid, bits * ws[k].bits) in Scan(ws, bits).woken
  {
    if k == 0 {
      SameReport(bits, ws[0]);
    } else {
      assert ws[1..][k - 1] == ws[k];
      SendWakes(ws[1..], bits, k - 1);
    }
  }

  /** A send scans with the bits that were set and those sent. */
  lemma SendDelivers(s: State, bits: Bits, k: nat)
    requires bits != {} && k < |s.waiters| && Satisfied(s.bits + bits, s.waiters[k])
    requires forall j :: 0 <= j < k ==> !s.waiters[j].option.clear || !Satisfied(s.bits + bits, s.waiters[j])
    ensures var w := s.waiters[k];
            exists r :: r in SendStep(s, bits).2 && r.tid == w.tid
                        && forall b :: b in r.received <==> b in w.bits && (b in s.bits || b in bits)
  {
    SendWakes(s.waiters, s.bits + bits, k);
    var r := Woken(s.waiters[k].tid, (s.bits + bits) * s.waiters[k].bits);
    assert r in SendStep(s, bits).2;
  }

  /** A receive reports, and clears if asked to, the bits it asked for that are set, when its condition holds;
      otherwise it gives up if it may not wait, and else sleeps.  Asking for nothing is an error. */
  lemma RecvAnswers(s: State, w: Waiter, timeout: int, flag: Flag, prio: map<Tid, Priority>)
    requires Inv(s, flag, prio) && Awake(s, w.tid) && w.tid in prio
    ensures var (s', r) := RecvStep(s, w, timeout, flag, prio);
            && (r == Error <==> w.bits == {})
            && (r.Ok? <==> w.bits != {} && Satisfied(s.bits, w))
            && (r == Timeout <==> w.bits != {} && !Satisfied(s.bits, w) && timeout == 0)
            && (r == Sleeping <==> w.bits != {} && !Satisfied(s.bits, w) && timeout != 0)
            && (r == Error || r == Timeout ==> s' == s)
            && (r.Ok? ==>
                  && s'.waiters == s.waiters
                  && (forall b :: b in r.received <==> b in w.bits && b in s.bits)
                  && (forall b :: b in s'.bits <==> b in s.bits && !(w.option.clear && b in r.received)))
            && (r == Sleeping ==>
                  && s'.bits == s.bits && w in s'.waiters
                  && Tids(s'.waiters) == Enqueue(Tids(s.waiters), w.tid, flag, prio))
  {
    if w.bits != {} && !Satisfied(s.bits, w) && timeout != 0 {
      var ws := s.waiters;
      var at := EnqueueInserts(Tids(ws), w.tid, flag, prio);
      assert Tids(ws[..at] + [w] + ws[at..]) == Tids(ws)[..at] + [w.tid] + Tids(ws)[at..];
    }
  }

  /** The call takes bit `b` away: it is reported to somebody who clears it, or everything is reset. */
  ghost predicate TakesAway(s: State, c: Call, b: Bit, flag: Flag, prio: map<Tid, Priority>)
    requires Enabled(s, c, prio)
  {
    match c
    case Send(bits) => Told(s.waiters, SendStep(s, bits).2, b)
    case Recv(w, timeout) =>
      var r := RecvStep(s, w, timeout, flag, prio).1;
      r.Ok? && w.option.clear && b in r.received
    case Expire(_) => false
    case Reset => true
  }

  predicate Sends(c: Call, b: Bit) {
    c.Send? && b in c.sent
  }

  lemma StepBit(s: State, c: Call, b: Bit, flag: Flag, prio: map<Tid, Priority>)
    requires Inv(s, flag, prio) && Enabled(s, c, prio)
    ensures b in Step(s, c, flag, prio).bits <==> (b in s.bits || Sends(c, b)) && !TakesAway(s, c, b, flag, prio)
  {
    hide Sorted, Distinct, Known, Told;
    match c
    case Send(bits) => SendSets(s, bits, b, flag, prio);
    case Recv(w, timeout) => RecvAnswers(s, w, timeout, flag, prio);
    case Expire(_) =>
    case Reset =>
  }

  /** Call `j` leaves bit `b` alone. */
  ghost predicate Leaves(calls: seq<Call>, trace: seq<State>, j: nat, b: Bit, flag: Flag, prio: map<Tid, Priority>)
    requires j < |calls| && j + 1 < |trace|
  {
    Goes(trace[j], calls[j], trace[j + 1], flag, prio) && !TakesAway(trace[j], calls[j], b, flag, prio)
  }

  /** Call `i` sends `b`, and none from then on takes it away. */
  ghost predicate SentAndLeft(calls: seq<Call>, trace: seq<State>, i: nat, b: Bit, flag: Flag, prio: map<Tid, Priority>)
    requires |trace| == |calls| + 1
  {
    i < |calls| && Sends(calls[i], b) && forall j: nat :: i <= j < |calls| ==> Leaves(calls, trace, j, b, flag, prio)
  }

  /** After any run a bit is set if and only if it was sent and has neither been reported to a clearing
      receiver nor been reset since. */
  lemma {:induction false} BitsOfRun(calls: seq<Call>, trace: seq<State>, b: Bit, flag: Flag, prio: map<Tid, Priority>)
    requires Run(calls, trace, flag, prio)
    ensures b in trace[|calls|].bits <==> exists i: nat :: SentAndLeft(calls, trace, i, b, flag, prio)
  {
    hide Inv, Step, Enabled, TakesAway, Leaves;
    if calls == [] {
    } else {
      var k := |calls| - 1;
      var calls0, trace0 := calls[..k], trace[..k + 1];
      RunTheorem(calls, trace, flag, prio);
      assert forall i :: 0 <= i <= k ==> trace0[i] == trace[i];
      assert forall i :: 0 <= i < k ==> Goes(trace[i], calls[i], trace[i + 1], flag, prio);
      BitsOfRun(calls0, trace0, b, flag, prio);
      assert Goes(trace[k], calls[k], trace[k + 1], flag, prio);
      StepBit(trace[k], calls[k], b, flag, prio);
      OneMore(calls0, trace0, calls, trace, b, flag, prio);
    }
  }

  lemma OneMore(calls0: seq<Call>, trace0: seq<State>, calls: seq<Call>, trace: seq<State>, b: Bit, flag: Flag,
                prio: map<Tid, Priority>)
    requires |trace| == |calls| + 1 && calls != [] && calls0 == calls[..|calls| - 1] && trace0 == trace[..|calls|]
    requires Goes(trace[|calls| - 1], calls[|calls| - 1], trace[|calls|], flag, prio)
    ensures (exists i: nat :: SentAndLeft(calls, trace, i, b, flag, prio)) <==>
              && !TakesAway(trace[|calls| - 1], calls[|calls| - 1], b, flag, prio)
              && (Sends(calls[|calls| - 1], b) || exists i: nat :: SentAndLeft(calls0, trace0, i, b, flag, prio))
  {
    hide Inv, Step, Enabled, TakesAway, Sends;
    var k := |calls| - 1;
    forall j: nat | j < k
      ensures Leaves(calls0, trace0, j, b, flag, prio) <==> Leaves(calls, trace, j, b, flag, prio)
    {
      assert calls0[j] == calls[j] && trace0[j] == trace[j] && trace0[j + 1] == trace[j + 1];
    }
    assert Leaves(calls, trace, k, b, flag, prio) <==> !TakesAway(trace[k], calls[k], b, flag, prio);
    hide Leaves;
    forall i: nat | i < k
      ensures SentAndLeft(calls, trace, i, b, flag, prio) <==>
                SentAndLeft(calls0, trace0, i, b, flag, prio) && Leaves(calls, trace, k, b, flag, prio)
    {
      assert calls0[i] == calls[i];
      if SentAndLeft(calls, trace, i, b, flag, prio) { assert Leaves(calls, trace, k, b, flag, prio); }
    }
    if i: nat :| SentAndLeft(calls, trace, i, b, flag, prio) {
      assert Leaves(calls, trace, k, b, flag, prio);
      assert i == k ==> Sends(calls[k], b);
    }
    if Sends(calls[k], b) && Leaves(calls, trace, k, b, flag, prio) {
      assert SentAndLeft(calls, trace, k, b, flag, prio);
    }
  }

  // ----- the object, updated in place -----

  class EventObject {
    var bits: Bits
    var suspendThread: seq<Waiter>
    const flag: Flag

    ghost function Abs(): State
      reads this
    {
      State(bits, suspendThread)
    }

    constructor (flag: Flag)
      ensures Abs() == State({}, []) && this.flag == flag
    {
      bits, suspendThread, this.flag := {}, [], flag;
    }

    method Send(sent: Bits, ghost prio: map<Tid, Priority>) returns (r: Outcome, woken: seq<Woken>)
      requires Inv(Abs(), flag, prio)
      modifies this
      ensures (Abs(), r, woken) == SendStep(old(Abs()), sent)
      ensures Inv(Abs(), flag, prio)
    {
      SendKeeps(Abs(), sent, flag, prio);
      woken := [];
      if sent == {} {
        return Error, [];
      }
      bits := bits + sent;
      ghost var whole := Scan(suspendThread, bits);
      assert suspendThread[0..] == suspendThread;
      hide Scan, Rest, Sorted, Known, Distinct;
      ScanStart(suspendThread, bits);
      var n := 0;
      while n < |suspendThread|
        invariant n <= |suspendThread|
        invariant forall i :: n <= i < |suspendThread| ==> Proper(suspendThread[i])
        invariant Rest(whole, suspendThread[..n], woken, Scan(suspendThread[n..], bits))
        decreases |suspendThread| - n
      {
        var w := suspendThread[n];
        ScanOne(whole, suspendThread, n, bits, woken);
        assert Proper(w);
        var report := w.bits;
        var satisfied := false;
        if w.option.and {
          if w.bits <= bits {
            satisfied := true;
          }
        } else if w.option.or {
          if w.bits * bits != {} {
            report := w.bits * bits;
            satisfied := true;
          }
        } else {
          // every queued waiter asked for AND or OR, so the invalid-argument return is dead
          assert false;
        }
        assert bits * w.bits == w.bits * bits;
        assert satisfied == Satisfied(bits, w) && (satisfied ==> report == Deferred(bits, w).0);
        if satisfied {
          if w.option.clear {
            bits := bits - report;
          }
          woken := woken + [Woken(w.tid, report)];
          suspendThread := suspendThread[..n] + suspendThread[n + 1..];
        } else {
          n := n + 1;
        }
      }
      ScanEnd(whole, suspendThread, n, bits, woken);
      r := Sent;
    }

    method Recv(w: Waiter, timeout: int, prio: map<Tid, Priority>) returns (r: Outcome)
      requires Inv(Abs(), flag, prio) && Awake(Abs(), w.tid) && w.tid in prio && (w.option.and || w.option.or)
      modifies this
      ensures (Abs(), r) == RecvStep(old(Abs()), w, timeout, flag, prio)
      ensures Inv(Abs(), flag, prio)
    {
      hide Sorted, Distinct;
      RecvKeeps(Abs(), w, timeout, flag, prio);
      if w.bits == {} {
        return Error;
      }
      var satisfied := false;
      if w.option.and {
        if w.bits <= bits {
          satisfied := true;
        }
      } else if w.option.or {
        if bits * w.bits != {} {
          satisfied := true;
        }
      }
      if satisfied {
        r := Ok(bits * w.bits);
        if w.option.clear {
          bits := bits - w.bits;
        }
      } else if timeout == 0 {
        return Timeout;
      } else {
        var at := SuspendPlace(Tids(suspendThread), w.tid, flag, prio);
        suspendThread := suspendThread[..at] + [w] + suspendThread[at..];
        return Sleeping;
      }
    }
  }

  lemma ScanStart(ws: seq<Waiter>, bits: Bits)
    ensures Rest(Scan(ws, bits), ws[..0], [], Scan(ws[0..], bits))
  {
    assert ws[0..] == ws;
  }

  lemma ScanOne(whole: Scanned, ws: seq<Waiter>, n: nat, bits: Bits, woken: seq<Woken>)
    requires n < |ws| && Rest(whole, ws[..n], woken, Scan(ws[n..], bits))
    ensures Satisfied(bits, ws[n]) ==>
              var (report, left) := Deferred(bits, ws[n]);
              var ws' := ws[..n] + ws[n + 1..];
              Rest(whole, ws'[..n], woken + [Woken(ws[n].tid, report)], Scan(ws'[n..], left))
    ensures !Satisfied(bits, ws[n]) ==> Rest(whole, ws[..n + 1], woken, Scan(ws[n + 1..], bits))
  {
    assert ws[n..][0] == ws[n] && ws[n..][1..] == ws[n + 1..];
    var ws' := ws[..n] + ws[n + 1..];
    assert ws'[..n] == ws[..n] && ws'[n..] == ws[n + 1..];
    assert ws[..n + 1] == ws[..n] + [ws[n]];
  }

  lemma ScanEnd(whole: Scanned, ws: seq<Waiter>, n: nat, bits: Bits, woken: seq<Woken>)
    requires n == |ws| && Rest(whole, ws[..n], woken, Scan(ws[n..], bits))
    ensures whole == Scanned(ws, bits, woken)
  {
    assert ws[n..] == [] && ws[..n] == ws;
  }

  /** The whole scan is what has been done so far followed by the scan of the rest. */
  ghost predicate Rest(whole: Scanned, kept: seq<Waiter>, woken: seq<Woken>, rest: Scanned) {
    whole.waiters == kept + rest.waiters && whole.woken == woken + rest.woken && whole.bits == rest.bits
  }
}
