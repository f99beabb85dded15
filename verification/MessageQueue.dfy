/** The message queue as a protocol: senders, urgent senders and receivers, each a thread whose
    calls are cut into the sections that run with interrupts disabled, interleaved in any order
    with each other, with timer expiries and with resets. */
module MessageQueue {
  import opened IpcList
  import opened MqStore

  type Node = int
  type Ticks = n: nat | n < 0x1_0000_0000

  /** Where a thread is in its call.  `msg` is what is sent, or what was taken off the queue;
      `asked` is the timeout of the call and `timeout` what is left of it. */
  datatype Place =
    | Outside
    | Filling(node: Node, msg: Buffer, urgent: bool)
    | Filled(node: Node, msg: Buffer, urgent: bool)
    | Draining(node: Node, msg: Buffer, size: nat)
    | Drained(node: Node, msg: Buffer, size: nat, out: Buffer)
    | SendWait(msg: Buffer, asked: int, timeout: int)
    | SendWoken(msg: Buffer, asked: int, timeout: int, failed: bool)
    | RecvWait(size: nat, asked: int, timeout: int)
    | RecvWoken(size: nat, asked: int, timeout: int, failed: bool)

  datatype Config = Config(nodes: nat, msgSize: nat, flag: Flag, prio: map<Tid, Priority>)

  datatype Outcome = Pending | Ok | Full | Timeout | Error

  /** `sent` remembers, per node, the message last copied into it. */
  datatype State = State(idle: seq<Node>, queue: seq<Node>, entry: nat,
                         buf: map<Node, Buffer>, sent: map<Node, Buffer>,
                         at: map<Tid, Place>, senders: seq<Tid>, receivers: seq<Tid>)

  datatype Event =
    | Send(t: Tid, msg: Buffer, timeout: int)
    | Urgent(t: Tid, msg: Buffer)
    | Copy(t: Tid)
    | Join(t: Tid)
    | Recv(t: Tid, size: nat, timeout: int)
    | CopyOut(t: Tid)
    | PutBack(t: Tid)
    | Expire(t: Tid)
    | Resume(t: Tid, elapsed: Ticks)
    | Reset

  // ----- the timeout that is left -----

  function Signed(x: int): int {
    var r := x % 0x1_0000_0000;
    if r < 0x8000_0000 then r else r - 0x1_0000_0000
  }

  /** A finite timeout after `elapsed` ticks, in 32-bit arithmetic and clamped at zero. */
  function Remaining(timeout: int, elapsed: Ticks): int {
    if timeout > 0 then
      var left := Signed(timeout - elapsed);
      if left < 0 then 0 else left
    else timeout
  }

  /** A finite wait never turns into an endless one. */
  lemma FiniteStaysFinite(timeout: int, elapsed: Ticks)
    ensures timeout > 0 ==> 0 <= Remaining(timeout, elapsed)
    ensures timeout <= 0 ==> Remaining(timeout, elapsed) == timeout
  {
  }

  /** What is left is the difference exactly while the subtraction stays in 32 bits. */
  lemma RemainingExact(timeout: int, elapsed: Ticks)
    requires 0 < timeout < 0x8000_0000
    ensures Remaining(timeout, elapsed) == (if timeout < elapsed then 0 else timeout - elapsed)
            <==> elapsed <= timeout + 0x8000_0000
  {
    var d := timeout - elapsed;
    if d < 0 {
      assert d % 0x1_0000_0000 == d + 0x1_0000_0000;
    }
  }

  // ----- the steps -----

  predicate Enabled(c: Config, s: State, e: Event) {
    if e.Reset? then true
    else
      && e.t in s.at && e.t in c.prio
      && match e
         case Send(_, _, _) => s.at[e.t].Outside?
         case Urgent(_, _) => s.at[e.t].Outside?
         case Recv(_, _, _) => s.at[e.t].Outside?
         case Copy(_) => s.at[e.t].Filling?
         case Join(_) => s.at[e.t].Filled?
         case CopyOut(_) => s.at[e.t].Draining?
         case PutBack(_) => s.at[e.t].Drained?
         case Expire(_) =>
           || (s.at[e.t].SendWait? && s.at[e.t].timeout > 0)
           || (s.at[e.t].RecvWait? && s.at[e.t].timeout > 0)
         case Resume(_, _) => s.at[e.t].SendWoken? || s.at[e.t].RecvWoken?
         case Reset => true
  }

  function Move(s: State, t: Tid, p: Place): State {
    s.(at := s.at[t := p])
  }

  /** The loop of a send: take a free node, give up, or go to sleep. */
  function TrySend(c: Config, s: State, t: Tid, msg: Buffer, asked: int, timeout: int): (State, Outcome)
    requires t in c.prio && Known(s.senders, c.prio)
  {
    if s.idle != [] then (Move(s, t, Filling(s.idle[0], msg, false)).(idle := s.idle[1..]), Pending)
    else if timeout == 0 then (Move(s, t, Outside), Full)
    else (Move(s, t, SendWait(msg, asked, timeout)).(senders := Enqueue(s.senders, t, c.flag, c.prio)), Pending)
  }

  /** The loop of a receive. */
  function TryRecv(c: Config, s: State, t: Tid, size: nat, asked: int, timeout: int): (State, Outcome)
    requires t in c.prio && Known(s.receivers, c.prio)
    requires s.entry != 0 ==> s.queue != [] && s.queue[0] in s.sent
  {
    if s.entry != 0 then
      (Move(s, t, Draining(s.queue[0], s.sent[s.queue[0]], size)).(queue := s.queue[1..], entry := s.entry - 1),
          Pending)
    else if timeout == 0 then (Move(s, t, Outside), Timeout)
    else (Move(s, t, RecvWait(size, asked, timeout)).(receivers := Enqueue(s.receivers, t, c.flag, c.prio)), Pending)
  }

  /** Resumes the first sleeping receiver, if there is one. */
  function WakeReceiver(s: State): State
    requires forall t :: t in s.receivers ==> t in s.at && s.at[t].RecvWait?
  {
    if s.receivers == [] then s
    else
      var r := s.receivers[0];
      var p := s.at[r];
      Move(s, r, RecvWoken(p.size, p.asked, p.timeout, false)).(receivers := s.receivers[1..])
  }

  function WakeSender(s: State): State
    requires forall t :: t in s.senders ==> t in s.at && s.at[t].SendWait?
  {
    if s.senders == [] then s
    else
      var r := s.senders[0];
      var p := s.at[r];
      Move(s, r, SendWoken(p.msg, p.asked, p.timeout, false)).(senders := s.senders[1..])
  }

  /** The second section of a send, up to waking a receiver. */
  function LinkIn(s: State, t: Tid): State
    requires t in s.at && s.at[t].Filled?
  {
    var p := s.at[t];
    Move(s, t, Outside).(queue := if p.urgent then [p.node] + s.queue else s.queue + [p.node],
                         entry := s.entry + 1)
  }

  /** A waiter that is resumed with an error. */
  function Failed(p: Place): Place {
    match p
    case SendWait(msg, asked, timeout) => SendWoken(msg, asked, timeout, true)
    case RecvWait(size, asked, timeout) => RecvWoken(size, asked, timeout, true)
    case _ => p
  }

  function ResetStep(s: State): State {
    s.(at := FailAll(s.at), senders := [], receivers := [],
       queue := [], entry := 0, idle := Reverse(s.queue) + s.idle)
  }

  lemma HeadReady(c: Config, s: State)
    requires Shape(c, s)
    ensures s.queue != [] ==> InRange(c, s.queue[0]) && s.queue[0] in s.sent && s.queue[0] in s.buf
  {
    if s.queue != [] {
      var n := s.queue[0];
      assert n in s.queue;
      assert InRange(c, n);
    }
  }

  function Step(c: Config, s: State, e: Event): (State, Outcome)
    requires Shape(c, s) && Enabled(c, s, e)
  {
    HeadReady(c, s);
    match e
    case Send(t, msg, timeout) => if |msg| > c.msgSize then (s, Error) else TrySend(c, s, t, msg, timeout, timeout)
    case Urgent(t, msg) =>
      if |msg| > c.msgSize then (s, Error)
      else if s.idle == [] then (s, Full)
      else (Move(s, t, Filling(s.idle[0], msg, true)).(idle := s.idle[1..]), Pending)
    case Copy(t) =>
      var p := s.at[t];
      (Move(s, t, Filled(p.node, p.msg, p.urgent))
         .(buf := s.buf[p.node := Overlay(p.msg, s.buf[p.node])], sent := s.sent[p.node := p.msg]), Pending)
    case Join(t) =>
      if s.entry < ENTRY_MAX then (WakeReceiver(LinkIn(s, t)), Ok)
      else (LinkIn(s, t).(entry := s.entry), Full)
    case Recv(t, size, timeout) => TryRecv(c, s, t, size, timeout, timeout)
    case CopyOut(t) =>
      var p := s.at[t];
      (Move(s, t, Drained(p.node, p.msg, p.size, s.buf[p.node][..if p.size > c.msgSize then c.msgSize else p.size])),
          Pending)
    case PutBack(t) => (WakeSender(Move(s, t, Outside).(idle := [s.at[t].node] + s.idle)), Ok)
    case Expire(t) =>
      (Move(s, t, Failed(s.at[t])).(senders := Without(s.senders, t), receivers := Without(s.receivers, t)), Pending)
    case Resume(t, elapsed) =>
      var p := s.at[t];
      if p.failed then (Move(s, t, Outside), Error)
      else if p.SendWoken? then TrySend(c, s, t, p.msg, p.asked, Remaining(p.timeout, elapsed))
      else TryRecv(c, s, t, p.size, p.asked, Remaining(p.timeout, elapsed))
    case Reset => (ResetStep(s), Ok)
  }

  // ----- the invariant -----

  ghost predicate InRange(c: Config, n: Node) {
    0 <= n < c.nodes
  }

  predicate EmptyHanded(p: Place) {
    !(p.Filling? || p.Filled? || p.Draining? || p.Drained?)
  }

  predicate Holds(p: Place, n: Node) {
    !EmptyHanded(p) && p.node == n
  }

  /** Some thread has node `n` in hand. */
  ghost predicate InHands(at: map<Tid, Place>, n: Node) {
    exists t :: t in at && Holds(at[t], n)
  }

  /** Free, queued and in-hand nodes are a partition of the pool. */
  ghost predicate Partition(c: Config, idle: seq<Node>, queue: seq<Node>, at: map<Tid, Place>) {
    && Distinct(idle) && Distinct(queue)
    && (forall n :: n in idle ==> InRange(c, n) && n !in queue)
    && (forall n :: n in queue ==> InRange(c, n))
    && (forall t, n :: t in at && Holds(at[t], n) ==> InRange(c, n) && n !in idle && n !in queue)
    && (forall t, u, n :: t in at && u in at && Holds(at[t], n) && Holds(at[u], n) ==> t == u)
    && (forall n :: InRange(c, n) ==> n in idle || n in queue || InHands(at, n))
  }

  /** The suspend lists hold exactly the sleeping threads, once each. */
  ghost predicate Waiting(c: Config, at: map<Tid, Place>, senders: seq<Tid>, receivers: seq<Tid>) {
    && Distinct(senders) && Distinct(receivers)
    && Known(senders, c.prio) && Known(receivers, c.prio)
    && (forall t :: t in senders <==> t in at && at[t].SendWait?)
    && (forall t :: t in receivers <==> t in at && at[t].RecvWait?)
    && (forall t :: t in at ==> t in c.prio)
  }

  ghost predicate Starts(msg: Buffer, b: Buffer) {
    |msg| <= |b| && b[..|msg|] == msg
  }

  /** What a receive of `size` bytes delivers begins with the message. */
  ghost predicate Delivers(out: Buffer, msg: Buffer, size: nat) {
    var k := if size < |msg| then size else |msg|;
    k <= |out| && out[..k] == msg[..k]
  }

  /** A thread that asked for a finite wait sleeps on a finite one. */
  ghost predicate Waits(asked: int, timeout: int) {
    timeout != 0 && asked != 0 && (asked < 0 ==> timeout == asked) && (asked > 0 ==> timeout > 0)
  }

  ghost predicate PlaceOk(c: Config, buf: map<Node, Buffer>, sent: map<Node, Buffer>, p: Place) {
    match p
    case Filling(n, msg, _) => |msg| <= c.msgSize
    case Filled(n, msg, _) => n in sent && n in buf && sent[n] == msg && Starts(msg, buf[n])
    case Draining(n, msg, _) => n in buf && Starts(msg, buf[n])
    case Drained(n, msg, size, out) => Delivers(out, msg, size)
    case SendWait(msg, asked, timeout) => |msg| <= c.msgSize && Waits(asked, timeout)
    case SendWoken(msg, asked, timeout, _) => |msg| <= c.msgSize && Waits(asked, timeout)
    case RecvWait(_, asked, timeout) => Waits(asked, timeout)
    case RecvWoken(_, asked, timeout, _) => Waits(asked, timeout)
    case Outside => true
  }

  ghost predicate Good(n: Node, buf: map<Node, Buffer>, sent: map<Node, Buffer>) {
    n in buf && n in sent && Starts(sent[n], buf[n])
  }

  /** Buffers have the size of the queue; a queued buffer starts with the message sent. */
  ghost predicate Contents(c: Config, at: map<Tid, Place>, queue: seq<Node>, buf: map<Node, Buffer>,
                           sent: map<Node, Buffer>) {
    && (forall n :: InRange(c, n) ==> n in buf && n in sent && |buf[n]| == c.msgSize)
    && (forall n :: n in queue ==> Good(n, buf, sent))
    && (forall t :: t in at ==> PlaceOk(c, buf, sent, at[t]))
  }

  ghost predicate Shape(c: Config, s: State) {
    && c.nodes <= ENTRY_MAX
    && s.entry == |s.queue|
    && Partition(c, s.idle, s.queue, s.at)
    && Waiting(c, s.at, s.senders, s.receivers)
    && Contents(c, s.at, s.queue, s.buf, s.sent)
  }

  /** A resumed thread that has not run yet and will try again. */
  predicate OnWay(p: Place, receiver: bool) {
    if receiver then p.RecvWoken? && !p.failed else p.SendWoken? && !p.failed
  }

  ghost function Woken(at: map<Tid, Place>, receiver: bool): set<Tid> {
    set t | t in at && OnWay(at[t], receiver)
  }

  /** No lost wake-up: while a receiver sleeps, every queued message has a woken receiver on its
      way to it; while a sender sleeps, every free node has a woken sender on its way to it. */
  ghost predicate NoLostWakeup(s: State) {
    && (s.receivers != [] ==> |s.queue| <= |Woken(s.at, true)|)
    && (s.senders != [] ==> |s.idle| <= |Woken(s.at, false)|)
  }

  ghost predicate Inv(c: Config, s: State) {
    Shape(c, s) && NoLostWakeup(s)
  }

  // ----- keeping the partition -----

  /** Nothing changes hands when a thread's place changes but not the node it holds. */
  lemma SameHands(c: Config, idle: seq<Node>, queue: seq<Node>, at: map<Tid, Place>, t: Tid, p: Place)
    requires Partition(c, idle, queue, at) && t in at
    requires (EmptyHanded(p) && EmptyHanded(at[t])) || exists n :: Holds(p, n) && Holds(at[t], n)
    ensures Partition(c, idle, queue, at[t := p])
  {
    var at' := at[t := p];
    assert forall u, n :: u in at ==> (Holds(at'[u], n) <==> Holds(at[u], n));
    forall n | InRange(c, n) ensures n in idle || n in queue || InHands(at', n) {
      if InHands(at, n) {
        var u :| u in at && Holds(at[u], n);
        assert Holds(at'[u], n);
      }
    }
  }

  /** Taking node `m` off a list into the hands of `t`. */
  lemma PickUp(c: Config, idle: seq<Node>, queue: seq<Node>, at: map<Tid, Place>, t: Tid, p: Place, m: Node,
               idle': seq<Node>, queue': seq<Node>)
    requires Partition(c, idle, queue, at) && t in at && EmptyHanded(at[t])
    requires Holds(p, m) && Distinct(idle') && Distinct(queue')
    requires m in idle || m in queue
    requires forall n :: n in idle' <==> n in idle && n != m
    requires forall n :: n in queue' <==> n in queue && n != m
    ensures Partition(c, idle', queue', at[t := p])
  {
    var at' := at[t := p];
    forall n | InRange(c, n) ensures n in idle' || n in queue' || InHands(at', n) {
      if n == m {
        assert Holds(at'[t], n);
      } else if InHands(at, n) {
        var u :| u in at && Holds(at[u], n);
        assert Holds(at'[u], n);
      }
    }
  }

  /** Laying node `m` from the hands of `t` onto a list. */
  lemma LayDown(c: Config, idle: seq<Node>, queue: seq<Node>, at: map<Tid, Place>, t: Tid, m: Node,
                idle': seq<Node>, queue': seq<Node>)
    requires Partition(c, idle, queue, at) && t in at && Holds(at[t], m)
    requires Distinct(idle') && Distinct(queue')
    requires || ((forall n :: n in idle' <==> n in idle || n == m) && queue' == queue)
             || (idle' == idle && (forall n :: n in queue' <==> n in queue || n == m))
    ensures Partition(c, idle', queue', at[t := Outside])
  {
    var at' := at[t := Outside];
    forall n | InRange(c, n) ensures n in idle' || n in queue' || InHands(at', n) {
      if n != m && InHands(at, n) {
        var u :| u in at && Holds(at[u], n);
        assert u != t;
        assert Holds(at'[u], n);
      }
    }
  }

  lemma FirstAndRest(l: seq<int>)
    requires l != [] && Distinct(l)
    ensures Distinct(l[1..]) && forall n :: n in l[1..] <==> n in l && n != l[0]
  {
    assert l == [l[0]] + l[1..];
    DistinctParts([l[0]], l[1..]);
  }

  lemma {:induction false} ReverseMembers<T>(l: seq<T>)
    ensures forall x :: x in Reverse(l) <==> x in l
    ensures Distinct(l) ==> Distinct(Reverse(l))
  {
    if l == [] {
    } else {
      assert l == [l[0]] + l[1..];
      ReverseMembers(l[1..]);
      if Distinct(l) {
        assert forall i :: 0 <= i < |l[1..]| ==> l[1..][i] == l[i + 1];
        assert l[0] !in l[1..];
      }
    }
  }

  function FailAll(at: map<Tid, Place>): map<Tid, Place> {
    map t | t in at :: Failed(at[t])
  }

  lemma ResetPartition(c: Config, idle: seq<Node>, queue: seq<Node>, at: map<Tid, Place>)
    requires Partition(c, idle, queue, at)
    ensures Partition(c, Reverse(queue) + idle, [], FailAll(at))
  {
    var at' := FailAll(at);
    ReverseMembers(queue);
    DistinctParts(Reverse(queue), idle);
    assert forall t, n :: t in at ==> (Holds(at'[t], n) <==> Holds(at[t], n));
    hide Reverse;
    forall n | InRange(c, n) ensures n in Reverse(queue) + idle || InHands(at', n) {
      if InHands(at, n) {
        var u :| u in at && Holds(at[u], n);
        assert Holds(at'[u], n);
      }
    }
  }

  // ----- keeping the suspend lists -----

  lemma SameWaiting(c: Config, at: map<Tid, Place>, senders: seq<Tid>, receivers: seq<Tid>, t: Tid, p: Place)
    requires Waiting(c, at, senders, receivers) && t in at
    requires p.SendWait? == at[t].SendWait? && p.RecvWait? == at[t].RecvWait?
    ensures Waiting(c, at[t := p], senders, receivers)
  {
  }

  lemma FallAsleep(c: Config, at: map<Tid, Place>, senders: seq<Tid>, receivers: seq<Tid>, t: Tid, p: Place)
    requires Waiting(c, at, senders, receivers) && t in at && !at[t].SendWait? && !at[t].RecvWait?
    ensures t in c.prio && Known(senders, c.prio) && Known(receivers, c.prio)
    ensures p.SendWait? ==> Waiting(c, at[t := p], Enqueue(senders, t, c.flag, c.prio), receivers)
    ensures p.RecvWait? ==> Waiting(c, at[t := p], senders, Enqueue(receivers, t, c.flag, c.prio))
  {
    EnqueueKeeps(senders, t, c.flag, c.prio);
    EnqueueKeeps(receivers, t, c.flag, c.prio);
  }

  lemma WakeFirst(c: Config, at: map<Tid, Place>, senders: seq<Tid>, receivers: seq<Tid>, p: Place)
    requires Waiting(c, at, senders, receivers) && !p.SendWait? && !p.RecvWait?
    ensures receivers != [] ==> receivers[0] in at && Waiting(c, at[receivers[0] := p], senders, receivers[1..])
    ensures senders != [] ==> senders[0] in at && Waiting(c, at[senders[0] := p], senders[1..], receivers)
  {
    if receivers != [] { FirstAndRest(receivers); assert receivers[0] in receivers; }
    if senders != [] { FirstAndRest(senders); assert senders[0] in senders; }
  }

  lemma ExpireWaiting(c: Config, at: map<Tid, Place>, senders: seq<Tid>, receivers: seq<Tid>, t: Tid)
    requires Waiting(c, at, senders, receivers) && t in at && (at[t].SendWait? || at[t].RecvWait?)
    ensures Waiting(c, at[t := Failed(at[t])], Without(senders, t), Without(receivers, t))
  {
    WithoutKeeps(senders, t);
    WithoutKeeps(receivers, t);
  }

  lemma ResetWaiting(c: Config, at: map<Tid, Place>, senders: seq<Tid>, receivers: seq<Tid>)
    requires Waiting(c, at, senders, receivers)
    ensures Waiting(c, FailAll(at), [], [])
  {
  }

  // ----- keeping the contents -----

  lemma SameContents(c: Config, at: map<Tid, Place>, queue: seq<Node>, buf: map<Node, Buffer>, sent: map<Node, Buffer>,
                     t: Tid, p: Place, queue': seq<Node>)
    requires Contents(c, at, queue, buf, sent) && t in at && PlaceOk(c, buf, sent, p)
    requires forall n :: n in queue' ==> n in queue || Good(n, buf, sent)
    ensures Contents(c, at[t := p], queue', buf, sent)
  {
  }

  /** Copying into a node in hand leaves queued messages and other hands alone. */
  lemma CopyContents(c: Config, s: State, t: Tid)
    requires Shape(c, s) && t in s.at && s.at[t].Filling?
    ensures var p := s.at[t];
            && p.node in s.buf && |p.msg| <= |s.buf[p.node]|
            && Contents(c, s.at[t := Filled(p.node, p.msg, p.urgent)], s.queue,
                        s.buf[p.node := Overlay(p.msg, s.buf[p.node])], s.sent[p.node := p.msg])
  {
    var p := s.at[t];
    var n := p.node;
    assert Holds(p, n) && InRange(c, n);
    assert PlaceOk(c, s.buf, s.sent, p);
    var buf, sent := s.buf[n := Overlay(p.msg, s.buf[n])], s.sent[n := p.msg];
    forall u | u in s.at && u != t ensures PlaceOk(c, buf, sent, s.at[u]) {
      assert PlaceOk(c, s.buf, s.sent, s.at[u]) && !Holds(s.at[u], n);
    }
    forall m | m in s.queue ensures Good(m, buf, sent) {
      assert Good(m, s.buf, s.sent) && m != n;
    }
  }

  lemma ResetContents(c: Config, at: map<Tid, Place>, queue: seq<Node>, buf: map<Node, Buffer>, sent: map<Node, Buffer>)
    requires Contents(c, at, queue, buf, sent)
    ensures Contents(c, FailAll(at), [], buf, sent)
  {
    forall t | t in at ensures PlaceOk(c, buf, sent, FailAll(at)[t]) {
      assert PlaceOk(c, buf, sent, at[t]);
    }
  }

  // ----- counting who is on the way -----

  lemma WokenOne(at: map<Tid, Place>, t: Tid, p: Place, receiver: bool)
    requires t in at
    ensures |Woken(at[t := p], receiver)| ==
            |Woken(at, receiver)| - (if OnWay(at[t], receiver) then 1 else 0) + if OnWay(p, receiver) then 1 else 0
  {
    var rest := Woken(at, receiver) - {t};
    assert Woken(at, receiver) == if OnWay(at[t], receiver) then rest + {t} else rest;
    assert Woken(at[t := p], receiver) == if OnWay(p, receiver) then rest + {t} else rest;
  }

  lemma WokenMove(at: map<Tid, Place>, t: Tid, p: Place)
    requires t in at
    ensures forall receiver :: |Woken(at[t := p], receiver)| ==
              |Woken(at, receiver)| - (if OnWay(at[t], receiver) then 1 else 0) + if OnWay(p, receiver) then 1 else 0
  {
    WokenOne(at, t, p, true);
    WokenOne(at, t, p, false);
  }

  // ----- the invariant, as one thread or one list sees it -----

  lemma ThreadFacts(c: Config, s: State, t: Tid)
    requires Shape(c, s) && t in s.at
    ensures t in c.prio && PlaceOk(c, s.buf, s.sent, s.at[t])
    ensures !EmptyHanded(s.at[t]) ==>
              var n := s.at[t].node;
              Holds(s.at[t], n) && InRange(c, n) && n !in s.idle && n !in s.queue && n in s.buf
                  && |s.buf[n]| == c.msgSize
    ensures t in s.senders <==> s.at[t].SendWait?
    ensures t in s.receivers <==> s.at[t].RecvWait?
  {
    if !EmptyHanded(s.at[t]) { assert Holds(s.at[t], s.at[t].node); }
  }

  lemma ListFacts(c: Config, s: State)
    requires Shape(c, s)
    ensures Distinct(s.idle) && Distinct(s.queue)
    ensures Known(s.senders, c.prio) && Known(s.receivers, c.prio)
    ensures forall t :: t in s.senders ==> t in s.at && s.at[t].SendWait? && PlaceOk(c, s.buf, s.sent, s.at[t])
    ensures forall t :: t in s.receivers ==> t in s.at && s.at[t].RecvWait? && PlaceOk(c, s.buf, s.sent, s.at[t])
    ensures s.queue != [] ==> Good(s.queue[0], s.buf, s.sent)
  {
    if s.queue != [] { assert s.queue[0] in s.queue; }
  }

  // ----- each step keeps the invariant -----

  lemma PickUpFree(c: Config, s: State, t: Tid, msg: Buffer, urgent: bool)
    requires Inv(c, s) && t in s.at && s.idle != [] && |msg| <= c.msgSize
    requires s.at[t].Outside? || s.at[t].SendWoken?
    ensures Inv(c, Move(s, t, Filling(s.idle[0], msg, urgent)).(idle := s.idle[1..]))
  {
    hide Partition, Waiting, Contents, Woken;
    ListFacts(c, s);
    var m, p := s.idle[0], Filling(s.idle[0], msg, urgent);
    assert m in s.idle;
    FirstAndRest(s.idle);
    assert m !in s.queue by { Elsewhere(c, s, m); }
    PickUp(c, s.idle, s.queue, s.at, t, p, m, s.idle[1..], s.queue);
    SameWaiting(c, s.at, s.senders, s.receivers, t, p);
    SameContents(c, s.at, s.queue, s.buf, s.sent, t, p, s.queue);
    WokenMove(s.at, t, p);
  }

  lemma Elsewhere(c: Config, s: State, m: Node)
    requires Shape(c, s)
    ensures m in s.idle ==> m !in s.queue
  {
  }

  lemma TrySendKeeps(c: Config, s: State, t: Tid, msg: Buffer, asked: int, timeout: int)
    requires Inv(c, s) && t in s.at && |msg| <= c.msgSize
    requires t in c.prio && Known(s.senders, c.prio)
    requires s.at[t].Outside? || s.at[t].SendWoken?
    requires timeout != 0 ==> Waits(asked, timeout)
    ensures Inv(c, TrySend(c, s, t, msg, asked, timeout).0)
  {
    hide Partition, Waiting, Contents, Woken;
    if s.idle != [] {
      PickUpFree(c, s, t, msg, false);
    } else {
      var p := if timeout == 0 then Outside else SendWait(msg, asked, timeout);
      SameHands(c, s.idle, s.queue, s.at, t, p);
      SameContents(c, s.at, s.queue, s.buf, s.sent, t, p, s.queue);
      WokenMove(s.at, t, p);
      if timeout == 0 {
        SameWaiting(c, s.at, s.senders, s.receivers, t, p);
      } else {
        FallAsleep(c, s.at, s.senders, s.receivers, t, p);
      }
    }
  }

  lemma TryRecvKeeps(c: Config, s: State, t: Tid, size: nat, asked: int, timeout: int)
    requires Inv(c, s) && t in s.at
    requires t in c.prio && Known(s.receivers, c.prio) && (s.queue != [] ==> s.queue[0] in s.sent)
    requires s.at[t].Outside? || s.at[t].RecvWoken?
    requires timeout != 0 ==> Waits(asked, timeout)
    ensures Inv(c, TryRecv(c, s, t, size, asked, timeout).0)
  {
    hide Partition, Waiting, Contents, Woken;
    ListFacts(c, s);
    if s.entry != 0 {
      var m := s.queue[0];
      var p := Draining(m, s.sent[m], size);
      assert m in s.queue;
      FirstAndRest(s.queue);
      assert m !in s.idle by { Elsewhere(c, s, m); }
      PickUp(c, s.idle, s.queue, s.at, t, p, m, s.idle, s.queue[1..]);
      SameWaiting(c, s.at, s.senders, s.receivers, t, p);
      SameContents(c, s.at, s.queue, s.buf, s.sent, t, p, s.queue[1..]);
      WokenMove(s.at, t, p);
    } else {
      var p := if timeout == 0 then Outside else RecvWait(size, asked, timeout);
      SameHands(c, s.idle, s.queue, s.at, t, p);
      SameContents(c, s.at, s.queue, s.buf, s.sent, t, p, s.queue);
      WokenMove(s.at, t, p);
      if timeout == 0 {
        SameWaiting(c, s.at, s.senders, s.receivers, t, p);
      } else {
        FallAsleep(c, s.at, s.senders, s.receivers, t, p);
      }
    }
  }

  lemma CopyKeeps(c: Config, s: State, t: Tid)
    requires Inv(c, s) && Enabled(c, s, Copy(t))
    ensures Inv(c, Step(c, s, Copy(t)).0)
  {
    hide Partition, Waiting, Contents, Woken;
    var p := s.at[t];
    var q := Filled(p.node, p.msg, p.urgent);
    CopyContents(c, s, t);
    assert Holds(p, p.node) && Holds(q, p.node);
    SameHands(c, s.idle, s.queue, s.at, t, q);
    SameWaiting(c, s.at, s.senders, s.receivers, t, q);
    WokenMove(s.at, t, q);
  }

  /** The delivered bytes begin with the message that was taken off the queue. */
  lemma CopyOutDelivers(c: Config, s: State, t: Tid)
    requires Inv(c, s) && Enabled(c, s, CopyOut(t))
    ensures Inv(c, Step(c, s, CopyOut(t)).0)
    ensures var p, q := s.at[t], Step(c, s, CopyOut(t)).0.at[t];
            && q.Drained? && q.msg == p.msg && Delivers(q.out, p.msg, p.size)
            && |q.out| == if p.size < c.msgSize then p.size else c.msgSize
  {
    hide Partition, Waiting, Contents, Woken;
    ThreadFacts(c, s, t);
    var p := s.at[t];
    var k := if p.size > c.msgSize then c.msgSize else p.size;
    var out := s.buf[p.node][..k];
    var m := if p.size < |p.msg| then p.size else |p.msg|;
    assert out[..m] == s.buf[p.node][..m] == s.buf[p.node][..|p.msg|][..m];
    var q := Drained(p.node, p.msg, p.size, out);
    assert Holds(p, p.node) && Holds(q, p.node);
    SameHands(c, s.idle, s.queue, s.at, t, q);
    SameWaiting(c, s.at, s.senders, s.receivers, t, q);
    SameContents(c, s.at, s.queue, s.buf, s.sent, t, q, s.queue);
    WokenMove(s.at, t, q);
  }

  /** The entry counter has room whenever a node is about to be linked. */
  lemma RoomToLink(c: Config, s: State, t: Tid)
    requires Shape(c, s) && t in s.at && s.at[t].Filled?
    ensures s.entry < ENTRY_MAX
  {
    var n := s.at[t].node;
    assert Holds(s.at[t], n);
    DistinctParts([n], s.queue);
    assert forall x :: x in [n] + s.queue ==> InRange(c, x);
    Pigeonhole([n] + s.queue, c.nodes);
  }

  lemma LinkKeepsShape(c: Config, s: State, t: Tid)
    requires Inv(c, s) && Enabled(c, s, Join(t))
    ensures Shape(c, LinkIn(s, t))
    ensures |Woken(LinkIn(s, t).at, true)| == |Woken(s.at, true)|
    ensures |Woken(LinkIn(s, t).at, false)| == |Woken(s.at, false)|
  {
    hide Partition, Waiting, Contents, Woken;
    ThreadFacts(c, s, t);
    ListFacts(c, s);
    var p := s.at[t];
    var queue := if p.urgent then [p.node] + s.queue else s.queue + [p.node];
    DistinctParts([p.node], s.queue);
    DistinctParts(s.queue, [p.node]);
    LayDown(c, s.idle, s.queue, s.at, t, p.node, s.idle, queue);
    SameWaiting(c, s.at, s.senders, s.receivers, t, Outside);
    SameContents(c, s.at, s.queue, s.buf, s.sent, t, Outside, queue);
    WokenMove(s.at, t, Outside);
  }

  lemma WakeReceiverKeeps(c: Config, s: State)
    requires Shape(c, s)
    requires s.receivers != [] ==> |s.queue| <= |Woken(s.at, true)| + 1
    requires s.senders != [] ==> |s.idle| <= |Woken(s.at, false)|
    ensures Inv(c, WakeReceiver(s))
  {
    hide Partition, Waiting, Contents, Woken;
    ListFacts(c, s);
    if s.receivers != [] {
      var r := s.receivers[0];
      assert r in s.receivers;
      var p := s.at[r];
      var q := RecvWoken(p.size, p.asked, p.timeout, false);
      SameHands(c, s.idle, s.queue, s.at, r, q);
      WakeFirst(c, s.at, s.senders, s.receivers, q);
      SameContents(c, s.at, s.queue, s.buf, s.sent, r, q, s.queue);
      WokenMove(s.at, r, q);
    }
  }

  lemma WakeSenderKeeps(c: Config, s: State)
    requires Shape(c, s)
    requires s.receivers != [] ==> |s.queue| <= |Woken(s.at, true)|
    requires s.senders != [] ==> |s.idle| <= |Woken(s.at, false)| + 1
    ensures Inv(c, WakeSender(s))
  {
    hide Partition, Waiting, Contents, Woken;
    ListFacts(c, s);
    if s.senders != [] {
      var r := s.senders[0];
      assert r in s.senders;
      var p := s.at[r];
      var q := SendWoken(p.msg, p.asked, p.timeout, false);
      SameHands(c, s.idle, s.queue, s.at, r, q);
      WakeFirst(c, s.at, s.senders, s.receivers, q);
      SameContents(c, s.at, s.queue, s.buf, s.sent, r, q, s.queue);
      WokenMove(s.at, r, q);
    }
  }

  /** Linking never finds the entry counter full, and wakes a receiver if one sleeps. */
  lemma JoinKeeps(c: Config, s: State, t: Tid)
    requires Inv(c, s) && Enabled(c, s, Join(t))
    ensures Step(c, s, Join(t)).1 == Ok
    ensures Inv(c, Step(c, s, Join(t)).0)
  {
    hide Partition, Waiting, Contents, Woken;
    RoomToLink(c, s, t);
    LinkKeepsShape(c, s, t);
    WakeReceiverKeeps(c, LinkIn(s, t));
  }

  lemma PutBackKeeps(c: Config, s: State, t: Tid)
    requires Inv(c, s) && Enabled(c, s, PutBack(t))
    ensures Inv(c, Step(c, s, PutBack(t)).0)
  {
    hide Partition, Waiting, Contents, Woken;
    ThreadFacts(c, s, t);
    ListFacts(c, s);
    var p := s.at[t];
    var idle := [p.node] + s.idle;
    DistinctParts([p.node], s.idle);
    LayDown(c, s.idle, s.queue, s.at, t, p.node, idle, s.queue);
    SameWaiting(c, s.at, s.senders, s.receivers, t, Outside);
    SameContents(c, s.at, s.queue, s.buf, s.sent, t, Outside, s.queue);
    WokenMove(s.at, t, Outside);
    WakeSenderKeeps(c, Move(s, t, Outside).(idle := idle));
  }

  lemma ExpireKeeps(c: Config, s: State, t: Tid)
    requires Inv(c, s) && Enabled(c, s, Expire(t))
    ensures Inv(c, Step(c, s, Expire(t)).0)
  {
    hide Partition, Waiting, Contents, Woken;
    ThreadFacts(c, s, t);
    var p := Failed(s.at[t]);
    SameHands(c, s.idle, s.queue, s.at, t, p);
    ExpireWaiting(c, s.at, s.senders, s.receivers, t);
    SameContents(c, s.at, s.queue, s.buf, s.sent, t, p, s.queue);
    WokenMove(s.at, t, p);
  }

  lemma ResetKeeps(c: Config, s: State)
    requires Inv(c, s)
    ensures Inv(c, ResetStep(s))
  {
    ResetPartition(c, s.idle, s.queue, s.at);
    ResetWaiting(c, s.at, s.senders, s.receivers);
    ResetContents(c, s.at, s.queue, s.buf, s.sent);
  }

  lemma LeaveKeeps(c: Config, s: State, t: Tid)
    requires Inv(c, s) && t in s.at && (s.at[t].SendWoken? || s.at[t].RecvWoken?) && s.at[t].failed
    ensures Inv(c, Move(s, t, Outside))
  {
    hide Partition, Waiting, Contents, Woken;
    SameHands(c, s.idle, s.queue, s.at, t, Outside);
    SameWaiting(c, s.at, s.senders, s.receivers, t, Outside);
    SameContents(c, s.at, s.queue, s.buf, s.sent, t, Outside, s.queue);
    WokenMove(s.at, t, Outside);
  }

  lemma StepKeeps(c: Config, s: State, e: Event)
    requires Inv(c, s) && Enabled(c, s, e)
    ensures Inv(c, Step(c, s, e).0)
  {
    hide Partition, Waiting, Contents, Woken;
    ListFacts(c, s);
    HeadReady(c, s);
    if !e.Reset? { ThreadFacts(c, s, e.t); }
    match e {
      case Send(t, msg, timeout) => if |msg| <= c.msgSize { TrySendKeeps(c, s, t, msg, timeout, timeout); }
      case Urgent(t, msg) => if |msg| <= c.msgSize && s.idle != [] { PickUpFree(c, s, t, msg, true); }
      case Copy(t) => CopyKeeps(c, s, t);
      case Join(t) => JoinKeeps(c, s, t);
      case Recv(t, size, timeout) => TryRecvKeeps(c, s, t, size, timeout, timeout);
      case CopyOut(t) => CopyOutDelivers(c, s, t);
      case PutBack(t) => PutBackKeeps(c, s, t);
      case Expire(t) => ExpireKeeps(c, s, t);
      case Resume(t, elapsed) =>
        var p := s.at[t];
        FiniteStaysFinite(p.timeout, elapsed);
        if p.failed {
          LeaveKeeps(c, s, t);
        } else if p.SendWoken? {
          TrySendKeeps(c, s, t, p.msg, p.asked, Remaining(p.timeout, elapsed));
        } else {
          TryRecvKeeps(c, s, t, p.size, p.asked, Remaining(p.timeout, elapsed));
        }
      case Reset => ResetKeeps(c, s);
    }
  }

  // ----- whole runs -----

  /** A new queue: `rt_mq_init` leaves every node on the free chain. */
  ghost predicate Fresh(c: Config, s: State) {
    && c.nodes <= ENTRY_MAX
    && s.idle == Down(c.nodes) && s.queue == [] && s.entry == 0
    && (forall n :: InRange(c, n) ==> n in s.buf && n in s.sent && |s.buf[n]| == c.msgSize)
    && (forall t :: t in s.at ==> s.at[t] == Outside && t in c.prio)
    && s.senders == [] && s.receivers == []
  }

  lemma FreshInv(c: Config, s: State)
    requires Fresh(c, s)
    ensures Inv(c, s)
  {
    forall n | InRange(c, n) ensures n in s.idle {
      assert s.idle[c.nodes - 1 - n] == n;
    }
  }

  /** From a state of the right shape, which is all there ever is, event `e` leads to `s'`. */
  ghost predicate Goes(c: Config, s: State, e: Event, s': State) {
    Enabled(c, s, e) && (Shape(c, s) ==> s' == Step(c, s, e).0)
  }

  ghost predicate Run(c: Config, evs: seq<Event>, trace: seq<State>) {
    && |trace| == |evs| + 1
    && Fresh(c, trace[0])
    && forall i :: 0 <= i < |evs| ==> Goes(c, trace[i], evs[i], trace[i + 1])
  }

  /** In every run: nodes are partitioned, no wake-up is lost, finite waits stay finite. */
  lemma {:induction false} RunTheorem(c: Config, evs: seq<Event>, trace: seq<State>)
    requires Run(c, evs, trace)
    ensures forall i :: 0 <= i < |trace| ==> Inv(c, trace[i])
  {
    hide Shape, NoLostWakeup;
    if evs == [] {
      FreshInv(c, trace[0]);
    } else {
      var k := |evs| - 1;
      RunTheorem(c, evs[..k], trace[..k + 1]);
      assert forall i :: 0 <= i <= k ==> trace[..k + 1][i] == trace[i];
      assert Goes(c, trace[k], evs[k], trace[k + 1]);
      assert Inv(c, trace[..k + 1][k]);
      StepKeeps(c, trace[k], evs[k]);
    }
  }

  // ----- the queue of messages -----

  /** The messages a receiver will find, front first. */
  ghost function Messages(s: State): seq<Buffer>
    requires AllSent(s)
  {
    seq(|s.queue|, i requires 0 <= i < |s.queue| => s.sent[s.queue[i]])
  }

  /** Every queued node has been filled. */
  ghost predicate AllSent(s: State) {
    forall i :: 0 <= i < |s.queue| ==> s.queue[i] in s.sent
  }

  /** What an event means for an abstract double-ended queue. */
  ghost function DequeStep(c: Config, s: State, e: Event, q: seq<Buffer>): seq<Buffer>
    requires Enabled(c, s, e)
  {
    match e
    case Join(t) => if s.at[t].urgent then [s.at[t].msg] + q else q + [s.at[t].msg]
    case Reset => []
    case _ => if Receives(s, e) && q != [] then q[1..] else q
  }

  /** The event runs the section in which a receive looks at the queue. */
  predicate Receives(s: State, e: Event) {
    e.Recv? || (e.Resume? && e.t in s.at && s.at[e.t].RecvWoken? && !s.at[e.t].failed)
  }

  lemma QueueSent(c: Config, s: State)
    requires Shape(c, s)
    ensures AllSent(s)
  {
    forall i | 0 <= i < |s.queue| ensures s.queue[i] in s.sent {
      assert s.queue[i] in s.queue;
      assert Good(s.queue[i], s.buf, s.sent);
    }
  }

  ghost predicate Refined(c: Config, s: State, e: Event, s': State)
    requires Enabled(c, s, e)
  {
    && AllSent(s) && AllSent(s')
    && Messages(s') == DequeStep(c, s, e, Messages(s))
    && (Receives(s, e) && Messages(s) != [] ==>
          e.t in s'.at && s'.at[e.t].Draining? && s'.at[e.t].msg == Messages(s)[0])
  }

  lemma TrySendQuiet(c: Config, s: State, t: Tid, msg: Buffer, asked: int, timeout: int)
    requires t in c.prio && Known(s.senders, c.prio)
    ensures var s' := TrySend(c, s, t, msg, asked, timeout).0; s'.queue == s.queue && s'.sent == s.sent
  {
  }

  lemma WakeSenderQuiet(s: State)
    requires forall t :: t in s.senders ==> t in s.at && s.at[t].SendWait?
    ensures WakeSender(s).queue == s.queue && WakeSender(s).sent == s.sent
  {
  }

  lemma QuietQueue(c: Config, s: State, e: Event)
    requires Inv(c, s) && Enabled(c, s, e)
    requires !e.Copy? && !e.Join? && !e.Reset? && !Receives(s, e)
    ensures Step(c, s, e).0.queue == s.queue && Step(c, s, e).0.sent == s.sent
  {
    ListFacts(c, s);
    ThreadFacts(c, s, e.t);
    hide Partition, Waiting, Contents, NoLostWakeup, Woken, Remaining, PlaceOk, Distinct, TrySend, TryRecv,
         WakeSender, Without;
    match e {
      case Send(t, msg, timeout) => TrySendQuiet(c, s, t, msg, timeout, timeout);
      case PutBack(t) => WakeSenderQuiet(Move(s, t, Outside).(idle := [s.at[t].node] + s.idle));
      case Resume(t, elapsed) =>
        var p := s.at[t];
        if p.SendWoken? { TrySendQuiet(c, s, t, p.msg, p.asked, Remaining(p.timeout, elapsed)); }
      case _ =>
    }
  }

  lemma RefinesQuiet(c: Config, s: State, e: Event)
    requires Inv(c, s) && Enabled(c, s, e)
    requires !e.Copy? && !e.Join? && !e.Reset? && !Receives(s, e)
    ensures Refined(c, s, e, Step(c, s, e).0)
  {
    QuietQueue(c, s, e);
    QueueSent(c, s);
    hide Step, Inv, Messages;
    SameMessages(s, Step(c, s, e).0);
  }

  lemma RefinesRecv(c: Config, s: State, e: Event)
    requires Inv(c, s) && Enabled(c, s, e) && Receives(s, e)
    ensures Refined(c, s, e, Step(c, s, e).0)
  {
    QueueSent(c, s);
    ListFacts(c, s);
    ThreadFacts(c, s, e.t);
    hide Partition, Waiting, Contents, Woken, Remaining, Messages, NoLostWakeup;
    if e.Recv? {
      RecvMessages(c, s, e.t, e.size, e.timeout, e.timeout);
    } else {
      var p := s.at[e.t];
      RecvMessages(c, s, e.t, p.size, p.asked, Remaining(p.timeout, e.elapsed));
    }
  }

  lemma RefinesJoin(c: Config, s: State, t: Tid)
    requires Inv(c, s) && Enabled(c, s, Join(t))
    ensures Refined(c, s, Join(t), Step(c, s, Join(t)).0)
  {
    QueueSent(c, s);
    ThreadFacts(c, s, t);
    RoomToLink(c, s, t);
    LinkKeepsShape(c, s, t);
    ListFacts(c, LinkIn(s, t));
    hide Partition, Waiting, Contents, Woken, NoLostWakeup;
    JoinMessages(c, s, t);
    hide Messages;
    SameMessages(LinkIn(s, t), WakeReceiver(LinkIn(s, t)));
  }

  /** The chain of nodes is a double-ended queue of messages: sends append, urgent sends prepend,
      a receive takes the front and has it in hand, nothing else changes it. */
  lemma Refines(c: Config, s: State, e: Event)
    requires Inv(c, s) && Enabled(c, s, e)
    ensures Refined(c, s, e, Step(c, s, e).0)
  {
    QueueSent(c, s);
    hide Partition, Waiting, Contents, Woken, NoLostWakeup, Remaining;
    if Receives(s, e) {
      RefinesRecv(c, s, e);
    } else {
      match e {
        case Copy(t) =>
          ThreadFacts(c, s, t);
          CopyMessages(s, s.at[t].node, s.at[t].msg, Step(c, s, e).0);
        case Join(t) => RefinesJoin(c, s, t);
        case Reset =>
        case _ => RefinesQuiet(c, s, e);
      }
    }
  }

  lemma SameMessages(s: State, s': State)
    requires s'.queue == s.queue && s'.sent == s.sent && AllSent(s)
    ensures AllSent(s') && Messages(s') == Messages(s)
  {
  }

  lemma CopyMessages(s: State, n: Node, msg: Buffer, s': State)
    requires s'.queue == s.queue && s'.sent == s.sent[n := msg] && n !in s.queue
    requires AllSent(s)
    ensures AllSent(s') && Messages(s') == Messages(s)
  {
  }

  lemma RecvMessages(c: Config, s: State, t: Tid, size: nat, asked: int, timeout: int)
    requires t in c.prio && Known(s.receivers, c.prio) && s.entry == |s.queue|
    requires AllSent(s)
    ensures AllSent(TryRecv(c, s, t, size, asked, timeout).0)
    ensures var s' := TryRecv(c, s, t, size, asked, timeout).0;
            && Messages(s') == (if Messages(s) == [] then Messages(s) else Messages(s)[1..])
            && (Messages(s) != [] ==> t in s'.at && s'.at[t].Draining? && s'.at[t].msg == Messages(s)[0])
  {
  }

  lemma JoinMessages(c: Config, s: State, t: Tid)
    requires Shape(c, s) && t in s.at && s.at[t].Filled? && s.at[t].node in s.sent
    requires s.sent[s.at[t].node] == s.at[t].msg
    requires AllSent(s)
    ensures AllSent(LinkIn(s, t))
    ensures Messages(LinkIn(s, t)) == if s.at[t].urgent then [s.at[t].msg] + Messages(s)
        else Messages(s) + [s.at[t].msg]
  {
  }

  // ----- what each call answers -----

  /** All threads but `t` and, unless it is the same, `u` are where they were. */
  ghost predicate OthersStay(s: State, s': State, t: Tid, u: Tid) {
    s'.at.Keys == s.at.Keys && forall v :: v in s.at && v != t && v != u ==> s'.at[v] == s.at[v]
  }

  ghost predicate SameStore(s: State, s': State) {
    s'.idle == s.idle && s'.queue == s.queue && s'.entry == s.entry && s'.buf == s.buf && s'.sent == s.sent
  }

  ghost predicate SameSleepers(s: State, s': State) {
    s'.senders == s.senders && s'.receivers == s.receivers
  }

  /** A send of `msg` with `left` ticks to wait takes the first free node; without one it gives up if and only
      if no time is left, and sleeps otherwise. */
  ghost predicate SendAnswered(c: Config, s: State, t: Tid, msg: Buffer, asked: int, left: int, s': State, r: Outcome)
    requires t in s.at && t in c.prio && Known(s.senders, c.prio)
  {
    && OthersStay(s, s', t, t) && t in s'.at && s'.queue == s.queue && s'.entry == s.entry
    && s'.buf == s.buf && s'.sent == s.sent && s'.receivers == s.receivers
    && (r == Full <==> s.idle == [] && left == 0)
    && (r != Full ==> r == Pending)
    && if s.idle != [] then
         s'.at[t] == Filling(s.idle[0], msg, false) && s.idle == [s.idle[0]] + s'.idle && s'.senders == s.senders
       else if left == 0 then
         s'.at[t] == Outside && s'.idle == [] && s'.senders == s.senders
       else
         && s'.at[t] == SendWait(msg, asked, left) && s'.idle == []
         && t in s'.senders && s'.senders == Enqueue(s.senders, t, c.flag, c.prio)
  }

  /** A receive of `size` bytes with `left` ticks to wait takes the first message; without one it gives up if
      and only if no time is left, and sleeps otherwise. */
  ghost predicate RecvAnswered(c: Config, s: State, t: Tid, size: nat, asked: int, left: int, s': State, r: Outcome)
    requires t in s.at && t in c.prio && Known(s.receivers, c.prio) && AllSent(s)
  {
    && OthersStay(s, s', t, t) && t in s'.at && s'.idle == s.idle && s'.buf == s.buf && s'.sent == s.sent
    && s'.senders == s.senders && AllSent(s')
    && (r == Timeout <==> Messages(s) == [] && left == 0)
    && (r != Timeout ==> r == Pending)
    && if Messages(s) != [] then
         && s'.at[t] == Draining(s.queue[0], Messages(s)[0], size) && Messages(s) == [Messages(s)[0]] + Messages(s')
         && s'.receivers == s.receivers
       else if left == 0 then
         s'.at[t] == Outside && Messages(s') == [] && s'.receivers == s.receivers
       else
         && s'.at[t] == RecvWait(size, asked, left) && Messages(s') == []
         && t in s'.receivers && s'.receivers == Enqueue(s.receivers, t, c.flag, c.prio)
  }

  lemma TrySendAnswers(c: Config, s: State, t: Tid, msg: Buffer, asked: int, left: int)
    requires t in s.at && t in c.prio && Known(s.senders, c.prio)
    ensures var (s', r) := TrySend(c, s, t, msg, asked, left); SendAnswered(c, s, t, msg, asked, left, s', r)
  {
    EnqueueKeeps(s.senders, t, c.flag, c.prio);
  }

  lemma TryRecvAnswers(c: Config, s: State, t: Tid, size: nat, asked: int, left: int)
    requires t in s.at && t in c.prio && Known(s.receivers, c.prio) && AllSent(s) && s.entry == |s.queue|
    ensures var (s', r) := TryRecv(c, s, t, size, asked, left); RecvAnswered(c, s, t, size, asked, left, s', r)
  {
    EnqueueKeeps(s.receivers, t, c.flag, c.prio);
  }

  /** A send is an error if and only if the message is too long; else see `SendAnswered`. */
  lemma SendAnswers(c: Config, s: State, t: Tid, msg: Buffer, timeout: int)
    requires Inv(c, s) && Enabled(c, s, Send(t, msg, timeout))
    ensures Known(s.senders, c.prio)
    ensures var (s', r) := Step(c, s, Send(t, msg, timeout));
            && (r == Error <==> |msg| > c.msgSize)
            && (r == Error ==> s' == s)
            && (r != Error ==> SendAnswered(c, s, t, msg, timeout, timeout, s', r))
  {
    ListFacts(c, s);
    hide Inv, Shape, SendAnswered, TrySend;
    TrySendAnswers(c, s, t, msg, timeout, timeout);
    ErrorOnly(c, s, t, msg, timeout, timeout);
  }

  lemma ErrorOnly(c: Config, s: State, t: Tid, msg: Buffer, asked: int, left: int)
    requires t in c.prio && Known(s.senders, c.prio)
    ensures TrySend(c, s, t, msg, asked, left).1 != Error
  {
  }

  /** An urgent send is an error if and only if the message is too long, and gives up if and only if it is not
      and no node is free; it never sleeps. */
  lemma UrgentAnswers(c: Config, s: State, t: Tid, msg: Buffer)
    requires Inv(c, s) && Enabled(c, s, Urgent(t, msg))
    ensures var (s', r) := Step(c, s, Urgent(t, msg));
            && (r == Error <==> |msg| > c.msgSize)
            && (r == Full <==> |msg| <= c.msgSize && s.idle == [])
            && (r == Error || r == Full ==> s' == s)
            && (r != Error && r != Full ==>
                  && r == Pending && OthersStay(s, s', t, t) && SameSleepers(s, s')
                  && t in s'.at && s.idle == [s.idle[0]] + s'.idle && s'.at[t] == Filling(s.idle[0], msg, true)
                  && s'.queue == s.queue && s'.entry == s.entry && s'.buf == s.buf && s'.sent == s.sent)
  {
    hide Inv;
  }

  lemma RecvAnswers(c: Config, s: State, t: Tid, size: nat, timeout: int)
    requires Inv(c, s) && Enabled(c, s, Recv(t, size, timeout))
    ensures Known(s.receivers, c.prio) && AllSent(s)
    ensures var (s', r) := Step(c, s, Recv(t, size, timeout));
            RecvAnswered(c, s, t, size, timeout, timeout, s', r)
  {
    ListFacts(c, s);
    QueueSent(c, s);
    hide Partition, Waiting, Contents, RecvAnswered, TryRecv, NoLostWakeup;
    TryRecvAnswers(c, s, t, size, timeout, timeout);
  }

  /** A thread that runs again after sleeping reports the error it was woken with; otherwise it tries again
      with what is left of its timeout. */
  lemma ResumeAnswers(c: Config, s: State, t: Tid, elapsed: Ticks)
    requires Inv(c, s) && Enabled(c, s, Resume(t, elapsed))
    ensures Known(s.senders, c.prio) && Known(s.receivers, c.prio) && AllSent(s)
    ensures var (s', r) := Step(c, s, Resume(t, elapsed));
            var p := s.at[t];
            && (r == Error <==> p.failed)
            && (p.failed ==> OthersStay(s, s', t, t) && t in s'.at && s'.at[t] == Outside
                             && SameStore(s, s') && SameSleepers(s, s'))
            && (!p.failed && p.SendWoken? ==>
                  SendAnswered(c, s, t, p.msg, p.asked, Remaining(p.timeout, elapsed), s', r))
            && (!p.failed && p.RecvWoken? ==>
                  RecvAnswered(c, s, t, p.size, p.asked, Remaining(p.timeout, elapsed), s', r))
  {
    ListFacts(c, s);
    QueueSent(c, s);
    hide Partition, Waiting, Contents, NoLostWakeup, Remaining, Messages;
    var p := s.at[t];
    if !p.failed {
      if p.SendWoken? {
        TrySendAnswers(c, s, t, p.msg, p.asked, Remaining(p.timeout, elapsed));
      } else {
        TryRecvAnswers(c, s, t, p.size, p.asked, Remaining(p.timeout, elapsed));
      }
    }
  }

  /** Copying in and copying out stay with the node, the message and the kind of the call; nobody else notices. */
  lemma CopyAnswers(c: Config, s: State, t: Tid)
    requires Inv(c, s) && Enabled(c, s, Copy(t))
    ensures var (s', r) := Step(c, s, Copy(t));
            var p := s.at[t];
            && r == Pending && OthersStay(s, s', t, t) && SameSleepers(s, s')
            && s'.queue == s.queue && s'.idle == s.idle
            && t in s'.at && s'.at[t] == Filled(p.node, p.msg, p.urgent)
            && p.node in s'.buf && Starts(p.msg, s'.buf[p.node]) && p.node in s'.sent && s'.sent[p.node] == p.msg
            && forall n :: n in s.buf && n != p.node ==> n in s'.buf && s'.buf[n] == s.buf[n]
  {
    ThreadFacts(c, s, t);
    hide Inv;
  }

  lemma CopyOutAnswers(c: Config, s: State, t: Tid)
    requires Inv(c, s) && Enabled(c, s, CopyOut(t))
    ensures var (s', r) := Step(c, s, CopyOut(t));
            var p := s.at[t];
            && r == Pending && OthersStay(s, s', t, t) && SameSleepers(s, s') && SameStore(s, s')
            && t in s'.at && s'.at[t].Drained? && s'.at[t].node == p.node && s'.at[t].size == p.size
            && Delivers(s'.at[t].out, p.msg, p.size)
  {
    CopyOutDelivers(c, s, t);
    hide Inv, Delivers;
  }

  /** Linking a message in wakes the first receiver that sleeps, if any, and nobody else. */
  lemma JoinAnswers(c: Config, s: State, t: Tid)
    requires Inv(c, s) && Enabled(c, s, Join(t))
    ensures var (s', r) := Step(c, s, Join(t));
            && r == Ok && t in s'.at && s'.at[t] == Outside && s'.idle == s.idle && s'.senders == s.senders
            && if s.receivers == [] then OthersStay(s, s', t, t) && s'.receivers == []
               else
                 var w := s.receivers[0];
                 && s.receivers == [w] + s'.receivers && OthersStay(s, s', t, w)
                 && w in s.at && s.at[w].RecvWait?
                 && s'.at[w] == RecvWoken(s.at[w].size, s.at[w].asked, s.at[w].timeout, false)
  {
    hide Partition, Waiting, Contents, NoLostWakeup, WakeReceiver;
    RoomToLink(c, s, t);
    LinkKeepsShape(c, s, t);
    ListFacts(c, s);
    ListFacts(c, LinkIn(s, t));
    ReceiverWoken(LinkIn(s, t));
  }

  lemma ReceiverWoken(s: State)
    requires forall t :: t in s.receivers ==> t in s.at && s.at[t].RecvWait?
    ensures var s' := WakeReceiver(s);
            && SameStore(s, s') && s'.senders == s.senders
            && if s.receivers == [] then s' == s
               else
                 var w := s.receivers[0];
                 && s.receivers == [w] + s'.receivers && OthersStay(s, s', w, w) && w in s.at && s.at[w].RecvWait?
                 && s'.at[w] == RecvWoken(s.at[w].size, s.at[w].asked, s.at[w].timeout, false)
  {
    if s.receivers != [] { assert s.receivers[0] in s.receivers; }
  }

  lemma SenderWoken(s: State)
    requires forall t :: t in s.senders ==> t in s.at && s.at[t].SendWait?
    ensures var s' := WakeSender(s);
            && SameStore(s, s') && s'.receivers == s.receivers
            && if s.senders == [] then s' == s
               else
                 var w := s.senders[0];
                 && s.senders == [w] + s'.senders && OthersStay(s, s', w, w) && w in s.at && s.at[w].SendWait?
                 && s'.at[w] == SendWoken(s.at[w].msg, s.at[w].asked, s.at[w].timeout, false)
  {
    if s.senders != [] { assert s.senders[0] in s.senders; }
  }

  /** Giving a node back wakes the first sender that sleeps, if any, and nobody else. */
  lemma PutBackAnswers(c: Config, s: State, t: Tid)
    requires Inv(c, s) && Enabled(c, s, PutBack(t))
    ensures var (s', r) := Step(c, s, PutBack(t));
            && r == Ok && t in s'.at && s'.at[t] == Outside && s'.idle == [s.at[t].node] + s.idle
            && s'.queue == s.queue && s'.sent == s.sent && s'.receivers == s.receivers
            && if s.senders == [] then OthersStay(s, s', t, t) && s'.senders == []
               else
                 var w := s.senders[0];
                 && s.senders == [w] + s'.senders && OthersStay(s, s', t, w)
                 && w in s.at && s.at[w].SendWait?
                 && s'.at[w] == SendWoken(s.at[w].msg, s.at[w].asked, s.at[w].timeout, false)
  {
    hide Partition, Waiting, Contents, NoLostWakeup, WakeSender;
    ListFacts(c, s);
    SenderWoken(Move(s, t, Outside).(idle := [s.at[t].node] + s.idle));
  }

  /** A sleeping thread that is woken with an error. */
  predicate WokenInVain(p: Place, p': Place) {
    match p
    case SendWait(msg, asked, timeout) => p' == SendWoken(msg, asked, timeout, true)
    case RecvWait(size, asked, timeout) => p' == RecvWoken(size, asked, timeout, true)
    case _ => p' == p
  }

  /** A timeout wakes just its thread, with an error. */
  lemma ExpireAnswers(c: Config, s: State, t: Tid)
    requires Inv(c, s) && Enabled(c, s, Expire(t))
    ensures var s' := Step(c, s, Expire(t)).0;
            && OthersStay(s, s', t, t) && SameStore(s, s') && t in s'.at && WokenInVain(s.at[t], s'.at[t])
            && (forall u :: u in s'.senders <==> u in s.senders && u != t)
            && (forall u :: u in s'.receivers <==> u in s.receivers && u != t)
  {
    WithoutKeeps(s.senders, t);
    WithoutKeeps(s.receivers, t);
    hide Inv;
  }

  /** A reset wakes everybody with an error and turns every queued node into a free one. */
  lemma ResetAnswers(c: Config, s: State)
    requires Inv(c, s)
    ensures var (s', r) := Step(c, s, Reset);
            && r == Ok && s'.senders == [] && s'.receivers == [] && s'.queue == [] && s'.entry == 0
            && s'.at.Keys == s.at.Keys && (forall t :: t in s.at ==> WokenInVain(s.at[t], s'.at[t]))
            && (forall n :: n in s'.idle <==> n in s.idle || n in s.queue)
  {
    ReverseMembers(s.queue);
    hide Inv;
  }
}
