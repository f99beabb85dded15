/** The message queue at work: the sections of the protocol carried out on the node chains.  A thread
    keeps the node it has in hand from one section to the next, while the other threads go on. */
module MqRefine {
  import opened IpcList
  import opened MqStore
  import opened MessageQueue
  import SM = SmallMem

  /** A node that a thread is about to link behind the last one. */
  predicate ToAppend(p: Place) {
    p.Filled? && !p.urgent
  }

  /** The chain of every node to be appended ends there. */
  ghost predicate Ended(next: seq<int>, at: map<Tid, Place>) {
    forall t :: t in at && ToAppend(at[t]) ==> 0 <= at[t].node < |next| && next[at[t].node] == NIL
  }

  ghost predicate SameBuffers(data: seq<Buffer>, buf: map<Node, Buffer>) {
    forall n :: 0 <= n < |data| ==> n in buf && buf[n] == data[n]
  }

  /** The store is what the protocol's state says: same queue, same free chain, same count, same buffers,
      and the nodes in hand are ready to be linked. */
  ghost predicate Rel(st: Store, c: Config, s: State)
    reads st, st.next, st.data
  {
    && st.Valid() && c.nodes == st.maxMsgs && c.msgSize == st.msgSize
    && s.queue == st.queue && s.idle == st.idle && s.entry == st.entry
    && SameBuffers(st.data[..], s.buf)
    && Ended(st.next[..], s.at)
  }

  /** A node in a thread's hands is on neither chain, and no other thread has it. */
  lemma NodeInHand(st: Store, c: Config, s: State, t: Tid)
    requires Rel(st, c, s) && Inv(c, s) && t in s.at && !EmptyHanded(s.at[t])
    ensures st.InHand(s.at[t].node)
    ensures forall u :: u in s.at && u != t && !EmptyHanded(s.at[u]) ==> s.at[u].node != s.at[t].node
  {
    ThreadFacts(c, s, t);
    forall u | u in s.at && u != t && !EmptyHanded(s.at[u]) ensures s.at[u].node != s.at[t].node {
      assert Holds(s.at[u], s.at[u].node);
    }
  }

  /** Links of nodes still to be appended are not written by anybody else. */
  lemma EndedStill(next: seq<int>, next': seq<int>, at: map<Tid, Place>, at': map<Tid, Place>)
    requires Ended(next, at) && |next'| == |next|
    requires forall t :: t in at' && ToAppend(at'[t]) ==> t in at && at[t] == at'[t]
    requires forall t :: t in at' && ToAppend(at'[t]) && 0 <= at'[t].node < |next| ==>
               next'[at'[t].node] == next[at'[t].node]
    ensures Ended(next', at')
  {
  }

  lemma FirstNode(c: Config, s: State)
    requires Shape(c, s)
    ensures s.idle != [] ==> s.idle[0] != NIL
    ensures s.queue != [] ==> s.queue[0] in s.sent
  {
    HeadReady(c, s);
    if s.idle != [] {
      assert s.idle[0] in s.idle;
      assert InRange(c, s.idle[0]);
    }
  }

  // ----- the sections -----

  /** A send or an urgent send takes a node, or finds none. */
  method Take(st: Store, c: Config, s: State, t: Tid, msg: Buffer, urgent: bool) returns (got: bool, s': State)
    requires Inv(c, s) && Rel(st, c, s) && t in s.at
    modifies st`free, st`idle
    ensures Rel(st, c, s') && got == (s.idle != [])
    ensures s' == if got then Move(s, t, Filling(s.idle[0], msg, urgent)).(idle := s.idle[1..]) else s
  {
    hide Inv, Shape, Store.Valid, Ended, SameBuffers;
    assert Shape(c, s) by { Parts(c, s); }
    FirstNode(c, s);
    var m := st.TakeFree();
    if m == NIL {
      return false, s;
    }
    s' := Move(s, t, Filling(m, msg, urgent)).(idle := s.idle[1..]);
    EndedStill(st.next[..], st.next[..], s.at, s'.at);
    got := true;
  }

  lemma InStore(st: Store, c: Config, s: State)
    requires Rel(st, c, s)
    ensures c.msgSize == st.msgSize
  {
  }

  lemma Parts(c: Config, s: State)
    requires Inv(c, s)
    ensures Shape(c, s)
  {
  }

  method TrySendOn(st: Store, c: Config, s: State, t: Tid, msg: Buffer, asked: int, timeout: int)
    returns (s': State, out: Outcome)
    requires Inv(c, s) && Rel(st, c, s) && t in s.at && t in c.prio && Known(s.senders, c.prio)
    modifies st`free, st`idle
    ensures Rel(st, c, s') && (s', out) == TrySend(c, s, t, msg, asked, timeout)
  {
    hide Inv, Store.Valid, Ended, SameBuffers, Shape;
    var got;
    got, s' := Take(st, c, s, t, msg, false);
    if got {
      return s', Pending;
    } else if timeout == 0 {
      s', out := Move(s, t, Outside), Full;
    } else {
      s', out := Move(s, t, SendWait(msg, asked, timeout)).(senders := Enqueue(s.senders, t, c.flag, c.prio)), Pending;
    }
    EndedStill(st.next[..], st.next[..], s.at, s'.at);
  }

  method TryRecvOn(st: Store, c: Config, s: State, t: Tid, size: nat, asked: int, timeout: int)
    returns (s': State, out: Outcome)
    requires Inv(c, s) && Rel(st, c, s) && t in s.at && t in c.prio && Known(s.receivers, c.prio)
    requires s.entry != 0 ==> s.queue != [] && s.queue[0] in s.sent
    modifies st`head, st`tail, st`entry, st`queue
    ensures Rel(st, c, s') && (s', out) == TryRecv(c, s, t, size, asked, timeout)
  {
    hide Inv, Ended, SameBuffers;
    if st.entry != 0 {
      ghost var n := st.next[..];
      var m := st.Unlink();
      s', out := Move(s, t, Draining(m, s.sent[m], size)).(queue := s.queue[1..], entry := s.entry - 1), Pending;
    } else if timeout == 0 {
      s', out := Move(s, t, Outside), Timeout;
    } else {
      s', out := Move(s, t, RecvWait(size, asked, timeout)).(receivers := Enqueue(s.receivers, t, c.flag, c.prio)),
          Pending;
    }
    EndedStill(st.next[..], st.next[..], s.at, s'.at);
  }

  method CopyOn(st: Store, c: Config, s: State, t: Tid) returns (s': State)
    requires Inv(c, s) && Rel(st, c, s) && Enabled(c, s, Copy(t))
    modifies st.next, st.data
    ensures Rel(st, c, s') && s' == Step(c, s, Copy(t)).0
  {
    hide Inv, Shape, Store.Valid, Chain;
    Parts(c, s);
    NodeInHand(st, c, s, t);
    ThreadFacts(c, s, t);
    var p := s.at[t];
    ghost var n, d := st.next[..], st.data[..];
    if !p.urgent {
      st.EndChain(p.node);
    }
    st.Fill(p.node, p.msg);
    s' := Move(s, t, Filled(p.node, p.msg, p.urgent))
            .(buf := s.buf[p.node := Overlay(p.msg, s.buf[p.node])], sent := s.sent[p.node := p.msg]);
  }

  /** Two states that differ in who sleeps only. */
  ghost predicate SameNodes(s: State, s': State) {
    && s'.queue == s.queue && s'.idle == s.idle && s'.entry == s.entry && s'.buf == s.buf
    && forall t :: t in s'.at && ToAppend(s'.at[t]) ==> t in s.at && s.at[t] == s'.at[t]
  }

  lemma WakingIsAside(c: Config, s: State)
    requires Shape(c, s)
    ensures forall t :: t in s.senders ==> t in s.at && s.at[t].SendWait?
    ensures forall t :: t in s.receivers ==> t in s.at && s.at[t].RecvWait?
    ensures SameNodes(s, WakeReceiver(s))
  {
    ListFacts(c, s);
  }

  lemma WakeSenderIsAside(s: State)
    requires forall t :: t in s.senders ==> t in s.at && s.at[t].SendWait?
    ensures SameNodes(s, WakeSender(s))
  {
  }

  method JoinOn(st: Store, c: Config, s: State, t: Tid) returns (s': State)
    requires Inv(c, s) && Rel(st, c, s) && Enabled(c, s, Join(t))
    modifies st`head, st`tail, st`entry, st`queue, st.next
    ensures Rel(st, c, s') && s' == Step(c, s, Join(t)).0
  {
    hide Inv, Store.Valid, SameBuffers, Ended, Shape, LinkIn, WakeReceiver, Store.InHand;
    Parts(c, s);
    NodeInHand(st, c, s, t);
    RoomToLink(c, s, t);
    LinkKeepsShape(c, s, t);
    Linked(c, s, t);
    WakingIsAside(c, LinkIn(s, t));
    var p := s.at[t];
    ghost var n := st.next[..];
    if p.urgent {
      st.LinkHead(p.node);
    } else {
      Ending(n, s.at, t);
      st.LinkTail(p.node);
    }
    EndedStill(n, st.next[..], s.at, LinkIn(s, t).at);
    s' := WakeReceiver(LinkIn(s, t));
    EndedStill(st.next[..], st.next[..], LinkIn(s, t).at, s'.at);
  }

  lemma Ending(n: seq<int>, at: map<Tid, Place>, t: Tid)
    requires Ended(n, at) && t in at && ToAppend(at[t])
    ensures 0 <= at[t].node < |n| && n[at[t].node] == NIL
  {
  }

  lemma Linked(c: Config, s: State, t: Tid)
    requires t in s.at && s.at[t].Filled? && Shape(c, LinkIn(s, t))
    ensures var p, s' := s.at[t], LinkIn(s, t);
            && s'.queue == (if p.urgent then [p.node] + s.queue else s.queue + [p.node])
            && s'.idle == s.idle && s'.entry == s.entry + 1 && s'.buf == s.buf
            && forall u :: u in s'.at && ToAppend(s'.at[u]) ==>
                 u in s.at && s.at[u] == s'.at[u] && 0 <= s'.at[u].node < c.nodes && s'.at[u].node !in s'.queue
  {
    HandsOffQueue(c, LinkIn(s, t));
  }

  /** Nodes in hand are not queued and not free. */
  lemma HandsOffQueue(c: Config, s: State)
    requires Shape(c, s)
    ensures forall t :: t in s.at && !EmptyHanded(s.at[t]) ==>
              0 <= s.at[t].node < c.nodes && s.at[t].node !in s.queue && s.at[t].node !in s.idle
  {
    forall t | t in s.at && !EmptyHanded(s.at[t])
      ensures 0 <= s.at[t].node < c.nodes && s.at[t].node !in s.queue && s.at[t].node !in s.idle
    {
      ThreadFacts(c, s, t);
    }
  }

  method CopyOutOn(st: Store, c: Config, s: State, t: Tid) returns (s': State)
    requires Inv(c, s) && Rel(st, c, s) && Enabled(c, s, CopyOut(t))
    ensures Rel(st, c, s') && s' == Step(c, s, CopyOut(t)).0
  {
    Parts(c, s);
    NodeInHand(st, c, s, t);
    var p := s.at[t];
    var bytes := st.ReadOut(p.node, p.size);
    s' := Move(s, t, Drained(p.node, p.msg, p.size, bytes));
    hide Inv, Store.Valid, Chain, Shape;
    EndedStill(st.next[..], st.next[..], s.at, s'.at);
  }

  method PutBackOn(st: Store, c: Config, s: State, t: Tid) returns (s': State)
    requires Inv(c, s) && Rel(st, c, s) && Enabled(c, s, PutBack(t))
    modifies st`free, st`idle, st.next
    ensures Rel(st, c, s') && s' == Step(c, s, PutBack(t)).0
  {
    hide Inv, Store.Valid, SameBuffers, Ended, Shape, WakeSender, Store.InHand;
    Parts(c, s);
    NodeInHand(st, c, s, t);
    ListFacts(c, s);
    var p := s.at[t];
    var back := Move(s, t, Outside).(idle := [p.node] + s.idle);
    ghost var n := st.next[..];
    st.PutFree(p.node);
    EndedStill(n, st.next[..], s.at, back.at);
    s' := WakeSender(back);
    WakeSenderIsAside(back);
    EndedStill(st.next[..], st.next[..], back.at, s'.at);
  }

  method ResetOn(st: Store, c: Config, s: State) returns (s': State)
    requires Inv(c, s) && Rel(st, c, s)
    modifies st`head, st`tail, st`free, st`entry, st`queue, st`idle, st.next
    ensures Rel(st, c, s') && s' == ResetStep(s)
  {
    Parts(c, s);
    HandsOffQueue(c, s);
    hide Inv, Shape, Store.Valid, Chain, SameBuffers;
    ghost var n := st.next[..];
    st.Drain();
    s' := ResetStep(s);
    EndedStill(n, st.next[..], s.at, s'.at);
  }

  /** Any section, on the node chains: it does the step of the protocol and keeps the store in step. */
  method Section(st: Store, c: Config, s: State, e: Event) returns (s': State, out: Outcome)
    requires Inv(c, s) && Rel(st, c, s) && Enabled(c, s, e)
    modifies st, st.next, st.data
    ensures (s', out) == Step(c, s, e)
    ensures Inv(c, s') && Rel(st, c, s')
  {
    hide Inv, Shape, Rel, WakeSender, WakeReceiver, LinkIn, ResetStep, TrySend, TryRecv;
    Parts(c, s);
    InStore(st, c, s);
    StepKeeps(c, s, e);
    ListFacts(c, s);
    FirstNode(c, s);
    match e
    case Send(t, msg, timeout) =>
      if |msg| > st.msgSize { return s, Error; }
      s', out := TrySendOn(st, c, s, t, msg, timeout, timeout);
    case Urgent(t, msg) =>
      if |msg| > st.msgSize { return s, Error; }
      var got;
      got, s' := Take(st, c, s, t, msg, true);
      out := if got then Pending else Full;
    case Copy(t) => s' := CopyOn(st, c, s, t); out := Pending;
    case Join(t) =>
      JoinKeeps(c, s, t);
      s' := JoinOn(st, c, s, t);
      out := Ok;
    case Recv(t, size, timeout) => s', out := TryRecvOn(st, c, s, t, size, timeout, timeout);
    case CopyOut(t) => s' := CopyOutOn(st, c, s, t); out := Pending;
    case PutBack(t) => s' := PutBackOn(st, c, s, t); out := Ok;
    case Expire(t) => s', out := Aside(st, c, s, e);
    case Resume(t, elapsed) =>
      var p := s.at[t];
      if p.failed { s', out := Aside(st, c, s, e); }
      else if p.SendWoken? { s', out := TrySendOn(st, c, s, t, p.msg, p.asked, Remaining(p.timeout, elapsed)); }
      else { s', out := TryRecvOn(st, c, s, t, p.size, p.asked, Remaining(p.timeout, elapsed)); }
    case Reset => s' := ResetOn(st, c, s); out := Ok;
  }

  /** A timer that expires, or a thread that leaves with an error, does not touch the store. */
  method Aside(st: Store, c: Config, s: State, e: Event) returns (s': State, out: Outcome)
    requires Inv(c, s) && Rel(st, c, s) && Enabled(c, s, e)
    requires e.Expire? || (e.Resume? && s.at[e.t].failed)
    ensures (s', out) == Step(c, s, e) && Rel(st, c, s')
  {
    s', out := Step(c, s, e).0, Step(c, s, e).1;
    hide Inv, Store.Valid, Chain, Shape;
    EndedStill(st.next[..], st.next[..], s.at, s'.at);
  }

  // ----- whole runs -----

  /** A new queue, and the state the protocol starts in. */
  method New(poolSize: nat, size: SM.Word, flag: Flag, prio: map<Tid, Priority>)
    returns (st: Store, c: Config, s: State)
    ensures fresh(st) && fresh(st.next) && fresh(st.data)
    ensures c == Config(MaxMsgs(poolSize, MsgSize(size)), MsgSize(size), flag, prio)
    ensures Fresh(c, s) && s.at.Keys == prio.Keys && Rel(st, c, s)
  {
    st := new Store(poolSize, size);
    c := Config(st.maxMsgs, st.msgSize, flag, prio);
    var bufs := map n: int | 0 <= n < st.maxMsgs :: st.data[n];
    s := State(Down(st.maxMsgs), [], 0, bufs, bufs, map t | t in prio :: Outside, [], []);
  }

  /** The sections of any run, carried out one after the other on the node chains, leave them as the
      protocol's state says; every prefix of a run being a run, so it is at every moment. */
  method Follow(st: Store, c: Config, evs: seq<Event>, trace: seq<State>)
    requires Run(c, evs, trace) && Rel(st, c, trace[0])
    modifies st, st.next, st.data
    ensures Inv(c, trace[|evs|]) && Rel(st, c, trace[|evs|])
  {
    hide Inv, Rel, Fresh, Shape;
    FreshInv(c, trace[0]);
    var n := 0;
    while n < |evs|
      invariant n <= |evs| && Inv(c, trace[n]) && Rel(st, c, trace[n])
    {
      assert Goes(c, trace[n], evs[n], trace[n + 1]);
      Parts(c, trace[n]);
      var s', out := Section(st, c, trace[n], evs[n]);
      assert s' == trace[n + 1];
      n := n + 1;
    }
  }
}
