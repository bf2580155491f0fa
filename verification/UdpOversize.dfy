/** The receive path and datagrams larger than the receive buffer: when exactly everybody is served. */
module UdpOversize {
  import opened PoolModel
  import opened UdpModel
  import opened UdpLaws
  import opened UdpProgress

  ghost predicate DeliveredFit(w: World) {
    forall s, j :: 0 <= s < |w.sockets| && 0 <= j < |w.sockets[s].delivered| ==> |w.sockets[s].delivered[j].data| <= |w.buf|
  }

  /** A reply carries no more than the buffer. */
  lemma ReplyFits(w: World, k: Socket)
    ensures RxSocket(w, k).delivered == k.delivered
         || (RxSocket(w, k).delivered == k.delivered + [Replied(w, k)] && |Replied(w, k).data| <= |w.buf|)
  {
  }

  lemma ArrivalDelivers(k: Socket, p: nat, d: Datagram)
    ensures Enqueue(k, p, d).delivered == k.delivered
  {
  }

  lemma StepDelivers(w: World, e: Event, s: nat)
    requires s < |w.sockets|
    ensures var v := Step(w, e);
            && |v.sockets| == |w.sockets|
            && forall j :: |w.sockets[s].delivered| <= j < |v.sockets[s].delivered| ==> |v.sockets[s].delivered[j].data| <= |w.buf|
    ensures w.sockets[s].delivered <= Step(w, e).sockets[s].delivered
  {
    ReplyFits(w, w.sockets[s]);
    hide RxSocket, RxBuf, RxPbufs, RxClients, Flatten, Enqueue, ReadOut, NewPbuf, Replied;
    match e
    case Arrive(t, chain, addr, port) =>
      ArrivalDelivers(w.sockets[s], |w.pbufs|, Datagram(Flatten(chain), addr, port));
    case Work(_) =>
    case _ =>
      OtherHistory(w, e, s);
  }

  lemma StepKeepsFit(w: World, e: Event)
    requires Inv(w) && DeliveredFit(w)
    ensures DeliveredFit(Step(w, e))
  {
    var v := Step(w, e);
    BufferLengthLasts(w, e);
    SocketsStay(w, e);
    hide Inv, Step;
    forall s, j | 0 <= s < |v.sockets| && 0 <= j < |v.sockets[s].delivered|
      ensures |v.sockets[s].delivered[j].data| <= |w.buf|
    {
      StepDelivers(w, e, s);
      if j < |w.sockets[s].delivered| {
        assert v.sockets[s].delivered[j] == w.sockets[s].delivered[j];
      }
    }
  }

  lemma SocketsStay(w: World, e: Event)
    ensures |Step(w, e).sockets| == |w.sockets|
  {
    hide RxSocket, RxBuf, RxPbufs, RxClients, Enqueue;
  }

  lemma {:induction false} RunKeepsFit(w: World, events: seq<Event>)
    requires Inv(w) && DeliveredFit(w)
    ensures Inv(Run(w, events)) && DeliveredFit(Run(w, events))
    decreases |events|
  {
    hide Inv, DeliveredFit, Step;
    if events != [] {
      RunKeepsFit(w, events[..|events| - 1]);
      StepKeepsFit(Run(w, events[..|events| - 1]), events[|events| - 1]);
      StepKeeps(Run(w, events[..|events| - 1]), events[|events| - 1]);
    }
  }

  /** In every reachable state what has been delivered fits the buffer. */
  lemma DeliveredFits(w: World)
    requires Reachable(w)
    ensures DeliveredFit(w)
  {
    var buf, slots, sockets, clients, events :| w == Run(Start(buf, slots, sockets, clients), events);
    StartInv(buf, slots, sockets, clients);
    RunKeepsFit(Start(buf, slots, sockets, clients), events);
  }

  /** What has been accepted stays accepted, and the buffer keeps its length. */
  lemma {:induction false} AcceptedLasts(w: World, events: seq<Event>, s: nat)
    requires Reachable(w) && s < |w.sockets|
    ensures s < |Run(w, events).sockets| && |Run(w, events).buf| == |w.buf|
    ensures w.sockets[s].accepted <= Run(w, events).sockets[s].accepted
    decreases |events|
  {
    hide Step, Reachable, Inv;
    if events != [] {
      var before, e := events[..|events| - 1], events[|events| - 1];
      AcceptedLasts(w, before, s);
      RunStaysReachable(w, before);
      ReachableInv(Run(w, before));
      BufferLengthLasts(Run(w, before), e);
      AcceptedIffRoom(Run(w, before), e, s);
    }
  }

  /** A datagram larger than the buffer is never delivered, nor anything accepted after it, in any
      continuation. */
  lemma OversizeBlocks(w: World, events: seq<Event>, s: nat, j: nat)
    requires Reachable(w) && s < |w.sockets| && j < |w.sockets[s].accepted| && |w.sockets[s].accepted[j].data| > |w.buf|
    ensures s < |Run(w, events).sockets| && |Run(w, events).sockets[s].delivered| <= j
  {
    var v := Run(w, events);
    hide Run, Reachable;
    AcceptedLasts(w, events, s);
    RunStaysReachable(w, events);
    DeliveredFits(v);
    FifoExactlyOnce(v, s);
    assert v.sockets[s].accepted[j] == w.sockets[s].accepted[j];
  }

  /** The exact condition: where a client waits on every socket in the end, every socket has delivered
      all that it had accepted if and only if all of it fits the buffer. */
  lemma ServedIffAllFit(w: World, events: seq<Event>)
    requires Reachable(w) && Schedule(w, events) && AtRest(Run(w, events))
    requires forall s :: 0 <= s < |w.sockets| ==> WaitedOn(Run(w, events), s)
    ensures |Run(w, events).sockets| == |w.sockets|
    ensures (forall s :: 0 <= s < |w.sockets| ==> Run(w, events).sockets[s].delivered == w.sockets[s].accepted) <==> AllFit(w)
  {
    var v := Run(w, events);
    SocketsLast(w, events);
    hide Run, Schedule, AtRest, Reachable;
    if AllFit(w) {
      forall s | 0 <= s < |w.sockets| ensures v.sockets[s].delivered == w.sockets[s].accepted {
        assert WaitedOn(v, s);
        var c :| 0 <= c < |v.clients| && v.clients[c].pc == Waiting && v.clients[c].sock == s;
        ServedInTheEnd(w, events, c);
      }
    } else {
      var s, j :| 0 <= s < |w.sockets| && 0 <= j < |w.sockets[s].accepted| && |w.sockets[s].accepted[j].data| > |w.buf|;
      OversizeBlocks(w, events, s, j);
    }
  }

  ghost predicate WaitedOn(w: World, s: nat) {
    exists c :: 0 <= c < |w.clients| && w.clients[c].pc == Waiting && w.clients[c].sock == s
  }

  /** A client that waits in the end on a socket with such a datagram waits because some receive thread has
      been stopped. */
  lemma WaitingBehindOversize(w: World, c: nat, j: nat)
    requires Reachable(w) && AtRest(w) && c < |w.clients| && w.clients[c].pc == Waiting && w.clients[c].sock < |w.sockets|
    requires var k := w.sockets[w.clients[c].sock]; j < |k.accepted| && |k.accepted[j].data| > |w.buf|
    ensures !NobodyStopped(w)
  {
    if NobodyStopped(w) {
      NobodyWaitsInVain(w, c);
      OversizeBlocks(w, [], w.clients[c].sock, j);
    }
  }

  // ---------- it does happen ----------

  /** The states of a run in which a datagram of two bytes meets a buffer of one. */
  function Example(notified: bool, pending: nat, rx: Rx, sem: nat, pc: ClientPc): World {
    var d := Datagram(Flatten([[1, 2]]), 0, 0);
    var k := Socket([Message(0, 0, 0)], PoolView([0], []), notified, pending, rx, [0], [d], [], 1, 0);
    World([0], sem, [Pbuf([[1, 2]], 0, 0, Some(0))], [k],
          [if pc == Idle then NewClient() else NewClient().(pc := pc, maxLen := 5, calls := 1)])
  }

  lemma ExampleArrive(m: Message)
    ensures Step(Start([0], [m], 1, 1), Arrive(0, [[1, 2]], 0, 0)) == Example(false, 1, NEW_RX, 1, Idle)
  {
    var w := Start([0], [m], 1, 1);
    var v, u := Step(w, Arrive(0, [[1, 2]], 0, 0)), Example(false, 1, NEW_RX, 1, Idle);
    assert w.sockets[0] == NewSocket([m]);
    assert Numbers(1) == [0] && Numbers(1)[1..] == [];
    assert v.sockets[0] == u.sockets[0];
    assert v.sockets == u.sockets && v.clients == u.clients && v.pbufs == u.pbufs;
  }

  lemma ExampleSignal()
    ensures Step(Example(false, 1, NEW_RX, 1, Idle), Signal(0)) == Example(true, 0, NEW_RX, 1, Idle)
  {
  }

  lemma ExampleBegin()
    ensures Step(Example(true, 0, NEW_RX, 1, Idle), Begin(0, 0, 5)) == Example(true, 0, NEW_RX, 1, Waiting)
  {
  }

  lemma ExampleWake()
    ensures Step(Example(true, 0, NEW_RX, 1, Waiting), Wake(0)) == Example(false, 0, NEW_RX, 1, Taking)
  {
  }

  lemma ExampleTake()
    ensures Step(Example(false, 0, NEW_RX, 1, Taking), Event.Take(0)) == Example(false, 0, NEW_RX, 0, Calling)
  {
  }

  lemma ExampleAwait()
    ensures Step(Example(false, 0, NEW_RX, 0, Calling), Work(0)) == Example(false, 0, NEW_RX.(pc := Await), 0, Calling)
  {
  }

  lemma ExampleAccept()
    ensures Step(Example(false, 0, NEW_RX.(pc := Await), 0, Calling), Accept(0, 0))
         == Example(false, 0, NEW_RX.(pc := Called), 0, InCall)
  {
  }

  function Stage(pc: RxPc): Rx { Rx(pc, 1, 0, Some(0), 0, 0, 0, 0) }

  lemma ExampleLook()
    ensures Step(Example(false, 0, NEW_RX.(pc := Called), 0, InCall), Work(0)) == Example(false, 0, Stage(Header), 0, InCall)
  {
  }

  lemma ExampleRead()
    ensures Step(Example(false, 0, Stage(Header), 0, InCall), Work(0)) == Example(false, 0, Stage(Copy), 0, InCall)
  {
  }

  lemma ExampleStop()
    ensures Step(Example(false, 0, Stage(Copy), 0, InCall), Work(0)) == Example(false, 0, Stage(Stopped), 0, InCall)
  {
  }

  lemma StepStaysReachable(w: World, e: Event)
    requires Reachable(w)
    ensures Reachable(Step(w, e))
  {
    RunStaysReachable(w, [e]);
    OneStep(w, e);
    hide Step, Reachable;
  }

  lemma OneStep(w: World, e: Event)
    ensures Run(w, [e]) == Step(w, e)
  {
    hide Step;
    assert [e][..0] == [];
  }

  lemma StartIsReachable(buf: Bytes, slots: seq<Message>, sockets: nat, clients: nat)
    ensures Reachable(Start(buf, slots, sockets, clients))
  {
    assert Run(Start(buf, slots, sockets, clients), []) == Start(buf, slots, sockets, clients);
  }

  lemma ExampleCalled(m: Message)
    ensures Reachable(Example(false, 0, NEW_RX, 0, Calling))
  {
    hide Step, Reachable, Example;
    StartIsReachable([0], [m], 1, 1);
    StepStaysReachable(Start([0], [m], 1, 1), Arrive(0, [[1, 2]], 0, 0));
    ExampleArrive(m);
    StepStaysReachable(Example(false, 1, NEW_RX, 1, Idle), Signal(0));
    ExampleSignal();
    StepStaysReachable(Example(true, 0, NEW_RX, 1, Idle), Begin(0, 0, 5));
    ExampleBegin();
    StepStaysReachable(Example(true, 0, NEW_RX, 1, Waiting), Wake(0));
    ExampleWake();
    StepStaysReachable(Example(false, 0, NEW_RX, 1, Taking), Event.Take(0));
    ExampleTake();
  }

  /** A reachable state in which a datagram has been accepted and its receive thread is stopped. */
  lemma StoppedExample(m: Message) returns (w: World)
    ensures Reachable(w) && |w.sockets| == 1 && |w.sockets[0].accepted| == 1 && w.sockets[0].rx.pc == Stopped
  {
    w := Example(false, 0, Stage(Stopped), 0, InCall);
    hide Step, Reachable;
    ExampleCalled(m);
    StepStaysReachable(Example(false, 0, NEW_RX, 0, Calling), Work(0));
    ExampleAwait();
    StepStaysReachable(Example(false, 0, NEW_RX.(pc := Await), 0, Calling), Accept(0, 0));
    ExampleAccept();
    StepStaysReachable(Example(false, 0, NEW_RX.(pc := Called), 0, InCall), Work(0));
    ExampleLook();
    StepStaysReachable(Example(false, 0, Stage(Header), 0, InCall), Work(0));
    ExampleRead();
    StepStaysReachable(Example(false, 0, Stage(Copy), 0, InCall), Work(0));
    ExampleStop();
  }
}
