/** The receive path comes to rest: without new packets and new calls every schedule ends, and
    where it ends no client waits for a datagram that has been accepted. */
module UdpProgress {
  import opened PoolModel
  import opened UdpModel
  import opened UdpData
  import opened UdpBuffer
  import opened UdpWake
  import opened UdpLaws

  /** What the threads do by themselves: everything but new packets and new calls. */
  predicate Internal(e: Event) { !e.Arrive? && !e.Begin? }

  ghost predicate ChainsWithin(pbufs: seq<Pbuf>, most: nat) {
    forall p :: 0 <= p < |pbufs| ==> |pbufs[p].chain| <= most
  }

  // ---------- how much is left to do ----------

  function RxWork(rx: Rx, most: nat): nat {
    match rx.pc
    case Await | Stopped => 0
    case Top => 2
    case FreeMsg => 3
    case FreePbuf => 4
    case Reply => 5
    case Copy => 6 + if rx.seg <= most then most - rx.seg else 0
    case Header => 7 + most
    case Called => 8 + most
  }

  function SocketWork(k: Socket, most: nat): nat {
    RxWork(k.rx, most) + 2 * k.pending + if k.notified then 1 else 0
  }

  /** A client that has still to be served accounts for the work of serving it. */
  function ClientWork(c: Client, most: nat): nat {
    match c.pc
    case Idle => 0
    case Giving => 1
    case Copying => 2
    case InCall => 3
    case Calling => 12 + most
    case Taking => 13 + most
    case Waiting => 14 + most
  }

  function SocketsWork(sockets: seq<Socket>, most: nat): nat {
    if sockets == [] then 0 else SocketWork(sockets[0], most) + SocketsWork(sockets[1..], most)
  }

  function ClientsWork(clients: seq<Client>, most: nat): nat {
    if clients == [] then 0 else ClientWork(clients[0], most) + ClientsWork(clients[1..], most)
  }

  function WorkLeft(w: World, most: nat): nat {
    SocketsWork(w.sockets, most) + ClientsWork(w.clients, most)
  }

  lemma {:induction false} SocketsWorkUpdate(sockets: seq<Socket>, i: nat, k: Socket, most: nat)
    requires i < |sockets|
    ensures SocketsWork(sockets[i := k], most)
         == SocketsWork(sockets, most) - SocketWork(sockets[i], most) + SocketWork(k, most)
  {
    if i == 0 {
      assert sockets[0 := k][1..] == sockets[1..];
    } else {
      assert sockets[i := k][1..] == sockets[1..][i - 1 := k];
      SocketsWorkUpdate(sockets[1..], i - 1, k, most);
    }
  }

  lemma {:induction false} ClientsWorkUpdate(clients: seq<Client>, i: nat, x: Client, most: nat)
    requires i < |clients|
    ensures ClientsWork(clients[i := x], most)
         == ClientsWork(clients, most) - ClientWork(clients[i], most) + ClientWork(x, most)
  {
    if i == 0 {
      assert clients[0 := x][1..] == clients[1..];
    } else {
      assert clients[i := x][1..] == clients[1..][i - 1 := x];
      ClientsWorkUpdate(clients[1..], i - 1, x, most);
    }
  }

  lemma RxSocketWorks(w: World, s: nat, k: Socket, most: nat)
    requires SocketOk(w.pbufs, |w.buf|, s, k) && RxCanStep(k) && ChainsWithin(w.pbufs, most)
    ensures SocketWork(RxSocket(w, k), most) < SocketWork(k, most)
  {
    if k.rx.pc == Header || k.rx.pc == Copy {
      HeadMessage(w, s, k);
    }
    hide PoolOk, QueueOk, OwnsPackets, CountOk, DeliveredOk, RegistersOk, Distinct, Flatten;
  }

  lemma WorkTouches(w: World, s: nat)
    requires Enabled(w, Work(s))
    ensures s < |w.sockets| && RxCanStep(w.sockets[s])
    ensures Step(w, Work(s)).sockets == w.sockets[s := RxSocket(w, w.sockets[s])]
  {
  }

  lemma AnswerWorks(k: Socket, c: Client, most: nat)
    requires c.pc == InCall
    ensures ClientWork(Answered(k, c), most) < ClientWork(c, most)
  {
  }

  /** A reply also moves the client on. */
  lemma WorkProgress(w: World, s: nat, most: nat)
    requires DataOk(w) && Exclusive(w) && Enabled(w, Work(s)) && ChainsWithin(w.pbufs, most)
    ensures WorkLeft(Step(w, Work(s)), most) < WorkLeft(w, most)
  {
    assert s < |w.sockets|;
    var k := w.sockets[s];
    assert SocketOk(w.pbufs, |w.buf|, s, k);
    hide RxSocket, RxBuf, RxPbufs, RxClients, SocketOk, Exclusive, ClientsWork, SocketsWork, SocketWork;
    hide Step, Enabled, RxCanStep, ClientWork, Answered, ChainsWithin, PacketsPlaced;
    WorkTouches(w, s);
    RxSocketWorks(w, s, k, most);
    SocketsWorkUpdate(w.sockets, s, RxSocket(w, k), most);
    WorkExclusive(w, s);
    if k.rx.pc == Reply {
      ClientsWorkUpdate(w.clients, k.rx.client, Answered(k, w.clients[k.rx.client]), most);
      AnswerWorks(k, w.clients[k.rx.client], most);
    }
  }

  lemma MoveProgress(w: World, e: Event, most: nat)
    requires Internal(e) && !e.Work? && Enabled(w, e)
    ensures WorkLeft(Step(w, e), most) < WorkLeft(w, most)
  {
    var v := Step(w, e);
    if !e.Signal? {
      ClientsWorkUpdate(w.clients, e.c, v.clients[e.c], most);
    }
    if e.Signal? || e.Wake? || e.Accept? {
      var s := if e.Wake? then w.clients[e.c].sock else e.s;
      SocketsWorkUpdate(w.sockets, s, v.sockets[s], most);
    }
    hide ClientsWork, SocketsWork;
  }

  lemma StepProgress(w: World, e: Event, most: nat)
    requires Inv(w) && Internal(e) && Enabled(w, e) && ChainsWithin(w.pbufs, most)
    ensures WorkLeft(Step(w, e), most) < WorkLeft(w, most) && ChainsWithin(Step(w, e).pbufs, most)
  {
    if e.Work? {
      WorkProgress(w, e.s, most);
    } else {
      MoveProgress(w, e, most);
    }
    hide WorkLeft, DataOk, Exclusive, BufferOk, WakeOk, TokensOk, RxSocket, RxBuf, RxClients, ReadOut;
  }

  // ---------- schedules ----------

  /** A schedule of steps that the threads take by themselves. */
  ghost predicate Schedule(w: World, events: seq<Event>)
    decreases |events|
  {
    if events == [] then true
    else
      var before, e := events[..|events| - 1], events[|events| - 1];
      Schedule(w, before) && Internal(e) && Enabled(Run(w, before), e)
  }

  /** Every schedule ends: it is no longer than the work there was, whatever the interleaving. */
  lemma {:induction false} SchedulesEnd(w: World, events: seq<Event>, most: nat)
    requires Inv(w) && ChainsWithin(w.pbufs, most) && Schedule(w, events)
    ensures Inv(Run(w, events)) && ChainsWithin(Run(w, events).pbufs, most)
    ensures |events| + WorkLeft(Run(w, events), most) <= WorkLeft(w, most)
    decreases |events|
  {
    hide Inv, WorkLeft, ChainsWithin, Step, Enabled;
    if events != [] {
      var before, e := events[..|events| - 1], events[|events| - 1];
      SchedulesEnd(w, before, most);
      StepProgress(Run(w, before), e, most);
      StepKeeps(Run(w, before), e);
    }
  }

  /** No thread can take another step. */
  ghost predicate AtRest(w: World) {
    forall e :: Internal(e) ==> !Enabled(w, e)
  }

  /** From every state the threads come to rest by themselves. */
  lemma ComesToRest(w: World, most: nat) returns (events: seq<Event>)
    requires Inv(w) && ChainsWithin(w.pbufs, most)
    ensures Schedule(w, events) && AtRest(Run(w, events))
  {
    hide Inv, WorkLeft, ChainsWithin, Step, Enabled;
    events := [];
    while exists e :: Internal(e) && Enabled(Run(w, events), e)
      invariant Schedule(w, events)
      decreases WorkLeft(w, most) - |events|
    {
      var e :| Internal(e) && Enabled(Run(w, events), e);
      var more := events + [e];
      assert more[..|more| - 1] == events;
      SchedulesEnd(w, more, most);
      events := more;
    }
  }

  // ---------- at rest ----------

  ghost predicate NobodyStopped(w: World) {
    forall s :: 0 <= s < |w.sockets| ==> w.sockets[s].rx.pc != Stopped
  }

  /** At rest every receive thread waits for a call and every client is outside, or waits for a signal. */
  lemma RestingPlaces(w: World)
    requires Exclusive(w) && AtRest(w) && NobodyStopped(w)
    ensures forall s :: 0 <= s < |w.sockets| ==> w.sockets[s].rx.pc == Await && w.sockets[s].pending == 0
    ensures forall c :: 0 <= c < |w.clients| ==> w.clients[c].pc == Idle || w.clients[c].pc == Waiting
  {
    forall s | 0 <= s < |w.sockets| ensures w.sockets[s].rx.pc == Await && w.sockets[s].pending == 0 {
      assert !Enabled(w, Work(s)) && !Enabled(w, Signal(s));
    }
    forall c | 0 <= c < |w.clients| ensures !Holds(w.clients[c]) {
      assert !Enabled(w, CopyOut(c)) && !Enabled(w, Event.Give(c)) && !Enabled(w, Accept(w.clients[c].sock, c));
    }
    forall c | 0 <= c < |w.clients| ensures w.clients[c].pc != Taking {
      assert !Enabled(w, Event.Take(c));
    }
  }

  /** Never stuck: when the threads rest and none has been stopped by an oversized datagram, a
      client that still waits on a socket has nothing to wait for but new arrivals. */
  lemma NobodyWaitsInVain(w: World, c: nat)
    requires Reachable(w) && AtRest(w) && NobodyStopped(w) && c < |w.clients| && w.clients[c].pc == Waiting
    ensures w.clients[c].sock < |w.sockets|
    ensures w.sockets[w.clients[c].sock].delivered == w.sockets[w.clients[c].sock].accepted
  {
    var s := w.clients[c].sock;
    ReachableInv(w);
    RestingPlaces(w);
    assert s < |w.sockets|;
    assert !Enabled(w, Wake(c));
    FifoExactlyOnce(w, s);
    if |w.sockets[s].delivered| < |w.sockets[s].accepted| {
      NoLostWakeup(w, s);
    }
  }

  /** Every datagram accepted fits the buffer. */
  ghost predicate AllFit(w: World) {
    forall s, j :: 0 <= s < |w.sockets| && 0 <= j < |w.sockets[s].accepted| ==> |w.sockets[s].accepted[j].data| <= |w.buf|
  }

  /** That none is stopped can be told from the datagrams accepted: it is enough that they fit. */
  lemma FittingDatagramsStopNobody(w: World)
    requires Reachable(w) && AllFit(w)
    ensures NobodyStopped(w)
  {
    forall s | 0 <= s < |w.sockets| ensures w.sockets[s].rx.pc != Stopped {
      StopsOnlyOnOversize(w, s);
    }
  }

  // ---------- from any state to rest ----------

  lemma {:induction false} RunAppend(w: World, a: seq<Event>, b: seq<Event>)
    ensures Run(Run(w, a), b) == Run(w, a + b)
    decreases |b|
  {
    hide Step;
    if b == [] {
      assert a + b == a;
    } else {
      assert (a + b)[..|a + b| - 1] == a + b[..|b| - 1];
      RunAppend(w, a, b[..|b| - 1]);
    }
  }

  lemma RunStaysReachable(w: World, events: seq<Event>)
    requires Reachable(w)
    ensures Reachable(Run(w, events))
  {
    var buf, slots, sockets, clients, before :| w == Run(Start(buf, slots, sockets, clients), before);
    RunAppend(Start(buf, slots, sockets, clients), before, events);
  }

  lemma BufferLengthLasts(w: World, e: Event)
    requires Inv(w)
    ensures |Step(w, e).buf| == |w.buf|
  {
    if e.Work? && Enabled(w, e) {
      assert SocketOk(w.pbufs, |w.buf|, e.s, w.sockets[e.s]);
      WorkShape(w, e.s, w.sockets[e.s]);
    }
    hide Inv, SocketOk, RxSocket, RxBuf, Enqueue;
  }

  /** A schedule accepts nothing new. */
  lemma {:induction false} ScheduleAccepts(w: World, events: seq<Event>, s: nat)
    requires Reachable(w) && Schedule(w, events) && s < |w.sockets|
    ensures s < |Run(w, events).sockets| && |Run(w, events).buf| == |w.buf|
    ensures Run(w, events).sockets[s].accepted == w.sockets[s].accepted
    decreases |events|
  {
    hide Step, Enabled, Reachable, Inv;
    if events != [] {
      var before, e := events[..|events| - 1], events[|events| - 1];
      var v := Run(w, before);
      ScheduleAccepts(w, before, s);
      RunStaysReachable(w, before);
      ReachableInv(v);
      BufferLengthLasts(v, e);
      AcceptedIffRoom(v, e, s);
    }
  }

  lemma {:induction false} SocketsLast(w: World, events: seq<Event>)
    ensures |Run(w, events).sockets| == |w.sockets|
    decreases |events|
  {
    if events != [] {
      SocketsLast(w, events[..|events| - 1]);
    }
  }

  /** Whatever the interleaving, once the threads have come to rest, every socket on which a client
      still waits has delivered all that it had accepted. */
  lemma ServedInTheEnd(w: World, events: seq<Event>, c: nat)
    requires Reachable(w) && AllFit(w) && Schedule(w, events) && AtRest(Run(w, events))
    requires c < |Run(w, events).clients| && Run(w, events).clients[c].pc == Waiting
    ensures var s := Run(w, events).clients[c].sock;
            s < |w.sockets| && s < |Run(w, events).sockets| && Run(w, events).sockets[s].delivered == w.sockets[s].accepted
  {
    var v := Run(w, events);
    hide Run, Schedule, AtRest, Reachable;
    RunStaysReachable(w, events);
    SocketsLast(w, events);
    forall s | 0 <= s < |w.sockets| ensures v.sockets[s].accepted == w.sockets[s].accepted && |v.buf| == |w.buf| {
      ScheduleAccepts(w, events, s);
    }
    FittingDatagramsStopNobody(v);
    NobodyWaitsInVain(v, c);
  }
}
