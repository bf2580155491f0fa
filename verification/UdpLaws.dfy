/** What the receive path promises, for any number of sockets and clients and any interleaving. */
module UdpLaws {
  import opened PoolModel
  import opened UdpModel
  import opened UdpData
  import opened UdpBuffer
  import opened UdpWake

  ghost predicate Inv(w: World) {
    DataOk(w) && Exclusive(w) && BufferOk(w) && WakeOk(w) && TokensOk(w)
  }

  lemma StartSocketOk(slots: seq<Message>, bufLen: nat, s: nat)
    ensures SocketOk([], bufLen, s, NewSocket(slots))
  {
    var k := NewSocket(slots);
    assert k.pool.active + k.pool.free == Numbers(|slots|);
  }

  lemma {:induction false} NobodyAwake(clients: seq<Client>, s: nat)
    requires forall c :: 0 <= c < |clients| ==> clients[c].pc == Idle
    ensures AwakeCount(clients, s) == 0
  {
    if clients != [] {
      NobodyAwake(clients[1..], s);
    }
  }

  lemma StartInv(buf: Bytes, slots: seq<Message>, sockets: nat, clients: nat)
    ensures Inv(Start(buf, slots, sockets, clients))
  {
    var w := Start(buf, slots, sockets, clients);
    forall s | 0 <= s < sockets
      ensures SocketOk(w.pbufs, |w.buf|, s, w.sockets[s]) && PaidFor(w, s)
    {
      StartSocketOk(slots, |buf|, s);
      NobodyAwake(w.clients, s);
    }
    hide SocketOk;
  }

  /** What a process starts with: its buffer, the semaphore, and as many idle sockets and clients as it
      wants, each socket with all its messages free. */
  lemma StartShape(buf: Bytes, slots: seq<Message>, sockets: nat, clients: nat)
    ensures var w := Start(buf, slots, sockets, clients);
            && w.buf == buf && w.sem == 1 && w.pbufs == [] && |w.sockets| == sockets && |w.clients| == clients
            && (forall s :: 0 <= s < sockets ==>
                  && w.sockets[s].pool.active == [] && |w.sockets[s].pool.free| == |w.sockets[s].slots| == |slots|
                  && w.sockets[s].accepted == w.sockets[s].delivered == [] && w.sockets[s].arrivals == 0)
            && (forall c :: 0 <= c < clients ==> w.clients[c].pc == Idle && w.clients[c].calls == 0)
  {
  }

  lemma StepKeeps(w: World, e: Event)
    requires Inv(w)
    ensures Inv(Step(w, e))
  {
    if e.Work? && e.s < |w.sockets| {
      FilledReply(w, e.s, w.sockets[e.s]);
    }
    hide DataOk, Exclusive, BufferOk, WakeOk, TokensOk;
    StepKeepsData(w, e);
    StepKeepsExclusive(w, e);
    StepKeepsBuffer(w, e);
    StepKeepsWake(w, e);
    StepKeepsTokens(w, e);
  }

  lemma {:induction false} RunKeeps(w: World, events: seq<Event>)
    requires Inv(w)
    ensures Inv(Run(w, events))
    decreases |events|
  {
    if events != [] {
      RunKeeps(w, events[..|events| - 1]);
      StepKeeps(Run(w, events[..|events| - 1]), events[|events| - 1]);
    }
  }

  /** The states the system can reach. */
  ghost predicate Reachable(w: World) {
    exists buf, slots, sockets, clients, events :: w == Run(Start(buf, slots, sockets, clients), events)
  }

  lemma ReachableInv(w: World)
    requires Reachable(w)
    ensures Inv(w)
  {
    var buf, slots, sockets, clients, events :| w == Run(Start(buf, slots, sockets, clients), events);
    StartInv(buf, slots, sockets, clients);
    RunKeeps(Start(buf, slots, sockets, clients), events);
  }

  // ---------- delivery ----------

  /** First in, first out, exactly once: the replies of a socket are a prefix of the datagrams it
      accepted, bytes, address and port; what is missing is still queued. */
  lemma FifoExactlyOnce(w: World, s: nat)
    requires Reachable(w) && s < |w.sockets|
    ensures var k := w.sockets[s];
            && k.delivered <= k.accepted
            && |k.accepted| - |k.delivered| == |k.pool.active| - (if HasReplied(k.rx) then 1 else 0)
  {
    ReachableInv(w);
    assert SocketOk(w.pbufs, |w.buf|, s, w.sockets[s]);
  }

  /** What a step of the receive thread does to the history. */
  lemma WorkHistory(w: World, k: Socket)
    ensures k.delivered <= RxSocket(w, k).delivered && RxSocket(w, k).accepted == k.accepted
  {
  }

  lemma ArrivalHistory(k: Socket, p: nat, d: Datagram)
    requires PoolOk(k)
    ensures var v := Enqueue(k, p, d);
            && v.delivered == k.delivered
            && v.accepted == (if |k.pool.active| < |k.slots| then k.accepted + [d] else k.accepted)
  {
  }

  lemma OtherHistory(w: World, e: Event, s: nat)
    requires s < |w.sockets| && !e.Arrive? && !e.Work?
    ensures s < |Step(w, e).sockets|
    ensures Step(w, e).sockets[s].delivered == w.sockets[s].delivered
    ensures Step(w, e).sockets[s].accepted == w.sockets[s].accepted
  {
  }

  /** A datagram is accepted, at the end of the line, exactly when its socket has a free message;
      nothing else changes what has been accepted, and no reply is ever taken back. */
  lemma AcceptedIffRoom(w: World, e: Event, s: nat)
    requires Reachable(w) && s < |w.sockets|
    ensures s < |Step(w, e).sockets|
    ensures var k, v := w.sockets[s], Step(w, e).sockets[s];
            && k.delivered <= v.delivered
            && (if e.Arrive? && e.s == s && |k.pool.active| < |k.slots|
                then v.accepted == k.accepted + [Datagram(Flatten(e.chain), e.addr, e.port)]
                else v.accepted == k.accepted)
  {
    ReachableInv(w);
    assert SocketOk(w.pbufs, |w.buf|, s, w.sockets[s]);
    hide Inv, DataOk, RegistersOk, OwnsPackets, QueueOk, HeadOk, CountOk, DeliveredOk;
    hide Enqueue, RxSocket, RxBuf, RxPbufs, RxClients, NewPbuf, ReadOut, Distinct;
    match e
    case Arrive(_, chain, addr, port) =>
      ArrivalHistory(w.sockets[s], |w.pbufs|, Datagram(Flatten(chain), addr, port));
    case Work(t) =>
      if t == s {
        WorkHistory(w, w.sockets[s]);
      }
    case _ => OtherHistory(w, e, s);
  }

  /** A client that has finished a receive call got the datagram its reply stood for: the error it
      calls for, or exactly its bytes. */
  lemma ClientGetsItsReply(w: World, c: nat)
    requires Reachable(w) && c < |w.clients| && w.clients[c].result.Some?
    ensures var x, r := w.clients[c], w.clients[c].result.value;
            match r.ticket
            case None => r.error == -1 && r.data == None && r.len == 0 && r.addr == 0 && r.port == 0
            case Some(j) =>
              x.sock < |w.sockets| && j < |w.sockets[x.sock].accepted|
              && var d := w.sockets[x.sock].accepted[j];
              && r.len == |d.data| && r.addr == d.addr && r.port == d.port
              && (r.error == 0 <==> 0 < |d.data| <= x.maxLen)
              && r.error == (if |d.data| > x.maxLen then NOT_ENOUGH_MEMORY else if |d.data| == 0 then -1 else 0)
              && (r.data == if 0 < |d.data| <= x.maxLen then Some(d.data) else None)
  {
    ReachableInv(w);
    var x := w.clients[c];
    assert ClientOk(w, x);
    if x.result.value.ticket.Some? {
      assert SocketOk(w.pbufs, |w.buf|, x.sock, w.sockets[x.sock]);
    }
  }

  /** While a receive thread copies into the shared buffer, no other does, and no client reads. */
  lemma OneWriter(w: World, s: nat, t: nat, c: nat)
    requires Reachable(w) && s < |w.sockets| && t < |w.sockets| && c < |w.clients|
    requires w.sockets[s].rx.pc == Copy
    ensures w.sockets[t].rx.pc == Copy ==> t == s
    ensures w.clients[c].pc != Copying
  {
    ReachableInv(w);
    NobodyElse(w, s);
  }

  // ---------- packets ----------

  /** The packet in the i-th queued message. */
  function PacketAt(k: Socket, i: nat): nat
    requires i < |k.pool.active| && k.pool.active[i] < |k.slots|
  {
    k.slots[k.pool.active[i]].pbuf
  }

  ghost predicate QueuedAt(k: Socket, i: nat, p: nat) {
    i < |k.pool.active| && k.pool.active[i] < |k.slots| && PacketAt(k, i) == p && !(i == 0 && k.rx.pc == FreeMsg)
  }

  lemma QueuedPacket(w: World, s: nat, i: nat)
    requires DataOk(w) && s < |w.sockets| && i < |w.sockets[s].pool.active|
    ensures var k := w.sockets[s];
            && k.pool.active[i] < |k.slots| && 0 <= Gone(k) && Gone(k) + i < |k.ids|
            && PacketAt(k, i) == k.ids[Gone(k) + i] < |w.pbufs|
            && w.pbufs[PacketAt(k, i)].sock == s && w.pbufs[PacketAt(k, i)].place == Some(Gone(k) + i)
            && w.pbufs[PacketAt(k, i)].frees == if i == 0 && k.rx.pc == FreeMsg then 1 else 0
  {
    assert SocketOk(w.pbufs, |w.buf|, s, w.sockets[s]);
  }

  /** Every packet handed over is queued in exactly one message and not freed, or is queued
      nowhere and has been freed exactly once. */
  lemma PacketsAreConserved(w: World, p: nat)
    requires Reachable(w) && p < |w.pbufs|
    ensures w.pbufs[p].frees <= 1
    ensures w.pbufs[p].frees == 0 <==> exists s, i :: 0 <= s < |w.sockets| && QueuedAt(w.sockets[s], i, p)
    ensures forall s, i, t, j ::
              0 <= s < |w.sockets| && 0 <= t < |w.sockets| && QueuedAt(w.sockets[s], i, p) && QueuedAt(w.sockets[t], j, p)
              ==> s == t && i == j
  {
    ReachableInv(w);
    var b := w.pbufs[p];
    if b.place.Some? {
      var k, j := w.sockets[b.sock], b.place.value;
      assert SocketOk(w.pbufs, |w.buf|, b.sock, k);
      assert k.ids[j] == p;
      if b.frees == 0 {
        QueuedPacket(w, b.sock, j - Gone(k));
        assert QueuedAt(k, j - Gone(k), p);
      }
    }
    forall s, i | 0 <= s < |w.sockets| && QueuedAt(w.sockets[s], i, p)
      ensures b.frees == 0 && b.sock == s && b.place == Some(Gone(w.sockets[s]) + i)
    {
      QueuedPacket(w, s, i);
    }
  }

  /** The receive thread reads and frees only a packet that has not been freed. */
  lemma NoUseAfterFree(w: World, s: nat)
    requires Reachable(w) && s < |w.sockets|
    requires w.sockets[s].rx.pc == Header || w.sockets[s].rx.pc == Copy || w.sockets[s].rx.pc == FreePbuf
    ensures var k := w.sockets[s];
            && k.rx.msg.Some? && k.rx.msg.value < |k.slots| && k.slots[k.rx.msg.value].pbuf < |w.pbufs|
            && w.pbufs[k.slots[k.rx.msg.value].pbuf].frees == 0
  {
    ReachableInv(w);
    assert SocketOk(w.pbufs, |w.buf|, s, w.sockets[s]);
    HeadMessage(w, s, w.sockets[s]);
  }

  // ---------- wakeups ----------

  /** The receive thread is serving a call, or will re-signal when it gets back to the top. */
  predicate Committed(k: Socket) {
    match k.rx.pc
    case Called | Header | Copy | Reply => true
    case Top | FreePbuf | FreeMsg => k.rx.remaining > 0
    case Await | Stopped => false
  }

  /** No lost wakeup: as long as an accepted datagram has not been delivered, its socket is
      signalled or about to be, or a client is on its way, or the receive thread is committed;
      unless that thread has been stopped by a datagram larger than the buffer. */
  lemma NoLostWakeup(w: World, s: nat)
    requires Reachable(w) && s < |w.sockets| && |w.sockets[s].delivered| < |w.sockets[s].accepted|
    ensures Prompted(w, s) || Committed(w.sockets[s]) || w.sockets[s].rx.pc == Stopped
  {
    ReachableInv(w);
    FifoExactlyOnce(w, s);
    hide Prompted;
  }

  /** The stale count never exceeds the queue; a call that finds no message finds the count at
      zero, so its reply is followed by no signal. */
  lemma EmptyReplyIsQuiet(w: World, s: nat)
    requires Reachable(w) && s < |w.sockets|
    ensures var k := w.sockets[s];
            && (k.rx.pc == Top ==> 0 <= k.rx.remaining <= |k.pool.active|)
            && (k.rx.pc == Called && k.pool.active == [] ==> k.rx.remaining == 0)
            && (k.rx.pc == Reply && k.rx.msg == None ==> k.rx.remaining == 0)
  {
    ReachableInv(w);
    assert SocketOk(w.pbufs, |w.buf|, s, w.sockets[s]);
  }

  /** Over any run a socket answers at most as many calls without data as datagrams arrived. */
  lemma SpuriousRepliesAreBounded(w: World, s: nat)
    requires Reachable(w) && s < |w.sockets|
    ensures w.sockets[s].empties <= w.sockets[s].arrivals
  {
    ReachableInv(w);
    assert PaidFor(w, s);
  }

  /** The assertion on the packet length stops a receive thread exactly at a datagram larger than
      the buffer; every datagram delivered fits. */
  lemma StopsOnlyOnOversize(w: World, s: nat)
    requires Reachable(w) && s < |w.sockets|
    ensures var k := w.sockets[s];
            && (k.rx.pc == Stopped ==>
                  |k.delivered| < |k.accepted| && |k.accepted[|k.delivered|].data| > |w.buf|)
            && (k.rx.pc == Reply && k.rx.msg.Some? ==>
                  |k.delivered| < |k.accepted| && |k.accepted[|k.delivered|].data| <= |w.buf|)
  {
    ReachableInv(w);
    assert SocketOk(w.pbufs, |w.buf|, s, w.sockets[s]);
  }
}
