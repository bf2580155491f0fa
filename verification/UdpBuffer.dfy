/** The receive path, second part: the semaphore keeps the shared buffer in one pair of hands,
    so that what a client copies out is what its own call was given. */
module UdpBuffer {
  import opened PoolModel
  import opened UdpModel
  import opened UdpData

  predicate Holds(c: Client) { c.pc == Calling || c.pc == InCall || c.pc == Copying || c.pc == Giving }

  predicate Serving(rx: Rx) {
    rx.pc == Called || rx.pc == Header || rx.pc == Copy || rx.pc == Reply || rx.pc == Stopped
  }

  /** At most one client holds the semaphore; a receive thread serves exactly the client whose
      call it took, and that client is waiting for its reply. */
  ghost predicate Exclusive(w: World) {
    && w.sem <= 1
    && (forall c :: 0 <= c < |w.clients| && Holds(w.clients[c]) ==> w.sem == 0)
    && (forall c, d :: 0 <= c < |w.clients| && 0 <= d < |w.clients| && Holds(w.clients[c]) && Holds(w.clients[d]) ==> c == d)
    && (w.sem == 0 ==> exists c :: 0 <= c < |w.clients| && Holds(w.clients[c]))
    && (forall c :: 0 <= c < |w.clients| && w.clients[c].pc != Idle ==> w.clients[c].sock < |w.sockets|)
    && (forall s :: 0 <= s < |w.sockets| && Serving(w.sockets[s].rx) ==>
          var c := w.sockets[s].rx.client;
          c < |w.clients| && w.clients[c].pc == InCall && w.clients[c].sock == s)
    && (forall c :: 0 <= c < |w.clients| && w.clients[c].pc == InCall ==>
          Serving(w.sockets[w.clients[c].sock].rx) && w.sockets[w.clients[c].sock].rx.client == c)
  }

  /** While a receive thread copies, and until it replies, the buffer holds its packet. */
  ghost predicate Filled(buf: Bytes, pbufs: seq<Pbuf>, k: Socket) {
    match k.rx.pc
    case Copy =>
      && 0 <= Gone(k) < |k.ids| && k.ids[Gone(k)] < |pbufs| && k.rx.packetLen <= |buf|
      && k.rx.seg <= |pbufs[k.ids[Gone(k)]].chain|
      && buf[..k.rx.packetLen] == Flatten(pbufs[k.ids[Gone(k)]].chain[..k.rx.seg])
    case Reply =>
      k.rx.msg.Some? ==>
        && 0 <= Gone(k) < |k.accepted| && k.rx.packetLen <= |buf|
        && buf[..k.rx.packetLen] == k.accepted[Gone(k)].data
    case _ => true
  }

  /** What a finished receive call gave back, in terms of the datagram its reply carried. */
  function Outcome(d: Datagram, maxLen: nat, ticket: nat): Result {
    if |d.data| > maxLen then Result(NOT_ENOUGH_MEMORY, None, |d.data|, d.addr, d.port, Some(ticket))
    else if d.data == [] then Result(-1, None, 0, d.addr, d.port, Some(ticket))
    else Result(0, Some(d.data), |d.data|, d.addr, d.port, Some(ticket))
  }

  const NO_DATA: Result := Result(-1, None, 0, 0, 0, None)

  ghost predicate ResultOk(w: World, c: Client) {
    c.result.Some? ==>
      match c.result.value.ticket
      case None => c.result.value == NO_DATA
      case Some(j) =>
        && c.sock < |w.sockets| && j < |w.sockets[c.sock].delivered|
        && c.result.value == Outcome(w.sockets[c.sock].delivered[j], c.maxLen, j)
  }

  /** Between the reply and the copy, the buffer still holds what the reply announced. */
  ghost predicate CopyingOk(w: World, c: Client) {
    c.pc == Copying ==>
      && c.maxLen > 0
      && match c.ticket
         case None => c.len == 0 && c.addr == 0 && c.port == 0
         case Some(j) =>
           && c.sock < |w.sockets| && j < |w.sockets[c.sock].delivered| && c.len <= |w.buf|
           && w.sockets[c.sock].delivered[j] == Datagram(w.buf[..c.len], c.addr, c.port)
  }

  ghost predicate ClientOk(w: World, c: Client) {
    && (c.pc != Idle ==> c.maxLen > 0)
    && ResultOk(w, c) && CopyingOk(w, c)
  }

  ghost predicate BufferOk(w: World) {
    && (forall s :: 0 <= s < |w.sockets| ==> Filled(w.buf, w.pbufs, w.sockets[s]))
    && (forall c :: 0 <= c < |w.clients| ==> ClientOk(w, w.clients[c]))
  }

  // ---------- exclusion ----------

  /** Who holds the semaphore, and who is served, is all that exclusion depends on. */
  lemma SameHoldersStayExclusive(w: World, v: World)
    requires Exclusive(w) && v.sem == w.sem && |v.clients| == |w.clients| && |v.sockets| == |w.sockets|
    requires forall s :: 0 <= s < |w.sockets| ==> v.sockets[s].rx == w.sockets[s].rx
    requires forall c {:trigger v.clients[c]} :: 0 <= c < |w.clients| ==>
      && (Holds(v.clients[c]) <==> Holds(w.clients[c]))
      && (v.clients[c].pc == InCall <==> w.clients[c].pc == InCall)
      && (v.clients[c].pc == InCall ==> v.clients[c].sock == w.clients[c].sock)
      && (v.clients[c].pc != Idle ==> v.clients[c].sock < |w.sockets|)
    ensures Exclusive(v)
  {
    if v.sem == 0 {
      var c :| 0 <= c < |w.clients| && Holds(w.clients[c]);
      assert Holds(v.clients[c]);
    }
  }

  lemma QuietKeepsExclusive(w: World, e: Event)
    requires Exclusive(w) && Enabled(w, e)
    requires e.Arrive? || e.Signal? || e.Begin? || e.Wake? || e.CopyOut?
    ensures Exclusive(Step(w, e))
  {
    var v := Step(w, e);
    assert forall s :: 0 <= s < |w.sockets| ==> v.sockets[s].rx == w.sockets[s].rx;
    SameHoldersStayExclusive(w, v);
  }

  lemma TakeKeepsExclusive(w: World, c: nat)
    requires Exclusive(w) && Enabled(w, Event.Take(c))
    ensures Exclusive(Step(w, Event.Take(c)))
  {
    var v := Step(w, Event.Take(c));
    assert Holds(v.clients[c]);
    assert forall d :: 0 <= d < |w.clients| && d != c ==> v.clients[d] == w.clients[d] && !Holds(w.clients[d]);
  }

  lemma GiveKeepsExclusive(w: World, c: nat)
    requires Exclusive(w) && Enabled(w, Event.Give(c))
    ensures Exclusive(Step(w, Event.Give(c)))
  {
    var v := Step(w, Event.Give(c));
    assert Holds(w.clients[c]);
    assert forall d :: 0 <= d < |w.clients| && d != c ==> v.clients[d] == w.clients[d] && !Holds(w.clients[d]);
  }

  lemma AcceptKeepsExclusive(w: World, s: nat, c: nat)
    requires Exclusive(w) && Enabled(w, Accept(s, c))
    ensures Exclusive(Step(w, Accept(s, c)))
  {
    var v := Step(w, Accept(s, c));
    assert Holds(v.clients[c]);
    assert Serving(v.sockets[s].rx) && !Serving(w.sockets[s].rx);
  }

  /** A reply hands the buffer on to the client; before that the thread goes on serving it. */
  lemma WorkExclusive(w: World, s: nat)
    requires Exclusive(w) && Enabled(w, Work(s))
    ensures var v, k := Step(w, Work(s)), w.sockets[s];
            && v.sem == w.sem && |v.clients| == |w.clients| && |v.sockets| == |w.sockets|
            && (forall t :: 0 <= t < |w.sockets| && t != s ==> v.sockets[t] == w.sockets[t])
            && v.sockets[s].rx.client == k.rx.client
            && (Serving(v.sockets[s].rx) <==> Serving(k.rx) && k.rx.pc != Reply)
            && (k.rx.pc != Reply ==> v.clients == w.clients)
            && (k.rx.pc == Reply ==>
                  && k.rx.client < |w.clients| && w.clients[k.rx.client].pc == InCall && w.clients[k.rx.client].sock == s
                  && v.clients == w.clients[k.rx.client := Answered(k, w.clients[k.rx.client])])
  {
  }

  lemma WorkKeepsExclusive(w: World, s: nat)
    requires Exclusive(w) && Enabled(w, Work(s))
    ensures Exclusive(Step(w, Work(s)))
  {
    var v, k := Step(w, Work(s)), w.sockets[s];
    WorkExclusive(w, s);
    hide RxSocket, RxClients, RxBuf, RxPbufs, Step, Enabled;
    if k.rx.pc == Reply {
      assert Holds(w.clients[k.rx.client]);
      assert Holds(v.clients[k.rx.client]);
    } else if v.sem == 0 {
      var c :| 0 <= c < |w.clients| && Holds(w.clients[c]);
      assert Holds(v.clients[c]);
    }
  }

  lemma StepKeepsExclusive(w: World, e: Event)
    requires Exclusive(w)
    ensures Exclusive(Step(w, e))
  {
    hide Exclusive;
    if Enabled(w, e) {
      match e
      case Take(c) => TakeKeepsExclusive(w, c);
      case Give(c) => GiveKeepsExclusive(w, c);
      case Accept(s, c) => AcceptKeepsExclusive(w, s, c);
      case Work(s) => WorkKeepsExclusive(w, s);
      case Arrive(_, _, _, _) | Signal(_) | Begin(_, _, _) | Wake(_) | CopyOut(_) => QuietKeepsExclusive(w, e);
    }
  }

  // ---------- the buffer ----------

  lemma WriteExtends(buf: Bytes, at: nat, data: Bytes)
    requires at + |data| <= |buf|
    ensures |Write(buf, at, data)| == |buf|
    ensures Write(buf, at, data)[..at + |data|] == buf[..at] + data
  {
  }

  /** The thread that owns the buffer keeps it filled with its packet. */
  lemma WorkFills(w: World, s: nat, k: Socket)
    requires SocketOk(w.pbufs, |w.buf|, s, k) && Filled(w.buf, w.pbufs, k)
    ensures Filled(RxBuf(w, k), RxPbufs(w, k), RxSocket(w, k))
  {
    if k.rx.pc == Header || k.rx.pc == Copy {
      HeadMessage(w, s, k);
      var chain := HeadChain(w, k);
      if k.rx.pc == Header {
        assert chain[..0] == [];
      } else if k.rx.seg < |chain| {
        FlattenUpTo(chain, k.rx.seg);
        if k.rx.packetLen + |chain[k.rx.seg]| <= |w.buf| {
          WriteExtends(w.buf, k.rx.packetLen, chain[k.rx.seg]);
        }
      } else {
        assert chain[..k.rx.seg] == chain;
      }
    }
  }

  /** So the reply announces the head of the queue. */
  lemma FilledReply(w: World, s: nat, k: Socket)
    requires SocketOk(w.pbufs, |w.buf|, s, k) && Filled(w.buf, w.pbufs, k)
    ensures ReplyIsHead(w, k)
  {
  }

  lemma NobodyElse(w: World, s: nat)
    requires Exclusive(w) && s < |w.sockets| && Serving(w.sockets[s].rx)
    ensures forall t :: 0 <= t < |w.sockets| && t != s ==> !Serving(w.sockets[t].rx)
    ensures forall c :: 0 <= c < |w.clients| ==> w.clients[c].pc != Copying
  {
    assert Holds(w.clients[w.sockets[s].rx.client]);
  }

  /** Freeing a packet does not change what the others hold. */
  lemma FilledAfterFree(buf: Bytes, pbufs: seq<Pbuf>, k: Socket, p: nat)
    requires Filled(buf, pbufs, k)
    ensures Filled(buf, FreeAt(pbufs, p), k)
  {
  }

  lemma WorkKeepsFilled(w: World, s: nat)
    requires DataOk(w) && Exclusive(w) && BufferOk(w) && Enabled(w, Work(s))
    ensures var v := Step(w, Work(s));
            forall t :: 0 <= t < |v.sockets| ==> Filled(v.buf, v.pbufs, v.sockets[t])
  {
    var v, k := Step(w, Work(s)), w.sockets[s];
    assert SocketOk(w.pbufs, |w.buf|, s, k);
    WorkFills(w, s, k);
    WorkShape(w, s, k);
    hide SocketOk, RxSocket, RxPbufs, RxClients;
    if k.rx.pc == Copy {
      NobodyElse(w, s);
    }
    forall t | 0 <= t < |v.sockets| && t != s ensures Filled(v.buf, v.pbufs, v.sockets[t]) {
      assert Filled(w.buf, w.pbufs, w.sockets[t]);
      if k.rx.pc == FreePbuf {
        FilledAfterFree(w.buf, w.pbufs, w.sockets[t], k.ids[Gone(k)]);
      }
    }
  }

  /** Results stay correct as more replies are sent. */
  lemma ResultLasts(w: World, v: World, c: Client)
    requires ResultOk(w, c) && |v.sockets| == |w.sockets|
    requires forall s :: 0 <= s < |w.sockets| ==> w.sockets[s].delivered <= v.sockets[s].delivered
    ensures ResultOk(v, c)
  {
  }

  lemma CopyingLasts(w: World, v: World, c: Client)
    requires CopyingOk(w, c) && |v.sockets| == |w.sockets| && (c.pc == Copying ==> v.buf == w.buf)
    requires forall s :: 0 <= s < |w.sockets| ==> w.sockets[s].delivered <= v.sockets[s].delivered
    ensures CopyingOk(v, c)
  {
  }

  lemma Answer(w: World, s: nat)
    requires DataOk(w) && Exclusive(w) && BufferOk(w) && Enabled(w, Work(s)) && w.sockets[s].rx.pc == Reply
    ensures var v, h := Step(w, Work(s)), w.sockets[s].rx.client;
            h < |v.clients| && CopyingOk(v, v.clients[h]) && v.clients[h].maxLen > 0
            && v.clients[h].result == w.clients[h].result && v.clients[h].sock == w.clients[h].sock
            && v.clients[h].maxLen == w.clients[h].maxLen
  {
    var k := w.sockets[s];
    assert SocketOk(w.pbufs, |w.buf|, s, k) && Filled(w.buf, w.pbufs, k);
    assert ClientOk(w, w.clients[k.rx.client]);
    assert RegistersOk(w.pbufs, |w.buf|, k);
  }

  lemma WorkDelivers(w: World, k: Socket)
    ensures k.delivered <= RxSocket(w, k).delivered
    ensures k.rx.pc != Copy ==> RxBuf(w, k) == w.buf
  {
  }

  lemma WorkKeepsClients(w: World, s: nat)
    requires DataOk(w) && Exclusive(w) && BufferOk(w) && Enabled(w, Work(s))
    ensures var v := Step(w, Work(s));
            forall c :: 0 <= c < |v.clients| ==> ClientOk(v, v.clients[c])
  {
    var v, k := Step(w, Work(s)), w.sockets[s];
    WorkExclusive(w, s);
    WorkDelivers(w, k);
    if k.rx.pc == Reply {
      Answer(w, s);
    }
    if k.rx.pc == Copy {
      NobodyElse(w, s);
    }
    hide RxSocket, RxBuf, RxPbufs, RxClients, DataOk, Exclusive, ResultOk, CopyingOk;
    forall c | 0 <= c < |v.clients| ensures ClientOk(v, v.clients[c]) {
      assert ClientOk(w, w.clients[c]);
      ResultLasts(w, v, w.clients[c]);
      CopyingLasts(w, v, w.clients[c]);
      SameResult(v, w.clients[c], v.clients[c]);
    }
  }

  lemma SameResult(w: World, c: Client, d: Client)
    requires ResultOk(w, c) && d.result == c.result && d.sock == c.sock && d.maxLen == c.maxLen
    ensures ResultOk(w, d)
  {
  }

  lemma EnqueueFilled(buf: Bytes, pbufs: seq<Pbuf>, k: Socket, b: Pbuf, d: Datagram)
    requires Filled(buf, pbufs, k) && |k.ids| == |k.accepted| && 0 <= Gone(k)
    ensures Filled(buf, pbufs + [b], Enqueue(k, |pbufs|, d))
    ensures Enqueue(k, |pbufs|, d).delivered == k.delivered
  {
  }

  lemma AppendFilled(buf: Bytes, pbufs: seq<Pbuf>, k: Socket, b: Pbuf)
    requires Filled(buf, pbufs, k)
    ensures Filled(buf, pbufs + [b], k)
  {
  }

  lemma ArriveKeepsBuffer(w: World, s: nat, chain: seq<Bytes>, addr: Addr, port: Port)
    requires DataOk(w) && BufferOk(w) && Enabled(w, Arrive(s, chain, addr, port))
    ensures BufferOk(Step(w, Arrive(s, chain, addr, port)))
  {
    var v := Step(w, Arrive(s, chain, addr, port));
    var b, d := NewPbuf(w.sockets[s], s, chain), Datagram(Flatten(chain), addr, port);
    assert SocketOk(w.pbufs, |w.buf|, s, w.sockets[s]);
    assert Filled(w.buf, w.pbufs, w.sockets[s]);
    EnqueueFilled(w.buf, w.pbufs, w.sockets[s], b, d);
    hide DataOk, Enqueue, NewPbuf, Filled, ResultOk, CopyingOk;
    forall t | 0 <= t < |v.sockets| ensures Filled(v.buf, v.pbufs, v.sockets[t]) {
      if t != s {
        AppendFilled(w.buf, w.pbufs, w.sockets[t], b);
      }
    }
    forall c | 0 <= c < |v.clients| ensures ClientOk(v, v.clients[c]) {
      assert ClientOk(w, w.clients[c]);
      ResultLasts(w, v, w.clients[c]);
      CopyingLasts(w, v, w.clients[c]);
    }
  }

  /** The result read out of the buffer is the one the reply's datagram calls for. */
  lemma ReadOutOk(w: World, c: Client)
    requires c.pc == Copying && CopyingOk(w, c)
    ensures ResultOk(w, c.(pc := Giving, result := Some(ReadOut(w.buf, c))))
  {
  }

  /** The events that only move a client, or signal, or bring a call to its thread. */
  lemma MoveKeepsFilled(w: World, e: Event)
    requires Exclusive(w) && BufferOk(w) && Enabled(w, e) && !e.Arrive? && !e.Work?
    ensures var v := Step(w, e);
            forall t :: 0 <= t < |v.sockets| ==> Filled(v.buf, v.pbufs, v.sockets[t])
  {
    var v := Step(w, e);
    hide ClientOk;
    forall t | 0 <= t < |v.sockets| ensures Filled(v.buf, v.pbufs, v.sockets[t]) {
      assert Filled(w.buf, w.pbufs, w.sockets[t]);
    }
  }

  lemma MoveKeepsClients(w: World, e: Event)
    requires Exclusive(w) && BufferOk(w) && Enabled(w, e) && !e.Arrive? && !e.Work?
    ensures var v := Step(w, e);
            forall c :: 0 <= c < |v.clients| ==> ClientOk(v, v.clients[c])
  {
    var v := Step(w, e);
    if e.CopyOut? {
      assert ClientOk(w, w.clients[e.c]);
      ReadOutOk(w, w.clients[e.c]);
    }
    assert forall t :: 0 <= t < |w.sockets| ==> v.sockets[t].delivered == w.sockets[t].delivered;
    hide Filled, Exclusive, Enqueue, RxSocket, RxBuf, RxPbufs, RxClients, ReadOut;
    forall c | 0 <= c < |v.clients| ensures ClientOk(v, v.clients[c]) {
      assert ClientOk(w, w.clients[c]);
      ResultLasts(w, v, w.clients[c]);
      CopyingLasts(w, v, w.clients[c]);
    }
  }

  lemma StepKeepsBuffer(w: World, e: Event)
    requires DataOk(w) && Exclusive(w) && BufferOk(w)
    ensures BufferOk(Step(w, e))
  {
    if Enabled(w, e) {
      match e
      case Arrive(s, chain, addr, port) => ArriveKeepsBuffer(w, s, chain, addr, port);
      case Work(s) =>
        WorkKeepsFilled(w, s);
        WorkKeepsClients(w, s);
      case _ =>
        MoveKeepsFilled(w, e);
        MoveKeepsClients(w, e);
    }
  }
}
