/** The receive path, first part: what the messages, packets and receive threads of every
    socket keep. Nothing here looks at the contents of the shared buffer. */
module UdpData {
  import opened PoolModel
  import opened UdpModel

  /** How many accepted packets have left the pool. */
  function Gone(k: Socket): int { |k.ids| - |k.pool.active| }

  ghost predicate PoolOk(k: Socket) {
    && Distinct(k.pool.active + k.pool.free)
    && |k.pool.active| + |k.pool.free| == |k.slots|
    && (forall i :: 0 <= i < |k.pool.active| ==> k.pool.active[i] < |k.slots|)
    && (forall i :: 0 <= i < |k.pool.free| ==> k.pool.free[i] < |k.slots|)
  }

  /** The message that accepted packet `j` should be stored as. */
  function MessageOf(k: Socket, j: nat): Message
    requires j < |k.ids| == |k.accepted|
  {
    Message(k.ids[j], k.accepted[j].addr, k.accepted[j].port)
  }

  /** The active slots hold, in order, the packets accepted last. */
  ghost predicate QueueOk(k: Socket) {
    && |k.ids| == |k.accepted| && 0 <= Gone(k)
    && (forall i :: 0 <= i < |k.pool.active| ==> k.pool.active[i] < |k.slots|)
    && (forall i :: 0 <= i < |k.pool.active| ==> k.slots[k.pool.active[i]] == MessageOf(k, Gone(k) + i))
  }

  /** Packets that have been freed: all that have left the pool, and the one whose message is
      about to leave it. */
  predicate Released(k: Socket, j: nat) {
    j < Gone(k) || (j == Gone(k) && k.rx.pc == FreeMsg)
  }

  /** Each accepted packet is still the one that was handed over, freed once or not at all. */
  ghost predicate OwnsPackets(pbufs: seq<Pbuf>, s: nat, k: Socket) {
    && |k.ids| == |k.accepted|
    && forall j :: 0 <= j < |k.ids| ==>
         && k.ids[j] < |pbufs|
         && pbufs[k.ids[j]] == Pbuf(pbufs[k.ids[j]].chain, if Released(k, j) then 1 else 0, s, Some(j))
         && k.accepted[j].data == Flatten(pbufs[k.ids[j]].chain)
  }

  /** A packet without a place in a queue was dropped, and freed. */
  ghost predicate PacketsPlaced(pbufs: seq<Pbuf>, sockets: seq<Socket>) {
    forall p :: 0 <= p < |pbufs| ==>
      && pbufs[p].sock < |sockets|
      && match pbufs[p].place
         case None => pbufs[p].frees == 1
         case Some(j) => j < |sockets[pbufs[p].sock].ids| && sockets[pbufs[p].sock].ids[j] == p
  }

  predicate HoldsMsg(rx: Rx) {
    rx.pc == Header || rx.pc == Copy || rx.pc == Stopped || rx.pc == FreePbuf || rx.pc == FreeMsg
    || (rx.pc == Reply && rx.msg.Some?)
  }

  predicate HasReplied(rx: Rx) { rx.pc == FreePbuf || rx.pc == FreeMsg }

  /** The receive thread's message is the head of the queue. */
  ghost predicate HeadOk(k: Socket) {
    if HoldsMsg(k.rx) then |k.pool.active| > 0 && k.rx.msg == Some(k.pool.active[0]) else k.rx.msg == None
  }

  /** Its stale count never exceeds the queue, nor what the next loop will find there. */
  ghost predicate CountOk(k: Socket) {
    var n, q := k.rx.remaining, |k.pool.active|;
    match k.rx.pc
    case Top | Await | Called => 0 <= n <= q
    case Header | Copy | Stopped => 1 <= n <= q
    case Reply => if k.rx.msg == None then n == 0 else 0 <= n < q
    case FreePbuf | FreeMsg => 0 <= n < q
  }

  /** The replies sent are the first accepted datagrams. */
  ghost predicate DeliveredOk(k: Socket) {
    var n := Gone(k) + if HasReplied(k.rx) then 1 else 0;
    0 <= n <= |k.accepted| && k.delivered == k.accepted[..n]
  }

  /** The registers of the receive thread; the contents of the buffer are another matter. */
  ghost predicate RegistersOk(pbufs: seq<Pbuf>, bufLen: nat, k: Socket) {
    var rx := k.rx;
    match rx.pc
    case Await | Called => rx.packetLen == 0 && rx.addr == 0 && rx.port == 0
    case Header => rx.packetLen == 0
    case Copy | Stopped =>
      && |k.pool.active| > 0 && 0 <= Gone(k) < |k.ids| == |k.accepted| && k.ids[Gone(k)] < |pbufs|
      && var chain := pbufs[k.ids[Gone(k)]].chain;
      && rx.addr == k.accepted[Gone(k)].addr && rx.port == k.accepted[Gone(k)].port
      && rx.seg <= |chain| && rx.packetLen == |Flatten(chain[..rx.seg])| <= bufLen
      && (rx.pc == Stopped ==> |k.accepted[Gone(k)].data| > bufLen)
    case Reply =>
      if rx.msg == None then rx.packetLen == 0 && rx.addr == 0 && rx.port == 0
      else
        && 0 <= Gone(k) < |k.accepted|
        && rx.addr == k.accepted[Gone(k)].addr && rx.port == k.accepted[Gone(k)].port
        && rx.packetLen == |k.accepted[Gone(k)].data| <= bufLen
    case Top | FreePbuf | FreeMsg => true
  }

  ghost predicate SocketOk(pbufs: seq<Pbuf>, bufLen: nat, s: nat, k: Socket) {
    && PoolOk(k) && QueueOk(k) && OwnsPackets(pbufs, s, k)
    && HeadOk(k) && CountOk(k) && DeliveredOk(k) && RegistersOk(pbufs, bufLen, k)
  }

  ghost predicate DataOk(w: World) {
    && PacketsPlaced(w.pbufs, w.sockets)
    && forall s :: 0 <= s < |w.sockets| ==> SocketOk(w.pbufs, |w.buf|, s, w.sockets[s])
  }

  // ---------- flattening ----------

  lemma {:induction false} FlattenAppend(a: seq<Bytes>, b: seq<Bytes>)
    ensures Flatten(a + b) == Flatten(a) + Flatten(b)
  {
    if a == [] {
      assert a + b == b;
    } else {
      assert (a + b)[0] == a[0] && (a + b)[1..] == a[1..] + b;
      FlattenAppend(a[1..], b);
    }
  }

  lemma FlattenUpTo(chain: seq<Bytes>, i: nat)
    requires i < |chain|
    ensures Flatten(chain[..i + 1]) == Flatten(chain[..i]) + chain[i]
    ensures |Flatten(chain[..i + 1])| <= |Flatten(chain)|
  {
    assert chain[..i + 1] == chain[..i] + [chain[i]];
    FlattenAppend(chain[..i], [chain[i]]);
    var one := [chain[i]];
    assert one[1..] == [];
    assert Flatten(one) == chain[i];
    assert chain == chain[..i + 1] + chain[i + 1..];
    FlattenAppend(chain[..i + 1], chain[i + 1..]);
  }

  // ---------- the callback ----------

  lemma EnqueueQueue(k: Socket, p: nat, d: Datagram)
    requires PoolOk(k) && QueueOk(k)
    ensures PoolOk(Enqueue(k, p, d)) && QueueOk(Enqueue(k, p, d))
    ensures k.pool.free != [] ==> Gone(Enqueue(k, p, d)) == Gone(k)
  {
    var v := Enqueue(k, p, d);
    if k.pool.free != [] {
      var e, n := k.pool.free[0], |k.pool.active|;
      assert v.pool.active + v.pool.free == k.pool.active + k.pool.free;
      assert (k.pool.active + k.pool.free)[n] == e;
      forall i | 0 <= i < |v.pool.active|
        ensures v.pool.active[i] < |v.slots|
        ensures v.slots[v.pool.active[i]] == MessageOf(v, Gone(v) + i)
      {
        if i < n {
          assert (k.pool.active + k.pool.free)[i] == k.pool.active[i];
          assert k.pool.active[i] != e;
        }
      }
    }
  }

  lemma EnqueuePackets(pbufs: seq<Pbuf>, s: nat, k: Socket, chain: seq<Bytes>, addr: Addr, port: Port)
    requires OwnsPackets(pbufs, s, k) && (k.rx.pc == FreeMsg ==> k.pool.active != [])
    ensures OwnsPackets(pbufs + [NewPbuf(k, s, chain)], s, Enqueue(k, |pbufs|, Datagram(Flatten(chain), addr, port)))
  {
  }

  lemma EnqueueRest(pbufs: seq<Pbuf>, bufLen: nat, k: Socket, b: Pbuf, d: Datagram)
    requires |k.ids| == |k.accepted| && 0 <= Gone(k)
    requires HeadOk(k) && CountOk(k) && DeliveredOk(k) && RegistersOk(pbufs, bufLen, k)
    ensures var v := Enqueue(k, |pbufs|, d);
            HeadOk(v) && CountOk(v) && DeliveredOk(v) && RegistersOk(pbufs + [b], bufLen, v)
  {
  }

  lemma EnqueueKeeps(pbufs: seq<Pbuf>, bufLen: nat, s: nat, k: Socket, chain: seq<Bytes>, addr: Addr, port: Port)
    requires SocketOk(pbufs, bufLen, s, k)
    ensures SocketOk(pbufs + [NewPbuf(k, s, chain)], bufLen, s, Enqueue(k, |pbufs|, Datagram(Flatten(chain), addr, port)))
  {
    var d := Datagram(Flatten(chain), addr, port);
    EnqueueQueue(k, |pbufs|, d);
    EnqueuePackets(pbufs, s, k, chain, addr, port);
    EnqueueRest(pbufs, bufLen, k, NewPbuf(k, s, chain), d);
  }

  // ---------- the receive thread ----------

  /** The head of the queue, as the receive thread sees it through its message pointer. */
  lemma HeadMessage(w: World, s: nat, k: Socket)
    requires SocketOk(w.pbufs, |w.buf|, s, k) && HoldsMsg(k.rx)
    ensures 0 <= Gone(k) < |k.ids| && k.rx.msg.Some? && k.rx.msg.value < |k.slots|
    ensures k.slots[k.rx.msg.value] == MessageOf(k, Gone(k)) && k.ids[Gone(k)] < |w.pbufs|
    ensures HeadChain(w, k) == w.pbufs[k.ids[Gone(k)]].chain
    ensures Flatten(HeadChain(w, k)) == k.accepted[Gone(k)].data
  {
    assert k.slots[k.pool.active[0]] == MessageOf(k, Gone(k) + 0);
  }

  /** The part of SocketOk that is about the pool and the packets ... */
  ghost predicate StoreOk(pbufs: seq<Pbuf>, s: nat, k: Socket) {
    PoolOk(k) && QueueOk(k) && OwnsPackets(pbufs, s, k)
  }

  /** ... does not change when neither of them does. */
  lemma SameStore(pbufs: seq<Pbuf>, s: nat, k: Socket, v: Socket)
    requires StoreOk(pbufs, s, k)
    requires v.pool == k.pool && v.slots == k.slots && v.ids == k.ids && v.accepted == k.accepted
    requires v.rx.pc != FreeMsg && k.rx.pc != FreeMsg
    ensures StoreOk(pbufs, s, v)
  {
  }

  /** Steps that leave the pool and the history alone. */
  lemma LocalStepKeeps(w: World, s: nat, k: Socket)
    requires SocketOk(w.pbufs, |w.buf|, s, k)
    requires k.rx.pc == Top || k.rx.pc == Called || k.rx.pc == Header
    ensures SocketOk(w.pbufs, |w.buf|, s, RxSocket(w, k))
  {
    if k.rx.pc == Header {
      HeadMessage(w, s, k);
    }
    SameStore(w.pbufs, s, k, RxSocket(w, k));
    hide PoolOk, QueueOk, OwnsPackets;
  }

  lemma CopyKeeps(w: World, s: nat, k: Socket)
    requires SocketOk(w.pbufs, |w.buf|, s, k) && k.rx.pc == Copy
    ensures SocketOk(w.pbufs, |w.buf|, s, RxSocket(w, k))
  {
    var chain := HeadChain(w, k);
    HeadMessage(w, s, k);
    if k.rx.seg < |chain| {
      FlattenUpTo(chain, k.rx.seg);
    } else {
      assert chain[..k.rx.seg] == chain;
    }
    SameStore(w.pbufs, s, k, RxSocket(w, k));
    hide PoolOk, QueueOk, OwnsPackets;
  }

  /** The reply needs to know what is in the buffer. */
  lemma ReplyKeeps(w: World, s: nat, k: Socket)
    requires SocketOk(w.pbufs, |w.buf|, s, k) && k.rx.pc == Reply
    requires k.rx.msg.Some? ==> 0 <= Gone(k) < |k.accepted| && Replied(w, k) == k.accepted[Gone(k)]
    ensures SocketOk(w.pbufs, |w.buf|, s, RxSocket(w, k))
  {
    SameStore(w.pbufs, s, k, RxSocket(w, k));
    hide PoolOk, QueueOk, OwnsPackets;
  }

  lemma FreePbufKeeps(w: World, s: nat, k: Socket)
    requires SocketOk(w.pbufs, |w.buf|, s, k) && k.rx.pc == FreePbuf
    ensures SocketOk(RxPbufs(w, k), |w.buf|, s, RxSocket(w, k))
    ensures Gone(k) < |k.ids| && RxPbufs(w, k) == FreeAt(w.pbufs, k.ids[Gone(k)])
  {
    var v, after := RxSocket(w, k), RxPbufs(w, k);
    HeadMessage(w, s, k);
    assert QueueOk(v);
    assert OwnsPackets(after, s, v);
  }

  /** The socket once the head has gone back to the pool. */
  function Dequeued(k: Socket): Socket
    requires k.pool.active != []
  {
    k.(rx := k.rx.(pc := Top, msg := None),
       pool := PoolView(k.pool.active[1..], k.pool.free + [k.pool.active[0]]))
  }

  lemma DequeuePool(k: Socket)
    requires PoolOk(k) && k.pool.active != []
    ensures PoolOk(Dequeued(k)) && PoolModel.Give(k.pool, k.pool.active[0]) == Dequeued(k).pool
  {
    var a, f := k.pool.active, k.pool.free;
    assert IndexOf(a, a[0]) == 0;
    assert GiveAt(k.pool, 0) == Dequeued(k).pool;
    assert [a[0]] + a[1..] + f == a + f;
    hide Distinct;
    DistinctRotate(a[0], a[1..], f);
  }

  lemma DistinctRotate(x: nat, a: seq<nat>, b: seq<nat>)
    requires Distinct([x] + a + b)
    ensures Distinct(a + (b + [x]))
  {
    var s, t := [x] + a + b, a + (b + [x]);
    forall i, j | 0 <= i < j < |t| ensures t[i] != t[j] {
      assert t[i] == s[i + 1];
      assert t[j] == if j + 1 < |s| then s[j + 1] else s[0];
    }
  }

  lemma DequeueQueue(k: Socket)
    requires QueueOk(k) && k.pool.active != []
    ensures QueueOk(Dequeued(k)) && Gone(Dequeued(k)) == Gone(k) + 1
  {
    var v := Dequeued(k);
    forall i | 0 <= i < |v.pool.active| ensures v.slots[v.pool.active[i]] == MessageOf(v, Gone(v) + i) {
      assert k.slots[k.pool.active[i + 1]] == MessageOf(k, Gone(k) + (i + 1));
    }
  }

  lemma DequeuePackets(pbufs: seq<Pbuf>, s: nat, k: Socket)
    requires OwnsPackets(pbufs, s, k) && k.pool.active != [] && k.rx.pc == FreeMsg
    ensures OwnsPackets(pbufs, s, Dequeued(k))
  {
  }

  lemma DequeueRest(pbufs: seq<Pbuf>, bufLen: nat, k: Socket)
    requires k.rx.pc == FreeMsg && |k.ids| == |k.accepted|
    requires HeadOk(k) && CountOk(k) && DeliveredOk(k)
    ensures k.pool.active != []
    ensures HeadOk(Dequeued(k)) && CountOk(Dequeued(k)) && DeliveredOk(Dequeued(k)) && RegistersOk(pbufs, bufLen, Dequeued(k))
    ensures k.rx.msg == Some(k.pool.active[0])
  {
  }

  lemma FreeMsgKeeps(w: World, s: nat, k: Socket)
    requires SocketOk(w.pbufs, |w.buf|, s, k) && k.rx.pc == FreeMsg
    ensures SocketOk(w.pbufs, |w.buf|, s, RxSocket(w, k))
  {
    DequeueRest(w.pbufs, |w.buf|, k);
    hide PoolOk, QueueOk, OwnsPackets, HeadOk, CountOk, DeliveredOk, RegistersOk;
    DequeuePool(k);
    DequeueQueue(k);
    DequeuePackets(w.pbufs, s, k);
  }

  /** A step of the receive thread of a socket, whatever its program point. */
  lemma WorkKeepsSocket(w: World, s: nat, k: Socket)
    requires SocketOk(w.pbufs, |w.buf|, s, k)
    requires k.rx.pc == Reply && k.rx.msg.Some? ==> 0 <= Gone(k) < |k.accepted| && Replied(w, k) == k.accepted[Gone(k)]
    ensures SocketOk(RxPbufs(w, k), |w.buf|, s, RxSocket(w, k))
  {
    hide SocketOk;
    match k.rx.pc
    case Top | Called | Header => LocalStepKeeps(w, s, k);
    case Copy => CopyKeeps(w, s, k);
    case Reply => ReplyKeeps(w, s, k);
    case FreePbuf => FreePbufKeeps(w, s, k);
    case FreeMsg => FreeMsgKeeps(w, s, k);
    case Await | Stopped =>
  }

  // ---------- all sockets ----------

  /** A new packet does not disturb a socket. */
  lemma AppendFrame(pbufs: seq<Pbuf>, bufLen: nat, s: nat, k: Socket, b: Pbuf)
    requires SocketOk(pbufs, bufLen, s, k)
    ensures SocketOk(pbufs + [b], bufLen, s, k)
  {
    assert forall j :: 0 <= j < |k.ids| ==> (pbufs + [b])[k.ids[j]] == pbufs[k.ids[j]];
  }

  /** Freeing a packet of one socket does not disturb another. */
  lemma FreeFrame(pbufs: seq<Pbuf>, bufLen: nat, s: nat, k: Socket, p: nat)
    requires SocketOk(pbufs, bufLen, s, k) && p < |pbufs| && pbufs[p].sock != s
    ensures SocketOk(FreeAt(pbufs, p), bufLen, s, k)
  {
    assert forall j :: 0 <= j < |k.ids| ==> FreeAt(pbufs, p)[k.ids[j]] == pbufs[k.ids[j]];
  }

  /** Signals, and the arrival of a call, do not touch the messages. */
  lemma SignalFrame(pbufs: seq<Pbuf>, bufLen: nat, s: nat, k: Socket, v: Socket)
    requires SocketOk(pbufs, bufLen, s, k)
    requires v == k.(notified := v.notified, pending := v.pending, rx := v.rx)
    requires v.rx == k.rx || (k.rx.pc == Await && v.rx == k.rx.(pc := Called, client := v.rx.client))
    ensures SocketOk(pbufs, bufLen, s, v)
  {
    if k.rx.pc == FreeMsg {
      assert QueueOk(v) && OwnsPackets(pbufs, s, v);
    } else {
      SameStore(pbufs, s, k, v);
    }
    hide QueueOk, OwnsPackets, PoolOk;
  }

  /** What the receive thread of `s` is about to send is what the head of its queue holds. */
  ghost predicate ReplyIsHead(w: World, k: Socket) {
    k.rx.pc == Reply && k.rx.msg.Some? ==> 0 <= Gone(k) < |k.accepted| && Replied(w, k) == k.accepted[Gone(k)]
  }

  lemma ArriveKeepsData(w: World, s: nat, chain: seq<Bytes>, addr: Addr, port: Port)
    requires DataOk(w) && s < |w.sockets|
    ensures DataOk(Step(w, Arrive(s, chain, addr, port)))
  {
    var v := Step(w, Arrive(s, chain, addr, port));
    var k, b := w.sockets[s], NewPbuf(w.sockets[s], s, chain);
    hide SocketOk;
    forall t | 0 <= t < |v.sockets| ensures SocketOk(v.pbufs, |v.buf|, t, v.sockets[t]) {
      assert SocketOk(w.pbufs, |w.buf|, t, w.sockets[t]);
      if t == s {
        EnqueueKeeps(w.pbufs, |w.buf|, s, k, chain, addr, port);
      } else {
        AppendFrame(w.pbufs, |w.buf|, t, w.sockets[t], b);
      }
    }
  }

  /** What a step of the receive thread leaves alone. */
  lemma WorkShape(w: World, s: nat, k: Socket)
    requires SocketOk(w.pbufs, |w.buf|, s, k)
    ensures |RxBuf(w, k)| == |w.buf| && RxSocket(w, k).ids == k.ids
    ensures if k.rx.pc == FreePbuf then
              && 0 <= Gone(k) < |k.ids| && k.ids[Gone(k)] < |w.pbufs|
              && w.pbufs[k.ids[Gone(k)]] == Pbuf(w.pbufs[k.ids[Gone(k)]].chain, 0, s, Some(Gone(k)))
              && RxPbufs(w, k) == FreeAt(w.pbufs, k.ids[Gone(k)])
            else RxPbufs(w, k) == w.pbufs
  {
    if k.rx.pc == FreePbuf {
      FreePbufKeeps(w, s, k);
    }
  }

  lemma WorkKeepsPlaces(w: World, s: nat, k: Socket, v: Socket, p: nat)
    requires PacketsPlaced(w.pbufs, w.sockets) && s < |w.sockets| && w.sockets[s] == k && v.ids == k.ids
    requires p < |w.pbufs| && w.pbufs[p].place.Some?
    ensures PacketsPlaced(w.pbufs, w.sockets[s := v])
    ensures PacketsPlaced(FreeAt(w.pbufs, p), w.sockets[s := v])
  {
    assert forall t :: 0 <= t < |w.sockets| ==> w.sockets[s := v][t].ids == w.sockets[t].ids;
  }

  lemma WorkKeepsData(w: World, s: nat)
    requires DataOk(w) && s < |w.sockets| && RxCanStep(w.sockets[s]) && ReplyIsHead(w, w.sockets[s])
    ensures DataOk(Step(w, Work(s)))
  {
    var v, k := Step(w, Work(s)), w.sockets[s];
    assert SocketOk(w.pbufs, |w.buf|, s, k);
    hide SocketOk, PacketsPlaced, RxSocket, RxBuf, RxPbufs, RxClients;
    WorkShape(w, s, k);
    WorkKeepsSocket(w, s, k);
    forall t | 0 <= t < |v.sockets| ensures SocketOk(v.pbufs, |v.buf|, t, v.sockets[t]) {
      assert SocketOk(w.pbufs, |w.buf|, t, w.sockets[t]);
      if t != s && k.rx.pc == FreePbuf {
        FreeFrame(w.pbufs, |w.buf|, t, w.sockets[t], k.ids[Gone(k)]);
      }
    }
    if k.rx.pc == FreePbuf {
      WorkKeepsPlaces(w, s, k, RxSocket(w, k), k.ids[Gone(k)]);
    } else {
      SameIdsKeepPlaces(w.pbufs, w.sockets, s, RxSocket(w, k));
    }
  }

  lemma SameIdsKeepPlaces(pbufs: seq<Pbuf>, sockets: seq<Socket>, s: nat, v: Socket)
    requires PacketsPlaced(pbufs, sockets) && s < |sockets| && v.ids == sockets[s].ids
    ensures PacketsPlaced(pbufs, sockets[s := v])
  {
    assert forall t :: 0 <= t < |sockets| ==> sockets[s := v][t].ids == sockets[t].ids;
  }

  /** An event that only changes the signals of one socket, or its thread's waiting for a call. */
  lemma SignalKeepsData(w: World, s: nat, x: Socket)
    requires DataOk(w) && s < |w.sockets|
    requires var k := w.sockets[s];
             && x == k.(notified := x.notified, pending := x.pending, rx := x.rx)
             && (x.rx == k.rx || (k.rx.pc == Await && x.rx == k.rx.(pc := Called, client := x.rx.client)))
    ensures DataOk(SetSock(w, s, x))
  {
    var v := SetSock(w, s, x);
    SameIdsKeepPlaces(w.pbufs, w.sockets, s, x);
    hide SocketOk, PacketsPlaced;
    assert SocketOk(w.pbufs, |w.buf|, s, w.sockets[s]);
    SignalFrame(w.pbufs, |w.buf|, s, w.sockets[s], x);
  }

  lemma ClientsKeepData(w: World, v: World)
    requires DataOk(w) && v == w.(clients := v.clients, sem := v.sem)
    ensures DataOk(v)
  {
  }

  lemma StepKeepsData(w: World, e: Event)
    requires DataOk(w) && (e.Work? && e.s < |w.sockets| ==> ReplyIsHead(w, w.sockets[e.s]))
    ensures DataOk(Step(w, e))
  {
    hide DataOk;
    if Enabled(w, e) {
      var v := Step(w, e);
      match e
      case Arrive(s, chain, addr, port) => ArriveKeepsData(w, s, chain, addr, port);
      case Work(s) => WorkKeepsData(w, s);
      case Begin(_, _, _) | Take(_) | CopyOut(_) | Give(_) => ClientsKeepData(w, v);
      case Signal(s) => SignalKeepsData(w, s, v.sockets[s]);
      case Wake(c) =>
        var s := w.clients[c].sock;
        SignalKeepsData(w, s, v.sockets[s]);
        ClientsKeepData(SetSock(w, s, v.sockets[s]), v);
      case Accept(s, c) =>
        SignalKeepsData(w, s, v.sockets[s]);
        ClientsKeepData(SetSock(w, s, v.sockets[s]), v);
    }
  }
}
