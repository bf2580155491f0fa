/** The UDP receive path of src/udp.c as a step system: the network callback, one receive thread
    for each socket, and the client threads of one process, which share one receive buffer. */
module UdpModel {
  import opened Words
  import opened PoolModel

  const NOT_ENOUGH_MEMORY: int := 10

  type Bytes = seq<Byte>
  type Port = p: nat | p < 0x1_0000
  type Addr = Word

  datatype Datagram = Datagram(data: Bytes, addr: Addr, port: Port)

  /** A packet handed over by the network stack: a chain of buffers, how often it has been
      freed, and (history) which accepted datagram of which socket it became. */
  datatype Pbuf = Pbuf(chain: seq<Bytes>, frees: nat, sock: nat, place: Option<nat>)

  /** sel4osapi_udp_message_t */
  datatype Message = Message(pbuf: nat, addr: Addr, port: Port)

  /** Where a receive thread is: at the top of its loop, waiting for a call, called, with a
      message, copying it, about to reply, to free the packet, to release the message; or
      stopped by the assertion that the packet fits the buffer. */
  datatype RxPc = Top | Await | Called | Header | Copy | Reply | FreePbuf | FreeMsg | Stopped

  datatype Rx = Rx(pc: RxPc, remaining: int, client: nat, msg: Option<nat>, seg: nat,
                   packetLen: nat, addr: Addr, port: Port)

  /** A socket server. Messages live in numbered slots, which the pool hands out. `pending` counts
      callbacks that have queued a packet but not signalled yet. The rest is history: the pbufs
      and datagrams accepted, the datagrams replied, all arrivals, and replies without data. */
  datatype Socket = Socket(
    slots: seq<Message>,
    pool: PoolView<nat>,
    notified: bool,
    pending: nat,
    rx: Rx,
    ids: seq<nat>,
    accepted: seq<Datagram>,
    delivered: seq<Datagram>,
    arrivals: nat,
    empties: nat)

  /** What sel4osapi_udp_recv gives back; `ticket` is the number of the reply it was given. */
  datatype Result = Result(error: int, data: Option<Bytes>, len: nat, addr: Addr, port: Port, ticket: Option<nat>)

  datatype ClientPc = Idle | Waiting | Taking | Calling | InCall | Copying | Giving

  /** A thread in sel4osapi_udp_recv. History: how many receive calls it has begun. */
  datatype Client = Client(pc: ClientPc, sock: nat, maxLen: nat, len: nat, addr: Addr, port: Port,
                           ticket: Option<nat>, result: Option<Result>, calls: nat)

  /** One process: its receive buffer, the semaphore that guards it, its sockets and threads. */
  datatype World = World(buf: Bytes, sem: nat, pbufs: seq<Pbuf>, sockets: seq<Socket>, clients: seq<Client>)

  datatype Event =
    | Arrive(s: nat, chain: seq<Bytes>, addr: Addr, port: Port)
    | Signal(s: nat)
    | Begin(c: nat, sock: nat, maxLen: nat)
    | Wake(c: nat)
    | Take(c: nat)
    | Accept(s: nat, c: nat)
    | Work(s: nat)
    | CopyOut(c: nat)
    | Give(c: nat)

  function Flatten(chain: seq<Bytes>): Bytes {
    if chain == [] then [] else chain[0] + Flatten(chain[1..])
  }

  function Numbers(n: nat): seq<nat> { seq(n, i => i) }

  const NEW_RX: Rx := Rx(Top, 0, 0, None, 0, 0, 0, 0)

  function NewSocket(slots: seq<Message>): Socket {
    Socket(slots, PoolView([], Numbers(|slots|)), false, 0, NEW_RX, [], [], [], 0, 0)
  }

  function NewClient(): Client { Client(Idle, 0, 0, 0, 0, 0, None, None, 0) }

  function Start(buf: Bytes, slots: seq<Message>, sockets: nat, clients: nat): World {
    World(buf, 1, [], seq(sockets, i => NewSocket(slots)), seq(clients, i => NewClient()))
  }

  // ---------- the callback ----------

  /** udprecv, under the lock: take a message from the pool and fill it in, or, when the pool is
      exhausted, drop the packet. */
  function Enqueue(k: Socket, p: nat, d: Datagram): Socket {
    if k.pool.free == [] then k.(pending := k.pending + 1, arrivals := k.arrivals + 1)
    else
      var e := k.pool.free[0];
      k.(pool := PoolModel.Take(k.pool),
         slots := if e < |k.slots| then k.slots[e := Message(p, d.addr, d.port)] else k.slots,
         pending := k.pending + 1, arrivals := k.arrivals + 1,
         ids := k.ids + [p], accepted := k.accepted + [d])
  }

  function NewPbuf(k: Socket, s: nat, chain: seq<Bytes>): Pbuf {
    if k.pool.free == [] then Pbuf(chain, 1, s, None) else Pbuf(chain, 0, s, Some(|k.ids|))
  }

  // ---------- the receive thread ----------

  function HeadChain(w: World, k: Socket): seq<Bytes> {
    match k.rx.msg
    case None => []
    case Some(e) =>
      if e < |k.slots| && k.slots[e].pbuf < |w.pbufs| then w.pbufs[k.slots[e].pbuf].chain else []
  }

  /** memcpy(rx_buf + at, data, |data|) */
  function Write(buf: Bytes, at: nat, data: Bytes): Bytes
    requires at + |data| <= |buf|
  {
    buf[..at] + data + buf[at + |data|..]
  }

  function FreeAt(pbufs: seq<Pbuf>, p: nat): seq<Pbuf> {
    if p < |pbufs| then pbufs[p := pbufs[p].(frees := pbufs[p].frees + 1)] else pbufs
  }

  /** The datagram that a reply carries: what is in the buffer, and the two other registers. */
  function Replied(w: World, k: Socket): Datagram {
    Datagram(if k.rx.packetLen <= |w.buf| then w.buf[..k.rx.packetLen] else [], k.rx.addr, k.rx.port)
  }

  /** The socket after one step of its receive thread. */
  function RxSocket(w: World, k: Socket): Socket {
    var rx := k.rx;
    match rx.pc
    case Top =>
      k.(notified := k.notified || rx.remaining > 0,
         rx := rx.(pc := Await, packetLen := 0, port := 0, addr := 0))
    case Await => k
    case Called =>
      if k.pool.active == [] then k.(rx := rx.(pc := Reply))
      else k.(rx := rx.(pc := Header, msg := Some(k.pool.active[0]), remaining := |k.pool.active|))
    case Header =>
      if rx.msg.Some? && rx.msg.value < |k.slots| then
        var m := k.slots[rx.msg.value];
        k.(rx := rx.(pc := Copy, addr := m.addr, port := m.port, seg := 0))
      else k
    case Copy =>
      var chain := HeadChain(w, k);
      if rx.seg >= |chain| then k.(rx := rx.(pc := Reply, remaining := rx.remaining - 1))
      else if rx.packetLen + |chain[rx.seg]| > |w.buf| then k.(rx := rx.(pc := Stopped))
      else k.(rx := rx.(seg := rx.seg + 1, packetLen := rx.packetLen + |chain[rx.seg]|))
    case Reply =>
      if rx.msg == None then k.(rx := rx.(pc := Top), empties := k.empties + 1)
      else k.(rx := rx.(pc := FreePbuf), delivered := k.delivered + [Replied(w, k)])
    case FreePbuf => k.(rx := rx.(pc := FreeMsg))
    case FreeMsg =>
      if rx.msg == None then k
      else k.(rx := rx.(pc := Top, msg := None), pool := PoolModel.Give(k.pool, rx.msg.value))
    case Stopped => k
  }

  function RxBuf(w: World, k: Socket): Bytes {
    var chain := HeadChain(w, k);
    if k.rx.pc == Copy && k.rx.seg < |chain| && k.rx.packetLen + |chain[k.rx.seg]| <= |w.buf|
    then Write(w.buf, k.rx.packetLen, chain[k.rx.seg]) else w.buf
  }

  function RxPbufs(w: World, k: Socket): seq<Pbuf> {
    if k.rx.pc == FreePbuf && k.rx.msg.Some? && k.rx.msg.value < |k.slots|
    then FreeAt(w.pbufs, k.slots[k.rx.msg.value].pbuf) else w.pbufs
  }

  /** The reply registers reach the client whose call is being served. */
  function Answered(k: Socket, c: Client): Client {
    c.(pc := Copying, len := k.rx.packetLen, addr := k.rx.addr, port := k.rx.port,
       ticket := if k.rx.msg == None then None else Some(|k.delivered|))
  }

  function RxClients(w: World, k: Socket): seq<Client> {
    if k.rx.pc == Reply && k.rx.client < |w.clients|
    then w.clients[k.rx.client := Answered(k, w.clients[k.rx.client])] else w.clients
  }

  // ---------- the client ----------

  /** The end of sel4osapi_udp_recv: too small a buffer, no data, or the bytes copied out. */
  function ReadOut(buf: Bytes, c: Client): Result {
    if c.len > c.maxLen then Result(NOT_ENOUGH_MEMORY, None, c.len, c.addr, c.port, c.ticket)
    else if c.len == 0 then Result(-1, None, c.len, c.addr, c.port, c.ticket)
    else Result(0, Some(if c.len <= |buf| then buf[..c.len] else []), c.len, c.addr, c.port, c.ticket)
  }

  // ---------- steps ----------

  predicate RxCanStep(k: Socket) {
    k.rx.pc != Await && k.rx.pc != Stopped
  }

  predicate Enabled(w: World, e: Event) {
    match e
    case Arrive(s, _, _, _) => s < |w.sockets|
    case Signal(s) => s < |w.sockets| && w.sockets[s].pending > 0
    case Begin(c, s, n) => c < |w.clients| && s < |w.sockets| && n > 0 && w.clients[c].pc == Idle
    case Wake(c) =>
      && c < |w.clients| && w.clients[c].pc == Waiting
      && w.clients[c].sock < |w.sockets| && w.sockets[w.clients[c].sock].notified
    case Take(c) => c < |w.clients| && w.clients[c].pc == Taking && w.sem > 0
    case Accept(s, c) =>
      && s < |w.sockets| && w.sockets[s].rx.pc == Await
      && c < |w.clients| && w.clients[c].pc == Calling && w.clients[c].sock == s
    case Work(s) => s < |w.sockets| && RxCanStep(w.sockets[s])
    case CopyOut(c) => c < |w.clients| && w.clients[c].pc == Copying
    case Give(c) => c < |w.clients| && w.clients[c].pc == Giving
  }

  function SetSock(w: World, s: nat, k: Socket): World
    requires s < |w.sockets|
  {
    w.(sockets := w.sockets[s := k])
  }

  function SetClient(w: World, c: nat, x: Client): World
    requires c < |w.clients|
  {
    w.(clients := w.clients[c := x])
  }

  function Step(w: World, e: Event): World {
    if !Enabled(w, e) then w
    else match e
      case Arrive(s, chain, addr, port) =>
        var k := w.sockets[s];
        SetSock(w, s, Enqueue(k, |w.pbufs|, Datagram(Flatten(chain), addr, port)))
          .(pbufs := w.pbufs + [NewPbuf(k, s, chain)])
      case Signal(s) =>
        SetSock(w, s, w.sockets[s].(pending := w.sockets[s].pending - 1, notified := true))
      case Begin(c, s, n) =>
        SetClient(w, c, w.clients[c].(pc := Waiting, sock := s, maxLen := n, result := None, calls := w.clients[c].calls + 1))
      case Wake(c) =>
        var s := w.clients[c].sock;
        SetSock(SetClient(w, c, w.clients[c].(pc := Taking)), s, w.sockets[s].(notified := false))
      case Take(c) =>
        SetClient(w, c, w.clients[c].(pc := Calling)).(sem := w.sem - 1)
      case Accept(s, c) =>
        SetSock(SetClient(w, c, w.clients[c].(pc := InCall)), s,
                w.sockets[s].(rx := w.sockets[s].rx.(pc := Called, client := c)))
      case Work(s) =>
        var k := w.sockets[s];
        SetSock(w, s, RxSocket(w, k)).(buf := RxBuf(w, k), pbufs := RxPbufs(w, k), clients := RxClients(w, k))
      case CopyOut(c) =>
        SetClient(w, c, w.clients[c].(pc := Giving, result := Some(ReadOut(w.buf, w.clients[c]))))
      case Give(c) =>
        SetClient(w, c, w.clients[c].(pc := Idle)).(sem := w.sem + 1)
  }

  function Run(w: World, events: seq<Event>): World
    decreases |events|
  {
    if events == [] then w else Step(Run(w, events[..|events| - 1]), events[|events| - 1])
  }
}
