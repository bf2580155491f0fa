/** The transmit path of src/udp.c as a step system: the transmit threads of a process's sockets
    and its sending threads, which share one transmit buffer. Memory is copied a byte a step. */
module UdpTransmit {
  import opened PoolModel
  import UdpModel

  type Bytes = UdpModel.Bytes
  type Addr = UdpModel.Addr
  type Port = UdpModel.Port

  /** The result of the network stack when it has no buffer for a packet. */
  const ERR_MEM: int := -1

  datatype SenderPc = Outside | Taking | Filling | Calling | InCall | Giving

  /** A thread in sel4osapi_udp_send: its arguments, how far it has filled the buffer, and what it
      was answered. History: the number of this send, and where its outcome was recorded. */
  datatype Sender = Sender(pc: SenderPc, sock: nat, msg: Bytes, addr: Addr, port: Port, pos: nat,
                           result: Option<int>, nth: nat, ticket: nat)

  datatype TxPc = Waiting | Called | Copying | Sending | Answering

  /** A transmit thread: its local variables and the packet buffer it fills. */
  datatype Tx = Tx(pc: TxPc, caller: nat, len: nat, addr: Addr, port: Port, payload: Bytes, error: int)

  datatype Packet = Packet(sock: nat, data: Bytes, addr: Addr, port: Port)

  /** History: how the `nth` send of a thread ended. */
  datatype Outcome = Outcome(sender: nat, nth: nat, packet: Packet, sent: bool, error: int)

  datatype World = World(buf: Bytes, sem: nat, txs: seq<Tx>, senders: seq<Sender>,
                         packets: seq<Packet>, outcomes: seq<Outcome>)

  datatype Event =
    | Begin(c: nat, sock: nat, msg: Bytes, addr: Addr, port: Port)
    | Take(c: nat)
    | Fill(c: nat)
    | Accept(s: nat, c: nat)
    | Allocate(s: nat, ok: bool)
    | Copy(s: nat)
    | Send(s: nat, error: int)
    | Answer(s: nat)
    | Give(c: nat)

  function Start(buf: Bytes, sockets: nat, senders: nat): World {
    World(buf, 1, seq(sockets, i => Tx(Waiting, 0, 0, 0, 0, [], 0)),
          seq(senders, i => Sender(Outside, 0, [], 0, 0, 0, None, 0, 0)), [], [])
  }

  predicate Enabled(w: World, e: Event) {
    match e
    case Begin(c, s, msg, _, _) =>
      c < |w.senders| && s < |w.txs| && w.senders[c].pc == Outside && |msg| < |w.buf|
    case Take(c) => c < |w.senders| && w.senders[c].pc == Taking && w.sem > 0
    case Fill(c) => c < |w.senders| && w.senders[c].pc == Filling
    case Accept(s, c) =>
      && s < |w.txs| && w.txs[s].pc == Waiting
      && c < |w.senders| && w.senders[c].pc == Calling && w.senders[c].sock == s
    case Allocate(s, _) => s < |w.txs| && w.txs[s].pc == Called
    case Copy(s) => s < |w.txs| && w.txs[s].pc == Copying
    case Send(s, _) => s < |w.txs| && w.txs[s].pc == Sending
    case Answer(s) => s < |w.txs| && w.txs[s].pc == Answering && w.txs[s].caller < |w.senders|
    case Give(c) => c < |w.senders| && w.senders[c].pc == Giving
  }

  function SetTx(w: World, s: nat, k: Tx): World
    requires s < |w.txs|
  {
    w.(txs := w.txs[s := k])
  }

  function SetSender(w: World, c: nat, x: Sender): World
    requires c < |w.senders|
  {
    w.(senders := w.senders[c := x])
  }

  /** What thread `x` asked to be sent. */
  function Asked(x: Sender): Packet { Packet(x.sock, x.msg, x.addr, x.port) }

  function Record(w: World, k: Tx, sent: bool, error: int): World {
    if k.caller >= |w.senders| then w
    else
      var x := w.senders[k.caller];
      w.(outcomes := w.outcomes + [Outcome(k.caller, x.nth, Asked(x), sent, error)])
  }

  function FillByte(w: World, c: nat): World
    requires c < |w.senders|
  {
    var x := w.senders[c];
    if x.pos >= |x.msg| then SetSender(w, c, x.(pc := Calling))
    else if x.pos >= |w.buf| then w
    else SetSender(w, c, x.(pos := x.pos + 1)).(buf := w.buf[x.pos := x.msg[x.pos]])
  }

  function CopyByte(w: World, k: Tx): Tx {
    if |k.payload| >= k.len then k.(pc := Sending)
    else if |k.payload| >= |w.buf| then k
    else k.(payload := k.payload + [w.buf[|k.payload|]])
  }

  /** History: where the latest outcome is recorded. */
  function Last(w: World): nat { if w.outcomes == [] then 0 else |w.outcomes| - 1 }

  function Step(w: World, e: Event): World {
    if !Enabled(w, e) then w
    else match e
      case Begin(c, s, msg, addr, port) =>
        SetSender(w, c, Sender(Taking, s, msg, addr, port, 0, None, w.senders[c].nth + 1, 0))
      case Take(c) =>
        SetSender(w, c, w.senders[c].(pc := Filling)).(sem := w.sem - 1)
      case Fill(c) => FillByte(w, c)
      case Accept(s, c) =>
        var x := w.senders[c];
        var len := if |x.msg| > |w.buf| then |w.buf| else |x.msg|;
        SetTx(SetSender(w, c, x.(pc := InCall)), s, Tx(Called, c, len, x.addr, x.port, [], ERR_MEM))
      case Allocate(s, ok) =>
        var k := w.txs[s];
        if ok then SetTx(w, s, k.(pc := Copying))
        else Record(SetTx(w, s, k.(pc := Answering)), k, false, ERR_MEM)
      case Copy(s) => SetTx(w, s, CopyByte(w, w.txs[s]))
      case Send(s, error) =>
        var k := w.txs[s];
        Record(SetTx(w, s, k.(pc := Answering, error := error)), k, true, error)
          .(packets := w.packets + [Packet(s, k.payload, k.addr, k.port)])
      case Answer(s) =>
        var k := w.txs[s];
        SetTx(SetSender(w, k.caller, w.senders[k.caller].(pc := Giving, result := Some(k.error), ticket := Last(w))),
              s, k.(pc := Waiting))
      case Give(c) =>
        SetSender(w, c, w.senders[c].(pc := Outside)).(sem := w.sem + 1)
  }

  function Run(w: World, events: seq<Event>): World
    decreases |events|
  {
    if events == [] then w else Step(Run(w, events[..|events| - 1]), events[|events| - 1])
  }
}
