/** The critical sections of src/udp.c on the heap: the message pool of a socket server and the
    local variables of its receive thread, proved to take the steps of the receive path. */
module SocketServer {
  import opened Words
  import opened PoolModel
  import opened List
  import opened Pool
  import opened UdpModel
  import opened UdpData

  /** The queued messages of a socket, in order. */
  ghost function Queued(k: Socket): (q: seq<Message>)
    requires PoolOk(k)
    ensures |q| == |k.pool.active|
  {
    seq(|k.pool.active|, i requires 0 <= i < |k.pool.active| => k.slots[k.pool.active[i]])
  }

  lemma EnqueueQueued(k: Socket, p: nat, d: Datagram)
    requires PoolOk(k)
    ensures PoolOk(Enqueue(k, p, d))
    ensures Queued(Enqueue(k, p, d))
         == if k.pool.free == [] then Queued(k) else Queued(k) + [Message(p, d.addr, d.port)]
  {
    var v := Enqueue(k, p, d);
    if k.pool.free != [] {
      var both, n := k.pool.active + k.pool.free, |k.pool.active|;
      assert v.pool.active + v.pool.free == both;
      assert both[n] == k.pool.free[0];
      forall i | 0 <= i < n ensures v.slots[v.pool.active[i]] == k.slots[k.pool.active[i]] {
        assert both[i] == k.pool.active[i];
      }
    }
  }

  lemma DequeueQueued(w: World, k: Socket)
    requires PoolOk(k) && HeadOk(k) && k.rx.pc == FreeMsg
    ensures PoolOk(RxSocket(w, k)) && Queued(RxSocket(w, k)) == RemoveAt(Queued(k), 0)
    ensures |RxSocket(w, k).pool.free| == |k.pool.free| + 1
    ensures RxSocket(w, k).rx == k.rx.(pc := Top, msg := None)
  {
    DequeuePool(k);
    hide Distinct;
  }

  lemma CalledQueued(w: World, k: Socket)
    requires PoolOk(k) && HeadOk(k) && k.rx.pc == Called
    ensures var v := RxSocket(w, k);
            && PoolOk(v) && HeadOk(v) && v.pool == k.pool && Queued(v) == Queued(k)
            && v.rx == (if k.pool.active == [] then k.rx.(pc := Reply)
                        else k.rx.(pc := Header, msg := Some(k.pool.active[0]), remaining := |k.pool.active|))
  {
    hide Distinct;
  }

  class SocketServer {
    const msgs: Pool<Message>
    /** The local variables of the receive thread. */
    var msg: Element?<Message>
    var remaining: int
    var packetLen: nat
    var addr: Addr
    var port: Port

    ghost predicate Ready()
      reads this, msgs, msgs.Repr()
    {
      this !in msgs.Repr() && msgs.Valid() && msgs.init == None && msgs.compare == None
    }

    /** The message pool of the socket `k`. */
    ghost predicate Queues(k: Socket)
      requires Ready()
      reads this, msgs, msgs.Repr()
    {
      && PoolOk(k) && HeadOk(k)
      && msgs.Data() == Queued(k) && |msgs.free| == |k.pool.free|
    }

    /** The local variables of the receive thread of `k`. */
    ghost predicate Locals(rx: Rx)
      requires Ready()
      reads this, msgs, msgs.Repr()
    {
      && remaining == rx.remaining && packetLen == rx.packetLen && addr == rx.addr && port == rx.port
      && match rx.msg
         case None => msg == null
         case Some(_) => |msgs.active| > 0 && msg == msgs.active[0].el
    }

    ghost predicate Represents(k: Socket)
      reads this, msgs, msgs.Repr()
    {
      Ready() && Queues(k) && Locals(k.rx)
    }

    /** A new socket server: its pool, and the local variables its receive thread starts with. */
    constructor (size: nat, raw: nat -> Message, ghost slots: seq<Message>)
      requires size > 0 && |slots| == size
      ensures Represents(NewSocket(slots))
    {
      msgs := new Pool<Message>(size, raw, None, None);
      msg, remaining, packetLen, addr, port := null, 0, 0, 0, 0;
      new;
      ghost var k := NewSocket(slots);
      assert k.pool.active + k.pool.free == Numbers(size);
      assert msgs.Data() == [] == Queued(k);
    }

    /** udprecv, under the lock. */
    method Receive(p: nat, d: Datagram, ghost k: Socket) returns (dropped: bool)
      requires Represents(k)
      modifies msgs.Repr()
      ensures Represents(Enqueue(k, p, d))
      ensures dropped <==> k.pool.free == []
    {
      hide Els, Contents, Pool.Valid, Apply;
      EnqueueQueued(k, p, d);
      hide Queued, PoolOk;
      ghost var before := msgs.Data();
      msgs.FirstEntry();
      var m := msgs.Alloc();
      if m == null {
        return true;
      }
      AppendThenSet(before, m.data, Message(p, d.addr, d.port));
      msgs.Store(m, Message(p, d.addr, d.port), |before|);
      return false;
    }

    /** The receive thread, called, looks for a message under the lock. */
    method LookForMessage(ghost w: World, ghost k: Socket)
      requires Represents(k) && k.rx.pc == Called
      modifies this
      ensures Represents(RxSocket(w, k))
    {
      hide Els, Contents, Pool.Valid, Apply;
      CalledQueued(w, k);
      hide Queued, PoolOk, RxSocket;
      msgs.FirstEntry();
      if msgs.entries == null {
        return;
      }
      msg := msgs.entries.el;
      remaining := msgs.GetCurrentSize();
    }

    /** ... reads the message, outside the lock ... */
    method ReadMessage(ghost w: World, ghost k: Socket)
      requires Represents(k) && k.rx.pc == Header
      modifies this
      ensures Represents(RxSocket(w, k))
    {
      port := msg.data.port;
      addr := msg.data.addr;
    }

    /** ... and, when it has replied and freed the packet, returns the message to the pool. */
    method ReturnMessage(ghost w: World, ghost k: Socket)
      requires Represents(k) && k.rx.pc == FreeMsg
      modifies this, msgs.Repr()
      ensures Represents(RxSocket(w, k))
    {
      hide Els, Contents, Pool.Valid, Apply;
      DequeueQueued(w, k);
      hide Queued, PoolOk, RxSocket;
      msgs.NextEntry(0);
      var error := msgs.Free(msg, 0);
      assert error == 0;
      assert forall o :: o in msgs.Repr() ==> o != this;
      msg := null;
    }
  }

  /** memcpy(buf + at, data, |data|) */
  method CopySegment(buf: array<Byte>, at: nat, data: Bytes)
    requires at + |data| <= buf.Length
    modifies buf
    ensures buf[..] == Write(old(buf[..]), at, data)
  {
    var i := 0;
    while i < |data|
      invariant 0 <= i <= |data|
      invariant forall j :: 0 <= j < i ==> buf[at + j] == data[j]
      invariant forall j :: 0 <= j < buf.Length && !(at <= j < at + i) ==> buf[j] == old(buf[j])
    {
      buf[at + i] := data[i];
      i := i + 1;
    }
    ghost var was := old(buf[..]);
    assert forall j :: 0 <= j < buf.Length ==> buf[j] == Write(was, at, data)[j];
  }

  /** How the copy of a packet ends: the assertion behind the loop holds or fails, or the loop runs into
      memory that is not there. */
  datatype CopyOutcome = Fits | TooLong | Fault

  /** The copy loop of the receive thread over the chain of a packet, and the assertion behind it. The
      buffer is the first `size` bytes of `memory`; the loop itself goes past it. */
  method CopyChain(memory: array<Byte>, size: nat, chain: seq<Bytes>) returns (packetLen: nat, outcome: CopyOutcome)
    requires size <= memory.Length
    modifies memory
    ensures outcome == Fits <==> |Flatten(chain)| <= size
    ensures outcome == Fault <==> |Flatten(chain)| > memory.Length
    ensures outcome != Fault ==> packetLen == |Flatten(chain)|
    ensures outcome != Fault ==> memory[..] == Flatten(chain) + old(memory[..])[packetLen..]
  {
    packetLen := 0;
    var q := 0;
    while q < |chain|
      invariant 0 <= q <= |chain|
      invariant packetLen == |Flatten(chain[..q])| <= memory.Length
      invariant memory[..] == Flatten(chain[..q]) + old(memory[..])[packetLen..]
    {
      FlattenUpTo(chain, q);
      if packetLen + |chain[q]| > memory.Length {
        return packetLen, Fault;
      }
      CopySegment(memory, packetLen, chain[q]);
      packetLen := packetLen + |chain[q]|;
      q := q + 1;
    }
    assert chain[..q] == chain;
    outcome := if packetLen <= size then Fits else TooLong;
  }
}
