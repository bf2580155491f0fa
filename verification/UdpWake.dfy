/** The receive path, third part: signals coalesce and the count of waiting messages goes stale,
    but no datagram is left without somebody on the way to fetch it. */
module UdpWake {
  import opened PoolModel
  import opened UdpModel
  import opened UdpData
  import opened UdpBuffer

  predicate Awake(c: Client, s: nat) { (c.pc == Taking || c.pc == Calling) && c.sock == s }

  /** Somebody will look at socket `s`: it has been signalled, a callback is about to signal
      it, or a client has taken a signal and not been served yet. */
  ghost predicate Prompted(w: World, s: nat)
    requires s < |w.sockets|
  {
    || w.sockets[s].notified
    || w.sockets[s].pending > 0
    || exists c :: 0 <= c < |w.clients| && Awake(w.clients[c], s)
  }

  /** How many queued messages the receive thread itself answers for: those it is committed
      to re-signal for, and the one it is serving. */
  function Covered(k: Socket): int {
    match k.rx.pc
    case Top | Header | Copy | Stopped => k.rx.remaining
    case Await => 0
    case Called => |k.pool.active|
    case Reply => if k.rx.msg == None then 0 else k.rx.remaining + 1
    case FreePbuf | FreeMsg => k.rx.remaining + 1
  }

  /** No lost wakeup: a message the thread does not answer for has prompted somebody. */
  ghost predicate WakeOk(w: World) {
    forall s :: 0 <= s < |w.sockets| && |w.sockets[s].pool.active| > Covered(w.sockets[s]) ==> Prompted(w, s)
  }

  lemma ArriveKeepsWake(w: World, s: nat, chain: seq<Bytes>, addr: Addr, port: Port)
    requires WakeOk(w) && Enabled(w, Arrive(s, chain, addr, port))
    ensures WakeOk(Step(w, Arrive(s, chain, addr, port)))
  {
    var v := Step(w, Arrive(s, chain, addr, port));
    forall t | 0 <= t < |v.sockets| && |v.sockets[t].pool.active| > Covered(v.sockets[t]) ensures Prompted(v, t) {
      assert t != s ==> Prompted(w, t);
    }
  }

  /** A client that moves on stays awake until its call is taken. */
  lemma MoveKeepsWake(w: World, e: Event)
    requires WakeOk(w) && Enabled(w, e) && !e.Arrive? && !e.Work? && !e.Accept?
    ensures WakeOk(Step(w, e))
  {
    var v := Step(w, e);
    forall t | 0 <= t < |v.sockets| && |v.sockets[t].pool.active| > Covered(v.sockets[t]) ensures Prompted(v, t) {
      assert |w.sockets[t].pool.active| > Covered(w.sockets[t]) && Prompted(w, t);
      if e.Wake? && w.clients[e.c].sock == t {
        assert Awake(v.clients[e.c], t);
      } else if !w.sockets[t].notified && w.sockets[t].pending == 0 {
        var c :| 0 <= c < |w.clients| && Awake(w.clients[c], t);
        assert Awake(v.clients[c], t);
      }
    }
  }

  lemma AcceptKeepsWake(w: World, s: nat, c: nat)
    requires WakeOk(w) && Enabled(w, Accept(s, c))
    ensures WakeOk(Step(w, Accept(s, c)))
  {
    var v := Step(w, Accept(s, c));
    forall t | 0 <= t < |v.sockets| && |v.sockets[t].pool.active| > Covered(v.sockets[t]) ensures Prompted(v, t) {
      assert t != s && Prompted(w, t);
      if !w.sockets[t].notified && w.sockets[t].pending == 0 {
        var d :| 0 <= d < |w.clients| && Awake(w.clients[d], t);
        assert Awake(v.clients[d], t);
      }
    }
  }

  /** A step of the receive thread leaves no message unanswered for that was answered for, except
      by signalling for the rest. */
  lemma WorkCovers(w: World, s: nat, k: Socket)
    requires SocketOk(w.pbufs, |w.buf|, s, k) && RxCanStep(k)
    ensures var v := RxSocket(w, k);
            && v.pending == k.pending && (k.notified ==> v.notified)
            && (|v.pool.active| > Covered(v) ==> v.notified || |k.pool.active| > Covered(k))
  {
    if k.rx.pc == FreeMsg {
      DequeuePool(k);
    }
  }

  /** A reply goes to a client that was not awake any more. */
  lemma WorkKeepsAwake(w: World, s: nat, t: nat)
    requires Exclusive(w) && Enabled(w, Work(s)) && t < |w.sockets|
    ensures var v := Step(w, Work(s));
            && |v.clients| == |w.clients|
            && (forall c :: 0 <= c < |w.clients| ==> (Awake(v.clients[c], t) <==> Awake(w.clients[c], t)))
            && AwakeCount(v.clients, t) == AwakeCount(w.clients, t)
  {
    var v, k := Step(w, Work(s)), w.sockets[s];
    WorkExclusive(w, s);
    hide RxSocket, RxBuf, RxPbufs, RxClients, Step, Exclusive;
    if k.rx.pc == Reply {
      AwakeCountUpdate(w.clients, k.rx.client, Answered(k, w.clients[k.rx.client]), t);
    }
  }

  lemma WorkKeepsPrompt(w: World, s: nat, t: nat)
    requires Exclusive(w) && Enabled(w, Work(s)) && t < |w.sockets| && Prompted(w, t)
    requires w.sockets[s].notified ==> Step(w, Work(s)).sockets[s].notified
    requires Step(w, Work(s)).sockets[s].pending == w.sockets[s].pending
    ensures t < |Step(w, Work(s)).sockets| && Prompted(Step(w, Work(s)), t)
  {
    var v := Step(w, Work(s));
    WorkKeepsAwake(w, s, t);
    assert t != s ==> v.sockets[t] == w.sockets[t];
    hide RxSocket, RxBuf, RxPbufs, RxClients, Step, Exclusive, Enabled;
    if !w.sockets[t].notified && w.sockets[t].pending == 0 {
      var d :| 0 <= d < |w.clients| && Awake(w.clients[d], t);
      assert Awake(v.clients[d], t);
    }
  }

  lemma WorkKeepsWake(w: World, s: nat)
    requires DataOk(w) && Exclusive(w) && WakeOk(w) && Enabled(w, Work(s))
    ensures WakeOk(Step(w, Work(s)))
  {
    var v, k := Step(w, Work(s)), w.sockets[s];
    assert SocketOk(w.pbufs, |w.buf|, s, k);
    WorkCovers(w, s, k);
    hide RxSocket, RxBuf, RxPbufs, RxClients, SocketOk, DataOk, Exclusive, Covered, Prompted;
    forall t | 0 <= t < |v.sockets| && |v.sockets[t].pool.active| > Covered(v.sockets[t]) ensures Prompted(v, t) {
      if |w.sockets[t].pool.active| > Covered(w.sockets[t]) {
        WorkKeepsPrompt(w, s, t);
      } else {
        NotifiedPrompts(v, t);
      }
    }
  }

  lemma NotifiedPrompts(w: World, s: nat)
    requires s < |w.sockets| && w.sockets[s].notified
    ensures Prompted(w, s)
  {
  }

  lemma StepKeepsWake(w: World, e: Event)
    requires DataOk(w) && Exclusive(w) && WakeOk(w)
    ensures WakeOk(Step(w, e))
  {
    if Enabled(w, e) {
      match e
      case Arrive(s, chain, addr, port) => ArriveKeepsWake(w, s, chain, addr, port);
      case Accept(s, c) => AcceptKeepsWake(w, s, c);
      case Work(s) => WorkKeepsWake(w, s);
      case _ => MoveKeepsWake(w, e);
    }
  }

  // ---------- spurious wakeups ----------

  /** How many clients are awake for socket `s`. */
  function AwakeCount(clients: seq<Client>, s: nat): nat {
    if clients == [] then 0
    else (if Awake(clients[0], s) then 1 else 0) + AwakeCount(clients[1..], s)
  }

  lemma {:induction false} AwakeCountUpdate(clients: seq<Client>, i: nat, x: Client, s: nat)
    requires i < |clients|
    ensures AwakeCount(clients[i := x], s) ==
            AwakeCount(clients, s) - (if Awake(clients[i], s) then 1 else 0) + (if Awake(x, s) then 1 else 0)
  {
    if i == 0 {
      assert clients[0 := x][1..] == clients[1..];
    } else {
      assert clients[i := x][1..] == clients[1..][i - 1 := x];
      AwakeCountUpdate(clients[1..], i - 1, x, s);
    }
  }

  /** What the receive thread may still spend: the call it is serving, or the re-signal it has
      earned by serving one. */
  function Credit(rx: Rx): nat {
    match rx.pc
    case Top => if rx.remaining > 0 then 1 else 0
    case Await | Stopped => 0
    case _ => 1
  }

  /** Every reply without data, every client on its way, every signal pending or given is paid
      for by an arrival. */
  ghost predicate PaidFor(w: World, s: nat)
    requires s < |w.sockets|
  {
    var k := w.sockets[s];
    k.empties + AwakeCount(w.clients, s) + k.pending + (if k.notified then 1 else 0) + Credit(k.rx) <= k.arrivals
  }

  ghost predicate TokensOk(w: World) {
    forall s :: 0 <= s < |w.sockets| ==> PaidFor(w, s)
  }

  lemma ClientMoveKeepsTokens(w: World, e: Event, t: nat)
    requires TokensOk(w) && Enabled(w, e) && (e.Begin? || e.Wake? || e.Take? || e.CopyOut? || e.Give?)
    requires t < |w.sockets|
    ensures PaidFor(Step(w, e), t)
  {
    assert PaidFor(w, t);
    AwakeCountUpdate(w.clients, e.c, Step(w, e).clients[e.c], t);
  }

  lemma AcceptKeepsTokens(w: World, s: nat, c: nat, t: nat)
    requires TokensOk(w) && Enabled(w, Accept(s, c)) && t < |w.sockets|
    ensures PaidFor(Step(w, Accept(s, c)), t)
  {
    assert PaidFor(w, t);
    AwakeCountUpdate(w.clients, c, Step(w, Accept(s, c)).clients[c], t);
  }

  lemma WorkPays(w: World, s: nat, k: Socket)
    requires SocketOk(w.pbufs, |w.buf|, s, k) && RxCanStep(k)
    ensures var v := RxSocket(w, k);
            && v.arrivals == k.arrivals && v.pending == k.pending
            && v.empties + (if v.notified then 1 else 0) + Credit(v.rx) <= k.empties + (if k.notified then 1 else 0) + Credit(k.rx)
  {
  }

  lemma WorkKeepsTokens(w: World, s: nat, t: nat)
    requires DataOk(w) && Exclusive(w) && TokensOk(w) && Enabled(w, Work(s)) && t < |w.sockets|
    ensures PaidFor(Step(w, Work(s)), t)
  {
    var k := w.sockets[s];
    assert PaidFor(w, t) && SocketOk(w.pbufs, |w.buf|, s, k);
    WorkKeepsAwake(w, s, t);
    WorkPays(w, s, k);
    hide RxSocket, RxBuf, RxPbufs, RxClients, SocketOk, DataOk, Exclusive, AwakeCount;
  }

  lemma StepKeepsTokens(w: World, e: Event)
    requires DataOk(w) && Exclusive(w) && TokensOk(w)
    ensures TokensOk(Step(w, e))
  {
    if Enabled(w, e) {
      var v := Step(w, e);
      hide Exclusive, DataOk, AwakeCount;
      match e
      case Arrive(s, _, _, _) =>
        forall t | 0 <= t < |v.sockets| ensures PaidFor(v, t) {
          assert PaidFor(w, t);
        }
      case Signal(s) =>
        forall t | 0 <= t < |v.sockets| ensures PaidFor(v, t) {
          assert PaidFor(w, t);
        }
      case Accept(s, c) =>
        forall t | 0 <= t < |v.sockets| ensures PaidFor(v, t) {
          AcceptKeepsTokens(w, s, c, t);
        }
      case Work(s) =>
        forall t | 0 <= t < |v.sockets| ensures PaidFor(v, t) {
          WorkKeepsTokens(w, s, t);
        }
      case _ =>
        forall t | 0 <= t < |v.sockets| ensures PaidFor(v, t) {
          ClientMoveKeepsTokens(w, e, t);
        }
    }
  }
}
