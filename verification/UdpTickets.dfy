/** The receive path: no reply is handed to two calls. */
module UdpTickets {
  import opened PoolModel
  import opened UdpModel
  import opened UdpBuffer
  import opened UdpLaws

  /** The number of the reply that a client is reading, or that its last call returned. */
  function Held(c: Client): Option<nat> {
    if c.pc == Copying then c.ticket else if c.result.Some? then c.result.value.ticket else None
  }

  predicate HoldsReply(c: Client, s: nat, j: nat) { c.sock == s && Held(c) == Some(j) }

  predicate Share(x: Client, y: Client) { x.sock == y.sock && Held(x).Some? && Held(x) == Held(y) }

  ghost predicate TicketsOk(w: World) {
    && (forall c :: 0 <= c < |w.clients| && Held(w.clients[c]).Some? ==>
          w.clients[c].sock < |w.sockets| && Held(w.clients[c]).value < |w.sockets[w.clients[c].sock].delivered|)
    && (forall c, d :: 0 <= c < |w.clients| && 0 <= d < |w.clients| && Share(w.clients[c], w.clients[d]) ==> c == d)
  }

  /** A client keeps the reply it holds, in the same call, or lets it go, ... */
  predicate Keeps(w: World, v: World, c: nat)
    requires c < |w.clients| && c < |v.clients|
  {
    var x, y := w.clients[c], v.clients[c];
    Held(y) == None || (y.sock == x.sock && y.calls == x.calls && Held(y) == Held(x))
  }

  /** ... or is given a new one. */
  predicate Gets(w: World, v: World, c: nat)
    requires c < |w.clients| && c < |v.clients| && |w.sockets| == |v.sockets|
  {
    var x, y := w.clients[c], v.clients[c];
    && y.sock < |w.sockets| && Held(y) == Some(|w.sockets[y.sock].delivered|)
    && Held(y).value < |v.sockets[y.sock].delivered|
  }

  /** What one step does to the replies that clients hold. */
  ghost predicate Fresh(w: World, v: World) {
    && |v.clients| == |w.clients| && |v.sockets| == |w.sockets|
    && (forall s :: 0 <= s < |w.sockets| ==> |w.sockets[s].delivered| <= |v.sockets[s].delivered|)
    && (forall c :: 0 <= c < |w.clients| ==> Keeps(w, v, c) || Gets(w, v, c))
    && (forall c, d :: 0 <= c < |w.clients| && 0 <= d < |w.clients| && c != d ==> Keeps(w, v, c) || Keeps(w, v, d))
  }

  lemma WorkIsFresh(w: World, s: nat)
    requires Inv(w) && Enabled(w, Work(s))
    ensures Fresh(w, Step(w, Work(s)))
  {
    var v, k := Step(w, Work(s)), w.sockets[s];
    WorkExclusive(w, s);
    WorkCounts(w, k);
    hide Inv, Exclusive, RxSocket, RxBuf, RxPbufs, RxClients, Enabled;
  }

  lemma WorkCounts(w: World, k: Socket)
    ensures var n := |RxSocket(w, k).delivered|;
            n == if k.rx.pc == Reply && k.rx.msg != None then |k.delivered| + 1 else |k.delivered|
  {
  }

  lemma MoveIsFresh(w: World, e: Event)
    requires Enabled(w, e) && !e.Work? && !e.Arrive?
    ensures Fresh(w, Step(w, e))
  {
    hide RxSocket, RxBuf, RxPbufs, RxClients, Enqueue;
  }

  lemma ArriveIsFresh(w: World, s: nat, chain: seq<Bytes>, addr: Addr, port: Port)
    requires s < |w.sockets|
    ensures Fresh(w, Step(w, Arrive(s, chain, addr, port)))
  {
  }

  lemma StepIsFresh(w: World, e: Event)
    requires Inv(w) && Enabled(w, e)
    ensures Fresh(w, Step(w, e))
  {
    hide Inv, Enabled, Fresh, Step;
    match e
    case Arrive(s, chain, addr, port) =>
      EnabledArrive(w, e);
      ArriveIsFresh(w, s, chain, addr, port);
    case Work(s) => WorkIsFresh(w, s);
    case _ => MoveIsFresh(w, e);
  }

  lemma EnabledArrive(w: World, e: Event)
    requires Enabled(w, e) && e.Arrive?
    ensures e.s < |w.sockets|
  {
  }

  lemma FreshKeepsTickets(w: World, v: World)
    requires TicketsOk(w) && Fresh(w, v)
    ensures TicketsOk(v)
  {
    hide Held;
    forall c | 0 <= c < |v.clients| && Held(v.clients[c]).Some?
      ensures v.clients[c].sock < |v.sockets| && Held(v.clients[c]).value < |v.sockets[v.clients[c].sock].delivered|
    {
      assert Keeps(w, v, c) || Gets(w, v, c);
    }
    forall c, d | 0 <= c < |v.clients| && 0 <= d < |v.clients| && Share(v.clients[c], v.clients[d]) ensures c == d
    {
      assert Keeps(w, v, c) || Gets(w, v, c);
      assert Keeps(w, v, d) || Gets(w, v, d);
      assert Share(w.clients[c], w.clients[d]) ==> c == d;
    }
  }

  lemma {:induction false} RunKeepsTickets(w: World, events: seq<Event>)
    requires Inv(w) && TicketsOk(w)
    ensures Inv(Run(w, events)) && TicketsOk(Run(w, events))
    decreases |events|
  {
    hide Inv, TicketsOk, Step, Enabled;
    if events != [] {
      var before, e := Run(w, events[..|events| - 1]), events[|events| - 1];
      RunKeepsTickets(w, events[..|events| - 1]);
      StepKeeps(before, e);
      if Enabled(before, e) {
        StepIsFresh(before, e);
        FreshKeepsTickets(before, Step(before, e));
      } else {
        DisabledStep(before, e);
      }
    }
  }

  lemma DisabledStep(w: World, e: Event)
    requires !Enabled(w, e)
    ensures Step(w, e) == w
  {
  }

  lemma StartTickets(buf: Bytes, slots: seq<Message>, sockets: nat, clients: nat)
    ensures TicketsOk(Start(buf, slots, sockets, clients))
  {
    var w := Start(buf, slots, sockets, clients);
    hide NewSocket;
    assert forall c :: 0 <= c < |w.clients| ==> Held(w.clients[c]) == None;
  }

  lemma ReachableTickets(w: World)
    requires Reachable(w)
    ensures TicketsOk(w)
  {
    var buf, slots, sockets, clients, events :| w == Run(Start(buf, slots, sockets, clients), events);
    hide Inv, TicketsOk, Start, Run;
    StartInv(buf, slots, sockets, clients);
    StartTickets(buf, slots, sockets, clients);
    RunKeepsTickets(Start(buf, slots, sockets, clients), events);
  }

  /** Two clients of a socket never hold the same reply. */
  lemma RepliesAreNotShared(w: World, c: nat, d: nat, j: nat)
    requires Reachable(w) && c < |w.clients| && d < |w.clients| && w.clients[c].sock == w.clients[d].sock
    requires Held(w.clients[c]) == Some(j) && Held(w.clients[d]) == Some(j)
    ensures c == d
  {
    ReachableTickets(w);
    assert Share(w.clients[c], w.clients[d]);
  }

  /** Reply `j` of socket `s` is held by nobody, or by client `c` in its call number `calls`. */
  ghost predicate OnlyHolder(w: World, s: nat, j: nat, c: nat, calls: nat) {
    && s < |w.sockets| && j < |w.sockets[s].delivered|
    && forall d :: 0 <= d < |w.clients| && HoldsReply(w.clients[d], s, j) ==> d == c && w.clients[d].calls == calls
  }

  lemma FreshKeepsHolder(w: World, v: World, s: nat, j: nat, c: nat, calls: nat)
    requires OnlyHolder(w, s, j, c, calls) && Fresh(w, v)
    ensures OnlyHolder(v, s, j, c, calls)
  {
    hide Held;
    forall d | 0 <= d < |v.clients| && HoldsReply(v.clients[d], s, j) ensures d == c && v.clients[d].calls == calls {
      assert Keeps(w, v, d) || Gets(w, v, d);
      assert HoldsReply(w.clients[d], s, j);
    }
  }

  lemma {:induction false} RunKeepsHolder(w: World, events: seq<Event>, s: nat, j: nat, c: nat, calls: nat)
    requires Inv(w) && OnlyHolder(w, s, j, c, calls)
    ensures Inv(Run(w, events)) && OnlyHolder(Run(w, events), s, j, c, calls)
    decreases |events|
  {
    hide Inv, OnlyHolder, Step, Enabled;
    if events != [] {
      var before, e := Run(w, events[..|events| - 1]), events[|events| - 1];
      RunKeepsHolder(w, events[..|events| - 1], s, j, c, calls);
      StepKeeps(before, e);
      if Enabled(before, e) {
        StepIsFresh(before, e);
        FreshKeepsHolder(before, Step(before, e), s, j, c, calls);
      } else {
        DisabledStep(before, e);
      }
    }
  }

  /** Over any run each reply goes to one call: whoever holds it later is the same client, still in,
      or just after, the same call. */
  lemma EachReplyToOneCall(w: World, events: seq<Event>, c: nat, d: nat, j: nat)
    requires Reachable(w) && c < |w.clients| && Held(w.clients[c]) == Some(j)
    requires var v := Run(w, events); d < |v.clients| && HoldsReply(v.clients[d], w.clients[c].sock, j)
    ensures d == c && Run(w, events).clients[d].calls == w.clients[c].calls
  {
    var s := w.clients[c].sock;
    ReachableInv(w);
    ReachableTickets(w);
    hide Inv, Run, Reachable, Held;
    forall i | 0 <= i < |w.clients| && HoldsReply(w.clients[i], s, j) ensures i == c {
      assert Share(w.clients[c], w.clients[i]);
    }
    RunKeepsHolder(w, events, s, j, c, w.clients[c].calls);
  }
}
