/** The receive path, call by call: what a client asks for, that every call is answered, by whom, and
    that what it was given stays with it. */
module UdpCalls {
  import opened PoolModel
  import opened UdpModel
  import opened UdpBuffer
  import opened UdpLaws
  import opened UdpTickets

  // ---------- asking ----------

  /** A client outside a call can always begin one, on any socket and for any positive length; from then
      on it is in that call, with nothing received yet, and no other client is touched. */
  lemma BeginAsks(w: World, c: nat, s: nat, n: nat)
    requires c < |w.clients| && s < |w.sockets| && n > 0 && w.clients[c].pc == Idle
    ensures Enabled(w, Begin(c, s, n))
    ensures var v := Step(w, Begin(c, s, n));
            && |v.clients| == |w.clients| && v.sockets == w.sockets
            && v.clients[c].pc == Waiting && v.clients[c].sock == s && v.clients[c].maxLen == n
            && v.clients[c].calls == w.clients[c].calls + 1 && v.clients[c].result == None
            && forall d :: 0 <= d < |w.clients| && d != c ==> v.clients[d] == w.clients[d]
  {
  }

  /** What it asked for does not change before it begins its next call. */
  lemma AskedStays(w: World, e: Event, c: nat)
    requires c < |w.clients| && !(e.Begin? && e.c == c)
    ensures |Step(w, e).clients| == |w.clients|
    ensures var x, y := w.clients[c], Step(w, e).clients[c];
            y.sock == x.sock && y.maxLen == x.maxLen && y.calls == x.calls
  {
    hide RxSocket, RxBuf, RxPbufs, Enqueue, NewPbuf, ReadOut;
  }

  /** The last call that client `c` has begun in a run: socket and length. */
  function LastAsked(w: World, events: seq<Event>, c: nat): Option<(nat, nat)>
    decreases |events|
  {
    if events == [] then None
    else
      var before, e := events[..|events| - 1], events[|events| - 1];
      if e.Begin? && e.c == c && Enabled(Run(w, before), e) then Some((e.sock, e.maxLen)) else LastAsked(w, before, c)
  }

  lemma DisabledBegin(w: World, e: Event)
    requires !Enabled(w, e)
    ensures Step(w, e) == w
  {
  }

  lemma EnabledBegin(w: World, e: Event)
    requires e.Begin? && Enabled(w, e)
    ensures e.c < |w.clients| && e.sock < |w.sockets| && e.maxLen > 0 && w.clients[e.c].pc == Idle
  {
  }

  /** Over any run a client's socket and length are those of the last call it has begun. */
  lemma {:induction false} AsksWhatItBegan(w: World, events: seq<Event>, c: nat)
    requires c < |w.clients|
    ensures |Run(w, events).clients| == |w.clients|
    ensures LastAsked(w, events, c).Some? ==>
              (Run(w, events).clients[c].sock, Run(w, events).clients[c].maxLen) == LastAsked(w, events, c).value
    decreases |events|
  {
    hide Step, Enabled;
    if events != [] {
      var before, e := events[..|events| - 1], events[|events| - 1];
      var v := Run(w, before);
      AsksWhatItBegan(w, before, c);
      if !Enabled(v, e) {
        DisabledBegin(v, e);
      } else if e.Begin? && e.c == c {
        EnabledBegin(v, e);
        BeginAsks(v, c, e.sock, e.maxLen);
      } else {
        AskedStays(v, e, c);
      }
    }
  }

  // ---------- being answered ----------

  /** What the step of a receive thread that replies does to the client it serves. */
  lemma ReplyStep(w: World, s: nat)
    requires Inv(w) && Enabled(w, Work(s)) && w.sockets[s].rx.pc == Reply
    ensures var v, k := Step(w, Work(s)), w.sockets[s];
            var c := k.rx.client;
            && c < |w.clients| && w.clients[c].pc == InCall && w.clients[c].sock == s
            && |v.clients| == |w.clients| && |v.sockets| == |w.sockets|
            && v.clients[c].pc == Copying && v.clients[c].sock == s
            && (if k.rx.msg.Some? then
                  && |v.sockets[s].delivered| == |k.delivered| + 1 && v.sockets[s].empties == k.empties
                  && HoldsReply(v.clients[c], s, |k.delivered|)
                else
                  && v.sockets[s].delivered == k.delivered && v.sockets[s].empties == k.empties + 1
                  && Held(v.clients[c]) == None)
            && forall d :: 0 <= d < |w.clients| && d != c ==> v.clients[d] == w.clients[d]
  {
    WorkExclusive(w, s);
    hide Inv, Exclusive, RxPbufs, RxBuf;
  }

  lemma OtherWork(w: World, s: nat)
    requires Enabled(w, Work(s)) && w.sockets[s].rx.pc != Reply
    ensures var v, k := Step(w, Work(s)), w.sockets[s];
            && v.clients == w.clients && |v.sockets| == |w.sockets|
            && v.sockets[s].delivered == k.delivered && v.sockets[s].empties == k.empties
  {
  }

  lemma OtherEvent(w: World, e: Event, s: nat)
    requires s < |w.sockets| && !e.Work?
    ensures s < |Step(w, e).sockets|
    ensures Step(w, e).sockets[s].delivered == w.sockets[s].delivered && Step(w, e).sockets[s].empties == w.sockets[s].empties
  {
    hide RxSocket, RxBuf, RxPbufs, RxClients, ReadOut;
  }

  lemma EnabledWork(w: World, s: nat)
    requires Enabled(w, Work(s))
    ensures s < |w.sockets|
  {
  }

  lemma OtherSocket(w: World, s: nat, t: nat)
    requires s < |w.sockets| && s != t && t < |w.sockets|
    ensures t < |Step(w, Work(s)).sockets| && Step(w, Work(s)).sockets[t] == w.sockets[t]
  {
    hide RxSocket, RxBuf, RxPbufs, RxClients;
  }

  /** A datagram is delivered to a client: whenever the replies of a socket grow, it is by one, and a
      client that was in a call on that socket is the one that holds it. */
  lemma DeliveredToACaller(w: World, e: Event, s: nat)
    requires Reachable(w) && s < |w.sockets|
    ensures s < |Step(w, e).sockets| && |Step(w, e).clients| == |w.clients|
    ensures var v := Step(w, e);
            v.sockets[s].delivered != w.sockets[s].delivered ==>
              && |v.sockets[s].delivered| == |w.sockets[s].delivered| + 1
              && exists c :: 0 <= c < |w.clients| && w.clients[c].pc == InCall && w.clients[c].sock == s
                    && HoldsReply(v.clients[c], s, |w.sockets[s].delivered|)
  {
    ReachableInv(w);
    ClientsStay(w, e);
    hide Step, Inv, Reachable, Enabled, HoldsReply;
    if !Enabled(w, e) {
      DisabledBegin(w, e);
    } else if e.Work? {
      EnabledWork(w, e.s);
      if e.s != s {
        OtherSocket(w, e.s, s);
      } else if w.sockets[s].rx.pc == Reply {
        ReplyStep(w, s);
      } else {
        OtherWork(w, s);
      }
    } else {
      OtherEvent(w, e, s);
    }
  }

  lemma ClientsStay(w: World, e: Event)
    ensures |Step(w, e).clients| == |w.clients|
  {
    hide RxSocket, RxBuf, RxPbufs, Enqueue, NewPbuf, ReadOut;
  }

  /** A call that leaves its receive thread has been answered: with the next reply of its socket, which the
      client then holds, or without data, which the socket counts. */
  lemma CallIsAnswered(w: World, e: Event, c: nat)
    requires Reachable(w) && c < |w.clients| && w.clients[c].pc == InCall
    ensures c < |Step(w, e).clients|
    ensures var v, s := Step(w, e), w.clients[c].sock;
            && s < |w.sockets| && s < |v.sockets|
            && (v.clients[c].pc != InCall ==>
                  && v.clients[c].pc == Copying && v.clients[c].sock == s
                  && (if Held(v.clients[c]).Some? then
                        && HoldsReply(v.clients[c], s, |w.sockets[s].delivered|)
                        && |v.sockets[s].delivered| == |w.sockets[s].delivered| + 1
                      else
                        && v.sockets[s].empties == w.sockets[s].empties + 1
                        && v.sockets[s].delivered == w.sockets[s].delivered))
  {
    var s := w.clients[c].sock;
    ReachableInv(w);
    ClientsStay(w, e);
    InCallSocket(w, c);
    hide Step, Inv, Reachable, Enabled;
    if !Enabled(w, e) {
      DisabledBegin(w, e);
    } else if e.Work? {
      EnabledWork(w, e.s);
      if w.sockets[e.s].rx.pc == Reply {
        ReplyStep(w, e.s);
      } else {
        OtherWork(w, e.s);
      }
    } else {
      OtherEvent(w, e, s);
      InCallWaits(w, e, c);
    }
  }

  lemma InCallSocket(w: World, c: nat)
    requires Inv(w) && c < |w.clients| && w.clients[c].pc == InCall
    ensures w.clients[c].sock < |w.sockets|
  {
  }

  lemma InCallWaits(w: World, e: Event, c: nat)
    requires Enabled(w, e) && !e.Work? && c < |w.clients| && w.clients[c].pc == InCall
    ensures c < |Step(w, e).clients| && Step(w, e).clients[c] == w.clients[c]
  {
    hide RxSocket, RxBuf, RxPbufs, RxClients, ReadOut, Enqueue, NewPbuf;
  }

  // ---------- keeping it ----------

  /** A client that holds a reply, or has been told that there is none, keeps it through every event but
      the beginning of its own next call. */
  lemma ReplyStays(w: World, e: Event, c: nat, j: nat)
    requires Reachable(w) && c < |w.clients| && Held(w.clients[c]) == Some(j) && !(e.Begin? && e.c == c)
    ensures c < |Step(w, e).clients| && HoldsReply(Step(w, e).clients[c], w.clients[c].sock, j)
  {
    ReachableInv(w);
    HoldersAreOut(w, c);
    ClientsStay(w, e);
    hide Step, Inv, Reachable, Enabled;
    if !Enabled(w, e) {
      DisabledBegin(w, e);
    } else if e.Work? {
      EnabledWork(w, e.s);
      if w.sockets[e.s].rx.pc == Reply {
        ReplyStep(w, e.s);
      } else {
        OtherWork(w, e.s);
      }
    } else {
      MoveKeepsHeld(w, e, c);
    }
  }

  lemma MoveKeepsHeld(w: World, e: Event, c: nat)
    requires Enabled(w, e) && !e.Work? && c < |w.clients| && Held(w.clients[c]).Some? && !(e.Begin? && e.c == c)
    requires w.clients[c].pc == Copying || w.clients[c].pc == Giving || w.clients[c].pc == Idle
    ensures c < |Step(w, e).clients| && HoldsReply(Step(w, e).clients[c], w.clients[c].sock, Held(w.clients[c]).value)
  {
    hide RxSocket, RxBuf, RxPbufs, RxClients, Enqueue, NewPbuf;
  }

  /** Only a client that has been answered has something, and one that is outside or about to leave its
      call has been told its result. */
  predicate HasResult(x: Client) {
    match x.pc
    case Idle => x.result.Some? <==> x.calls > 0
    case Giving => x.result.Some? && x.calls > 0
    case Waiting | Taking | Calling | InCall | Copying => x.result == None && x.calls > 0
  }

  ghost predicate ResultsOk(w: World) {
    forall c :: 0 <= c < |w.clients| ==> HasResult(w.clients[c])
  }

  lemma StepKeepsResults(w: World, e: Event)
    requires Inv(w) && ResultsOk(w)
    ensures ResultsOk(Step(w, e))
  {
    hide Step, Inv, Enabled, ResultsOk;
    if !Enabled(w, e) {
      DisabledBegin(w, e);
    } else if e.Work? {
      WorkKeepsResults(w, e.s);
    } else {
      MoveKeepsResults(w, e);
    }
  }

  lemma WorkKeepsResults(w: World, s: nat)
    requires Inv(w) && ResultsOk(w) && Enabled(w, Work(s))
    ensures ResultsOk(Step(w, Work(s)))
  {
    EnabledWork(w, s);
    hide Step, Inv, Enabled;
    if w.sockets[s].rx.pc == Reply {
      ReplyStep(w, s);
      ReplyLeavesResult(w, s);
    } else {
      OtherWork(w, s);
    }
  }

  lemma MoveKeepsResults(w: World, e: Event)
    requires ResultsOk(w) && Enabled(w, e) && !e.Work?
    ensures ResultsOk(Step(w, e))
  {
    hide RxSocket, RxBuf, RxPbufs, RxClients, Enqueue, NewPbuf, ReadOut;
  }

  lemma ReplyLeavesResult(w: World, s: nat)
    requires Enabled(w, Work(s)) && w.sockets[s].rx.client < |w.clients|
    ensures var c := w.sockets[s].rx.client;
            c < |Step(w, Work(s)).clients| && Step(w, Work(s)).clients[c].result == w.clients[c].result
            && Step(w, Work(s)).clients[c].calls == w.clients[c].calls
  {
    hide RxSocket, RxBuf, RxPbufs;
  }

  lemma {:induction false} RunKeepsResults(w: World, events: seq<Event>)
    requires Inv(w) && ResultsOk(w)
    ensures Inv(Run(w, events)) && ResultsOk(Run(w, events))
    decreases |events|
  {
    hide Inv, ResultsOk, Step;
    if events != [] {
      RunKeepsResults(w, events[..|events| - 1]);
      StepKeeps(Run(w, events[..|events| - 1]), events[|events| - 1]);
      StepKeepsResults(Run(w, events[..|events| - 1]), events[|events| - 1]);
    }
  }

  /** Every receive call that is over has a result, and no call has one before. */
  lemma CallsReturn(w: World, c: nat)
    requires Reachable(w) && c < |w.clients|
    ensures w.clients[c].pc == Idle ==> (w.clients[c].result.Some? <==> w.clients[c].calls > 0)
    ensures w.clients[c].pc != Idle && w.clients[c].pc != Giving ==> w.clients[c].result == None
  {
    var buf, slots, sockets, clients, events :| w == Run(Start(buf, slots, sockets, clients), events);
    StartInv(buf, slots, sockets, clients);
    RunKeepsResults(Start(buf, slots, sockets, clients), events);
    hide Inv, Run;
  }

  lemma HoldersAreOut(w: World, c: nat)
    requires Reachable(w) && c < |w.clients| && Held(w.clients[c]).Some?
    ensures w.clients[c].pc == Copying || w.clients[c].pc == Giving || w.clients[c].pc == Idle
  {
    CallsReturn(w, c);
  }

  // ---------- arrivals ----------

  /** Every arrival on a socket is followed by a signal, also when its packet is dropped. */
  lemma ArrivalSignals(w: World, s: nat, chain: seq<Bytes>, addr: Addr, port: Port)
    requires s < |w.sockets|
    ensures var v := Step(w, Arrive(s, chain, addr, port));
            && |v.sockets| == |w.sockets| && v.sockets[s].pending == w.sockets[s].pending + 1
            && v.sockets[s].arrivals == w.sockets[s].arrivals + 1
            && |v.pbufs| == |w.pbufs| + 1 && v.pbufs[|w.pbufs|].chain == chain
            && Enabled(v, Signal(s)) && Step(v, Signal(s)).sockets[s].notified
            && Step(v, Signal(s)).sockets[s].pending == w.sockets[s].pending
            && forall t :: 0 <= t < |w.sockets| && t != s ==> v.sockets[t] == w.sockets[t]
  {
  }

  function Arrivals(events: seq<Event>, s: nat): nat
    decreases |events|
  {
    if events == [] then 0
    else
      var e := events[|events| - 1];
      Arrivals(events[..|events| - 1], s) + if e.Arrive? && e.s == s then 1 else 0
  }

  lemma StepCounts(w: World, e: Event, s: nat)
    requires s < |w.sockets|
    ensures s < |Step(w, e).sockets|
    ensures Step(w, e).sockets[s].arrivals == w.sockets[s].arrivals + if e.Arrive? && e.s == s then 1 else 0
  {
    hide RxBuf, RxPbufs, RxClients, ReadOut, NewPbuf;
  }

  /** The history counts the arrivals of a run. */
  lemma {:induction false} ArrivalsAreCounted(w: World, events: seq<Event>, s: nat)
    requires s < |w.sockets|
    ensures s < |Run(w, events).sockets|
    ensures Run(w, events).sockets[s].arrivals == w.sockets[s].arrivals + Arrivals(events, s)
    decreases |events|
  {
    hide Step;
    if events != [] {
      ArrivalsAreCounted(w, events[..|events| - 1], s);
      StepCounts(Run(w, events[..|events| - 1]), events[|events| - 1], s);
    }
  }

  /** So over any run a socket gives no more replies without data than packets arrived for it. */
  lemma SpuriousRepliesPerArrival(buf: Bytes, slots: seq<Message>, sockets: nat, clients: nat, events: seq<Event>, s: nat)
    requires s < sockets
    ensures s < |Run(Start(buf, slots, sockets, clients), events).sockets|
    ensures Run(Start(buf, slots, sockets, clients), events).sockets[s].empties <= Arrivals(events, s)
  {
    var w0 := Start(buf, slots, sockets, clients);
    ArrivalsAreCounted(w0, events, s);
    assert Reachable(Run(w0, events));
    hide Run, Reachable;
    SpuriousRepliesAreBounded(Run(w0, events), s);
  }
}
