/** The transmit path, call by call: what a sender asks for, what each event makes of it, and that every
    send is answered. */
module UdpTransmitCalls {
  import opened PoolModel
  import opened UdpTransmit
  import opened UdpTransmitLaws

  // ---------- asking ----------

  /** A thread that is not sending can always begin to send a message smaller than the buffer, on any
      socket; then it is sending that message, and nothing else has changed. */
  lemma BeginAsks(w: World, c: nat, s: nat, msg: Bytes, addr: Addr, port: Port)
    requires c < |w.senders| && s < |w.txs| && |msg| < |w.buf| && w.senders[c].pc == Outside
    ensures Enabled(w, Begin(c, s, msg, addr, port))
    ensures var v := Step(w, Begin(c, s, msg, addr, port));
            && |v.senders| == |w.senders| && v == w.(senders := v.senders)
            && Asked(v.senders[c]) == Packet(s, msg, addr, port)
            && v.senders[c].pc == Taking && v.senders[c].nth == w.senders[c].nth + 1 && v.senders[c].result == None
            && forall d :: 0 <= d < |w.senders| && d != c ==> v.senders[d] == w.senders[d]
  {
  }

  lemma EnabledBegin(w: World, e: Event)
    requires e.Begin? && Enabled(w, e)
    ensures e.c < |w.senders| && e.sock < |w.txs| && |e.msg| < |w.buf| && w.senders[e.c].pc == Outside
  {
  }

  /** What a thread has asked to be sent does not change before its next send. */
  lemma AskedStays(w: World, e: Event, c: nat)
    requires c < |w.senders| && !(e.Begin? && e.c == c)
    ensures |Step(w, e).senders| == |w.senders|
    ensures Asked(Step(w, e).senders[c]) == Asked(w.senders[c]) && Step(w, e).senders[c].nth == w.senders[c].nth
  {
  }

  lemma DisabledStep(w: World, e: Event)
    requires !Enabled(w, e)
    ensures Step(w, e) == w
  {
  }

  /** The last send that thread `c` has begun in a run. */
  function LastAsked(w: World, events: seq<Event>, c: nat): Option<Packet>
    decreases |events|
  {
    if events == [] then None
    else
      var before, e := events[..|events| - 1], events[|events| - 1];
      if e.Begin? && e.c == c && Enabled(Run(w, before), e) then Some(Packet(e.sock, e.msg, e.addr, e.port))
      else LastAsked(w, before, c)
  }

  /** Over any run what a thread asks for is what it gave to the last send it has begun. */
  lemma {:induction false} AsksWhatItBegan(w: World, events: seq<Event>, c: nat)
    requires c < |w.senders| && w.senders[c].nth == 0
    ensures |Run(w, events).senders| == |w.senders|
    ensures LastAsked(w, events, c) == if Run(w, events).senders[c].nth == 0 then None else Some(Asked(Run(w, events).senders[c]))
    decreases |events|
  {
    hide Step, Enabled, Asked;
    if events != [] {
      var before, e := events[..|events| - 1], events[|events| - 1];
      var v := Run(w, before);
      AsksWhatItBegan(w, before, c);
      if !Enabled(v, e) {
        DisabledStep(v, e);
      } else if e.Begin? && e.c == c {
        EnabledBegin(v, e);
        BeginAsks(v, c, e.sock, e.msg, e.addr, e.port);
      } else {
        AskedStays(v, e, c);
      }
    }
  }

  /** A thread that is in a send has begun one. */
  ghost predicate Begun(w: World) {
    forall c :: 0 <= c < |w.senders| && (w.senders[c].pc != Outside || w.senders[c].result.Some?) ==> w.senders[c].nth > 0
  }

  lemma {:induction false} RunKeepsBegun(w: World, events: seq<Event>)
    requires Inv(w) && Begun(w)
    ensures Begun(Run(w, events))
    decreases |events|
  {
    hide Inv, Begun, Step;
    if events != [] {
      RunKeeps(w, events[..|events| - 1]);
      RunKeepsBegun(w, events[..|events| - 1]);
      StepKeepsBegun(Run(w, events[..|events| - 1]), events[|events| - 1]);
    }
  }

  lemma StepKeepsBegun(w: World, e: Event)
    requires Inv(w) && Begun(w)
    ensures Begun(Step(w, e))
  {
    hide BufferOk, HistoryOk;
  }

  // ---------- serving ----------

  /** The event that hands a packet to the network stack records that the caller's send has been sent, with
      the stack's own result. */
  lemma SendTransmits(w: World, s: nat, error: int)
    requires Inv(w) && Enabled(w, Send(s, error))
    ensures var v, c := Step(w, Send(s, error)), w.txs[s].caller;
            && c < |w.senders| && w.senders[c].pc == InCall && w.senders[c].sock == s
            && v.packets == w.packets + [Asked(w.senders[c])]
            && v.outcomes == w.outcomes + [Outcome(c, w.senders[c].nth, Asked(w.senders[c]), true, error)]
            && v.senders == w.senders && |v.txs| == |w.txs| && v.txs[s].pc == Answering
  {
    assert TxOk(w.senders, s, w.txs[s]);
    hide BufferOk, HistoryOk;
  }

  /** Where a packet buffer is obtained nothing is decided: the thread goes on to copy. */
  lemma AllocateGoesOn(w: World, s: nat)
    requires Inv(w) && Enabled(w, Allocate(s, true))
    ensures var v := Step(w, Allocate(s, true));
            && v == w.(txs := w.txs[s := v.txs[s]]) && v.txs[s] == w.txs[s].(pc := v.txs[s].pc)
            && v.txs[s].pc == Copying && v.txs[s].payload == []
  {
    assert TxOk(w.senders, s, w.txs[s]);
  }

  /** Where there is none the send is recorded as not sent, and nothing is handed over. */
  lemma AllocateFails(w: World, s: nat)
    requires Inv(w) && Enabled(w, Allocate(s, false))
    ensures var v, c := Step(w, Allocate(s, false)), w.txs[s].caller;
            && c < |w.senders| && v.packets == w.packets && v.senders == w.senders
            && v.outcomes == w.outcomes + [Outcome(c, w.senders[c].nth, Asked(w.senders[c]), false, ERR_MEM)]
  {
    assert TxOk(w.senders, s, w.txs[s]);
  }

  /** The answer gives the caller the result of the outcome recorded last, which is that of its send. */
  lemma AnswerTells(w: World, s: nat)
    requires Inv(w) && Enabled(w, Answer(s))
    ensures var v, c := Step(w, Answer(s)), w.txs[s].caller;
            && c < |w.senders| && |v.senders| == |w.senders| && w.outcomes != [] && v.outcomes == w.outcomes
            && v.senders[c].pc == Giving && v.senders[c].result == Some(w.outcomes[|w.outcomes| - 1].error)
            && w.outcomes[|w.outcomes| - 1].sender == c && w.outcomes[|w.outcomes| - 1].nth == w.senders[c].nth
  {
    assert AnswerOk(w, s);
  }

  /** No other event decides anything. */
  lemma OthersDecideNothing(w: World, e: Event)
    requires !Enabled(w, e) || (!e.Send? && !(e.Allocate? && !e.ok))
    ensures Step(w, e).outcomes == w.outcomes && Step(w, e).packets == w.packets
  {
  }

  /** How many outcomes are of this kind. */
  function Count(outcomes: seq<Outcome>, sent: bool): nat
    decreases |outcomes|
  {
    if outcomes == [] then 0
    else Count(outcomes[..|outcomes| - 1], sent) + if outcomes[|outcomes| - 1].sent == sent then 1 else 0
  }

  lemma CountAppend(outcomes: seq<Outcome>, o: Outcome, sent: bool)
    ensures Count(outcomes + [o], sent) == Count(outcomes, sent) + if o.sent == sent then 1 else 0
  {
    assert (outcomes + [o])[..|outcomes|] == outcomes;
  }

  /** How often the network stack was given a packet in a run, or had no buffer for one. */
  function Decisions(w: World, events: seq<Event>, sent: bool): nat
    decreases |events|
  {
    if events == [] then 0
    else
      var before, e := events[..|events| - 1], events[|events| - 1];
      Decisions(w, before, sent)
        + if Enabled(Run(w, before), e) && (if sent then e.Send? else e.Allocate? && !e.ok) then 1 else 0
  }

  /** Over any run a send fails for want of a buffer exactly as often as the network stack had none, and
      is sent exactly as often as the stack was given a packet. */
  lemma {:induction false} OutcomesAreTheDecisions(w: World, events: seq<Event>, sent: bool)
    requires Inv(w)
    ensures Count(Run(w, events).outcomes, sent) == Count(w.outcomes, sent) + Decisions(w, events, sent)
    decreases |events|
  {
    hide Inv, Step, Enabled, Asked, Count;
    if events != [] {
      var before, e := events[..|events| - 1], events[|events| - 1];
      var v := Run(w, before);
      OutcomesAreTheDecisions(w, before, sent);
      RunKeeps(w, before);
      if Enabled(v, e) && e.Send? {
        SendTransmits(v, e.s, e.error);
        CountAppend(v.outcomes, Step(v, e).outcomes[|v.outcomes|], sent);
      } else if Enabled(v, e) && e.Allocate? && !e.ok {
        AllocateFails(v, e.s);
        CountAppend(v.outcomes, Step(v, e).outcomes[|v.outcomes|], sent);
      } else {
        OthersDecideNothing(v, e);
      }
    }
  }

  // ---------- one call ----------

  function Copies(s: nat, n: nat): seq<Event> { seq(n, i => Copy(s)) }

  lemma RunOne(w: World, events: seq<Event>, e: Event)
    ensures Run(w, events + [e]) == Step(Run(w, events), e)
  {
    assert (events + [e])[..|events|] == events;
  }

  lemma LengthFits(w: World, s: nat)
    requires Inv(w) && s < |w.txs| && w.txs[s].pc != Waiting
    ensures w.txs[s].len < |w.buf|
  {
    assert TxOk(w.senders, s, w.txs[s]) && SenderOk(w.buf, w.senders[w.txs[s].caller]);
  }

  lemma {:induction false} SomeCopies(w: World, s: nat, n: nat)
    requires Inv(w) && s < |w.txs| && w.txs[s].pc == Copying && w.txs[s].payload == [] && n <= w.txs[s].len
    ensures var v := Run(w, Copies(s, n));
            && |v.txs| == |w.txs| && v == w.(txs := w.txs[s := v.txs[s]])
            && v.txs[s] == w.txs[s].(payload := v.txs[s].payload) && |v.txs[s].payload| == n
  {
    LengthFits(w, s);
    hide Inv;
    if n == 0 {
      assert Copies(s, 0) == [];
    } else {
      SomeCopies(w, s, n - 1);
      assert Copies(s, n) == Copies(s, n - 1) + [Copy(s)];
      RunOne(w, Copies(s, n - 1), Copy(s));
    }
  }

  /** The events by which a transmit thread serves a call for `len` bytes, when all goes well. */
  function Service(s: nat, len: nat, error: int): seq<Event> {
    [Allocate(s, true)] + Copies(s, len + 1) + [Send(s, error)]
  }

  lemma {:induction false} RunAppend(w: World, a: seq<Event>, b: seq<Event>)
    ensures Run(Run(w, a), b) == Run(w, a + b)
    decreases |b|
  {
    hide Step;
    if b == [] {
      assert a + b == a;
    } else {
      assert (a + b)[..|a + b| - 1] == a + b[..|b| - 1];
      RunAppend(w, a, b[..|b| - 1]);
    }
  }

  lemma AllCopies(w: World, s: nat)
    requires Inv(w) && s < |w.txs| && w.txs[s].pc == Copying && w.txs[s].payload == []
    ensures var v := Run(w, Copies(s, w.txs[s].len + 1));
            && Inv(v) && |v.txs| == |w.txs| && v == w.(txs := w.txs[s := v.txs[s]])
            && v.txs[s].pc == Sending && v.txs[s].caller == w.txs[s].caller
  {
    var n := w.txs[s].len;
    SomeCopies(w, s, n);
    RunKeeps(w, Copies(s, n + 1));
    CopiesOneMore(s, n);
    hide Inv, Run, Step, Copies;
    RunOne(w, Copies(s, n), Copy(s));
    LastCopy(Run(w, Copies(s, n)), s);
  }

  lemma CopiesOneMore(s: nat, n: nat)
    ensures Copies(s, n + 1) == Copies(s, n) + [Copy(s)]
  {
  }

  /** A copy that finds the packet complete ends the loop. */
  lemma LastCopy(w: World, s: nat)
    requires s < |w.txs| && w.txs[s].pc == Copying && |w.txs[s].payload| == w.txs[s].len
    ensures var v := Step(w, Copy(s));
            && |v.txs| == |w.txs| && v == w.(txs := w.txs[s := v.txs[s]])
            && v.txs[s] == w.txs[s].(pc := Sending)
  {
  }

  /** A call that a transmit thread has taken, served in that way, appends exactly one packet: what its
      caller asked for. */
  lemma ServiceSends(w: World, s: nat, error: int)
    requires Inv(w) && s < |w.txs| && w.txs[s].pc == Called
    ensures var v, c := Run(w, Service(s, w.txs[s].len, error)), w.txs[s].caller;
            && c < |w.senders| && v.packets == w.packets + [Asked(w.senders[c])]
            && v.outcomes == w.outcomes + [Outcome(c, w.senders[c].nth, Asked(w.senders[c]), true, error)]
            && s < |v.txs| && v.txs[s].pc == Answering
  {
    var n := w.txs[s].len;
    EnabledAllocate(w, s);
    AllocateGoesOn(w, s);
    AllocatedInv(w, s);
    var v1 := Step(w, Allocate(s, true));
    hide Inv, Step, Copies, Enabled, Asked;
    AllCopies(v1, s);
    hide Run;
    var v2 := Run(v1, Copies(s, n + 1));
    EnabledSend(v2, s, error);
    SendTransmits(v2, s, error);
    ServiceRun(w, s, n, error);
  }

  lemma EnabledAllocate(w: World, s: nat)
    requires s < |w.txs| && w.txs[s].pc == Called
    ensures Enabled(w, Allocate(s, true))
  {
  }

  lemma EnabledSend(w: World, s: nat, error: int)
    requires s < |w.txs| && w.txs[s].pc == Sending
    ensures Enabled(w, Send(s, error))
  {
  }

  lemma AllocatedInv(w: World, s: nat)
    requires Inv(w)
    ensures Inv(Step(w, Allocate(s, true)))
  {
    RunOne(w, [], Allocate(s, true));
    hide Inv, Step;
    RunKeeps(w, [] + [Allocate(s, true)]);
  }

  lemma ServiceRun(w: World, s: nat, len: nat, error: int)
    ensures Run(w, Service(s, len, error)) == Step(Run(Step(w, Allocate(s, true)), Copies(s, len + 1)), Send(s, error))
  {
    hide Step, Copies;
    RunOne(w, [], Allocate(s, true));
    assert [] + [Allocate(s, true)] == [Allocate(s, true)];
    RunAppend(w, [Allocate(s, true)], Copies(s, len + 1));
    RunOne(w, [Allocate(s, true)] + Copies(s, len + 1), Send(s, error));
  }

  /** From the start: the packet appended is the one given to the last send that the caller has begun. */
  lemma ServiceSendsWhatWasGiven(buf: Bytes, sockets: nat, senders: nat, events: seq<Event>, s: nat, error: int)
    requires var w := Run(Start(buf, sockets, senders), events); s < |w.txs| && w.txs[s].pc == Called
    ensures var w0 := Start(buf, sockets, senders);
            var w := Run(w0, events);
            var given := LastAsked(w0, events, w.txs[s].caller);
            given.Some? && Run(w, Service(s, w.txs[s].len, error)).packets == w.packets + [given.value]
  {
    var w0 := Start(buf, sockets, senders);
    var w := Run(w0, events);
    StartInv(buf, sockets, senders);
    RunKeeps(w0, events);
    RunKeepsBegun(w0, events);
    CallerIsInCall(w, s);
    SendersStay(w0, events);
    AsksWhatItBegan(w0, events, w.txs[s].caller);
    hide Run, Service, LastAsked, Inv;
    ServiceSends(w, s, error);
  }

  lemma CallerIsInCall(w: World, s: nat)
    requires Inv(w) && s < |w.txs| && w.txs[s].pc != Waiting
    ensures w.txs[s].caller < |w.senders| && w.senders[w.txs[s].caller].pc == InCall
  {
  }

  lemma {:induction false} SendersStay(w: World, events: seq<Event>)
    ensures |Run(w, events).senders| == |w.senders|
    decreases |events|
  {
    if events != [] {
      SendersStay(w, events[..|events| - 1]);
    }
  }
}
