/** The transmit path comes to rest: without new sends every schedule ends, and where it ends every send
    that has been begun is over and has been answered. */
module UdpTransmitProgress {
  import opened UdpTransmit
  import opened UdpTransmitLaws
  import opened UdpTransmitCalls

  // ---------- how much is left to do ----------

  function TxWork(k: Tx): nat {
    match k.pc
    case Waiting => 0
    case Answering => 1
    case Sending => 2
    case Copying => 3 + if |k.payload| <= k.len then k.len - |k.payload| else 0
    case Called => 4 + k.len
  }

  /** A sender that has still to be served accounts for the work of serving it. */
  function SenderWork(x: Sender): nat {
    match x.pc
    case Outside => 0
    case Giving => 1
    case InCall => 2
    case Calling => 7 + |x.msg|
    case Filling => 8 + |x.msg| + if x.pos <= |x.msg| then |x.msg| - x.pos else 0
    case Taking => 9 + 2 * |x.msg|
  }

  function TxsWork(txs: seq<Tx>): nat {
    if txs == [] then 0 else TxWork(txs[0]) + TxsWork(txs[1..])
  }

  function SendersWork(senders: seq<Sender>): nat {
    if senders == [] then 0 else SenderWork(senders[0]) + SendersWork(senders[1..])
  }

  function WorkLeft(w: World): nat { TxsWork(w.txs) + SendersWork(w.senders) }

  lemma {:induction false} TxsWorkUpdate(txs: seq<Tx>, i: nat, k: Tx)
    requires i < |txs|
    ensures TxsWork(txs[i := k]) == TxsWork(txs) - TxWork(txs[i]) + TxWork(k)
  {
    if i == 0 {
      assert txs[0 := k][1..] == txs[1..];
    } else {
      assert txs[i := k][1..] == txs[1..][i - 1 := k];
      TxsWorkUpdate(txs[1..], i - 1, k);
    }
  }

  lemma {:induction false} SendersWorkUpdate(senders: seq<Sender>, i: nat, x: Sender)
    requires i < |senders|
    ensures SendersWork(senders[i := x]) == SendersWork(senders) - SenderWork(senders[i]) + SenderWork(x)
  {
    if i == 0 {
      assert senders[0 := x][1..] == senders[1..];
    } else {
      assert senders[i := x][1..] == senders[1..][i - 1 := x];
      SendersWorkUpdate(senders[1..], i - 1, x);
    }
  }

  predicate Internal(e: Event) { !e.Begin? }

  /** A step of a sender, seen in its work alone. */
  lemma SenderMoves(w: World, e: Event)
    requires Inv(w) && Enabled(w, e) && (e.Take? || e.Fill? || e.Give?)
    ensures var v := Step(w, e);
            && e.c < |w.senders| && |v.senders| == |w.senders| && v.txs == w.txs
            && v.senders == w.senders[e.c := v.senders[e.c]] && SenderWork(v.senders[e.c]) < SenderWork(w.senders[e.c])
  {
    assert SenderOk(w.buf, w.senders[e.c]);
    hide Exclusive, HistoryOk;
  }

  lemma SenderProgress(w: World, e: Event)
    requires Inv(w) && Enabled(w, e) && (e.Take? || e.Fill? || e.Give?)
    ensures WorkLeft(Step(w, e)) < WorkLeft(w)
  {
    SenderMoves(w, e);
    hide Inv, TxsWork, SendersWork, Step, Enabled, SenderWork;
    SendersWorkUpdate(w.senders, e.c, Step(w, e).senders[e.c]);
  }

  lemma TxMoves(w: World, e: Event)
    requires Inv(w) && Enabled(w, e) && (e.Allocate? || e.Copy? || e.Send?)
    ensures var v := Step(w, e);
            && e.s < |w.txs| && |v.txs| == |w.txs| && v.senders == w.senders
            && v.txs == w.txs[e.s := v.txs[e.s]] && TxWork(v.txs[e.s]) < TxWork(w.txs[e.s])
  {
    assert TxOk(w.senders, e.s, w.txs[e.s]);
    LengthFits(w, e.s);
    hide Exclusive, HistoryOk;
  }

  lemma TxProgress(w: World, e: Event)
    requires Inv(w) && Enabled(w, e) && (e.Allocate? || e.Copy? || e.Send?)
    ensures WorkLeft(Step(w, e)) < WorkLeft(w)
  {
    TxMoves(w, e);
    hide Inv, TxsWork, SendersWork, Step, Enabled, TxWork;
    TxsWorkUpdate(w.txs, e.s, Step(w, e).txs[e.s]);
  }

  /** A call that is taken or answered moves a sender and its thread. */
  lemma CallMoves(w: World, e: Event, c: nat)
    requires Inv(w) && Enabled(w, e) && (e.Accept? || e.Answer?) && e.s < |w.txs|
    requires c == if e.Accept? then e.c else w.txs[e.s].caller
    ensures var v := Step(w, e);
            && c < |w.senders| && |v.txs| == |w.txs| && |v.senders| == |w.senders|
            && v.txs == w.txs[e.s := v.txs[e.s]] && v.senders == w.senders[c := v.senders[c]]
            && TxWork(v.txs[e.s]) + SenderWork(v.senders[c]) < TxWork(w.txs[e.s]) + SenderWork(w.senders[c])
  {
    hide BufferOk, HistoryOk;
  }

  lemma CallProgress(w: World, e: Event)
    requires Inv(w) && Enabled(w, e) && (e.Accept? || e.Answer?)
    ensures WorkLeft(Step(w, e)) < WorkLeft(w)
  {
    assert e.s < |w.txs|;
    var c := if e.Accept? then e.c else w.txs[e.s].caller;
    CallMoves(w, e, c);
    hide Inv, TxsWork, SendersWork, Step, Enabled, TxWork, SenderWork;
    TxsWorkUpdate(w.txs, e.s, Step(w, e).txs[e.s]);
    SendersWorkUpdate(w.senders, c, Step(w, e).senders[c]);
  }

  lemma StepProgress(w: World, e: Event)
    requires Inv(w) && Enabled(w, e) && Internal(e)
    ensures WorkLeft(Step(w, e)) < WorkLeft(w)
  {
    hide Inv, Enabled, Step, WorkLeft;
    match e
    case Take(_) | Fill(_) | Give(_) => SenderProgress(w, e);
    case Allocate(_, _) | Copy(_) | Send(_, _) => TxProgress(w, e);
    case Accept(_, _) | Answer(_) => CallProgress(w, e);
    case Begin(_, _, _, _, _) =>
  }

  // ---------- schedules ----------

  ghost predicate Schedule(w: World, events: seq<Event>)
    decreases |events|
  {
    if events == [] then true
    else
      var before, e := events[..|events| - 1], events[|events| - 1];
      Schedule(w, before) && Internal(e) && Enabled(Run(w, before), e)
  }

  /** Every schedule ends, whatever the interleaving. */
  lemma {:induction false} SchedulesEnd(w: World, events: seq<Event>)
    requires Inv(w) && Schedule(w, events)
    ensures Inv(Run(w, events)) && |events| + WorkLeft(Run(w, events)) <= WorkLeft(w)
    decreases |events|
  {
    hide Inv, WorkLeft, Step, Enabled;
    RunKeeps(w, events);
    if events != [] {
      var before, e := events[..|events| - 1], events[|events| - 1];
      SchedulesEnd(w, before);
      StepProgress(Run(w, before), e);
    }
  }

  // ---------- at rest ----------

  /** The semaphore is taken only by a sender that holds it; one that has finished a send was answered. */
  ghost predicate SendersOk(w: World) {
    && (w.sem == 0 ==> exists c :: 0 <= c < |w.senders| && Holds(w.senders[c]))
    && (forall c :: 0 <= c < |w.senders| && w.senders[c].pc != Outside ==> w.senders[c].sock < |w.txs|)
    && (forall c :: 0 <= c < |w.senders| && w.senders[c].pc == Giving ==> w.senders[c].result.Some?)
    && (forall c :: 0 <= c < |w.senders| && w.senders[c].pc == Outside && w.senders[c].nth > 0 ==> w.senders[c].result.Some?)
  }

  lemma SenderStepKeeps(w: World, e: Event)
    requires Exclusive(w) && SendersOk(w) && Enabled(w, e) && (e.Begin? || e.Take? || e.Fill? || e.Give?)
    ensures SendersOk(Step(w, e))
  {
    var v := Step(w, e);
    assert forall d :: 0 <= d < |w.senders| && d != e.c ==> v.senders[d] == w.senders[d];
    if v.sem == 0 {
      if e.Take? || e.Fill? {
        assert Holds(v.senders[e.c]);
      } else {
        var c :| 0 <= c < |w.senders| && Holds(w.senders[c]);
        assert Holds(v.senders[c]);
      }
    }
  }

  lemma TxStepKeeps(w: World, e: Event)
    requires Exclusive(w) && SendersOk(w) && Enabled(w, e) && (e.Allocate? || e.Copy? || e.Send?)
    ensures SendersOk(Step(w, e))
  {
    assert Step(w, e).senders == w.senders;
  }

  lemma CallStepKeeps(w: World, e: Event)
    requires Exclusive(w) && SendersOk(w) && Enabled(w, e) && (e.Accept? || e.Answer?)
    ensures SendersOk(Step(w, e))
  {
    var v, c := Step(w, e), if e.Accept? then e.c else w.txs[e.s].caller;
    assert Holds(v.senders[c]);
    assert forall d :: 0 <= d < |w.senders| && d != c ==> v.senders[d] == w.senders[d];
  }

  lemma {:induction false} RunKeepsSenders(w: World, events: seq<Event>)
    requires Inv(w) && SendersOk(w)
    ensures SendersOk(Run(w, events))
    decreases |events|
  {
    hide Exclusive, BufferOk, HistoryOk, SendersOk, Step, Enabled;
    if events != [] {
      var before, e := Run(w, events[..|events| - 1]), events[|events| - 1];
      RunKeepsSenders(w, events[..|events| - 1]);
      RunKeeps(w, events[..|events| - 1]);
      if !Enabled(before, e) {
        DisabledStep(before, e);
      } else {
        match e
        case Begin(_, _, _, _, _) | Take(_) | Fill(_) | Give(_) => SenderStepKeeps(before, e);
        case Allocate(_, _) | Copy(_) | Send(_, _) => TxStepKeeps(before, e);
        case Accept(_, _) | Answer(_) => CallStepKeeps(before, e);
      }
    }
  }

  lemma ReachableSenders(w: World)
    requires Reachable(w)
    ensures SendersOk(w)
  {
    var buf, sockets, senders, events :| w == Run(Start(buf, sockets, senders), events);
    StartInv(buf, sockets, senders);
    RunKeepsSenders(Start(buf, sockets, senders), events);
  }

  /** No thread can take another step. */
  ghost predicate AtRest(w: World) {
    forall e :: Internal(e) ==> !Enabled(w, e)
  }

  lemma TxsRest(w: World)
    requires Inv(w) && AtRest(w)
    ensures forall s :: 0 <= s < |w.txs| ==> w.txs[s].pc == Waiting
  {
    hide BufferOk, HistoryOk;
    forall s | 0 <= s < |w.txs| ensures w.txs[s].pc == Waiting {
      assert !Enabled(w, Allocate(s, true)) && !Enabled(w, Copy(s)) && !Enabled(w, Send(s, 0)) && !Enabled(w, Answer(s));
    }
  }

  /** Never stuck: when the threads rest every sender is outside, and each that has begun a send has been
      told how its last one ended. */
  lemma EverySendIsAnswered(w: World, c: nat)
    requires Reachable(w) && AtRest(w) && c < |w.senders|
    ensures w.senders[c].pc == Outside && (w.senders[c].nth > 0 ==> w.senders[c].result.Some?)
  {
    ReachableInv(w);
    ReachableSenders(w);
    TxsRest(w);
    hide BufferOk, HistoryOk;
    forall d | 0 <= d < |w.senders| ensures !Holds(w.senders[d]) {
      assert !Enabled(w, Fill(d)) && !Enabled(w, Event.Give(d)) && !Enabled(w, Accept(w.senders[d].sock, d));
    }
    assert !Enabled(w, Event.Take(c));
  }

  /** From every state the threads come to rest by themselves. */
  lemma ComesToRest(w: World) returns (events: seq<Event>)
    requires Inv(w)
    ensures Schedule(w, events) && AtRest(Run(w, events))
  {
    hide Inv, WorkLeft, Step, Enabled;
    events := [];
    while exists e :: Internal(e) && Enabled(Run(w, events), e)
      invariant Schedule(w, events)
      decreases WorkLeft(w) - |events|
    {
      var e :| Internal(e) && Enabled(Run(w, events), e);
      var more := events + [e];
      assert more[..|more| - 1] == events;
      SchedulesEnd(w, more);
      events := more;
    }
  }
}
