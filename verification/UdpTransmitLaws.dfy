/** What the transmit path promises, for any number of sockets and senders and any interleaving. */
module UdpTransmitLaws {
  import opened PoolModel
  import opened UdpTransmit

  // ---------- who owns the buffer ----------

  predicate Holds(x: Sender) { x.pc == Filling || x.pc == Calling || x.pc == InCall || x.pc == Giving }

  /** One sender holds the semaphore; a transmit thread that is busy serves a sender that waits for it. */
  ghost predicate Exclusive(w: World) {
    && w.sem <= 1
    && (forall c :: 0 <= c < |w.senders| && Holds(w.senders[c]) ==> w.sem == 0)
    && (forall c, d :: 0 <= c < |w.senders| && 0 <= d < |w.senders| && Holds(w.senders[c]) && Holds(w.senders[d]) ==> c == d)
    && (forall s :: 0 <= s < |w.txs| && w.txs[s].pc != Waiting ==>
          w.txs[s].caller < |w.senders| && w.senders[w.txs[s].caller].pc == InCall && w.senders[w.txs[s].caller].sock == s)
    && (forall c :: 0 <= c < |w.senders| && w.senders[c].pc == InCall ==>
          && w.senders[c].sock < |w.txs|
          && w.txs[w.senders[c].sock].pc != Waiting && w.txs[w.senders[c].sock].caller == c)
  }

  // ---------- what is in it ----------

  /** The buffer holds what its sender has put there so far. */
  ghost predicate SenderOk(buf: Bytes, x: Sender) {
    match x.pc
    case Outside | Giving => true
    case Taking => |x.msg| < |buf| && x.pos == 0
    case Filling => |x.msg| < |buf| && x.pos <= |x.msg| && buf[..x.pos] == x.msg[..x.pos]
    case Calling | InCall => |x.msg| < |buf| && buf[..|x.msg|] == x.msg
  }

  /** A busy transmit thread works on what its caller asked for. */
  ghost predicate TxOk(senders: seq<Sender>, s: nat, k: Tx) {
    k.pc != Waiting ==>
      && k.caller < |senders|
      && var x := senders[k.caller];
      && x.sock == s && k.addr == x.addr && k.port == x.port && k.len == |x.msg|
      && match k.pc
         case Copying => |k.payload| <= |x.msg| && k.payload == x.msg[..|k.payload|]
         case Sending => k.payload == x.msg
         case Called => k.payload == [] && k.error == ERR_MEM
         case Waiting | Answering => true
  }

  ghost predicate BufferOk(w: World) {
    && (forall c :: 0 <= c < |w.senders| ==> SenderOk(w.buf, w.senders[c]))
    && (forall s :: 0 <= s < |w.txs| ==> TxOk(w.senders, s, w.txs[s]))
  }

  // ---------- what has been sent ----------

  /** The packets of the sends that reached the network stack. */
  function Transmitted(outcomes: seq<Outcome>): seq<Packet>
    decreases |outcomes|
  {
    if outcomes == [] then []
    else
      var last := outcomes[|outcomes| - 1];
      Transmitted(outcomes[..|outcomes| - 1]) + if last.sent then [last.packet] else []
  }

  lemma TransmittedAppend(outcomes: seq<Outcome>, o: Outcome)
    ensures Transmitted(outcomes + [o]) == Transmitted(outcomes) + if o.sent then [o.packet] else []
  {
    assert (outcomes + [o])[..|outcomes|] == outcomes;
  }

  /** The outcome of a sender's latest send has been recorded. */
  predicate Decided(w: World, x: Sender) {
    || x.pc == Outside || x.pc == Giving
    || (x.pc == InCall && x.sock < |w.txs| && w.txs[x.sock].pc == Answering)
  }

  /** No send has two outcomes, and none has one before it is decided. */
  ghost predicate OutcomesOk(w: World) {
    && (forall i, j :: 0 <= i < j < |w.outcomes| ==>
          w.outcomes[i].sender != w.outcomes[j].sender || w.outcomes[i].nth != w.outcomes[j].nth)
    && (forall i :: 0 <= i < |w.outcomes| ==>
          var o := w.outcomes[i];
          && o.sender < |w.senders| && o.nth <= w.senders[o.sender].nth
          && (o.nth == w.senders[o.sender].nth ==> Decided(w, w.senders[o.sender]))
          && (!o.sent ==> o.error == ERR_MEM))
  }

  /** A thread about to answer answers what was recorded last. */
  ghost predicate AnswerOk(w: World, s: nat)
    requires s < |w.txs|
  {
    var k := w.txs[s];
    k.pc == Answering ==>
      && |w.outcomes| > 0 && k.caller < |w.senders|
      && var o, x := w.outcomes[|w.outcomes| - 1], w.senders[k.caller];
      && o.sender == k.caller && o.nth == x.nth && o.packet == Asked(x) && o.error == k.error
  }

  /** What a sender was answered is the outcome of its own send. */
  ghost predicate ResultOk(w: World, c: nat)
    requires c < |w.senders|
  {
    var x := w.senders[c];
    x.result.Some? ==>
      && (x.pc == Giving || x.pc == Outside) && x.ticket < |w.outcomes|
      && var o := w.outcomes[x.ticket];
      && o.sender == c && o.nth == x.nth && o.packet == Asked(x) && o.error == x.result.value
  }

  ghost predicate HistoryOk(w: World) {
    && w.packets == Transmitted(w.outcomes)
    && OutcomesOk(w)
    && (forall s :: 0 <= s < |w.txs| ==> AnswerOk(w, s))
    && (forall c :: 0 <= c < |w.senders| ==> ResultOk(w, c))
  }

  ghost predicate Inv(w: World) { Exclusive(w) && BufferOk(w) && HistoryOk(w) }

  // ---------- exclusion ----------

  lemma MoveKeepsExclusive(w: World, e: Event)
    requires Exclusive(w) && Enabled(w, e) && (e.Begin? || e.Fill?)
    ensures Exclusive(Step(w, e))
  {
  }

  lemma HolderKeepsExclusive(w: World, e: Event)
    requires Exclusive(w) && Enabled(w, e) && (e.Take? || e.Give?)
    ensures Exclusive(Step(w, e))
  {
  }

  lemma CallKeepsExclusive(w: World, e: Event)
    requires Exclusive(w) && Enabled(w, e) && (e.Accept? || e.Answer?)
    ensures Exclusive(Step(w, e))
  {
  }

  lemma TxKeepsExclusive(w: World, e: Event)
    requires Exclusive(w) && Enabled(w, e) && (e.Allocate? || e.Copy? || e.Send?)
    ensures Exclusive(Step(w, e))
  {
    var v := Step(w, e);
    hide Exclusive;
    SameHoldersStayExclusive(w, v);
  }

  lemma SameHoldersStayExclusive(w: World, v: World)
    requires Exclusive(w) && v.sem == w.sem && v.senders == w.senders && |v.txs| == |w.txs|
    requires forall s :: 0 <= s < |w.txs| ==>
      v.txs[s].caller == w.txs[s].caller && (v.txs[s].pc == Waiting <==> w.txs[s].pc == Waiting)
    ensures Exclusive(v)
  {
  }

  lemma StepKeepsExclusive(w: World, e: Event)
    requires Exclusive(w)
    ensures Exclusive(Step(w, e))
  {
    hide Exclusive;
    if Enabled(w, e) {
      match e
      case Begin(_, _, _, _, _) | Fill(_) => MoveKeepsExclusive(w, e);
      case Take(_) | Give(_) => HolderKeepsExclusive(w, e);
      case Accept(_, _) | Answer(_) => CallKeepsExclusive(w, e);
      case Allocate(_, _) | Copy(_) | Send(_, _) => TxKeepsExclusive(w, e);
    }
  }

  // ---------- the buffer ----------

  lemma FillKeepsBuffer(w: World, c: nat)
    requires Exclusive(w) && BufferOk(w) && Enabled(w, Fill(c))
    ensures BufferOk(Step(w, Fill(c)))
  {
    var v, x := Step(w, Fill(c)), w.senders[c];
    assert SenderOk(w.buf, x);
    forall d | 0 <= d < |v.senders| ensures SenderOk(v.buf, v.senders[d]) {
      assert SenderOk(w.buf, w.senders[d]);
      assert d != c ==> !Holds(w.senders[d]);
    }
    assert forall s :: 0 <= s < |w.txs| ==> TxOk(w.senders, s, w.txs[s]);
  }

  lemma SenderKeepsBuffer(w: World, e: Event)
    requires Exclusive(w) && BufferOk(w) && Enabled(w, e) && (e.Begin? || e.Take? || e.Give?)
    ensures BufferOk(Step(w, e))
  {
  }

  lemma TxKeepsBuffer(w: World, e: Event)
    requires Exclusive(w) && BufferOk(w) && Enabled(w, e) && (e.Allocate? || e.Copy? || e.Send?)
    ensures BufferOk(Step(w, e))
  {
    var v, s := Step(w, e), e.s;
    assert TxOk(w.senders, s, w.txs[s]);
    assert SenderOk(w.buf, w.senders[w.txs[s].caller]);
  }

  lemma AcceptKeepsBuffer(w: World, s: nat, c: nat)
    requires Exclusive(w) && BufferOk(w) && Enabled(w, Accept(s, c))
    ensures BufferOk(Step(w, Accept(s, c)))
  {
    assert SenderOk(w.buf, w.senders[c]);
  }

  lemma AnswerKeepsBuffer(w: World, s: nat)
    requires Exclusive(w) && BufferOk(w) && Enabled(w, Answer(s))
    ensures BufferOk(Step(w, Answer(s)))
  {
  }

  lemma StepKeepsBuffer(w: World, e: Event)
    requires Exclusive(w) && BufferOk(w)
    ensures BufferOk(Step(w, e))
  {
    hide Exclusive, BufferOk;
    if Enabled(w, e) {
      match e
      case Fill(c) => FillKeepsBuffer(w, c);
      case Begin(_, _, _, _, _) | Take(_) | Give(_) => SenderKeepsBuffer(w, e);
      case Accept(s, c) => AcceptKeepsBuffer(w, s, c);
      case Answer(s) => AnswerKeepsBuffer(w, s);
      case Allocate(_, _) | Copy(_) | Send(_, _) => TxKeepsBuffer(w, e);
    }
  }

  // ---------- the history ----------

  /** Steps that record nothing: no send is undone ... */
  lemma OutcomesLast(w: World, v: World)
    requires OutcomesOk(w) && v.outcomes == w.outcomes && |v.senders| == |w.senders|
    requires forall c :: 0 <= c < |w.senders| ==>
      && w.senders[c].nth <= v.senders[c].nth
      && (w.senders[c].nth == v.senders[c].nth && Decided(w, w.senders[c]) ==> Decided(v, v.senders[c]))
    ensures OutcomesOk(v)
  {
  }

  /** ... no answer is changed ... */
  lemma AnswersLast(w: World, v: World, s: nat)
    requires s < |w.txs| == |v.txs| && AnswerOk(w, s) && v.outcomes == w.outcomes
    requires v.txs[s].pc == Answering ==>
      && w.txs[s].pc == Answering && v.txs[s].caller == w.txs[s].caller && v.txs[s].error == w.txs[s].error
      && v.txs[s].caller < |w.senders| == |v.senders|
      && v.senders[v.txs[s].caller].nth == w.senders[v.txs[s].caller].nth
      && Asked(v.senders[v.txs[s].caller]) == Asked(w.senders[v.txs[s].caller])
    ensures AnswerOk(v, s)
  {
  }

  /** ... and no result. */
  lemma ResultsLast(w: World, v: World, c: nat)
    requires c < |w.senders| == |v.senders| && ResultOk(w, c) && w.outcomes <= v.outcomes
    requires v.senders[c].result.Some? ==>
      && v.senders[c] == w.senders[c].(pc := v.senders[c].pc)
      && (w.senders[c].pc == Giving || w.senders[c].pc == Outside ==> v.senders[c].pc == Giving || v.senders[c].pc == Outside)
    ensures ResultOk(v, c)
  {
  }

  lemma QuietKeepsOutcomes(w: World, e: Event)
    requires Exclusive(w) && OutcomesOk(w) && Enabled(w, e)
    requires !e.Send? && (e.Allocate? ==> e.ok)
    ensures OutcomesOk(Step(w, e))
  {
    OutcomesLast(w, Step(w, e));
  }

  lemma QuietKeepsAnswers(w: World, e: Event, s: nat)
    requires Exclusive(w) && Enabled(w, e) && !e.Send? && (e.Allocate? ==> e.ok)
    requires s < |w.txs| && AnswerOk(w, s)
    ensures s < |Step(w, e).txs| && AnswerOk(Step(w, e), s)
  {
    AnswersLast(w, Step(w, e), s);
  }

  lemma QuietKeepsResults(w: World, e: Event, c: nat)
    requires Exclusive(w) && Enabled(w, e) && !e.Send? && (e.Allocate? ==> e.ok)
    requires c < |w.senders| && ResultOk(w, c) && (e.Answer? ==> AnswerOk(w, e.s))
    ensures c < |Step(w, e).senders| && ResultOk(Step(w, e), c)
  {
    if !(e.Answer? && w.txs[e.s].caller == c) {
      ResultsLast(w, Step(w, e), c);
    }
  }

  lemma QuietKeepsHistory(w: World, e: Event)
    requires Exclusive(w) && HistoryOk(w) && Enabled(w, e)
    requires !e.Send? && (e.Allocate? ==> e.ok)
    ensures HistoryOk(Step(w, e))
  {
    var v := Step(w, e);
    hide Exclusive, OutcomesOk, AnswerOk, ResultOk, Transmitted;
    QuietKeepsOutcomes(w, e);
    forall s | 0 <= s < |v.txs| ensures AnswerOk(v, s) {
      QuietKeepsAnswers(w, e, s);
    }
    forall c | 0 <= c < |v.senders| ensures ResultOk(v, c) {
      QuietKeepsResults(w, e, c);
    }
  }

  /** Steps that record an outcome: the caller had none for this send, and now it has. */
  lemma RecordKeepsOutcomes(w: World, v: World, s: nat, sent: bool, error: int)
    requires Exclusive(w) && OutcomesOk(w) && s < |w.txs| && w.txs[s].pc != Waiting && w.txs[s].pc != Answering
    requires v.senders == w.senders && |v.txs| == |w.txs| && v.txs == w.txs[s := v.txs[s]] && v.txs[s].pc == Answering
    requires v.outcomes == Record(w, w.txs[s], sent, error).outcomes && (!sent ==> error == ERR_MEM)
    ensures OutcomesOk(v)
  {
    var c := w.txs[s].caller;
    assert !Decided(w, w.senders[c]) && Decided(v, v.senders[c]);
    assert forall d :: 0 <= d < |w.senders| && Decided(w, w.senders[d]) ==> Decided(v, v.senders[d]);
  }

  /** Nobody else is about to be answered. */
  lemma OnlyAnswer(w: World, s: nat, t: nat)
    requires Exclusive(w) && s < |w.txs| && w.txs[s].pc != Waiting && t < |w.txs| && t != s
    ensures w.txs[t].pc == Waiting
  {
    assert Holds(w.senders[w.txs[s].caller]);
    if w.txs[t].pc != Waiting {
      assert Holds(w.senders[w.txs[t].caller]);
    }
  }

  lemma RecordKeepsAnswers(w: World, v: World, s: nat, sent: bool, t: nat)
    requires Exclusive(w) && s < |w.txs| && w.txs[s].pc != Waiting && w.txs[s].caller < |w.senders|
    requires v.senders == w.senders && |v.txs| == |w.txs| && v.txs == w.txs[s := v.txs[s]]
    requires v.txs[s].caller == w.txs[s].caller && v.outcomes == Record(w, w.txs[s], sent, v.txs[s].error).outcomes
    requires t < |w.txs|
    ensures AnswerOk(v, t)
  {
    hide Exclusive;
    if t != s {
      OnlyAnswer(w, s, t);
    }
  }

  lemma RecordStep(w: World, e: Event)
    requires Exclusive(w) && BufferOk(w) && Enabled(w, e) && (e.Send? || (e.Allocate? && !e.ok))
    ensures var v, k := Step(w, e), w.txs[e.s];
            && k.pc != Waiting && k.pc != Answering && k.caller < |w.senders| && w.senders[k.caller].pc == InCall
            && v.senders == w.senders && v.txs == w.txs[e.s := v.txs[e.s]]
            && v.txs[e.s].pc == Answering && v.txs[e.s].caller == k.caller
            && v.txs[e.s].error == (if e.Send? then e.error else ERR_MEM)
            && v.outcomes == Record(w, k, e.Send?, v.txs[e.s].error).outcomes
            && v.packets == w.packets + if e.Send? then [Asked(w.senders[k.caller])] else []
  {
    assert TxOk(w.senders, e.s, w.txs[e.s]);
  }

  lemma RecordKeepsHistory(w: World, e: Event)
    requires Exclusive(w) && BufferOk(w) && HistoryOk(w) && Enabled(w, e)
    requires e.Send? || (e.Allocate? && !e.ok)
    ensures HistoryOk(Step(w, e))
  {
    var v, k := Step(w, e), w.txs[e.s];
    RecordStep(w, e);
    hide OutcomesOk, ResultOk, BufferOk, Transmitted, Exclusive, Step;
    RecordKeepsOutcomes(w, v, e.s, e.Send?, v.txs[e.s].error);
    TransmittedAppend(w.outcomes, v.outcomes[|w.outcomes|]);
    hide Record, AnswerOk, Asked;
    forall s | 0 <= s < |v.txs| ensures AnswerOk(v, s) {
      RecordKeepsAnswers(w, v, e.s, e.Send?, s);
    }
    forall c | 0 <= c < |v.senders| ensures ResultOk(v, c) {
      ResultsLast(w, v, c);
    }
  }

  lemma StepKeepsHistory(w: World, e: Event)
    requires Exclusive(w) && BufferOk(w) && HistoryOk(w)
    ensures HistoryOk(Step(w, e))
  {
    hide Exclusive, BufferOk, HistoryOk;
    if Enabled(w, e) {
      if e.Send? || (e.Allocate? && !e.ok) {
        RecordKeepsHistory(w, e);
      } else {
        QuietKeepsHistory(w, e);
      }
    }
  }

  // ---------- runs ----------

  lemma StartInv(buf: Bytes, sockets: nat, senders: nat)
    ensures Inv(Start(buf, sockets, senders))
    ensures var w := Start(buf, sockets, senders);
            && w.buf == buf && w.sem == 1 && |w.txs| == sockets && |w.senders| == senders && w.packets == []
            && forall c :: 0 <= c < senders ==> w.senders[c].pc == Outside && w.senders[c].nth == 0
  {
  }

  lemma {:induction false} RunKeeps(w: World, events: seq<Event>)
    requires Inv(w)
    ensures Inv(Run(w, events))
    decreases |events|
  {
    hide Exclusive, BufferOk, HistoryOk;
    if events != [] {
      var before, e := Run(w, events[..|events| - 1]), events[|events| - 1];
      RunKeeps(w, events[..|events| - 1]);
      StepKeepsExclusive(before, e);
      StepKeepsBuffer(before, e);
      StepKeepsHistory(before, e);
    }
  }

  ghost predicate Reachable(w: World) {
    exists buf, sockets, senders, events :: w == Run(Start(buf, sockets, senders), events)
  }

  lemma ReachableInv(w: World)
    requires Reachable(w)
    ensures Inv(w)
  {
    var buf, sockets, senders, events :| w == Run(Start(buf, sockets, senders), events);
    StartInv(buf, sockets, senders);
    RunKeeps(Start(buf, sockets, senders), events);
  }

  /** What goes to the network stack is what the sender being served asked for: its bytes, its
      address and port, on its socket. */
  lemma SendsWhatWasAsked(w: World, s: nat)
    requires Reachable(w) && s < |w.txs| && w.txs[s].pc == Sending
    ensures var k := w.txs[s];
            && k.caller < |w.senders| && w.senders[k.caller].pc == InCall
            && Packet(s, k.payload, k.addr, k.port) == Asked(w.senders[k.caller])
  {
    ReachableInv(w);
    assert TxOk(w.senders, s, w.txs[s]);
  }

  /** Over any run the packets sent are, in order, those asked for by the sends whose outcome says
      so, and no send has two outcomes. */
  lemma PacketsAreTheSends(w: World)
    requires Reachable(w)
    ensures w.packets == Transmitted(w.outcomes)
    ensures forall i, j :: 0 <= i < j < |w.outcomes| ==>
              (w.outcomes[i].sender, w.outcomes[i].nth) != (w.outcomes[j].sender, w.outcomes[j].nth)
  {
    ReachableInv(w);
  }

  /** A sender is told how its own send ended. */
  lemma SenderLearnsItsOutcome(w: World, c: nat)
    requires Reachable(w) && c < |w.senders| && w.senders[c].result.Some?
    ensures var x := w.senders[c];
            exists sent :: Outcome(c, x.nth, Asked(x), sent, x.result.value) in w.outcomes
                        && (!sent ==> x.result == Some(ERR_MEM))
  {
    ReachableInv(w);
    assert ResultOk(w, c);
    var x := w.senders[c];
    assert Outcome(c, x.nth, Asked(x), w.outcomes[x.ticket].sent, x.result.value) in w.outcomes;
  }

  /** The branch that truncates a message is never taken: a call that reaches a transmit thread
      carries less than the buffer, and its length is what the thread works with. */
  lemma NeverTruncated(w: World, s: nat, c: nat)
    requires Reachable(w)
    ensures Enabled(w, Accept(s, c)) ==> |w.senders[c].msg| < |w.buf|
    ensures s < |w.txs| && w.txs[s].pc != Waiting ==>
              w.txs[s].caller < |w.senders| && w.txs[s].len == |w.senders[w.txs[s].caller].msg| < |w.buf|
  {
    ReachableInv(w);
    if c < |w.senders| {
      assert SenderOk(w.buf, w.senders[c]);
    }
    if s < |w.txs| {
      assert TxOk(w.senders, s, w.txs[s]);
      if w.txs[s].pc != Waiting {
        assert SenderOk(w.buf, w.senders[w.txs[s].caller]);
      }
    }
  }
}
