/** What the clock service promises its clients, for every run. */
module ClockLaws {
  import opened Words
  import opened ClockModel
  import opened ClockRun
  import opened ClockTiming

  /** In every reachable state the scheduled timeouts have distinct non-null ids, the slot kept
      for the next request is not one of them, and there is never more than one pool of them. */
  lemma IdsStayUnique(tickMs: nat, slot: Word, events: seq<Event>)
    requires slot != CAP_NULL
    ensures var w := Run(Start(tickMs, slot), events);
            UniqueIds(w.clock.entries) && |w.clock.entries| <= MAX_ENTRIES && !HasId(w.clock.entries, w.clock.callerEp)
  {
    RunKeeps(tickMs, slot, events);
  }

  // ---------- what one event does ----------

  /** A set request in any reachable state: accepted exactly when fewer than 100 requests are live, it is
      recorded, with the caller's own arguments and the moment it came, under the id the caller is
      told, which is new; a later cancel of that id takes out this request and no other. */
  lemma SetIsRecorded(tickMs: nat, slot: Word, events: seq<Event>, periodic: Word, ms: Word, sender: Word, next: Word)
    requires slot != CAP_NULL
    requires var w := Run(Start(tickMs, slot), events); next != CAP_NULL && next !in w.used
    ensures var w, e := Run(Start(tickMs, slot), events), SetTimeout(periodic, ms, sender, next);
            var v, reply := Step(w, e), ReplyOfSet(w.clock);
            && (reply.error == 0 <==> |w.clock.entries| < 100)
            && (reply.error == 0 ==>
                  && reply.aep != CAP_NULL && reply.aep !in w.requests && reply.insertTime == Shown(w.ticks, tickMs)
                  && v.requests == w.requests[reply.aep := Request(w.ticks, w.mid, periodic != 0, ms)]
                  && reply.aep in Ids(v.clock.entries)
                  && Step(v, Cancel(reply.aep)).clock.entries == w.clock.entries
                  && Step(v, Cancel(reply.aep)).cancelled == w.cancelled + {reply.aep})
            && (reply.error != 0 ==> v.requests == w.requests && v.clock.entries == w.clock.entries)
  {
    var w := Run(Start(tickMs, slot), events);
    RunKeeps(tickMs, slot, events);
    SetRepliesTheId(w.clock, periodic, ms, sender, next);
    var after := AfterSet(w.clock, periodic, ms, sender, next).entries;
    if |w.clock.entries| < MAX_ENTRIES {
      assert after[|w.clock.entries|] in after;
      assert ReplyOfSet(w.clock).aep in Ids(after);
    }
    hide Run, Start, Accounted, AllTracked, WellFormed;
  }

  /** A cancel of a live request takes effect at once; one of any other id changes nothing. */
  lemma CancelTakesEffect(tickMs: nat, slot: Word, events: seq<Event>, id: Word)
    requires slot != CAP_NULL
    ensures var w := Run(Start(tickMs, slot), events);
            var v := Step(w, Cancel(id));
            && (id in Ids(w.clock.entries) ==>
                  Ids(v.clock.entries) == Ids(w.clock.entries) - {id} && v.cancelled == w.cancelled + {id})
            && (id !in Ids(w.clock.entries) ==> v == w)
  {
    var w := Run(Start(tickMs, slot), events);
    RunKeeps(tickMs, slot, events);
    hide Run, Start, Accounted, AllTracked;
    var v := Step(w, Cancel(id));
    forall i: Word ensures i in Ids(v.clock.entries) <==> i in Ids(w.clock.entries) && i != id {
      CancelOnId(w.clock.entries, id, i);
      LookupIds(w.clock.entries, i);
      LookupIds(v.clock.entries, i);
    }
    LookupIds(w.clock.entries, id);
  }

  /** The timer thread never gets stuck: from every state one more increment and sweep are possible, and
      they move the clock by one period. */
  lemma ClockGoesOn(tickMs: nat, slot: Word, events: seq<Event>)
    requires slot != CAP_NULL
    ensures var w := Run(Start(tickMs, slot), events);
            if w.mid then
              var v := Step(w, SweepNow); !v.mid && v.ticks == w.ticks && Swept(v) == Swept(w) + 1
            else
              var v := Step(w, Increment);
              && v.mid && v.ticks == w.ticks + 1 && v.clock.time == Shown(w.ticks + 1, tickMs)
              && v.clock.entries == w.clock.entries
  {
    RunKeeps(tickMs, slot, events);
    RunKeeps(tickMs, slot, events + [Increment]);
    assert (events + [Increment])[..|events|] == events;
    hide Start, Accounted, AllTracked, WellFormed;
  }

  // ---------- timing, without any bound ----------

  /** Whatever the other clients do and however often the clock wraps, a request that has not been
      cancelled has been signalled at exactly the moments that the 32-bit law gives for it alone; a
      cancelled one has been signalled at the first of them. */
  lemma SignalsAreExpected(tickMs: nat, slot: Word, events: seq<Event>, id: Word)
    requires slot != CAP_NULL && id in Run(Start(tickMs, slot), events).requests
    ensures var w := Run(Start(tickMs, slot), events);
            var times := TimesOf(Expected(w.requests[id], tickMs, Swept(w)), tickMs);
            && Times(w.log, id) <= times
            && (id !in w.cancelled ==> Times(w.log, id) == times)
  {
    RunKeeps(tickMs, slot, events);
    assert Tracked(Run(Start(tickMs, slot), events), id);
  }

  /** An uncancelled one-shot is signalled exactly once, by the first sweep after the request that
      has reached the time of the request plus the timeout, if the clock does not wrap in between;
      by the very next sweep, too early, if it wraps between that sweep and the time due; and by
      no sweep up to the one that should signal, if it wraps between the time due and that one. */
  lemma OneShotTiming(tickMs: nat, slot: Word, events: seq<Event>, id: Word)
    requires 0 < tickMs < WRAP && slot != CAP_NULL
    requires var w := Run(Start(tickMs, slot), events);
             id in w.requests && !w.requests[id].periodic && id !in w.cancelled
    ensures var w := Run(Start(tickMs, slot), events);
            var r, ts := w.requests[id], Times(w.log, id);
            var s, n := FirstSweep(r), FireTick(r, tickMs, 0);
            && |ts| <= 1 && (OnTime(r, tickMs, []) <==> !Early(r, tickMs, []) && !Missed(r, tickMs, []))
            && (OnTime(r, tickMs, []) ==> ts == if n <= Swept(w) then [Shown(n, tickMs)] else [])
            && (Early(r, tickMs, []) ==> ts == if s <= Swept(w) then [Shown(s, tickMs)] else [])
            && (Missed(r, tickMs, []) && Swept(w) <= n ==> ts == [])
  {
    SignalsAreExpected(tickMs, slot, events, id);
    RunKeeps(tickMs, slot, events);
    var w := Run(Start(tickMs, slot), events);
    assert Placed(w, id);
    EarlyOrOnTimeOrMissed(w.requests[id], tickMs, []);
    hide Run, Start, OnTime, Early, Missed, Placed, Expected;
    OneShotOutcome(w.requests[id], tickMs, Swept(w));
  }

  lemma OneShotOutcome(r: Request, tickMs: nat, m: int)
    requires 0 < tickMs < WRAP && !r.periodic
    ensures var s, n, fires := FirstSweep(r), FireTick(r, tickMs, 0), Expected(r, tickMs, m);
            && (OnTime(r, tickMs, []) ==> fires == if n <= m then [n] else [])
            && (Early(r, tickMs, []) ==> fires == if s <= m then [s] else [])
            && (Missed(r, tickMs, []) && m <= n ==> fires == [])
  {
    var before: int := FirstSweep(r) as int - 1;
    assert Expected(r, tickMs, before) == [];
    NextSignal(r, tickMs, before);
    NextTickIsFirst(r, tickMs, []);
    EarlyOrOnTimeOrMissed(r, tickMs, []);
    hide Expected, OnTime, Early, Missed, FireTick, DueMs;
    if Early(r, tickMs, []) {
      OneShotAt(r, tickMs, FirstSweep(r), m);
    } else if OnTime(r, tickMs, []) {
      OneShotAt(r, tickMs, FireTick(r, tickMs, 0), m);
    } else if m <= FireTick(r, tickMs, 0) {
      ExpectedGrows(r, tickMs, m, FireTick(r, tickMs, 0));
    }
  }

  lemma OneShotAt(r: Request, tickMs: nat, n: nat, m: int)
    requires !r.periodic && Expected(r, tickMs, n - 1) == [] && Expected(r, tickMs, n) == [n]
    ensures Expected(r, tickMs, m) == if n <= m then [n] else []
  {
    hide Expected;
    if n <= m {
      OneShotOnce(r, tickMs, n, m);
    } else {
      ExpectedGrows(r, tickMs, m, n - 1);
    }
  }

  /** The sweep that should signal is the first one after the request that has reached the time of
      the request plus the timeout, and it is late by less than one clock period, or by at most one
      for a zero timeout. */
  lemma OneShotLateness(r: Request, tickMs: nat)
    requires tickMs > 0
    ensures var n, due := FireTick(r, tickMs, 0), r.tick * tickMs + r.period;
            && n >= FirstSweep(r) && (forall m :: FirstSweep(r) <= m < n ==> m * tickMs < due)
            && (r.period > 0 ==> 0 <= n * tickMs - due < tickMs)
            && (r.period == 0 ==> n * tickMs - due == if r.mid then 0 else tickMs)
  {
    NextTickIsFirst(r, tickMs, []);
    var c := CeilDiv(r.period, tickMs);
    CeilBounds(r.period, tickMs);
    if r.period > 0 {
      Distribute(r.tick, c, tickMs);
    } else {
      Distribute(r.tick, 1, tickMs);
    }
  }

  /** One that waits for a 32-bit time the clock never shows is never signalled, in any run. */
  lemma NeverSignalled(tickMs: nat, slot: Word, events: seq<Event>, id: Word)
    requires 0 < tickMs < WRAP && slot != CAP_NULL
    requires var w := Run(Start(tickMs, slot), events);
             id in w.requests && Armed(w.requests[id], tickMs, []) > WRAP - Twos(tickMs)
    ensures Times(Run(Start(tickMs, slot), events).log, id) == []
  {
    var w := Run(Start(tickMs, slot), events);
    SignalsAreExpected(tickMs, slot, events, id);
    NeverReached(w.requests[id], tickMs, Swept(w));
  }

  /** In particular with any even clock period one that waits for the last millisecond. */
  lemma LastMillisecond(tickMs: nat, slot: Word, events: seq<Event>, id: Word)
    requires 0 < tickMs < WRAP && tickMs % 2 == 0 && slot != CAP_NULL
    requires var w := Run(Start(tickMs, slot), events);
             id in w.requests && Armed(w.requests[id], tickMs, []) == WRAP - 1
    ensures Times(Run(Start(tickMs, slot), events).log, id) == []
  {
    assert Twos(tickMs) == 2 * Twos(tickMs / 2);
    TwosPositive(tickMs / 2);
    NeverSignalled(tickMs, slot, events, id);
  }

  lemma {:induction false} TwosPositive(x: nat)
    requires x > 0
    ensures Twos(x) >= 1
  {
    if x % 2 == 0 {
      TwosPositive(x / 2);
    }
  }

  // ---------- the closed form ----------

  /** The distance between two signals of a periodic timeout, and the system time of the first one. */
  function GapMs(r: Request, tickMs: nat): nat
    requires tickMs > 0
  {
    tickMs * Max(1, CeilDiv(r.period, tickMs))
  }

  function FirstMs(r: Request, tickMs: nat): nat
    requires tickMs > 0
  {
    Shown(r.tick, tickMs) + if r.mid then tickMs * CeilDiv(r.period, tickMs) else GapMs(r, tickMs)
  }

  /** The start of the epoch of a request: what its times count from. */
  function Origin(r: Request, tickMs: nat): nat { Epoch(r.tick * tickMs) * WRAP }

  lemma FireTimeIs(r: Request, tickMs: nat, k: nat)
    requires tickMs > 0
    ensures FireTick(r, tickMs, k) * tickMs == Origin(r, tickMs) + FirstMs(r, tickMs) + k * GapMs(r, tickMs)
  {
    var g := Gap(r, tickMs);
    Distribute(FireTick(r, tickMs, 0), k * g, tickMs);
    assert FireTick(r, tickMs, k) == FireTick(r, tickMs, 0) + k * g;
    assert (k * g) * tickMs == k * (g * tickMs);
    Distribute(r.tick, FireTick(r, tickMs, 0) - r.tick, tickMs);
  }

  /** Signals at first, first + gap, first + 2 gap, ..., none of those up to `until` missing and
      none after it. */
  ghost predicate Metronome(ts: seq<Word>, first: nat, gap: nat, until: int) {
    && (forall k :: 0 <= k < |ts| ==> ts[k] == first + k * gap)
    && until < first + |ts| * gap
    && (|ts| > 0 ==> ts[|ts| - 1] <= until)
  }

  /** Two signals of a metronome are as many gaps apart as there are signals between them. */
  lemma MetronomeGaps(ts: seq<Word>, first: nat, gap: nat, until: int, j: nat, k: nat)
    requires Metronome(ts, first, gap, until) && j <= k < |ts|
    ensures ts[k] - ts[j] == (k - j) * gap
  {
    Distribute(j, k - j, gap);
  }

  lemma ShownInEpoch(r: Request, tickMs: nat, m: nat, last: nat)
    requires r.tick <= m <= last && Epoch(r.tick * tickMs) == Epoch(last * tickMs + r.period)
    ensures Shown(m, tickMs) == m * tickMs - Origin(r, tickMs)
  {
    TimesMonotone(r.tick, m, tickMs);
    TimesMonotone(m, last, tickMs);
    EpochMonotone(r.tick * tickMs, m * tickMs);
    EpochMonotone(m * tickMs, last * tickMs + r.period);
  }

  lemma ClosedFormIsMetronome(r: Request, tickMs: nat, fires: seq<nat>, swept: int, ticks: nat)
    requires tickMs > 0 && r.periodic && ClosedForm(r, tickMs, swept, fires) && swept <= ticks
    requires Epoch(r.tick * tickMs) == Epoch(ticks * tickMs + r.period)
    ensures Metronome(TimesOf(fires, tickMs), FirstMs(r, tickMs), GapMs(r, tickMs), swept * tickMs - Origin(r, tickMs))
  {
    hide FireTick, FirstMs, GapMs, Origin, Shown, Epoch;
    StrictlyLess(swept, FireTick(r, tickMs, |fires|), tickMs);
    FireTimeIs(r, tickMs, |fires|);
    forall k | 0 <= k < |fires|
      ensures Shown(fires[k], tickMs) == FirstMs(r, tickMs) + k * GapMs(r, tickMs) <= swept * tickMs - Origin(r, tickMs)
    {
      FireTimeIs(r, tickMs, k);
      FireTickAfter(r, tickMs, k);
      FireTicksGrow(r, tickMs, k, |fires| - 1);
      TimesMonotone(FireTick(r, tickMs, k), swept, tickMs);
      ShownInEpoch(r, tickMs, fires[k], ticks);
    }
  }

  lemma FireTicksGrow(r: Request, tickMs: nat, j: nat, k: nat)
    requires tickMs > 0 && j <= k
    ensures FireTick(r, tickMs, j) <= FireTick(r, tickMs, k)
  {
    TimesMonotone(j, k, Gap(r, tickMs));
  }

  lemma StrictlyLess(a: int, b: int, k: nat)
    requires a < b && k > 0
    ensures a * k < b * k
  {
  }

  /** Periodic timeouts fire at first + k * gap, where the gap is the period rounded up to whole
      clock periods and at least one, as long as neither the clock nor the next sum has wrapped
      since the request; no such moment up to the last sweep has been missed. */
  lemma PeriodicTiming(tickMs: nat, slot: Word, events: seq<Event>, id: Word)
    requires tickMs > 0 && slot != CAP_NULL
    requires var w := Run(Start(tickMs, slot), events);
             && id in w.requests && w.requests[id].periodic && id !in w.cancelled
             && Epoch(w.requests[id].tick * tickMs) == Epoch(w.ticks * tickMs + w.requests[id].period)
    ensures var w := Run(Start(tickMs, slot), events);
            var r := w.requests[id];
            Metronome(Times(w.log, id), FirstMs(r, tickMs), GapMs(r, tickMs), Swept(w) * tickMs - Origin(r, tickMs))
  {
    SignalsAreExpected(tickMs, slot, events, id);
    RunKeeps(tickMs, slot, events);
    var w := Run(Start(tickMs, slot), events);
    var r := w.requests[id];
    assert Tracked(w, id);
    hide Run, Start, Tracked, Expected, Epoch, FirstMs, GapMs, Origin, Metronome;
    PeriodicState(r, tickMs, Swept(w), w.ticks);
  }

  lemma PeriodicState(r: Request, tickMs: nat, swept: int, ticks: nat)
    requires tickMs > 0 && r.periodic && swept <= ticks && r.tick <= ticks
    requires Epoch(r.tick * tickMs) == Epoch(ticks * tickMs + r.period)
    ensures Metronome(TimesOf(Expected(r, tickMs, swept), tickMs), FirstMs(r, tickMs), GapMs(r, tickMs),
                      swept * tickMs - Origin(r, tickMs))
  {
    var m: nat := Max(swept, r.tick);
    hide Epoch, FirstMs, GapMs, Origin, Metronome, Expected, ClosedForm;
    TimesMonotone(r.tick, m, tickMs);
    TimesMonotone(m, ticks, tickMs);
    EpochMonotone(r.tick * tickMs, m * tickMs + r.period);
    EpochMonotone(m * tickMs + r.period, ticks * tickMs + r.period);
    NoWrapClosedForm(r, tickMs, swept);
    ClosedFormIsMetronome(r, tickMs, Expected(r, tickMs, swept), swept, ticks);
  }

  // ---------- one sum ----------

  /** A new timeout is due too early, at a sweep before the clock wraps, if and only if the time of
      the request plus the timeout reaches 2^32 ... */
  lemma EarlyIffWraps(c: Clock, periodic: Word, ms: Word, sender: Word, sweep: Word)
    requires c.callerEp != CAP_NULL && c.time <= sweep
    ensures var t := NewTimeout(c, periodic, ms, sender);
            (Due(t, sweep) && sweep < c.time + ms) <==> c.time + ms >= WRAP
  {
    SumWraps(c.time, ms);
  }

  /** ... and so is one that has been re-armed. */
  lemma RearmedEarlyIffWraps(t: Timeout, now: Word, sweep: Word)
    requires t.aep != CAP_NULL && now <= sweep
    ensures (Due(Rearmed(t, now), sweep) && sweep < now + t.period) <==> now + t.period >= WRAP
  {
    SumWraps(now, t.period);
  }

  lemma SumWraps(a: Word, b: Word)
    ensures AddWord(a, b) == if a + b >= WRAP then a + b - WRAP else a + b
  {
  }

  /** The last clock period of 5 ms before the wrap: a 10 ms timeout fires after 5 ms. */
  lemma WrapExample()
    ensures var c := Clock(4294967290, [], 7);
            var w := AfterTick(AfterSet(c, 0, 10, 0, 8), 5);
            Signals(w.entries, w.time) == [Signal(7, 4294967295)]
  {
    var c := Clock(4294967290, [], 7);
    var w := AfterTick(AfterSet(c, 0, 10, 0, 8), 5);
    assert w.entries == [NewTimeout(c, 0, 10, 0)];
    assert w.entries[1..] == [];
  }

  /** A sum below 2^32 is not enough: with a clock period of 10 ms a 15 ms timeout, due in the last
      millisecond, is signalled neither by the sweep before the wrap nor by the one after it. */
  lemma MissedExample()
    ensures var c := AfterSet(Clock(4294967280, [], 7), 0, 15, 0, 8);
            var w := AfterTick(c, 10);
            var v := AfterTick(AfterSweep(w), 10);
            && w.time == 4294967290 && v.time == 4
            && Signals(w.entries, w.time) == [] && Signals(v.entries, v.time) == []
            && AfterSweep(v).entries == c.entries
  {
    var t := NewTimeout(Clock(4294967280, [], 7), 0, 15, 0);
    assert t.nextEvent == 4294967295;
    NotDueStays(t, 4294967290);
    NotDueStays(t, 4);
  }

  lemma NotDueStays(t: Timeout, now: Word)
    requires !Due(t, now)
    ensures Survivors([t], now) == [t] && Signals([t], now) == []
  {
    var es := [t];
    assert es[1..] == [];
  }

  // ---------- where requests are ----------

  /** Every successful request is live, has fired as a one-shot, or has been cancelled, and only
      one of these. */
  lemma RequestsAreConserved(tickMs: nat, slot: Word, events: seq<Event>)
    requires slot != CAP_NULL
    ensures var w := Run(Start(tickMs, slot), events);
            var live := Ids(w.clock.entries);
            && w.requests.Keys == live + w.fired + w.cancelled
            && live !! w.fired && live !! w.cancelled && w.fired !! w.cancelled
            && |live| == |w.clock.entries|
  {
    RunKeeps(tickMs, slot, events);
    var w := Run(Start(tickMs, slot), events);
    forall id
      ensures id in w.requests <==> id in Ids(w.clock.entries) || id in w.fired || id in w.cancelled
      ensures !(id in Ids(w.clock.entries) && id in w.fired)
      ensures !(id in Ids(w.clock.entries) && id in w.cancelled)
      ensures !(id in w.fired && id in w.cancelled)
    {
      assert Placed(w, id);
      LookupIds(w.clock.entries, id);
    }
    DistinctIdsCount(w.clock.entries);
  }

  lemma {:induction false} DistinctIdsCount(es: seq<Timeout>)
    requires UniqueIds(es)
    ensures |Ids(es)| == |es|
  {
    if es != [] {
      HeadIdIsAlone(es);
      DistinctIdsCount(es[1..]);
      LookupIds(es[1..], es[0].aep);
      assert es == [es[0]] + es[1..];
      assert Ids(es) == {es[0].aep} + Ids(es[1..]);
    }
  }

  /** A set request is refused exactly when as many requests are live as the pool has entries;
      then nothing but the reserved slot changes. */
  lemma SetFailsIffFull(tickMs: nat, slot: Word, events: seq<Event>, periodic: Word, ms: Word, sender: Word, next: Word)
    requires slot != CAP_NULL
    ensures var w := Run(Start(tickMs, slot), events);
            var live := w.requests.Keys - w.fired - w.cancelled;
            && (ReplyOfSet(w.clock).error != 0 <==> |live| == MAX_ENTRIES)
            && (|live| == MAX_ENTRIES ==> AfterSet(w.clock, periodic, ms, sender, next) == w.clock.(callerEp := next))
            && (|live| < MAX_ENTRIES ==> ReplyOfSet(w.clock).aep !in w.requests && ReplyOfSet(w.clock).aep != CAP_NULL)
  {
    RequestsAreConserved(tickMs, slot, events);
    RunKeeps(tickMs, slot, events);
    var w := Run(Start(tickMs, slot), events);
    assert w.requests.Keys - w.fired - w.cancelled == Ids(w.clock.entries);
  }

  lemma FrozenStep(w: World, e: Event, id: Word)
    requires Inv(w) && (id in w.fired || id in w.cancelled)
    ensures var v := Step(w, e);
            && Times(v.log, id) == Times(w.log, id)
            && (id in w.fired ==> id in v.fired) && (id in w.cancelled ==> id in v.cancelled)
  {
    assert Placed(w, id);
    if e == SweepNow && w.mid {
      SweepEffect(w, id);
    }
  }

  /** Once a one-shot has fired, or any timeout has been cancelled, its id is never signalled
      again, whatever happens next. */
  lemma {:induction false} NeverSignalledAgain(tickMs: nat, slot: Word, events: seq<Event>, more: seq<Event>, id: Word)
    requires slot != CAP_NULL
    requires var w := Run(Start(tickMs, slot), events); id in w.fired || id in w.cancelled
    ensures var w, v := Run(Start(tickMs, slot), events), Run(Start(tickMs, slot), events + more);
            && Times(v.log, id) == Times(w.log, id)
            && (id in w.fired ==> id in v.fired) && (id in w.cancelled ==> id in v.cancelled)
    decreases |more|
  {
    hide Step, Times, Start, Inv;
    if more == [] {
      assert events + more == events;
    } else {
      var less := more[..|more| - 1];
      NeverSignalledAgain(tickMs, slot, events, less, id);
      assert (events + more)[..|events + more| - 1] == events + less;
      RunKeeps(tickMs, slot, events + less);
      FrozenStep(Run(Start(tickMs, slot), events + less), more[|more| - 1], id);
    }
  }
}
