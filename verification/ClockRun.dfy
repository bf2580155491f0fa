/** The clock service over whole runs: the timer thread's two separate steps (the increment is
    outside the mutex, the sweep inside) interleaved in any way with client requests. */
module ClockRun {
  import opened Words
  import opened PoolModel
  import opened ClockModel

  /** What a successful set request asked for, and when: the number of clock periods since the
      start, and whether it fell between an increment and its sweep. */
  datatype Request = Request(tick: nat, mid: bool, periodic: bool, period: Word)

  /** The service with its history. `tickMs` is the clock period. */
  datatype World = World(
    tickMs: nat,
    clock: Clock,
    ticks: nat,
    mid: bool,
    used: set<Word>,
    log: seq<Signal>,
    requests: map<Word, Request>,
    fired: set<Word>,
    cancelled: set<Word>)

  datatype Event =
    | Increment
    | SweepNow
    | SetTimeout(periodic: Word, ms: Word, sender: Word, nextSlot: Word)
    | Cancel(id: Word)

  function Start(tickMs: nat, slot: Word): World {
    World(tickMs, Clock(0, [], slot), 0, false, {slot}, [], map[], {}, {})
  }

  /** The allocator never hands out a slot twice; the timer thread alternates its two steps. */
  predicate Enabled(w: World, e: Event) {
    match e
    case Increment => !w.mid
    case SweepNow => w.mid
    case SetTimeout(_, _, _, nextSlot) => nextSlot != CAP_NULL && nextSlot !in w.used
    case Cancel(_) => true
  }

  function Ids(es: seq<Timeout>): set<Word> {
    set t | t in es :: t.aep
  }

  function DueOneShots(es: seq<Timeout>, now: Word): set<Word> {
    set t | t in es && Due(t, now) && t.periodic == 0 :: t.aep
  }

  function Step(w: World, e: Event): World {
    if !Enabled(w, e) then w
    else match e
      case Increment =>
        w.(clock := AfterTick(w.clock, w.tickMs), ticks := w.ticks + 1, mid := true)
      case SweepNow =>
        w.(clock := AfterSweep(w.clock), mid := false,
           log := w.log + Signals(w.clock.entries, w.clock.time),
           fired := w.fired + DueOneShots(w.clock.entries, w.clock.time))
      case SetTimeout(periodic, ms, sender, nextSlot) =>
        var reply := ReplyOfSet(w.clock);
        w.(clock := AfterSet(w.clock, periodic, ms, sender, nextSlot), used := w.used + {nextSlot},
           requests := if reply.error != 0 then w.requests
                       else w.requests[reply.aep := Request(w.ticks, w.mid, periodic != 0, ms)])
      case Cancel(id) =>
        w.(clock := AfterCancel(w.clock, id),
           cancelled := w.cancelled + Ids(w.clock.entries) * {id})
  }

  function Run(w: World, events: seq<Event>): World
    decreases |events|
  {
    if events == [] then w else Step(Run(w, events[..|events| - 1]), events[|events| - 1])
  }

  /** The system times at which `id` has been signalled, in order. */
  function Times(log: seq<Signal>, id: Word): seq<Word>
    decreases |log|
  {
    if log == [] then []
    else Times(log[..|log| - 1], id) + if log[|log| - 1].aep == id then [log[|log| - 1].time] else []
  }

  function Lookup(es: seq<Timeout>, id: Word): Option<Timeout> {
    if Find(es, id) < |es| then Some(es[Find(es, id)]) else None
  }

  // ---------- what one step does to one id ----------

  lemma {:induction false} TimesAppend(a: seq<Signal>, b: seq<Signal>, id: Word)
    ensures Times(a + b, id) == Times(a, id) + Times(b, id)
    decreases |b|
  {
    if b == [] {
      assert a + b == a;
    } else {
      var c := b[..|b| - 1];
      TimesAppend(a, c, id);
      assert (a + b)[..|a + b| - 1] == a + c;
    }
  }

  lemma LookupCons(t: Timeout, es: seq<Timeout>, id: Word)
    ensures Lookup([t] + es, id) == if t.aep == id then Some(t) else Lookup(es, id)
  {
    assert ([t] + es)[1..] == es;
  }

  lemma LookupIds(es: seq<Timeout>, id: Word)
    ensures Lookup(es, id).Some? <==> id in Ids(es)
    ensures Lookup(es, id).Some? <==> HasId(es, id)
    ensures Lookup(es, id).Some? ==> Lookup(es, id).value in es && Lookup(es, id).value.aep == id
  {
    if id in Ids(es) {
      var t :| t in es && t.aep == id;
      var i :| 0 <= i < |es| && es[i] == t;
    }
  }

  lemma LookupUnique(es: seq<Timeout>, t: Timeout)
    requires UniqueIds(es) && t in es
    ensures Lookup(es, t.aep) == Some(t)
  {
    var i :| 0 <= i < |es| && es[i] == t;
    assert Find(es, t.aep) == i;
  }

  /** An id at the head of a list is nowhere else in it. */
  lemma HeadIdIsAlone(es: seq<Timeout>)
    requires UniqueIds(es) && es != []
    ensures UniqueIds(es[1..]) && Lookup(es[1..], es[0].aep) == None
  {
    var tail := es[1..];
    forall i | 0 <= i < |tail| ensures tail[i].aep != es[0].aep {
      assert es[i + 1] == tail[i];
    }
    LookupIds(tail, es[0].aep);
  }

  /** A sweep looks at each id on its own: it signals the id once if its timeout is due... */
  lemma {:induction false} SweepSignals(es: seq<Timeout>, now: Word, id: Word)
    requires UniqueIds(es)
    ensures var t := Lookup(es, id);
            Times(Signals(es, now), id) == if t.Some? && Due(t.value, now) then [now] else []
  {
    if es != [] {
      HeadIdIsAlone(es);
      SweepSignals(es[1..], now, id);
      var first := if Due(es[0], now) then [Signal(es[0].aep, now)] else [];
      TimesAppend(first, Signals(es[1..], now), id);
      if first != [] {
        assert first[..0] == [];
      }
    }
  }

  /** ... and keeps of it what Kept says. */
  lemma {:induction false} SweepKeeps(es: seq<Timeout>, now: Word, id: Word)
    requires UniqueIds(es)
    ensures var t := Lookup(es, id);
            Lookup(Survivors(es, now), id) ==
              if t == None || (Due(t.value, now) && t.value.periodic == 0) then None
              else if Due(t.value, now) then Some(Rearmed(t.value, now)) else t
  {
    if es != [] {
      HeadIdIsAlone(es);
      SweepKeeps(es[1..], now, id);
      var kept, rest := Kept(es[0], now), Survivors(es[1..], now);
      if kept == [] {
        assert kept + rest == rest;
      } else {
        LookupCons(kept[0], rest, id);
        assert kept == [kept[0]];
      }
    }
  }

  lemma CancelOnId(es: seq<Timeout>, gone: Word, id: Word)
    requires UniqueIds(es)
    ensures Lookup(Without(es, gone), id) == if id == gone then None else Lookup(es, id)
  {
    hide UniqueIds, HasId;
    CancelIsExact(es, gone);
    var r, k, i := Without(es, gone), Find(es, gone), Find(es, id);
    LookupIds(r, id);
    if id != gone && i < |es| {
      LookupUnique(r, r[if i < k then i else i - 1]);
    }
  }

  lemma SetOnId(es: seq<Timeout>, t: Timeout, id: Word)
    requires !HasId(es, t.aep)
    ensures Lookup(es + [t], id) == if id == t.aep then Some(t) else Lookup(es, id)
  {
    var j := Find(es, id);
    if j < |es| || id == t.aep {
      FindIs(es + [t], id, j);
    } else {
      FindIs(es + [t], id, |es| + 1);
    }
  }

  // ---------- when a request should be signalled ----------

  /** The last clock period whose sweep has been done. */
  function Swept(w: World): int {
    if w.mid then w.ticks - 1 else w.ticks
  }

  /** The first clock period whose sweep comes after the request. */
  function FirstSweep(r: Request): nat { if r.mid then r.tick else r.tick + 1 }

  /** What the 32-bit clock shows in clock period `m`. */
  function Shown(m: nat, tickMs: nat): Word { m * tickMs % WRAP }

  /** The 32-bit time a request waits for, once it has been signalled in the given clock periods. */
  function Armed(r: Request, tickMs: nat, fires: seq<nat>): Word {
    ((if fires == [] then r.tick else fires[|fires| - 1]) * tickMs + r.period) % WRAP
  }

  /** The clock periods up to `m` whose sweeps signal a request that is left alone: those that find
      the clock at or above the time it waits for. */
  function Expected(r: Request, tickMs: nat, m: int): (fires: seq<nat>)
    ensures forall k :: 0 <= k < |fires| ==> FirstSweep(r) <= fires[k] <= m
    decreases m - FirstSweep(r) + 1
  {
    if m < FirstSweep(r) then []
    else
      var before := Expected(r, tickMs, m - 1);
      if (before == [] || r.periodic) && Shown(m, tickMs) >= Armed(r, tickMs, before) then before + [m] else before
  }

  function TimesOf(fires: seq<nat>, tickMs: nat): seq<Word> {
    seq(|fires|, k requires 0 <= k < |fires| => Shown(fires[k], tickMs))
  }

  /** One id gets the signals its request should get, none but those, and as long as it is not
      cancelled all of them; while it is live its entry waits for the right time. */
  ghost predicate Tracked(w: World, id: Word)
    requires id in w.requests
  {
    var r, t := w.requests[id], Lookup(w.clock.entries, id);
    var fires := Expected(r, w.tickMs, Swept(w));
    && r.tick <= w.ticks && FirstSweep(r) <= Swept(w) + 1
    && Times(w.log, id) <= TimesOf(fires, w.tickMs)
    && (id !in w.cancelled ==> Times(w.log, id) == TimesOf(fires, w.tickMs))
    && (id in w.fired ==> |fires| == 1)
    && match t
       case None => true
       case Some(u) =>
         && u.aep != CAP_NULL && u.period == r.period && u.nextEvent == Armed(r, w.tickMs, fires)
         && (u.periodic != 0 <==> r.periodic) && (r.periodic || fires == [])
  }

  /** The id of a request is in exactly one place, live, fired or cancelled; a one-shot has been
      signalled once if it has fired and never before. */
  ghost predicate Placed(w: World, id: Word) {
    var t, n := Lookup(w.clock.entries, id), |Times(w.log, id)|;
    if id in w.requests then
      && id in w.used
      && (t.Some? ==> id !in w.fired && id !in w.cancelled && (t.value.periodic != 0 <==> w.requests[id].periodic))
      && (t == None ==> (id in w.fired <==> id !in w.cancelled))
      && (id in w.fired ==> !w.requests[id].periodic)
      && (!w.requests[id].periodic ==> n == if id in w.fired then 1 else 0)
    else
      t == None && id !in w.fired && id !in w.cancelled && n == 0
  }

  ghost predicate Accounted(w: World) {
    && w.clock.callerEp in w.used && w.clock.callerEp !in w.requests
    && forall id :: Placed(w, id)
  }

  ghost predicate AllTracked(w: World) {
    forall id :: id in w.requests ==> Tracked(w, id)
  }

  ghost predicate Inv(w: World) {
    && WellFormed(w.clock)
    && w.clock.time == Shown(w.ticks, w.tickMs)
    && (w.mid ==> w.ticks > 0)
    && Accounted(w)
    && AllTracked(w)
  }

  // ---------- what every step keeps ----------

  lemma ModAdd(x: nat, p: nat)
    ensures (x % WRAP + p) % WRAP == (x + p) % WRAP
  {
    assert x == (x / WRAP) * WRAP + x % WRAP;
    assert x + p == (x / WRAP) * WRAP + (x % WRAP + p);
  }

  lemma ShownNext(m: nat, tickMs: nat)
    ensures (Shown(m, tickMs) + tickMs) % WRAP == Shown(m + 1, tickMs)
  {
    ModAdd(m * tickMs, tickMs);
    assert (m + 1) * tickMs == m * tickMs + tickMs;
  }

  lemma IncrementTracks(w: World, id: Word)
    requires !w.mid && id in w.requests && Tracked(w, id)
    ensures Tracked(Step(w, Increment), id)
  {
    hide Expected, TimesOf, Armed, Shown, Times, Lookup;
  }

  lemma IncrementPlaces(w: World, id: Word)
    requires !w.mid && Placed(w, id)
    ensures Placed(Step(w, Increment), id)
  {
    hide Times, Lookup;
  }

  lemma IncrementKeeps(w: World)
    requires Inv(w) && !w.mid
    ensures Inv(Step(w, Increment))
  {
    var v := Step(w, Increment);
    hide Tracked, Placed, Shown, WellFormed;
    ShownNext(w.ticks, w.tickMs);
    TickKeepsWellFormed(w);
    forall id ensures Placed(v, id) {
      IncrementPlaces(w, id);
    }
    forall id | id in v.requests ensures Tracked(v, id) {
      IncrementTracks(w, id);
    }
  }

  lemma TickKeepsWellFormed(w: World)
    requires WellFormed(w.clock)
    ensures WellFormed(AfterTick(w.clock, w.tickMs))
  {
  }

  /** What the sweep adds to the signals of one id and leaves of its entry. */
  lemma SweepEffect(w: World, id: Word)
    requires UniqueIds(w.clock.entries) && w.mid
    ensures var v, t, now := Step(w, SweepNow), Lookup(w.clock.entries, id), w.clock.time;
            && Times(v.log, id) == Times(w.log, id) + (if t.Some? && Due(t.value, now) then [now] else [])
            && Lookup(v.clock.entries, id) ==
                 (if t == None || (Due(t.value, now) && t.value.periodic == 0) then None
                  else if Due(t.value, now) then Some(Rearmed(t.value, now)) else t)
            && (id in v.fired <==> id in w.fired || (t.Some? && Due(t.value, now) && t.value.periodic == 0))
  {
    var es, now := w.clock.entries, w.clock.time;
    TimesAppend(w.log, Signals(es, now), id);
    SweepSignals(es, now, id);
    SweepKeeps(es, now, id);
    LookupIds(es, id);
    if id in DueOneShots(es, now) {
      var u :| u in es && Due(u, now) && u.periodic == 0 && u.aep == id;
      LookupUnique(es, u);
    }
  }

  /** The sweep of clock period `m` adds that period to the expected ones, or nothing. */
  lemma ExpectedNext(r: Request, tickMs: nat, m: nat)
    requires FirstSweep(r) <= m
    ensures var before, after := Expected(r, tickMs, m - 1), Expected(r, tickMs, m);
            if (before == [] || r.periodic) && Shown(m, tickMs) >= Armed(r, tickMs, before)
            then after == before + [m] && TimesOf(after, tickMs) == TimesOf(before, tickMs) + [Shown(m, tickMs)]
                 && Armed(r, tickMs, after) == AddWord(Shown(m, tickMs), r.period)
            else after == before
  {
    ModAdd(m * tickMs, r.period);
  }

  lemma SweepTracks(w: World, id: Word)
    requires UniqueIds(w.clock.entries) && w.mid && w.ticks > 0 && w.clock.time == Shown(w.ticks, w.tickMs)
    requires id in w.requests && Placed(w, id) && Tracked(w, id)
    ensures Tracked(Step(w, SweepNow), id)
  {
    SweepEffect(w, id);
    ExpectedNext(w.requests[id], w.tickMs, w.ticks);
    hide Expected, TimesOf, Armed, Lookup, Times, Shown, UniqueIds, Survivors, Signals, DueOneShots;
  }

  lemma SweepPlaces(w: World, id: Word)
    requires w.mid && UniqueIds(w.clock.entries) && Placed(w, id)
    ensures Placed(Step(w, SweepNow), id)
  {
    SweepEffect(w, id);
  }

  lemma SweepNowKeeps(w: World)
    requires Inv(w) && w.mid
    ensures Inv(Step(w, SweepNow))
  {
    var v := Step(w, SweepNow);
    hide Tracked, Placed;
    SweepKeepsWellFormed(w.clock);
    forall id ensures Placed(v, id) {
      SweepPlaces(w, id);
    }
    forall id | id in v.requests ensures Tracked(v, id) {
      SweepTracks(w, id);
    }
  }

  lemma CancelStep(w: World, gone: Word, id: Word)
    requires UniqueIds(w.clock.entries)
    ensures var v := Step(w, Cancel(gone));
            && v == w.(clock := v.clock, cancelled := v.cancelled)
            && Lookup(v.clock.entries, id) == (if id == gone then None else Lookup(w.clock.entries, id))
            && (id in v.cancelled <==> id in w.cancelled || (id == gone && Lookup(w.clock.entries, id).Some?))
  {
    CancelOnId(w.clock.entries, gone, id);
    LookupIds(w.clock.entries, id);
    hide Lookup, UniqueIds, Ids, Without, HasId;
  }

  lemma CancelOne(w: World, gone: Word, id: Word)
    requires UniqueIds(w.clock.entries) && Placed(w, id)
    requires id in w.requests ==> Tracked(w, id)
    ensures var v := Step(w, Cancel(gone));
            Placed(v, id) && (id in v.requests ==> Tracked(v, id))
  {
    hide Expected, TimesOf, Armed, Times, Lookup, UniqueIds, Ids, Without, HasId, Step;
    CancelStep(w, gone, id);
  }

  lemma CancelKeeps(w: World, gone: Word)
    requires Inv(w)
    ensures Inv(Step(w, Cancel(gone)))
  {
    var v := Step(w, Cancel(gone));
    hide Tracked, Placed;
    CancelKeepsWellFormed(w.clock, gone);
    forall id ensures Placed(v, id)
      ensures id in v.requests ==> Tracked(v, id)
    {
      CancelOne(w, gone, id);
    }
  }

  /** What a set request changes, seen from one id. */
  lemma SetStep(w: World, periodic: Word, ms: Word, sender: Word, nextSlot: Word, id: Word)
    requires WellFormed(w.clock) && nextSlot != CAP_NULL && nextSlot !in w.used
    ensures var v, t := Step(w, SetTimeout(periodic, ms, sender, nextSlot)), NewTimeout(w.clock, periodic, ms, sender);
            var accepted := |w.clock.entries| < MAX_ENTRIES;
            && v == w.(clock := v.clock, used := w.used + {nextSlot}, requests := v.requests)
            && v.requests == (if accepted then w.requests[t.aep := Request(w.ticks, w.mid, periodic != 0, ms)] else w.requests)
            && Lookup(v.clock.entries, id) == (if accepted && id == t.aep then Some(t) else Lookup(w.clock.entries, id))
  {
    SetOnId(w.clock.entries, NewTimeout(w.clock, periodic, ms, sender), id);
    hide Lookup, UniqueIds;
  }

  lemma SetOne(w: World, periodic: Word, ms: Word, sender: Word, nextSlot: Word, id: Word)
    requires WellFormed(w.clock) && w.clock.time == Shown(w.ticks, w.tickMs)
    requires nextSlot != CAP_NULL && nextSlot !in w.used && w.clock.callerEp in w.used
    requires Placed(w, id) && w.clock.callerEp !in w.requests
    requires id in w.requests ==> Tracked(w, id)
    ensures var v := Step(w, SetTimeout(periodic, ms, sender, nextSlot));
            Placed(v, id) && (id in v.requests ==> Tracked(v, id))
  {
    SetStep(w, periodic, ms, sender, nextSlot, id);
    ModAdd(w.ticks * w.tickMs, ms);
    hide Step, Times, Lookup, UniqueIds;
    if id == w.clock.callerEp && |w.clock.entries| < MAX_ENTRIES {
      NothingExpectedYet(Request(w.ticks, w.mid, periodic != 0, ms), w.tickMs, Swept(w));
    }
    hide Expected;
  }

  lemma NothingExpectedYet(r: Request, tickMs: nat, m: int)
    requires m < FirstSweep(r)
    ensures Expected(r, tickMs, m) == [] && TimesOf([], tickMs) == []
  {
  }

  lemma SetKeeps(w: World, periodic: Word, ms: Word, sender: Word, nextSlot: Word)
    requires Inv(w) && nextSlot != CAP_NULL && nextSlot !in w.used
    ensures Inv(Step(w, SetTimeout(periodic, ms, sender, nextSlot)))
  {
    var v := Step(w, SetTimeout(periodic, ms, sender, nextSlot));
    LookupIds(w.clock.entries, nextSlot);
    assert Placed(w, nextSlot);
    hide Tracked;
    assert nextSlot !in v.requests;
    hide Placed;
    SetKeepsWellFormed(w.clock, periodic, ms, sender, nextSlot);
    forall id ensures Placed(v, id)
      ensures id in v.requests ==> Tracked(v, id)
    {
      SetOne(w, periodic, ms, sender, nextSlot, id);
    }
  }

  lemma StepKeeps(w: World, e: Event)
    requires Inv(w)
    ensures Inv(Step(w, e))
  {
    if Enabled(w, e) {
      match e
      case Increment => IncrementKeeps(w);
      case SweepNow => SweepNowKeeps(w);
      case SetTimeout(periodic, ms, sender, nextSlot) => SetKeeps(w, periodic, ms, sender, nextSlot);
      case Cancel(id) => CancelKeeps(w, id);
    }
  }

  /** In every reachable state, for any interleaving of the two threads and their clients. */
  lemma {:induction false} RunKeeps(tickMs: nat, slot: Word, events: seq<Event>)
    requires slot != CAP_NULL
    ensures Inv(Run(Start(tickMs, slot), events)) && Run(Start(tickMs, slot), events).tickMs == tickMs
    decreases |events|
  {
    if events != [] {
      RunKeeps(tickMs, slot, events[..|events| - 1]);
      StepKeeps(Run(Start(tickMs, slot), events[..|events| - 1]), events[|events| - 1]);
    }
  }
}
