/** The system clock of src/clock.c on values: what one request, one time increment and one
    sweep do to the sequence of scheduled timeouts. */
module ClockModel {
  import opened Words
  import opened PoolModel

  const MAX_ENTRIES: nat := 100
  const CAP_NULL: Word := 0

  /** struct timeout_entry */
  datatype Timeout = Timeout(caller: Word, aep: Word, periodic: Word, period: Word, nextEvent: Word)

  /** A message sent to a notification: where, and the system time it carries. */
  datatype Signal = Signal(aep: Word, time: Word)

  datatype Clock = Clock(time: Word, entries: seq<Timeout>, callerEp: Word)

  datatype SetReply = SetReply(error: int, aep: Word, insertTime: Word)

  function AddWord(a: Word, b: Word): Word { (a + b) % WRAP }

  /** timer_entry_init: next_event keeps its value. */
  function InitTimeout(t: Timeout): Timeout {
    Timeout(0, CAP_NULL, 0, 0, t.nextEvent)
  }

  /** timer_entry_compare */
  function CompareTimeout(a: Timeout, b: Timeout): int {
    if a.aep == b.aep then 0 else if a.aep > b.aep then -1 else 1
  }

  predicate Due(t: Timeout, now: Word) {
    t.aep != CAP_NULL && t.nextEvent <= now
  }

  function Rearmed(t: Timeout, now: Word): Timeout {
    t.(nextEvent := AddWord(now, t.period))
  }

  /** What a sweep at time `now` leaves of one timeout: itself, itself re-armed, or nothing. */
  function Kept(t: Timeout, now: Word): seq<Timeout> {
    if !Due(t, now) then [t] else if t.periodic != 0 then [Rearmed(t, now)] else []
  }

  function Survivors(es: seq<Timeout>, now: Word): seq<Timeout> {
    if es == [] then [] else Kept(es[0], now) + Survivors(es[1..], now)
  }

  /** The signals of a sweep, in scheduling order. */
  function Signals(es: seq<Timeout>, now: Word): seq<Signal> {
    if es == [] then []
    else (if Due(es[0], now) then [Signal(es[0].aep, now)] else []) + Signals(es[1..], now)
  }

  /** Position of the timeout with this id, or the number of timeouts. */
  function Find(es: seq<Timeout>, id: Word): (k: nat)
    ensures k <= |es|
    ensures k < |es| ==> es[k].aep == id
    ensures forall i :: 0 <= i < k ==> es[i].aep != id
  {
    if es == [] then 0 else if es[0].aep == id then 0 else 1 + Find(es[1..], id)
  }

  function Without(es: seq<Timeout>, id: Word): seq<Timeout> {
    if Find(es, id) < |es| then RemoveAt(es, Find(es, id)) else es
  }

  lemma FindIs(es: seq<Timeout>, id: Word, k: nat)
    requires k <= |es| && forall i :: 0 <= i < k ==> es[i].aep != id
    requires k < |es| ==> es[k].aep == id
    ensures Find(es, id) == k && Without(es, id) == if k < |es| then RemoveAt(es, k) else es
  {
  }

  function AfterTick(c: Clock, period: nat): Clock {
    c.(time := (c.time + period) % WRAP)
  }

  function AfterSweep(c: Clock): Clock {
    c.(entries := Survivors(c.entries, c.time))
  }

  function AfterCancel(c: Clock, id: Word): Clock {
    c.(entries := Without(c.entries, id))
  }

  function NewTimeout(c: Clock, periodic: Word, ms: Word, sender: Word): Timeout {
    Timeout(sender, c.callerEp, periodic, ms, AddWord(c.time, ms))
  }

  /** A set request consumes the reserved slot whether or not there is room. */
  function AfterSet(c: Clock, periodic: Word, ms: Word, sender: Word, nextSlot: Word): Clock {
    if |c.entries| >= MAX_ENTRIES then c.(callerEp := nextSlot)
    else Clock(c.time, c.entries + [NewTimeout(c, periodic, ms, sender)], nextSlot)
  }

  function ReplyOfSet(c: Clock): SetReply {
    if |c.entries| >= MAX_ENTRIES then SetReply(1, CAP_NULL, 0) else SetReply(0, c.callerEp, c.time)
  }

  /** Every timeout has an id, and no two have the same. */
  ghost predicate UniqueIds(es: seq<Timeout>) {
    && (forall i :: 0 <= i < |es| ==> es[i].aep != CAP_NULL)
    && (forall i, j :: 0 <= i < j < |es| ==> es[i].aep != es[j].aep)
  }

  ghost predicate HasId(es: seq<Timeout>, id: Word) {
    exists i :: 0 <= i < |es| && es[i].aep == id
  }

  /** What every operation keeps: ids are unique and the reserved slot is not one of them. */
  ghost predicate WellFormed(c: Clock) {
    && UniqueIds(c.entries)
    && |c.entries| <= MAX_ENTRIES
    && c.callerEp != CAP_NULL && !HasId(c.entries, c.callerEp)
  }

  lemma SetKeepsWellFormed(c: Clock, periodic: Word, ms: Word, sender: Word, nextSlot: Word)
    requires WellFormed(c)
    requires nextSlot != CAP_NULL && nextSlot != c.callerEp && !HasId(c.entries, nextSlot)
    ensures WellFormed(AfterSet(c, periodic, ms, sender, nextSlot))
  {
    var es := AfterSet(c, periodic, ms, sender, nextSlot).entries;
    forall i | 0 <= i < |es| ensures es[i].aep != nextSlot {
      assert i < |c.entries| ==> es[i] == c.entries[i];
    }
  }

  /** A cancel removes exactly the timeout with the given id, if there is one, and keeps the
      others in their order. */
  lemma CancelIsExact(es: seq<Timeout>, id: Word)
    requires UniqueIds(es)
    ensures UniqueIds(Without(es, id))
    ensures !HasId(Without(es, id), id)
    ensures HasId(es, id) ==> |Without(es, id)| == |es| - 1
    ensures !HasId(es, id) ==> Without(es, id) == es
    ensures forall i :: 0 <= i < Find(es, id) ==> Without(es, id)[i] == es[i]
    ensures forall i :: Find(es, id) < i < |es| ==> Without(es, id)[i - 1] == es[i]
  {
    var r, k := Without(es, id), Find(es, id);
    if k < |es| {
      assert HasId(es, id);
      assert forall i :: 0 <= i < |r| ==> r[i] == if i < k then es[i] else es[i + 1];
    }
  }

  lemma CancelKeepsWellFormed(c: Clock, id: Word)
    requires WellFormed(c)
    ensures WellFormed(AfterCancel(c, id))
  {
    CancelIsExact(c.entries, id);
    var r, k := Without(c.entries, id), Find(c.entries, id);
    forall i | 0 <= i < |r| ensures r[i].aep != c.callerEp {
      assert r[i] == if i < k then c.entries[i] else c.entries[i + 1];
    }
  }

  /** A caller whose request is accepted is told a real id and the time of the request: cancelling that id
      undoes exactly this request, and the new timeout, with the caller's own arguments, waits for that
      time plus the delay. When there is no room the caller is told so, and nothing is scheduled. */
  lemma SetRepliesTheId(c: Clock, periodic: Word, ms: Word, sender: Word, nextSlot: Word)
    requires WellFormed(c)
    ensures var reply, after := ReplyOfSet(c), AfterSet(c, periodic, ms, sender, nextSlot);
            if |c.entries| < MAX_ENTRIES then
              && reply.error == 0 && reply.aep != CAP_NULL && !HasId(c.entries, reply.aep)
              && reply.insertTime == c.time == after.time
              && |after.entries| == |c.entries| + 1 && c.entries < after.entries
              && after.entries[|c.entries|] == Timeout(sender, reply.aep, periodic, ms, AddWord(reply.insertTime, ms))
              && Without(after.entries, reply.aep) == c.entries
            else
              && reply.error == 1 && reply.aep == CAP_NULL && after.entries == c.entries
  {
    if |c.entries| < MAX_ENTRIES {
      FindIs(AfterSet(c, periodic, ms, sender, nextSlot).entries, c.callerEp, |c.entries|);
    }
  }

  /** Ids found after a sweep were there before it. */
  lemma {:induction false} SurvivorIds(es: seq<Timeout>, now: Word)
    ensures |Survivors(es, now)| <= |es|
    ensures forall u :: u in Survivors(es, now) ==> exists i :: 0 <= i < |es| && es[i].aep == u.aep
  {
    if es != [] {
      SurvivorIds(es[1..], now);
      forall u | u in Survivors(es, now) ensures exists i :: 0 <= i < |es| && es[i].aep == u.aep {
        if u in Survivors(es[1..], now) {
          var i :| 0 <= i < |es[1..]| && es[1..][i].aep == u.aep;
          assert es[i + 1].aep == u.aep;
        } else {
          assert es[0].aep == u.aep;
        }
      }
    }
  }

  lemma {:induction false} SweepKeepsUnique(es: seq<Timeout>, now: Word)
    requires UniqueIds(es)
    ensures UniqueIds(Survivors(es, now))
  {
    if es != [] {
      var rest := Survivors(es[1..], now);
      assert UniqueIds(es[1..]);
      SweepKeepsUnique(es[1..], now);
      SurvivorIds(es[1..], now);
      forall i | 0 <= i < |rest| ensures rest[i].aep != es[0].aep {
        assert rest[i] in rest;
      }
    }
  }

  lemma SweepKeepsWellFormed(c: Clock)
    requires WellFormed(c)
    ensures WellFormed(AfterSweep(c))
  {
    SweepKeepsUnique(c.entries, c.time);
    SurvivorIds(c.entries, c.time);
    var r := Survivors(c.entries, c.time);
    forall i | 0 <= i < |r| ensures r[i].aep != c.callerEp {
      assert r[i] in r;
    }
  }

  lemma RearmKeepsUnique(es: seq<Timeout>, k: nat, t: Timeout)
    requires UniqueIds(es) && k < |es| && t.aep == es[k].aep
    ensures UniqueIds(es[k := t])
  {
    var r := es[k := t];
    forall i, j | 0 <= i < j < |r| ensures r[i].aep != r[j].aep {
      assert es[i].aep != es[j].aep;
    }
  }

  lemma RemovalKeepsUnique(es: seq<Timeout>, k: nat)
    requires UniqueIds(es) && k < |es|
    ensures UniqueIds(RemoveAt(es, k))
  {
    var r := RemoveAt(es, k);
    forall i, j | 0 <= i < j < |r| ensures r[i].aep != r[j].aep {
      assert es[if i < k then i else i + 1].aep != es[if j < k then j else j + 1].aep;
    }
  }

  /** The timeouts and the signals that a sweep will have produced in the end, when it has
      reached position `k` of the current list. */
  function Outcome(es: seq<Timeout>, k: nat, now: Word): seq<Timeout>
    requires k <= |es|
  {
    es[..k] + Survivors(es[k..], now)
  }

  function AllSent(sent: seq<Signal>, es: seq<Timeout>, k: nat, now: Word): seq<Signal>
    requires k <= |es|
  {
    sent + Signals(es[k..], now)
  }

  lemma SweepStart(es: seq<Timeout>, now: Word, sent: seq<Signal>)
    ensures Outcome(es, 0, now) == Survivors(es, now)
    ensures AllSent(sent, es, 0, now) == sent + Signals(es, now)
  {
    assert es[0..] == es;
  }

  lemma SweepEnd(es: seq<Timeout>, now: Word, sent: seq<Signal>)
    ensures Outcome(es, |es|, now) == es
    ensures AllSent(sent, es, |es|, now) == sent
  {
  }

  lemma SkipTurn(es: seq<Timeout>, k: nat, now: Word, sent: seq<Signal>)
    requires k < |es| && !Due(es[k], now)
    ensures Outcome(es, k + 1, now) == Outcome(es, k, now)
    ensures AllSent(sent, es, k + 1, now) == AllSent(sent, es, k, now)
  {
    assert es[..k + 1] == es[..k] + [es[k]];
    assert es[k..][1..] == es[k + 1..];
  }

  lemma RearmTurn(es: seq<Timeout>, k: nat, now: Word, sent: seq<Signal>)
    requires UniqueIds(es) && k < |es| && Due(es[k], now) && es[k].periodic != 0
    ensures var r := es[k := Rearmed(es[k], now)];
            && UniqueIds(r)
            && Outcome(r, k + 1, now) == Outcome(es, k, now)
            && AllSent(sent + [Signal(es[k].aep, now)], r, k + 1, now) == AllSent(sent, es, k, now)
  {
    var t := Rearmed(es[k], now);
    RearmKeepsUnique(es, k, t);
    assert es[k := t][..k + 1] == es[..k] + [t];
    assert es[k := t][k + 1..] == es[k..][1..];
  }

  lemma ReleaseTurn(es: seq<Timeout>, k: nat, now: Word, sent: seq<Signal>)
    requires UniqueIds(es) && k < |es| && Due(es[k], now) && es[k].periodic == 0
    ensures var r := RemoveAt(es, k);
            && UniqueIds(r)
            && Outcome(r, k, now) == Outcome(es, k, now)
            && AllSent(sent + [Signal(es[k].aep, now)], r, k, now) == AllSent(sent, es, k, now)
  {
    RemovalKeepsUnique(es, k);
    assert RemoveAt(es, k)[..k] == es[..k];
    assert RemoveAt(es, k)[k..] == es[k..][1..];
  }
}
