/** sel4osapi_sysclock_t and the bodies of its two server threads, on the heap pool. */
module SysClock {
  import opened Words
  import opened PoolModel
  import opened List
  import opened Pool
  import opened ClockModel

  class SysClock {
    var time: Word
    const schedule: Pool<Timeout>
    const periodMs: nat
    /** The slot in which the server thread will receive the next caller's notification. */
    var callerEp: Word
    /** Messages sent so far by the timer thread. */
    var sent: seq<Signal>

    ghost function Repr(): set<object>
      reads this, schedule
    {
      {this} + schedule.Repr()
    }

    ghost predicate Ready()
      reads this, schedule, schedule.Repr()
    {
      && this !in schedule.Repr()
      && schedule.Valid() && schedule.size == MAX_ENTRIES
      && schedule.init == Some(InitTimeout) && schedule.compare == Some(CompareTimeout)
    }

    /** The scheduled timeouts. */
    ghost function Entries(): seq<Timeout>
      requires Ready()
      reads this, schedule, schedule.Repr()
    {
      schedule.Data()
    }

    ghost predicate Valid()
      reads this, schedule, schedule.Repr()
    {
      Ready() && WellFormed(Abs())
    }

    ghost function Abs(): Clock
      requires Ready()
      reads this, schedule, schedule.Repr()
    {
      Clock(time, Entries(), callerEp)
    }

    /** sel4osapi_sysclock_initialize */
    constructor (periodMs: nat, firstSlot: Word, raw: nat -> Timeout)
      requires firstSlot != CAP_NULL
      ensures Valid() && fresh(Repr())
      ensures Abs() == Clock(0, [], firstSlot) && sent == [] && this.periodMs == periodMs
    {
      this.periodMs := periodMs;
      time, callerEp, sent := 0, firstSlot, [];
      schedule := new Pool<Timeout>(MAX_ENTRIES, raw, Some(InitTimeout), Some(CompareTimeout));
    }

    /** Request SYSCLOCK_OP_GET_TIME */
    method GetTime() returns (t: Word)
      requires Valid()
      ensures t == Abs().time
    {
      t := time;
    }

    /** The part of a set request that runs under the mutex. */
    method InsertTimeout(periodic: Word, ms: Word, sender: Word) returns (reply: SetReply)
      requires Ready()
      modifies schedule.Repr()
      ensures Ready() && schedule.nodes == old(schedule.nodes) && schedule.elems == old(schedule.elems)
      ensures Abs() == AfterSet(old(Abs()), periodic, ms, sender, callerEp)
      ensures reply == ReplyOfSet(old(Abs()))
      ensures reply == if |old(Entries())| < MAX_ENTRIES then SetReply(0, callerEp, time) else SetReply(1, CAP_NULL, 0)
    {
      hide Els, Contents, Pool.Valid, Apply;
      ghost var before := Entries();
      schedule.FirstEntry();
      var newEntry := schedule.Alloc();
      if newEntry == null {
        return SetReply(1, CAP_NULL, 0);
      }
      var timeout: Element<Timeout> := newEntry;
      assert timeout.data.aep == CAP_NULL;
      var insertTime := time;
      var filled := timeout.data.(aep := callerEp, caller := sender, period := ms, periodic := periodic,
                                  nextEvent := AddWord(insertTime, ms));
      AppendThenSet(before, timeout.data, filled);
      schedule.Store(timeout, filled, |before|);
      return SetReply(0, callerEp, insertTime);
    }

    /** Request SYSCLOCK_OP_SET_TIMEOUT; `nextSlot` is the slot allocated after the reply. */
    method SetTimeout(periodic: Word, ms: Word, sender: Word, nextSlot: Word) returns (reply: SetReply)
      requires Valid()
      requires nextSlot != CAP_NULL && nextSlot != callerEp && !HasId(Entries(), nextSlot)
      modifies Repr()
      ensures Valid() && schedule.nodes == old(schedule.nodes) && schedule.elems == old(schedule.elems)
      ensures Abs() == AfterSet(old(Abs()), periodic, ms, sender, nextSlot)
      ensures reply == ReplyOfSet(old(Abs()))
      ensures reply == if |old(Entries())| < MAX_ENTRIES then SetReply(0, old(callerEp), time) else SetReply(1, CAP_NULL, 0)
      ensures sent == old(sent)
    {
      hide Els, Contents, Pool.Valid, Apply;
      SetKeepsWellFormed(Abs(), periodic, ms, sender, nextSlot);
      reply := InsertTimeout(periodic, ms, sender);
      callerEp := nextSlot;
    }

    /** Release of the timeout at position `k`, found by its own id. Its node becomes the last
        of the free list and its contents are initialised again. */
    method Release(entry: Node<Timeout>, ghost k: nat)
      requires Ready() && UniqueIds(Entries())
      requires k < |schedule.active| && schedule.active[k] == entry
      modifies schedule.Repr()
      ensures Ready() && schedule.nodes == old(schedule.nodes) && schedule.elems == old(schedule.elems)
      ensures schedule.active == RemoveAt(old(schedule.active), k) && Entries() == RemoveAt(old(Entries()), k)
      ensures entry.next == null && entry.el.data.aep == CAP_NULL
    {
      hide Els, Contents, Pool.Valid, Apply;
      schedule.NextEntry(k);
      var error := schedule.Free(entry.el, k);
      assert error == 0;
    }

    /** In the cancel loop: either no timeout before the cursor has the id, or the timeout with
        the id is gone and the cursor, no longer in the active list, is about to run out. */
    ghost predicate Cancelling(es: seq<Timeout>, id: Word, entry: Node?<Timeout>, k: nat, freed: bool)
      requires Ready()
      reads this, schedule, schedule.Repr()
      reads if entry == null then {} else {entry, entry.el}
    {
      if freed then
        && k == Find(es, id) < |es| && id != CAP_NULL && Entries() == Without(es, id)
        && (entry != null ==> entry.next == null && entry.el.data.aep == CAP_NULL)
      else
        && k <= |es| && Entries() == es && (forall i :: 0 <= i < k ==> es[i].aep != id)
        && entry == if k < |es| then schedule.active[k] else null
    }

    method CancelLoop(id: Word)
      requires Ready() && UniqueIds(Entries())
      modifies schedule.Repr()
      ensures Ready() && schedule.nodes == old(schedule.nodes) && schedule.elems == old(schedule.elems)
      ensures Entries() == Without(old(Entries()), id)
    {
      hide Els, Contents, Pool.Valid, Apply;
      hide Find, Without, RemoveAt;
      ghost var es, k, freed := Entries(), 0, false;
      schedule.FirstEntry();
      var entry := schedule.entries;
      while entry != null
        invariant Ready() && 0 <= k <= |es|
        invariant schedule.nodes == old(schedule.nodes) && schedule.elems == old(schedule.elems)
        invariant Cancelling(es, id, entry, k, freed)
        decreases !freed, |es| - k, entry != null
      {
        if entry.el.data.aep == id {
          FindIs(es, id, k);
          Release(entry, k);
          freed := true;
        } else {
          if !freed {
            schedule.NextEntry(k);
          }
          entry := entry.next;
          k := if freed then k else k + 1;
        }
      }
      FindIs(es, id, k);
    }

    /** Request SYSCLOCK_OP_CANCEL_TIMEOUT. The flag `done` of the original is never set, so the
        reply is always 1. */
    method CancelTimeout(id: Word) returns (reply: int)
      requires Valid()
      modifies schedule.Repr()
      ensures Valid() && schedule.nodes == old(schedule.nodes) && schedule.elems == old(schedule.elems)
      ensures Abs() == AfterCancel(old(Abs()), id)
      ensures reply == 1
    {
      hide Els, Contents, Pool.Valid, Apply;
      CancelKeepsWellFormed(Abs(), id);
      CancelLoop(id);
      reply := 1;
    }

    /** sel4osapi_sysclock_timer_thread, outside the mutex: one more period has passed. */
    method Tick()
      requires Valid()
      modifies this`time
      ensures Valid() && Abs() == AfterTick(old(Abs()), periodMs)
    {
      hide Els, Contents, Pool.Valid, Apply;
      time := (time + periodMs) % WRAP;
    }

    /** What the sweep does to the timeout at position `k`: signal it and re-arm or release it. */
    method Fire(timeout: Element<Timeout>, ghost k: nat)
      requires Ready() && UniqueIds(Entries())
      requires k < |schedule.active| && schedule.active[k].el == timeout && Due(timeout.data, time)
      modifies schedule.Repr(), this`sent
      ensures Ready() && schedule.nodes == old(schedule.nodes) && schedule.elems == old(schedule.elems)
      ensures sent == old(sent) + [Signal(old(timeout.data.aep), time)]
      ensures old(timeout.data.periodic) != 0 ==>
                schedule.active == old(schedule.active) && Entries() == old(Entries())[k := Rearmed(old(timeout.data), time)]
      ensures old(timeout.data.periodic) == 0 ==>
                schedule.active == RemoveAt(old(schedule.active), k) && Entries() == RemoveAt(old(Entries()), k)
    {
      hide Els, Contents, Pool.Valid, Apply;
      schedule.NextEntry(k);
      sent := sent + [Signal(timeout.data.aep, time)];
      if timeout.data.periodic != 0 {
        schedule.Store(timeout, timeout.data.(nextEvent := AddWord(time, timeout.data.period)), k);
      } else {
        var error := schedule.Free(timeout, k);
        assert error == 0;
      }
    }

    /** The sweep that began with `es` and `before` has reached position `k`. */
    ghost predicate Sweeping(es: seq<Timeout>, before: seq<Signal>, k: nat)
      requires Ready()
      reads this, schedule, schedule.Repr()
    {
      && UniqueIds(Entries()) && k <= |Entries()|
      && Outcome(Entries(), k, time) == Survivors(es, time)
      && AllSent(sent, Entries(), k, time) == before + Signals(es, time)
    }

    method VisitDue(timeout: Element<Timeout>, ghost k: nat, ghost es: seq<Timeout>, ghost before: seq<Signal>)
      returns (ghost now: nat)
      requires Ready() && Sweeping(es, before, k)
      requires k < |schedule.active| && schedule.active[k].el == timeout && Due(timeout.data, time)
      modifies schedule.Repr(), this`sent
      ensures schedule.nodes == old(schedule.nodes) && schedule.elems == old(schedule.elems)
      ensures Ready() && Sweeping(es, before, now)
      ensures |schedule.active| - now == |old(schedule.active)| - k - 1
      ensures now < |schedule.active| ==> schedule.active[now] == old(schedule.active)[k + 1]
    {
      hide Els, Contents, Pool.Valid, Apply;
      hide UniqueIds, Outcome, AllSent, Survivors, Signals;
      ghost var current, soFar := Entries(), sent;
      Fire(timeout, k);
      if current[k].periodic != 0 {
        RearmTurn(current, k, time, soFar);
        now := k + 1;
      } else {
        ReleaseTurn(current, k, time, soFar);
        now := k;
      }
    }

    /** The body of the sweep loop. */
    method Visit(entry: Node<Timeout>, ghost k: nat, ghost es: seq<Timeout>, ghost before: seq<Signal>)
      returns (next: Node?<Timeout>, ghost now: nat)
      requires Ready() && Sweeping(es, before, k)
      requires k < |schedule.active| && schedule.active[k] == entry
      modifies schedule.Repr(), this`sent
      ensures schedule.nodes == old(schedule.nodes) && schedule.elems == old(schedule.elems)
      ensures Ready() && Sweeping(es, before, now)
      ensures |schedule.active| - now == |old(schedule.active)| - k - 1
      ensures next == if now < |schedule.active| then schedule.active[now] else null
    {
      hide Els, Contents, Pool.Valid, Apply;
      var timeout := entry.el;
      schedule.NextEntry(k);
      next := entry.next;
      if timeout.data.aep != CAP_NULL && timeout.data.nextEvent <= time {
        now := VisitDue(timeout, k, es, before);
      } else {
        SkipTurn(Entries(), k, time, sent);
        now := k + 1;
      }
    }

    method SweepLoop()
      requires Ready() && UniqueIds(Entries())
      modifies schedule.Repr(), this`sent
      ensures Ready() && schedule.nodes == old(schedule.nodes) && schedule.elems == old(schedule.elems)
      ensures Entries() == Survivors(old(Entries()), time)
      ensures sent == old(sent) + Signals(old(Entries()), time)
    {
      hide Els, Contents, Pool.Valid, Apply;
      ghost var es, before, k := Entries(), sent, 0;
      SweepStart(es, time, before);
      schedule.FirstEntry();
      var entry := schedule.entries;
      while entry != null
        invariant Ready()
        invariant schedule.nodes == old(schedule.nodes) && schedule.elems == old(schedule.elems)
        invariant 0 <= k && Sweeping(es, before, k)
        invariant entry == if k < |schedule.active| then schedule.active[k] else null
        decreases |schedule.active| - k
      {
        entry, k := Visit(entry, k, es, before);
      }
      SweepEnd(Entries(), time, sent);
    }

    /** The sweep of sel4osapi_sysclock_timer_thread, under the mutex. */
    method Sweep()
      requires Valid()
      modifies schedule.Repr(), this`sent
      ensures Valid() && schedule.nodes == old(schedule.nodes) && schedule.elems == old(schedule.elems)
      ensures Abs() == AfterSweep(old(Abs()))
      ensures sent == old(sent) + Signals(old(Entries()), time)
    {
      hide Els, Contents, Pool.Valid, Apply;
      SweepKeepsWellFormed(Abs());
      SweepLoop();
    }
  }
}
