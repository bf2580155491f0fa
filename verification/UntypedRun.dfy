/** Ownership of the untypeds over runs of process create and delete. */
module UntypedRun {
  import opened Words
  import opened UntypedModel

  datatype Process = Process(env: Env, live: bool)

  /** The root task's tables, and the processes in order of creation: process structures are never
      given back to their pool, so the k-th process created has pid k. */
  datatype State = State(table: Table, bits: seq<Bits>, quota: Word, most: nat, capacity: nat, procs: seq<Process>)

  /** `slot` is the first free slot of the new process's capability space. A process is deleted once. */
  datatype Event = Create(slot: nat) | Delete(p: nat)

  /** Delete finds either what create recorded, or the index 0 that was there before. */
  predicate RecordOk(s: State, p: nat)
    requires p < |s.procs|
  {
    var env := s.procs[p].env;
    && env.pid == p + 1 && |env.indices| == |env.sizes| == s.capacity
    && (env.start == 0 ==> Returned(env) == [0])
  }

  /** The number of untypeds is kept in a byte. */
  ghost predicate Shaped(s: State) {
    && 0 < |s.table| == |s.bits| <= s.capacity && |s.table| < 0x100 && |s.procs| <= s.most
    && forall p :: 0 <= p < |s.procs| ==> RecordOk(s, p)
  }

  predicate Enabled(s: State, e: Event) {
    match e
    case Create(slot) => |s.procs| < s.most && |s.table| <= |s.bits| && |s.table| <= s.capacity && 0 < slot < WRAP - |s.table|
    case Delete(p) => p < |s.procs| && s.procs[p].live
  }

  function Step(s: State, e: Event): State {
    if !Enabled(s, e) then s
    else match e
      case Create(slot) =>
        var pid, cells := |s.procs| + 1, TakenBy(s.table, s.bits, s.quota);
        s.(table := Marked(s.table, cells, pid % 0x100),
           procs := s.procs + [Process(Recorded(NewEnv(pid, s.capacity), s.bits, cells, slot), true)])
      case Delete(p) =>
        s.(table := AfterDelete(s.table, s.procs[p].env), procs := s.procs[p := s.procs[p].(live := false)])
  }

  function Run(s: State, events: seq<Event>): State
    decreases |events|
  {
    if events == [] then s else Step(Run(s, events[..|events| - 1]), events[|events| - 1])
  }

  /** The untypeds that a process got, according to its record; slot 0 says that it got none. */
  function Assigned(env: Env): seq<Byte> { if env.start == 0 then [] else Returned(env) }

  /** The live process `p` has untyped `i`. */
  predicate Has(s: State, p: nat, i: nat) {
    p < |s.procs| && s.procs[p].live && i in Assigned(s.procs[p].env)
  }

  /** The table names process p as the owner of an untyped exactly when p is alive and has it. */
  ghost predicate Ownership(s: State) {
    && (forall i :: 0 <= i < |s.table| ==> s.table[i] <= |s.procs|)
    && (forall p, i :: 0 <= p < |s.procs| && 0 <= i < |s.table| ==> (s.table[i] == p + 1 <==> Has(s, p, i)))
  }

  // ---------- shape ----------

  /** What create leaves in the record. */
  lemma CreateRecord(s: State, slot: nat)
    requires Shaped(s) && Enabled(s, Create(slot))
    ensures var v, cells, n := Step(s, Create(slot)), TakenBy(s.table, s.bits, s.quota), |s.procs|;
            && |v.procs| == n + 1 && v.procs[n].live && RecordOk(v, n)
            && (forall p :: 0 <= p < n ==> v.procs[p] == s.procs[p])
            && Assigned(v.procs[n].env) == cells
            && (v.procs[n].env.start == 0 <==> cells == [])
  {
    var cells := TakenBy(s.table, s.bits, s.quota);
    RecordReturnsWhatWasTaken(|s.procs| + 1, s.capacity, s.bits, cells, slot);
  }

  /** Creating is possible as long as there are process structures, deleting as long as the process lives;
      neither touches the settings or the records of other processes. */
  lemma StepShape(s: State, e: Event)
    requires Shaped(s)
    ensures match e
            case Create(slot) => Enabled(s, e) <==> |s.procs| < s.most && 0 < slot < WRAP - |s.table|
            case Delete(p) => Enabled(s, e) <==> p < |s.procs| && s.procs[p].live
    ensures var v := Step(s, e);
            && v.bits == s.bits && v.quota == s.quota && v.most == s.most && v.capacity == s.capacity
            && |s.procs| <= |v.procs|
            && (forall q :: 0 <= q < |s.procs| && !(e.Delete? && e.p == q) ==> v.procs[q] == s.procs[q])
            && (Enabled(s, e) && e.Delete? ==> !v.procs[e.p].live && v.procs[e.p].env == s.procs[e.p].env)
  {
  }

  lemma StepKeepsShape(s: State, e: Event)
    requires Shaped(s)
    ensures Shaped(Step(s, e))
  {
    var v := Step(s, e);
    if Enabled(s, e) && e.Create? {
      CreateRecord(s, e.slot);
    }
    forall p | 0 <= p < |s.procs| ensures RecordOk(v, p) {
      assert RecordOk(s, p) && v.procs[p].env == s.procs[p].env;
    }
  }

  // ---------- create ----------

  lemma CreateMarks(s: State, slot: nat, i: nat)
    requires Shaped(s) && Enabled(s, Create(slot)) && i < |s.table|
    ensures var v, cells := Step(s, Create(slot)), TakenBy(s.table, s.bits, s.quota);
            |v.table| == |s.table| && v.table[i] == if i in cells then (|s.procs| + 1) % 0x100 else s.table[i]
  {
  }

  lemma TakenAreFree(s: State, i: nat)
    requires |s.table| <= |s.bits| && i < |s.table| && i in TakenBy(s.table, s.bits, s.quota)
    ensures s.table[i] == 0
  {
    hide TakenBy;
  }

  /** One cell, for one process, before and after a new process was given `cells`. */
  lemma OwnerAfter(s: State, v: State, cells: seq<nat>, p: nat, i: nat)
    requires |v.procs| == |s.procs| + 1 && i < |s.table| == |v.table|
    requires forall q :: 0 <= q < |s.procs| ==> v.procs[q] == s.procs[q]
    requires v.procs[|s.procs|].live && Assigned(v.procs[|s.procs|].env) == cells
    requires v.table[i] == if i in cells then |s.procs| + 1 else s.table[i]
    requires (i in cells ==> s.table[i] == 0) && s.table[i] <= |s.procs|
    requires p < |s.procs| ==> (s.table[i] == p + 1 <==> Has(s, p, i))
    ensures v.table[i] <= |v.procs|
    ensures p < |v.procs| ==> (v.table[i] == p + 1 <==> Has(v, p, i))
  {
    hide Assigned;
  }

  lemma CreateKeeps(s: State, slot: nat)
    requires Shaped(s) && Ownership(s) && Enabled(s, Create(slot)) && |s.procs| + 1 < 0x100
    ensures Ownership(Step(s, Create(slot)))
  {
    var v, cells := Step(s, Create(slot)), TakenBy(s.table, s.bits, s.quota);
    CreateRecord(s, slot);
    CreateMarks(s, slot, 0);
    hide TakenBy, Step, Enabled, RecordOk, Has, Assigned;
    forall p, i | 0 <= p < |v.procs| && 0 <= i < |v.table|
      ensures v.table[i] <= |v.procs| && (v.table[i] == p + 1 <==> Has(v, p, i))
    {
      CreateMarks(s, slot, i);
      Owner(s, i, p);
      if i in cells {
        TakenAreFree(s, i);
      }
      OwnerAfter(s, v, cells, p, i);
    }
  }

  lemma Owner(s: State, i: nat, p: nat)
    requires Ownership(s) && i < |s.table|
    ensures s.table[i] <= |s.procs|
    ensures p < |s.procs| ==> (s.table[i] == p + 1 <==> Has(s, p, i))
  {
  }

  /** Create keeps ownership exactly as long as the pid it stores fits a byte. */
  lemma CreateKeepsOwnership(s: State, slot: nat)
    requires Shaped(s) && Ownership(s) && Enabled(s, Create(slot))
    ensures Ownership(Step(s, Create(slot)))
            <==> TakenBy(s.table, s.bits, s.quota) == [] || |s.procs| + 1 < 0x100
  {
    if TakenBy(s.table, s.bits, s.quota) == [] {
      NothingMarked(s, slot);
    } else if |s.procs| + 1 < 0x100 {
      CreateKeeps(s, slot);
    } else {
      CreateRecord(s, slot);
      hide TakenBy, Step, Enabled, Ownership, Assigned;
      PidTooBig(Step(s, Create(slot)), |s.procs|, TakenBy(s.table, s.bits, s.quota)[0]);
    }
  }

  lemma PidTooBig(s: State, p: nat, i: nat)
    requires p < |s.procs| && p + 1 >= 0x100 && i < |s.table| && Has(s, p, i)
    ensures !Ownership(s)
  {
    hide Assigned;
  }

  /** A process that gets nothing changes nothing. */
  lemma NothingMarked(s: State, slot: nat)
    requires Shaped(s) && Ownership(s) && Enabled(s, Create(slot)) && TakenBy(s.table, s.bits, s.quota) == []
    ensures Ownership(Step(s, Create(slot)))
  {
    var v, n := Step(s, Create(slot)), |s.procs|;
    CreateRecord(s, slot);
    assert v.table == s.table;
    forall p, i | 0 <= p < |v.procs| && 0 <= i < |v.table| ensures v.table[i] == p + 1 <==> Has(v, p, i) {
      assert s.table[i] <= n;
      if p < n {
        assert s.table[i] == p + 1 <==> Has(s, p, i);
      }
    }
  }

  // ---------- delete ----------

  lemma DeleteClears(s: State, p: nat, i: nat)
    requires Shaped(s) && Enabled(s, Delete(p)) && i < |s.table|
    ensures var v := Step(s, Delete(p));
            |v.table| == |s.table| && v.table[i] == if i in Returned(s.procs[p].env) then 0 else s.table[i]
  {
  }

  /** Delete keeps ownership exactly when the process got an untyped, or untyped 0 is free. */
  lemma DeleteKeepsOwnership(s: State, p: nat)
    requires Shaped(s) && Ownership(s) && Enabled(s, Delete(p))
    ensures Ownership(Step(s, Delete(p))) <==> s.procs[p].env.start != 0 || s.table[0] == 0
  {
    var v := Step(s, Delete(p));
    assert RecordOk(s, p);
    if s.procs[p].env.start != 0 || s.table[0] == 0 {
      forall q, i | 0 <= q < |v.procs| && 0 <= i < |v.table|
        ensures v.table[i] <= |v.procs| && (v.table[i] == q + 1 <==> Has(v, q, i))
      {
        DeleteClears(s, p, i);
        assert s.table[i] <= |s.procs|;
        assert s.table[i] == q + 1 <==> Has(s, q, i);
        assert s.table[i] == p + 1 <==> Has(s, p, i);
      }
    } else {
      var q := s.table[0] - 1;
      assert s.table[0] <= |s.procs|;
      assert Has(s, q, 0);
      assert !Has(s, p, 0);
      assert Has(v, q, 0);
      DeleteClears(s, p, 0);
      assert v.table[0] == 0;
    }
  }

  // ---------- runs ----------

  /** The guard for each event: the pid fits a byte; the process got an untyped, or untyped 0 is free. */
  predicate Guarded(s: State, e: Event) {
    match e
    case Create(_) => |s.procs| + 1 < 0x100
    case Delete(p) => p < |s.procs| && |s.table| > 0 && (s.procs[p].env.start != 0 || s.table[0] == 0)
  }

  ghost predicate GuardedRun(s: State, events: seq<Event>)
    decreases |events|
  {
    if events == [] then true
    else GuardedRun(s, events[..|events| - 1]) && Guarded(Run(s, events[..|events| - 1]), events[|events| - 1])
  }

  /** The root task after its tables have been initialised. */
  function Start(bits: seq<Bits>, quota: Word, most: nat, capacity: nat): State {
    State(Zeros(|bits|), bits, quota, most, capacity, [])
  }

  lemma StartOwned(bits: seq<Bits>, quota: Word, most: nat, capacity: nat)
    requires 0 < |bits| < 0x100 && |bits| <= capacity
    ensures Shaped(Start(bits, quota, most, capacity)) && Ownership(Start(bits, quota, most, capacity))
    ensures var s := Start(bits, quota, most, capacity);
            && s.bits == bits && s.quota == quota && s.most == most && s.capacity == capacity && s.procs == []
            && |s.table| == |bits| && forall i :: 0 <= i < |bits| ==> s.table[i] == 0
  {
  }

  /** Guarded events keep the table and the records of the live processes in agreement. */
  lemma {:induction false} RunKeepsOwnership(s: State, events: seq<Event>)
    requires Shaped(s) && Ownership(s) && GuardedRun(s, events)
    ensures Shaped(Run(s, events)) && Ownership(Run(s, events)) && |Run(s, events).table| == |s.table|
    decreases |events|
  {
    if events != [] {
      var before, e := Run(s, events[..|events| - 1]), events[|events| - 1];
      RunKeepsOwnership(s, events[..|events| - 1]);
      StepKeepsShape(before, e);
      hide Ownership, Shaped;
      if Enabled(before, e) {
        match e
        case Create(slot) => CreateKeepsOwnership(before, slot);
        case Delete(p) => DeleteKeepsOwnership(before, p);
      }
    }
  }

  /** The states that guarded creates and deletes reach from the initialised root task. */
  ghost predicate Reachable(s: State) {
    exists bits, quota, most, capacity, events ::
      && 0 < |bits| < 0x100 && |bits| <= capacity
      && GuardedRun(Start(bits, quota, most, capacity), events)
      && s == Run(Start(bits, quota, most, capacity), events)
  }

  /** There an untyped is marked with a pid exactly when the process with that pid is alive and has
      the untyped in its record, and it is free exactly when no live process has it. */
  lemma TableIsExact(s: State, i: nat)
    requires Reachable(s) && i < |s.table|
    ensures Shaped(s) && Ownership(s)
    ensures forall p :: 0 <= p < |s.procs| ==> (s.table[i] == p + 1 <==> Has(s, p, i))
    ensures s.table[i] == 0 <==> forall p :: 0 <= p < |s.procs| ==> !Has(s, p, i)
  {
    var bits, quota, most, capacity, events :|
      && 0 < |bits| < 0x100 && |bits| <= capacity
      && GuardedRun(Start(bits, quota, most, capacity), events)
      && s == Run(Start(bits, quota, most, capacity), events);
    StartOwned(bits, quota, most, capacity);
    RunKeepsOwnership(Start(bits, quota, most, capacity), events);
    hide Run, Start, GuardedRun, Shaped, Has;
    if s.table[i] != 0 {
      Owner(s, i, s.table[i] - 1);
    }
  }

  /** So no untyped has two owners. */
  lemma OneOwner(s: State, p: nat, q: nat, i: nat)
    requires Reachable(s) && i < |s.table| && Has(s, p, i) && Has(s, q, i)
    ensures p == q
  {
    TableIsExact(s, i);
    Owner(s, i, p);
    Owner(s, i, q);
  }

  /** The record of a process does not change once it has been created. */
  lemma {:induction false} RecordsLast(s: State, events: seq<Event>, p: nat)
    requires p < |s.procs|
    ensures p < |Run(s, events).procs| && Run(s, events).procs[p].env == s.procs[p].env
    decreases |events|
  {
    if events != [] {
      RecordsLast(s, events[..|events| - 1], p);
    }
  }

  lemma DeleteReturns(s: State, p: nat, cells: seq<nat>)
    requires Shaped(s) && Ownership(s) && Enabled(s, Delete(p)) && Assigned(s.procs[p].env) == cells != []
    ensures var v := Step(s, Delete(p));
            && |v.table| == |s.table|
            && forall i :: 0 <= i < |s.table| ==>
                 (s.table[i] == p + 1 <==> i in cells) && v.table[i] == if i in cells then 0 else s.table[i]
  {
    hide Shaped, Ownership;
    forall i | 0 <= i < |s.table|
      ensures s.table[i] == p + 1 <==> i in cells
      ensures Step(s, Delete(p)).table[i] == if i in cells then 0 else s.table[i]
    {
      DeleteClears(s, p, i);
      Owner(s, i, p);
    }
  }

  /** Delete returns exactly what create took, whatever was created and deleted in between. */
  lemma DeleteReturnsWhatCreateTook(s: State, slot: nat, events: seq<Event>)
    requires Shaped(s) && Ownership(s) && GuardedRun(Step(s, Create(slot)), events)
    requires Enabled(s, Create(slot)) && Guarded(s, Create(slot)) && TakenBy(s.table, s.bits, s.quota) != []
    requires Enabled(Run(Step(s, Create(slot)), events), Delete(|s.procs|))
    ensures var cells, p, later := TakenBy(s.table, s.bits, s.quota), |s.procs|, Run(Step(s, Create(slot)), events);
            && |Step(later, Delete(p)).table| == |later.table|
            && forall i :: 0 <= i < |later.table| ==>
                 && (later.table[i] == p + 1 <==> i in cells)
                 && Step(later, Delete(p)).table[i] == if i in cells then 0 else later.table[i]
  {
    var made := Step(s, Create(slot));
    CreateRecord(s, slot);
    CreateKeepsOwnership(s, slot);
    StepKeepsShape(s, Create(slot));
    hide TakenBy, Run, GuardedRun, Ownership, Shaped, Step, Enabled, Assigned;
    RecordsLast(made, events, |s.procs|);
    RunKeepsOwnership(made, events);
    DeleteReturns(Run(made, events), |s.procs|, TakenBy(s.table, s.bits, s.quota));
  }

  lemma {:induction false} NothingFree(table: Table, bits: seq<Bits>, quota: Word, i: nat)
    requires i <= |table| <= |bits| && forall k :: i <= k < |table| ==> table[k] != 0
    ensures Chosen(table, bits, quota, i, 0) == []
    decreases |table| - i
  {
    if i < |table| {
      NothingFree(table, bits, quota, i + 1);
    }
  }

  /** Create gives a free untyped 0 to the new process, and takes nothing from the others. */
  lemma FirstIsTaken(s: State, slot: nat, q: nat)
    requires Shaped(s) && Enabled(s, Create(slot)) && s.table[0] == 0 && s.quota > 0 && Has(s, q, 0)
    ensures Has(Step(s, Create(slot)), |s.procs|, 0) && Has(Step(s, Create(slot)), q, 0)
  {
    CreateRecord(s, slot);
    TakesFirst(s);
    hide TakenBy, Step, Enabled, Shaped, Assigned;
    assert Assigned(Step(s, Create(slot)).procs[|s.procs|].env)[0] == 0;
  }

  lemma TakesFirst(s: State)
    requires 0 < |s.table| <= |s.bits| && s.table[0] == 0 && s.quota > 0
    ensures TakenBy(s.table, s.bits, s.quota) != [] && TakenBy(s.table, s.bits, s.quota)[0] == 0
  {
    NextCell(s.table, s.bits, s.quota, 0, 0);
    hide Chosen;
  }

  /** Without the guard ownership is lost: once all untypeds are taken, a new process gets none, its
      deletion frees untyped 0 under its owner, and the next process gets it too. */
  lemma ExhaustionBreaksOwnership(s: State, slot: nat)
    requires Shaped(s) && Ownership(s) && (forall i :: 0 <= i < |s.table| ==> s.table[i] != 0)
    requires |s.procs| + 2 <= s.most && 0 < slot < WRAP - |s.table| && s.quota > 0
    ensures var n, v := |s.procs|, Step(Step(Step(s, Create(slot)), Delete(|s.procs|)), Create(slot));
            exists q :: 0 <= q < n && Has(v, q, 0) && Has(v, n + 1, 0)
  {
    var n, q := |s.procs|, s.table[0] - 1;
    Owner(s, 0, q);
    NothingFree(s.table, s.bits, s.quota, 0);
    CreateRecord(s, slot);
    StepKeepsShape(s, Create(slot));
    var s1 := Step(s, Create(slot));
    var s2 := Step(s1, Delete(n));
    StepKeepsShape(s1, Delete(n));
    DeleteClears(s1, n, 0);
    hide TakenBy, Ownership, RecordOk;
    FirstIsTaken(s2, slot, q);
  }
}
