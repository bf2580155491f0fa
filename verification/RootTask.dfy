/** The loops of src/util.c, src/system.c and src/process.c that hand untyped memory around, on the
    root task's arrays and on the environment page of a process. */
module RootTask {
  import opened Words
  import opened UntypedModel

  /** vka_object_t */
  datatype VkaObject = VkaObject(cptr: nat, sizeBits: Bits)

  /** The first objects of what the allocator supplies. */
  function Objects(supply: seq<nat>, n: nat): seq<VkaObject>
    requires n <= |supply|
  {
    seq(n, i requires 0 <= i < n => VkaObject(supply[i], BLOCK_BITS))
  }

  /** sel4osapi_util_allocate_untypeds; `supply` is what the allocator can still give. */
  method AllocateUntypeds(supply: seq<nat>, untypeds: array<VkaObject>, bytes: Word, most: nat) returns (n: nat)
    requires most <= untypeds.Length
    modifies untypeds
    ensures n == Reserved(bytes, most, |supply|) && n <= |supply| && n <= untypeds.Length
    ensures untypeds[..n] == Objects(supply, n) && untypeds[n..] == old(untypeds[n..])
    ensures forall i :: 0 <= i < n ==> untypeds[i].cptr == supply[i] && Size(untypeds[i].sizeBits) == BLOCK
  {
    var reserved: Word := 0;
    n := 0;
    hide Reserved, Size;
    SizeDoubles(0);
    ReservedIsPossible(bytes, most, |supply|);
    while n < most && (reserved + BLOCK) % WRAP <= bytes && n < |supply|
      invariant n <= most && n <= |supply|
      invariant reserved == n * BLOCK % WRAP && n <= Reserved(bytes, most, |supply|)
      invariant forall j :: 0 <= j < n ==> untypeds[j] == VkaObject(supply[j], BLOCK_BITS)
      invariant forall j :: n <= j < untypeds.Length ==> untypeds[j] == old(untypeds[j])
    {
      AnotherBlock(n, bytes, most, |supply|);
      untypeds[n] := VkaObject(supply[n], BLOCK_BITS);
      reserved := (reserved + BLOCK) % WRAP;
      n := n + 1;
    }
    if n < most && n < |supply| {
      AnotherBlock(n, bytes, most, |supply|);
    }
  }

  lemma ReservedIsPossible(bytes: Word, most: nat, available: nat)
    ensures Reserved(bytes, most, available) <= most && Reserved(bytes, most, available) <= available
  {
  }

  /** An allocator that gives no object twice has its objects listed once each. */
  lemma ObjectsAreDistinct(supply: seq<nat>, n: nat)
    requires n <= |supply| && forall i, j :: 0 <= i < j < |supply| ==> supply[i] != supply[j]
    ensures forall i, j :: 0 <= i < j < n ==> Objects(supply, n)[i].cptr != Objects(supply, n)[j].cptr
    ensures forall i :: 0 <= i < n ==> Objects(supply, n)[i].cptr == supply[i] && Size(Objects(supply, n)[i].sizeBits) == BLOCK
  {
    SizeDoubles(0);
    hide Size;
  }

  /** The test of the reservation loop, whose sum is kept in a word. */
  lemma AnotherBlock(n: nat, bytes: Word, most: nat, available: nat)
    requires n <= Reserved(bytes, most, available) && n < most && n < available
    ensures (n * BLOCK % WRAP + BLOCK) % WRAP == (n + 1) * BLOCK % WRAP
    ensures (n * BLOCK % WRAP + BLOCK) % WRAP <= bytes <==> n < Reserved(bytes, most, available)
  {
    WordOfBlocks(n);
    WordOfBlocks(n + 1);
  }

  lemma {:induction false} WordOfBlocks(n: nat)
    ensures n * BLOCK % WRAP == (n % 512) * BLOCK
  {
    if n >= 512 {
      WordOfBlocks(n - 512);
      assert n * BLOCK == (n - 512) * BLOCK + WRAP;
    }
  }

  /** The environment of a process, in the page it shares with the root task, and its capability space:
      the first slot that has not been used, and what has been put into the ones before. */
  class ProcessEnv {
    const pid: nat
    var start: Word
    var end: Word
    const indices: array<Byte>
    const sizes: array<Byte>
    var nextSlot: nat
    var caps: seq<nat>

    constructor (pid: nat, capacity: nat, slot: nat)
      ensures fresh(indices) && fresh(sizes)
      ensures Abs() == NewEnv(pid, capacity) && nextSlot == slot && caps == []
    {
      this.pid := pid;
      start, end, nextSlot, caps := 0, 0, slot, [];
      indices := new Byte[capacity](i => 0);
      sizes := new Byte[capacity](i => 0);
    }

    ghost function Abs(): Env
      reads this, indices, sizes
    {
      Env(pid, start, end, indices[..], sizes[..])
    }

    /** sel4utils_mint_cap_to_process: slots are handed out one after the other. */
    method MintCap(cptr: nat) returns (slot: nat)
      modifies this`nextSlot, this`caps
      ensures slot == old(nextSlot) && nextSlot == slot + 1 && caps == old(caps) + [cptr]
    {
      slot := nextSlot;
      caps := caps + [cptr];
      nextSlot := nextSlot + 1;
    }

    /** The loop of sel4osapi_system_bootstrap_user: the slots and sizes given to the allocator. */
    method Bootstrap() returns (added: seq<(nat, nat)>)
      requires 0 <= Count(Abs()) <= sizes.Length && indices.Length == sizes.Length
      ensures added == HandedOver(Abs())
    {
      added := [];
      var slot, index := start, 0;
      while slot <= end
        invariant index == |added| == slot - start <= Count(Abs())
        invariant forall j :: 0 <= j < index ==> added[j] == (start + j, sizes[j])
      {
        added := added + [(slot, sizes[index])];
        slot := slot + 1;
        index := index + 1;
      }
    }
  }

  /** The loop that lists the sizes of the untypeds. */
  method FillSizeBits(untypeds: array<VkaObject>, sizeBits: array<Bits>, n: nat)
    requires n <= untypeds.Length == sizeBits.Length
    modifies sizeBits
    ensures forall j :: 0 <= j < n ==> sizeBits[j] == untypeds[j].sizeBits
  {
    var i := 0;
    while i < n
      invariant 0 <= i <= n
      invariant forall j :: 0 <= j < i ==> sizeBits[j] == untypeds[j].sizeBits
    {
      sizeBits[i] := untypeds[i].sizeBits;
      i := i + 1;
    }
  }

  /** The loop that clears the table of owners. */
  method ClearTable(allocation: array<Byte>, n: nat)
    requires n <= allocation.Length
    modifies allocation
    ensures allocation[..n] == Zeros(n)
  {
    var i := 0;
    while i < n
      invariant 0 <= i <= n
      invariant forall j :: 0 <= j < i ==> allocation[j] == 0
    {
      allocation[i] := 0;
      i := i + 1;
    }
  }

  lemma MarkedAppend(table: Table, cells: seq<nat>, i: nat, mark: Byte)
    requires i < |table|
    ensures Marked(table, cells + [i], mark) == Marked(table, cells, mark)[i := mark]
  {
  }

  /** The record with one more untyped. */
  function RecordedNext(env: Env, count: nat, i: nat, bits: Bits, slot: Word): Env
    requires count < |env.indices| == |env.sizes|
  {
    Env(env.pid, if count == 0 then slot else env.start, slot,
        env.indices[count := i % 0x100], env.sizes[count := bits])
  }

  lemma RecordedAppend(env: Env, bits: seq<Bits>, cells: seq<nat>, i: nat, slot: nat)
    requires |cells| < |env.indices| == |env.sizes| && slot + |cells| + 1 < WRAP
    requires i < |bits| && forall k :: 0 <= k < |cells| ==> cells[k] < |bits|
    ensures Recorded(env, bits, cells + [i], slot)
         == RecordedNext(Recorded(env, bits, cells, slot), |cells|, i, bits[i], slot + |cells|)
  {
    var a := Recorded(env, bits, cells + [i], slot);
    var b := RecordedNext(Recorded(env, bits, cells, slot), |cells|, i, bits[i], slot + |cells|);
    assert a.indices == b.indices;
    assert a.sizes == b.sizes;
  }

  /** The assigning loop has reached untyped `i`: what it has `taken`, with `size` bytes, begins what
      create should take, and the table and the record say so. */
  ghost predicate Assigning(t0: Table, bits: seq<Bits>, quota: Word, e0: Env, slot: nat, mark: Byte,
                            t: Table, e: Env, taken: seq<nat>, i: nat, size: Word)
    requires |t0| == |bits| && |bits| <= |e0.indices| == |e0.sizes| && slot + |bits| < WRAP
  {
    && i <= |t0| == |t| && |taken| <= i
    && (forall j :: 0 <= j < |taken| ==> taken[j] < i)
    && (forall j :: i <= j < |t| ==> t[j] == t0[j])
    && taken + Chosen(t0, bits, quota, i, size) == TakenBy(t0, bits, quota)
    && t == Marked(t0, taken, mark)
    && e == Recorded(e0, bits, taken, slot)
    && |e.indices| == |e0.indices| && |e.sizes| == |e0.sizes|
  }

  lemma AssigningStarts(t0: Table, bits: seq<Bits>, quota: Word, e0: Env, slot: nat, mark: Byte)
    requires |t0| == |bits| && |bits| <= |e0.indices| == |e0.sizes| && slot + |bits| < WRAP
    ensures Assigning(t0, bits, quota, e0, slot, mark, t0, e0, [], 0, 0)
  {
    var e := Recorded(e0, bits, [], slot);
    assert e.indices == e0.indices && e.sizes == e0.sizes;
  }

  lemma AssigningSkips(t0: Table, bits: seq<Bits>, quota: Word, e0: Env, slot: nat, mark: Byte,
                       t: Table, e: Env, taken: seq<nat>, i: nat, size: Word)
    requires |t0| == |bits| && |bits| <= |e0.indices| == |e0.sizes| && slot + |bits| < WRAP
    requires Assigning(t0, bits, quota, e0, slot, mark, t, e, taken, i, size)
    requires i < |t| && t[i] != 0 && size < quota
    ensures Assigning(t0, bits, quota, e0, slot, mark, t, e, taken, i + 1, size)
  {
    NextCell(t0, bits, quota, i, size);
  }

  lemma AssigningTakes(t0: Table, bits: seq<Bits>, quota: Word, e0: Env, slot: nat, mark: Byte,
                       t: Table, e: Env, taken: seq<nat>, i: nat, size: Word)
    requires |t0| == |bits| && |bits| <= |e0.indices| == |e0.sizes| && slot + |bits| < WRAP
    requires Assigning(t0, bits, quota, e0, slot, mark, t, e, taken, i, size)
    requires i < |t| && t[i] == 0 && size < quota
    ensures |taken| < |e.indices| == |e.sizes|
    ensures Assigning(t0, bits, quota, e0, slot, mark, t[i := mark], RecordedNext(e, |taken|, i, bits[i], slot + |taken|),
                      taken + [i], i + 1, (size + Size(bits[i])) % WRAP)
  {
    hide Marked, Recorded, Chosen;
    NextCell(t0, bits, quota, i, size);
    MarkedAppend(t0, taken, i, mark);
    RecordedAppend(e0, bits, taken, i, slot);
    assert taken + [i] + Chosen(t0, bits, quota, i + 1, (size + Size(bits[i])) % WRAP)
        == taken + Chosen(t0, bits, quota, i, size);
  }

  lemma AssigningEnds(t0: Table, bits: seq<Bits>, quota: Word, e0: Env, slot: nat, mark: Byte,
                      t: Table, e: Env, taken: seq<nat>, i: nat, size: Word)
    requires |t0| == |bits| && |bits| <= |e0.indices| == |e0.sizes| && slot + |bits| < WRAP
    requires Assigning(t0, bits, quota, e0, slot, mark, t, e, taken, i, size) && (i == |t0| || size >= quota)
    ensures t == Marked(t0, TakenBy(t0, bits, quota), mark)
    ensures e == Recorded(e0, bits, TakenBy(t0, bits, quota), slot)
    ensures taken == TakenBy(t0, bits, quota)
  {
    NextCell(t0, bits, quota, i, size);
  }

  /** The capabilities of a list of untypeds. */
  function CapsOf(objects: seq<VkaObject>, cells: seq<nat>): (caps: seq<nat>)
    requires forall k :: 0 <= k < |cells| ==> cells[k] < |objects|
    ensures |caps| == |cells| && forall k :: 0 <= k < |cells| ==> caps[k] == objects[cells[k]].cptr
  {
    seq(|cells|, k requires 0 <= k < |cells| => objects[cells[k]].cptr)
  }

  lemma CapsOfOneMore(objects: seq<VkaObject>, cells: seq<nat>, i: nat)
    requires i < |objects| && forall k :: 0 <= k < |cells| ==> cells[k] < |objects|
    ensures CapsOf(objects, cells + [i]) == CapsOf(objects, cells) + [objects[i].cptr]
  {
  }

  /** The tables of the root task. */
  class RootTask {
    /** user_untypeds_num, a byte */
    var num: Byte
    const untypeds: array<VkaObject>
    const allocation: array<Byte>
    const sizeBits: array<Bits>

    ghost predicate Valid()
      reads this
    {
      && num <= untypeds.Length == allocation.Length == sizeBits.Length
    }

    ghost function Table(): Table
      requires Valid()
      reads this, allocation
    {
      allocation[..num]
    }

    ghost function AllBits(): seq<Bits>
      requires Valid()
      reads this, sizeBits
    {
      sizeBits[..num]
    }

    /** The reservation in sel4osapi_system_initialize. */
    constructor (supply: seq<nat>, capacity: nat)
      ensures Valid() && untypeds.Length == capacity
      ensures num == Listed(capacity, |supply|)
      ensures Table() == Zeros(num) && AllBits() == seq(num, i => BLOCK_BITS)
      ensures num <= |supply| && untypeds[..num] == Objects(supply, num)
      ensures forall i :: 0 <= i < num ==>
                untypeds[i].cptr == supply[i] && sizeBits[i] == untypeds[i].sizeBits && Size(sizeBits[i]) == BLOCK
    {
      num := 0;
      untypeds := new VkaObject[capacity](i => VkaObject(0, 0));
      allocation := new Byte[capacity](i => 0);
      sizeBits := new Bits[capacity](i => 0);
      new;
      var reserved := AllocateUntypeds(supply, untypeds, WRAP - 1, capacity);
      num := reserved % 0x100;
      hide Size;
      assert untypeds[..num] == untypeds[..reserved][..num];
      FillSizeBits(untypeds, sizeBits, num);
      ClearTable(allocation, num);
    }

    predicate Separate(env: ProcessEnv) {
      && env.indices.Length == env.sizes.Length
      && env.indices != env.sizes && env.indices != allocation && env.sizes != allocation
    }

    /** Assign untyped `i`, which is free, to a process that has `count` already. */
    method AssignOne(env: ProcessEnv, i: nat, count: nat)
      requires Valid() && Separate(env) && i < num && count < env.indices.Length && env.nextSlot < WRAP
      modifies allocation, env, env.indices, env.sizes
      ensures Valid() && num == old(num) && env.nextSlot == old(env.nextSlot) + 1 && AllBits() == old(AllBits())
      ensures Table() == old(Table())[i := env.pid % 0x100]
      ensures env.Abs() == RecordedNext(old(env.Abs()), count, i, sizeBits[i], old(env.nextSlot))
      ensures env.caps == old(env.caps) + [untypeds[i].cptr]
    {
      var cap := env.MintCap(untypeds[i].cptr);
      if count == 0 {
        env.start := cap;
      }
      env.end := cap;
      allocation[i] := env.pid % 0x100;
      env.sizes[count] := sizeBits[i];
      env.indices[count] := i % 0x100;
    }

    /** The assigning loop, which began with the given tables, record and slot, has reached `i`. */
    ghost predicate Reached(env: ProcessEnv, table: Table, bits: seq<Bits>, quota: Word, before: Env, slot: nat,
                            caps: seq<nat>, taken: seq<nat>, i: nat, size: Word)
      reads this, allocation, sizeBits, untypeds, env, env.indices, env.sizes
    {
      && Valid() && Separate(env) && num == |table| == |bits| && AllBits() == bits
      && |bits| <= |before.indices| == |before.sizes| && slot + |bits| < WRAP
      && |taken| <= i <= num && env.nextSlot == slot + |taken|
      && Assigning(table, bits, quota, before, slot, env.pid % 0x100, Table(), env.Abs(), taken, i, size)
      && (forall k :: 0 <= k < |taken| ==> taken[k] < num) && env.caps == caps + CapsOf(untypeds[..num], taken)
    }

    /** The body of the loop. */
    method AssignNext(env: ProcessEnv, i: nat, count: nat, size: Word, ghost table: Table, ghost bits: seq<Bits>,
                      ghost quota: Word, ghost before: Env, ghost slot: nat, ghost caps: seq<nat>, ghost taken: seq<nat>)
      returns (newCount: nat, newSize: Word, ghost newTaken: seq<nat>)
      requires Reached(env, table, bits, quota, before, slot, caps, taken, i, size)
      requires count == |taken| && i < num && size < quota
      modifies allocation, env, env.indices, env.sizes
      ensures Reached(env, table, bits, quota, before, slot, caps, newTaken, i + 1, newSize) && newCount == |newTaken|
    {
      hide Assigning, RecordedNext, Size, CapsOf;
      if allocation[i] == 0 {
        CapsOfOneMore(untypeds[..num], taken, i);
        AssigningTakes(table, bits, quota, before, slot, env.pid % 0x100, Table(), env.Abs(), taken, i, size);
        AssignOne(env, i, count);
        newCount, newSize, newTaken := count + 1, (size + Size(sizeBits[i])) % WRAP, taken + [i];
      } else {
        AssigningSkips(table, bits, quota, before, slot, env.pid % 0x100, Table(), env.Abs(), taken, i, size);
        newCount, newSize, newTaken := count, size, taken;
      }
    }

    /** The loop of sel4osapi_process_init_env that assigns untypeds to a new process. */
    method AssignUntypeds(env: ProcessEnv, quota: Word)
      requires Valid() && Separate(env) && num <= env.indices.Length && env.nextSlot + num < WRAP
      modifies allocation, env, env.indices, env.sizes
      ensures Valid() && AllBits() == old(AllBits()) && |Table()| == |old(Table())| && num == old(num)
      ensures Table() == Marked(old(Table()), TakenBy(old(Table()), AllBits(), quota), env.pid % 0x100)
      ensures env.Abs() == Recorded(old(env.Abs()), AllBits(), TakenBy(old(Table()), AllBits(), quota), old(env.nextSlot))
      ensures env.caps == old(env.caps) + CapsOf(untypeds[..num], TakenBy(old(Table()), AllBits(), quota))
    {
      ghost var table, bits, before, slot := Table(), AllBits(), env.Abs(), env.nextSlot;
      ghost var caps := env.caps;
      ghost var taken: seq<nat> := [];
      var i, size: Word, count := 0, 0, 0;
      AssigningStarts(table, bits, quota, before, slot, env.pid % 0x100);
      hide Assigning, Marked, Recorded, TakenBy, CapsOf;
      while i < num && size < quota
        invariant Reached(env, table, bits, quota, before, slot, caps, taken, i, size) && count == |taken|
        decreases |table| - i
      {
        count, size, taken := AssignNext(env, i, count, size, table, bits, quota, before, slot, caps, taken);
        i := i + 1;
      }
      AssigningEnds(table, bits, quota, before, slot, env.pid % 0x100, Table(), env.Abs(), taken, i, size);
    }

    /** The loop of sel4osapi_process_delete over the table. */
    method ReleaseUntypeds(env: ProcessEnv)
      requires Valid() && 0 <= Count(env.Abs()) <= env.indices.Length == env.sizes.Length
      requires env.indices != allocation && forall j :: 0 <= j < Count(env.Abs()) ==> env.indices[j] < num
      modifies allocation
      ensures Valid() && Table() == AfterDelete(old(Table()), env.Abs())
    {
      var count := env.end - env.start + 1;
      var i := 0;
      while i < count
        invariant 0 <= i <= count && Valid()
        invariant Table() == Marked(old(Table()), env.indices[..i], 0)
      {
        allocation[env.indices[i]] := 0;
        i := i + 1;
      }
      assert env.indices[..i] == Returned(env.Abs());
    }
  }
}
