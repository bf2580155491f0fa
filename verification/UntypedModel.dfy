/** Untyped memory across process create and delete, on values: src/process.c, src/util.c. */
module UntypedModel {
  import opened Words

  const BLOCK_BITS: nat := 23
  const BLOCK: nat := 0x80_0000

  /** The size of an untyped is a power of two that fits a word. */
  type Bits = b: nat | b < 32

  /** user_untypeds_allocation: the process that owns each untyped, or 0. */
  type Table = seq<Byte>

  /** What a process's environment says about its untypeds; the two lists have fixed length. */
  datatype Env = Env(pid: nat, start: Word, end: Word, indices: seq<Byte>, sizes: seq<Byte>)

  function Size(bits: Bits): nat { Pow2(bits) }

  function Zeros(n: nat): seq<Byte> { seq(n, i => 0) }

  /** The page that holds a new environment is zero-filled. */
  function NewEnv(pid: nat, capacity: nat): Env { Env(pid, 0, 0, Zeros(capacity), Zeros(capacity)) }

  // ---------- first fit ----------

  /** The untypeds that the loop of create takes from index `i` on, when it already has `have` bytes. */
  function Chosen(table: Table, bits: seq<Bits>, quota: Word, i: nat, have: Word): (chosen: seq<nat>)
    requires i <= |table| <= |bits|
    ensures forall k :: 0 <= k < |chosen| ==> i <= chosen[k] < |table| && table[chosen[k]] == 0
    ensures forall k, l :: 0 <= k < l < |chosen| ==> chosen[k] < chosen[l]
    ensures |chosen| <= |table| - i
    decreases |table| - i
  {
    if i == |table| || have >= quota then []
    else if table[i] != 0 then Chosen(table, bits, quota, i + 1, have)
    else [i] + Chosen(table, bits, quota, i + 1, (have + Size(bits[i])) % WRAP)
  }

  /** The same with a sum that cannot overflow. */
  function Fitting(table: Table, bits: seq<Bits>, quota: nat, i: nat, have: nat): (chosen: seq<nat>)
    requires i <= |table| <= |bits|
    ensures forall k :: 0 <= k < |chosen| ==> i <= chosen[k] < |table|
    decreases |table| - i
  {
    if i == |table| || have >= quota then []
    else if table[i] != 0 then Fitting(table, bits, quota, i + 1, have)
    else [i] + Fitting(table, bits, quota, i + 1, have + Size(bits[i]))
  }

  /** The indices of all free untypeds from `i` on, in order. */
  function FreeCells(table: Table, i: nat): (free: seq<nat>)
    requires i <= |table|
    ensures forall k :: 0 <= k < |free| ==> i <= free[k] < |table| && table[free[k]] == 0
    ensures forall k, l :: 0 <= k < l < |free| ==> free[k] < free[l]
    decreases |table| - i
  {
    if i == |table| then [] else (if table[i] == 0 then [i] else []) + FreeCells(table, i + 1)
  }

  lemma {:induction false} FreeCellsAreFree(table: Table, i: nat, x: nat)
    requires i <= |table|
    ensures x in FreeCells(table, i) <==> i <= x < |table| && table[x] == 0
    decreases |table| - i
  {
    if i < |table| {
      FreeCellsAreFree(table, i + 1, x);
    }
  }

  /** How many bytes a list of untypeds amounts to. */
  function Total(bits: seq<Bits>, cells: seq<nat>): nat
    requires forall k :: 0 <= k < |cells| ==> cells[k] < |bits|
  {
    if cells == [] then 0 else Size(bits[cells[0]]) + Total(bits, cells[1..])
  }

  lemma TotalOfOneMore(bits: seq<Bits>, i: nat, d: seq<nat>)
    requires i < |bits| && forall k :: 0 <= k < |d| ==> d[k] < |bits|
    ensures Total(bits, [i] + d) == Size(bits[i]) + Total(bits, d)
    ensures d != [] ==> Total(bits, ([i] + d)[..|d|]) == Size(bits[i]) + Total(bits, d[..|d| - 1])
    ensures d == [] ==> Total(bits, ([i] + d)[..|d|]) == 0
  {
    assert ([i] + d)[1..] == d;
    if d != [] {
      assert ([i] + d)[..|d|] == [i] + d[..|d| - 1];
      assert ([i] + d[..|d| - 1])[1..] == d[..|d| - 1];
    }
  }

  /** A list of untypeds starts with the free ones, reaches the quota or has them all, and does not
      reach it without its last. */
  ghost predicate ShortestPrefix(bits: seq<Bits>, quota: nat, have: nat, c: seq<nat>, free: seq<nat>)
    requires forall k :: 0 <= k < |c| ==> c[k] < |bits|
  {
    && c <= free
    && (c == free || have + Total(bits, c) >= quota)
    && (c != [] ==> have + Total(bits, c[..|c| - 1]) < quota)
  }

  lemma PrefixOfOneMore(bits: seq<Bits>, quota: nat, have: nat, i: nat, d: seq<nat>, free: seq<nat>)
    requires i < |bits| && have < quota && forall k :: 0 <= k < |d| ==> d[k] < |bits|
    requires ShortestPrefix(bits, quota, have + Size(bits[i]), d, free)
    ensures ShortestPrefix(bits, quota, have, [i] + d, [i] + free)
  {
    TotalOfOneMore(bits, i, d);
  }

  /** Without overflow the loop takes the shortest prefix of the free untypeds that reaches the quota. */
  lemma {:induction false} FittingIsShortest(table: Table, bits: seq<Bits>, quota: nat, i: nat, have: nat)
    requires i <= |table| <= |bits|
    ensures ShortestPrefix(bits, quota, have, Fitting(table, bits, quota, i, have), FreeCells(table, i))
    decreases |table| - i
  {
    hide ShortestPrefix, Fitting, FreeCells, Pow2;
    NextFitting(table, bits, quota, i, have);
    if i == |table| || have >= quota {
      NothingTaken(bits, quota, have, FreeCells(table, i));
    } else if table[i] != 0 {
      FittingIsShortest(table, bits, quota, i + 1, have);
    } else {
      var next := have + Size(bits[i]);
      FittingIsShortest(table, bits, quota, i + 1, next);
      PrefixOfOneMore(bits, quota, have, i, Fitting(table, bits, quota, i + 1, next), FreeCells(table, i + 1));
    }
  }

  /** Create takes the shortest prefix of the free untypeds, in index order, that reaches the quota,
      if and only if that prefix amounts to less than a word holds or is all there is. In
      particular it does if the quota and one block more fit a word. */
  lemma {:induction false} TakesShortestPrefix(table: Table, bits: seq<Bits>, quota: Word, i: nat, have: Word)
    requires i <= |table| <= |bits|
    ensures var best := Fitting(table, bits, quota, i, have);
            Chosen(table, bits, quota, i, have) == best
            <==> have + Total(bits, best) < WRAP || best == FreeCells(table, i)
    ensures (forall k :: i <= k < |table| ==> quota + Size(bits[k]) <= WRAP)
            ==> Chosen(table, bits, quota, i, have) == Fitting(table, bits, quota, i, have)
    decreases |table| - i
  {
    hide Chosen, Fitting, FreeCells, Pow2, Total;
    NextCell(table, bits, quota, i, have);
    NextFitting(table, bits, quota, i, have);
    TotalOfNone(bits);
    if i < |table| && have < quota {
      if table[i] != 0 {
        TakesShortestPrefix(table, bits, quota, i + 1, have);
      } else if have + Size(bits[i]) < WRAP {
        var next := have + Size(bits[i]);
        var d, free := Fitting(table, bits, quota, i + 1, next), FreeCells(table, i + 1);
        TakesShortestPrefix(table, bits, quota, i + 1, next);
        TotalOfOneMore(bits, i, d);
        SameHead(i, Chosen(table, bits, quota, i + 1, next), d);
        SameHead(i, d, free);
      } else {
        OverflowTakesMore(table, bits, quota, i, have);
      }
    }
  }

  lemma TotalOfNone(bits: seq<Bits>)
    ensures Total(bits, []) == 0
  {
  }

  lemma SameHead(i: nat, a: seq<nat>, b: seq<nat>)
    ensures [i] + a == [i] + b <==> a == b
  {
    assert ([i] + a)[1..] == a && ([i] + b)[1..] == b;
  }

  /** When the sum overflows, the loop goes on if there is anything left to take. */
  lemma OverflowTakesMore(table: Table, bits: seq<Bits>, quota: Word, i: nat, have: Word)
    requires i < |table| <= |bits| && table[i] == 0 && have < quota && have + Size(bits[i]) >= WRAP
    ensures Fitting(table, bits, quota, i, have) == [i] && Total(bits, [i]) == Size(bits[i])
    ensures Chosen(table, bits, quota, i, have) == [i] <==> FreeCells(table, i) == [i]
  {
    var next := (have + Size(bits[i])) % WRAP;
    BlockSize(bits[i]);
    assert next < quota;
    NextCell(table, bits, quota, i, have);
    NextFitting(table, bits, quota, i, have);
    TotalOfOneMore(bits, i, []);
    TakesSomething(table, bits, quota, i + 1, next);
  }

  lemma BlockSize(bits: Bits)
    ensures Size(bits) < WRAP
  {
    Pow2Grows(bits, 31);
    Pow2Word();
  }

  lemma {:induction false} TakesSomething(table: Table, bits: seq<Bits>, quota: Word, i: nat, have: Word)
    requires i <= |table| <= |bits| && have < quota
    ensures Chosen(table, bits, quota, i, have) == [] <==> FreeCells(table, i) == []
    decreases |table| - i
  {
    if i < |table| && table[i] != 0 {
      TakesSomething(table, bits, quota, i + 1, have);
    }
  }

  /** One round of the loop. */
  lemma NextCell(table: Table, bits: seq<Bits>, quota: Word, i: nat, have: Word)
    requires i <= |table| <= |bits|
    ensures var c, free := Chosen(table, bits, quota, i, have), FreeCells(table, i);
            if i == |table| || have >= quota then c == [] && (i == |table| ==> free == [])
            else if table[i] != 0 then c == Chosen(table, bits, quota, i + 1, have) && free == FreeCells(table, i + 1)
            else c == [i] + Chosen(table, bits, quota, i + 1, (have + Size(bits[i])) % WRAP)
                 && free == [i] + FreeCells(table, i + 1)
  {
    if i < |table| && table[i] != 0 {
      assert [] + FreeCells(table, i + 1) == FreeCells(table, i + 1);
    }
  }

  lemma NextFitting(table: Table, bits: seq<Bits>, quota: nat, i: nat, have: nat)
    requires i <= |table| <= |bits|
    ensures var c, free := Fitting(table, bits, quota, i, have), FreeCells(table, i);
            if i == |table| || have >= quota then c == [] && (i == |table| ==> free == [])
            else if table[i] != 0 then c == Fitting(table, bits, quota, i + 1, have) && free == FreeCells(table, i + 1)
            else c == [i] + Fitting(table, bits, quota, i + 1, have + Size(bits[i]))
                 && free == [i] + FreeCells(table, i + 1)
  {
    if i < |table| && table[i] != 0 {
      assert [] + FreeCells(table, i + 1) == FreeCells(table, i + 1);
    }
  }

  lemma NothingTaken(bits: seq<Bits>, quota: nat, have: nat, free: seq<nat>)
    requires have >= quota || free == []
    ensures ShortestPrefix(bits, quota, have, [], free)
  {
  }

  /** Sizes are in bytes: bit 0 counts one byte, and every further bit doubles; a block has 2^23. */
  lemma SizeDoubles(bits: nat)
    requires bits + 1 < 32
    ensures Size(0) == 1 && Size(bits + 1) == 2 * Size(bits)
    ensures Size(BLOCK_BITS) == BLOCK == 0x80_0000
  {
    assert Pow2(8) == 0x100 && Pow2(16) == 0x1_0000 && Pow2(20) == 0x10_0000;
  }

  /** How many blocks cover this many bytes. */
  function BlocksFor(bytes: int): nat { if bytes <= 0 then 0 else (bytes + 0x7f_ffff) / 0x80_0000 }

  lemma {:induction false} BlocksTaken(table: Table, bits: seq<Bits>, quota: Word, i: nat, have: Word)
    requires i <= |table| <= |bits| && quota + BLOCK <= WRAP && forall k :: 0 <= k < |table| ==> bits[k] == BLOCK_BITS
    ensures |Chosen(table, bits, quota, i, have)| == Min(|FreeCells(table, i)|, BlocksFor(quota - have))
    decreases |table| - i
  {
    NextCell(table, bits, quota, i, have);
    SizeDoubles(0);
    hide Chosen, FreeCells, Size;
    if i < |table| && have < quota {
      if table[i] != 0 {
        BlocksTaken(table, bits, quota, i + 1, have);
      } else {
        BlocksTaken(table, bits, quota, i + 1, have + BLOCK);
      }
    }
  }

  /** From 8 MiB blocks create takes as many as cover the quota, or all that are free. */
  lemma TakesAsManyAsNeeded(table: Table, bits: seq<Bits>, quota: Word)
    requires |table| <= |bits| && quota + BLOCK <= WRAP && forall k :: 0 <= k < |table| ==> bits[k] == BLOCK_BITS
    ensures var free, needed := |FreeCells(table, 0)|, (quota + 0x7f_ffff) / 0x80_0000;
            |TakenBy(table, bits, quota)| == if free < needed then free else needed
  {
    BlocksTaken(table, bits, quota, 0, 0);
  }

  // ---------- the record of a process ----------

  /** The table once the untypeds `cells` have been given to the process whose number is stored as `mark`. */
  function Marked(table: Table, cells: seq<nat>, mark: Byte): (r: Table)
    ensures |r| == |table|
  {
    seq(|table|, i requires 0 <= i < |table| => if i in cells then mark else table[i])
  }

  /** The record of a process that was given `cells`, with capabilities from `slot` on. */
  function Recorded(env: Env, bits: seq<Bits>, cells: seq<nat>, slot: nat): (r: Env)
    requires |cells| <= |env.indices| == |env.sizes| && slot + |cells| < WRAP
    requires forall k :: 0 <= k < |cells| ==> cells[k] < |bits|
  {
    Env(env.pid,
        if cells == [] then env.start else slot,
        if cells == [] then env.end else slot + |cells| - 1,
        seq(|env.indices|, j requires 0 <= j < |env.indices| => if j < |cells| then cells[j] % 0x100 else env.indices[j]),
        seq(|env.sizes|, j requires 0 <= j < |env.sizes| => if j < |cells| then bits[cells[j]] else env.sizes[j]))
  }

  /** What create takes and records. */
  function TakenBy(table: Table, bits: seq<Bits>, quota: Word): (cells: seq<nat>)
    requires |table| <= |bits|
    ensures forall k :: 0 <= k < |cells| ==> cells[k] < |table| && table[cells[k]] == 0
    ensures forall k, l :: 0 <= k < l < |cells| ==> cells[k] < cells[l]
    ensures |cells| <= |table|
  {
    Chosen(table, bits, quota, 0, 0)
  }

  /** The number of untypeds that delete and the child's bootstrap compute from the record. */
  function Count(env: Env): int { env.end - env.start + 1 }

  /** What delete gives back. */
  function Returned(env: Env): (cells: seq<Byte>) {
    if 0 <= Count(env) <= |env.indices| then env.indices[..Count(env)] else []
  }

  function AfterDelete(table: Table, env: Env): Table { Marked(table, Returned(env), 0) }

  /** The capabilities and sizes that the child's bootstrap adds to its allocator. */
  function HandedOver(env: Env): seq<(nat, nat)> {
    if 0 <= Count(env) <= |env.sizes| then
      seq(Count(env), j requires 0 <= j < Count(env) <= |env.sizes| => (env.start + j, env.sizes[j]))
    else []
  }

  /** The record gives back the untypeds that were taken if and only if some were: a process that
      got none returns untyped 0. Their number is a byte, so the indices stored are never cut. */
  lemma RecordReturnsWhatWasTaken(pid: nat, capacity: nat, bits: seq<Bits>, cells: seq<nat>, slot: nat)
    requires 0 < capacity && |cells| <= capacity && slot + |cells| < WRAP && |bits| < 0x100
    requires forall k :: 0 <= k < |cells| ==> cells[k] < |bits|
    ensures var env := Recorded(NewEnv(pid, capacity), bits, cells, slot);
            && (cells != [] <==> Count(env) == |cells|)
            && (cells != [] <==> Returned(env) == cells)
            && (cells == [] ==> Returned(env) == [0])
  {
    var env := Recorded(NewEnv(pid, capacity), bits, cells, slot);
    if cells != [] {
      assert Returned(env) == env.indices[..|cells|];
      forall k | 0 <= k < |cells| ensures Returned(env)[k] == cells[k] {}
    } else {
      assert |Returned(env)| == 1;
    }
  }

  /** The child pairs each capability slot with the size of the untyped behind it, if and only if
      the process got one; otherwise it adds the null capability. */
  lemma HandOverIsExact(pid: nat, capacity: nat, bits: seq<Bits>, cells: seq<nat>, slot: nat)
    requires 0 < capacity && |cells| <= capacity && slot + |cells| < WRAP
    requires forall k :: 0 <= k < |cells| ==> cells[k] < |bits|
    ensures var pairs := HandedOver(Recorded(NewEnv(pid, capacity), bits, cells, slot));
            && (|pairs| == |cells| <==> cells != [])
            && (cells != [] ==> forall j :: 0 <= j < |cells| ==> pairs[j] == (slot + j, bits[cells[j]]))
            && (cells == [] ==> pairs == [(0, 0)])
  {
  }

  /** Deleting a process right after creating it restores the table, if and only if it got an
      untyped, or the untyped with index 0 was free. */
  lemma DeleteUndoesCreate(table: Table, bits: seq<Bits>, quota: Word, pid: nat, mark: Byte, capacity: nat, slot: nat)
    requires 0 < |table| == |bits| < 0x100 && |table| <= capacity && slot + capacity < WRAP
    ensures var cells := TakenBy(table, bits, quota);
            var env := Recorded(NewEnv(pid, capacity), bits, cells, slot);
            AfterDelete(Marked(table, cells, mark), env) == table <==> cells != [] || table[0] == 0
  {
    var cells := TakenBy(table, bits, quota);
    var env := Recorded(NewEnv(pid, capacity), bits, cells, slot);
    RecordReturnsWhatWasTaken(pid, capacity, bits, cells, slot);
    var back := AfterDelete(Marked(table, cells, mark), env);
    if cells == [] {
      assert back[0] == 0;
      assert table[0] == 0 ==> back == table;
    } else {
      forall i | 0 <= i < |table| ensures back[i] == table[i] {}
      assert back == table;
    }
  }

  // ---------- reservation ----------

  function Min(a: nat, b: nat): nat { if a < b then a else b }

  /** How many blocks the reservation loop allocates, when the allocator has `available`: the sum
      is kept in a word, and a limit of 511 blocks or more never stops the loop. */
  function Reserved(bytes: Word, most: nat, available: nat): nat {
    var n := Min(most, available);
    if bytes / BLOCK >= 511 then n else Min(n, bytes / BLOCK)
  }

  /** The reservation stays within its limit if and only if fewer than 512 blocks can be had or the
      limit is below 511 blocks. */
  lemma ReservationIsBounded(bytes: Word, most: nat, available: nat)
    ensures Reserved(bytes, most, available) * BLOCK <= bytes <==> Min(most, available) < 512 || bytes < 511 * BLOCK
  {
    if bytes < 511 * BLOCK {
      assert Reserved(bytes, most, available) <= bytes / BLOCK;
    }
  }

  /** user_untypeds_num keeps the number of blocks reserved for user processes in a byte. */
  function Listed(capacity: nat, available: nat): Byte {
    Reserved(WRAP - 1, capacity, available) % 0x100
  }

  /** All blocks reserved are listed if and only if fewer than 256 can be had; the initialisation
      goes on if and only if their number is not a multiple of 256. */
  lemma AllAreListedIff(capacity: nat, available: nat)
    ensures Listed(capacity, available) == Reserved(WRAP - 1, capacity, available) <==> Min(capacity, available) < 0x100
    ensures Listed(capacity, available) == 0 <==> Min(capacity, available) % 0x100 == 0
  {
    assert (WRAP - 1) / BLOCK == 511;
  }

  /** With 300 blocks 44 are listed, with 256 none. */
  lemma ListedExample()
    ensures Listed(800, 300) == 44 && Listed(800, 256) == 0
  {
    assert (WRAP - 1) / BLOCK == 511;
  }

  /** It ends early only when the next block would exceed the limit or there is none. */
  lemma ReservationIsMaximal(bytes: Word, most: nat, available: nat)
    requires most < 512 || bytes < 511 * BLOCK
    ensures var n := Reserved(bytes, most, available);
            n <= most && n <= available && (n < most && n < available ==> (n + 1) * BLOCK > bytes)
  {
  }
}
