/** The machine integers of a 32-bit platform. */
module Words {
  const WRAP: nat := 0x1_0000_0000

  /** seL4_Word, seL4_CPtr, seL4_Uint32 and size_t */
  type Word = x: nat | x < WRAP

  type Byte = b: nat | b < 0x100

  function Pow2(n: nat): nat { if n == 0 then 1 else 2 * Pow2(n - 1) }

  lemma {:induction false} Pow2Grows(a: nat, b: nat)
    requires a <= b
    ensures Pow2(a) <= Pow2(b)
    decreases b
  {
    if a < b {
      Pow2Grows(a, b - 1);
    }
  }

  lemma {:induction false} Pow2Adds(a: nat, b: nat)
    ensures Pow2(a + b) == Pow2(a) * Pow2(b)
  {
    if a > 0 {
      Pow2Adds(a - 1, b);
      assert Pow2(a) * Pow2(b) == 2 * (Pow2(a - 1) * Pow2(b));
    }
  }

  lemma Pow2Word()
    ensures Pow2(31) == 0x8000_0000 && Pow2(32) == WRAP
  {
    assert Pow2(6) == 0x40 && Pow2(12) == 0x1000 && Pow2(18) == 0x4_0000 && Pow2(24) == 0x100_0000;
    assert Pow2(31) == 0x8000_0000;
  }
}
