/** Page table entries: a 28-bit frame field at bit 12, flags around it. */
module PteBits {
  import opened Bits

  const FRAMES: nat := 0x1000_0000            // 2^28
  const PHYS_END: nat := 0x100_0000_0000      // 2^40
  const PHYS_MASK: nat := 0xFF_FFFF_F000
  const TABLE_FLAGS: nat := 7                 // present, writable, user

  predicate Present(e: nat) { e % 2 == 1 }

  /** The frame address of an entry. */
  function PhysOf(e: nat): (p: nat)
    ensures p % PAGE == 0 && p < PHYS_END
  {
    e / PAGE % FRAMES * PAGE
  }

  /** The bits of an entry around the frame address. */
  function FlagsOf(e: nat): nat
  {
    e - PhysOf(e)
  }

  /** A frame address the field can hold. */
  predicate IsFrame(p: nat) { p % PAGE == 0 && p < PHYS_END }

  /** Flags that leave the frame field alone. */
  predicate IsFlags(f: nat) { PhysOf(f) == 0 }

  function Entry(phys: nat, flags: nat): nat
  {
    Or(phys, flags)
  }

  // ---------------------------------------------------------------- masks and shifts

  lemma {:induction false} OrZero(a: nat)
    ensures Or(a, 0) == a && Or(0, a) == a
  {
    if a > 0 { OrZero(a / 2); }
  }

  /** a shifted left by k bits. */
  function Shl(a: nat, k: nat): nat
  {
    if k == 0 then a else 2 * Shl(a, k - 1)
  }

  lemma {:induction false} ShlIsMul(a: nat, k: nat)
    ensures Shl(a, k) == Pow2(k) * a
  {
    if k > 0 {
      ShlIsMul(a, k - 1);
      DoubleMul(Pow2(k - 1), a);
    }
  }

  /** Or works on the low and the high parts separately. */
  lemma {:induction false} OrParts(a0: nat, a1: nat, b0: nat, b1: nat, k: nat)
    requires a0 < Pow2(k) && b0 < Pow2(k)
    ensures Or(a0 + Shl(a1, k), b0 + Shl(b1, k)) == Or(a0, b0) + Shl(Or(a1, b1), k)
  {
    if k > 0 {
      OrParts(a0 / 2, a1, b0 / 2, b1, k - 1);
      OrStep(a0, b0, Shl(a1, k - 1), Shl(b1, k - 1), Shl(Or(a1, b1), k - 1));
    }
  }

  lemma OrStep(a: nat, b: nat, x: nat, y: nat, r: nat)
    requires Or(a / 2 + x, b / 2 + y) == Or(a / 2, b / 2) + r
    ensures Or(a + 2 * x, b + 2 * y) == Or(a, b) + 2 * r
  {
    assert (a + 2 * x) / 2 == a / 2 + x && (b + 2 * y) / 2 == b / 2 + y;
  }

  /** And with a shifted mask only looks at the high part. */
  lemma {:induction false} AndShifted(a0: nat, a1: nat, b: nat, k: nat)
    requires a0 < Pow2(k)
    ensures And(a0 + Shl(a1, k), Shl(b, k)) == Shl(And(a1, b), k)
  {
    if k > 0 {
      AndShifted(a0 / 2, a1, b, k - 1);
      AndStep(a0, Shl(a1, k - 1), Shl(b, k - 1));
    }
  }

  lemma AndStep(a: nat, x: nat, b: nat)
    ensures And(a + 2 * x, 2 * b) == 2 * And(a / 2 + x, b)
  {
    assert (a + 2 * x) / 2 == a / 2 + x && (2 * b) / 2 == b && (2 * b) % 2 == 0;
  }

  lemma Pow2Big()
    ensures Pow2(12) == PAGE && Pow2(28) == FRAMES && Pow2(40) == PHYS_END
  {
    Pow2Values();
    assert Pow2(16) == 0x1_0000;
    assert Pow2(20) == 0x10_0000;
    assert Pow2(24) == 0x100_0000;
    assert Pow2(28) == 0x1000_0000;
    Pow2Add(12, 28);
  }

  /** The frame address is the entry under the kernel's mask. */
  lemma PhysIsMask(e: nat)
    ensures And(e, PHYS_MASK) == PhysOf(e)
  {
    Pow2Big();
    assert PHYS_MASK == PAGE * (FRAMES - 1);
    AndShifted(e % PAGE, e / PAGE, FRAMES - 1, 12);
    ShlIsMul(e / PAGE, 12);
    ShlIsMul(FRAMES - 1, 12);
    ShlIsMul(And(e / PAGE, FRAMES - 1), 12);
    AndMask(e / PAGE, 28);
  }

  /** A frame and flags or'ed together add up. */
  lemma EntryIsSum(p: nat, f: nat)
    requires IsFrame(p) && IsFlags(f)
    ensures Entry(p, f) == p + f
  {
    Pow2Big();
    var f0, f1 := f % PAGE, f / PAGE / FRAMES;
    assert f / PAGE == FRAMES * f1;
    OrParts(0, p / PAGE, f0, f / PAGE, 12);
    OrParts(p / PAGE, 0, 0, f1, 28);
    ShlIsMul(p / PAGE, 12);
    ShlIsMul(f / PAGE, 12);
    ShlIsMul(Or(p / PAGE, f / PAGE), 12);
    ShlIsMul(0, 28);
    ShlIsMul(f1, 28);
    ShlIsMul(Or(0, f1), 28);
    OrZero(f0);
    OrZero(p / PAGE);
    OrZero(f1);
  }

  /** Both parts of an entry can be read back. */
  lemma EntryParts(p: nat, f: nat)
    requires IsFrame(p) && IsFlags(f)
    ensures PhysOf(Entry(p, f)) == p && FlagsOf(Entry(p, f)) == f && Present(Entry(p, f)) == Present(f)
  {
    EntryIsSum(p, f);
    assert f / PAGE % FRAMES == 0;
    assert (p + f) / PAGE == p / PAGE + f / PAGE;
    assert (p / PAGE + f / PAGE) % FRAMES == p / PAGE;
  }
}
