/** Bitwise operations of the kernel's unsigned words, on natural numbers. */
module Bits {
  const PAGE: nat := 0x1000             // the size of a page

  function Pow2(k: nat): (r: nat)
    ensures r > 0
  {
    if k == 0 then 1 else 2 * Pow2(k - 1)
  }

  /** Bitwise exclusive or. */
  function Xor(a: nat, b: nat): nat
    decreases a + b
  {
    if a == 0 && b == 0 then 0 else 2 * Xor(a / 2, b / 2) + (a % 2 + b % 2) % 2
  }

  /** Bitwise and. */
  function And(a: nat, b: nat): nat
    decreases a
  {
    if a == 0 then 0 else 2 * And(a / 2, b / 2) + (if a % 2 == 1 && b % 2 == 1 then 1 else 0)
  }

  /** Bitwise inclusive or. */
  function Or(a: nat, b: nat): nat
    decreases a + b
  {
    if a == 0 && b == 0 then 0
    else 2 * Or(a / 2, b / 2) + (if a % 2 == 1 || b % 2 == 1 then 1 else 0)
  }

  /** The low k bits of a are clear. */
  predicate Aligned(a: nat, k: nat)
  {
    k == 0 || (a % 2 == 0 && Aligned(a / 2, k - 1))
  }

  /** Bit k of a. */
  function Bit(a: nat, k: nat): (r: nat)
    ensures r < 2
  {
    if k == 0 then a % 2 else Bit(a / 2, k - 1)
  }

  /** Being aligned is being a multiple of the power of two. */
  lemma {:induction false} AlignedIsMultiple(a: nat, k: nat)
    ensures Aligned(a, k) <==> a % Pow2(k) == 0
  {
    if k > 0 {
      AlignedIsMultiple(a / 2, k - 1);
      ModHalves(a, Pow2(k - 1));
    }
  }

  lemma ModHalves(a: nat, m: nat)
    requires m > 0
    ensures a % (2 * m) == 2 * ((a / 2) % m) + a % 2
  {
    var q, r := (a / 2) / m, (a / 2) % m;
    assert a == 2 * (q * m + r) + a % 2;
    assert a == q * (2 * m) + (2 * r + a % 2) by {
      assert 2 * (q * m) == q * (2 * m);
    }
    ModUnique(a, 2 * m, q, 2 * r + a % 2);
  }

  lemma ModUnique(a: nat, m: nat, q: nat, r: nat)
    requires r < m && a == q * m + r
    ensures a % m == r && a / m == q
  {
    var q', r' := a / m, a % m;
    assert a == m * q' + r';
    if q > q' {
      MulGrows(m, q', q);
    } else if q < q' {
      MulGrows(m, q, q');
    }
  }

  /** The largest multiple of m up to a. */
  function Floor(a: nat, m: nat): (r: nat)
    requires m > 0
    ensures r <= a < r + m
  {
    a - a % m
  }

  lemma FloorUnique(a: nat, m: nat, low: nat)
    requires m > 0 && low % m == 0 && low <= a < low + m
    ensures Floor(a, m) == low
  {
    var q := low / m;
    assert low == q * m;
    ModUnique(a, m, q, a - low);
  }

  lemma {:induction false} MulGrows(m: nat, j: nat, k: nat)
    requires j < k
    ensures m * k >= m * j + m
  {
    MulNext(m, k - 1);
    if j < k - 1 { MulGrows(m, j, k - 1); }
  }

  lemma MulNext(m: nat, j: nat)
    ensures m * (j + 1) == m * j + m
  {
  }

  lemma {:induction false} XorZero(a: nat)
    ensures Xor(a, 0) == a
  {
    if a > 0 { XorZero(a / 2); }
  }

  lemma {:induction false} BitBound(a: nat, k: nat)
    ensures Bit(a, k) == 1 ==> a >= Pow2(k)
  {
    if k > 0 { BitBound(a / 2, k - 1); }
  }

  /** Exclusive or with a single bit flips that bit. */
  lemma {:induction false} XorBit(a: nat, k: nat)
    ensures Bit(a, k) == 1 ==> a >= Pow2(k)
    ensures Xor(a, Pow2(k)) == if Bit(a, k) == 0 then a + Pow2(k) else a - Pow2(k)
  {
    BitBound(a, k);
    if k == 0 {
      XorZero(a / 2);
    } else {
      XorBit(a / 2, k - 1);
      XorHalves(a, Pow2(k - 1));
    }
  }

  lemma XorHalves(a: nat, m: nat)
    requires m > 0
    ensures Xor(a, 2 * m) == 2 * Xor(a / 2, m) + a % 2
  {
    assert (2 * m) / 2 == m && (2 * m) % 2 == 0;
  }

  /** Arithmetic of the next bit of an aligned number. */
  lemma {:induction false} AlignedStep(a: nat, k: nat)
    requires Aligned(a, k)
    ensures Aligned(a + Pow2(k), k)
    ensures Aligned(a, k + 1) <==> Bit(a, k) == 0
    ensures Bit(a, k) == 0 ==> Bit(a + Pow2(k), k) == 1
    ensures Bit(a, k) == 1 ==> a >= Pow2(k) && Aligned(a - Pow2(k), k + 1)
  {
    if k > 0 {
      AlignedStep(a / 2, k - 1);
      assert (a + Pow2(k)) / 2 == a / 2 + Pow2(k - 1);
    }
  }

  lemma {:induction false} AlignedWeaken(a: nat, k: nat, j: nat)
    requires Aligned(a, k) && j <= k
    ensures Aligned(a, j)
  {
    if j > 0 { AlignedWeaken(a / 2, k - 1, j - 1); }
  }

  lemma XorDouble(a: nat, b: nat)
    ensures Xor(2 * a, 2 * b) == 2 * Xor(a, b)
  {
  }

  lemma {:induction false} XorShift(a: nat, b: nat, k: nat)
    ensures Xor(Pow2(k) * a, Pow2(k) * b) == Pow2(k) * Xor(a, b)
  {
    if k > 0 {
      XorShift(a, b, k - 1);
      XorShiftOnce(a, b, Pow2(k - 1), Pow2(k));
    }
  }

  lemma XorShiftOnce(a: nat, b: nat, m: nat, n: nat)
    requires n == 2 * m && Xor(m * a, m * b) == m * Xor(a, b)
    ensures Xor(n * a, n * b) == n * Xor(a, b)
  {
    XorDouble(m * a, m * b);
    DoubleMul(m, a);
    DoubleMul(m, b);
    DoubleMul(m, Xor(a, b));
  }

  lemma DoubleMul(m: nat, a: nat)
    ensures 2 * (m * a) == (2 * m) * a
  {
  }

  lemma {:induction false} Pow2Add(j: nat, k: nat)
    ensures Pow2(j + k) == Pow2(j) * Pow2(k)
  {
    if j > 0 {
      Pow2Add(j - 1, k);
      assert 2 * (Pow2(j - 1) * Pow2(k)) == Pow2(j) * Pow2(k);
    }
  }

  lemma {:induction false} Pow2Monotone(j: nat, k: nat)
    requires j <= k
    ensures Pow2(j) <= Pow2(k)
  {
    if j < k { Pow2Monotone(j, k - 1); }
  }

  lemma {:induction false} AndComm(a: nat, b: nat)
    ensures And(a, b) == And(b, a)
  {
    if a > 0 { AndComm(a / 2, b / 2); }
    else { AndZero(b); }
  }

  lemma {:induction false} AndZero(a: nat)
    ensures And(a, 0) == 0
  {
    if a > 0 { AndZero(a / 2); }
  }

  /** Masking with 2^k - 1 keeps the low k bits. */
  lemma {:induction false} AndMask(a: nat, k: nat)
    ensures And(a, Pow2(k) - 1) == a % Pow2(k)
  {
    if k == 0 {
      AndZero(a);
    } else {
      AndMask(a / 2, k - 1);
      ModHalves(a, Pow2(k - 1));
      assert (Pow2(k) - 1) / 2 == Pow2(k - 1) - 1;
    }
  }

  lemma Pow2Values()
    ensures Pow2(0) == 1 && Pow2(1) == 2 && Pow2(2) == 4 && Pow2(3) == 8 && Pow2(4) == 16
    ensures Pow2(5) == 32 && Pow2(6) == 64 && Pow2(7) == 128 && Pow2(8) == 256 && Pow2(9) == 512
    ensures Pow2(12) == 4096
  {
    assert Pow2(3) == 8;
    assert Pow2(6) == 64;
    assert Pow2(9) == 512;
    assert Pow2(12) == 4096;
  }
}
