/** Bitwise arithmetic on unbounded non-negative integers, as Python computes it. */
module Bits {

  function Pow2(n: nat): (r: nat)
    ensures r >= 1
  {
    if n == 0 then 1 else 2 * Pow2(n - 1)
  }

  /** `x << n` */
  function Shl(x: nat, n: nat): nat {
    if n == 0 then x else 2 * Shl(x, n - 1)
  }

  /** `x >> n` */
  function Shr(x: nat, n: nat): nat {
    if n == 0 then x else Shr(x, n - 1) / 2
  }

  /** `x ^ y` */
  function Xor(x: nat, y: nat): nat {
    if x == 0 && y == 0 then 0 else 2 * Xor(x / 2, y / 2) + (x % 2 + y % 2) % 2
  }

  /** `x | y` */
  function Or(x: nat, y: nat): nat {
    if x == 0 && y == 0 then 0 else 2 * Or(x / 2, y / 2) + (if x % 2 == 1 || y % 2 == 1 then 1 else 0)
  }

  /** `x & y` */
  function And(x: nat, y: nat): nat {
    if x == 0 && y == 0 then 0 else 2 * And(x / 2, y / 2) + (if x % 2 == 1 && y % 2 == 1 then 1 else 0)
  }

  /** `~x & 0xffffffff`: -x - 1 reduced to 32 bits. */
  function Not32(x: nat): nat {
    (-(x as int) - 1) % 0x1_0000_0000
  }

  /** `x.bit_length()` */
  function BitLength(x: nat): nat {
    if x == 0 then 0 else 1 + BitLength(x / 2)
  }

  // ---------------------------------------------------------------------
  // Shifts
  // ---------------------------------------------------------------------

  lemma {:induction false} ShrHalf(x: nat, n: nat)
    ensures Shr(x / 2, n) == Shr(x, n + 1)
  {
    if n > 0 {
      ShrHalf(x, n - 1);
    }
  }

  lemma {:induction false} ShrShr(x: nat, m: nat, n: nat)
    ensures Shr(Shr(x, m), n) == Shr(x, m + n)
  {
    if n > 0 {
      ShrShr(x, m, n - 1);
    }
  }

  lemma {:induction false} ShrBounds(x: nat, n: nat)
    ensures Shl(Shr(x, n), n) <= x < Shl(Shr(x, n), n) + Pow2(n)
  {
    if n > 0 {
      ShrBounds(x / 2, n - 1);
      ShrHalf(x, n - 1);
    }
  }

  /** A number lies in exactly one block of length `Pow2(n)`. */
  lemma {:induction false} ShrUnique(x: nat, q: nat, n: nat)
    requires Shl(q, n) <= x < Shl(q, n) + Pow2(n)
    ensures Shr(x, n) == q
  {
    if n > 0 {
      ShrUnique(x / 2, q, n - 1);
      ShrHalf(x, n - 1);
    }
  }

  lemma {:induction false} ShlAdd(x: nat, y: nat, n: nat)
    ensures Shl(x + y, n) == Shl(x, n) + Shl(y, n)
  {
    if n > 0 {
      ShlAdd(x, y, n - 1);
    }
  }

  lemma {:induction false} ShlMonotone(x: nat, y: nat, n: nat)
    requires x < y
    ensures Shl(x, n) + Pow2(n) <= Shl(y, n)
  {
    if n > 0 {
      ShlMonotone(x, y, n - 1);
    }
  }

  lemma ShrMonotone(x: nat, y: nat, n: nat)
    requires x <= y
    ensures Shr(x, n) <= Shr(y, n)
  {
    ShrBounds(x, n);
    ShrBounds(y, n);
    if Shr(y, n) < Shr(x, n) {
      ShlMonotone(Shr(y, n), Shr(x, n), n);
    }
  }

  lemma {:induction false} ShlShl(x: nat, m: nat, n: nat)
    ensures Shl(Shl(x, m), n) == Shl(x, m + n)
  {
    if n > 0 {
      ShlShl(x, m, n - 1);
    }
  }

  lemma {:induction false} PowShl(m: nat, n: nat)
    ensures Shl(Pow2(m), n) == Pow2(m + n)
  {
    if n > 0 {
      PowShl(m, n - 1);
    }
  }

  lemma {:induction false} PowMonotone(m: nat, n: nat)
    requires m <= n
    ensures Pow2(m) <= Pow2(n)
  {
    if m < n {
      PowMonotone(m, n - 1);
    }
  }

  lemma ShrSmall(x: nat, n: nat)
    requires x < Pow2(n)
    ensures Shr(x, n) == 0
  {
    ShlZero(n);
    ShrUnique(x, 0, n);
  }

  lemma {:induction false} ShlZero(n: nat)
    ensures Shl(0, n) == 0
  {
    if n > 0 {
      ShlZero(n - 1);
    }
  }

  lemma Small()
    ensures Pow2(8) == 256 && Pow2(32) == 0x1_0000_0000
  {
    assert Pow2(4) == 16;
    assert Pow2(8) == 256;
    PowShl(8, 8);
    assert Shl(256, 4) == 4096;
    assert Pow2(16) == 65536;
    assert Pow2(20) == 1048576;
    assert Pow2(24) == 16777216;
    assert Pow2(28) == 268435456;
  }

  // ---------------------------------------------------------------------
  // Bitwise operations
  // ---------------------------------------------------------------------

  /** The bit length of an exclusive or is the least shift that makes two numbers equal. */
  lemma {:induction false} XorLength(x: nat, y: nat, n: nat)
    ensures BitLength(Xor(x, y)) <= n <==> Shr(x, n) == Shr(y, n)
    decreases n
  {
    XorHalf(x, y);
    if n == 0 {
      XorZero(x, y);
    } else {
      XorLength(x / 2, y / 2, n - 1);
      ShrHalf(x, n - 1);
      ShrHalf(y, n - 1);
    }
  }

  lemma XorHalf(x: nat, y: nat)
    ensures Xor(x, y) / 2 == Xor(x / 2, y / 2)
  {
  }

  lemma {:induction false} XorZero(x: nat, y: nat)
    ensures Xor(x, y) == 0 <==> x == y
    decreases x + y
  {
    if x + y > 0 {
      XorZero(x / 2, y / 2);
    }
  }

  /** Masking with ones above `n` zeros clears the low `n` bits. */
  lemma {:induction false} AndMask(x: nat, p: nat, n: nat)
    requires x < Pow2(p + n)
    ensures And(x, Shl(Pow2(p) - 1, n)) == Shl(Shr(x, n), n)
    decreases p + n
  {
    if n > 0 {
      AndMask(x / 2, p, n - 1);
      ShrHalf(x, n - 1);
    } else if p > 0 {
      AndMask(x / 2, p - 1, 0);
    }
  }

  /** Or-ing with `n` ones fills the low `n` bits. */
  lemma {:induction false} OrOnes(x: nat, n: nat)
    ensures Or(x, Pow2(n) - 1) == Shl(Shr(x, n), n) + Pow2(n) - 1
    decreases n
  {
    if n == 0 {
      OrZero(x);
    } else {
      OrOnes(x / 2, n - 1);
      ShrHalf(x, n - 1);
    }
  }

  lemma {:induction false} OrZero(x: nat)
    ensures Or(x, 0) == x
  {
    if x > 0 {
      OrZero(x / 2);
    }
  }

  /** And-ing with `n` ones keeps the low `n` bits. */
  lemma {:induction false} AndOnes(x: nat, n: nat)
    ensures And(x, Pow2(n) - 1) + Shl(Shr(x, n), n) == x
    decreases n
  {
    if n == 0 {
      AndZero(x);
    } else {
      AndOnes(x / 2, n - 1);
      ShrHalf(x, n - 1);
    }
  }

  lemma {:induction false} AndZero(x: nat)
    ensures And(x, 0) == 0
  {
    if x > 0 {
      AndZero(x / 2);
    }
  }
}
