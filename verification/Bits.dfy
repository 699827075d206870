/** Bits, shifts and 32-bit wrap-around on natural numbers. */
module Bits {

  /** One past the largest 32-bit number. */
  const MODULUS: nat := 0x1_0000_0000

  type Word = n: nat | n < 0x1_0000_0000

  function Bit(n: nat, i: nat): bool {
    if i == 0 then n % 2 == 1 else Bit(n / 2, i - 1)
  }

  function Pow2(n: nat): (p: nat)
    ensures p >= 1
  {
    if n == 0 then 1 else 2 * Pow2(n - 1)
  }

  // ---------------------------------------------------------------------------
  // Bit by bit
  // ---------------------------------------------------------------------------

  function BitAnd(a: nat, b: nat): (r: nat)
    ensures r <= a && r <= b
  {
    if a == 0 || b == 0 then 0 else (if a % 2 == 1 && b % 2 == 1 then 1 else 0) + 2 * BitAnd(a / 2, b / 2)
  }

  function BitOr(a: nat, b: nat): nat {
    if a == 0 then b else (if a % 2 == 1 || b % 2 == 1 then 1 else 0) + 2 * BitOr(a / 2, b / 2)
  }

  function BitXor(a: nat, b: nat): nat {
    if a == 0 then b else (if a % 2 == b % 2 then 0 else 1) + 2 * BitXor(a / 2, b / 2)
  }

  lemma {:induction false} ZeroBits(i: nat)
    ensures !Bit(0, i)
  {
    if i > 0 {
      ZeroBits(i - 1);
    }
  }

  lemma {:induction false} AndBit(a: nat, b: nat, i: nat)
    ensures Bit(BitAnd(a, b), i) <==> Bit(a, i) && Bit(b, i)
    decreases i
  {
    if a == 0 || b == 0 {
      ZeroBits(i);
    } else if i > 0 {
      AndBit(a / 2, b / 2, i - 1);
    }
  }

  lemma {:induction false} OrBit(a: nat, b: nat, i: nat)
    ensures Bit(BitOr(a, b), i) <==> Bit(a, i) || Bit(b, i)
    decreases i
  {
    if a == 0 {
      ZeroBits(i);
    } else if i > 0 {
      OrBit(a / 2, b / 2, i - 1);
    }
  }

  lemma {:induction false} XorBit(a: nat, b: nat, i: nat)
    ensures Bit(BitXor(a, b), i) <==> Bit(a, i) != Bit(b, i)
    decreases i
  {
    if a == 0 {
      ZeroBits(i);
    } else if i > 0 {
      XorBit(a / 2, b / 2, i - 1);
    }
  }

  lemma {:induction false} OrBound(a: nat, b: nat, n: nat)
    requires a < Pow2(n) && b < Pow2(n)
    ensures BitOr(a, b) < Pow2(n)
    decreases n
  {
    if a > 0 {
      OrBound(a / 2, b / 2, n - 1);
    }
  }

  lemma {:induction false} XorBound(a: nat, b: nat, n: nat)
    requires a < Pow2(n) && b < Pow2(n)
    ensures BitXor(a, b) < Pow2(n)
    decreases n
  {
    if a > 0 {
      XorBound(a / 2, b / 2, n - 1);
    }
  }

  /** A number has a bit set exactly when it is not zero. */
  lemma {:induction false} SomeBit(n: nat, w: nat) returns (i: nat)
    requires 0 < n < Pow2(w)
    ensures i < w && Bit(n, i)
    decreases n
  {
    if n % 2 == 1 {
      i := 0;
    } else {
      i := SomeBit(n / 2, w - 1);
      i := i + 1;
    }
  }

  lemma {:induction false} ThirtyTwo()
    ensures Pow2(32) == MODULUS
  {
    assert Pow2(8) == 0x100;
    assert Pow2(16) == 0x1_0000;
    assert Pow2(24) == 0x100_0000;
  }

  function WordOr(a: Word, b: Word): Word {
    ThirtyTwo();
    OrBound(a, b, 32);
    BitOr(a, b)
  }

  function WordXor(a: Word, b: Word): Word {
    ThirtyTwo();
    XorBound(a, b, 32);
    BitXor(a, b)
  }

  // ---------------------------------------------------------------------------
  // Shifts
  // ---------------------------------------------------------------------------

  function ShiftLeft(a: Word, s: nat): Word
    decreases s
  {
    if s == 0 then a else ShiftLeft(2 * a % MODULUS, s - 1)
  }

  function ShiftRight(a: Word, s: nat): Word {
    if s == 0 then a else ShiftRight(a / 2, s - 1)
  }

  /** Two numbers that leave the same 32 bits. */
  predicate Congruent(x: int, y: int) {
    (x - y) % MODULUS == 0
  }

  lemma {:induction false} CongruentTrans(x: int, y: int, z: int)
    requires Congruent(x, y) && Congruent(y, z)
    ensures Congruent(x, z)
  {
  }

  /** `n` times two to the power `s`. */
  function Doubled(n: nat, s: nat): nat {
    if s == 0 then n else 2 * Doubled(n, s - 1)
  }

  lemma {:induction false} DoubledFirst(n: nat, s: nat)
    requires s > 0
    ensures Doubled(n, s) == Doubled(2 * n, s - 1)
  {
    if s > 1 {
      DoubledFirst(n, s - 1);
    }
  }

  lemma {:induction false} DoubledCongruent(x: nat, y: nat, s: nat)
    requires Congruent(x, y)
    ensures Congruent(Doubled(x, s), Doubled(y, s))
  {
    if s > 0 {
      DoubledCongruent(x, y, s - 1);
      TwiceCongruent(Doubled(x, s - 1), Doubled(y, s - 1));
    }
  }

  lemma {:induction false} TwiceCongruent(x: int, y: int)
    requires Congruent(x, y)
    ensures Congruent(2 * x, 2 * y)
  {
    var q := (x - y) / MODULUS;
    assert x - y == MODULUS * q;
    assert 2 * x - 2 * y == MODULUS * (2 * q);
    Multiple(2 * q);
  }

  lemma {:induction false} Multiple(q: int)
    ensures (MODULUS * q) % MODULUS == 0
  {
  }

  /** Shifting left multiplies by a power of two, of which 32 bits remain. */
  lemma {:induction false} ShiftLeftIs(a: Word, s: nat)
    ensures Congruent(ShiftLeft(a, s), Doubled(a, s))
    decreases s
  {
    if s > 0 {
      var twice, b := 2 * a, 2 * a % MODULUS;
      ShiftLeftIs(b, s - 1);
      DoubledCongruent(b, twice, s - 1);
      DoubledFirst(a, s);
      CongruentTrans(ShiftLeft(a, s), Doubled(b, s - 1), Doubled(twice, s - 1));
    }
  }

  /** Shifting right divides by a power of two. */
  lemma {:induction false} ShiftRightIs(a: Word, s: nat)
    ensures Doubled(ShiftRight(a, s), s) <= a < Doubled(ShiftRight(a, s) + 1, s)
  {
    if s > 0 {
      ShiftRightIs(a / 2, s - 1);
    }
  }

  lemma {:induction false} Divided(a: nat, d: nat)
    requires d > 0
    ensures a / d <= a && (a / d) * d <= a < (a / d + 1) * d && a == (a / d) * d + a % d
  {
    DividedBy(a, d, a / d, a % d);
  }

  lemma {:induction false} DividedBy(a: nat, d: nat, q: nat, r: nat)
    requires d > 0 && a == d * q + r && r < d
    ensures q <= a && q * d <= a < (q + 1) * d && a == q * d + r
  {
    var rest := d - 1;
    assert d * q == q + rest * q;
    assert rest * q >= 0;
    assert (q + 1) * d == d * q + d;
  }
}
