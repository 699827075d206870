/** Multiplication and division with remainder. `Times`, `Quot` and `Rem` are `*`, `/` and `%`
    on natural numbers, written as repeated addition and subtraction so that proofs about
    addresses stay linear (`TimesIsMul`, `RemIsMod`). */
module Arithmetic {

  function Times(x: nat, y: nat): nat {
    if x == 0 then 0 else y + Times(x - 1, y)
  }

  lemma {:induction false} TimesIsMul(x: nat, y: nat)
    ensures Times(x, y) == x * y
  {
    if x > 0 {
      TimesIsMul(x - 1, y);
      assert ((x - 1) + 1) * y == (x - 1) * y + y;
    }
  }

  lemma {:induction false} TimesSplit(x: nat, y: nat, z: nat)
    ensures Times(x + y, z) == Times(x, z) + Times(y, z)
  {
    if x > 0 { TimesSplit(x - 1, y, z); }
  }

  lemma {:induction false} TimesLe(x: nat, y: nat, z: nat)
    requires x <= y
    ensures Times(x, z) <= Times(y, z)
  {
    TimesSplit(y - x, x, z);
  }

  lemma {:induction false} TimesAssoc(x: nat, y: nat, z: nat)
    ensures Times(Times(x, y), z) == Times(x, Times(y, z))
  {
    if x > 0 {
      TimesSplit(y, Times(x - 1, y), z);
      TimesAssoc(x - 1, y, z);
    }
  }

  function Rem(x: nat, d: nat): nat {
    if d == 0 || x < d then x else Rem(x - d, d)
  }

  function Quot(x: nat, d: nat): nat {
    if d == 0 || x < d then 0 else 1 + Quot(x - d, d)
  }

  lemma {:induction false} Euclid(x: nat, d: nat)
    requires d > 0
    ensures x == Times(Quot(x, d), d) + Rem(x, d) && Rem(x, d) < d
  {
    if x >= d { Euclid(x - d, d); }
  }

  lemma {:induction false} EuclidUnique(x: nat, d: nat, q: nat, r: nat)
    requires d > 0 && x == Times(q, d) + r && r < d
    ensures Quot(x, d) == q && Rem(x, d) == r
  {
    if q > 0 { EuclidUnique(x - d, d, q - 1, r); }
  }

  lemma {:induction false} RemIsMod(x: nat, d: nat)
    requires d > 0
    ensures Rem(x, d) == x % d && Quot(x, d) == x / d
  {
    TimesIsMul(x / d, d);
    EuclidUnique(x, d, x / d, x % d);
  }

  lemma {:induction false} Compose(x: nat, m: nat, n: nat, d: nat, q: nat, r: nat, p: nat, t: nat)
    requires d == Times(n, m) && x == Times(q, m) + r && r < m && q == Times(p, n) + t && t < n
    ensures x == Times(p, d) + (Times(t, m) + r) && Times(t, m) + r < d
  {
    TimesSplit(Times(p, n), t, m);
    TimesAssoc(p, n, m);
    TimesLe(t + 1, n, m);
  }

  /** Dividing twice. */
  lemma {:induction false} QuotQuot(x: nat, m: nat, n: nat, d: nat)
    requires m > 0 && n > 0 && d == Times(n, m)
    ensures Quot(Quot(x, m), n) == Quot(x, d)
  {
    var q, r := Quot(x, m), Rem(x, m);
    var p, t := Quot(q, n), Rem(q, n);
    Euclid(x, m);
    Euclid(q, n);
    Compose(x, m, n, d, q, r, p, t);
    EuclidUnique(x, d, p, Times(t, m) + r);
  }

  lemma {:induction false} RemRem(x: nat, s: nat, k: nat, d: nat)
    requires s > 0 && k > 0 && d == Times(k, s)
    ensures d > 0 && Rem(Rem(x, d), s) == Rem(x, s)
  {
    var q, r := Quot(x, d), Rem(x, d);
    Euclid(x, d);
    Euclid(r, s);
    TimesAssoc(q, k, s);
    TimesSplit(Times(q, k), Quot(r, s), s);
    EuclidUnique(x, s, Times(q, k) + Quot(r, s), Rem(r, s));
  }

  lemma {:induction false} RemAdd(x: nat, d: nat, r: nat)
    requires r > 0 && Rem(x, r) + d < r
    ensures Rem(x + d, r) == Rem(x, r) + d && Quot(x + d, r) == Quot(x, r)
  {
    Euclid(x, r);
    EuclidUnique(x + d, r, Quot(x, r), Rem(x, r) + d);
  }

  /** Residues of numbers less than `r` apart differ. */
  lemma {:induction false} RemApart(x: nat, y: nat, r: nat)
    requires r > 0 && x < y < x + r
    ensures Rem(x, r) != Rem(y, r)
  {
    Euclid(x, r);
    if Rem(x, r) + (y - x) < r {
      RemAdd(x, y - x, r);
    } else {
      EuclidUnique(y, r, Quot(x, r) + 1, Rem(x, r) + (y - x) - r);
    }
  }

  lemma {:induction false} RemMultiple(k: nat, s: nat)
    requires s > 0
    ensures Rem(Times(k, s), s) == 0
  {
    EuclidUnique(Times(k, s), s, k, 0);
  }

  lemma {:induction false} RemSum(x: nat, y: nat, s: nat)
    requires s > 0 && Rem(x, s) == 0 && Rem(y, s) == 0
    ensures Rem(x + y, s) == 0
  {
    Euclid(x, s);
    Euclid(y, s);
    TimesSplit(Quot(x, s), Quot(y, s), s);
    EuclidUnique(x + y, s, Quot(x, s) + Quot(y, s), 0);
  }

  /** Between two multiples of `s` lie at least `s` numbers. */
  lemma {:induction false} NextMultiple(x: nat, y: nat, s: nat)
    requires s > 0 && Rem(x, s) == 0 && Rem(y, s) == 0 && x < y
    ensures x + s <= y
  {
    if y < x + s { RemApart(x, y, s); }
  }

  /** Rounding down to a multiple. */
  lemma {:induction false} RoundDown(x: nat, s: nat)
    requires s > 0
    ensures Rem(x, s) <= x && Rem(x - Rem(x, s), s) == 0 && x < x - Rem(x, s) + s
  {
    Euclid(x, s);
    RemMultiple(Quot(x, s), s);
  }

  /** Numbers of one aligned block round down to its start. */
  lemma {:induction false} RoundDownSame(base: nat, x: nat, s: nat)
    requires s > 0 && Rem(base, s) == 0 && base <= x < base + s
    ensures x - Rem(x, s) == base && Quot(x, s) == Quot(base, s)
  {
    RemAdd(base, x - base, s);
  }

  /** The last base-`e` digit of a page number, in bytes, is the offset in a region of `e` pages. */
  lemma {:induction false} DigitOffset(x: nat, p: nat, e: nat, d: nat)
    requires p > 0 && e > 0 && d == Times(e, p) && Rem(x, p) == 0
    ensures Times(Rem(Quot(x, p), e), p) == Rem(x, d)
  {
    var q := Quot(x, p);
    var a, b := Quot(q, e), Rem(q, e);
    Euclid(x, p);
    Euclid(q, e);
    Compose(x, p, e, d, q, 0, a, b);
    EuclidUnique(x, d, a, Times(b, p));
  }

  lemma {:induction false} RemPlusMultiple(m: nat, n: nat, d: nat)
    requires n > 0
    ensures Rem(Times(m, n) + d, n) == Rem(d, n)
  {
    Euclid(d, n);
    TimesSplit(m, Quot(d, n), n);
    EuclidUnique(Times(m, n) + d, n, m + Quot(d, n), Rem(d, n));
  }

  /** A digit of a number does not depend on what lies above a higher digit. */
  lemma {:induction false} DigitOfLow(v: nat, u: nat, n: nat, k: nat, w: nat)
    requires u > 0 && n > 0 && w > 0 && w == Times(Times(k, n), u)
    ensures Rem(Quot(v, u), n) == Rem(Quot(Rem(v, w), u), n)
  {
    var q, low := Quot(v, w), Rem(v, w);
    var d := Quot(low, u);
    Euclid(v, w);
    Euclid(low, u);
    TimesAssoc(q, Times(k, n), u);
    TimesSplit(Times(q, Times(k, n)), d, u);
    EuclidUnique(v, u, Times(q, Times(k, n)) + d, Rem(low, u));
    TimesAssoc(q, k, n);
    RemPlusMultiple(Times(q, k), n, d);
  }
}
