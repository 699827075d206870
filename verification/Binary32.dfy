/** Seconds as an IEEE 754 binary32 number, computed with integers only. */
module Binary32 {

  const NSEC_PER_SEC: nat := 1_000_000_000
  const HIDDEN: nat := 0x80_0000
  const INFINITY: nat := 0x7f80_0000

  /** `x` times two to the power `e`. */
  ghost function Scale(x: real, e: int): real
    decreases if e < 0 then -e else e
  {
    if e == 0 then x else if e > 0 then 2.0 * Scale(x, e - 1) else Scale(x, e + 1) / 2.0
  }

  lemma {:induction false} ScaleUp(x: real, e: int)
    ensures Scale(x, e + 1) == 2.0 * Scale(x, e)
  {
  }

  lemma {:induction false} ScaleSum(x: real, y: real, e: int)
    ensures Scale(x + y, e) == Scale(x, e) + Scale(y, e)
    decreases if e < 0 then -e else e
  {
    if e > 0 {
      ScaleSum(x, y, e - 1);
    } else if e < 0 {
      ScaleSum(x, y, e + 1);
    }
  }

  lemma {:induction false} ScaleMonotone(x: real, y: real, e: int)
    requires x <= y
    ensures Scale(x, e) <= Scale(y, e)
    ensures x < y ==> Scale(x, e) < Scale(y, e)
    decreases if e < 0 then -e else e
  {
    if e > 0 {
      ScaleMonotone(x, y, e - 1);
    } else if e < 0 {
      ScaleMonotone(x, y, e + 1);
    }
  }

  lemma {:induction false} ScaleTwice(x: real, e: int, f: int)
    ensures Scale(Scale(x, e), f) == Scale(x, e + f)
    decreases if f < 0 then -f else f
  {
    if f > 0 {
      ScaleTwice(x, e, f - 1);
      ScaleUp(x, e + f - 1);
    } else if f < 0 {
      ScaleTwice(x, e, f + 1);
      ScaleUp(x, e + f);
    }
  }

  /** What a bit pattern below infinity stands for (section 3.4 of IEEE 754-2019). */
  ghost function Value(bits: nat): real {
    var exponent, fraction := bits / HIDDEN, bits % HIDDEN;
    if exponent == 0 then Scale(fraction as real, -149)
    else Scale((HIDDEN + fraction) as real, exponent - 150)
  }

  /** The exponent and the rounded significand of a positive number. */
  ghost predicate Rounds(x: real, e: int, sig: nat) {
    && Scale(1.0, e) <= x < Scale(1.0, e + 1)
    && sig as real <= Scale(x, 23 - e) + 0.5 < sig as real + 1.0
  }

  // ---------------------------------------------------------------------------
  // The computation
  // ---------------------------------------------------------------------------

  lemma {:induction false} HalveRatio(n: nat, d: nat)
    requires d > 0
    ensures n as real / (2 * d) as real == (n as real / d as real) / 2.0
    ensures (2 * n) as real / d as real == 2.0 * (n as real / d as real)
  {
    var q := n as real / d as real;
    assert q * d as real == n as real;
    assert (q / 2.0) * (2 * d) as real == n as real;
    assert (2.0 * q) * d as real == (2 * n) as real;
  }

  lemma {:induction false} RatioAtLeastOne(n: nat, d: nat)
    requires d > 0
    ensures n >= d <==> n as real / d as real >= 1.0
  {
    var q := n as real / d as real;
    assert q * d as real == n as real;
    if q >= 1.0 {
      assert (q - 1.0) * d as real >= 0.0;
    } else {
      assert (1.0 - q) * d as real > 0.0;
    }
  }

  lemma {:induction false} RatioOrder(n: nat, d: nat)
    requires d > 0
    ensures n >= d <==> n as real / d as real >= 1.0
    ensures n >= 2 * d <==> n as real / d as real >= 2.0
  {
    RatioAtLeastOne(n, d);
    RatioAtLeastOne(n, 2 * d);
    HalveRatio(n, d);
  }

  /** Integer division with a rounded quotient is rounding of the ratio, up from the middle. */
  lemma {:induction false} RoundRatio(n: nat, d: nat)
    requires d > 0
    ensures var q := n / d + (if 2 * (n % d) >= d then 1 else 0);
      q as real <= n as real / d as real + 0.5 < q as real + 1.0
  {
    var q, r := n / d, n % d;
    var f := r as real / d as real;
    assert n == q * d + r && r < d;
    assert f * d as real == r as real;
    assert n as real == (q as real + f) * d as real;
    assert n as real / d as real == q as real + f;
    RatioOrder(2 * r, d);
    HalveRatio(r, d);
    RatioOrder(r, d);
  }

  ghost function Seconds(ns: nat): real {
    ns as real / NSEC_PER_SEC as real
  }

  /** The ratio kept by the scaling loops, and the exponent taken out of it. */
  ghost predicate Scaled(ns: nat, n: nat, d: nat, e: int) {
    d > 0 && n as real / d as real == Scale(Seconds(ns), -e)
  }

  lemma {:induction false} ScaledStep(ns: nat, n: nat, d: nat, e: int)
    requires Scaled(ns, n, d, e)
    ensures Scaled(ns, n, 2 * d, e + 1) && Scaled(ns, 2 * n, d, e - 1)
  {
    HalveRatio(n, d);
    ScaleUp(Seconds(ns), -e - 1);
    ScaleUp(Seconds(ns), -e);
  }

  /** The loops end with the exponent of the number. */
  lemma {:induction false} ScaledExponent(ns: nat, n: nat, d: nat, e: int)
    requires Scaled(ns, n, d, e) && d <= n < 2 * d
    ensures Scale(1.0, e) <= Seconds(ns) < Scale(1.0, e + 1)
  {
    RatioOrder(n, d);
    var y := Scale(Seconds(ns), -e);
    ScaleTwice(Seconds(ns), -e, e);
    ScaleMonotone(1.0, y, e);
    ScaleMonotone(y, 2.0, e);
    ScaleTwice(1.0, 1, e);
    assert Scale(1.0, 1) == 2.0;
  }

  function Doubled(x: nat, k: nat): nat {
    if k == 0 then x else 2 * Doubled(x, k - 1)
  }

  /** Brings the ratio into [1, 2) by doubling one side. */
  method Normalise(ns: nat) returns (n: nat, d: nat, e: int)
    requires 0 < ns < 0x1_0000_0000_0000_0000
    ensures Scaled(ns, n, d, e) && d <= n < 2 * d && -30 <= e <= 34
  {
    n, d, e := ns, NSEC_PER_SEC, 0;
    if n >= d {
      while n >= 2 * d && e < 127
        invariant 0 <= e <= 34 && n == ns && d == Doubled(NSEC_PER_SEC, e) <= n && Scaled(ns, n, d, e)
      {
        ScaledStep(ns, n, d, e);
        PowerBound(e + 1);
        d := 2 * d;
        e := e + 1;
      }
    } else {
      while n < d && e > -126
        invariant -30 <= e <= 0 && d == NSEC_PER_SEC && n == Doubled(ns, -e) < 2 * d && Scaled(ns, n, d, e)
      {
        ScaledStep(ns, n, d, e);
        PowerReaches(ns, -e);
        n := 2 * n;
        e := e - 1;
      }
    }
  }

  lemma {:induction false} FiveMore(x: nat, k: nat)
    ensures Doubled(x, k + 5) == 32 * Doubled(x, k)
  {
    assert Doubled(x, k + 2) == 4 * Doubled(x, k);
    assert Doubled(x, k + 4) == 4 * Doubled(x, k + 2);
  }

  lemma {:induction false} ThirtyTimes(x: nat)
    ensures Doubled(x, 30) == 0x4000_0000 * x
  {
    FiveMore(x, 0);
    FiveMore(x, 5);
    FiveMore(x, 10);
    FiveMore(x, 15);
    FiveMore(x, 20);
    FiveMore(x, 25);
  }

  /** A 64-bit count is less than two to the 35 seconds. */
  lemma {:induction false} PowerBound(e: nat)
    requires e <= 35
    ensures e == 35 ==> Doubled(NSEC_PER_SEC, e) >= 0x1_0000_0000_0000_0000
  {
    ThirtyTimes(NSEC_PER_SEC);
    FiveMore(NSEC_PER_SEC, 30);
  }

  /** Thirty doublings take any count past one second. */
  lemma {:induction false} PowerReaches(ns: nat, k: nat)
    requires ns > 0 && k <= 30 && Doubled(ns, k) < NSEC_PER_SEC
    ensures k < 30
  {
    ThirtyTimes(ns);
  }

  lemma {:induction false} ScaledDoubled(ns: nat, n: nat, d: nat, e: int, k: nat)
    requires Scaled(ns, n, d, e)
    ensures Scaled(ns, Doubled(n, k), d, e - k)
  {
    if k > 0 {
      ScaledDoubled(ns, n, d, e, k - 1);
      ScaledStep(ns, Doubled(n, k - 1), d, e - k + 1);
    }
  }

  lemma {:induction false} TwentyThreeTimes(x: nat)
    ensures Doubled(x, 23) == HIDDEN * x
  {
    FiveMore(x, 0);
    FiveMore(x, 5);
    FiveMore(x, 10);
    FiveMore(x, 15);
    assert Doubled(x, 22) == 4 * Doubled(x, 20);
  }

  lemma {:induction false} ScaleFive(x: real, e: int)
    ensures Scale(x, e + 5) == 32.0 * Scale(x, e)
  {
    ScaleUp(x, e);
    ScaleUp(x, e + 1);
    ScaleUp(x, e + 2);
    ScaleUp(x, e + 3);
    ScaleUp(x, e + 4);
  }

  lemma {:induction false} ScaleSignificand(x: real, e: int)
    ensures Scale(x, e + 23) == HIDDEN as real * Scale(x, e)
  {
    ScaleFive(x, e);
    ScaleFive(x, e + 5);
    ScaleFive(x, e + 10);
    ScaleFive(x, e + 15);
    ScaleUp(x, e + 20);
    ScaleUp(x, e + 21);
    ScaleUp(x, e + 22);
  }

  /** The significand has its leading bit, or is the next power of two. */
  lemma {:induction false} SignificandRange(x: real, e: int, sig: nat)
    requires Rounds(x, e, sig)
    ensures HIDDEN <= sig <= 2 * HIDDEN
    ensures HIDDEN as real <= Scale(x, 23 - e)
  {
    ScaleMonotone(Scale(1.0, e), x, -e);
    ScaleMonotone(x, Scale(1.0, e + 1), -e);
    ScaleTwice(1.0, e, -e);
    ScaleTwice(1.0, e + 1, -e);
    assert Scale(1.0, 1) == 2.0;
    ScaleSignificand(x, -e);
  }

  /** The bit pattern of a significand and an exponent; a carry lands in the exponent by itself. */
  function Pattern(e: int, sig: nat): int {
    (e + 126) * HIDDEN + sig
  }

  method NsToF32Bits(ns: nat) returns (bits: nat, ghost e: int, ghost sig: nat)
    requires ns < 0x1_0000_0000_0000_0000
    ensures ns == 0 ==> bits == 0
    ensures ns > 0 ==> Rounds(Seconds(ns), e, sig) && -30 <= e <= 34 && bits == Pattern(e, sig) < INFINITY
  {
    if ns == 0 {
      return 0, 0, 0;
    }
    var numerator, denominator, exponent := Normalise(ns);
    e := exponent;
    var scaled := numerator * HIDDEN;
    var significand := scaled / denominator;
    var remainder := scaled % denominator;
    if 2 * remainder >= denominator {
      significand := significand + 1;
    }
    sig := significand;
    RoundsHere(ns, numerator, denominator, exponent);
    SignificandRange(Seconds(ns), e, sig);
    bits := Assemble(exponent, significand);
  }

  /** A carry out of the significand moves to the exponent; overflow would give infinity. */
  method Assemble(e: int, sig: nat) returns (bits: nat)
    requires -30 <= e <= 34 && HIDDEN <= sig <= 2 * HIDDEN
    ensures bits == Pattern(e, sig) < INFINITY
  {
    var exponent, significand := e, sig;
    if significand >= 2 * HIDDEN {
      significand := significand / 2;
      exponent := exponent + 1;
    }
    if exponent > 127 {
      return INFINITY;
    }
    bits := (exponent + 127) * HIDDEN + significand % HIDDEN;
  }

  lemma {:induction false} RoundsHere(ns: nat, n: nat, d: nat, e: int)
    requires Scaled(ns, n, d, e) && d <= n < 2 * d
    ensures var q := n * HIDDEN / d + (if 2 * (n * HIDDEN % d) >= d then 1 else 0);
      Rounds(Seconds(ns), e, q)
  {
    ScaledExponent(ns, n, d, e);
    ScaledDoubled(ns, n, d, e, 23);
    TwentyThreeTimes(n);
    RoundRatio(n * HIDDEN, d);
  }

  // ---------------------------------------------------------------------------
  // The result is the nearest binary32 number, and larger inputs give larger patterns
  // ---------------------------------------------------------------------------

  lemma {:induction false} PatternValue(e: int, sig: nat)
    requires -126 <= e && HIDDEN <= sig <= 2 * HIDDEN
    ensures Pattern(e, sig) >= 0 && Value(Pattern(e, sig)) == Scale(sig as real, e - 23)
  {
    var bits := Pattern(e, sig);
    if sig < 2 * HIDDEN {
      assert bits == (e + 127) * HIDDEN + (sig - HIDDEN);
      assert bits / HIDDEN == e + 127 && bits % HIDDEN == sig - HIDDEN;
    } else {
      assert bits == (e + 128) * HIDDEN;
      assert bits / HIDDEN == e + 128 && bits % HIDDEN == 0;
      ScaleTwice(HIDDEN as real, 1, e - 23);
    }
  }

  ghost function Distance(x: real, y: real): real {
    if x >= y then x - y else y - x
  }

  lemma {:induction false} ScaleDistance(x: real, y: real, e: int)
    ensures Distance(Scale(x, e), Scale(y, e)) == Scale(Distance(x, y), e)
  {
    if x >= y {
      ScaleMonotone(y, x, e);
      ScaleSum(x - y, y, e);
    } else {
      ScaleMonotone(x, y, e);
      ScaleSum(y - x, x, e);
    }
  }

  lemma {:induction false} WholeMultiple(k: nat, f: int, g: int) returns (j: nat)
    requires g <= f
    ensures Scale(k as real, f) == Scale(j as real, g)
    decreases f - g
  {
    if f == g {
      j := k;
    } else {
      var i := WholeMultiple(k, f - 1, g);
      j := 2 * i;
      ScaleUp(k as real, f - 1);
      ScaleSum(i as real, i as real, g);
      assert j as real == i as real + i as real;
    }
  }

  lemma {:induction false} ScaleGrows(x: real, f: int, g: int)
    requires x >= 0.0 && f <= g
    ensures 0.0 <= Scale(x, f) <= Scale(x, g)
    decreases g - f
  {
    if f < g {
      ScaleGrows(x, f, g - 1);
      ScaleUp(x, g - 1);
    } else {
      ScaleMonotone(0.0, x, f);
      ScaleZero(f);
    }
  }

  lemma {:induction false} ScaleZero(e: int)
    ensures Scale(0.0, e) == 0.0
    decreases if e < 0 then -e else e
  {
    if e > 0 {
      ScaleZero(e - 1);
    } else if e < 0 {
      ScaleZero(e + 1);
    }
  }

  /** A finite number is a short significand at some exponent. */
  lemma {:induction false} Parts(b: nat) returns (k: nat, f: int)
    requires b < INFINITY
    ensures k < 2 * HIDDEN && Value(b) == Scale(k as real, f)
  {
    if b / HIDDEN == 0 {
      k, f := b % HIDDEN, -149;
    } else {
      k, f := HIDDEN + b % HIDDEN, b / HIDDEN - 150;
    }
  }

  /** In units of the last place the significand beats every whole number, and every number below the binade. */
  lemma {:induction false} NearestUnit(y: real, sig: nat, t: real, j: nat)
    requires sig as real <= y + 0.5 < sig as real + 1.0 && HIDDEN as real <= y
    requires t == j as real || t < HIDDEN as real
    ensures Distance(sig as real, y) <= Distance(t, y)
    ensures Distance(sig as real, y) == Distance(t, y) ==> t <= sig as real
  {
    if t == j as real {
      assert j <= sig - 1 || j == sig || j >= sig + 1;
    } else {
      assert sig >= HIDDEN;
    }
  }

  /**
    * No binary32 number is nearer, and one that is as near is not larger: rounding to nearest with ties
    * away from zero (section 4.3.1 of IEEE 754-2019).
    */
  lemma {:induction false} Nearest(x: real, e: int, sig: nat, b: nat)
    requires Rounds(x, e, sig) && -126 <= e && b < INFINITY
    ensures Pattern(e, sig) >= 0
    ensures var v, w := Value(Pattern(e, sig)), Value(b);
      Distance(v, x) <= Distance(w, x) && (Distance(v, x) == Distance(w, x) ==> w <= v)
  {
    SignificandRange(x, e, sig);
    PatternValue(e, sig);
    var g := e - 23;
    var y, w := Scale(x, -g), Value(b);
    var t := Scale(w, -g);
    ScaleTwice(x, -g, g);
    ScaleTwice(w, -g, g);
    var j := UnitsOf(b, g);
    NearestUnit(y, sig, t, j);
    ScaleDistance(sig as real, y, g);
    ScaleDistance(t, y, g);
    ScaleMonotone(Distance(sig as real, y), Distance(t, y), g);
    if t <= sig as real {
      ScaleMonotone(t, sig as real, g);
    }
  }

  /** In units of the last place a number is whole, or below the binade. */
  lemma {:induction false} UnitsOf(b: nat, g: int) returns (j: nat)
    requires b < INFINITY
    ensures var t := Scale(Value(b), -g); t == j as real || t < HIDDEN as real
  {
    var k, f := Parts(b);
    ScaleTwice(k as real, f, -g);
    if g <= f {
      j := WholeMultiple(k, f - g, 0);
    } else {
      j := 0;
      ScaleGrows(k as real, f - g, -1);
      assert Scale(k as real, -1) == k as real / 2.0;
    }
  }

  lemma {:induction false} ExponentOrder(e: int, f: int)
    requires Scale(1.0, e) < Scale(1.0, f)
    ensures e < f
  {
    if f <= e {
      ScaleGrows(1.0, f, e);
    }
  }

  /** Longer times never get smaller patterns. */
  lemma {:induction false} PatternMonotone(ns: nat, e: int, sig: nat, ns': nat, e': int, sig': nat)
    requires ns <= ns' && Rounds(Seconds(ns), e, sig) && Rounds(Seconds(ns'), e', sig')
    ensures Pattern(e, sig) <= Pattern(e', sig')
  {
    var x, x' := Seconds(ns), Seconds(ns');
    ExponentOrder(e, e' + 1);
    SignificandRange(x, e, sig);
    SignificandRange(x', e', sig');
    if e == e' {
      ScaleMonotone(x, x', 23 - e);
    }
  }
}
