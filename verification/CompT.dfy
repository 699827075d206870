/** The 16-bit accounting float: thirteen bits of mantissa and three bits of base-eight exponent. */
module CompT {

  const MANTISSA_MAX: nat := 0x1fff
  const EXPONENT_MAX: nat := 7
  const CODE_MAX: nat := 0xffff

  function Div8(v: nat, e: nat): nat {
    if e == 0 then v else Div8(v, e - 1) / 8
  }

  function Mul8(x: nat, e: nat): nat {
    if e == 0 then x else 8 * Mul8(x, e - 1)
  }

  /** What a code stands for. */
  function Decode(code: nat): nat {
    Mul8(code % 0x2000, code / 0x2000)
  }

  lemma {:induction false} Mul8Sum(x: nat, y: nat, e: nat)
    ensures Mul8(x + y, e) == Mul8(x, e) + Mul8(y, e)
  {
    if e > 0 {
      Mul8Sum(x, y, e - 1);
    }
  }

  lemma {:induction false} Mul8Eight(x: nat, e: nat)
    requires e > 0
    ensures Mul8(x, e) == Mul8(8 * x, e - 1)
  {
    if e > 1 {
      Mul8Eight(x, e - 1);
    }
  }

  lemma {:induction false} Mul8Monotone(x: nat, y: nat, e: nat)
    requires x <= y
    ensures Mul8(x, e) <= Mul8(y, e)
  {
    if e > 0 {
      Mul8Monotone(x, y, e - 1);
    }
  }

  lemma {:induction false} Div8Bounds(v: nat, e: nat)
    ensures Mul8(Div8(v, e), e) <= v < Mul8(Div8(v, e) + 1, e)
  {
    if e > 0 {
      var q := Div8(v, e - 1);
      var d := Div8(v, e);
      Div8Bounds(v, e - 1);
      Mul8Eight(d, e);
      Mul8Eight(d + 1, e);
      Mul8Monotone(8 * d, q, e - 1);
      Mul8Monotone(q + 1, 8 * d + 8, e - 1);
    }
  }

  lemma {:induction false} Div8Monotone(v: nat, w: nat, e: nat)
    requires v <= w
    ensures Div8(v, e) <= Div8(w, e)
  {
    if e > 0 {
      Div8Monotone(v, w, e - 1);
    }
  }

  /** The number of shifts: the fewest that fit the mantissa, but no more than seven. */
  ghost predicate Shifts(v: nat, e: nat) {
    && e <= EXPONENT_MAX
    && (e > 0 ==> Div8(v, e - 1) > MANTISSA_MAX)
    && (e < EXPONENT_MAX ==> Div8(v, e) <= MANTISSA_MAX)
  }

  /** The exponent found by trying one shift after another. */
  function ExponentFrom(v: nat, e: nat): (f: nat)
    requires e <= EXPONENT_MAX && (e > 0 ==> Div8(v, e - 1) > MANTISSA_MAX)
    ensures Shifts(v, f)
    decreases EXPONENT_MAX - e
  {
    if e == EXPONENT_MAX || Div8(v, e) <= MANTISSA_MAX then e else ExponentFrom(v, e + 1)
  }

  function Exponent(v: nat): (f: nat)
    ensures Shifts(v, f)
  {
    ExponentFrom(v, 0)
  }

  /** The mantissa after rounding on the last digit shifted out. */
  function Rounded(v: nat, e: nat): nat {
    Div8(v, e) + (if e > 0 && Div8(v, e - 1) % 8 > 3 then 1 else 0)
  }

  /** The code for `e` shifts; a mantissa that overflows moves to the next exponent or saturates. */
  function Code(m: nat, e: nat): nat {
    if m <= MANTISSA_MAX then 0x2000 * e + m
    else if e < EXPONENT_MAX then 0x2000 * (e + 1) + m / 8
    else CODE_MAX
  }

  /** The code of a value. */
  function Encoded(v: nat): nat {
    Code(Rounded(v, Exponent(v)), Exponent(v))
  }

  method EncodeCompT(v: nat) returns (code: nat)
    ensures code == Encoded(v)
  {
    var value, exponent: nat, round := v, 0, 0;
    while value > MANTISSA_MAX && exponent < EXPONENT_MAX
      invariant exponent <= EXPONENT_MAX && value == Div8(v, exponent)
      invariant round == if exponent == 0 then 0 else Div8(v, exponent - 1) % 8
      invariant exponent > 0 ==> Div8(v, exponent - 1) > MANTISSA_MAX
    {
      round := value % 8;
      value := value / 8;
      exponent := exponent + 1;
    }
    ShiftsUnique(v, exponent, Exponent(v));
    if round > 3 {
      value := value + 1;
      if value > MANTISSA_MAX && exponent < EXPONENT_MAX {
        value := value / 8;
        exponent := exponent + 1;
      }
    }
    code := 0x2000 * exponent + (if value <= MANTISSA_MAX then value else MANTISSA_MAX);
  }

  lemma {:induction false} ShiftsUnique(v: nat, e: nat, f: nat)
    requires Shifts(v, e) && Shifts(v, f)
    ensures e == f
  {
    if e < f {
      Div8Falls(v, e, f - 1);
    } else if f < e {
      Div8Falls(v, f, e - 1);
    }
  }

  lemma {:induction false} Div8Falls(v: nat, e: nat, f: nat)
    requires e <= f
    ensures Div8(v, f) <= Div8(v, e)
  {
    if e < f {
      Div8Falls(v, e, f - 1);
    }
  }

  // ---------------------------------------------------------------------------
  // Accuracy and order
  // ---------------------------------------------------------------------------

  /** Rounding is to the nearest multiple of the unit, up from the middle. */
  lemma {:induction false} RoundedBounds(v: nat, e: nat)
    ensures 2 * v < 2 * Mul8(Rounded(v, e), e) + Mul8(1, e)
    ensures 2 * Mul8(Rounded(v, e), e) <= 2 * v + Mul8(1, e)
  {
    if e > 0 {
      var q, m := Div8(v, e - 1), Rounded(v, e);
      Div8Bounds(v, e - 1);
      Mul8Eight(m, e);
      Mul8Eight(1, e);
      Mul8Sum(4, 4, e - 1);
      if q >= 8 * m {
        Mul8Monotone(q + 1, 8 * m + 4, e - 1);
        Mul8Sum(8 * m, 4, e - 1);
        Mul8Monotone(8 * m, q, e - 1);
      } else {
        Mul8Monotone(8 * m, q + 4, e - 1);
        Mul8Sum(q, 4, e - 1);
        Mul8Monotone(q + 1, 8 * m, e - 1);
      }
    }
  }

  lemma {:induction false} DecodeCode(m: nat, e: nat)
    requires e <= EXPONENT_MAX && m <= MANTISSA_MAX + 1 && (e == EXPONENT_MAX ==> m <= MANTISSA_MAX)
    ensures Decode(Code(m, e)) == Mul8(m, e)
  {
    if m > MANTISSA_MAX {
      assert Code(m, e) == 0x2000 * (e + 1) + 0x400;
      assert Code(m, e) % 0x2000 == 0x400 && Code(m, e) / 0x2000 == e + 1;
      Mul8Eight(0x400, e + 1);
    } else {
      assert Code(m, e) % 0x2000 == m && Code(m, e) / 0x2000 == e;
    }
  }

  /** The first value that no longer fits: half a unit above the largest code. */
  const SATURATION: nat := 0x1fff * 0x20_0000 + 0x10_0000

  lemma {:induction false} Saturates(v: nat, e: nat)
    requires Shifts(v, e)
    ensures (e == EXPONENT_MAX && Rounded(v, e) > MANTISSA_MAX) <==> v >= SATURATION
  {
    SaturationDigits(v);
    if e < EXPONENT_MAX {
      Div8Bounds(v, e);
      Mul8Monotone(Div8(v, e) + 1, 0x2000, e);
      Mul8Grows(0x2000, e, 6);
    }
  }

  lemma {:induction false} Mul8Grows(x: nat, e: nat, f: nat)
    requires e <= f
    ensures Mul8(x, e) <= Mul8(x, f)
  {
    if e < f {
      Mul8Grows(x, e, f - 1);
    }
  }

  lemma {:induction false} SaturationDigits(v: nat)
    ensures Rounded(v, 7) > MANTISSA_MAX <==> v >= SATURATION
  {
    assert Div8(v, 6) == v / 0x4_0000 by {
      assert Div8(v, 1) == v / 8;
      assert Div8(v, 2) == v / 0x40;
      assert Div8(v, 3) == v / 0x200;
      assert Div8(v, 4) == v / 0x1000;
      assert Div8(v, 5) == v / 0x8000;
    }
    assert Div8(v, 7) == v / 0x4_0000 / 8;
  }

  /** Below saturation, what is recorded is within half a unit of the value. */
  lemma {:induction false} Accurate(v: nat)
    requires v < SATURATION
    ensures var d, unit := Decode(Encoded(v)), Mul8(1, Exponent(v));
      2 * v < 2 * d + unit && 2 * d <= 2 * v + unit
  {
    var e := Exponent(v);
    Saturates(v, e);
    RoundedBounds(v, e);
    DecodeCode(Rounded(v, e), e);
  }

  function Distance(x: nat, y: nat): nat {
    if x <= y then y - x else x - y
  }

  /** `d` is at least as near to `v` as `o` is, and the larger one if both are as near. */
  predicate NoFurther(d: nat, o: nat, v: nat) {
    Distance(d, v) <= Distance(o, v) && (Distance(d, v) == Distance(o, v) ==> o <= d)
  }

  lemma {:induction false} Mul8Twice(x: nat, e: nat, f: nat)
    ensures Mul8(Mul8(x, e), f) == Mul8(x, e + f)
  {
    if f > 0 {
      Mul8Twice(x, e, f - 1);
    }
  }

  /** No multiple of the unit is nearer than the rounded one. */
  lemma {:induction false} NearestMultiple(v: nat, e: nat, k: nat)
    ensures NoFurther(Mul8(Rounded(v, e), e), Mul8(k, e), v)
  {
    var m := Rounded(v, e);
    RoundedBounds(v, e);
    if k < m {
      Mul8Sum(m - 1, 1, e);
      Mul8Monotone(k, m - 1, e);
    } else if k > m {
      Mul8Sum(m, 1, e);
      Mul8Monotone(m + 1, k, e);
    }
  }

  /** A code with fewer shifts stands for less than the smallest full mantissa with these. */
  lemma {:induction false} FewerShifts(v: nat, e: nat, m: nat, f: nat)
    requires Shifts(v, e) && f < e && m <= MANTISSA_MAX
    ensures Mul8(m, f) < Mul8(0x400, e) <= v
  {
    var full := MANTISSA_MAX + 1;
    BelowFull(m, f, e - 1, full);
    Mul8Eight(0x400, e);
    Div8Bounds(v, e - 1);
    Mul8Monotone(full, Div8(v, e - 1), e - 1);
  }

  lemma {:induction false} BelowFull(m: nat, f: nat, e: nat, full: nat)
    requires f <= e && m < full
    ensures Mul8(m, f) < Mul8(full, e)
  {
    Mul8Grows(m, f, e);
    Mul8Sum(m, 1, e);
    Mul8Positive(e);
    Mul8Monotone(m + 1, full, e);
  }

  lemma {:induction false} Mul8Positive(e: nat)
    ensures Mul8(1, e) >= 1
  {
    if e > 0 {
      Mul8Positive(e - 1);
    }
  }

  lemma {:induction false} LargestCode(m: nat, f: nat)
    requires m <= MANTISSA_MAX && f <= EXPONENT_MAX
    ensures Mul8(m, f) <= Decode(CODE_MAX) < SATURATION
  {
    Mul8Grows(m, f, 7);
    Mul8Monotone(m, 0x1fff, 7);
    assert Mul8(0x1fff, 7) == 0x1fff * 0x20_0000;
  }

  /** No code stands for a nearer value, and of two as near the larger is recorded, saturated values included. */
  lemma {:induction false} Nearest(v: nat, code: nat)
    requires code <= CODE_MAX
    ensures NoFurther(Decode(Encoded(v)), Decode(code), v)
  {
    var m, f := code % 0x2000, code / 0x2000;
    if v >= SATURATION {
      LargestCode(m, f);
      Saturated(v);
    } else {
      var e := Exponent(v);
      Saturates(v, e);
      RoundedSmall(v, e);
      DecodeCode(Rounded(v, e), e);
      NearestBelow(v, e, m, f);
    }
  }

  lemma {:induction false} NearestBelow(v: nat, e: nat, m: nat, f: nat)
    requires Shifts(v, e) && m <= MANTISSA_MAX && f <= EXPONENT_MAX
    ensures NoFurther(Mul8(Rounded(v, e), e), Mul8(m, f), v)
  {
    if f >= e {
      Mul8Twice(m, f - e, e);
      NearestMultiple(v, e, Mul8(m, f - e));
    } else {
      FewerShifts(v, e, m, f);
      NearestMultiple(v, e, 0x400);
    }
  }

  lemma {:induction false} RoundedSmall(v: nat, e: nat)
    requires Shifts(v, e) && v < SATURATION
    ensures Rounded(v, e) <= MANTISSA_MAX + 1
  {
    Saturates(v, e);
  }

  /** The unit is no larger than the one the code itself names. */
  lemma {:induction false} UnitOfCode(v: nat)
    ensures Exponent(v) <= Encoded(v) / 0x2000 <= EXPONENT_MAX
  {
    var e := Exponent(v);
    var m := Rounded(v, e);
    if m <= MANTISSA_MAX {
      assert Encoded(v) / 0x2000 == e;
    } else if e < EXPONENT_MAX {
      assert m / 8 == 0x400;
      assert Encoded(v) / 0x2000 == e + 1;
    }
  }

  /** From saturation on, the largest code is recorded. */
  lemma {:induction false} Saturated(v: nat)
    requires v >= SATURATION
    ensures Encoded(v) == CODE_MAX
  {
    Saturates(v, Exponent(v));
  }

  lemma {:induction false} ShiftsMonotone(v: nat, e: nat, w: nat, f: nat)
    requires v <= w && Shifts(v, e) && Shifts(w, f)
    ensures e <= f
  {
    if f < e {
      Div8Monotone(v, w, f);
      Div8Falls(v, f, e - 1);
    }
  }

  /** A shifted mantissa keeps its leading digit. */
  lemma {:induction false} MantissaLarge(w: nat, f: nat)
    requires Shifts(w, f) && f > 0
    ensures 0x400 <= Div8(w, f) <= Rounded(w, f)
  {
  }

  lemma {:induction false} RoundedMonotone(v: nat, w: nat, e: nat)
    requires v <= w
    ensures Rounded(v, e) <= Rounded(w, e)
  {
    Div8Monotone(v, w, e);
    if e > 0 {
      Div8Monotone(v, w, e - 1);
    }
  }

  /** Larger values never get smaller codes. */
  lemma {:induction false} CodeMonotone(v: nat, w: nat)
    requires v <= w
    ensures Encoded(v) <= Encoded(w) <= CODE_MAX
  {
    var e, f := Exponent(v), Exponent(w);
    ShiftsMonotone(v, e, w, f);
    if e == f {
      RoundedMonotone(v, w, e);
    } else {
      MantissaLarge(w, f);
    }
  }
}
