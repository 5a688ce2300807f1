/** The big integers that Steele and White's algorithm starts from. */
module DragonSetUp {
  import opened Common
  import opened Digits
  import opened DigitArithmetic
  import opened Bigints
  import opened DragonDigits
  import opened Rounding

  lemma {:induction false} WholeValue(f: nat, e: int, x: int, s: nat)
    requires e >= 0 && x >= 0 && s > 0
    ensures Represents((f * s) * Pow(2, e), Pow(10, x) * s, f, e, x)
  {
    MulPositive(Pow(10, x), s);
    FourFactors(f, s, Pow(2, e), Pow(10, x));
  }

  lemma {:induction false} SmallValue(f: nat, e: int, x: int, s: nat, shift: nat)
    requires e < 0 && x < 0 && s == Pow(2, shift)
    ensures Represents(Pow(10, -x) * (f * s), Pow(2, shift - e), f, e, x)
  {
    PowAdd(2, shift, -e);
    FourFactors(Pow(10, -x), s, f, Pow(2, -e));
    Associate(Pow(10, -x), f, s);
    Associate(Pow(10, -x), s, f);
  }

  lemma {:induction false} MiddleValue(f: nat, e: int, x: int, s: nat, shift: nat)
    requires e < 0 && x >= 0 && s == Pow(2, shift)
    ensures Represents(f * s, Pow(10, x) * Pow(2, shift - e), f, e, x)
  {
    PowAdd(2, shift, -e);
    MulPositive(Pow(10, x), Pow(2, shift - e));
    FourFactors(f, s, Pow(2, -e), Pow(10, x));
    Associate(f * s, Pow(2, -e), Pow(10, x));
    Associate(Pow(10, x), s, Pow(2, -e));
    Associate(Pow(10, x) * s, Pow(2, -e), f);
  }

  lemma {:induction false} FourFactors(f: int, s: int, t: int, u: int)
    ensures ((f * s) * t) * u == (u * s) * (f * t)
  {
  }

  /** lower is the numerator without significand and shift, and upper half a unit of the significand. */
  ghost predicate Margins(numerator: Bigint, lower: Bigint, upper: Bigint, f: nat, shift: nat)
    requires shift >= 1
    reads numerator, lower, upper
  {
    && lower.Normal() && upper.Normal() && numerator.exp == lower.exp
    && numerator.Value() == Product(f, Pow(2, shift)) * lower.Value()
    && upper.Value() == Pow(2, shift - 1) * lower.Value()
  }

  /** Both margins for a whole number: one unit before the shift, and half of it after. */
  method WholeMargins(e: nat, shift: nat) returns (lower: Bigint, upper: Bigint)
    requires 1 <= shift <= 2
    ensures fresh(lower) && fresh(upper) && lower.Normal() && upper.Normal()
    ensures lower.exp == e / 32 && lower.Value() == Pow(2, e)
    ensures upper.Value() == Pow(2, shift - 1) * Pow(2, e)
  {
    lower := new Bigint();
    lower.Assign(1);
    lower.ShiftLeft(e);
    upper := lower;
    if shift != 1 {
      upper := new Bigint();
      upper.Assign(1);
      upper.ShiftLeft(e + 1);
    }
    HalfUnit(shift, Pow(2, e));
  }

  /** The big integers for a whole number. */
  method SetUpWhole(f: nat, e: int, shift: nat, exp10: int)
    returns (numerator: Bigint, denominator: Bigint, lower: Bigint, upper: Bigint)
    requires 1 <= shift <= 2 && f > 0 && f * Pow(2, shift) < WORD64 && e >= 0 && 0 <= exp10 < 0x4000_0000
    ensures fresh(numerator) && fresh(denominator) && fresh(lower) && fresh(upper)
    ensures numerator != denominator && lower !in {numerator, denominator} && upper !in {numerator, denominator}
    ensures numerator.Normal() && denominator.Normal() && Margins(numerator, lower, upper, f, shift)
    ensures Represents(numerator.Value(), denominator.Value(), f, e, exp10)
    ensures numerator.exp == e / 32 && denominator.exp == exp10 / 32
  {
    var significand := f * TwoTo(shift);
    MulPositive(f, TwoTo(shift));
    numerator := new Bigint();
    numerator.Assign(significand);
    numerator.ShiftLeft(e);
    lower, upper := WholeMargins(e, shift);
    denominator := new Bigint();
    denominator.AssignPow10(exp10);
    denominator.ShiftLeft(shift);
    WholeValue(f, e, exp10, Pow(2, shift));
  }

  /** The big integers for a value below one tenth of ten. */
  method SetUpSmall(f: nat, e: int, shift: nat, exp10: int)
    returns (numerator: Bigint, denominator: Bigint, lower: Bigint, upper: Bigint)
    requires 1 <= shift <= 2 && f > 0 && f * Pow(2, shift) < WORD64 && e < 0 && -0x4000_0000 < exp10 < 0
    ensures fresh(numerator) && fresh(denominator) && fresh(lower) && fresh(upper)
    ensures numerator != denominator && lower !in {numerator, denominator} && upper !in {numerator, denominator}
    ensures numerator.Normal() && denominator.Normal() && Margins(numerator, lower, upper, f, shift)
    ensures Represents(numerator.Value(), denominator.Value(), f, e, exp10)
    ensures numerator.exp == (-exp10) / 32 && denominator.bigits[0] != 0 && denominator.exp == (shift - e) / 32
  {
    var significand := f * TwoTo(shift);
    MulPositive(f, TwoTo(shift));
    numerator := new Bigint();
    numerator.AssignPow10(-exp10);
    lower, upper := CopyMargins(numerator, shift);
    numerator.Multiply64(significand);
    denominator := new Bigint();
    denominator.Assign(1);
    denominator.ShiftLeft(shift - e);
    SmallValue(f, e, exp10, TwoTo(shift), shift);
    Swapped(Pow(10, -exp10), significand);
  }

  /** Both margins from the power of ten that the significand is about to be multiplied with. */
  method CopyMargins(power: Bigint, shift: nat) returns (lower: Bigint, upper: Bigint)
    requires power.Normal() && 1 <= shift <= 2
    ensures fresh(lower) && fresh(upper) && lower.Normal() && upper.Normal()
    ensures lower.exp == power.exp && lower.Value() == power.Value()
    ensures upper.Value() == Pow(2, shift - 1) * power.Value()
  {
    lower := new Bigint();
    lower.AssignFrom(power);
    upper := lower;
    if shift != 1 {
      upper := new Bigint();
      upper.AssignFrom(power);
      upper.ShiftLeft(1);
    }
    HalfUnit(shift, power.Value());
  }

  lemma {:induction false} Swapped(a: int, b: int)
    ensures a * b == b * a
  {
  }

  /** Half a unit is one or two of the parts it was divided into. */
  lemma {:induction false} HalfUnit(shift: nat, part: int)
    requires 1 <= shift <= 2
    ensures Pow(2, shift - 1) * part == if shift == 1 then part else part * Pow(2, 1)
  {
    assert Pow(2, 0) == 1 && Pow(2, 1) == 2;
  }

  /** Both margins for a numerator that is the shifted significand itself. */
  method SmallMargins(shift: nat) returns (lower: Bigint, upper: Bigint)
    requires 1 <= shift <= 2
    ensures fresh(lower) && fresh(upper) && lower.Normal() && upper.Normal()
    ensures lower.exp == 0 && lower.Value() == 1 && upper.Value() == Pow(2, shift - 1)
  {
    lower := new Bigint();
    lower.Assign(1);
    upper := lower;
    if shift != 1 {
      upper := new Bigint();
      upper.Assign(2);
    }
    HalfUnit(shift, 1);
  }

  /** The big integers otherwise. */
  method SetUpMiddle(f: nat, e: int, shift: nat, exp10: int)
    returns (numerator: Bigint, denominator: Bigint, lower: Bigint, upper: Bigint)
    requires 1 <= shift <= 2 && f > 0 && f * Pow(2, shift) < WORD64 && e < 0 && 0 <= exp10 < 0x4000_0000
    ensures fresh(numerator) && fresh(denominator) && fresh(lower) && fresh(upper)
    ensures numerator != denominator && lower !in {numerator, denominator} && upper !in {numerator, denominator}
    ensures numerator.Normal() && denominator.Normal() && Margins(numerator, lower, upper, f, shift)
    ensures Represents(numerator.Value(), denominator.Value(), f, e, exp10)
    ensures numerator.exp == 0
  {
    var significand := f * TwoTo(shift);
    MulPositive(f, TwoTo(shift));
    numerator := new Bigint();
    numerator.Assign(significand);
    denominator := new Bigint();
    denominator.AssignPow10(exp10);
    denominator.ShiftLeft(shift - e);
    lower, upper := SmallMargins(shift);
    MiddleValue(f, e, exp10, TwoTo(shift), shift);
  }

  /** The big integers of the conversion: their first two have the ratio value / 10^exp10. */
  method SetUp(f: nat, e: int, shift: nat, exp10: int)
    returns (numerator: Bigint, denominator: Bigint, lower: Bigint, upper: Bigint)
    requires 1 <= shift <= 2 && f > 0 && f * Pow(2, shift) < WORD64
    requires -0x4000_0000 < exp10 < 0x4000_0000 && (e >= 0 ==> exp10 >= 0)
    ensures fresh(numerator) && fresh(denominator) && fresh(lower) && fresh(upper)
    ensures numerator != denominator && lower !in {numerator, denominator} && upper !in {numerator, denominator}
    ensures numerator.Normal() && denominator.Normal() && Margins(numerator, lower, upper, f, shift)
    ensures Represents(numerator.Value(), denominator.Value(), f, e, exp10)
    ensures Comparable(numerator, denominator, e, exp10, 0)
    ensures Exponents(numerator, denominator, lower, shift, e, exp10)
  {
    if e >= 0 {
      numerator, denominator, lower, upper := SetUpWhole(f, e, shift, exp10);
    } else if exp10 < 0 {
      numerator, denominator, lower, upper := SetUpSmall(f, e, shift, exp10);
    } else {
      numerator, denominator, lower, upper := SetUpMiddle(f, e, shift, exp10);
    }
  }

  /** The exponents of the big integers before the first division. */
  ghost predicate Exponents(numerator: Bigint, denominator: Bigint, lower: Bigint, shift: nat, e: int, exp10: int)
    reads numerator, denominator, lower
  {
    && numerator.exp == lower.exp
    && (e >= 0 ==> numerator.exp == e / 32 && denominator.exp == exp10 / 32)
    && (e < 0 && exp10 < 0 ==> numerator.exp == (-exp10) / 32 && denominator.exp == (shift - e) / 32)
    && (e < 0 && exp10 >= 0 ==> numerator.exp == 0)
  }
}
