/** One decimal digit at a time: what holds between the divisions of Steele and White's algorithm. */
module DragonDigits {
  import opened Common
  import opened Digits
  import opened DigitArithmetic
  import opened Bigints
  import opened Rounding

  /** Either the comparison inside the division cannot be misled by trailing zeros, or nothing was divided yet. */
  ghost predicate Comparable(n: Bigint, d: Bigint, e: int, x: int, dec: nat)
    requires |d.bigits| > 0
    reads n, d
  {
    || n.exp <= d.exp
    || d.bigits[0] != 0
    || (e >= 0 && x >= 0 && dec == 0 && n.exp == e / 32 && d.exp == x / 32)
  }

  /** Between digits: with i digits worth `dec` written, v0 * 10^i = dec * 10w + n, where n is still to be printed. */
  ghost predicate DigitState(n: Bigint, d: Bigint, f: nat, e: int, x: int, v0: nat, i: nat, dec: nat)
    reads n, d
  {
    && n != d && f > 0 && |n.bigits| > 0 && d.Normal()
    && (n.Normal() || n.NumBigits() <= d.NumBigits())
    && Represents(v0, d.Value(), f, e, x)
    && Pow(10, i) * v0 == dec * (10 * d.Value()) + n.Value()
    && n.Value() < 10 * d.Value()
    && Comparable(n, d, e, x, dec)
  }

  lemma {:induction false} PowerOfFiveOdd(x: nat)
    ensures Pow(5, x) % 2 == 1
  {
    if x > 0 {
      PowerOfFiveOdd(x - 1);
    }
  }

  /** When f * 2^e is exactly 10^k, the exponent e is at most k. */
  lemma {:induction false} ExactPowerOfTen(f: nat, e: int, k: int)
    requires f > 0 && e >= 0 && Num(f, e, k) == Den(e, k)
    ensures 0 <= e <= k
  {
    MulPositive(f, Pow(2, e));
    if k < 0 {
      assert Pow(10, -k) >= 10;
      MulLe(1, Product(f, Pow(2, e)), Pow(10, -k));
      assert false;
    } else if e > k {
      PowProduct(2, 5, k);
      PowAdd(2, k, e - k);
      EvenQuotient(f, Pow(2, k), Pow(2, e - k), Pow(5, k), Pow(2, e - k - 1));
      PowerOfFiveOdd(k);
      assert false;
    }
  }

  lemma {:induction false} EvenQuotient(f: nat, p: nat, t: nat, five: nat, half: nat)
    requires p > 0 && t == 2 * half && f * (p * t) == p * five
    ensures five % 2 == 0
  {
    Associate(f, p, t);
    assert p * (f * t) == p * five;
    CancelEqual(f * t, five, p);
    Associate(f, 2, half);
  }

  /** The comparison inside the division is never misled here: equal values never differ in length that way. */
  lemma {:induction false} NeverMistaken(n: Bigint, d: Bigint, f: nat, e: int, x: int, v0: nat, i: nat, dec: nat)
    requires DigitState(n, d, f, e, x, v0, i, dec)
    ensures !n.MistakenForLess(d)
  {
    if n.MistakenForLess(d) {
      if !n.Normal() {
        NormalIfLarge(n.bigits, n.exp, d.bigits, d.exp);
      }
      if n.exp <= d.exp || d.bigits[0] != 0 {
        n.NotMistaken(d);
      } else {
        ExponentOrder(n.bigits, n.exp, d.bigits, d.exp);
        SmallerUnits(v0, d.Value(), f, e, x, i);
        EqualFraction(d.Value(), Den(e, x - i), Num(f, e, x - i));
        ExactPowerOfTen(f, e, x - i);
      }
    }
  }

  lemma {:induction false} EqualFraction(w: nat, d: nat, n: nat)
    requires w > 0 && w * d == w * n
    ensures d == n
  {
    CancelEqual(d, n, w);
  }

  lemma {:induction false} OneMoreDigit(pv: int, dec: int, w: int, v: int, q: int, r: int)
    requires pv == dec * (10 * w) + v && v == q * w + r
    ensures pv == (10 * dec + q) * w + r
    ensures 10 * pv == (10 * dec + q) * (10 * w) + 10 * r
  {
    Associate(dec, 10, w);
    DistributesRight(10 * dec, q, w);
    Associate(10 * dec + q, 10, w);
  }

  lemma {:induction false} DigitAtMostNine(v: int, q: int, w: int, r: int)
    requires v == q * w + r && 0 <= r < w && v < 10 * w
    ensures q <= 9
  {
    if q >= 10 {
      MulLe(10, q, w);
    }
  }

  /** One quotient digit; what is left in the numerator is the remainder. */
  method NextDigit(n: Bigint, d: Bigint, ghost f: nat, ghost e: int, ghost x: int,
                   ghost v0: nat, ghost i: nat, ghost dec: nat) returns (digit: nat)
    requires DigitState(n, d, f, e, x, v0, i, dec)
    modifies n
    ensures digit <= 9 && |n.bigits| > 0
    ensures n.Normal() || n.NumBigits() <= d.NumBigits()
    ensures Pow(10, i) * v0 == (10 * dec + digit) * d.Value() + n.Value() && n.Value() < d.Value()
    ensures 10 * (Pow(10, i) * v0) == (10 * dec + digit) * (10 * d.Value()) + 10 * n.Value()
    ensures Comparable(n, d, e, x, 10 * dec + digit)
    ensures (n.exp == old(n.exp) || n.exp == d.exp < old(n.exp)) && (digit > 0 ==> n.exp <= d.exp)
    ensures old(n.Tidy()) ==> n.Tidy()
  {
    NeverMistaken(n, d, f, e, x, v0, i, dec);
    ghost var before := n.Value();
    digit := n.DivmodAssign(d);
    DigitAtMostNine(before, digit, d.Value(), n.Value());
    OneMoreDigit(Pow(10, i) * v0, dec, d.Value(), before, digit, n.Value());
  }

  /** Moves on to the next decimal place. */
  method TimesTen(n: Bigint, d: Bigint, ghost f: nat, ghost e: int, ghost x: int,
                  ghost v0: nat, ghost i: nat, ghost dec: nat)
    requires n != d && f > 0 && |n.bigits| > 0 && d.Normal() && Represents(v0, d.Value(), f, e, x)
    requires n.Normal() || n.NumBigits() <= d.NumBigits()
    requires n.Value() < d.Value() && Comparable(n, d, e, x, dec)
    requires 10 * (Pow(10, i) * v0) == dec * (10 * d.Value()) + 10 * n.Value()
    modifies n
    ensures DigitState(n, d, f, e, x, v0, i + 1, dec)
    ensures n.Value() == 10 * old(n.Value()) && n.exp == old(n.exp) && (old(n.Tidy()) ==> n.Tidy())
  {
    n.Multiply32(10);
    if n.Normal() {
      n.PositiveValue();
    }
    Associate(10, Pow(10, i), v0);
  }
}
