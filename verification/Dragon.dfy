/** Printing f * 2^e in decimal with big integers (Steele and White's algorithm). */
module Dragon {
  import opened Bigints
  import opened Boundaries
  import opened Common
  import opened Digits
  import opened DigitArithmetic
  import opened DigitCompare
  import opened DragonDigits
  import opened DragonSetUp
  import opened DragonShortest
  import opened Rounding

  /** Carries an overflowed last digit towards the front; only the first digit may stay overflowed. */
  method PropagateCarry(digits: seq<char>) returns (buf: seq<char>)
    requires |digits| > 0 && AllDigits(digits[..|digits| - 1]) && digits[|digits| - 1] == ':'
    ensures |buf| == |digits| && DecVal(buf) == DecVal(digits)
    ensures AllDigits(buf[1..]) && '0' <= buf[0] <= ':'
    ensures buf[0] == ':' ==> forall j :: 0 < j < |buf| ==> buf[j] == '0'
  {
    buf := digits;
    var i := |buf| - 1;
    while i > 0 && buf[i] == ':'
      invariant 0 <= i < |buf| == |digits| && DecVal(buf) == DecVal(digits)
      invariant forall j :: 0 <= j < i ==> '0' <= buf[j] <= '9'
      invariant '0' <= buf[i] <= ':'
      invariant forall j :: i < j < |buf| ==> buf[j] == '0'
    {
      CarryKeepsValue(buf, i);
      buf := buf[i := '0'];
      buf := buf[i - 1 := DigitChar(DigitValue(buf[i - 1]) + 1)];
      i := i - 1;
    }
  }

  lemma {:induction false} PowersOrdered(m: nat, n: nat)
    requires m <= n
    ensures Pow(2, m) <= Pow(10, n)
  {
    if m > 0 {
      PowersOrdered(m - 1, n - 1);
    } else {
      assert Pow(2, 0) == 1;
    }
  }

  /** For a value below one, the power of two in the denominator is large enough to keep the margin's exponent. */
  lemma {:induction false} DenominatorIsLong(f: nat, e: int, x: int)
    requires f > 0 && e < 0 && x < 0 && Num(f, e, x + 1) < Den(e, x + 1)
    ensures -x <= -e
  {
    assert Pow(2, 0) == 1 && Pow(10, 0) == 1;
    MulLe(1, f, Pow(10, -x - 1));
    if -e < -x {
      PowersOrdered(-e, -x - 1);
    }
  }

  /** What the digit loop for the shortest digits starts from. */
  lemma {:induction false} Begins(n: Bigint, d: Bigint, lower: Bigint, upper: Bigint, f: nat, e: int, shift: nat,
                                  x: int)
    requires 1 <= shift && f > 0 && Num(f, e, x + 1) < Den(e, x + 1) && (e >= 0 ==> x >= 0)
    requires n != d && n.Normal() && d.Normal() && Margins(n, lower, upper, f, shift)
    requires Represents(n.Value(), d.Value(), f, e, x) && Comparable(n, d, e, x, 0)
    requires Exponents(n, d, lower, shift, e, x)
    ensures Between(n, d, lower, upper, f, e, shift, x, n.Value(), lower.Value(), upper.Value(), 0, 0)
  {
    BelowTen(n.Value(), d.Value(), f, e, x);
    lower.PositiveValue();
    upper.PositiveValue();
    if e < 0 && x < 0 {
      DenominatorIsLong(f, e, x);
    }
    assert Pow(10, 0) == 1;
  }

  /**
   * Writes digits of f * 2^e, which is below 10^(exp10 + 1), and returns the exponent of the last digit.
   * For numDigits of them: the digits times that power of ten are the value rounded half to even at the requested
   * position. For a negative number: they are the shortest that the reader of the digits takes for f * 2^e.
   */
  method FormatDragon(f: nat, e: int, isPredecessorCloser: bool, numDigits: int, exp10: int)
    returns (buf: seq<char>, newExp10: int)
    requires f > 0 && f * (if isPredecessorCloser then 4 else 2) < WORD64
    requires -0x4000_0000 < exp10 < 0x4000_0000
    requires Num(f, e, exp10 + 1) < Den(e, exp10 + 1)
    ensures numDigits >= 0 ==> |buf| == (if numDigits == 0 then 1 else numDigits) && AllDigits(buf)
    ensures numDigits >= 0 ==>
              var k := exp10 - (numDigits - 1);
              || (newExp10 == k && RoundsHalfEven(Num(f, e, k), Den(e, k), DecVal(buf)))
              || (newExp10 == k + 1 && RoundsHalfEven(Num(f, e, k), Den(e, k), 10 * DecVal(buf)) && buf[0] == '1'
                  && forall j :: 0 < j < |buf| ==> buf[j] == '0')
    ensures numDigits < 0 ==>
              var shortest := Shortest(f, e, if isPredecessorCloser then 2 else 1, exp10, newExp10, buf); shortest
  {
    WholeHasNonnegativeExponent(f, e, exp10);
    var shift := if isPredecessorCloser then 2 else 1;
    var numerator, denominator, lower, upper := SetUp(f, e, shift, exp10);
    if numDigits < 0 {
      Begins(numerator, denominator, lower, upper, f, e, shift, exp10);
      buf := ShortestDigits(numerator, denominator, lower, upper, f % 2 == 0, f, e, shift, exp10,
                            numerator.Value(), lower.Value(), upper.Value());
      newExp10 := exp10 - (|buf| - 1);
      return;
    }
    BelowTen(numerator.Value(), denominator.Value(), f, e, exp10);
    newExp10 := exp10 - (numDigits - 1);
    if numDigits == 0 {
      buf := NearerToOne(numerator, denominator, f, e, exp10);
      return;
    }
    var carried;
    buf, carried := GivenDigits(numerator, denominator, numDigits, f, e, exp10, numerator.Value());
    if carried {
      newExp10 := newExp10 + 1;
    }
  }

  /** The lower boundary of 14648438 * 2^32 has seven digits, but the loop takes more: it does not see that one. */
  method LongerThanNeeded() returns (buf: seq<char>, newExp10: int)
    ensures Within(14648438, 32, 1, 10, 6291456)
    ensures newExp10 < 10 && Shortest(14648438, 32, 1, 16, newExp10, buf)
  {
    SevenDigitsDo();
    buf, newExp10 := FormatDragon(14648438, 32, false, -1, 16);
    if newExp10 >= 10 {
      SevenDigitsRefused(newExp10, DecVal(buf));
    }
  }

  lemma {:induction false} Powers()
    ensures Pow(2, 0) == 1 && Pow(2, 1) == 2 && Pow(2, 31) == 0x8000_0000 && Pow(2, 32) == 0x1_0000_0000
    ensures Pow(10, 0) == 1 && Pow(10, 10) == 1_00000_00000 && Pow(10, 17) == 100_00000_00000_00000
  {
    assert Pow(2, 8) == 0x100 && Pow(2, 7) == 0x80 && Pow(10, 5) == 1_00000 && Pow(10, 7) == 100_00000;
    PowAdd(2, 8, 8);
    PowAdd(2, 16, 8);
    PowAdd(2, 24, 7);
    PowAdd(2, 24, 8);
    PowAdd(10, 5, 5);
    PowAdd(10, 10, 7);
  }

  lemma {:induction false} SevenDigitsDo()
    ensures Within(14648438, 32, 1, 10, 6291456)
    ensures Num(14648438, 32, 17) < Den(32, 17)
  {
    Powers();
  }

  lemma {:induction false} SevenDigitsRefused(k: int, m: int)
    requires k >= 10
    ensures !Accepted(14648438, 32, 1, 16, k, m)
  {
    Powers();
    PowAdd(10, k - 10, 10);
    Associate(m, Pow(10, k - 10), Pow(10, 10));
    var t := m * Pow(10, k - 10);
    if t <= 6291456 {
      MulLe(t, 6291456, Pow(10, 10));
    } else {
      MulLe(6291457, t, Pow(10, 10));
    }
  }

  /**
   * The only digit is the overflowed ten exactly when ten lies in the interval and nine does not, or is not nearer:
   * the value then rounds to the next power of ten, above all that exp10 has room for.
   */
  lemma {:induction false} OverflowIff(f: nat, e: int, shift: nat, x: int, k: int, buf: seq<char>)
    requires Shortest(f, e, shift, x, k, buf)
    ensures buf == [':'] <==>
            Accepted(f, e, shift, x, x, 10) &&
            (Accepted(f, e, shift, x, x, 9) ==> Distance(f, e, x, 10) <= Distance(f, e, x, 9))
  {
    if buf == [':'] {
      NearestTen(f, e, shift, x, DecVal(buf), buf);
    } else if Accepted(f, e, shift, x, x, 10) {
      FirstPlace(f, e, shift, x, k, buf, 10);
      OneDigit(buf);
      if Accepted(f, e, shift, x, x, 9) ==> Distance(f, e, x, 10) <= Distance(f, e, x, 9) {
        TenWouldBeChosen(f, e, shift, x, DecVal(buf));
        assert false;
      }
    }
  }

  lemma {:induction false} OneDigit(buf: seq<char>)
    requires |buf| == 1
    ensures DecVal(buf) == DigitValue(buf[0])
  {
    assert buf[..0] == [];
  }

  /** A number in the interval at the first place ends the loop there. */
  lemma {:induction false} FirstPlace(f: nat, e: int, shift: nat, x: int, k: int, buf: seq<char>, m: int)
    requires Shortest(f, e, shift, x, k, buf) && Accepted(f, e, shift, x, x, m)
    ensures k == x && |buf| == 1
  {
    assert NoneAbove(f, e, shift, x, k);
  }

  lemma {:induction false} NearestTen(f: nat, e: int, shift: nat, x: int, c: int, buf: seq<char>)
    requires buf == [':'] && c == DecVal(buf) && f > 0 && Closest(f, e, shift, x, x, c)
    ensures c == 10 && (Accepted(f, e, shift, x, x, 9) ==> Distance(f, e, x, 10) <= Distance(f, e, x, 9))
  {
    OneDigit(buf);
  }

  lemma {:induction false} TenWouldBeChosen(f: nat, e: int, shift: nat, x: int, c: int)
    requires f > 0 && c <= 9 && Accepted(f, e, shift, x, x, c) && Accepted(f, e, shift, x, x, 10)
    requires Accepted(f, e, shift, x, x, 9) ==> Distance(f, e, x, 10) <= Distance(f, e, x, 9)
    ensures !Closest(f, e, shift, x, x, c)
  {
    if c < 9 {
      Convex(f, e, shift, x, c, 9, 10);
      if Distance(f, e, x, c) <= Distance(f, e, x, 9) {
        FarFromEight(c, Num(f, e, x), Den(e, x));
      }
    }
  }

  lemma {:induction false} Convex(f: nat, e: int, shift: nat, x: int, a: int, b: int, c: int)
    requires f > 0 && a < b < c && Accepted(f, e, shift, x, x, a) && Accepted(f, e, shift, x, x, c)
    ensures Accepted(f, e, shift, x, x, b)
  {
    MulLe(a + 1, b, Den(e - shift, x));
    DistributesRight(a, 1, Den(e - shift, x));
    MulLe(b + 1, c, Den(e - 1, x));
    DistributesRight(b, 1, Den(e - 1, x));
  }

  /** A value nearer to eight or less than to nine is nearer to nine than to ten. */
  lemma {:induction false} FarFromEight(c: int, num: int, den: int)
    requires den > 0 && c <= 8 && Abs(c * den - num) <= Abs(9 * den - num)
    ensures Abs(9 * den - num) < Abs(10 * den - num)
  {
    MulLe(c, 8, den);
  }

  /** With its first digit placed at 10^1, 96 = 3 * 2^5 is printed as ten times that. */
  method OverflowedTen() returns (buf: seq<char>, newExp10: int)
    ensures buf == [':'] && newExp10 == 1
  {
    Powers();
    assert Pow(2, 5) == 32 && Pow(2, 4) == 16 && Pow(10, 1) == 10 && Pow(10, 2) == 100;
    buf, newExp10 := FormatDragon(3, 5, false, -1, 1);
    OverflowIff(3, 5, 1, 1, newExp10, buf);
  }

  /** All digits; whether a carry has turned them into a one and zeros, a place higher. */
  method GivenDigits(n: Bigint, d: Bigint, numDigits: nat, ghost f: nat, ghost e: int, ghost x: int, ghost v0: nat)
    returns (buf: seq<char>, carried: bool)
    requires numDigits > 0 && DigitState(n, d, f, e, x, v0, 0, 0)
    modifies n
    ensures |buf| == numDigits && AllDigits(buf)
    ensures RoundsHalfEven(Num(f, e, x - (numDigits - 1)), Den(e, x - (numDigits - 1)),
                           if carried then 10 * DecVal(buf) else DecVal(buf))
    ensures carried ==> buf[0] == '1' && forall j :: 0 < j < |buf| ==> buf[j] == '0'
  {
    ghost var dec;
    buf, dec := LeadingDigits(n, d, numDigits, f, e, x, v0);
    var up: bool;
    ghost var rounded;
    buf, up, rounded := LastDigit(n, d, buf, f, e, x, v0, dec);
    carried := up && buf[0] == ':';
    if carried {
      OneMorePlace(buf);
      buf := buf[0 := '1'];
    }
  }

  /** Ten in the first place before zeros is a one a place higher. */
  lemma {:induction false} OneMorePlace(buf: seq<char>)
    requires |buf| > 0 && buf[0] == ':' && forall j :: 0 < j < |buf| ==> buf[j] == '0'
    ensures DecVal(buf) == 10 * DecVal(buf[0 := '1'])
  {
    LeadingDigit(buf);
    LeadingDigit(buf[0 := '1']);
  }

  /** With no digits wanted: whether the value is above half of the next power of ten. */
  method NearerToOne(n: Bigint, d: Bigint, ghost f: nat, ghost e: int, ghost x: int) returns (buf: seq<char>)
    requires n != d && n.Normal() && d.Normal()
    requires Represents(n.Value(), d.Value(), f, e, x) && n.Value() < 10 * d.Value()
    modifies d
    ensures buf == ['0'] || buf == ['1']
    ensures RoundsHalfEven(Num(f, e, x + 1), Den(e, x + 1), DecVal(buf))
  {
    ghost var v, w := n.Value(), d.Value();
    LargerUnit(v, w, f, e, x);
    RoundBelowOne(v, 10 * w);
    SameFraction(v, 10 * w, Num(f, e, x + 1), Den(e, x + 1), if 2 * v > 10 * w then 1 else 0);
    d.Multiply32(10);
    AddCompareTells(n, n, d);
    var c := AddCompare(n, n, d);
    buf := [if c > 0 then '1' else '0'];
    assert buf[..0] == [];
  }

  /** The loop over all digits but the last. */
  method LeadingDigits(n: Bigint, d: Bigint, numDigits: nat,
                       ghost f: nat, ghost e: int, ghost x: int, ghost v0: nat)
    returns (buf: seq<char>, ghost dec: nat)
    requires numDigits > 0 && DigitState(n, d, f, e, x, v0, 0, 0)
    modifies n
    ensures |buf| == numDigits && AllDigits(buf[..numDigits - 1]) && DecVal(buf[..numDigits - 1]) == dec
    ensures DigitState(n, d, f, e, x, v0, numDigits - 1, dec)
  {
    buf := seq(numDigits, _ => '0');
    dec := 0;
    var i := 0;
    while i < numDigits - 1
      invariant 0 <= i <= numDigits - 1 && |buf| == numDigits
      invariant DigitState(n, d, f, e, x, v0, i, dec)
      invariant AllDigits(buf[..i]) && DecVal(buf[..i]) == dec
    {
      var digit := NextDigit(n, d, f, e, x, v0, i, dec);
      AppendDigit(buf, i, digit);
      buf := buf[i := DigitChar(digit)];
      dec := 10 * dec + digit;
      TimesTen(n, d, f, e, x, v0, i, dec);
      i := i + 1;
    }
  }

  lemma {:induction false} AppendDigit(buf: seq<char>, i: nat, digit: nat)
    requires i < |buf| && digit <= 10
    ensures DecVal(buf[i := DigitChar(digit)][..i + 1]) == 10 * DecVal(buf[..i]) + digit
    ensures buf[i := DigitChar(digit)][..i] == buf[..i]
    ensures AllDigits(buf[..i]) && digit < 10 ==> AllDigits(buf[i := DigitChar(digit)][..i + 1])
  {
    assert buf[i := DigitChar(digit)][..i + 1][..i] == buf[..i];
  }

  /** The last digit: rounds half to even on the remainder, carrying into the digits before it. */
  method LastDigit(n: Bigint, d: Bigint, digits: seq<char>,
                   ghost f: nat, ghost e: int, ghost x: int, ghost v0: nat, ghost dec: nat)
    returns (buf: seq<char>, up: bool, ghost rounded: nat)
    requires |digits| > 0 && AllDigits(digits[..|digits| - 1]) && DecVal(digits[..|digits| - 1]) == dec
    requires DigitState(n, d, f, e, x, v0, |digits| - 1, dec)
    modifies n
    ensures |buf| == |digits| && DecVal(buf) == rounded
    ensures RoundsHalfEven(Num(f, e, x - (|digits| - 1)), Den(e, x - (|digits| - 1)), rounded)
    ensures AllDigits(buf[1..]) && '0' <= buf[0] <= ':'
    ensures buf[0] == ':' ==> up && forall j :: 0 < j < |buf| ==> buf[j] == '0'
  {
    var digit;
    digit, up := RoundedDigit(n, d, f, e, x, v0, |digits| - 1, dec);
    rounded := 10 * dec + digit;
    buf := PutLast(digits, digit, dec);
  }

  /** Puts the last digit in its place; ten is carried towards the front. */
  method PutLast(digits: seq<char>, digit: nat, ghost dec: nat) returns (buf: seq<char>)
    requires |digits| > 0 && AllDigits(digits[..|digits| - 1]) && DecVal(digits[..|digits| - 1]) == dec
    requires digit <= 10
    ensures |buf| == |digits| && DecVal(buf) == 10 * dec + digit
    ensures AllDigits(buf[1..]) && '0' <= buf[0] <= ':'
    ensures buf[0] == ':' ==> digit == 10 && forall j :: 0 < j < |buf| ==> buf[j] == '0'
  {
    AppendDigit(digits, |digits| - 1, digit);
    buf := digits[|digits| - 1 := DigitChar(digit)];
    assert buf[..|buf|] == buf;
    if digit == 10 {
      buf := PropagateCarry(buf);
    }
  }

  /** The last quotient digit, one more if the remainder is above half, or is half and the digit is odd. */
  method RoundedDigit(n: Bigint, d: Bigint, ghost f: nat, ghost e: int, ghost x: int,
                      ghost v0: nat, ghost i: nat, ghost dec: nat) returns (digit: nat, up: bool)
    requires DigitState(n, d, f, e, x, v0, i, dec)
    modifies n
    ensures digit <= 10 && (digit == 10 ==> up)
    ensures RoundsHalfEven(Num(f, e, x - i), Den(e, x - i), 10 * dec + digit)
  {
    digit := NextDigit(n, d, f, e, x, v0, i, dec);
    AddCompareTells(n, n, d);
    var result := AddCompare(n, n, d);
    up := result > 0 || (result == 0 && digit % 2 != 0);
    ghost var rounded := 10 * dec + digit + if up then 1 else 0;
    assert RoundsHalfEven(Pow(10, i) * v0, d.Value(), rounded) by {
      RoundLastDigit(dec, digit, d.Value(), n.Value());
    }
    SmallerUnits(v0, d.Value(), f, e, x, i);
    SameFraction(Pow(10, i) * v0, d.Value(), Num(f, e, x - i), Den(e, x - i), rounded);
    if up {
      digit := digit + 1;
    }
  }

  lemma {:induction false} WholeHasNonnegativeExponent(f: nat, e: int, x: int)
    requires f > 0 && Num(f, e, x + 1) < Den(e, x + 1)
    ensures e >= 0 ==> x >= 0
  {
    if e >= 0 && x < 0 {
      assert Den(e, x + 1) == 1;
      MulPositive(f, Pow(2, e));
      MulPositive(Product(f, Pow(2, e)), Pow(10, -x - 1));
    }
  }
}
