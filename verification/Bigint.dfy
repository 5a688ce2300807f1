/** The unsigned big integer of the vendored fmt library: 32-bit digits plus an exponent in whole digits. */
module Bigints {
  import opened Common
  import opened Digits
  import opened DigitArithmetic
  import opened DigitCompare

  /** The two-word sum used where the compiler has no 128-bit integer. */
  class Accumulator {
    var lower: nat
    var upper: nat

    predicate Valid()
      reads this
    {
      lower < WORD64 && upper < WORD64
    }

    ghost function Value(): nat
      reads this
    {
      lower + WORD64 * upper
    }

    constructor ()
      ensures Valid() && Value() == 0
    {
      lower, upper := 0, 0;
    }

    /** Adds one 64-bit product; exact as a 128-bit sum would be while the total fits 128 bits. */
    method Add(n: nat)
      requires Valid() && n < WORD64 && Value() + n < WORD64 * WORD64
      modifies this
      ensures Valid() && Value() == old(Value()) + n
    {
      lower := (lower + n) % WORD64;
      if lower < n {
        upper := upper + 1;
      }
    }

    function Digit(): (d: Bigit)
      requires Valid()
      reads this
      ensures d == Value() % BASE
    {
      lower % BASE
    }

    method ShiftRight32()
      requires Valid()
      modifies this
      ensures Valid() && Value() == old(Value()) / BASE
    {
      ShiftWords(lower, upper);
      lower := (upper * BASE) % WORD64 + lower / BASE;
      upper := upper / BASE;
    }

    /** Adds the products n[i] * n[j] with i + j == index, for a column in the lower half. */
    method AddLowColumn(n: seq<Bigit>, index: nat)
      requires Valid() && index < |n|
      requires Value() + Column(n, n, |n|, index) < WORD64 * WORD64
      modifies this
      ensures Valid() && Value() == old(Value()) + Column(n, n, |n|, index)
    {
      var i, j := 0, index;
      while j >= 0
        invariant i + j == index && 0 <= i <= index + 1
        invariant Valid() && Value() == old(Value()) + Column(n, n, i, index)
      {
        ColumnTerm(n, i, j);
        Add(Product(n[i], n[j]));
        i, j := i + 1, j - 1;
      }
      ColumnOutside(n, n, index + 1, |n|, index);
    }

    /** The same for a column in the upper half, whose first row is index - (|n| - 1). */
    method AddHighColumn(n: seq<Bigit>, index: nat)
      requires Valid() && |n| <= index < 2 * |n|
      requires Value() + Column(n, n, |n|, index) < WORD64 * WORD64
      modifies this
      ensures Valid() && Value() == old(Value()) + Column(n, n, |n|, index)
    {
      var j := |n| - 1;
      var i := index - j;
      ColumnOutside(n, n, 0, i, index);
      while i < |n|
        invariant i + j == index && 0 <= i <= |n| && -1 <= j < |n|
        invariant Valid() && Value() == old(Value()) + Column(n, n, i, index)
      {
        ColumnTerm(n, i, j);
        Add(Product(n[i], n[j]));
        i, j := i + 1, j - 1;
      }
    }
  }

  class Bigint {
    var bigits: seq<Bigit>
    var exp: nat

    /** The number this object stands for. */
    ghost function Value(): (v: nat)
      reads this
    {
      Worth(bigits, exp)
    }

    /** No leading zero digit. */
    predicate Normal()
      reads this
    {
      |bigits| > 0 && bigits[|bigits| - 1] != 0
    }

    /** Normal, or zero in one digit: what arithmetic on positive numbers leaves behind. */
    ghost predicate Tidy()
      reads this
    {
      Normal() || (|bigits| == 1 && Value() == 0)
    }

    function NumBigits(): nat
      reads this
    {
      |bigits| + exp
    }

    constructor ()
      ensures bigits == [] && exp == 0
    {
      bigits, exp := [], 0;
    }

    method Assign(n: nat)
      requires n < WORD64
      modifies this
      ensures |bigits| > 0 && exp == 0
      ensures Value() == n
      ensures n > 0 ==> Normal()
      ensures |bigits| == if n < BASE then 1 else 2
    {
      var rest := n;
      bigits := [];
      exp := 0;
      while true
        invariant exp == 0
        invariant Val(bigits) + rest * P(|bigits|) == n
        invariant (|bigits| == 0 && rest == n) || (|bigits| == 1 && rest == n / BASE > 0)
        decreases rest
      {
        SplitDigit(rest, P(|bigits|));
        ValAppend(bigits, rest % BASE);
        bigits := bigits + [rest % BASE];
        rest := rest / BASE;
        if rest == 0 {
          break;
        }
      }
    }

    method AssignFrom(other: Bigint)
      modifies this
      ensures bigits == other.bigits && exp == other.exp
    {
      bigits := other.bigits;
      exp := other.exp;
    }

    method RemoveLeadingZeros()
      requires |bigits| > 0
      modifies this`bigits
      ensures Val(bigits) == old(Val(bigits)) && Value() == old(Value())
      ensures 0 < |bigits| <= old(|bigits|)
      ensures |bigits| == 1 || Normal()
      ensures forall k :: 0 <= k < |bigits| ==> bigits[k] == old(bigits)[k]
    {
      var numBigits: nat := |bigits| - 1;
      while numBigits > 0 && bigits[numBigits] == 0
        invariant 0 <= numBigits < |bigits|
        invariant Low(bigits, numBigits + 1) == Val(bigits)
      {
        numBigits := numBigits - 1;
      }
      LowAgree(bigits[..numBigits + 1], bigits, numBigits + 1);
      WorthScales(bigits[..numBigits + 1], bigits, 1, exp);
      bigits := bigits[..numBigits + 1];
    }

    /** Multiplies by a 32-bit factor. */
    method Multiply32(value: Bigit)
      requires |bigits| > 0
      modifies this`bigits
      ensures Val(bigits) == old(Val(bigits)) * value && Value() == old(Value()) * value
      ensures old(|bigits|) <= |bigits| <= old(|bigits|) + 1
      ensures |bigits| > old(|bigits|) ==> Normal()
      ensures old(Normal()) && value > 0 ==> Normal()
    {
      var carry: Bigit := 0;
      ghost var s := bigits;
      var i, n := 0, |bigits|;
      while i < n
        invariant 0 <= i <= n == |bigits| == |s|
        invariant carry <= value
        invariant Multiplied(bigits, s, i, value, carry)
      {
        MultiplyDigit(bigits, s, i, value, carry);
        var result := bigits[i] * value + carry;
        assert result < WORD64;
        bigits := bigits[i := result % BASE];
        carry := result / BASE;
        i := i + 1;
      }
      ValAppend(bigits, carry);
      MultipliedTop(bigits, s, value, carry);
      if carry != 0 {
        bigits := bigits + [carry];
      }
      WorthScales(bigits, s, value, exp);
    }

    /** Multiplies by a 64-bit factor, taken in two halves. */
    method Multiply64(value: nat)
      requires |bigits| > 0 && value < WORD64
      modifies this`bigits
      ensures Val(bigits) == old(Val(bigits)) * value && Value() == old(Value()) * value
      ensures old(|bigits|) <= |bigits|
      ensures old(Normal()) && value > 0 ==> Normal()
    {
      var lower, upper := value % BASE, value / BASE;
      var carry := 0;
      ghost var s := bigits;
      var i, n := 0, |bigits|;
      while i < n
        invariant 0 <= i <= n == |bigits| == |s|
        invariant 0 <= carry < WORD64
        invariant Multiplied(bigits, s, i, value, carry)
      {
        Multiply64Digit(bigits, s, i, value, carry);
        var result := bigits[i] * lower + carry % BASE;
        assert result < WORD64;
        carry := bigits[i] * upper + result / BASE + carry / BASE;
        assert 0 <= carry < WORD64;
        bigits := bigits[i := result % BASE];
        i := i + 1;
      }
      MultipliedTop(bigits, s, value, carry);
      while carry != 0
        invariant 0 <= carry < WORD64 && |bigits| >= n
        invariant Val(bigits) + carry * P(|bigits|) == Val(s) * value
        invariant old(Normal()) && value > 0 ==> carry != 0 || bigits[|bigits| - 1] != 0
        decreases carry
      {
        SplitDigit(carry, P(|bigits|));
        ValAppend(bigits, carry % BASE);
        bigits := bigits + [carry % BASE];
        carry := carry / BASE;
      }
      WorthScales(bigits, s, value, exp);
    }

    /** Multiplies by a power of two: whole digits go to the exponent, the rest is shifted through. */
    method ShiftLeft(shift: nat)
      requires |bigits| > 0
      modifies this
      ensures Value() == old(Value()) * Pow(2, shift)
      ensures exp == old(exp) + shift / 32
      ensures old(|bigits|) <= |bigits| <= old(|bigits|) + 1
      ensures old(Normal()) ==> Normal()
      ensures old(bigits) == [1] ==> bigits[0] != 0
    {
      ghost var s, e := bigits, exp;
      exp := exp + shift / 32;
      var small := shift % 32;
      if small != 0 {
        ShiftThrough(small);
      }
      PowTwoWords(shift / 32);
      PowAdd(2, small, 32 * (shift / 32));
      ShiftValue(bigits, s, Pow(2, small), e, shift / 32);
    }

    /** The digit loop of the shift, for a count of 1 to 31. */
    method ShiftThrough(shift: nat)
      requires 0 < shift < 32 && |bigits| > 0
      modifies this`bigits
      ensures Val(bigits) == old(Val(bigits)) * Pow(2, shift)
      ensures old(|bigits|) <= |bigits| <= old(|bigits|) + 1
      ensures old(Normal()) ==> Normal()
      ensures old(bigits) == [1] ==> bigits[0] != 0
    {
      ghost var s := bigits;
      var factor, rest := TwoTo(shift), TwoTo(32 - shift);
      TwoToSplit(shift);
      var carry: Bigit := 0;
      var i, n := 0, |bigits|;
      while i < n
        invariant 0 <= i <= n == |bigits| == |s|
        invariant carry < factor
        invariant Multiplied(bigits, s, i, factor, carry)
        invariant i > 0 && s == [1] ==> bigits == [factor]
      {
        ShiftThroughDigit(bigits, s, i, factor, rest, carry);
        var c: Bigit := bigits[i] / rest;
        var d: Bigit := (bigits[i] * factor) % BASE + carry;
        bigits := bigits[i := d];
        carry := c;
        i := i + 1;
      }
      ValAppend(bigits, carry);
      MultipliedTop(bigits, s, factor, carry);
      if carry != 0 {
        bigits := bigits + [carry];
      }
    }

    /** Gives this number the exponent of `other` when it was larger, by adding zero digits below. */
    method Align(other: Bigint)
      requires other != this
      modifies this
      ensures Value() == old(Value())
      ensures exp == if old(exp) > other.exp then other.exp else old(exp)
      ensures NumBigits() == old(NumBigits())
      ensures old(Normal()) ==> Normal()
    {
      if exp <= other.exp {
        return;
      }
      AlignValue(bigits, exp - other.exp, other.exp);
      MoveUp(exp - other.exp);
      exp := other.exp;
    }

    /** Moves every digit up by `difference` places, from the top down, and clears the places below. */
    method MoveUp(difference: nat)
      modifies this`bigits
      ensures bigits == Zeros(difference) + old(bigits)
    {
      ghost var s := bigits;
      var numBigits := |bigits|;
      bigits := bigits + seq(difference, _ => 0);
      var i, j := numBigits - 1, numBigits - 1 + difference;
      while i >= 0
        invariant -1 <= i < numBigits && j == i + difference
        invariant |bigits| == numBigits + difference
        invariant forall k :: 0 <= k <= i ==> bigits[k] == s[k]
        invariant forall k :: i < k < numBigits ==> s[k] == bigits[k + difference]
      {
        bigits := bigits[j := bigits[i]];
        i, j := i - 1, j - 1;
      }
      var f := 0;
      while f < difference
        invariant 0 <= f <= difference && |bigits| == numBigits + difference
        invariant forall k :: 0 <= k < f ==> bigits[k] == 0
        invariant forall k :: 0 <= k < numBigits ==> s[k] == bigits[k + difference]
      {
        bigits := bigits[f := 0];
        f := f + 1;
      }
      MovedUp(bigits, s, difference);
    }

    /** Subtracts digit by digit; exact unless the borrow runs into a zero digit above the subtrahend. */
    method SubtractAligned(other: Bigint)
      requires other != this && other.exp >= exp && other.Normal() && |bigits| > 0
      requires Value() >= other.Value()
      modifies this`bigits
      ensures 0 < |bigits| <= old(|bigits|) && (|bigits| == 1 || Normal())
      ensures !LosesBorrow(old(bigits), other.bigits, other.exp - exp) <==>
              Value() == old(Value()) - other.Value()
    {
      ghost var s, k := bigits, other.exp - exp;
      WorthInPlace(s, other.bigits, s, k, exp);
      LongerIfLarger(s, other.bigits, k);
      var borrow := SubtractDigits(other);
      BorrowOut(bigits, s, other.bigits, k, borrow);
      ghost var mid, lost := bigits, borrow;
      var i := other.exp - exp + |other.bigits|;
      while borrow > 0
        invariant 0 <= borrow <= 1 && |bigits| == |s|
        invariant lost == 0 ==> borrow == 0 && bigits == mid
        invariant lost == 1 && borrow == 1 ==> bigits == mid || (mid[i] == 0 && bigits == mid[i := BASE - 1])
        invariant lost == 1 && borrow == 0 ==> bigits == mid[i := if mid[i] > 0 then mid[i] - 1 else BASE - 2]
        decreases if borrow == 0 then 0 else if bigits[i] == 0 then 2 else 1
      {
        var r := SubtractDigit(bigits[i], 0, borrow);
        bigits := bigits[i := r.0];
        borrow := r.1;
      }
      SubtractOutcome(bigits, mid, s, other.bigits, k, lost);
      WorthInPlace(s, other.bigits, bigits, k, exp);
      RemoveLeadingZeros();
    }

    /** The main loop: subtracts the digits of `other` at their place and returns the last borrow. */
    method SubtractDigits(other: Bigint) returns (borrow: Bigit)
      requires other != this && other.exp >= exp && other.exp - exp + |other.bigits| <= |bigits|
      modifies this`bigits
      ensures Subtracted(bigits, old(bigits), other.bigits, other.exp - exp, |other.bigits|, borrow)
    {
      ghost var s := bigits;
      borrow := 0;
      var i, j, n := other.exp - exp, 0, |other.bigits|;
      while j != n
        invariant 0 <= j <= n == |other.bigits| && i == other.exp - exp + j
        invariant Subtracted(bigits, s, other.bigits, other.exp - exp, j, borrow)
      {
        var r := SubtractDigit(bigits[i], other.bigits[j], borrow);
        SubtractStep(bigits, s, other.bigits, other.exp - exp, j, borrow, r.0, r.1);
        bigits := bigits[i := r.0];
        borrow := r.1;
        i, j := i + 1, j + 1;
      }
    }

    /** Replaces this number by its square, one column of digit products at a time. */
    method Square()
      requires 0 < |bigits| < 0x4000_0000
      modifies this
      ensures Value() == old(Value()) * old(Value())
      ensures exp == 2 * old(exp)
      ensures 0 < |bigits| <= 2 * old(|bigits|)
      ensures |bigits| == 1 || Normal()
    {
      var n := bigits;
      SquareDigits();
      RemoveLeadingZeros();
      WorthSquared(bigits, n, exp);
      exp := exp * 2;
    }

    /** The column loops: the low half of the columns, then the high half. */
    method SquareDigits()
      requires 0 < |bigits| < 0x4000_0000
      modifies this`bigits
      ensures |bigits| == 2 * old(|bigits|)
      ensures Val(bigits) == old(Val(bigits)) * old(Val(bigits))
    {
      var n := bigits;
      bigits := seq(2 * |n|, _ => 0);
      var sum := new Accumulator();
      LowColumns(n, sum);
      HighColumns(n, sum);
      ColumnsProduct(n, n, |n|, 2 * |n|);
      NoCarryLeft(bigits, n, sum.Value());
    }

    /** The first `index` columns of the square of n are stored, with the carry in sum. */
    ghost predicate ColumnsStored(n: seq<Bigit>, sum: Accumulator, index: nat)
      reads this, sum
    {
      && |n| < 0x4000_0000 && |bigits| == 2 * |n| && index <= |bigits|
      && sum.Valid() && sum.Value() <= |n| * BASE
      && Low(bigits, index) + sum.Value() * P(index) == Columns(n, n, |n|, index)
    }

    method LowColumns(n: seq<Bigit>, sum: Accumulator)
      requires ColumnsStored(n, sum, 0)
      modifies this`bigits, sum
      ensures ColumnsStored(n, sum, |n|)
    {
      var index := 0;
      while index < |n|
        invariant 0 <= index <= |n| && ColumnsStored(n, sum, index)
      {
        ColumnStep(bigits, n, index, sum.Value());
        sum.AddLowColumn(n, index);
        bigits := bigits[index := sum.Digit()];
        sum.ShiftRight32();
        index := index + 1;
      }
    }

    method HighColumns(n: seq<Bigit>, sum: Accumulator)
      requires ColumnsStored(n, sum, |n|)
      modifies this`bigits, sum
      ensures ColumnsStored(n, sum, 2 * |n|)
    {
      var index := |n|;
      while index < 2 * |n|
        invariant |n| <= index <= 2 * |n| && ColumnsStored(n, sum, index)
      {
        ColumnStep(bigits, n, index, sum.Value());
        sum.AddHighColumn(n, index);
        bigits := bigits[index := sum.Digit()];
        sum.ShiftRight32();
        index := index + 1;
      }
    }

    /** Compares the lengths, then the digits from the top down, then the numbers of digits. */
    method Compare(other: Bigint) returns (c: int)
      ensures c == Compared(bigits, exp, other.bigits, other.exp)
    {
      var numBigits, numOther := NumBigits(), other.NumBigits();
      if numBigits != numOther {
        return if numBigits > numOther then 1 else -1;
      }
      ghost var x := Spread(bigits, exp, numBigits);
      ghost var y := Spread(other.bigits, other.exp, numBigits);
      var i, j := |bigits| - 1, |other.bigits| - 1;
      var end := if i - j < 0 then 0 else i - j;
      while i >= end
        invariant end - 1 <= i < |bigits| && i + exp == j + other.exp && -1 <= j < |other.bigits|
        invariant forall p :: i + exp < p < numBigits ==> x[p] == y[p]
      {
        var mine, others := bigits[i], other.bigits[j];
        assert mine == x[exp + i] && others == y[other.exp + j];
        if mine != others {
          if mine > others {
            HighestDifference(x, y, i + exp);
          } else {
            HighestDifference(y, x, i + exp);
          }
          return if mine > others then 1 else -1;
        }
        i, j := i - 1, j - 1;
      }
      if i != j {
        if i > j {
          EqualAbove(x, y, i + 1 + exp);
        } else {
          EqualAbove(y, x, i + 1 + exp);
        }
        return if i > j then 1 else -1;
      }
      assert x == y;
      return 0;
    }

    /** When the longer number has no leading zeros, the lengths tell the truth. */
    lemma {:induction false} CompareTells(other: Bigint)
      requires NumBigits() > other.NumBigits() ==> Normal()
      requires NumBigits() < other.NumBigits() ==> other.Normal()
      ensures Compared(bigits, exp, other.bigits, other.exp) ==
                if Value() != other.Value() then Sign(Value() - other.Value()) else Sign(|bigits| - |other.bigits|)
    {
      if NumBigits() > other.NumBigits() {
        MoreDigits(bigits, exp, other.bigits, other.exp);
      } else if NumBigits() < other.NumBigits() {
        MoreDigits(other.bigits, other.exp, bigits, exp);
      }
    }

    /** Makes this number 10^exponent: 5^exponent by squaring, then a shift by the exponent. */
    method AssignPow10(exponent: nat)
      requires exponent < 0x4000_0000
      modifies this
      ensures Value() == Pow(10, exponent)
      ensures Normal() && exp == exponent / 32
    {
      if exponent == 0 {
        Assign(1);
        return;
      }
      var bitmask: nat := 1;
      while exponent >= bitmask
        invariant IsPowerOfTwo(bitmask) && bitmask <= 2 * exponent
        decreases 2 * exponent - bitmask
      {
        bitmask := bitmask * 2;
      }
      bitmask := bitmask / 2;
      Assign(5);
      ghost var reached := bitmask;
      TopBit(exponent, reached);
      bitmask := bitmask / 2;
      while bitmask != 0
        invariant IsPowerOfTwo(reached) && bitmask == reached / 2
        invariant exp == 0 && Normal() && |bigits| <= BitsFrom(exponent, reached)
        invariant Value() == Pow(5, BitsFrom(exponent, reached))
        decreases bitmask
      {
        NextPower(exponent, bitmask, reached);
        reached := bitmask;
        bitmask := bitmask / 2;
      }
      PowProduct(5, 2, exponent);
      ShiftLeft(exponent);
    }

    /** One round of the squaring loop: appends one more bit of the exponent of five. */
    method NextPower(exponent: nat, bitmask: nat, ghost reached: nat)
      requires IsPowerOfTwo(bitmask) && reached == 2 * bitmask && exponent < 0x4000_0000
      requires exp == 0 && Normal() && |bigits| <= BitsFrom(exponent, reached)
      requires Value() == Pow(5, BitsFrom(exponent, reached))
      modifies this
      ensures exp == 0 && Normal() && |bigits| <= BitsFrom(exponent, bitmask)
      ensures Value() == Pow(5, BitsFrom(exponent, bitmask))
    {
      NextBit(exponent, bitmask);
      SquareOfPower(5, BitsFrom(exponent, reached));
      Square();
      StaysNormal();
      if TestBit(exponent, bitmask) {
        Multiply32(5);
      }
    }

    lemma {:induction false} StaysNormal()
      requires |bigits| == 1 || Normal()
      requires Value() > 0
      ensures Normal()
    {
      if |bigits| == 1 {
        WorthPositive(bigits, exp);
        assert Val(bigits) == Low(bigits, 0) + bigits[0] * P(0);
      }
    }

    /** The comparison puts this number below an equal one that has more digits. */
    ghost predicate MistakenForLess(other: Bigint)
      reads this, other
    {
      Value() == other.Value() && |bigits| < |other.bigits|
    }

    /** With an exponent at most the other's, or against a nonzero lowest digit, the comparison is right. */
    lemma {:induction false} NotMistaken(other: Bigint)
      requires Normal() && other.Normal() && (exp <= other.exp || other.bigits[0] != 0)
      ensures !MistakenForLess(other)
    {
      if MistakenForLess(other) {
        ExponentOrder(bigits, exp, other.bigits, other.exp);
        if other.bigits[0] != 0 {
          LowestDigitDecides(bigits, exp, other.bigits, other.exp);
        }
      }
    }

    /** Without either, it can be wrong: 5 * 2^32 as one digit with exponent 1, and as two digits. */
    static lemma {:induction false} EqualButMistaken(n: Bigint, other: Bigint)
      requires n.bigits == [5] && n.exp == 1 && other.bigits == [0, 5] && other.exp == 0
      ensures n.Normal() && other.Normal() && n.MistakenForLess(other)
    {
      assert P(1) == BASE;
      assert Low([0, 5], 2) == Low([0, 5], 1) + 5 * P(1);
      assert Low([0, 5], 1) == 0 && Low([5], 1) == 5;
      assert Worth([5], 1) == BASE * Worth([5], 0);
    }

    /** Divides by repeated subtraction, leaves the remainder here and returns the quotient. */
    method DivmodAssign(divisor: Bigint) returns (quotient: nat)
      requires divisor != this && |bigits| > 0 && divisor.Normal()
      requires Normal() || NumBigits() <= divisor.NumBigits()
      requires Value() < 0x8000_0000 * divisor.Value()
      modifies this
      ensures old(MistakenForLess(divisor)) ==> quotient == 0
      ensures !old(MistakenForLess(divisor)) ==>
                old(Value()) == quotient * divisor.Value() + Value() && Value() < divisor.Value()
      ensures quotient == 0 ==> bigits == old(bigits) && exp == old(exp)
      ensures quotient > 0 ==> exp <= divisor.exp
      ensures exp == old(exp) || exp == divisor.exp < old(exp)
      ensures |bigits| > 0 && (Normal() || NumBigits() <= divisor.NumBigits()) && (old(Tidy()) ==> Tidy())
    {
      CompareTells(divisor);
      var order := Compare(divisor);
      if order < 0 {
        return 0;
      }
      divisor.PositiveValue();
      if !Normal() {
        NormalIfLarge(bigits, exp, divisor.bigits, divisor.exp);
      }
      OneExtraDigit(bigits, exp, divisor.bigits, divisor.exp, 0x8000_0000);
      Align(divisor);
      quotient := SubtractWhileAtLeast(divisor);
    }

    /** The loop of the division: subtracts at least once, until less than the divisor is left. */
    method SubtractWhileAtLeast(divisor: Bigint) returns (quotient: nat)
      requires divisor != this && divisor.Normal() && Normal() && exp <= divisor.exp
      requires Value() >= divisor.Value() > 0
      requires NumBigits() <= divisor.NumBigits() + 1
      modifies this`bigits
      ensures old(Value()) == quotient * divisor.Value() + Value() && Value() < divisor.Value()
      ensures quotient > 0 && Tidy()
      ensures Normal() || NumBigits() <= divisor.NumBigits()
    {
      quotient := 0;
      ghost var d := divisor.Value();
      while true
        invariant Normal() && Value() >= d
        invariant NumBigits() <= divisor.NumBigits() + 1
        invariant old(Value()) == quotient * d + Value()
        decreases Value()
      {
        SubtractOnce(divisor);
        DistributesRight(quotient, 1, d);
        quotient := quotient + 1;
        CompareTells(divisor);
        var order := Compare(divisor);
        if order < 0 {
          if Value() == d {
            ExponentOrder(bigits, exp, divisor.bigits, divisor.exp);
          }
          break;
        }
      }
    }

    /** The body of the division loop; it restores what the comparison after it needs. */
    method SubtractOnce(divisor: Bigint)
      requires divisor != this && divisor.Normal() && Normal() && exp <= divisor.exp
      requires Value() >= divisor.Value()
      requires NumBigits() <= divisor.NumBigits() + 1
      modifies this`bigits
      ensures Value() == old(Value()) - divisor.Value()
      ensures 0 < |bigits| <= old(|bigits|)
      ensures if Value() > 0 then Normal() else |bigits| == 1
    {
      NoLostBorrow(bigits, exp, divisor.bigits, divisor.exp);
      SubtractAligned(divisor);
      if Value() > 0 {
        StaysNormal();
      } else if |bigits| > 1 {
        PositiveValue();
      }
    }

    lemma {:induction false} PositiveValue()
      requires Normal()
      ensures Value() > 0
    {
      ValueAtLeast(bigits, exp);
    }

    function GetBigit(i: int): (d: Bigit)
      reads this
    {
      if exp <= i < NumBigits() then bigits[i - exp] else 0
    }

    /** The digits of x written over the position range of a comparison. */
    ghost predicate SpreadOver(x: seq<Bigit>)
      reads this
    {
      && NumBigits() <= |x|
      && (forall p :: 0 <= p < |x| ==> x[p] == GetBigit(p))
      && Val(x) == Value()
    }

    lemma {:induction false} SpreadOut(m: nat) returns (x: seq<Bigit>)
      requires NumBigits() <= m
      ensures |x| == m && SpreadOver(x)
    {
      x := Spread(bigits, exp, m);
      forall p | 0 <= p < m
        ensures x[p] == GetBigit(p)
      {
        if exp <= p < NumBigits() {
          assert bigits[p - exp] == x[exp + (p - exp)];
        }
      }
    }
  }

  /** Numbers long enough for an early answer have no leading zeros to give a wrong one. */
  ghost predicate LengthsTell(a: Bigint, b: Bigint, c: Bigint)
    reads a, b, c
  {
    && (a.NumBigits() > c.NumBigits() ==> a.Normal())
    && (b.NumBigits() > c.NumBigits() ==> b.Normal())
    && (a.NumBigits() + 1 < c.NumBigits() && b.NumBigits() + 1 < c.NumBigits() ==> c.Normal())
  }

  lemma {:induction false} AddCompareTells(a: Bigint, b: Bigint, c: Bigint)
    requires LengthsTell(a, b, c)
    ensures AddCompared(a.bigits, a.exp, b.bigits, b.exp, c.bigits, c.exp) == Sign(a.Value() + b.Value() - c.Value())
  {
    var most := Longer(a.NumBigits(), b.NumBigits());
    if most + 1 < c.NumBigits() {
      SumTooShort(a.bigits, a.exp, b.bigits, b.exp, c.bigits, c.exp, most);
    } else if a.NumBigits() > c.NumBigits() {
      MoreDigits(a.bigits, a.exp, c.bigits, c.exp);
    } else if b.NumBigits() > c.NumBigits() {
      MoreDigits(b.bigits, b.exp, c.bigits, c.exp);
    }
  }

  /** Compares a + b with c from the top without forming the sum, unless the lengths differ too much. */
  method AddCompare(a: Bigint, b: Bigint, c: Bigint) returns (r: int)
    ensures r == AddCompared(a.bigits, a.exp, b.bigits, b.exp, c.bigits, c.exp)
  {
    var most := Longer(a.NumBigits(), b.NumBigits());
    var numC := c.NumBigits();
    if most + 1 < numC {
      return -1;
    }
    if most > numC {
      return 1;
    }
    ghost var x := a.SpreadOut(numC);
    ghost var y := b.SpreadOut(numC);
    ghost var z := c.SpreadOut(numC);
    var minExp := if a.exp < b.exp then a.exp else b.exp;
    r := AddCompareDigits(a, b, c, if c.exp < minExp then c.exp else minExp, x, y, z);
  }

  /** One position of it: the digit of c plus the borrow, less the digits of a and b. */
  method CompareDigit(a: Bigint, b: Bigint, c: Bigint, i: nat, borrow: nat,
                      ghost x: seq<Bigit>, ghost y: seq<Bigit>, ghost z: seq<Bigit>, ghost difference: int)
    returns (next: int)
    requires |x| == |y| == |z| && i < |z|
    requires a.SpreadOver(x) && b.SpreadOver(y) && c.SpreadOver(z)
    requires borrow == BASE * difference && borrow <= BASE
    requires difference == High(z, i + 1) - High(x, i + 1) - High(y, i + 1)
    ensures next == High(z, i) - High(x, i) - High(y, i)
    ensures next < 0 ==> Sign(Val(x) + Val(y) - Val(z)) == 1
    ensures next > 1 ==> Sign(Val(x) + Val(y) - Val(z)) == -1
  {
    AddCompareStep(x, y, z, i, difference);
    var sum: nat := a.GetBigit(i) + b.GetBigit(i);
    var digit := c.GetBigit(i);
    next := digit + borrow - sum;
  }

  /** The loop of the three-way comparison, from the top digit of c down to the lowest digit of any. */
  method AddCompareDigits(a: Bigint, b: Bigint, c: Bigint, minExp: nat,
                          ghost x: seq<Bigit>, ghost y: seq<Bigit>, ghost z: seq<Bigit>) returns (r: int)
    requires |x| == |y| == |z| == c.NumBigits() && minExp <= |z|
    requires a.SpreadOver(x) && b.SpreadOver(y) && c.SpreadOver(z)
    requires minExp <= a.exp && minExp <= b.exp && minExp <= c.exp
    ensures r == Sign(Val(x) + Val(y) - Val(z))
  {
    var borrow := 0;
    var i := c.NumBigits() - 1;
    ghost var difference := 0;
    while i >= minExp
      invariant minExp - 1 <= i < c.NumBigits()
      invariant 0 <= difference <= 1 && borrow == BASE * difference
      invariant difference == High(z, i + 1) - High(x, i + 1) - High(y, i + 1)
    {
      var next := CompareDigit(a, b, c, i, borrow, x, y, z, difference);
      if next < 0 {
        return 1;
      }
      if next > 1 {
        return -1;
      }
      difference := next;
      borrow := MoveBorrow(next);
      i := i - 1;
    }
    AllDecided(x, y, z, i + 1);
    return if borrow != 0 then -1 else 0;
  }

  /** Both comparisons are misled by a zero that has been shifted up five digits: they put it above one. */
  method ZeroAboveOne() returns (zero: Bigint, one: Bigint, c: int, r: int)
    ensures zero.Value() == 0 && one.Value() == 1 && c == 1 && r == 1
  {
    zero := new Bigint();
    zero.Assign(0);
    zero.ShiftLeft(160);
    one := new Bigint();
    one.Assign(1);
    c := zero.Compare(one);
    r := AddCompare(zero, zero, one);
  }
}
