/** The shortest digits that are read back as f * 2^e: the loop for a negative digit count. */
module DragonShortest {
  import opened Common
  import opened Digits
  import opened DigitArithmetic
  import opened DigitCompare
  import opened Bigints
  import opened Boundaries
  import opened DragonDigits
  import opened Rounding

  // ---- One step, on numbers ----

  /** v0 / w is the value in units of 10^x, and low and up are its margins on the same scale. */
  ghost predicate Scaled(v0: nat, w: nat, low: nat, up: nat, f: nat, e: int, shift: nat, x: int) {
    && f > 0 && 1 <= shift && low > 0 && up > 0
    && Represents(v0, w, f, e, x)
    && v0 == Product(f, Pow(2, shift)) * low && up == Pow(2, shift - 1) * low
  }

  /** After i + 1 digits that spell q, with r left over. */
  ghost predicate Reached(v0: nat, w: nat, i: nat, q: int, r: int) {
    Pow(10, i) * v0 == q * w + r && 0 <= r < w
  }

  lemma {:induction false} ScaledMargin(p: nat, low: nat)
    requires p > 0 && low > 0
    ensures p * low > 0
  {
    MulLe(1, p, low);
  }

  /** A remainder between the margins leaves no number of this many digits in the interval. */
  lemma {:induction false} GoesOn(v0: nat, w: nat, low: nat, up: nat, f: nat, e: int, shift: nat, x: int, i: nat,
                                  q: int, r: int)
    requires Scaled(v0, w, low, up, f, e, shift, x) && Reached(v0, w, i, q, r)
    requires !IsLow(r, Pow(10, i) * low, LowEndSeen(f, e, x)) && !IsHigh(r, Pow(10, i) * up, w, f % 2 == 0)
    requires NoneAbove(f, e, shift, x, x - i)
    ensures NoneAbove(f, e, shift, x, x - (i + 1))
  {
    ScaledMargin(Pow(10, i), low);
    ScaledMargin(Pow(10, i), up);
    forall j, m | x - (i + 1) < j <= x
      ensures !Accepted(f, e, shift, x, j, m)
    {
      if j == x - i {
        AcceptedIs(v0, w, low, up, f, e, shift, x, i, m);
        InsideIff(Pow(10, i) * v0, w, Pow(10, i) * low, Pow(10, i) * up, q, r, m, LowEndSeen(f, e, x), f % 2 == 0);
      }
    }
  }

  /** Otherwise the digit chosen completes a number in the interval, and the nearest one of its length. */
  lemma {:induction false} Stops(v0: nat, w: nat, low: nat, up: nat, f: nat, e: int, shift: nat, x: int, i: nat,
                                 q: int, r: int)
    requires Scaled(v0, w, low, up, f, e, shift, x) && Reached(v0, w, i, q, r)
    requires IsLow(r, Pow(10, i) * low, LowEndSeen(f, e, x)) || IsHigh(r, Pow(10, i) * up, w, f % 2 == 0)
    ensures var c := Chosen(q, r, w, IsLow(r, Pow(10, i) * low, LowEndSeen(f, e, x)),
                            IsHigh(r, Pow(10, i) * up, w, f % 2 == 0));
            Accepted(f, e, shift, x, x - i, c) && Closest(f, e, shift, x, x - i, c)
  {
    var v, l, u := Pow(10, i) * v0, Pow(10, i) * low, Pow(10, i) * up;
    var k, lowEnd, highEnd := x - i, LowEndSeen(f, e, x), f % 2 == 0;
    var c := Chosen(q, r, w, IsLow(r, l, lowEnd), IsHigh(r, u, w, highEnd));
    ScaledMargin(Pow(10, i), low);
    ScaledMargin(Pow(10, i), up);
    AcceptedIs(v0, w, low, up, f, e, shift, x, i, c);
    InsideIff(v, w, l, u, q, r, c, lowEnd, highEnd);
    forall m | Accepted(f, e, shift, x, k, m)
      ensures Distance(f, e, k, c) < Distance(f, e, k, m) || m == c ||
              (Distance(f, e, k, c) == Distance(f, e, k, m) && c % 2 == 0)
    {
      AcceptedIs(v0, w, low, up, f, e, shift, x, i, m);
      NoneNearer(v, w, l, u, q, r, m, lowEnd, highEnd);
      SmallerUnits(v0, w, f, e, x, i);
      SameDistances(c, m, v, w, Num(f, e, x - i), Den(e, x - i));
    }
  }

  /** A number that ends in zero is as good without it. */
  lemma {:induction false} DropZero(f: nat, e: int, shift: nat, x: int, k: int, m: int)
    requires f > 0 && Accepted(f, e, shift, x, k, 10 * m)
    ensures Accepted(f, e, shift, x, k + 1, m)
  {
    UnitStep(LowF(f, shift), e - shift, k);
    UnitStep(HighF(f), e - 1, k);
    if k >= 0 {
      Associate(m, 10, Den(e - shift, k));
      Associate(m, 10, Den(e - 1, k));
      Associate(10, m, Den(e - shift, k));
      Associate(10, m, Den(e - 1, k));
    } else {
      Associate(10, m, Den(e - shift, k));
      Associate(10, m, Den(e - 1, k));
    }
  }

  // ---- The exponents, which decide whether the lower boundary itself is seen ----

  /** The remainder keeps the margin's exponent unless a division has brought it down to the divisor's. */
  ghost predicate SameUnits(n: Bigint, d: Bigint, lower: Bigint, e: int, x: int, dec: nat)
    reads n`exp, d`exp, lower`exp
  {
    if e >= 0 && x / 32 < e / 32 then
      && lower.exp == e / 32 && d.exp == x / 32
      && (n.exp == lower.exp || n.exp == d.exp) && (dec > 0 ==> n.exp == d.exp)
    else
      n.exp == lower.exp && n.exp <= d.exp
  }

  /** Nothing can be left that equals the margin before the first digit other than zero. */
  lemma {:induction false} SomethingWritten(v0: nat, w: nat, low: nat, up: nat, f: nat, e: int, shift: nat, x: int,
                                            i: nat, q: int, r: int)
    requires Scaled(v0, w, low, up, f, e, shift, x) && Reached(v0, w, i, q, r) && r == Pow(10, i) * low
    ensures q != 0
  {
    if q == 0 {
      CancelPower(Pow(10, i), v0, low);
      PowTwoStep(shift);
      MulLe(2, Pow(2, shift), 1);
      MulLe(1, f, Pow(2, shift));
      MulLe(2, Product(f, Pow(2, shift)), low);
    }
  }

  lemma {:induction false} CancelPower(p: nat, a: nat, b: nat)
    requires p > 0 && p * a == p * b
    ensures a == b
  {
    CancelEqual(a, b, p);
  }

  /** The two tests that may end the loop. */
  method Tests(n: Bigint, d: Bigint, lower: Bigint, upper: Bigint, even: bool, ghost f: nat, ghost e: int,
               ghost x: int, ghost dec: nat)
    returns (low: bool, high: bool)
    requires n.Tidy() && d.Normal() && lower.Normal() && upper.Normal() && even == (f % 2 == 0)
    requires n.Normal() || n.NumBigits() <= d.NumBigits()
    requires SameUnits(n, d, lower, e, x, dec) && (n.Value() == lower.Value() ==> dec > 0)
    ensures low == IsLow(n.Value(), lower.Value(), LowEndSeen(f, e, x))
    ensures high == IsHigh(n.Value(), upper.Value(), d.Value(), f % 2 == 0)
  {
    n.CompareTells(lower);
    var order := n.Compare(lower);
    low := order - (if even then 1 else 0) < 0;
    if n.Value() == lower.Value() {
      lower.PositiveValue();
      ExponentOrder(n.bigits, n.exp, lower.bigits, lower.exp);
    }
    AddCompareTells(n, upper, d);
    var sum := AddCompare(n, upper, d);
    high := sum + (if even then 1 else 0) > 0;
  }

  // ---- The loop ----

  /** The margins after i digits. */
  ghost predicate MarginsAt(lower: Bigint, upper: Bigint, i: nat, low: nat, up: nat)
    reads lower, upper
  {
    && lower.Normal() && upper.Normal()
    && lower.Value() == Pow(10, i) * low && upper.Value() == Pow(10, i) * up
  }

  /** Multiplies both margins by ten, once if they are the same object. */
  method MarginsTimesTen(lower: Bigint, upper: Bigint, ghost i: nat, ghost low: nat, ghost up: nat)
    requires MarginsAt(lower, upper, i, low, up)
    modifies lower`bigits, upper`bigits
    ensures MarginsAt(lower, upper, i + 1, low, up)
  {
    Associate(10, Pow(10, i), low);
    Associate(10, Pow(10, i), up);
    lower.Multiply32(10);
    if upper != lower {
      upper.Multiply32(10);
    }
  }

  /** Whether to take the next digit: always if this one is too low, else if it is nearer, or as near and even. */
  method RoundUp(n: Bigint, d: Bigint, digit: nat, low: bool, high: bool, ghost dec: nat) returns (up: bool)
    requires d.Normal() && (n.Normal() || n.NumBigits() <= d.NumBigits()) && (low || high)
    ensures Chosen(10 * dec + digit, n.Value(), d.Value(), low, high) == 10 * dec + digit + if up then 1 else 0
  {
    LastDigitParity(dec, digit);
    up := !low;
    if low && high {
      AddCompareTells(n, n, d);
      var result := AddCompare(n, n, d);
      up := result > 0 || (result == 0 && digit % 2 != 0);
    }
  }

  /** What holds before each digit. */
  ghost predicate Between(n: Bigint, d: Bigint, lower: Bigint, upper: Bigint, f: nat, e: int, shift: nat, x: int,
                          v0: nat, low: nat, up: nat, i: nat, dec: nat)
    reads n, d, lower, upper
  {
    && Scaled(v0, d.Value(), low, up, f, e, shift, x)
    && DigitState(n, d, f, e, x, v0, i, dec) && n.Tidy()
    && MarginsAt(lower, upper, i, low, up) && SameUnits(n, d, lower, e, x, dec)
  }

  /** What holds after the division: the remainder, with nothing else changed. */
  ghost predicate Divided(n: Bigint, d: Bigint, lower: Bigint, upper: Bigint, f: nat, e: int, shift: nat, x: int,
                          v0: nat, low: nat, up: nat, i: nat, dec: nat)
    reads n, d, lower, upper
  {
    && Scaled(v0, d.Value(), low, up, f, e, shift, x)
    && n != d && |n.bigits| > 0 && d.Normal() && n.Tidy() && (n.Normal() || n.NumBigits() <= d.NumBigits())
    && Reached(v0, d.Value(), i, dec, n.Value()) && Comparable(n, d, e, x, dec)
    && 10 * (Pow(10, i) * v0) == dec * (10 * d.Value()) + 10 * n.Value()
    && MarginsAt(lower, upper, i, low, up) && SameUnits(n, d, lower, e, x, dec)
  }

  method Divide(n: Bigint, d: Bigint, lower: Bigint, upper: Bigint, ghost f: nat, ghost e: int, ghost shift: nat,
                ghost x: int,
                ghost v0: nat, ghost low: nat, ghost up: nat, ghost i: nat, ghost dec: nat) returns (digit: nat)
    requires Between(n, d, lower, upper, f, e, shift, x, v0, low, up, i, dec) && n !in {d, lower, upper}
    modifies n
    ensures digit <= 9 && Divided(n, d, lower, upper, f, e, shift, x, v0, low, up, i, 10 * dec + digit)
  {
    digit := NextDigit(n, d, f, e, x, v0, i, dec);
  }

  method OnePlaceOn(n: Bigint, d: Bigint, lower: Bigint, upper: Bigint, ghost f: nat, ghost e: int, ghost shift: nat,
                    ghost x: int, ghost v0: nat, ghost low: nat, ghost up: nat, ghost i: nat, ghost dec: nat)
    requires Divided(n, d, lower, upper, f, e, shift, x, v0, low, up, i, dec)
    requires d !in {n, lower, upper} && n !in {lower, upper}
    modifies n, lower`bigits, upper`bigits
    ensures Between(n, d, lower, upper, f, e, shift, x, v0, low, up, i + 1, dec)
    ensures lower.Value() == 10 * old(lower.Value())
  {
    TimesTen(n, d, f, e, x, v0, i, dec);
    MarginsTimesTen(lower, upper, i, low, up);
    Associate(10, Pow(10, i), low);
  }

  lemma {:induction false} DecValAppend(buf: seq<char>, c: char)
    ensures DecVal(buf + [c]) == 10 * DecVal(buf) + DigitValue(c)
  {
    assert (buf + [c])[..|buf|] == buf;
  }

  /** The digits so far spell dec, and no number of that many digits lies in the interval. */
  ghost predicate Unfinished(f: nat, e: int, shift: nat, x: int, buf: seq<char>, dec: nat) {
    f > 0 && AllDigits(buf) && DecVal(buf) == dec && NoneAbove(f, e, shift, x, x - |buf|)
  }

  /**
   * The digits times the power of ten of the last one lie in the interval, no number with fewer digits does, and none
   * of their length lies nearer. They are decimal digits, or the overflowed ten alone.
   */
  ghost predicate Shortest(f: nat, e: int, shift: nat, x: int, k: int, buf: seq<char>) {
    && f > 0 && |buf| > 0 && k == x - (|buf| - 1)
    && Accepted(f, e, shift, x, k, DecVal(buf)) && NoneAbove(f, e, shift, x, k)
    && Closest(f, e, shift, x, k, DecVal(buf))
    && (AllDigits(buf) || buf == [':'])
  }

  lemma {:induction false} Continued(f: nat, e: int, shift: nat, x: int, buf: seq<char>, dec: nat, digit: nat)
    requires Unfinished(f, e, shift, x, buf, dec) && digit <= 9 && NoneAbove(f, e, shift, x, x - (|buf| + 1))
    ensures Unfinished(f, e, shift, x, buf + [DigitChar(digit)], 10 * dec + digit)
  {
    DecValAppend(buf, DigitChar(digit));
  }

  /** Ten is chosen for the first digit only: later, the number one digit shorter would have been enough. */
  lemma {:induction false} Finished(f: nat, e: int, shift: nat, x: int, buf: seq<char>, dec: nat, last: nat)
    requires Unfinished(f, e, shift, x, buf, dec) && last <= 10
    requires Accepted(f, e, shift, x, x - |buf|, 10 * dec + last)
    requires Closest(f, e, shift, x, x - |buf|, 10 * dec + last)
    ensures Shortest(f, e, shift, x, x - |buf|, buf + [DigitChar(last)])
  {
    DecValAppend(buf, DigitChar(last));
    if last == 10 && buf != [] {
      DropZero(f, e, shift, x, x - |buf|, dec + 1);
      assert false;
    }
  }

  /** The tests after a division: the digit to end with, if one of them asks for it. */
  method LastOne(n: Bigint, d: Bigint, lower: Bigint, upper: Bigint, even: bool, digit: nat,
                 ghost f: nat, ghost e: int, ghost shift: nat, ghost x: int,
                 ghost v0: nat, ghost low: nat, ghost up: nat, ghost i: nat, ghost dec: nat) returns (last: Option<nat>)
    requires Divided(n, d, lower, upper, f, e, shift, x, v0, low, up, i, 10 * dec + digit)
    requires even == (f % 2 == 0) && NoneAbove(f, e, shift, x, x - i)
    ensures last.Some? ==> digit <= last.value <= digit + 1
    ensures last.Some? ==> Accepted(f, e, shift, x, x - i, 10 * dec + last.value)
    ensures last.Some? ==> Closest(f, e, shift, x, x - i, 10 * dec + last.value)
    ensures last.None? ==> NoneAbove(f, e, shift, x, x - (i + 1)) && lower.Value() < d.Value()
  {
    ghost var w, q, r := d.Value(), 10 * dec + digit, n.Value();
    if r == lower.Value() {
      SomethingWritten(v0, w, low, up, f, e, shift, x, i, q, r);
    }
    var isLow, isHigh := Tests(n, d, lower, upper, even, f, e, x, q);
    if isLow || isHigh {
      Stops(v0, w, low, up, f, e, shift, x, i, q, r);
      var next := RoundUp(n, d, digit, isLow, isHigh, dec);
      return Some(digit + if next then 1 else 0);
    }
    GoesOn(v0, w, low, up, f, e, shift, x, i, q, r);
    return None;
  }

  /** One digit: a division, the tests, and the step to the next place if neither asks for the end. */
  method NextPlace(n: Bigint, d: Bigint, lower: Bigint, upper: Bigint, even: bool,
                   ghost f: nat, ghost e: int, ghost shift: nat, ghost x: int,
                   ghost v0: nat, ghost low: nat, ghost up: nat, ghost i: nat, ghost dec: nat)
    returns (digit: nat, last: Option<nat>)
    requires Between(n, d, lower, upper, f, e, shift, x, v0, low, up, i, dec) && even == (f % 2 == 0)
    requires d !in {n, lower, upper} && n !in {lower, upper} && NoneAbove(f, e, shift, x, x - i)
    modifies n, lower`bigits, upper`bigits
    ensures digit <= 9
    ensures last.Some? ==> last.value <= 10 && Accepted(f, e, shift, x, x - i, 10 * dec + last.value)
    ensures last.Some? ==> Closest(f, e, shift, x, x - i, 10 * dec + last.value)
    ensures last.None? ==> NoneAbove(f, e, shift, x, x - (i + 1))
    ensures last.None? ==> Between(n, d, lower, upper, f, e, shift, x, v0, low, up, i + 1, 10 * dec + digit)
    ensures last.None? ==> lower.Value() == 10 * old(lower.Value()) && 0 < old(lower.Value()) < d.Value()
  {
    digit := Divide(n, d, lower, upper, f, e, shift, x, v0, low, up, i, dec);
    last := LastOne(n, d, lower, upper, even, digit, f, e, shift, x, v0, low, up, i, dec);
    if last.None? {
      lower.PositiveValue();
      OnePlaceOn(n, d, lower, upper, f, e, shift, x, v0, low, up, i, 10 * dec + digit);
    }
  }

  /** Digits until the number they spell lies in the interval. */
  method ShortestDigits(n: Bigint, d: Bigint, lower: Bigint, upper: Bigint, even: bool,
                        ghost f: nat, ghost e: int, ghost shift: nat, ghost x: int,
                        ghost v0: nat, ghost low: nat, ghost up: nat) returns (buf: seq<char>)
    requires Between(n, d, lower, upper, f, e, shift, x, v0, low, up, 0, 0) && even == (f % 2 == 0)
    requires d !in {n, lower, upper} && n !in {lower, upper}
    modifies n, lower, upper
    ensures var done := Shortest(f, e, shift, x, x - (|buf| - 1), buf); done
  {
    buf := [];
    ghost var dec := 0;
    while true
      invariant var between := Between(n, d, lower, upper, f, e, shift, x, v0, low, up, |buf|, dec); between
      invariant var unfinished := Unfinished(f, e, shift, x, buf, dec); unfinished
      decreases d.Value() - lower.Value()
    {
      var digit, last := NextPlace(n, d, lower, upper, even, f, e, shift, x, v0, low, up, |buf|, dec);
      if last.Some? {
        Finished(f, e, shift, x, buf, dec, last.value);
        buf := buf + [DigitChar(last.value)];
        return;
      }
      Continued(f, e, shift, x, buf, dec, digit);
      buf := buf + [DigitChar(digit)];
      dec := 10 * dec + digit;
    }
  }
}
