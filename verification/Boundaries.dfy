/** The interval of numbers that are read back as f * 2^e, on integers: half a unit of the last place on either side. */
module Boundaries {
  import opened Common
  import opened Digits
  import opened DigitArithmetic
  import opened Rounding

  /**
   * The lower boundary is LowF * 2^(e - shift), the upper one HighF * 2^(e - 1): half a unit below, or a quarter if the
   * predecessor is closer (shift 2), and half a unit above.
   */
  ghost function LowF(f: nat, shift: nat): nat
    requires f > 0
  {
    MulPositive(f, Pow(2, shift));
    Product(f, Pow(2, shift)) - 1
  }

  function HighF(f: nat): nat {
    2 * f + 1
  }

  /** How far m * 10^k is above the lower boundary, and below the upper one. */
  ghost function AboveLow(f: nat, e: int, shift: nat, k: int, m: int): int
    requires f > 0
  {
    m * Den(e - shift, k) - Num(LowF(f, shift), e - shift, k)
  }

  ghost function BelowHigh(f: nat, e: int, k: int, m: int): int {
    Num(HighF(f), e - 1, k) - m * Den(e - 1, k)
  }

  /** Strictly between two ends, or on one that belongs to the interval. */
  predicate Inside(above: int, below: int, lowEnd: bool, highEnd: bool) {
    (above > 0 || (above == 0 && lowEnd)) && (below > 0 || (below == 0 && highEnd))
  }

  /** m * 10^k lies in the interval, whose ends belong to it exactly when f is even. */
  ghost predicate Within(f: nat, e: int, shift: nat, k: int, m: int)
    requires f > 0
  {
    Inside(AboveLow(f, e, shift, k, m), BelowHigh(f, e, k, m), f % 2 == 0, f % 2 == 0)
  }

  /**
   * Whether the digit loop sees that a number is the lower boundary itself: not when the division has given the
   * remainder more digits than the margin has, because the comparison puts the longer of two equal numbers above.
   */
  predicate LowEndSeen(f: nat, e: int, x: int) {
    f % 2 == 0 && !(e >= 0 && x / 32 < e / 32)
  }

  /** m * 10^k lies in the interval as the digit loop sees it when the first digit stands for 10^x. */
  ghost predicate Accepted(f: nat, e: int, shift: nat, x: int, k: int, m: int)
    requires f > 0
  {
    Inside(AboveLow(f, e, shift, k, m), BelowHigh(f, e, k, m), LowEndSeen(f, e, x), f % 2 == 0)
  }

  function Abs(x: int): nat {
    if x < 0 then -x else x
  }

  /** How far m * 10^k is from the value. */
  ghost function Distance(f: nat, e: int, k: int, m: int): nat {
    Abs(m * Den(e, k) - Num(f, e, k))
  }

  /** No number of the same place in the interval is nearer; of two equally near ones it is the even one. */
  ghost predicate Closest(f: nat, e: int, shift: nat, x: int, k: int, c: int)
    requires f > 0
  {
    forall m :: Accepted(f, e, shift, x, k, m) ==>
      Distance(f, e, k, c) < Distance(f, e, k, m) || m == c ||
      (Distance(f, e, k, c) == Distance(f, e, k, m) && c % 2 == 0)
  }

  /** No number counted in a larger unit, up to the first digit's, lies in the interval. */
  ghost predicate NoneAbove(f: nat, e: int, shift: nat, x: int, k: int)
    requires f > 0
  {
    forall j, m :: k < j <= x ==> !Accepted(f, e, shift, x, j, m)
  }

  // ---- The boundaries in terms of the big integers ----

  lemma {:induction false} PowTwoStep(a: nat)
    requires a > 0
    ensures Pow(2, a) == 2 * Pow(2, a - 1)
  {
  }

  lemma {:induction false} BinaryStep(f: nat, e: int, k: int)
    ensures e >= 1 ==> Num(f, e, k) == 2 * Num(f, e - 1, k) && Den(e, k) == Den(e - 1, k)
    ensures e < 1 ==> Num(f, e, k) == Num(f, e - 1, k) && Den(e - 1, k) == 2 * Den(e, k)
  {
    if e >= 1 {
      PowTwoStep(e);
      Associate(f, 2, Pow(2, e - 1));
      Associate(2, Product(f, Pow(2, e - 1)), Pow(10, Pos(-k)));
    } else {
      PowTwoStep(Pos(-e) + 1);
      assert Pos(-(e - 1)) == Pos(-e) + 1;
      Associate(2, Pow(2, Pos(-e)), Pow(10, Pos(k)));
    }
  }

  /** Half of the numerator stands for half of the value. */
  lemma {:induction false} Halved(v: nat, w: nat, f: nat, e: int, k: int)
    requires Represents(2 * v, w, f, e, k)
    ensures Represents(v, w, f, e - 1, k)
  {
    BinaryStep(f, e, k);
    if e >= 1 {
      Associate(2, v, Den(e, k));
      Associate(w, 2, Num(f, e - 1, k));
      HalfEqual(v * Den(e, k), w * Num(f, e - 1, k));
    } else {
      Associate(v, 2, Den(e, k));
      Associate(2, v, Den(e, k));
    }
  }

  lemma {:induction false} HalfEqual(a: int, b: int)
    requires 2 * a == 2 * b
    ensures a == b
  {
  }

  lemma {:induction false} HalvedTimes(v: nat, w: nat, f: nat, e: int, k: int, s: nat)
    requires Represents(Pow(2, s) * v, w, f, e, k)
    ensures Represents(v, w, f, e - s, k)
    decreases s
  {
    if s > 0 {
      Associate(2, Pow(2, s - 1), v);
      MulPositive(Pow(2, s - 1), v);
      Halved(Pow(2, s - 1) * v, w, f, e, k);
      HalvedTimes(v, w, f, e - 1, k, s - 1);
    } else {
      assert Pow(2, 0) * v == v;
    }
  }

  lemma {:induction false} NumTimes(c: nat, f: nat, e: int, k: int)
    ensures Num(c * f, e, k) == c * Num(f, e, k)
  {
    MulPositive(c, f);
    Associate(c, f, Pow(2, Pos(e)));
    Associate(c, Product(f, Pow(2, Pos(e))), Pow(10, Pos(-k)));
  }

  /** One unit of the significand, taken c times. */
  lemma {:induction false} Multiple(c: nat, v: nat, w: nat, e: int, k: int)
    requires Represents(v, w, 1, e, k)
    ensures Represents(c * v, w, c, e, k)
  {
    NumTimes(c, 1, e, k);
    Associate(c, v, Den(e, k));
    Associate(w, c, Num(1, e, k));
    Associate(c, w, Num(1, e, k));
    MulPositive(c, v);
  }

  /** And back. */
  lemma {:induction false} OneUnit(f: nat, v: nat, w: nat, e: int, k: int)
    requires f > 0 && Represents(f * v, w, f, e, k)
    ensures Represents(v, w, 1, e, k)
  {
    NumTimes(f, 1, e, k);
    assert f * 1 == f;
    Associate(f, v, Den(e, k));
    Associate(w, f, Num(1, e, k));
    CancelEqual(v * Den(e, k), w * Num(1, e, k), f);
  }

  /** The remainder that lower and upper stand for, as boundaries. */
  lemma {:induction false} BoundariesRepresented(v0: nat, w: nat, low: nat, f: nat, e: int, shift: nat, x: int)
    requires f > 0 && 1 <= shift && Represents(v0, w, f, e, x) && v0 == Product(f, Pow(2, shift)) * low
    ensures low <= v0 && Represents(v0 - low, w, LowF(f, shift), e - shift, x)
    ensures Represents(v0 + Pow(2, shift - 1) * low, w, HighF(f), e - 1, x)
  {
    MulPositive(f, Pow(2, shift));
    Associate(f, Pow(2, shift), low);
    MulPositive(Pow(2, shift), low);
    OneUnit(f, Pow(2, shift) * low, w, e, x);
    HalvedTimes(low, w, 1, e, x, shift);
    Multiple(LowF(f, shift), low, w, e - shift, x);
    DistributesRight(Product(f, Pow(2, shift)), -1, low);
    MulPositive(LowF(f, shift), low);
    HighRepresented(v0, w, low, f, e, shift, x);
  }

  lemma {:induction false} HighRepresented(v0: nat, w: nat, low: nat, f: nat, e: int, shift: nat, x: int)
    requires 1 <= shift && v0 == Product(f, Pow(2, shift)) * low
    requires Represents(Pow(2, shift) * low, w, 1, e, x)
    ensures Represents(v0 + Pow(2, shift - 1) * low, w, HighF(f), e - 1, x)
  {
    var up := Pow(2, shift - 1) * low;
    MulPositive(Pow(2, shift - 1), low);
    PowTwoStep(shift);
    Associate(2, Pow(2, shift - 1), low);
    Halved(up, w, 1, e, x);
    Multiple(HighF(f), up, w, e - 1, x);
    Associate(f, Pow(2, shift), low);
    Associate(f, 2, up);
    DistributesRight(2 * f, 1, up);
  }

  // ---- Comparing with them ----

  /** Which of two numbers is larger, told from a fraction of the same value. */
  lemma {:induction false} SameOrder(m: int, v: int, w: int, num: int, den: int)
    requires w > 0 && den > 0 && v * den == w * num
    ensures m * w - v >= 0 <==> m * den - num >= 0
    ensures m * w - v > 0 <==> m * den - num > 0
  {
    DistributesRight(m * w, -v, den);
    Distributes(w, m * den, -num);
    Associate(m, w, den);
    Associate(w, m, den);
    assert (m * w - v) * den == w * (m * den - num);
    SameSign(m * w - v, den, w, m * den - num);
  }

  lemma {:induction false} SameSign(a: int, d: int, w: int, b: int)
    requires d > 0 && w > 0 && a * d == w * b
    ensures a >= 0 <==> b >= 0
    ensures a > 0 <==> b > 0
  {
    SignOfProduct(a, d);
    SignOfProduct(b, w);
  }

  lemma {:induction false} SignOfProduct(a: int, d: int)
    requires d > 0
    ensures a >= 0 <==> a * d >= 0
    ensures a > 0 <==> a * d > 0
  {
    if a > 0 {
      MulLe(1, a, d);
    } else if a < 0 {
      MulLe(a, -1, d);
    }
  }

  /** m against a fraction v / w of ten to the k, told from the fraction with i more places. */
  lemma {:induction false} OrderAtPlace(v: nat, w: nat, g: nat, e: int, x: int, i: nat, m: int)
    requires Represents(v, w, g, e, x)
    ensures m * w - Pow(10, i) * v >= 0 <==> m * Den(e, x - i) - Num(g, e, x - i) >= 0
    ensures m * w - Pow(10, i) * v > 0 <==> m * Den(e, x - i) - Num(g, e, x - i) > 0
  {
    SmallerUnits(v, w, g, e, x, i);
    SameOrder(m, Pow(10, i) * v, w, Num(g, e, x - i), Den(e, x - i));
  }

  lemma {:induction false} LowIs(v0: nat, w: nat, low: nat, f: nat, e: int, shift: nat, x: int, i: nat, m: int)
    requires f > 0 && 1 <= shift && Represents(v0, w, f, e, x) && v0 == Product(f, Pow(2, shift)) * low
    ensures AboveLow(f, e, shift, x - i, m) >= 0 <==> m * w - (Pow(10, i) * v0 - Pow(10, i) * low) >= 0
    ensures AboveLow(f, e, shift, x - i, m) > 0 <==> m * w - (Pow(10, i) * v0 - Pow(10, i) * low) > 0
  {
    BoundariesRepresented(v0, w, low, f, e, shift, x);
    OrderAtPlace(v0 - low, w, LowF(f, shift), e - shift, x, i, m);
    Difference(Pow(10, i), v0, low);
  }

  lemma {:induction false} Difference(p: int, a: int, b: int)
    ensures p * (a - b) == p * a - p * b
  {
    Distributes(p, a - b, b);
  }

  lemma {:induction false} HighIs(v0: nat, w: nat, low: nat, up: nat, f: nat, e: int, shift: nat, x: int, i: nat,
                                  m: int)
    requires f > 0 && 1 <= shift && Represents(v0, w, f, e, x) && v0 == Product(f, Pow(2, shift)) * low
    requires up == Pow(2, shift - 1) * low
    ensures BelowHigh(f, e, x - i, m) >= 0 <==> Pow(10, i) * v0 + Pow(10, i) * up - m * w >= 0
    ensures BelowHigh(f, e, x - i, m) > 0 <==> Pow(10, i) * v0 + Pow(10, i) * up - m * w > 0
  {
    BoundariesRepresented(v0, w, low, f, e, shift, x);
    OrderAtPlace(v0 + up, w, HighF(f), e - 1, x, i, m);
    Distributes(Pow(10, i), v0, up);
  }

  // ---- One step of the digit loop ----

  lemma {:induction false} AcceptedIs(v0: nat, w: nat, low: nat, up: nat, f: nat, e: int, shift: nat, x: int, i: nat,
                                      m: int)
    requires f > 0 && 1 <= shift && Represents(v0, w, f, e, x) && v0 == Product(f, Pow(2, shift)) * low
    requires up == Pow(2, shift - 1) * low
    ensures Accepted(f, e, shift, x, x - i, m) <==>
            Inside(m * w - (Pow(10, i) * v0 - Pow(10, i) * low), Pow(10, i) * v0 + Pow(10, i) * up - m * w,
                   LowEndSeen(f, e, x), f % 2 == 0)
  {
    LowIs(v0, w, low, f, e, shift, x, i, m);
    HighIs(v0, w, low, up, f, e, shift, x, i, m);
  }

  /** What is left is at most the lower margin. */
  predicate IsLow(r: int, low: int, lowEnd: bool) {
    r < low || (r == low && lowEnd)
  }

  /** What is left with the upper margin reaches the next digit. */
  predicate IsHigh(r: int, up: int, w: int, highEnd: bool) {
    r + up > w || (r + up == w && highEnd)
  }

  lemma {:induction false} InsideIff(v: int, w: int, low: int, up: int, q: int, r: int, m: int, lowEnd: bool,
                                     highEnd: bool)
    requires v == q * w + r && 0 <= r < w && low > 0 && up > 0
    ensures m == q ==> (Inside(m * w - (v - low), v + up - m * w, lowEnd, highEnd) <==> IsLow(r, low, lowEnd))
    ensures m == q + 1 ==> (Inside(m * w - (v - low), v + up - m * w, lowEnd, highEnd) <==> IsHigh(r, up, w, highEnd))
    ensures m < q && Inside(m * w - (v - low), v + up - m * w, lowEnd, highEnd) ==> IsLow(r, low, lowEnd)
    ensures m > q + 1 && Inside(m * w - (v - low), v + up - m * w, lowEnd, highEnd) ==> IsHigh(r, up, w, highEnd)
  {
    DistributesRight(q, 1, w);
    if m < q {
      MulLe(m, q, w);
    } else if m > q + 1 {
      MulLe(q + 1, m, w);
    }
  }

  /** The digit the loop ends with: the next one if the quotient is too low, else rounded if both would do. */
  function Chosen(q: int, r: int, w: int, isLow: bool, isHigh: bool): int {
    if !isLow || (isHigh && (2 * r > w || (2 * r == w && q % 2 != 0))) then q + 1 else q
  }

  lemma {:induction false} HowFar(v: int, w: int, q: int, r: int, m: int)
    requires v == q * w + r && 0 <= r < w
    ensures m < q ==> Abs(m * w - v) >= r + w
    ensures m == q ==> Abs(m * w - v) == r
    ensures m == q + 1 ==> Abs(m * w - v) == w - r
    ensures m > q + 1 ==> Abs(m * w - v) >= 2 * w - r
  {
    DistributesRight(q, 1, w);
    if m < q {
      MulLe(m, q - 1, w);
      DistributesRight(q, -1, w);
    } else if m > q + 1 {
      MulLe(q + 2, m, w);
      DistributesRight(q, 2, w);
    }
  }

  lemma {:induction false} NoneNearer(v: int, w: int, low: int, up: int, q: int, r: int, m: int, lowEnd: bool,
                                      highEnd: bool)
    requires v == q * w + r && 0 <= r < w && low > 0 && up > 0
    requires Inside(m * w - (v - low), v + up - m * w, lowEnd, highEnd)
    ensures var c := Chosen(q, r, w, IsLow(r, low, lowEnd), IsHigh(r, up, w, highEnd));
            Abs(c * w - v) < Abs(m * w - v) || m == c || (Abs(c * w - v) == Abs(m * w - v) && c % 2 == 0)
  {
    InsideIff(v, w, low, up, q, r, m, lowEnd, highEnd);
    HowFar(v, w, q, r, m);
    HowFar(v, w, q, r, Chosen(q, r, w, IsLow(r, low, lowEnd), IsHigh(r, up, w, highEnd)));
  }

  lemma {:induction false} AbsProduct(a: int, d: nat)
    ensures Abs(a * d) == Abs(a) * d
  {
    SignOfProductAtLeast(a, d);
    DistributesRight(a, -a, d);
  }

  lemma {:induction false} SignOfProductAtLeast(a: int, d: nat)
    ensures a >= 0 ==> a * d >= 0
    ensures a <= 0 ==> a * d <= 0
  {
  }

  /** Distances keep their order when both are counted from another fraction of the same value. */
  lemma {:induction false} SameDistances(c: int, m: int, v: int, w: int, num: int, den: int)
    requires w > 0 && den > 0 && v * den == w * num
    ensures Abs(c * w - v) < Abs(m * w - v) <==> Abs(c * den - num) < Abs(m * den - num)
    ensures Abs(c * w - v) == Abs(m * w - v) <==> Abs(c * den - num) == Abs(m * den - num)
  {
    DistanceTimes(c, v, w, num, den);
    DistanceTimes(m, v, w, num, den);
    SameRatio(Abs(c * w - v), Abs(m * w - v), den, Abs(c * den - num), Abs(m * den - num), w);
  }

  lemma {:induction false} DistanceTimes(m: int, v: int, w: nat, num: int, den: nat)
    requires v * den == w * num
    ensures Abs(m * w - v) * den == Abs(m * den - num) * w
  {
    DistributesRight(m * w, -v, den);
    DistributesRight(m * den, -num, w);
    Associate(m, w, den);
    Associate(m, den, w);
    assert (m * w - v) * den == (m * den - num) * w;
    AbsProduct(m * w - v, den);
    AbsProduct(m * den - num, w);
  }

  lemma {:induction false} SameRatio(a: nat, b: nat, d: nat, a': nat, b': nat, w: nat)
    requires d > 0 && w > 0 && a * d == a' * w && b * d == b' * w
    ensures a < b <==> a' < b'
    ensures a == b <==> a' == b'
  {
    LessTimes(a, b, d);
    LessTimes(b, a, d);
    LessTimes(a', b', w);
    LessTimes(b', a', w);
  }

  lemma {:induction false} LessTimes(a: int, b: int, d: nat)
    requires d > 0
    ensures a < b <==> a * d < b * d
  {
    if a < b {
      MulLe(a + 1, b, d);
      DistributesRight(a, 1, d);
    } else {
      MulLe(b, a, d);
    }
  }

  // ---- The interval itself and the interval the loop sees ----

  lemma {:induction false} Doubled(v: nat, w: nat, f: nat, e: int, k: int)
    requires Represents(v, w, f, e - 1, k)
    ensures Represents(2 * v, w, f, e, k)
  {
    BinaryStep(f, e, k);
    if e >= 1 {
      Associate(2, v, Den(e, k));
      Associate(w, 2, Num(f, e - 1, k));
    } else {
      Associate(v, 2, Den(e, k));
      Associate(2, v, Den(e, k));
    }
  }

  lemma {:induction false} DoubledTimes(v: nat, w: nat, f: nat, e: int, k: int, s: nat)
    requires Represents(v, w, f, e - s, k)
    ensures Pow(2, s) * v >= 0 && Represents(Pow(2, s) * v, w, f, e, k)
    decreases s
  {
    if s > 0 {
      DoubledTimes(v, w, f, e - 1, k, s - 1);
      Doubled(Pow(2, s - 1) * v, w, f, e, k);
      Associate(2, Pow(2, s - 1), v);
    } else {
      assert Pow(2, 0) * v == v;
    }
  }

  lemma {:induction false} PositiveNum(e: int, k: int)
    ensures Num(1, e, k) > 0
  {
    MulPositive(1, Pow(2, Pos(e)));
    MulPositive(Product(1, Pow(2, Pos(e))), Pow(10, Pos(-k)));
  }

  /** The lower boundary is below the upper one. */
  lemma {:induction false} LowBelowHigh(f: nat, e: int, shift: nat, k: int, m: int)
    requires f > 0 && 1 <= shift && AboveLow(f, e, shift, k, m) == 0
    ensures BelowHigh(f, e, k, m) > 0
  {
    var w, low := Den(e - shift, k), Num(1, e - shift, k);
    PositiveNum(e - shift, k);
    DoubledTimes(low, w, 1, e, k, shift);
    Multiple(f, Pow(2, shift) * low, w, e, k);
    Associate(f, Pow(2, shift), low);
    var v0, up := Product(f, Pow(2, shift)) * low, Pow(2, shift - 1) * low;
    MulLe(1, Pow(2, shift - 1), low);
    LowIs(v0, w, low, f, e, shift, k, 0, m);
    HighIs(v0, w, low, up, f, e, shift, k, 0, m);
    assert Pow(10, 0) * v0 == v0 && Pow(10, 0) * low == low && Pow(10, 0) * up == up;
  }

  /** A multiple of a power of ten is a multiple of every smaller one. */
  lemma {:induction false} FinerMultiple(f: nat, e: int, shift: nat, j: int, k: int, m: int) returns (m': int)
    requires f > 0 && k <= j && AboveLow(f, e, shift, j, m) == 0
    ensures AboveLow(f, e, shift, k, m') == 0
    decreases j - k
  {
    if k == j {
      m' := m;
    } else {
      UnitStep(LowF(f, shift), e - shift, j - 1);
      Associate(m, 10, Den(e - shift, j - 1));
      Associate(10, m, Den(e - shift, j));
      m' := FinerMultiple(f, e, shift, j - 1, k, 10 * m);
    }
  }

  /** The lower boundary is a multiple of 10^k. */
  ghost predicate LowIsMultiple(f: nat, e: int, shift: nat, k: int)
    requires f > 0
  {
    Num(LowF(f, shift), e - shift, k) % Den(e - shift, k) == 0
  }

  lemma {:induction false} DividesIff(n: nat, d: nat, m: int)
    requires d > 0
    ensures m * d == n ==> n % d == 0
    ensures n % d == 0 ==> (n / d) * d == n
  {
    var q, r := n / d, n % d;
    DivModUnique(n, d, q, r);
    if m * d == n {
      DistributesRight(m, -q, d);
      NoRemainder(m - q, d, r);
    }
  }

  lemma {:induction false} NoRemainder(k: int, d: int, r: int)
    requires k * d == r && 0 <= r < d
    ensures r == 0
  {
    if k >= 1 {
      MulLe(1, k, d);
    } else {
      SignOfProductAtLeast(k, d);
    }
  }

  lemma {:induction false} MultipleIff(f: nat, e: int, shift: nat, k: int, m: int)
    requires f > 0
    ensures AboveLow(f, e, shift, k, m) == 0 ==> LowIsMultiple(f, e, shift, k)
    ensures LowIsMultiple(f, e, shift, k) ==>
              AboveLow(f, e, shift, k, Num(LowF(f, shift), e - shift, k) / Den(e - shift, k)) == 0
  {
    DividesIff(Num(LowF(f, shift), e - shift, k), Den(e - shift, k), m);
  }

  /** No number with fewer digits is in the interval proper, except for a lower boundary that the loop does not see. */
  lemma {:induction false} TrulyShortestIff(f: nat, e: int, shift: nat, x: int, k: int)
    requires f > 0 && 1 <= shift && NoneAbove(f, e, shift, x, k)
    ensures (forall j, m :: k < j <= x ==> !Within(f, e, shift, j, m)) <==>
            !(f % 2 == 0 && e >= 0 && x / 32 < e / 32 && k < x && LowIsMultiple(f, e, shift, k + 1))
  {
    forall j, m | k < j <= x && Within(f, e, shift, j, m)
      ensures f % 2 == 0 && e >= 0 && x / 32 < e / 32 && k < x && LowIsMultiple(f, e, shift, k + 1)
    {
      assert !Accepted(f, e, shift, x, j, m);
      var m' := FinerMultiple(f, e, shift, j, k + 1, m);
      MultipleIff(f, e, shift, k + 1, m');
    }
    if f % 2 == 0 && k < x && LowIsMultiple(f, e, shift, k + 1) {
      var m := Num(LowF(f, shift), e - shift, k + 1) / Den(e - shift, k + 1);
      MultipleIff(f, e, shift, k + 1, m);
      LowBelowHigh(f, e, shift, k + 1, m);
      assert Within(f, e, shift, k + 1, m);
    }
  }

  // ---- Reading back ----

  /** Twice the distance from f, in units of the divisor, on either scale. */
  lemma {:induction false} DoubleDistance(f: nat, e: int, k: int, m: int)
    requires f > 0
    ensures var x, unit := 2 * (m * Den(e, k) - f * Num(1, e, k)), Num(1, e, k);
            || (AboveLow(f, e, 1, k, m) == x + unit && BelowHigh(f, e, k, m) == unit - x)
            || (2 * AboveLow(f, e, 1, k, m) == x + unit && 2 * BelowHigh(f, e, k, m) == unit - x)
  {
    assert Pow(2, 1) == 2;
    NumTimes(LowF(f, 1), 1, e - 1, k);
    NumTimes(HighF(f), 1, e - 1, k);
    assert LowF(f, 1) * 1 == LowF(f, 1) && HighF(f) * 1 == HighF(f);
    BinaryStep(1, e, k);
    DistributesRight(2 * f, -1, Num(1, e - 1, k));
    DistributesRight(2 * f, 1, Num(1, e - 1, k));
    Associate(2, f, Num(1, e - 1, k));
    Associate(f, 2, Num(1, e - 1, k));
    Associate(m, 2, Den(e, k));
  }

  /** A number is in the interval exactly when it is f, rounded half to even, in units of the last place. */
  lemma {:induction false} WithinIsReadBack(f: nat, e: int, k: int, m: int)
    requires f > 0
    ensures Within(f, e, 1, k, m) <==> RoundsHalfEven(m * Den(e, k), Num(1, e, k), f)
  {
    DoubleDistance(f, e, k, m);
  }

  /**
   * With a closer predecessor, whose distance is half a unit: exactly when it is 2 * f in half units if it is at most
   * the value, and f in whole units if it is at least the value. (The significand is then a power of two.)
   */
  lemma {:induction false} WithinIsReadBackCloser(f: nat, e: int, k: int, m: int)
    requires f > 0 && f % 2 == 0
    ensures Within(f, e, 2, k, m) <==>
            if m * Den(e, k) <= f * Num(1, e, k) then RoundsHalfEven(m * Den(e - 1, k), Num(1, e - 1, k), 2 * f)
            else RoundsHalfEven(m * Den(e, k), Num(1, e, k), f)
  {
    SameLow(f, e, k, m);
    DoubleDistance(f, e, k, m);
    DoubleDistance(2 * f, e - 1, k, m);
    SameSide(f, e, k, m);
    PositiveNum(e, k);
    PositiveNum(e - 1, k);
    EitherSide(AboveLow(f, e, 2, k, m), BelowHigh(f, e, k, m), m * Den(e, k), Num(1, e, k), f,
               m * Den(e - 1, k), Num(1, e - 1, k));
  }

  /** The same on plain numbers: v / unit is the number in whole units, v' / unit' in half units. */
  lemma {:induction false} EitherSide(above: int, below: int, v: int, unit: int, f: int, v': int, unit': int)
    requires unit > 0 && unit' > 0 && f % 2 == 0
    requires var x := v' - 2 * f * unit'; above == 2 * x + unit' || 2 * above == 2 * x + unit'
    requires var x := v - f * unit; below == unit - 2 * x || 2 * below == unit - 2 * x
    requires var x, y := v - f * unit, v' - 2 * f * unit'; x == y || 2 * x == y
    ensures Inside(above, below, true, true) <==>
            if v <= f * unit then RoundsHalfEven(v', unit', 2 * f) else RoundsHalfEven(v, unit, f)
  {
    EvenPlus(f, 0);
  }

  /** Half a unit below on the finer scale is a quarter below on the coarser one. */
  lemma {:induction false} SameLow(f: nat, e: int, k: int, m: int)
    requires f > 0
    ensures AboveLow(f, e, 2, k, m) == AboveLow(2 * f, e - 1, 1, k, m)
  {
    assert Pow(2, 1) == 2 && Pow(2, 2) == 4;
    assert LowF(f, 2) == LowF(2 * f, 1);
  }

  lemma {:induction false} SameSide(f: nat, e: int, k: int, m: int)
    ensures var x, y := m * Den(e, k) - f * Num(1, e, k), m * Den(e - 1, k) - (2 * f) * Num(1, e - 1, k);
            x == y || 2 * x == y
  {
    BinaryStep(1, e, k);
    Associate(2, f, Num(1, e - 1, k));
    Associate(f, 2, Num(1, e - 1, k));
    Associate(m, 2, Den(e, k));
  }
}
