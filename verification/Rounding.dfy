/** What correctly rounded decimal output means, on integers: the value f * 2^e against powers of ten. */
module Rounding {
  import opened Digits
  import opened DigitArithmetic

  function Pos(x: int): nat {
    if x > 0 then x else 0
  }

  /** f * 2^e / 10^k is the fraction Num(f, e, k) / Den(e, k). */
  ghost function Num(f: nat, e: int, k: int): nat {
    Product(Product(f, Pow(2, Pos(e))), Pow(10, Pos(-k)))
  }

  ghost function Den(e: int, k: int): (d: nat)
    ensures d > 0
  {
    MulPositive(Pow(2, Pos(-e)), Pow(10, Pos(k)));
    Product(Pow(2, Pos(-e)), Pow(10, Pos(k)))
  }

  /** d is the integer nearest to num / den, and the even one of two equally near. */
  ghost predicate RoundsHalfEven(num: int, den: int, d: int) {
    && -den <= 2 * (num - d * den) <= den
    && (2 * (num - d * den) == den || 2 * (num - d * den) == -den ==> d % 2 == 0)
  }

  lemma {:induction false} NotTwo(num: int, den: int, a: int, b: int)
    requires den > 0 && RoundsHalfEven(num, den, a) && RoundsHalfEven(num, den, b)
    ensures a <= b
  {
    var x, y := a * den, b * den;
    DistributesRight(a, -b, den);
    assert (-b) * den == -y;
    if a - b >= 2 {
      MulLe(2, a - b, den);
    } else if a - b == 1 {
      assert x - y == den;
    }
  }

  /** At most one integer is that. */
  lemma {:induction false} RoundsToOne(num: int, den: int, a: int, b: int)
    requires den > 0 && RoundsHalfEven(num, den, a) && RoundsHalfEven(num, den, b)
    ensures a == b
  {
    NotTwo(num, den, a, b);
    NotTwo(num, den, b, a);
  }

  /** f * 2^e is (v / w) * 10^k: the invariant format_dragon states for its two big integers. */
  ghost predicate Represents(v: nat, w: nat, f: nat, e: int, k: int) {
    w > 0 && v * Den(e, k) == w * Num(f, e, k)
  }

  /** The same value counted in units ten times smaller. */
  lemma {:induction false} SmallerUnit(v: nat, w: nat, f: nat, e: int, k: int)
    requires Represents(v, w, f, e, k)
    ensures Represents(10 * v, w, f, e, k - 1)
  {
    UnitStep(f, e, k - 1);
    if k > 0 {
      Associate(v, 10, Den(e, k - 1));
    } else {
      Associate(10, v, Den(e, k));
      Associate(w, 10, Num(f, e, k));
    }
  }

  lemma {:induction false} UnitStep(f: nat, e: int, k: int)
    ensures k >= 0 ==> Den(e, k + 1) == 10 * Den(e, k) && Num(f, e, k + 1) == Num(f, e, k)
    ensures k < 0 ==> Den(e, k + 1) == Den(e, k) && Num(f, e, k) == 10 * Num(f, e, k + 1)
  {
    if k >= 0 {
      Associate(Pow(2, Pos(-e)), 10, Pow(10, k));
    } else {
      Associate(Product(f, Pow(2, Pos(e))), 10, Pow(10, -k - 1));
    }
  }

  lemma {:induction false} SmallerUnits(v: nat, w: nat, f: nat, e: int, k: int, n: nat)
    requires Represents(v, w, f, e, k)
    ensures Represents(Pow(10, n) * v, w, f, e, k - n)
  {
    if n > 0 {
      SmallerUnits(v, w, f, e, k, n - 1);
      SmallerUnit(Pow(10, n - 1) * v, w, f, e, k - (n - 1));
      Associate(10, Pow(10, n - 1), v);
    }
  }

  /** The same value counted in units ten times larger. */
  lemma {:induction false} LargerUnit(v: nat, w: nat, f: nat, e: int, k: int)
    requires Represents(v, w, f, e, k)
    ensures Represents(v, 10 * w, f, e, k + 1)
  {
    UnitStep(f, e, k);
    if k >= 0 {
      Associate(10, v, Den(e, k));
      Associate(10, w, Num(f, e, k));
      Associate(v, 10, Den(e, k));
    } else {
      Associate(w, 10, Num(f, e, k + 1));
    }
  }

  /** A value below 10^(k + 1) has a fraction below ten. */
  lemma {:induction false} BelowTen(v: nat, w: nat, f: nat, e: int, k: int)
    requires Represents(v, w, f, e, k) && Num(f, e, k + 1) < Den(e, k + 1)
    ensures v < 10 * w
  {
    LargerUnit(v, w, f, e, k);
    ProperFraction(v, 10 * w, Num(f, e, k + 1), Den(e, k + 1));
  }

  lemma {:induction false} ProperFraction(v: nat, w: nat, n: nat, d: nat)
    requires w > 0 && v * d == w * n && n < d
    ensures v < w
  {
    if v >= w {
      MulLe(w, v, d);
      MulLe(n + 1, d, w);
      DistributesRight(n, 1, w);
    }
  }

  /** Two fractions of equal value round to the same integer. */
  lemma {:induction false} SameFraction(a: int, b: int, c: int, d: int, n: int)
    requires b > 0 && d > 0 && a * d == b * c
    requires RoundsHalfEven(a, b, n)
    ensures RoundsHalfEven(c, d, n)
  {
    var x, y := a - n * b, c - n * d;
    assert x * d == b * y by {
      DistributesRight(a, -(n * b), d);
      Distributes(b, c, -(n * d));
      assert (n * b) * d == b * (n * d);
    }
    Scaled(2 * x, b, 2 * y, d);
  }

  lemma {:induction false} Scaled(x: int, b: int, y: int, d: int)
    requires b > 0 && d > 0 && x * d == b * y
    ensures x <= b ==> y <= d
    ensures x >= -b ==> y >= -d
    ensures y == d ==> x == b
    ensures y == -d ==> x == -b
  {
    ScaledAtMost(x, b, y, d);
    Negated(x, b, y, d);
    ScaledAtMost(-x, b, -y, d);
  }

  lemma {:induction false} Negated(x: int, b: int, y: int, d: int)
    requires x * d == b * y
    ensures (-x) * d == b * (-y)
  {
    DistributesRight(x, -x, d);
    Distributes(b, y, -y);
  }

  lemma {:induction false} ScaledAtMost(x: int, b: int, y: int, d: int)
    requires b > 0 && d > 0 && x * d == b * y
    ensures x <= b ==> y <= d
    ensures y == d ==> x == b
  {
    if x <= b && y > d {
      MulLe(x, b, d);
      MulLe(d + 1, y, b);
      DistributesRight(d, 1, b);
    }
    if y == d {
      CancelEqual(x, b, d);
    }
  }

  lemma {:induction false} CancelEqual(a: int, b: int, c: int)
    requires c > 0 && a * c == b * c
    ensures a == b
  {
    if a < b {
      MulLe(a + 1, b, c);
      DistributesRight(a, 1, c);
    } else if a > b {
      MulLe(b + 1, a, c);
      DistributesRight(b, 1, c);
    }
  }

  // ---- Decimal digit strings ----

  /** What a digit character counts for; ':' is the overflowed digit ten. */
  function DigitValue(c: char): int {
    c as int - '0' as int
  }

  function DecVal(s: seq<char>): int {
    if s == [] then 0 else 10 * DecVal(s[..|s| - 1]) + DigitValue(s[|s| - 1])
  }

  predicate AllDigits(s: seq<char>) {
    forall i :: 0 <= i < |s| ==> '0' <= s[i] <= '9'
  }

  function DigitChar(d: int): (c: char)
    requires 0 <= d <= 10
    ensures DigitValue(c) == d && '0' <= c <= ':'
  {
    ('0' as int + d) as char
  }

  lemma {:induction false} ReplaceDigitChar(s: seq<char>, i: nat, c: char)
    requires i < |s|
    ensures DecVal(s[i := c]) == DecVal(s) + (DigitValue(c) - DigitValue(s[i])) * Pow(10, |s| - 1 - i)
    decreases |s|
  {
    var n := |s| - 1;
    if i == n {
      assert s[i := c][..n] == s[..n];
    } else {
      ReplaceDigitChar(s[..n], i, c);
      assert s[i := c][..n] == s[..n][i := c];
      Associate(10, DigitValue(c) - DigitValue(s[i]), Pow(10, n - 1 - i));
    }
  }

  /** Moving a carry from position i to the position before it keeps the number. */
  lemma {:induction false} CarryKeepsValue(s: seq<char>, i: nat)
    requires 0 < i < |s| && s[i] == ':' && '0' <= s[i - 1] <= '9'
    ensures DecVal(s[i := '0'][i - 1 := DigitChar(DigitValue(s[i - 1]) + 1)]) == DecVal(s)
  {
    var t := s[i := '0'];
    ReplaceDigitChar(s, i, '0');
    ReplaceDigitChar(t, i - 1, DigitChar(DigitValue(s[i - 1]) + 1));
    assert Pow(10, |s| - 1 - (i - 1)) == 10 * Pow(10, |s| - 1 - i);
  }

  lemma {:induction false} LeadingDigit(s: seq<char>)
    requires |s| > 0
    requires forall j :: 0 < j < |s| ==> s[j] == '0'
    ensures DecVal(s) == DigitValue(s[0]) * Pow(10, |s| - 1)
  {
    if |s| > 1 {
      LeadingDigit(s[..|s| - 1]);
      Associate(10, DigitValue(s[0]), Pow(10, |s| - 2));
    } else {
      assert s[..0] == [];
    }
  }

  /** What is left over decides: at most half of the denominator either way, and an even number at the half. */
  lemma {:induction false} ByRemainder(num: int, den: int, d: int, rest: int)
    requires num == d * den + rest && -den <= 2 * rest <= den
    requires 2 * rest == den || 2 * rest == -den ==> d % 2 == 0
    ensures RoundsHalfEven(num, den, d)
  {
  }

  lemma {:induction false} EvenPlus(k: int, x: int)
    ensures (2 * k + x) % 2 == x % 2
  {
    var q, r := x / 2, x % 2;
    assert 2 * k + x == 2 * (k + q) + r;
  }

  lemma {:induction false} LastDigitParity(dec: int, digit: int)
    ensures (10 * dec + digit) % 2 == digit % 2
    ensures (10 * dec + digit + 1) % 2 == (digit + 1) % 2
  {
    EvenPlus(5 * dec, digit);
    EvenPlus(5 * dec, digit + 1);
    assert 2 * (5 * dec) == 10 * dec;
  }

  /** Rounding up past the half, or at the half from an odd digit, rounds half to even. */
  lemma {:induction false} RoundLastDigit(dec: int, digit: int, w: int, r: int)
    requires 0 <= r < w
    ensures var d := 10 * dec + digit;
            RoundsHalfEven(d * w + r, w, if 2 * r > w || (2 * r == w && digit % 2 != 0) then d + 1 else d)
  {
    var d := 10 * dec + digit;
    LastDigitParity(dec, digit);
    if 2 * r > w || (2 * r == w && digit % 2 != 0) {
      DistributesRight(d, 1, w);
      ByRemainder(d * w + r, w, d + 1, r - w);
    } else {
      ByRemainder(d * w + r, w, d, r);
    }
  }

  lemma {:induction false} RoundBelowOne(v: int, w: int)
    requires 0 <= v < w
    ensures RoundsHalfEven(v, w, if 2 * v > w then 1 else 0)
  {
  }
}
