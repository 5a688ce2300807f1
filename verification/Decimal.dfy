/** Decimal text of unsigned integers: counting digits, printing and parsing. */
module Decimal {
  import opened Common
  import opened Digits
  import opened DigitArithmetic
  import opened Rounding

  const INT_MAX: nat := 0x7FFF_FFFF

  /** The decimal text of n without leading zeros. */
  function Text(n: nat): (s: seq<char>)
    ensures |s| > 0
  {
    if n < 10 then [DigitChar(n)] else Text(n / 10) + [DigitChar(n % 10)]
  }

  lemma {:induction false} TextIsDecimal(n: nat)
    ensures DecVal(Text(n)) == n && AllDigits(Text(n))
    ensures n > 0 ==> Text(n)[0] != '0'
  {
    if n < 10 {
      assert Text(n)[..0] == [];
    } else {
      TextIsDecimal(n / 10);
      assert Text(n)[..|Text(n)| - 1] == Text(n / 10);
    }
  }

  /** How the length of the text locates the number between powers of ten. */
  lemma {:induction false} TextLength(n: nat)
    ensures n < Pow(10, |Text(n)|)
    ensures n > 0 ==> Pow(10, |Text(n)| - 1) <= n
  {
    if n >= 10 {
      TextLength(n / 10);
    }
  }

  lemma {:induction false} LengthIs(n: nat, k: nat)
    requires k > 0 && n < Pow(10, k) && (k == 1 || Pow(10, k - 1) <= n)
    ensures |Text(n)| == k
    decreases n
  {
    if n >= 10 {
      assert k > 1;
      LengthIs(n / 10, k - 1);
    } else if k > 1 {
      AtLeastTen(k);
    }
  }

  lemma {:induction false} AtLeastTen(k: nat)
    requires k > 1
    ensures Pow(10, k - 1) >= 10
  {
  }

  // ---- Counting digits ----

  lemma {:induction false} FourMore(n: nat)
    requires n >= 10000
    ensures |Text(n)| == 4 + |Text(n / 10000)|
  {
    assert |Text(n)| == 2 + |Text(n / 10 / 10)|;
    assert |Text(n / 10 / 10)| == 2 + |Text(n / 10 / 10 / 10 / 10)|;
    assert n / 10 / 10 / 10 / 10 == n / 10000;
  }

  lemma {:induction false} Few(n: nat)
    requires n < 10000
    ensures |Text(n)| == if n < 10 then 1 else if n < 100 then 2 else if n < 1000 then 3 else 4
  {
    if n >= 100 {
      assert |Text(n)| == 2 + |Text(n / 10 / 10)|;
    }
  }

  method CountDigitsFallback(n: nat) returns (count: nat)
    ensures count == |Text(n)|
  {
    count := 1;
    var rest := n;
    while true
      invariant count - 1 + |Text(rest)| == |Text(n)|
      decreases rest
    {
      if rest < 10000 {
        Few(rest);
      }
      if rest < 10 { return; }
      if rest < 100 { return count + 1; }
      if rest < 1000 { return count + 2; }
      if rest < 10000 { return count + 3; }
      FourMore(rest);
      rest := rest / 10000;
      count := count + 4;
    }
  }

  /** The index of the highest set bit. */
  function Bsr(n: nat): nat
    requires n > 0
  {
    if n == 1 then 0 else 1 + Bsr(n / 2)
  }

  /** The first index of the digit-count table whose entry is t. */
  function Start(t: nat): nat {
    if t <= 1 then 0 else if t == 2 then 3 else if t == 3 then 6 else if t == 4 then 9 else if t == 5 then 13
    else if t == 6 then 16 else if t == 7 then 19 else if t == 8 then 23 else if t == 9 then 26
    else if t == 10 then 29 else if t == 11 then 33 else if t == 12 then 36 else if t == 13 then 39
    else if t == 14 then 43 else if t == 15 then 46 else if t == 16 then 49 else if t == 17 then 53
    else if t == 18 then 56 else if t == 19 then 59 else if t == 20 then 63 else 64
  }

  /** The table from highest bit to largest digit count: each run of equal entries t ends where the next begins. */
  function BsrToLog10(b: nat): (t: nat)
    requires b < 64
    ensures 1 <= t <= 20 && Start(t) <= b < Start(t + 1)
  {
    if b < 3 then 1 else if b < 6 then 2 else if b < 9 then 3 else if b < 13 then 4 else if b < 16 then 5
    else if b < 19 then 6 else if b < 23 then 7 else if b < 26 then 8 else if b < 29 then 9 else if b < 33 then 10
    else if b < 36 then 11 else if b < 39 then 12 else if b < 43 then 13 else if b < 46 then 14 else if b < 49 then 15
    else if b < 53 then 16 else if b < 56 then 17 else if b < 59 then 18 else if b < 63 then 19 else 20
  }

  function TenTo(n: nat): (p: nat)
    ensures p == Pow(10, n)
  {
    if n == 0 then 1 else 10 * TenTo(n - 1)
  }

  function ZeroOrPowerOf10(t: nat): nat {
    if t < 2 then 0 else TenTo(t - 1)
  }

  /** From entry t on, where two = 2^Start(t) and ten = 10^t, every run of the table lies between its powers of ten. */
  predicate RunsFit(t: nat, two: nat, ten: nat)
    decreases 20 - t
  {
    && (t >= 3 ==> ten <= 100 * two)
    && (t >= 20 || (
          var width := if t > 1 && t % 3 == 1 then 16 else 8;
          two * width <= ten && RunsFit(t + 1, two * width, 10 * ten)))
  }

  lemma {:induction false} LongNumbersFit()
    ensures RunsFit(11, 0x200000000, 100000000000)
  {
    assert RunsFit(19, 0x800000000000000, 10000000000000000000);
    assert RunsFit(17, 0x20000000000000, 100000000000000000);
    assert RunsFit(15, 0x400000000000, 1000000000000000);
    assert RunsFit(13, 0x8000000000, 10000000000000);
  }

  lemma {:induction false} TableFits()
    ensures RunsFit(1, 1, 10)
  {
    LongNumbersFit();
    assert RunsFit(9, 0x4000000, 1000000000);
    assert RunsFit(7, 0x80000, 10000000);
    assert RunsFit(5, 0x2000, 100000);
    assert RunsFit(3, 0x40, 1000);
  }

  lemma {:induction false} RunsFitAt(t: nat, target: nat)
    requires 1 <= t <= target <= 20 && RunsFit(t, TwoTo(Start(t)), TenTo(t))
    ensures RunsFit(target, TwoTo(Start(target)), TenTo(target))
    decreases target - t
  {
    if t < target {
      TwoToNext(t);
      RunsFitAt(t + 1, target);
    }
  }

  lemma {:induction false} TwoToNext(t: nat)
    requires 1 <= t < 20
    ensures TwoTo(Start(t + 1)) == TwoTo(Start(t)) * (if t > 1 && t % 3 == 1 then 16 else 8)
  {
    StartStep(t);
    if t > 1 && t % 3 == 1 {
      TwoToPlus(Start(t), 4);
      assert TwoTo(4) == 16;
    } else {
      TwoToPlus(Start(t), 3);
      assert TwoTo(3) == 8;
    }
  }

  lemma {:induction false} StartStep(t: nat)
    requires 1 <= t < 20
    ensures Start(t + 1) == Start(t) + if t > 1 && t % 3 == 1 then 4 else 3
  {
  }

  lemma {:induction false} TwoToPlus(a: nat, b: nat)
    ensures TwoTo(a + b) == TwoTo(a) * TwoTo(b)
  {
    PowAdd(2, a, b);
  }

  lemma {:induction false} BsrBounds(n: nat)
    requires n > 0
    ensures TwoTo(Bsr(n)) <= n < 2 * TwoTo(Bsr(n))
  {
    if n > 1 {
      BsrBounds(n / 2);
    }
  }

  lemma {:induction false} TwoToMonotone(a: nat, b: nat)
    requires a <= b
    ensures TwoTo(a) <= TwoTo(b)
  {
    if a < b {
      TwoToMonotone(a, b - 1);
    }
  }

  lemma {:induction false} BsrBelow64(n: nat)
    requires 0 < n < WORD64
    ensures Bsr(n) < 64
  {
    BsrBounds(n);
    TwoTo64();
    if Bsr(n) >= 64 {
      TwoToMonotone(64, Bsr(n));
    }
  }

  lemma {:induction false} TwoTo64()
    ensures TwoTo(64) == WORD64
  {
    TwoTo32();
    PowAdd(2, 32, 32);
  }

  /** n with its lowest bit set. */
  function OrOne(n: nat): nat {
    if n % 2 == 0 then n + 1 else n
  }

  /** What the runs of the table mean for one entry. */
  lemma {:induction false} EntryFits(t: nat)
    requires 1 <= t <= 20
    ensures t >= 3 ==> TenTo(t - 2) <= TwoTo(Start(t))
    ensures t < 20 ==> TwoTo(Start(t + 1)) <= TenTo(t)
  {
    TableFits();
    RunsFitAt(1, t);
    if t < 20 {
      TwoToNext(t);
    }
    if t >= 3 {
      assert TenTo(t) == 10 * TenTo(t - 1) && TenTo(t - 1) == 10 * TenTo(t - 2);
    }
  }

  /** What the table promises for n: at most t digits, and no fewer than t - 1. */
  lemma {:induction false} LookupUpper(n: nat, b: nat, t: nat)
    requires n < WORD64 && n < 2 * TwoTo(b) && 1 <= t <= 20 && b < Start(t + 1)
    ensures n < TenTo(t)
  {
    if t < 20 {
      EntryFits(t);
      Doubled(b, Start(t + 1));
    } else {
      Pow10To20();
    }
  }

  lemma {:induction false} LookupLower(n: nat, b: nat, t: nat)
    requires TwoTo(b) <= OrOne(n) && 3 <= t <= 20 && Start(t) <= b
    ensures TenTo(t - 2) <= n
  {
    EntryFits(t);
    TwoToMonotone(Start(t), b);
    EvenPower(t - 2);
    AtMostOrOne(n, TenTo(t - 2));
  }

  lemma {:induction false} AtMostOrOne(n: nat, p: nat)
    requires p % 2 == 0 && p <= OrOne(n)
    ensures p <= n
  {
  }

  lemma {:induction false} Doubled(a: nat, b: nat)
    requires a < b
    ensures 2 * TwoTo(a) <= TwoTo(b)
  {
    TwoToMonotone(a + 1, b);
  }

  lemma {:induction false} EvenPower(k: nat)
    requires k > 0
    ensures TenTo(k) % 2 == 0
  {
    assert TenTo(k) == 2 * (5 * TenTo(k - 1));
  }

  /** The table lookup is off by one exactly when n is below the power of ten the table names. */
  lemma {:induction false} LookupCorrect(n: nat)
    requires n < WORD64
    ensures Bsr(OrOne(n)) < 64
    ensures var t := BsrToLog10(Bsr(OrOne(n))); |Text(n)| == if n < ZeroOrPowerOf10(t) then t - 1 else t
  {
    BsrBelow64(OrOne(n));
    var t := BsrToLog10(Bsr(OrOne(n)));
    BsrBounds(OrOne(n));
    LookupUpper(n, Bsr(OrOne(n)), t);
    if t >= 3 {
      LookupLower(n, Bsr(OrOne(n)), t);
    }
    if n < ZeroOrPowerOf10(t) {
      LengthIs(n, t - 1);
    } else {
      LengthIs(n, t);
    }
  }

  lemma {:induction false} Pow10To20()
    ensures TenTo(20) >= WORD64
  {
    assert TenTo(10) == 10000000000;
    PowAdd(10, 10, 10);
  }

  /** The table-driven digit count used for 64-bit values. */
  method DoCountDigits(n: nat) returns (count: nat)
    requires n < WORD64
    ensures count == |Text(n)|
  {
    LookupCorrect(n);
    var t := BsrToLog10(Bsr(OrOne(n)));
    count := t - (if n < ZeroOrPowerOf10(t) then 1 else 0);
  }

  // ---- Printing and parsing ----

  /** The two characters the digit-pair table holds for v. */
  function Digits2(v: nat): (s: seq<char>)
    requires v < 100
  {
    [DigitChar(v / 10), DigitChar(v % 10)]
  }

  lemma {:induction false} TextByPairs(v: nat)
    ensures v >= 100 ==> Text(v) == Text(v / 100) + Digits2(v % 100)
    ensures 10 <= v < 100 ==> Text(v) == Digits2(v)
  {
    if v >= 100 {
      assert Text(v) == Text(v / 10) + [DigitChar(v % 10)];
      assert Text(v / 10) == Text(v / 10 / 10) + [DigitChar(v / 10 % 10)];
      assert v / 10 / 10 == v / 100 && v / 10 % 10 == v % 100 / 10 && v % 10 == v % 100 % 10;
    }
  }

  /** Writes the digits of value, two at a time from the right, so that they end at out[size]. */
  method FormatDecimal(out: array<char>, value: nat, size: nat) returns (begin: nat, end: nat)
    requires |Text(value)| <= size <= out.Length
    modifies out
    ensures begin <= end == size && out[begin..end] == Text(value)
    ensures forall k :: 0 <= k < begin || size <= k < out.Length ==> out[k] == old(out[k])
  {
    end := size;
    begin := size;
    var v := value;
    while v >= 100
      invariant begin <= size && |Text(v)| <= begin
      invariant Text(value) == Text(v) + out[begin..size]
      invariant forall k :: 0 <= k < begin || size <= k < out.Length ==> out[k] == old(out[k])
    {
      TextByPairs(v);
      Regroup(Text(v / 100), Digits2(v % 100), out[begin..size]);
      begin := begin - 2;
      Copy2(out, begin, size, v % 100);
      v := v / 100;
    }
    TextByPairs(v);
    if v < 10 {
      begin := begin - 1;
      Copy1(out, begin, size, v);
      return;
    }
    begin := begin - 2;
    Copy2(out, begin, size, v);
  }

  method Copy1(out: array<char>, begin: nat, ghost size: nat, v: nat)
    requires begin + 1 <= size <= out.Length && v < 10
    modifies out
    ensures out[begin..size] == [DigitChar(v)] + old(out[begin + 1..size])
    ensures forall k :: 0 <= k < begin || size <= k < out.Length ==> out[k] == old(out[k])
  {
    out[begin] := DigitChar(v);
  }

  /** Puts the two digits of v in front of what is already printed. */
  method Copy2(out: array<char>, begin: nat, ghost size: nat, v: nat)
    requires begin + 2 <= size <= out.Length && v < 100
    modifies out
    ensures out[begin..size] == Digits2(v) + old(out[begin + 2..size])
    ensures forall k :: 0 <= k < begin || size <= k < out.Length ==> out[k] == old(out[k])
  {
    out[begin], out[begin + 1] := Digits2(v)[0], Digits2(v)[1];
  }

  predicate IsDigit(c: char) {
    '0' <= c <= '9'
  }

  /** The result on a run of digits: its value if it has at most ten digits and fits an int, else the error value. */
  function ParsedInt(run: seq<char>, errorValue: int): int {
    if |run| <= 10 && DecVal(run) <= INT_MAX then DecVal(run) else errorValue
  }

  lemma {:induction false} DecValBounds(s: seq<char>)
    requires AllDigits(s)
    ensures 0 <= DecVal(s) < Pow(10, |s|)
  {
    if s != [] {
      DecValBounds(s[..|s| - 1]);
    }
  }

  lemma {:induction false} WrapStep(x: int, d: int)
    ensures (10 * x + d) % BASE == ((x % BASE) * 10 + d) % BASE
  {
    var q := x / BASE;
    assert 10 * x + d == ((x % BASE) * 10 + d) + 10 * q * BASE;
  }

  /** Parses the digits from begin on, in 32-bit arithmetic that may wrap before the overflow test sees it. */
  method ParseNonnegativeInt(s: seq<char>, begin: nat, errorValue: int) returns (value: int, p: nat)
    requires begin < |s| && IsDigit(s[begin])
    ensures begin < p <= |s| && AllDigits(s[begin..p]) && (p < |s| ==> !IsDigit(s[p]))
    ensures p - begin <= 10 && DecVal(s[begin..p]) <= INT_MAX ==> value == DecVal(s[begin..p])
    ensures p - begin > 10 || DecVal(s[begin..p]) > INT_MAX ==> value == errorValue
    ensures value == ParsedInt(s[begin..p], errorValue)
  {
    var acc, prev := 0, 0;
    p := begin;
    while true
      invariant begin <= p < |s| && IsDigit(s[p]) && AllDigits(s[begin..p])
      invariant acc == DecVal(s[begin..p]) % BASE
      decreases |s| - p
    {
      ReadDigit(s, begin, p);
      prev := acc;
      acc := (acc * 10 + DigitValue(s[p])) % BASE;
      p := p + 1;
      if !(p != |s| && IsDigit(s[p])) {
        break;
      }
    }
    var numDigits := p - begin;
    assert s[begin..p][..numDigits - 1] == s[begin..p - 1];
    OverflowTest(s[begin..p], acc, prev);
    if numDigits <= 9 {
      return acc, p;
    }
    if numDigits == 10 && prev * 10 + DigitValue(s[p - 1]) <= INT_MAX {
      return acc, p;
    }
    return errorValue, p;
  }

  lemma {:induction false} ReadDigit(s: seq<char>, begin: nat, p: nat)
    requires begin <= p < |s| && IsDigit(s[p]) && AllDigits(s[begin..p])
    ensures AllDigits(s[begin..p + 1])
    ensures DecVal(s[begin..p + 1]) == 10 * DecVal(s[begin..p]) + DigitValue(s[p])
    ensures DecVal(s[begin..p + 1]) % BASE == ((DecVal(s[begin..p]) % BASE) * 10 + DigitValue(s[p])) % BASE
  {
    assert s[begin..p + 1] == s[begin..p] + [s[p]];
    assert s[begin..p + 1][..p - begin] == s[begin..p];
    WrapStep(DecVal(s[begin..p]), DigitValue(s[p]));
  }

  /** Why the test on the last step is enough: nine digits never wrap, and ten are tested before they can. */
  lemma {:induction false} OverflowTest(run: seq<char>, acc: int, prev: int)
    requires run != [] && AllDigits(run)
    requires acc == DecVal(run) % BASE && prev == DecVal(run[..|run| - 1]) % BASE
    ensures |run| <= 9 ==> acc == DecVal(run) <= INT_MAX
    ensures |run| == 10 ==> prev * 10 + DigitValue(run[9]) == DecVal(run)
    ensures |run| == 10 && DecVal(run) <= INT_MAX ==> acc == DecVal(run)
  {
    DecValBounds(run);
    DecValBounds(run[..|run| - 1]);
    assert TenTo(9) == 1000000000;
    if |run| <= 9 {
      TenToMonotone(|run|, 9);
    }
  }

  lemma {:induction false} TenToMonotone(a: nat, b: nat)
    requires a <= b
    ensures Pow(10, a) <= Pow(10, b)
  {
    if a < b {
      TenToMonotone(a, b - 1);
    }
  }

  /** Printing and parsing back gives the value itself up to the largest int, and the error value above it. */
  lemma {:induction false} DecimalRoundTrip(v: nat, errorValue: int)
    ensures ParsedInt(Text(v), errorValue) == if v <= INT_MAX then v else errorValue
  {
    TextIsDecimal(v);
    TextLength(v);
    if |Text(v)| > 10 && v <= INT_MAX {
      TenDigits(|Text(v)| - 1);
    }
  }

  lemma {:induction false} ZerosFirst(zeros: seq<char>, digits: seq<char>)
    requires forall i :: 0 <= i < |zeros| ==> zeros[i] == '0'
    ensures DecVal(zeros + digits) == DecVal(digits)
    decreases |zeros| + |digits|
  {
    var n := |digits| - 1;
    if digits != [] {
      ZerosFirst(zeros, digits[..n]);
      assert (zeros + digits)[..|zeros| + n] == zeros + digits[..n];
    } else if zeros != [] {
      ZerosFirst(zeros[..|zeros| - 1], []);
      assert zeros + digits == zeros && zeros[..|zeros| - 1] + [] == zeros[..|zeros| - 1];
    }
  }

  /** Leading zeros do not change the value, but count among the ten digits that are allowed. */
  lemma {:induction false} LeadingZeros(zeros: seq<char>, v: nat, errorValue: int)
    requires forall i :: 0 <= i < |zeros| ==> zeros[i] == '0'
    ensures ParsedInt(zeros + Text(v), errorValue) ==
              if v <= INT_MAX && |zeros| + |Text(v)| <= 10 then v else errorValue
  {
    ZerosFirst(zeros, Text(v));
    TextIsDecimal(v);
  }

  lemma {:induction false} TenDigits(k: nat)
    requires k >= 10
    ensures Pow(10, k) > INT_MAX
    decreases k
  {
    if k > 10 {
      TenDigits(k - 1);
    } else {
      assert TenTo(10) == 10000000000;
    }
  }
}
