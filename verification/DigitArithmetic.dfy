/** Facts about digit sequences behind the loops of the big integer: one lemma for each kind of step. */
module DigitArithmetic {
  import opened Common
  import opened Digits

  const HALF64: nat := 0x8000_0000_0000_0000

  /** One 64-bit subtraction of 32-bit digits, wrapping around; the top bit of the result is the next borrow. */
  function SubtractDigit(a: Bigit, other: Bigit, borrow: Bigit): (r: (Bigit, Bigit))
    requires borrow <= 1
    ensures r.1 <= 1
    ensures r.0 - BASE * r.1 == a - other - borrow
  {
    var result := (a - other - borrow) % WORD64;
    (result % BASE, result / HALF64)
  }

  /** Shifting two words down by half a word is dividing their number by 2^32. */
  lemma {:induction false} ShiftWords(lower: nat, upper: nat)
    requires lower < WORD64 && upper < WORD64
    ensures (upper * BASE) % WORD64 + lower / BASE < WORD64
    ensures ((upper * BASE) % WORD64 + lower / BASE) + WORD64 * (upper / BASE) == (lower + WORD64 * upper) / BASE
  {
    var q, r := upper / BASE, upper % BASE;
    RemainderOfWord(upper * BASE, q, r * BASE);
    QuotientOfSum(lower, upper);
  }

  lemma {:induction false} RemainderOfWord(x: nat, q: nat, y: nat)
    requires x == q * WORD64 + y && y < WORD64
    ensures x % WORD64 == y
  {
  }

  lemma {:induction false} QuotientOfSum(lower: nat, upper: nat)
    ensures (lower + WORD64 * upper) / BASE == lower / BASE + BASE * upper
  {
    assert lower + WORD64 * upper == BASE * (lower / BASE + BASE * upper) + lower % BASE;
  }

  /** The borrow of a comparison moved up by one digit, in 64 bits. */
  function MoveBorrow(borrow: nat): (r: nat)
    requires borrow <= 1
    ensures r == BASE * borrow
  {
    (borrow * BASE) % WORD64
  }

  /** A digit times v plus carry, split in two, keeps `done + carry * p == source * v` one digit further. */
  lemma {:induction false} MulStep(done: int, source: int, p: int, v: int, d: int, carry: int, lo: int, carry': int)
    requires done + carry * p == source * v
    requires lo + carry' * BASE == d * v + carry
    ensures (done + lo * p) + carry' * (BASE * p) == (source + d * p) * v
  {
    assert (lo + carry' * BASE) * p == lo * p + carry' * (BASE * p);
    assert (d * v + carry) * p == (d * p) * v + carry * p;
    assert (source + d * p) * v == source * v + (d * p) * v;
  }

  lemma {:induction false} SplitDigit(rest: nat, p: int)
    ensures rest * p == (rest % BASE) * p + (rest / BASE) * (BASE * p)
  {
    assert rest == rest % BASE + (rest / BASE) * BASE;
    assert (rest % BASE + (rest / BASE) * BASE) * p == (rest % BASE) * p + (rest / BASE) * (BASE * p);
  }

  /** Where subtract_aligned goes wrong: a borrow leaves the subtrahend's digits and meets a zero digit. */
  ghost predicate LosesBorrow(s: seq<Bigit>, t: seq<Bigit>, k: nat) {
    && k + |t| < |s|
    && s[k + |t|] == 0
    && Low(s, k + |t|) < Worth(t, k)
  }

  /** For example, when 1 is taken from 2^64: the borrow meets the zero digit in the middle. */
  lemma {:induction false} BorrowCanBeLost()
    ensures Val([0, 0, 1]) >= Worth([1], 0) && LosesBorrow([0, 0, 1], [1], 0)
  {
    assert P(2) == BASE * BASE;
    assert Low([0, 0, 1], 3) == Low([0, 0, 1], 2) + P(2);
    assert Low([0, 0, 1], 1) == 0 && Low([1], 1) == 1;
  }

  /** The digits below i of t, with a carry into position i, hold the digits below i of s times v. */
  ghost predicate Multiplied(t: seq<Bigit>, s: seq<Bigit>, i: nat, v: nat, carry: nat) {
    && i <= |s| == |t|
    && Low(t, i) + carry * P(i) == Low(s, i) * v
    && forall k :: i <= k < |s| ==> t[k] == s[k]
  }

  lemma {:induction false} Advance(t: seq<Bigit>, s: seq<Bigit>, i: nat, v: nat, carry: nat, d: Bigit, carry': nat)
    requires i < |s| && Multiplied(t, s, i, v, carry)
    requires d + carry' * BASE == s[i] * v + carry
    ensures Multiplied(t[i := d], s, i + 1, v, carry')
  {
    MulStep(Low(t, i), Low(s, i), P(i), v, s[i], carry, d, carry');
    LowAgree(t[i := d], t, i);
  }

  lemma {:induction false} MultipliedTop(t: seq<Bigit>, s: seq<Bigit>, v: nat, carry: nat)
    requires Multiplied(t, s, |s|, v, carry) && |s| > 0
    ensures s[|s| - 1] != 0 && v > 0 ==> carry != 0 || t[|s| - 1] != 0
  {
    if s[|s| - 1] != 0 && v > 0 && carry == 0 {
      TopDigit(s);
      MulLe(1, v, Val(s));
      LowBound(t, |s| - 1);
    }
  }

  lemma {:induction false} MultiplyDigit(t: seq<Bigit>, s: seq<Bigit>, i: nat, v: Bigit, carry: Bigit)
    requires i < |s| && Multiplied(t, s, i, v, carry) && carry <= v
    ensures 0 <= t[i] * v + carry < WORD64 && (t[i] * v + carry) / BASE <= v
    ensures Multiplied(t[i := (t[i] * v + carry) % BASE], s, i + 1, v, (t[i] * v + carry) / BASE)
  {
    MulDigitBound(t[i], v, carry);
    var result := t[i] * v + carry;
    Advance(t, s, i, v, carry, result % BASE, result / BASE);
  }

  lemma {:induction false} Multiply64Digit(t: seq<Bigit>, s: seq<Bigit>, i: nat, value: nat, carry: nat)
    requires i < |s| && Multiplied(t, s, i, value, carry) && value < WORD64 && carry < WORD64
    ensures var result := t[i] * (value % BASE) + carry % BASE;
            var carry' := t[i] * (value / BASE) + result / BASE + carry / BASE;
            && 0 <= result < WORD64 && 0 <= carry' < WORD64
            && Multiplied(t[i := result % BASE], s, i + 1, value, carry')
  {
    Mul64Digit(t[i], value, carry);
    var result := t[i] * (value % BASE) + carry % BASE;
    var carry' := t[i] * (value / BASE) + result / BASE + carry / BASE;
    Advance(t, s, i, value, carry, result % BASE, carry');
  }

  lemma {:induction false} MulDigitBound(d: nat, v: nat, c: nat)
    requires d < BASE && v < BASE && c < BASE
    ensures 0 <= d * v <= (BASE - 1) * (BASE - 1)
    ensures c <= v ==> (d * v + c) / BASE <= v
  {
    MulLe(d, BASE - 1, v);
    MulLe(v, BASE - 1, BASE - 1);
    MulPositive(d, v);
    if c <= v {
      assert d * v + c <= BASE * v;
    }
  }

  lemma {:induction false} Mul64Digit(d: nat, value: nat, carry: nat)
    requires d < BASE && value < WORD64 && carry < WORD64
    ensures var result := d * (value % BASE) + carry % BASE;
            var carry' := d * (value / BASE) + result / BASE + carry / BASE;
            && 0 <= result < WORD64 && 0 <= carry' < WORD64
            && result % BASE + carry' * BASE == d * value + carry
  {
    var lower, upper := value % BASE, value / BASE;
    MulDigitBound(d, lower, carry % BASE);
    MulDigitBound(d, upper, 0);
    SplitProduct(d, lower, upper, value);
  }

  lemma {:induction false} SplitProduct(d: nat, lower: nat, upper: nat, value: nat)
    requires value == lower + upper * BASE
    ensures d * value == d * lower + (d * upper) * BASE
  {
  }

  lemma {:induction false} MovedUp(t: seq<Bigit>, s: seq<Bigit>, d: nat)
    requires |t| == |s| + d
    requires forall k :: 0 <= k < d ==> t[k] == 0
    requires forall k :: 0 <= k < |s| ==> s[k] == t[k + d]
    ensures t == Zeros(d) + s
  {
    assert forall k :: d <= k < |t| ==> t[k] == s[k - d];
  }

  lemma {:induction false} AlignValue(s: seq<Bigit>, k: nat, e: nat)
    ensures Worth(Zeros(k) + s, e) == Worth(s, k + e)
  {
    if e == 0 {
      ValueMovedUp(Zeros(k) + s, s, k, |s|);
      WorthIs(s, k);
    } else {
      AlignValue(s, k, e - 1);
      assert k + e - 1 == k + (e - 1);
    }
  }

  lemma {:induction false} PowAdd(b: nat, m: nat, n: nat)
    ensures Pow(b, m + n) == Pow(b, m) * Pow(b, n)
  {
    if m > 0 {
      PowAdd(b, m - 1, n);
      Associate(b, Pow(b, m - 1), Pow(b, n));
    }
  }

  lemma {:induction false} PowTwoWords(n: nat)
    ensures Pow(2, 32 * n) == P(n)
  {
    if n > 0 {
      PowTwoWords(n - 1);
      PowAdd(2, 32, 32 * (n - 1));
      TwoTo32();
    }
  }

  lemma {:induction false} TwoTo32()
    ensures Pow(2, 32) == BASE
  {
    assert Pow(2, 4) == 16;
    PowAdd(2, 4, 4);
    PowAdd(2, 8, 8);
    PowAdd(2, 16, 16);
  }

  /** Two to a shift count below 32. */
  function TwoTo(n: nat): (p: nat)
    ensures p == Pow(2, n)
  {
    if n == 0 then 1 else 2 * TwoTo(n - 1)
  }

  lemma {:induction false} TwoToSplit(shift: nat)
    requires 0 < shift < 32
    ensures TwoTo(shift) * TwoTo(32 - shift) == BASE
    ensures 1 < TwoTo(shift) < BASE && 1 < TwoTo(32 - shift) < BASE
  {
    PowAdd(2, shift, 32 - shift);
    TwoTo32();
    Factors(TwoTo(shift), TwoTo(32 - shift));
  }

  lemma {:induction false} Factors(f: nat, r: nat)
    requires f * r == BASE && f > 1 && r > 1
    ensures f < BASE && r < BASE
  {
    MulLe(2, f, r);
    MulLe(2, r, f);
  }

  lemma {:induction false} ShiftThroughDigit(t: seq<Bigit>, s: seq<Bigit>, i: nat, factor: nat, rest: nat, carry: nat)
    requires factor * rest == BASE && 1 < factor && 1 < rest && carry < factor
    requires i < |s| && Multiplied(t, s, i, factor, carry)
    ensures var c, d := t[i] / rest, (t[i] * factor) % BASE + carry;
            && 0 <= c < factor < BASE && 0 <= d < BASE
            && Multiplied(t[i := d], s, i + 1, factor, c)
            && (t[i] == 1 ==> c == 0 && d == factor + carry)
  {
    Factors(factor, rest);
    ShiftDigit(t[i], factor, rest, carry);
    var c, d := t[i] / rest, (t[i] * factor) % BASE + carry;
    Advance(t, s, i, factor, carry, d, c);
  }

  lemma {:induction false} ShiftDigit(d: nat, factor: nat, rest: nat, carry: nat)
    requires factor * rest == BASE && 1 < factor && 1 < rest && d < BASE && carry < factor
    ensures 0 <= (d * factor) % BASE + carry < BASE
    ensures 0 <= d / rest < factor
    ensures ((d * factor) % BASE + carry) + (d / rest) * BASE == d * factor + carry
    ensures d == 1 ==> d / rest == 0 && (d * factor) % BASE == factor
  {
    var q, r := d / rest, d % rest;
    DivModUnique(d, rest, q, r);
    ShiftProduct(d, factor, rest, q, r);
    LowPart(d * factor, q, r * factor);
    QuotientBelow(d, rest, q, factor);
    if d == 1 {
      DivModUnique(1, rest, 0, 1);
    }
  }

  lemma {:induction false} LowPart(x: int, q: int, y: int)
    requires x == q * BASE + y && 0 <= y < BASE
    ensures x % BASE == y
  {
  }

  lemma {:induction false} QuotientBelow(d: nat, rest: nat, q: nat, factor: nat)
    requires q * rest <= d < factor * rest
    ensures q < factor
  {
    if q >= factor {
      MulLe(factor, q, rest);
    }
  }

  lemma {:induction false} ShiftProduct(d: nat, factor: nat, rest: nat, q: nat, r: nat)
    requires d == q * rest + r && r < rest && factor * rest == BASE
    ensures d * factor == q * BASE + r * factor && 0 <= r * factor <= BASE - factor
  {
    DistributesRight(q * rest, r, factor);
    Associate(q, rest, factor);
    MulLe(r, rest - 1, factor);
    DistributesRight(rest, -1, factor);
    MulPositive(r, factor);
  }

  lemma {:induction false} DivModUnique(d: nat, b: nat, q: nat, r: nat)
    requires b > 0 && q == d / b && r == d % b
    ensures d == q * b + r && r < b
  {
  }

  lemma {:induction false} ShiftValue(s': seq<Bigit>, s: seq<Bigit>, factor: nat, e: nat, w: nat)
    requires Val(s') == Val(s) * factor
    ensures Worth(s', e + w) == Worth(s, e) * (factor * P(w))
  {
    if w == 0 {
      WorthScales(s', s, factor, e);
    } else {
      ShiftValue(s', s, factor, e, w - 1);
      assert e + w - 1 == e + (w - 1);
      Associate(BASE, Worth(s, e), factor * P(w - 1));
      Associate(factor, BASE, P(w - 1));
    }
  }

  /** A borrow of zero or one, weighed at its position. */
  function Owed(borrow: nat, p: nat): (v: nat) {
    if borrow == 0 then 0 else p
  }

  /** j digits of t have been taken from s at place k, with a borrow pending at place k + j. */
  ghost predicate Subtracted(cur: seq<Bigit>, s: seq<Bigit>, t: seq<Bigit>, k: nat, j: nat, borrow: nat) {
    && k + j <= |s| == |cur| && j <= |t| && borrow <= 1
    && Low(cur, k + j) - Owed(borrow, P(k + j)) == Low(s, k + j) - Low(t, j) * P(k)
    && (forall m :: k + j <= m < |s| ==> cur[m] == s[m])
    && (j == 0 ==> borrow == 0)
  }

  lemma {:induction false} SubtractStep(cur: seq<Bigit>, s: seq<Bigit>, t: seq<Bigit>, k: nat, j: nat, borrow: nat,
                     d: Bigit, borrow': nat)
    requires Subtracted(cur, s, t, k, j, borrow) && j < |t| && k + j < |s|
    requires borrow' <= 1 && d - BASE * borrow' == cur[k + j] - t[j] - borrow
    ensures Subtracted(cur[k + j := d], s, t, k, j + 1, borrow')
  {
    PAdd(k, j);
    LowAgree(cur[k + j := d], cur, k + j);
    SubtractColumn(d, borrow', s[k + j], t[j], borrow, P(k + j), P(k), P(j), Low(t, j));
  }

  lemma {:induction false} SubtractColumn(d: int, b: nat, a: int, t: int, borrow: nat, pi: nat, pk: nat, pj: nat,
                                          low: int)
    requires b <= 1 && borrow <= 1 && d - BASE * b == a - t - borrow && pi == pk * pj
    ensures d * pi - Owed(b, BASE * pi) == (a * pi - (low + t * pj) * pk) - (Owed(borrow, pi) - low * pk)
  {
    MoveStep(low, t, pk, pj);
    assert d == (a - t - borrow) + BASE * b;
    DistributesRight(a - t - borrow, BASE * b, pi);
    DistributesRight(a - t, 0 - borrow, pi);
    DistributesRight(a, 0 - t, pi);
    assert (BASE * b) * pi == Owed(b, BASE * pi) && (0 - borrow) * pi == 0 - Owed(borrow, pi);
  }

  /** A borrow is left over exactly when the digits in place were worth less than the subtrahend. */
  lemma {:induction false} BorrowOut(cur: seq<Bigit>, s: seq<Bigit>, t: seq<Bigit>, k: nat, borrow: nat)
    requires Subtracted(cur, s, t, k, |t|, borrow)
    requires Val(s) >= Worth(t, k)
    ensures borrow == 1 <==> Low(s, k + |t|) < Worth(t, k)
    ensures borrow == 1 ==> k + |t| < |s|
    ensures Val(cur) - Owed(borrow, P(k + |t|)) == Val(s) - Worth(t, k)
  {
    WorthIs(t, k);
    LowBound(cur, k + |t|);
    Split(s, k + |t|);
    Split(cur, k + |t|);
    HighAgree(s, cur, k + |t|);
  }

  /** After the borrow loop the difference is exact, or too large by BASE - 1 units of one digit. */
  lemma {:induction false} SubtractOutcome(final: seq<Bigit>, mid: seq<Bigit>, s: seq<Bigit>, t: seq<Bigit>, k: nat,
                                           lost: nat)
    requires lost <= 1 && (lost == 1 ==> k + |t| < |mid|) && k + |t| <= |s| == |mid|
    requires forall m :: k + |t| <= m < |s| ==> mid[m] == s[m]
    requires lost == 1 <==> Low(s, k + |t|) < Worth(t, k)
    requires Val(mid) - Owed(lost, P(k + |t|)) == Val(s) - Worth(t, k)
    requires final == if lost == 0 then mid
                      else mid[k + |t| := if mid[k + |t|] > 0 then mid[k + |t|] - 1 else BASE - 2]
    ensures Val(final) == Val(s) - Worth(t, k) + if LosesBorrow(s, t, k) then (BASE - 1) * P(k + |t|) else 0
  {
    var i := k + |t|;
    if lost == 1 {
      if mid[i] > 0 {
        ReplaceDigit(mid, i, -1, |mid|);
      } else {
        ReplaceDigit(mid, i, BASE - 2, |mid|);
      }
    }
  }

  lemma {:induction false} LongerIfLarger(s: seq<Bigit>, t: seq<Bigit>, k: nat)
    requires |t| > 0 && t[|t| - 1] != 0
    requires Val(s) >= Worth(t, k)
    ensures k + |t| <= |s|
  {
    ValueAtLeast(t, k);
    LowBound(s, |s|);
    if |s| < k + |t| {
      PMonotone(|s|, k + |t| - 1);
    }
  }

  lemma {:induction false} ReplaceDigit(s: seq<Bigit>, i: nat, delta: int, n: nat)
    requires i < n <= |s| && 0 <= s[i] + delta < BASE
    ensures Low(s[i := s[i] + delta], n) == Low(s, n) + delta * P(i)
    decreases n
  {
    var s' := s[i := s[i] + delta];
    if n == i + 1 {
      LowAgree(s, s', i);
      DistributesRight(s[i], delta, P(i));
    } else {
      ReplaceDigit(s, i, delta, n - 1);
    }
  }

  // ---- Comparison: sequences of equal length, read from the top ----

  function Sign(x: int): int {
    if x > 0 then 1 else if x < 0 then -1 else 0
  }

  /** x holds the digits of s from position e on, and zeros elsewhere. */
  ghost predicate Spreads(x: seq<Bigit>, s: seq<Bigit>, e: nat) {
    && e + |s| <= |x|
    && (forall p :: 0 <= p < e || e + |s| <= p < |x| ==> x[p] == 0)
    && (forall q :: 0 <= q < |s| ==> s[q] == x[e + q])
  }

  /** The digits of a big integer with exponent e, spread over m positions. */
  lemma {:induction false} Spread(s: seq<Bigit>, e: nat, m: nat) returns (x: seq<Bigit>)
    requires e + |s| <= m
    ensures |x| == m && Spreads(x, s, e)
    ensures Val(x) == Worth(s, e)
  {
    x := Zeros(e) + s + Zeros(m - e - |s|);
    SpreadValue(x, s, e);
  }

  lemma {:induction false} SpreadValue(x: seq<Bigit>, s: seq<Bigit>, e: nat)
    requires Spreads(x, s, e)
    ensures Val(x) == Worth(s, e)
  {
    WorthIs(s, e);
    ZerosAbove(x, e + |s|, |x|);
    ValueMovedUp(x, s, e, |s|);
  }

  lemma {:induction false} ZerosAbove(x: seq<Bigit>, n: nat, m: nat)
    requires n <= m <= |x|
    requires forall p :: n <= p < m ==> x[p] == 0
    ensures Low(x, m) == Low(x, n)
  {
    if n < m {
      ZerosAbove(x, n, m - 1);
    }
  }

  lemma {:induction false} HighestDifference(x: seq<Bigit>, y: seq<Bigit>, p: nat)
    requires |x| == |y| && p < |x|
    requires forall q :: p < q < |x| ==> x[q] == y[q]
    requires x[p] > y[p]
    ensures Val(x) > Val(y)
  {
    assert High(x, p) > High(y, p) by {
      HighAgree(x, y, p + 1);
    }
    Split(x, p);
    Split(y, p);
    LowBound(y, p);
    Outweighs(P(p), High(x, p), High(y, p), Low(y, p));
  }

  lemma {:induction false} Outweighs(p: nat, hx: int, hy: int, low: int)
    requires hx > hy && low < p
    ensures p * hx > low + p * hy
  {
    MulLe(hy + 1, hx, p);
  }

  lemma {:induction false} EqualAbove(x: seq<Bigit>, y: seq<Bigit>, p: nat)
    requires |x| == |y| && p <= |x|
    requires forall q :: p <= q < |x| ==> x[q] == y[q]
    requires forall q :: 0 <= q < p ==> y[q] == 0
    ensures Val(x) >= Val(y)
  {
    Split(x, p);
    Split(y, p);
    HighAgree(x, y, p);
    LowZeros(y, p);
  }

  lemma {:induction false} MoreDigits(s: seq<Bigit>, es: nat, t: seq<Bigit>, et: nat)
    requires |s| > 0 && s[|s| - 1] != 0
    requires es + |s| > et + |t|
    ensures Worth(s, es) > Worth(t, et)
  {
    ValueAtLeast(s, es);
    ValueBelow(t, et);
    PMonotone(et + |t|, es + |s| - 1);
  }

  lemma {:induction false} ValueAtLeast(s: seq<Bigit>, e: nat)
    requires |s| > 0 && s[|s| - 1] != 0
    ensures Worth(s, e) >= P(e + |s| - 1)
  {
    TopDigit(s);
    WorthIs(s, e);
    MulLe(P(|s| - 1), Val(s), P(e));
    PAdd(|s| - 1, e);
    assert |s| - 1 + e == e + |s| - 1;
  }

  lemma {:induction false} ValueBelow(s: seq<Bigit>, e: nat)
    ensures Worth(s, e) < P(e + |s|)
  {
    LowBound(s, |s|);
    WorthIs(s, e);
    MulLe(Val(s) + 1, P(|s|), P(e));
    DistributesRight(Val(s), 1, P(e));
    PAdd(|s|, e);
    assert |s| + e == e + |s|;
  }

  /** What the high digits decide: the lower ones cannot make up a difference of -1 or of 2. */
  lemma {:induction false} HighDecides(x: seq<Bigit>, y: seq<Bigit>, z: seq<Bigit>, i: nat)
    requires |x| == |y| == |z| && i <= |x|
    ensures High(z, i) - High(x, i) - High(y, i) < 0 ==> Val(x) + Val(y) > Val(z)
    ensures High(z, i) - High(x, i) - High(y, i) > 1 ==> Val(x) + Val(y) < Val(z)
  {
    Split(x, i);
    Split(y, i);
    Split(z, i);
    LowBound(x, i);
    LowBound(y, i);
    LowBound(z, i);
    Weigh(P(i), High(x, i), High(y, i), High(z, i), High(z, i) - High(x, i) - High(y, i));
  }

  lemma {:induction false} Weigh(p: nat, hx: int, hy: int, hz: int, d: int)
    requires d == hz - hx - hy
    ensures p * hz - p * hx - p * hy == p * d
    ensures d < 0 ==> p * d + p <= 0
    ensures d > 1 ==> p * d >= 2 * p
  {
    assert hz == hx + hy + d;
    Distributes(p, hx + hy, d);
    Distributes(p, hx, hy);
    if d < 0 {
      MulLe(d, -1, p);
    } else if d > 1 {
      MulLe(2, d, p);
    }
  }

  lemma {:induction false} AllDecided(x: seq<Bigit>, y: seq<Bigit>, z: seq<Bigit>, i: nat)
    requires |x| == |y| == |z| && i <= |x|
    requires forall p :: 0 <= p < i ==> x[p] == y[p] == z[p] == 0
    requires 0 <= High(z, i) - High(x, i) - High(y, i) <= 1
    ensures Sign(Val(x) + Val(y) - Val(z)) == High(x, i) + High(y, i) - High(z, i)
  {
    Split(x, i);
    Split(y, i);
    Split(z, i);
    LowZeros(x, i);
    LowZeros(y, i);
    LowZeros(z, i);
    var d := High(z, i) - High(x, i) - High(y, i);
    Weigh(P(i), High(x, i), High(y, i), High(z, i), d);
    assert P(i) * d == if d == 0 then 0 else P(i);
  }

  lemma {:induction false} SumTooShort(a: seq<Bigit>, ea: nat, b: seq<Bigit>, eb: nat, c: seq<Bigit>, ec: nat,
                                       most: nat)
    requires ea + |a| <= most && eb + |b| <= most && most + 1 < ec + |c|
    requires |c| > 0 && c[|c| - 1] != 0
    ensures Worth(a, ea) + Worth(b, eb) < Worth(c, ec)
  {
    FitsBelow(a, ea, most);
    FitsBelow(b, eb, most);
    AtLeastAbove(c, ec, most);
    TwoFit(Worth(a, ea), Worth(b, eb), P(most), Worth(c, ec));
  }

  lemma {:induction false} TwoFit(va: int, vb: int, p: nat, vc: int)
    requires va < p && vb < p && BASE * p <= vc
    ensures va + vb < vc
  {
  }

  lemma {:induction false} AtLeastAbove(s: seq<Bigit>, e: nat, most: nat)
    requires |s| > 0 && s[|s| - 1] != 0 && most + 1 < e + |s|
    ensures BASE * P(most) <= Worth(s, e)
  {
    ValueAtLeast(s, e);
    PMonotone(most + 1, e + |s| - 1);
  }

  lemma {:induction false} FitsBelow(s: seq<Bigit>, e: nat, most: nat)
    requires e + |s| <= most
    ensures Worth(s, e) < P(most)
  {
    ValueBelow(s, e);
    PMonotone(e + |s|, most);
  }

  /** One position of add_compare: the new difference, and what it decides when it is not 0 or 1. */
  lemma {:induction false} AddCompareStep(x: seq<Bigit>, y: seq<Bigit>, z: seq<Bigit>, i: nat, difference: int)
    requires |x| == |y| == |z| && i < |x|
    requires difference == High(z, i + 1) - High(x, i + 1) - High(y, i + 1)
    ensures BASE * difference + z[i] - x[i] - y[i] == High(z, i) - High(x, i) - High(y, i)
    ensures BASE * difference + z[i] - x[i] - y[i] < 0 ==> Sign(Val(x) + Val(y) - Val(z)) == 1
    ensures BASE * difference + z[i] - x[i] - y[i] > 1 ==> Sign(Val(x) + Val(y) - Val(z)) == -1
  {
    HighDecides(x, y, z, i);
  }

  // ---- Squaring by column sums ----

  /** The digit at position i, zero outside the sequence. */
  function Digit(s: seq<Bigit>, i: int): Bigit {
    if 0 <= i < |s| then s[i] else 0
  }

  function Product(a: nat, b: nat): (p: nat) {
    MulPositive(a, b);
    a * b
  }

  /** The part of column t of the product a * n that the first m digits of a contribute. */
  ghost function Column(a: seq<Bigit>, n: seq<Bigit>, m: nat, t: int): (v: nat)
    requires m <= |a|
    decreases m
  {
    if m == 0 then 0 else Column(a, n, m - 1, t) + Product(a[m - 1], Digit(n, t - (m - 1)))
  }

  /** The first `count` columns, each with its weight. */
  ghost function Columns(a: seq<Bigit>, n: seq<Bigit>, m: nat, count: nat): (v: nat)
    requires m <= |a|
    decreases count
  {
    if count == 0 then 0
    else Columns(a, n, m, count - 1) + Product(Column(a, n, m, count - 1), P(count - 1))
  }

  /** The columns of n shifted up by m places. */
  ghost function Shifted(n: seq<Bigit>, m: nat, count: nat): (v: nat)
    decreases count
  {
    if count == 0 then 0
    else Shifted(n, m, count - 1) + Product(Digit(n, count - 1 - m), P(count - 1))
  }

  lemma {:induction false} ShiftedValue(n: seq<Bigit>, m: nat, count: nat)
    ensures Shifted(n, m, count) == if count <= m then 0
                                    else P(m) * Low(n, if count - m <= |n| then count - m else |n|)
    decreases count
  {
    if count > m {
      ShiftedValue(n, m, count - 1);
      if count - m <= |n| {
        PAdd(m, count - 1 - m);
        Associate(n[count - 1 - m], P(m), P(count - 1 - m));
        Distributes(P(m), Low(n, count - 1 - m), n[count - 1 - m] * P(count - 1 - m));
      }
    } else if count > 0 {
      ShiftedValue(n, m, count - 1);
    }
  }

  lemma {:induction false} ColumnsRow(a: seq<Bigit>, n: seq<Bigit>, m: nat, count: nat)
    requires m < |a|
    ensures Columns(a, n, m + 1, count) == Columns(a, n, m, count) + a[m] * Shifted(n, m, count)
    decreases count
  {
    if count > 0 {
      ColumnsRow(a, n, m, count - 1);
      var t := count - 1;
      RowStep(Column(a, n, m, t), a[m], Digit(n, t - m), P(t), Shifted(n, m, t));
    }
  }

  lemma {:induction false} RowStep(column: nat, a: nat, d: nat, p: nat, shifted: nat)
    ensures Product(column + Product(a, d), p) + a * shifted == Product(column, p) + a * (shifted + Product(d, p))
  {
    Distributes(p, column, a * d);
    Associate(a, d, p);
    Distributes(a, shifted, d * p);
  }

  /** Summing the columns of a product is multiplying: the reordering behind `square`. */
  lemma {:induction false} ColumnsProduct(a: seq<Bigit>, n: seq<Bigit>, m: nat, count: nat)
    requires m <= |a| && count >= m + |n|
    ensures Columns(a, n, m, count) == Low(a, m) * Val(n)
    decreases m
  {
    if m == 0 {
      ColumnsEmpty(a, n, count);
    } else {
      ColumnsProduct(a, n, m - 1, count);
      ColumnsRow(a, n, m - 1, count);
      ShiftedValue(n, m - 1, count);
      ProductStep(Low(a, m - 1), a[m - 1], P(m - 1), Val(n));
    }
  }

  lemma {:induction false} ProductStep(low: int, d: int, p: int, v: int)
    ensures low * v + d * (p * v) == (low + d * p) * v
  {
    Associate(d, p, v);
    Distributes(v, low, d * p);
  }

  lemma {:induction false} ColumnsEmpty(a: seq<Bigit>, n: seq<Bigit>, count: nat)
    ensures Columns(a, n, 0, count) == 0
  {
    if count > 0 {
      ColumnsEmpty(a, n, count - 1);
    }
  }

  /** Digits of a above the column, or too low for it, contribute nothing. */
  lemma {:induction false} ColumnOutside(a: seq<Bigit>, n: seq<Bigit>, from: nat, m: nat, t: int)
    requires from <= m <= |a|
    requires t < from || t - m + 1 >= |n|
    ensures Column(a, n, m, t) == Column(a, n, from, t)
    decreases m - from
  {
    if from < m {
      ColumnOutside(a, n, from, m - 1, t);
    }
  }

  /** One product of a column: it fits 64 bits, and it is the next term of the column. */
  lemma {:induction false} ColumnTerm(n: seq<Bigit>, i: nat, j: nat)
    requires i < |n| && j < |n|
    ensures Product(n[i], n[j]) < WORD64
    ensures Column(n, n, i + 1, i + j) == Column(n, n, i, i + j) + Product(n[i], n[j])
    ensures Column(n, n, i + 1, i + j) <= Column(n, n, |n|, i + j)
  {
    ProductBound(n[i], n[j]);
    ColumnMonotone(n, n, i + 1, |n|, i + j);
    ColumnUnfolds(n, n, i, i + j);
  }

  lemma {:induction false} ColumnUnfolds(a: seq<Bigit>, n: seq<Bigit>, m: nat, t: int)
    requires m < |a|
    ensures Column(a, n, m + 1, t) == Column(a, n, m, t) + Product(a[m], Digit(n, t - m))
  {
  }

  lemma {:induction false} ProductBound(a: Bigit, b: Bigit)
    ensures Product(a, b) <= (BASE - 1) * (BASE - 1) < WORD64
  {
    MulDigitBound(a, b, 0);
  }

  /** The carry of a column sum of m products stays below m * 2^32, so a sum stays below m * 2^64. */
  lemma {:induction false} CarryBound(sum: nat, column: nat, m: nat)
    requires sum <= m * BASE && column <= m * ((BASE - 1) * (BASE - 1)) && m < 0x4000_0000
    ensures sum + column < WORD64 * WORD64
    ensures (sum + column) / BASE <= m * BASE
  {
    assert sum + column <= (m * BASE) * BASE;
  }

  lemma {:induction false} ColumnDone(t: seq<Bigit>, k: nat, total: nat, column: nat, sum: nat)
    requires k < |t| && Low(t, k) + sum * P(k) == total
    ensures Low(t[k := (sum + column) % BASE], k + 1) + ((sum + column) / BASE) * P(k + 1)
            == total + Product(column, P(k))
  {
    LowAgree(t[k := (sum + column) % BASE], t, k);
    SplitDigit(sum + column, P(k));
    DistributesRight(sum, column, P(k));
  }

  /** Everything one column needs: the sum and its carry fit, and storing the low digit keeps the total. */
  lemma {:induction false} ColumnStep(t: seq<Bigit>, n: seq<Bigit>, k: nat, sum: nat)
    requires k < |t| && |n| < 0x4000_0000 && sum <= |n| * BASE
    requires Low(t, k) + sum * P(k) == Columns(n, n, |n|, k)
    ensures var total := sum + Column(n, n, |n|, k);
            && total < WORD64 * WORD64
            && total / BASE <= |n| * BASE
            && Low(t[k := total % BASE], k + 1) + (total / BASE) * P(k + 1) == Columns(n, n, |n|, k + 1)
  {
    ColumnBound(n, n, |n|, k);
    CarryBound(sum, Column(n, n, |n|, k), |n|);
    ColumnDone(t, k, Columns(n, n, |n|, k), Column(n, n, |n|, k), sum);
  }

  lemma {:induction false} WorthSquared(s': seq<Bigit>, s: seq<Bigit>, e: nat)
    requires Val(s') == Val(s) * Val(s)
    ensures Worth(s', 2 * e) == Worth(s, e) * Worth(s, e)
  {
    WorthIs(s', 2 * e);
    WorthIs(s, e);
    PAdd(e, e);
    assert 2 * e == e + e;
    PairProducts(Val(s), P(e), Val(s), P(e));
  }

  /** A square fits twice as many digits, so the last carry is zero. */
  lemma {:induction false} NoCarryLeft(t: seq<Bigit>, n: seq<Bigit>, carry: nat)
    requires |t| == 2 * |n| && Val(t) + carry * P(|t|) == Val(n) * Val(n)
    ensures carry == 0
  {
    LowBound(n, |n|);
    PAdd(|n|, |n|);
    SquareBelow(Val(n), P(|n|));
    if carry > 0 {
      MulLe(1, carry, P(|t|));
    }
  }

  lemma {:induction false} SquareBelow(v: nat, p: nat)
    requires v < p
    ensures v * v < p * p
  {
    MulLe(v, p, v);
    MulLe(v + 1, p, p);
    DistributesRight(v, 1, p);
  }

  lemma {:induction false} ColumnMonotone(a: seq<Bigit>, n: seq<Bigit>, from: nat, m: nat, t: int)
    requires from <= m <= |a|
    ensures Column(a, n, from, t) <= Column(a, n, m, t)
    decreases m - from
  {
    if from < m {
      ColumnMonotone(a, n, from, m - 1, t);
    }
  }

  lemma {:induction false} ColumnBound(a: seq<Bigit>, n: seq<Bigit>, m: nat, t: int)
    requires m <= |a|
    ensures Column(a, n, m, t) <= m * ((BASE - 1) * (BASE - 1))
    decreases m
  {
    if m > 0 {
      ColumnBound(a, n, m - 1, t);
      MulDigitBound(a[m - 1], Digit(n, t - (m - 1)), 0);
    }
  }

  // ---- Powers of ten and division ----

  predicate IsPowerOfTwo(n: nat) {
    n == 1 || (n > 0 && n % 2 == 0 && IsPowerOfTwo(n / 2))
  }

  /** The test `(n & bitmask) != 0` for a bitmask with one bit. */
  predicate TestBit(n: nat, bitmask: nat) {
    if bitmask <= 1 then n % 2 == 1 else TestBit(n / 2, bitmask / 2)
  }

  /** The number formed by the bits of n from the one in bitmask up. */
  function BitsFrom(n: nat, bitmask: nat): (q: nat)
    ensures q <= n
    decreases bitmask
  {
    if bitmask <= 1 then n else BitsFrom(n / 2, bitmask / 2)
  }

  lemma {:induction false} NextBit(n: nat, bitmask: nat)
    requires IsPowerOfTwo(bitmask)
    ensures BitsFrom(n, bitmask) == 2 * BitsFrom(n, 2 * bitmask) + if TestBit(n, bitmask) then 1 else 0
    decreases bitmask
  {
    if bitmask > 1 {
      NextBit(n / 2, bitmask / 2);
    }
  }

  lemma {:induction false} TopBit(n: nat, bitmask: nat)
    requires IsPowerOfTwo(bitmask) && bitmask <= n < 2 * bitmask
    ensures BitsFrom(n, bitmask) == 1
    decreases bitmask
  {
    if bitmask > 1 {
      TopBit(n / 2, bitmask / 2);
    }
  }

  lemma {:induction false} SquareOfPower(b: nat, e: nat)
    ensures Pow(b, e) * Pow(b, e) == Pow(b, 2 * e)
  {
    PowAdd(b, e, e);
  }

  lemma {:induction false} PowProduct(a: nat, b: nat, e: nat)
    ensures Pow(a, e) * Pow(b, e) == Pow(a * b, e)
  {
    if e > 0 {
      PowProduct(a, b, e - 1);
      PairProducts(a, Pow(a, e - 1), b, Pow(b, e - 1));
    }
  }

  lemma {:induction false} PairProducts(a: int, x: int, b: int, y: int)
    ensures (a * x) * (b * y) == (a * b) * (x * y)
  {
    Associate(a, x, b * y);
    Associate(x, b, y);
    Associate(a, b, x * y);
    Associate(b, x, y);
  }

  /** A dividend below 2^31 divisors has at most one digit more, so its borrow always finds that digit. */
  lemma {:induction false} OneExtraDigit(s: seq<Bigit>, es: nat, t: seq<Bigit>, et: nat, bound: nat)
    requires |s| > 0 && s[|s| - 1] != 0 && bound <= BASE
    requires Worth(s, es) < bound * (Worth(t, et))
    ensures es + |s| <= et + |t| + 1
  {
    ValueAtLeast(s, es);
    ValueBelow(t, et);
    BoundedProduct(bound, Worth(t, et), P(et + |t|));
    if es + |s| > et + |t| + 1 {
      PMonotone(et + |t| + 1, es + |s| - 1);
    }
  }

  lemma {:induction false} BoundedProduct(bound: nat, v: nat, p: nat)
    requires bound <= BASE && v < p
    ensures bound * v <= BASE * p
  {
    MulLe(bound, BASE, v);
  }

  lemma {:induction false} NormalIfLarge(s: seq<Bigit>, es: nat, t: seq<Bigit>, et: nat)
    requires |s| > 0 && es + |s| <= et + |t| && |t| > 0 && t[|t| - 1] != 0
    requires Worth(s, es) >= Worth(t, et)
    ensures s[|s| - 1] != 0
  {
    if s[|s| - 1] == 0 {
      var r := s[..|s| - 1];
      LowAgree(s, r, |r|);
      WorthScales(s, r, 1, es);
      ValueBelow(r, es);
      ValueAtLeast(t, et);
      PMonotone(es + |r|, et + |t| - 1);
    }
  }

  lemma {:induction false} NoLostBorrow(s: seq<Bigit>, es: nat, t: seq<Bigit>, et: nat)
    requires |s| > 0 && s[|s| - 1] != 0 && es <= et
    requires es + |s| <= et + |t| + 1
    ensures !LosesBorrow(s, t, et - es)
  {
  }

  /** Equal values with leading digits nonzero: fewer digits means a larger exponent. */
  lemma {:induction false} ExponentOrder(s: seq<Bigit>, es: nat, t: seq<Bigit>, et: nat)
    requires |s| > 0 && s[|s| - 1] != 0 && |t| > 0 && t[|t| - 1] != 0
    requires Worth(s, es) == Worth(t, et)
    ensures es + |s| == et + |t|
  {
    if es + |s| > et + |t| {
      MoreDigits(s, es, t, et);
    } else if es + |s| < et + |t| {
      MoreDigits(t, et, s, es);
    }
  }

  /** A divisor whose lowest digit is nonzero cannot equal a shorter number. */
  lemma {:induction false} LowestDigitDecides(s: seq<Bigit>, es: nat, t: seq<Bigit>, et: nat)
    requires |s| > 0 && s[|s| - 1] != 0 && |t| > 0 && t[|t| - 1] != 0
    requires t[0] != 0 && |s| < |t|
    ensures Worth(s, es) != Worth(t, et)
  {
    if Worth(s, es) == Worth(t, et) {
      ExponentOrder(s, es, t, et);
      SameWorth(s, t, es - et, et);
      LowestDigit(t);
    }
  }

  lemma {:induction false} LowestDigit(t: seq<Bigit>)
    requires |t| > 0
    ensures Val(t) % BASE == t[0]
  {
    Split(t, 0);
  }

  lemma {:induction false} SameWorth(s: seq<Bigit>, t: seq<Bigit>, d: nat, e: nat)
    requires Worth(s, d + e) == Worth(t, e)
    ensures Worth(s, d) == Val(t)
  {
    if e > 0 {
      assert d + e - 1 == d + (e - 1);
      SameWorth(s, t, d, e - 1);
    }
  }
}
