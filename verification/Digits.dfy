/** Positional notation in base 2^32: what an array of 32-bit big digits is worth. */
module Digits {

  const BASE: nat := 0x1_0000_0000

  /** One big digit, the source's 32-bit unsigned `bigit`. */
  type Bigit = d: int | 0 <= d < 0x1_0000_0000

  /** BASE to the power n. */
  ghost function P(n: nat): (p: nat)
    ensures p > 0
  {
    if n == 0 then 1 else BASE * P(n - 1)
  }

  ghost function Pow(b: nat, e: nat): (p: nat)
    ensures b > 0 ==> p > 0
  {
    if e == 0 then 1 else MulPositive(b, Pow(b, e - 1)); b * Pow(b, e - 1)
  }

  lemma {:induction false} MulPositive(a: nat, b: nat)
    ensures a * b >= 0
    ensures a > 0 && b > 0 ==> a * b > 0
  {
  }

  /** The value of the n lowest digits of s. */
  ghost function Low(s: seq<Bigit>, n: nat): (v: nat)
    requires n <= |s|
    decreases n
  {
    if n == 0 then 0 else MulPositive(s[n - 1], P(n - 1)); Low(s, n - 1) + s[n - 1] * P(n - 1)
  }

  /** The value of the digits of s from position i up, with position i worth one. */
  ghost function High(s: seq<Bigit>, i: nat): (v: nat)
    requires i <= |s|
    decreases |s| - i
  {
    if i == |s| then 0 else s[i] + BASE * High(s, i + 1)
  }

  /** The number the digits of s spell, least significant digit first. */
  ghost function Val(s: seq<Bigit>): nat {
    Low(s, |s|)
  }

  /** The value of s with e zero digits below it: what a big integer with exponent e is worth. */
  ghost function Worth(s: seq<Bigit>, e: nat): nat
    decreases e
  {
    if e == 0 then Val(s) else BASE * Worth(s, e - 1)
  }

  lemma {:induction false} WorthIs(s: seq<Bigit>, e: nat)
    ensures Worth(s, e) == Val(s) * P(e)
  {
    if e > 0 {
      WorthIs(s, e - 1);
      Associate(Val(s), BASE, P(e - 1));
    }
  }

  lemma {:induction false} WorthScales(s': seq<Bigit>, s: seq<Bigit>, v: int, e: nat)
    requires Val(s') == Val(s) * v
    ensures Worth(s', e) == Worth(s, e) * v
  {
    if e > 0 {
      WorthScales(s', s, v, e - 1);
      Associate(BASE, Worth(s, e - 1), v);
    }
  }

  lemma {:induction false} WorthPositive(s: seq<Bigit>, e: nat)
    ensures Worth(s, e) > 0 <==> Val(s) > 0
  {
    if e > 0 {
      WorthPositive(s, e - 1);
    }
  }

  /** Comparing or subtracting at a common exponent is comparing or subtracting the digits in place. */
  lemma {:induction false} WorthInPlace(s: seq<Bigit>, t: seq<Bigit>, r: seq<Bigit>, k: nat, e: nat)
    ensures Worth(s, e) >= Worth(t, k + e) <==> Val(s) >= Worth(t, k)
    ensures Worth(r, e) == Worth(s, e) - Worth(t, k + e) <==> Val(r) == Val(s) - Worth(t, k)
  {
    if e > 0 {
      WorthInPlace(s, t, r, k, e - 1);
      assert k + e - 1 == k + (e - 1);
    }
  }

  lemma {:induction false} LowAgree(s: seq<Bigit>, t: seq<Bigit>, n: nat)
    requires n <= |s| && n <= |t|
    requires forall k :: 0 <= k < n ==> s[k] == t[k]
    ensures Low(s, n) == Low(t, n)
  {
    if n > 0 {
      LowAgree(s, t, n - 1);
    }
  }

  lemma {:induction false} LowBound(s: seq<Bigit>, n: nat)
    requires n <= |s|
    ensures Low(s, n) < P(n)
  {
    if n > 0 {
      LowBound(s, n - 1);
      MulLe(s[n - 1], BASE - 1, P(n - 1));
    }
  }

  lemma {:induction false} Associate(a: int, b: int, c: int)
    ensures (a * b) * c == a * (b * c) == b * (a * c)
  {
  }

  lemma {:induction false} Distributes(a: int, b: int, c: int)
    ensures a * (b + c) == a * b + a * c
  {
  }

  lemma {:induction false} DistributesRight(a: int, b: int, c: int)
    ensures (a + b) * c == a * c + b * c
  {
  }

  lemma {:induction false} MulLe(a: int, b: int, c: int)
    requires a <= b && c >= 0
    ensures a * c <= b * c
  {
  }

  lemma {:induction false} Split(s: seq<Bigit>, i: nat)
    requires i <= |s|
    ensures Val(s) == Low(s, i) + P(i) * High(s, i)
    decreases |s| - i
  {
    if i < |s| {
      Split(s, i + 1);
      Distribute(P(i), s[i], High(s, i + 1));
    }
  }

  lemma {:induction false} Distribute(p: int, d: int, h: int)
    ensures p * (d + BASE * h) == d * p + (BASE * p) * h
  {
    Distributes(p, d, BASE * h);
    Associate(BASE, p, h);
  }

  lemma {:induction false} HighAgree(s: seq<Bigit>, t: seq<Bigit>, i: nat)
    requires i <= |s| == |t|
    requires forall k :: i <= k < |s| ==> s[k] == t[k]
    ensures High(s, i) == High(t, i)
    decreases |s| - i
  {
    if i < |s| {
      HighAgree(s, t, i + 1);
    }
  }

  lemma {:induction false} PAdd(m: nat, n: nat)
    ensures P(m + n) == P(m) * P(n)
  {
    if m > 0 {
      PAdd(m - 1, n);
      assert m + n - 1 == (m - 1) + n;
      Associate(BASE, P(m - 1), P(n));
    }
  }

  lemma {:induction false} PMonotone(m: nat, n: nat)
    requires m <= n
    ensures P(m) <= P(n)
  {
    if m < n {
      PMonotone(m, n - 1);
    }
  }

  ghost function Zeros(k: nat): (s: seq<Bigit>)
    ensures |s| == k
    ensures forall i :: 0 <= i < k ==> s[i] == 0
  {
    seq(k, _ => 0)
  }

  /** Digits that sit k places up, above zeros, are worth BASE^k times as much. */
  lemma {:induction false} ValueMovedUp(t: seq<Bigit>, s: seq<Bigit>, k: nat, n: nat)
    requires n <= |s| && k + n <= |t|
    requires forall i :: 0 <= i < k ==> t[i] == 0
    requires forall i :: 0 <= i < n ==> s[i] == t[k + i]
    ensures Low(t, k + n) == Low(s, n) * P(k)
    decreases n
  {
    if n == 0 {
      LowZeros(t, k);
    } else {
      ValueMovedUp(t, s, k, n - 1);
      PAdd(k, n - 1);
      MoveStep(Low(s, n - 1), s[n - 1], P(k), P(n - 1));
    }
  }

  lemma {:induction false} MoveStep(low: int, d: int, pk: int, pn: int)
    ensures low * pk + d * (pk * pn) == (low + d * pn) * pk
  {
    Associate(d, pk, pn);
    Distributes(pk, low, d * pn);
  }

  lemma {:induction false} LowZeros(s: seq<Bigit>, k: nat)
    requires k <= |s|
    requires forall i :: 0 <= i < k ==> s[i] == 0
    ensures Low(s, k) == 0
  {
    if k > 0 {
      LowZeros(s, k - 1);
    }
  }

  /** A nonzero top digit bounds the value from below. */
  lemma {:induction false} TopDigit(s: seq<Bigit>)
    requires |s| > 0 && s[|s| - 1] != 0
    ensures P(|s| - 1) <= Val(s) < P(|s|)
  {
    LowBound(s, |s|);
    MulLe(1, s[|s| - 1], P(|s| - 1));
  }

  lemma {:induction false} ValAppend(s: seq<Bigit>, d: Bigit)
    ensures Val(s + [d]) == Val(s) + d * P(|s|)
  {
    LowAgree(s + [d], s, |s|);
  }
}
