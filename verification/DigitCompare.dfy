/** What comparing by length first gets right: the answers of `compare` and `add_compare` on any digits at all. */
module DigitCompare {
  import opened Common
  import opened Digits
  import opened DigitArithmetic

  function Longer(m: nat, n: nat): nat {
    if m > n then m else n
  }

  /** The digit at position p of a number with exponent e, zero where it has none. */
  function At(s: seq<Bigit>, e: nat, p: int): Bigit {
    if e <= p < e + |s| then s[p - e] else 0
  }

  /** The number of digits without leading zeros. */
  function Significant(s: seq<Bigit>): (n: nat)
    ensures n <= |s| && (n > 0 ==> s[n - 1] != 0)
    ensures forall i :: n <= i < |s| ==> s[i] == 0
  {
    if s == [] then 0 else if s[|s| - 1] != 0 then |s| else Significant(s[..|s| - 1])
  }

  /** The number of positions the value really needs. */
  function Top(s: seq<Bigit>, e: nat): (n: nat)
    ensures n <= e + |s|
  {
    if Significant(s) == 0 then 0 else e + Significant(s)
  }

  /** Comparing a + b with c digit by digit from position n - 1 down, without looking at lengths. */
  function FromTheTop(a: seq<Bigit>, ea: nat, b: seq<Bigit>, eb: nat, c: seq<Bigit>, ec: nat, n: nat,
                      difference: nat): int
  {
    if n == 0 then (if difference == 0 then 0 else -1)
    else
      var next := BASE * difference + At(c, ec, n - 1) - At(a, ea, n - 1) - At(b, eb, n - 1);
      if next < 0 then 1 else if next > 1 then -1 else FromTheTop(a, ea, b, eb, c, ec, n - 1, next)
  }

  lemma {:induction false} OnlySignificant(s: seq<Bigit>, e: nat)
    ensures Worth(s[..Significant(s)], e) == Worth(s, e)
  {
    var t := s[..Significant(s)];
    ZerosAbove(s, |t|, |s|);
    LowAgree(t, s, |t|);
    WorthScales(t, s, 1, e);
  }

  lemma {:induction false} WorthOfNothing(s: seq<Bigit>, e: nat)
    requires Significant(s) == 0
    ensures Worth(s, e) == 0
  {
    OnlySignificant(s, e);
    WorthIs(s[..0], e);
  }

  lemma {:induction false} BelowTop(s: seq<Bigit>, e: nat, n: nat)
    requires Top(s, e) <= n
    ensures Worth(s, e) < P(n)
  {
    if Significant(s) == 0 {
      WorthOfNothing(s, e);
    } else {
      OnlySignificant(s, e);
      FitsBelow(s[..Significant(s)], e, n);
    }
  }

  lemma {:induction false} AboveTop(s: seq<Bigit>, e: nat, n: nat)
    requires Top(s, e) > n
    ensures Worth(s, e) >= P(n)
  {
    var t := s[..Significant(s)];
    OnlySignificant(s, e);
    ValueAtLeast(t, e);
    PMonotone(n, e + |t| - 1);
  }

  /** The digits of a number spread over the positions it needs, and more. */
  lemma {:induction false} SpreadSignificant(s: seq<Bigit>, e: nat, m: nat) returns (x: seq<Bigit>)
    requires Top(s, e) <= m
    ensures |x| == m && Val(x) == Worth(s, e)
    ensures forall p :: 0 <= p < m ==> x[p] == At(s, e, p)
  {
    var t := s[..Significant(s)];
    if |t| == 0 {
      WorthOfNothing(s, e);
      x := Zeros(m);
      LowZeros(x, m);
    } else {
      OnlySignificant(s, e);
      x := Spread(t, e, m);
      forall p | 0 <= p < m
        ensures x[p] == At(s, e, p)
      {
        if e <= p < e + |t| {
          assert x[e + (p - e)] == t[p - e];
        }
      }
    }
  }

  /** The loop on spread digits. */
  lemma {:induction false} FromTheTopDecides(a: seq<Bigit>, ea: nat, b: seq<Bigit>, eb: nat, c: seq<Bigit>, ec: nat,
                                             x: seq<Bigit>, y: seq<Bigit>, z: seq<Bigit>, n: nat, difference: nat)
    requires |x| == |y| == |z| && n <= |x| && difference <= 1
    requires forall p :: 0 <= p < |x| ==> x[p] == At(a, ea, p) && y[p] == At(b, eb, p) && z[p] == At(c, ec, p)
    requires difference == High(z, n) - High(x, n) - High(y, n)
    ensures FromTheTop(a, ea, b, eb, c, ec, n, difference) == Sign(Val(x) + Val(y) - Val(z))
  {
    if n == 0 {
      AllDecided(x, y, z, 0);
    } else {
      AddCompareStep(x, y, z, n - 1, difference);
      var next := BASE * difference + z[n - 1] - x[n - 1] - y[n - 1];
      if 0 <= next <= 1 {
        FromTheTopDecides(a, ea, b, eb, c, ec, x, y, z, n - 1, next);
      }
    }
  }

  /** Without the length tests the loop is always right, whatever zeros lead the numbers. */
  lemma {:induction false} FromTheTopIsRight(a: seq<Bigit>, ea: nat, b: seq<Bigit>, eb: nat, c: seq<Bigit>, ec: nat,
                                             n: nat)
    requires Top(a, ea) <= n && Top(b, eb) <= n && Top(c, ec) <= n
    ensures FromTheTop(a, ea, b, eb, c, ec, n, 0) == Sign(Worth(a, ea) + Worth(b, eb) - Worth(c, ec))
  {
    var x := SpreadSignificant(a, ea, n);
    var y := SpreadSignificant(b, eb, n);
    var z := SpreadSignificant(c, ec, n);
    FromTheTopDecides(a, ea, b, eb, c, ec, x, y, z, n, 0);
  }

  // ---- The three-way comparison ----

  /** What `add_compare` answers: by the lengths if they differ enough, else by the values. */
  ghost function AddCompared(a: seq<Bigit>, ea: nat, b: seq<Bigit>, eb: nat, c: seq<Bigit>, ec: nat): int {
    var most := Longer(ea + |a|, eb + |b|);
    if most + 1 < ec + |c| then -1
    else if most > ec + |c| then 1
    else Sign(Worth(a, ea) + Worth(b, eb) - Worth(c, ec))
  }

  /**
   * The lengths mislead it: the digits that make the difference in length are all zero, and the positions that are
   * left say otherwise.
   */
  predicate AddMisled(a: seq<Bigit>, ea: nat, b: seq<Bigit>, eb: nat, c: seq<Bigit>, ec: nat) {
    var most, numC := Longer(ea + |a|, eb + |b|), ec + |c|;
    if most + 1 < numC then Top(c, ec) <= most + 1 && FromTheTop(a, ea, b, eb, c, ec, most + 1, 0) != -1
    else most > numC && Top(a, ea) <= numC && Top(b, eb) <= numC && FromTheTop(a, ea, b, eb, c, ec, numC, 0) != 1
  }

  lemma {:induction false} AddRightIff(a: seq<Bigit>, ea: nat, b: seq<Bigit>, eb: nat, c: seq<Bigit>, ec: nat)
    ensures AddCompared(a, ea, b, eb, c, ec) == Sign(Worth(a, ea) + Worth(b, eb) - Worth(c, ec)) <==>
            !AddMisled(a, ea, b, eb, c, ec)
  {
    var most, numC := Longer(ea + |a|, eb + |b|), ec + |c|;
    if most + 1 < numC {
      if Top(c, ec) <= most + 1 {
        FromTheTopIsRight(a, ea, b, eb, c, ec, most + 1);
      } else {
        AboveTop(c, ec, most + 1);
        BelowTop(a, ea, most);
        BelowTop(b, eb, most);
        TwoFit(Worth(a, ea), Worth(b, eb), P(most), Worth(c, ec));
      }
    } else if most > numC {
      BelowTop(c, ec, numC);
      if Top(a, ea) > numC {
        AboveTop(a, ea, numC);
      } else if Top(b, eb) > numC {
        AboveTop(b, eb, numC);
      } else {
        FromTheTopIsRight(a, ea, b, eb, c, ec, numC);
      }
    }
  }

  // ---- The comparison of two numbers ----

  /** What `compare` answers: by the lengths, then by the values, then by the number of digits. */
  ghost function Compared(s: seq<Bigit>, es: nat, t: seq<Bigit>, et: nat): int {
    if es + |s| != et + |t| then Sign(es + |s| - (et + |t|))
    else if Worth(s, es) != Worth(t, et) then Sign(Worth(s, es) - Worth(t, et))
    else Sign(|s| - |t|)
  }

  /** The lengths mislead it as above, or equal numbers of equal length have different numbers of digits. */
  predicate Misled(s: seq<Bigit>, es: nat, t: seq<Bigit>, et: nat) {
    var n, m := es + |s|, et + |t|;
    if n > m then Top(s, es) <= m && FromTheTop(s, es, [], 0, t, et, m, 0) != 1
    else if n < m then Top(t, et) <= n && FromTheTop(t, et, [], 0, s, es, n, 0) != 1
    else |s| != |t| && FromTheTop(s, es, [], 0, t, et, n, 0) == 0
  }

  lemma {:induction false} NoDigits()
    ensures Top([], 0) == 0 && Worth([], 0) == 0
  {
  }

  lemma {:induction false} LongerRightIff(s: seq<Bigit>, es: nat, t: seq<Bigit>, et: nat)
    requires es + |s| > et + |t|
    ensures Worth(s, es) > Worth(t, et) <==>
            !(Top(s, es) <= et + |t| && FromTheTop(s, es, [], 0, t, et, et + |t|, 0) != 1)
  {
    NoDigits();
    BelowTop(t, et, et + |t|);
    if Top(s, es) <= et + |t| {
      FromTheTopIsRight(s, es, [], 0, t, et, et + |t|);
    } else {
      AboveTop(s, es, et + |t|);
    }
  }

  lemma {:induction false} RightIff(s: seq<Bigit>, es: nat, t: seq<Bigit>, et: nat)
    ensures Compared(s, es, t, et) == Sign(Worth(s, es) - Worth(t, et)) <==> !Misled(s, es, t, et)
  {
    if es + |s| > et + |t| {
      LongerRightIff(s, es, t, et);
    } else if es + |s| < et + |t| {
      LongerRightIff(t, et, s, es);
    } else {
      NoDigits();
      FromTheTopIsRight(s, es, [], 0, t, et, es + |s|);
    }
  }
}
