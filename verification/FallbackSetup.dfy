/**
 fallback_format as a whole for a fixed number of digits: the numerator and
 denominator it sets up for f * 2^e and an estimated decimal exponent, and the digits
 that come out.
 */
module FallbackSetup {
  import opened Arithmetic
  import opened Bigits
  import opened BigintCompare
  import opened Bigints
  import opened Rounding
  import opened FallbackFormat

  function Two(k: int): (r: nat)
    ensures r > 0
  {
    if k >= 0 then Pow(2, k) else 1
  }

  function Ten(k: int): (r: nat)
    ensures r > 0
  {
    if k >= 0 then Pow(10, k) else 1
  }

  /** f * 2^e < 10^(exp10 + 1): the exponent estimate is not too small. */
  ghost predicate EstimateOk(f: nat, e: int, exp10: int) {
    f * Two(e) * Ten(-(exp10 + 1)) < Two(-e) * Ten(exp10 + 1)
  }

  /** value == (numerator / denominator) * 10^exp10. */
  ghost predicate SetUp(f: nat, e: int, exp10: int, v: nat, d: nat) {
    v * (Two(-e) * Ten(exp10)) == d * (f * Two(e) * Ten(-exp10))
  }

  // ------------------------------------------------- consequences of SetUp

  lemma BelowTen(f: nat, e: int, exp10: int, v: nat, d: nat)
    requires SetUp(f, e, exp10, v, d) && EstimateOk(f, e, exp10) && d > 0
    ensures v < 10 * d
  {
    TenNext(exp10);
    TenNext(-exp10 - 1);
    var a, b := Two(-e) * Ten(exp10), f * Two(e) * Ten(-exp10);
    assert b < 10 * a by {
      if exp10 >= 0 {
        Assoc(Two(-e), 10, Ten(exp10));
      } else {
        Assoc(f * Two(e), 10, Ten(-exp10 - 1));
      }
    }
    hide Two, Ten;
    RatioBelow(v, a, d, b);
  }

  lemma TenNext(k: int)
    ensures k >= 0 ==> Ten(k + 1) == 10 * Ten(k)
    ensures k < 0 ==> Ten(k + 1) == 1 && Ten(k) == 1
  {
  }

  lemma RatioBelow(v: nat, a: nat, d: nat, b: nat)
    requires v * a == d * b && b < 10 * a && d > 0
    ensures v < 10 * d
  {
    if v >= 10 * d {
      MulLe(10 * d, v, a);
      MulLt(b, 10 * a, d);
      Assoc(d, 10, a);
    }
  }

  /** 10^(n - 1 - x) * 10 * 10^x == 10^(x - n + 1) * 10^n * 10^(-x), negative powers left out. */
  lemma TenBalance(n: nat, x: int)
    ensures Ten(n - 1 - x) * 10 * Ten(x) == Ten(x - n + 1) * Pow(10, n) * Ten(-x)
  {
    TenCases(n - 1 - x);
    TenCases(x);
    TenCases(-x);
    TenCases(x - n + 1);
    hide Ten, Pow;
    if x < 0 {
      PowAdd(10, n, -x);
      PowTenNext(n - x - 1);
    } else if x <= n - 1 {
      PowAdd(10, n - 1 - x, x);
      PowTenNext(n - 1);
      Reorder(Pow(10, n - 1 - x), Pow(10, x));
    } else {
      PowAdd(10, x - n + 1, n);
      PowTenNext(x);
      PowZeroTen(n - 1 - x);
    }
  }

  lemma TenCases(k: int)
    ensures Ten(k) == if k > 0 then Pow(10, k) else 1
    ensures Pow(10, 0) == 1
  {
  }

  lemma PowZeroTen(k: int)
    requires k < 0
    ensures Ten(k) == 1
  {
  }

  lemma Reorder(a: nat, b: nat)
    ensures a * 10 * b == 10 * (a * b)
  {
    Assoc(10, a, b);
  }

  /** The rounded ratio of the bigints is the rounded value itself. */
  lemma SameRatio(f: nat, e: int, x: int, n: nat, v: nat, d: nat, shown: int)
    requires SetUp(f, e, x, v, d) && d > 0
    requires IsRounded(v * Pow(10, n), 10 * d, shown)
    ensures IsRounded(f * Two(e) * Ten(n - 1 - x), Two(-e) * Ten(x - n + 1), shown)
  {
    TenBalance(n, x);
    hide IsRounded, Pow, Two, Ten;
    CrossRatio(v, d, f * Two(e), Two(-e), Ten(x), Ten(-x), Ten(n - 1 - x), Ten(x - n + 1), Pow(10, n));
    PosProduct(Two(-e), Ten(x - n + 1));
    RoundedScale(v * Pow(10, n), 10 * d, f * Two(e) * Ten(n - 1 - x), Two(-e) * Ten(x - n + 1), shown);
  }

  lemma PosProduct(a: nat, b: nat)
    requires a > 0 && b > 0
    ensures a * b > 0
  {
  }

  lemma CrossRatio(v: nat, d: nat, g: nat, a: nat, tx: nat, tm: nat, up: nat, down: nat, pn: nat)
    requires v * (a * tx) == d * (g * tm) && tm > 0
    requires up * 10 * tx == down * pn * tm
    ensures v * pn * (a * down) == g * up * (10 * d)
  {
    var l, r := v * pn * (a * down), g * up * (10 * d);
    calc {
      l * tm;
      { Regroup1(v, pn, a, down, tm); }
      v * a * (down * pn * tm);
      v * a * (up * 10 * tx);
      { Regroup2(v, a, up, tx); }
      v * (a * tx) * (10 * up);
      d * (g * tm) * (10 * up);
      { Regroup3(d, g, tm, up); }
      r * tm;
    }
    CancelMul(l, r, tm);
  }

  lemma Regroup1(v: nat, pn: nat, a: nat, down: nat, tm: nat)
    ensures v * pn * (a * down) * tm == v * a * (down * pn * tm)
  {
    Swap4(v, pn, a, down);
    Assoc(v * a, down * pn, tm);
  }

  lemma Swap4(v: nat, p: nat, a: nat, b: nat)
    ensures v * p * (a * b) == v * a * (b * p)
  {
    Assoc(v, p, a * b);
    Assoc(v, a, b * p);
    assert p * (a * b) == a * (b * p) by {
      Assoc(a, b, p);
    }
  }

  lemma Regroup2(v: nat, a: nat, up: nat, tx: nat)
    ensures v * a * (up * 10 * tx) == v * (a * tx) * (10 * up)
  {
    Assoc(v, a, tx);
    Assoc(v * a, tx, 10 * up);
    assert up * 10 * tx == tx * (10 * up);
  }

  lemma Regroup3(d: nat, g: nat, tm: nat, up: nat)
    ensures d * (g * tm) * (10 * up) == g * up * (10 * d) * tm
  {
    Swap4(d, g * tm, up, 10);
    Assoc(d, g * tm, 10 * up);
    Assoc(g * tm, 10, up);
    Swap4(g, tm, up, 10 * d);
    Assoc(g * up, 10 * d, tm);
    assert d * (g * tm * (10 * up)) == g * tm * (up * (10 * d)) by {
      Assoc(g * tm, up, 10 * d);
      Assoc(d, g * tm, 10 * up);
      Assoc(g * tm, d, 10 * up);
      assert d * (10 * up) == up * (10 * d);
    }
  }

  // -------------------------------------------------------------- ties

  lemma {:induction false} FiveOdd(x: nat)
    ensures Pow(5, x) % 2 == 1
  {
    if x > 0 {
      FiveOdd(x - 1);
      OddTimesFive(Pow(5, x - 1));
    }
  }

  lemma OddTimesFive(n: nat)
    requires n % 2 == 1
    ensures 5 * n % 2 == 1
  {
    Quotient(5 * n, 2, 5 * (n / 2) + 2, 1);
  }

  lemma {:induction false} TwoNotFive(k: nat)
    ensures Pow(2, k) % 5 != 0
  {
    if k > 0 {
      TwoNotFive(k - 1);
      TwiceNotFive(Pow(2, k - 1));
    }
  }

  lemma TwiceNotFive(n: nat)
    requires n % 5 != 0
    ensures 2 * n % 5 != 0
  {
    var q, r := n / 5, n % 5;
    if r < 3 { Quotient(2 * n, 5, 2 * q, 2 * r); } else { Quotient(2 * n, 5, 2 * q + 1, 2 * r - 5); }
  }

  /** f * 2^(s + e) * 10^k is no multiple 10^x * 2^s of an odd power when e > x. */
  lemma NoTieInteger(f: nat, s: nat, e: nat, x: nat)
    requires e > x
    ensures NeverTies(f * Pow(2, s) * Pow(2, e), Pow(10, x) * Pow(2, s))
  {
    forall k: nat ensures f * Pow(2, s) * Pow(2, e) * Pow(10, k) != Pow(10, x) * Pow(2, s) {
      FiveOdd(x);
      PowTen(x);
      PowAdd(2, x, e - x);
      assert Pow(2, e - x) == 2 * Pow(2, e - x - 1);
      hide Pow;
      EvenOdd(f, Pow(2, s), Pow(2, x), Pow(2, e - x - 1), Pow(10, k), Pow(5, x));
    }
  }

  lemma EvenOdd(f: nat, s: nat, p: nat, half: nat, t: nat, five: nat)
    requires s > 0 && p > 0 && five % 2 == 1
    ensures f * s * (p * (2 * half)) * t != five * p * s
  {
    var m := f * half * t;
    assert f * s * (p * (2 * half)) * t == 2 * m * p * s by {
      Swap4(f, s, p, 2 * half);
      assert f * s * (p * (2 * half)) == f * p * (2 * half * s);
      Assoc(f * p, 2 * half, s);
      Swap4(f, p, 2, half);
      TieShuffle(f, p, half, s, t);
    }
    if 2 * m * p * s == five * p * s {
      CancelMul(2 * m * p, five * p, s);
      CancelMul(2 * m, five, p);
    }
  }

  lemma TieShuffle(f: nat, p: nat, half: nat, s: nat, t: nat)
    ensures f * p * (2 * half) * s * t == 2 * (f * half * t) * p * s
  {
    Assoc(f * p * (2 * half), s, t);
    Assoc(f * p * (2 * half), t, s);
    assert f * p * (2 * half) * t == 2 * (f * half * t) * p by {
      Swap4(f, p, 2, half);
      assert f * p * (2 * half) == 2 * (f * half) * p by {
        Assoc(f, p, 2 * half);
        Assoc(f, 2 * half, p);
        Assoc(f, 2, half);
        Assoc(2, f, half);
      }
      Assoc(2 * (f * half), p, t);
      Assoc(2 * (f * half), t, p);
      Assoc(2, f * half, t);
    }
  }

  /** A negative power of ten leaves a factor five that no power of two has. */
  lemma NoTieFraction(f: nat, y: nat, z: nat)
    requires y > 0
    ensures NeverTies(Pow(10, y) * f, Pow(2, z))
  {
    forall k: nat ensures Pow(10, y) * f * Pow(10, k) != Pow(2, z) {
      TwoNotFive(z);
      PowTenNext(y - 1);
      hide Pow;
      FiveDivides(Pow(10, y - 1), f, Pow(10, k));
    }
  }

  lemma FiveDivides(p: nat, f: nat, t: nat)
    ensures 10 * p * f * t % 5 == 0
  {
    Assoc(10, p, f);
    Assoc(10, p * f, t);
  }

  // ------------------------------------------------------------- the function

  /** value.e >= 0: f * 2^e over 10^exp10, both carrying the extra shift. */
  method SetUpInteger(numerator: Bigint, denominator: Bigint, f: nat, e: nat, shift: nat, exp10: nat)
    requires numerator != denominator && 0 < f && 1 <= shift <= 2 && 4 * f < TWO_POW_64 && exp10 < MAX_BIGITS
    modifies numerator, denominator
    ensures SetUp(f, e, exp10, Value(numerator.AsNum()), Value(denominator.AsNum()))
    ensures Positive(numerator.bigits) && Positive(denominator.bigits)
    ensures TieSafe(numerator.AsNum(), denominator.AsNum())
  {
    hide Val, Pow, Value, Two, Ten, NeverTies;
    SmallShift(shift);
    numerator.Assign(f * Pow(2, shift));
    numerator.ShiftAssign(e);
    denominator.AssignPow10(exp10);
    denominator.ShiftAssign(shift);
    IntegerSetUp(f, e, shift, exp10);
    if e > exp10 {
      NoTieInteger(f, shift, e, exp10);
    } else {
      DivMono(e, exp10);
    }
  }

  lemma SmallShift(s: nat)
    requires 1 <= s <= 2
    ensures Pow(2, s) == 2 * s
  {
    assert Pow(2, 1) == 2 && Pow(2, 2) == 4 by { assert Pow(2, 0) == 1; }
  }

  lemma DivMono(a: nat, b: nat)
    requires a <= b
    ensures a / BITS <= b / BITS
  {
  }

  lemma IntegerSetUp(f: nat, e: int, s: nat, x: int)
    requires e >= 0 && x >= 0
    ensures SetUp(f, e, x, f * Pow(2, s) * Pow(2, e), Pow(10, x) * Pow(2, s))
  {
    assert Two(-e) == 1 && Ten(-x) == 1 by { assert Pow(2, 0) == 1 && Pow(10, 0) == 1; }
    hide Pow;
    Swap4(f * Pow(2, s), Pow(2, e), 1, Pow(10, x));
    IntegerShuffle(f, Pow(2, s), Pow(2, e), Pow(10, x));
  }

  lemma IntegerShuffle(f: nat, s: nat, p: nat, t: nat)
    ensures f * s * p * (1 * t) == t * s * (f * p * 1)
  {
    Assoc(f, s, p);
    Assoc(f, p, s);
    Assoc(f * p, s, t);
    assert f * s * p == f * p * s;
  }

  /** value.e < 0 with a negative decimal exponent: 10^-exp10 * f over 2^-e. */
  method SetUpTiny(numerator: Bigint, denominator: Bigint, f: nat, e: int, shift: nat, exp10: int)
    requires numerator != denominator && 0 < f && 1 <= shift <= 2 && 4 * f < TWO_POW_64
    requires e < 0 && exp10 < 0 && -exp10 < MAX_BIGITS
    modifies numerator, denominator
    ensures SetUp(f, e, exp10, Value(numerator.AsNum()), Value(denominator.AsNum()))
    ensures Positive(numerator.bigits) && Positive(denominator.bigits)
    ensures TieSafe(numerator.AsNum(), denominator.AsNum())
  {
    hide Val, Pow, Value, Two, Ten, NeverTies, MulSeq;
    SmallShift(shift);
    numerator.AssignPow10(-exp10);
    MulSeqTrimmed(numerator.bigits, f * Pow(2, shift), 0);
    numerator.TimesAssign64(f * Pow(2, shift));
    denominator.Assign(1);
    denominator.ShiftAssign(shift - e);
    TinySetUp(f, -e, shift, -exp10);
    NoTieFraction(f * Pow(2, shift), -exp10, shift - e);
  }

  lemma TinySetUp(f: nat, e: int, s: nat, x: int)
    requires e > 0 && x > 0
    ensures SetUp(f, -e, -x, Pow(10, x) * (f * Pow(2, s)), 1 * Pow(2, s + e))
  {
    PowAdd(2, s, e);
    assert Two(-e) == 1 && Ten(-x) == 1;
    hide Pow;
    TinyShuffle(f, Pow(2, s), Pow(2, e), Pow(10, x));
  }

  lemma TinyShuffle(f: nat, s: nat, p: nat, t: nat)
    ensures t * (f * s) * (p * 1) == 1 * (s * p) * (f * 1 * t)
  {
    Assoc(t, f * s, p);
    Assoc(f, s, p);
    assert t * (f * (s * p)) == s * p * (f * t) by {
      Assoc(t, f, s * p);
    }
  }

  /** value.e < 0 otherwise: f over 10^exp10 * 2^-e. */
  method SetUpFraction(numerator: Bigint, denominator: Bigint, f: nat, e: int, shift: nat, exp10: nat)
    requires numerator != denominator && 0 < f && 1 <= shift <= 2 && 4 * f < TWO_POW_64
    requires e < 0 && exp10 < MAX_BIGITS
    modifies numerator, denominator
    ensures SetUp(f, e, exp10, Value(numerator.AsNum()), Value(denominator.AsNum()))
    ensures Positive(numerator.bigits) && Positive(denominator.bigits)
    ensures TieSafe(numerator.AsNum(), denominator.AsNum())
  {
    hide Val, Pow, Value, Two, Ten, NeverTies;
    SmallShift(shift);
    numerator.Assign(f * Pow(2, shift));
    denominator.AssignPow10(exp10);
    denominator.ShiftAssign(shift - e);
    FractionSetUp(f, -e, shift, exp10);
  }

  lemma FractionSetUp(f: nat, e: int, s: nat, x: int)
    requires e > 0 && x >= 0
    ensures SetUp(f, -e, x, f * Pow(2, s), Pow(10, x) * Pow(2, s + e))
  {
    PowAdd(2, s, e);
    assert Two(-e) == 1 && Ten(-x) == 1 by { assert Pow(10, 0) == 1; }
    hide Pow;
    FractionShuffle(f, Pow(2, s), Pow(2, e), Pow(10, x));
  }

  lemma FractionShuffle(f: nat, s: nat, p: nat, t: nat)
    ensures f * s * (p * t) == t * (s * p) * (f * 1 * 1)
  {
    Assoc(f, s, p * t);
    Assoc(s, p, t);
    assert f * (s * p * t) == t * (s * p) * f;
  }

  /**
   fallback_format for num_digits >= 0, given value.f, value.e and the decimal exponent
   estimate: the buffer, scaled by the resulting exponent, is f * 2^e rounded to
   numDigits digits counted from 10^exp10, ties to even.
   */
  method FormatFixed(f: nat, e: int, predecessorCloser: bool, numDigits: nat, exp10: int)
    returns (buf: seq<int>, exp: int)
    requires 0 < f && 4 * f < TWO_POW_64
    requires e >= 0 ==> exp10 >= 0
    requires -exp10 < MAX_BIGITS && exp10 < MAX_BIGITS
    requires EstimateOk(f, e, exp10)
    ensures WellFormed(buf, exp, exp10, numDigits)
    ensures IsRounded(f * Two(e) * Ten(numDigits - 1 - exp10), Two(-e) * Ten(exp10 - numDigits + 1),
                      Shown(buf, exp, exp10, numDigits))
  {
    hide Val, Pow, Value, Two, Ten, NeverTies, IsRounded, SetUp, EstimateOk;
    var numerator := new Bigint();
    var denominator := new Bigint();
    var shift := if predecessorCloser then 2 else 1;
    if e >= 0 {
      SetUpInteger(numerator, denominator, f, e, shift, exp10);
    } else if exp10 < 0 {
      SetUpTiny(numerator, denominator, f, e, shift, exp10);
    } else {
      SetUpFraction(numerator, denominator, f, e, shift, exp10);
    }
    ghost var v, d := Value(numerator.AsNum()), Value(denominator.AsNum());
    ValuePositive(denominator.AsNum());
    BelowTen(f, e, exp10, v, d);
    buf, exp := GenerateDigits(numerator, denominator, numDigits, exp10);
    SameRatio(f, e, exp10, numDigits, v, d, Shown(buf, exp, exp10, numDigits));
  }
}
