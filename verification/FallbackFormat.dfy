/**
 The fixed-digit part of fallback_format: decimal digits of a floating-point value
 by exact division, correctly rounded.
 */
module FallbackFormat {
  import opened Arithmetic
  import opened Bigits
  import opened BigintCompare
  import opened Bigints
  import opened Rounding

  /** The numerator never meets the denominator exactly, however often it is multiplied by ten. */
  ghost predicate NeverTies(v: nat, d: nat) {
    forall k: nat :: v * Pow(10, k) != d
  }

  /** compare can be trusted: no zero bigits of the denominator hidden from it. */
  ghost predicate TieSafe(n: Num, d: Num) {
    n.exp <= d.exp || NeverTies(Value(n), Value(d))
  }

  // ------------------------------------------------------------ digit steps

  /** A value below ten denominators has at most one bigit more. */
  lemma TenFits(n: Num, d: Num)
    requires Positive(d.bigits) && Bounded(n, NumBigits(d))
    requires Value(n) < 10 * Value(d)
    ensures NumBigits(n) <= NumBigits(d) + 1
  {
    if Positive(n.bigits) && NumBigits(n) > NumBigits(d) + 1 {
      LongValue(n, d);
    }
  }

  lemma LongValue(n: Num, d: Num)
    requires Positive(n.bigits) && NumBigits(n) > NumBigits(d) + 1
    ensures Value(n) >= BASE * Value(d)
  {
    ValueBound(n);
    ValueBound(d);
    PowMono(BASE, NumBigits(d) + 1, NumBigits(n) - 1);
    assert Pow(BASE, NumBigits(d) + 1) == BASE * Pow(BASE, NumBigits(d));
  }

  lemma TimesTen(n: Num, limit: nat)
    requires Bounded(n, limit)
    ensures var m := Num(MulSeq(n.bigits, 10, 0), n.exp);
      Bounded(m, limit) && (n.bigits == [0] ==> m == n)
  {
    MulSeqTrimmed(n.bigits, 10, 0);
  }

  /** The invariant of the digit loop: v * 10^i == 10 * digits * d + what is left. */
  lemma DigitTurn10(v: nat, p: nat, b: nat, d: nat, n: nat, digit: nat, r: nat)
    requires v * p == 10 * b * d + n && n == digit * d + r
    ensures v * (10 * p) == 10 * (10 * b + digit) * d + r * 10
    ensures v * p == (10 * b + digit) * d + r
  {
    Assoc(v, 10, p);
    Assoc(10, v, p);
    Distrib(d, 10 * b, digit);
    Assoc(10, 10 * b + digit, d);
  }

  lemma DigitBound(digit: nat, d: nat, r: nat)
    requires digit * d + r < 10 * d
    ensures digit <= 9
  {
    if digit > 9 { MulLe(10, digit, d); }
  }

  lemma RoundDigit(p: nat, q: nat, d: nat, r: nat, up: bool)
    requires p == q * d + r && r < d
    requires up <==> 2 * r > d || (2 * r == d && q % 2 != 0)
    ensures IsRounded(p, d, if up then q + 1 else q)
  {
    Distrib(d, q, 1);
  }

  lemma RoundTen(p: nat, q: nat, r: nat)
    requires IsRounded(p, q, r)
    ensures IsRounded(10 * p, 10 * q, r)
  {
    Assoc(10, r, q);
    Assoc(r, 10, q);
  }

  // ------------------------------------------------------------ digit loop

  /**
   The digits asked for, the last of weight 10^exp. That is one place higher exactly when
   the number is the power of ten that a carry out of nines makes; the digits are then a
   one and zeros.
   */
  predicate WellFormed(buf: seq<int>, exp: int, exp10: int, numDigits: nat) {
    && AllDigits(buf) && |buf| == (if numDigits == 0 then 1 else numDigits)
    && (exp == exp10 - numDigits + 1 || (exp == exp10 - numDigits + 2 && numDigits > 0 && OneAndZeros(buf)))
    && (numDigits > 0 ==>
          (exp == exp10 - numDigits + 2 <==> Shown(buf, exp, exp10, numDigits) == Pow(10, numDigits)))
  }

  /** The number buffer and exponent denote, in units of 10^(exp10 - numDigits + 1). */
  function Shown(buf: seq<int>, exp: int, exp10: int, numDigits: nat): int {
    if exp == exp10 - numDigits + 1 then Spelled(buf) else 10 * Spelled(buf)
  }

  /** There is only one buffer and exponent for a ratio rounded to a number of digits. */
  lemma OutputUnique(p: nat, q: nat, exp10: int, numDigits: nat, buf: seq<int>, exp: int, buf': seq<int>, exp': int)
    requires q > 0 && WellFormed(buf, exp, exp10, numDigits) && WellFormed(buf', exp', exp10, numDigits)
    requires IsRounded(p, q, Shown(buf, exp, exp10, numDigits)) && IsRounded(p, q, Shown(buf', exp', exp10, numDigits))
    ensures buf == buf' && exp == exp'
  {
    SpelledBound(buf);
    SpelledBound(buf');
    RoundedUnique(p, q, Shown(buf, exp, exp10, numDigits), Shown(buf', exp', exp10, numDigits));
    SpelledInjective(buf, buf');
  }

  /** Rounding the last digit up, with the carry out of nines. */
  method RoundUp(buf: seq<int>, exp: int) returns (buf': seq<int>, exp': int)
    requires buf != [] && AllDigits(buf)
    ensures AllDigits(buf') && |buf'| == |buf|
    ensures exp' == exp || exp' == exp + 1
    ensures Spelled(buf) + 1 == if exp' == exp then Spelled(buf') else 10 * Spelled(buf')
    ensures exp' == exp + 1 <==> Spelled(buf) + 1 == Pow(10, |buf|)
    ensures exp' == exp + 1 ==> OneAndZeros(buf')
  {
    var n := |buf|;
    buf', exp' := buf[n - 1 := buf[n - 1] + 1], exp;
    assert buf'[..n - 1] == buf[..n - 1];
    if buf[n - 1] == OVERFLOW - 1 {
      buf' := Carry(buf');
      if buf'[0] == OVERFLOW {
        LeadingOne(buf');
        buf' := buf'[0 := ZERO + 1];
        exp' := exp' + 1;
        OneAndZerosSpelled(buf');
        return;
      }
    }
    SpelledBound(buf');
  }

  /** The carry out of a last character one past nine, as far as it goes. */
  method Carry(buf: seq<int>) returns (buf': seq<int>)
    requires buf != [] && buf[|buf| - 1] == OVERFLOW && forall j | 0 <= j < |buf| - 1 :: IsDigit(buf[j])
    ensures |buf'| == |buf| && Spelled(buf') == Spelled(buf)
    ensures forall j | 0 < j < |buf| :: IsDigit(buf'[j])
    ensures IsDigit(buf'[0]) || (buf'[0] == OVERFLOW && forall j | 0 < j < |buf| :: buf'[j] == ZERO)
  {
    var n := |buf|;
    buf' := buf;
    var i := n - 1;
    while i > 0 && buf'[i] == OVERFLOW
      invariant 0 <= i < n == |buf'|
      invariant Spelled(buf') == Spelled(buf)
      invariant forall j | 0 <= j < i :: IsDigit(buf'[j])
      invariant ZERO <= buf'[i] <= OVERFLOW
      invariant forall j | i < j < n :: buf'[j] == ZERO
    {
      SpelledCarry(buf', i);
      buf' := buf'[i := ZERO];
      buf' := buf'[i - 1 := buf'[i - 1] + 1];
      i := i - 1;
    }
  }

  /** Generates numDigits digits of numerator / denominator. */
  method GenerateDigits(numerator: Bigint, denominator: Bigint, numDigits: nat, exp10: int)
    returns (buf: seq<int>, exp: int)
    requires numerator != denominator
    requires Positive(denominator.bigits) && Bounded(numerator.AsNum(), NumBigits(denominator.AsNum()))
    requires Value(numerator.AsNum()) < 10 * Value(denominator.AsNum())
    requires TieSafe(numerator.AsNum(), denominator.AsNum())
    modifies numerator, denominator
    ensures WellFormed(buf, exp, exp10, numDigits)
    ensures IsRounded(old(Value(numerator.AsNum())) * Pow(10, numDigits), 10 * old(Value(denominator.AsNum())),
                      Shown(buf, exp, exp10, numDigits))
  {
    exp := exp10 - (numDigits - 1);
    if numDigits == 0 {
      PowTenZero(Value(numerator.AsNum()), 1);
      buf := NoDigits(numerator, denominator);
      SpelledPush([], buf[0]);
      assert [] + [buf[0]] == buf;
      return;
    }
    hide Val, Pow, Value, NeverTies, IsRounded, MulSeq;
    ghost var v, d := Value(numerator.AsNum()), Value(denominator.AsNum());
    buf := LeadingDigits(numerator, denominator, numDigits);
    ghost var b, n := Spelled(buf), Value(numerator.AsNum());
    var digit, up := LastDigit(numerator, denominator);
    ghost var r := Value(numerator.AsNum());
    Finish(v, numDigits, b, d, n, digit, r, up);
    SpelledPush(buf, ZERO + digit);
    buf := buf + [ZERO + digit];
    SpelledBound(buf);
    if up {
      buf, exp := RoundUp(buf, exp);
    }
  }

  /** The last digit and whether it is rounded up: past half, or at half when odd. */
  method LastDigit(numerator: Bigint, denominator: Bigint) returns (digit: nat, up: bool)
    requires numerator != denominator
    requires Positive(denominator.bigits) && Bounded(numerator.AsNum(), NumBigits(denominator.AsNum()))
    requires Value(numerator.AsNum()) < 10 * Value(denominator.AsNum())
    requires TieSafe(numerator.AsNum(), denominator.AsNum())
    modifies numerator
    ensures digit <= 9
    ensures var d, r := Value(denominator.AsNum()), Value(numerator.AsNum());
      && old(Value(numerator.AsNum())) == digit * d + r && r < d
      && (up <==> 2 * r > d || (2 * r == d && digit % 2 != 0))
  {
    hide Val, Pow, Value, NeverTies;
    TenFits(numerator.AsNum(), denominator.AsNum());
    TieOnce(numerator.AsNum(), denominator.AsNum());
    digit := numerator.DivmodAssign(denominator);
    DigitBound(digit, Value(denominator.AsNum()), Value(numerator.AsNum()));
    var result := AddCompare(numerator.AsNum(), numerator.AsNum(), denominator.AsNum());
    up := result > 0 || (result == 0 && digit % 2 != 0);
  }

  lemma Finish(v: nat, numDigits: nat, b: nat, d: nat, n: nat, digit: nat, r: nat, up: bool)
    requires numDigits > 0 && v * Pow(10, numDigits - 1) == 10 * b * d + n
    requires n == digit * d + r && r < d
    requires up <==> 2 * r > d || (2 * r == d && digit % 2 != 0)
    ensures IsRounded(v * Pow(10, numDigits), 10 * d, if up then 10 * b + digit + 1 else 10 * b + digit)
  {
    hide Pow, IsRounded;
    var p := Pow(10, numDigits - 1);
    DigitTurn10(v, p, b, d, n, digit, r);
    RoundDigit(v * p, 10 * b + digit, d, r, up);
    TenPower(v, numDigits);
    RoundTen(v * p, d, if up then 10 * b + digit + 1 else 10 * b + digit);
  }

  /** The digits before the last, each an exact quotient; what is left stays in the numerator. */
  method LeadingDigits(numerator: Bigint, denominator: Bigint, numDigits: nat) returns (buf: seq<int>)
    requires numDigits > 0 && numerator != denominator
    requires Positive(denominator.bigits) && Bounded(numerator.AsNum(), NumBigits(denominator.AsNum()))
    requires Value(numerator.AsNum()) < 10 * Value(denominator.AsNum())
    requires TieSafe(numerator.AsNum(), denominator.AsNum())
    modifies numerator
    ensures AllDigits(buf) && |buf| == numDigits - 1
    ensures Bounded(numerator.AsNum(), NumBigits(denominator.AsNum()))
    ensures TieSafe(numerator.AsNum(), denominator.AsNum())
    ensures Value(numerator.AsNum()) < 10 * Value(denominator.AsNum())
    ensures Spelled(buf) >= 0
    ensures old(Value(numerator.AsNum())) * Pow(10, numDigits - 1)
         == 10 * Spelled(buf) * Value(denominator.AsNum()) + Value(numerator.AsNum())
  {
    ghost var v, d := Value(numerator.AsNum()), Value(denominator.AsNum());
    buf := [];
    PowTenZero(v, d);
    hide Val, Pow, Value, MulSeq, NeverTies;
    for i := 0 to numDigits - 1
      invariant |buf| == i && AllDigits(buf) && Spelled(buf) >= 0
      invariant Bounded(numerator.AsNum(), NumBigits(denominator.AsNum()))
      invariant TieSafe(numerator.AsNum(), denominator.AsNum())
      invariant Value(numerator.AsNum()) < 10 * d
      invariant v * Pow(10, i) == 10 * Spelled(buf) * d + Value(numerator.AsNum())
    {
      ghost var n := Value(numerator.AsNum());
      var digit, r := NextDigit(numerator, denominator);
      DigitTurn10(v, Pow(10, i), Spelled(buf), d, n, digit, r);
      PowTenNext(i);
      SpelledPush(buf, ZERO + digit);
      buf := buf + [ZERO + digit];
    }
  }

  /** One digit is divided off, and the remainder r moved up by one place. */
  method NextDigit(numerator: Bigint, denominator: Bigint) returns (digit: nat, ghost r: nat)
    requires numerator != denominator
    requires Positive(denominator.bigits) && Bounded(numerator.AsNum(), NumBigits(denominator.AsNum()))
    requires Value(numerator.AsNum()) < 10 * Value(denominator.AsNum())
    requires TieSafe(numerator.AsNum(), denominator.AsNum())
    modifies numerator
    ensures digit <= 9 && r < Value(denominator.AsNum())
    ensures old(Value(numerator.AsNum())) == digit * Value(denominator.AsNum()) + r
    ensures Value(numerator.AsNum()) == 10 * r
    ensures Bounded(numerator.AsNum(), NumBigits(denominator.AsNum()))
    ensures TieSafe(numerator.AsNum(), denominator.AsNum())
  {
    hide Val, Pow, Value, MulSeq, NeverTies;
    TenFits(numerator.AsNum(), denominator.AsNum());
    TieOnce(numerator.AsNum(), denominator.AsNum());
    digit := numerator.DivmodAssign(denominator);
    r := Value(numerator.AsNum());
    DigitBound(digit, Value(denominator.AsNum()), r);
    TimesTen(numerator.AsNum(), NumBigits(denominator.AsNum()));
    TieTen(numerator.AsNum(), denominator.AsNum());
    numerator.TimesAssign32(10);
  }

  /** num_digits == 0: the value against half of ten. */
  method NoDigits(numerator: Bigint, denominator: Bigint) returns (buf: seq<int>)
    requires numerator != denominator
    requires Positive(denominator.bigits) && Bounded(numerator.AsNum(), NumBigits(denominator.AsNum()))
    requires Value(numerator.AsNum()) < 10 * Value(denominator.AsNum())
    modifies denominator
    ensures |buf| == 1 && IsDigit(buf[0])
    ensures IsRounded(Value(numerator.AsNum()), 10 * old(Value(denominator.AsNum())), buf[0] - ZERO)
  {
    hide Val, Pow, Value, MulSeq;
    TimesTenPositive(denominator.bigits);
    denominator.TimesAssign32(10);
    var result := AddCompare(numerator.AsNum(), numerator.AsNum(), denominator.AsNum());
    buf := [if result > 0 then ZERO + 1 else ZERO];
  }

  lemma TimesTenPositive(s: seq<Bigit>)
    requires Positive(s)
    ensures Positive(MulSeq(s, 10, 0)) && |s| <= |MulSeq(s, 10, 0)|
  {
    MulSeqTrimmed(s, 10, 0);
  }

  lemma PowTenZero(v: nat, d: nat)
    ensures v * Pow(10, 0) == v == 10 * Spelled([]) * d + v
  {
    assert Pow(10, 0) == 1 && Spelled([]) == 0;
  }

  lemma PowTenNext(i: nat)
    ensures Pow(10, i + 1) == 10 * Pow(10, i)
  {
  }

  lemma TenPower(v: nat, n: nat)
    requires n > 0
    ensures v * Pow(10, n) == 10 * (v * Pow(10, n - 1))
  {
    Assoc(v, 10, Pow(10, n - 1));
    Assoc(10, v, Pow(10, n - 1));
  }

  lemma TieOnce(n: Num, d: Num)
    requires TieSafe(n, d)
    ensures Value(n) == Value(d) ==> n.exp <= d.exp
  {
    assert Pow(10, 0) == 1;
    assert NeverTies(Value(n), Value(d)) ==> Value(n) * Pow(10, 0) != Value(d);
  }

  lemma TieTen(n: Num, d: Num)
    requires TieSafe(n, d)
    ensures forall m: Num | m.exp == n.exp && Value(m) == Value(n) * 10 :: TieSafe(m, d)
  {
    if NeverTies(Value(n), Value(d)) {
      var v := Value(n);
      forall k: nat ensures v * 10 * Pow(10, k) != Value(d) {
        assert v * Pow(10, k + 1) != Value(d);
        Assoc(v, 10, Pow(10, k));
      }
    }
  }
}
