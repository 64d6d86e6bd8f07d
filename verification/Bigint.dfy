/**
 class bigint: arbitrary-precision naturals updated in place, each operation proved
 against the value it denotes.
 */
module Bigints {
  import opened Wrappers
  import opened Arithmetic
  import opened Bigits
  import opened BigintCompare
  import opened BigintSquare

  const BITS: nat := 32
  const MAX_BIGITS: nat := 0x4000_0000

  // ------------------------------------------------------------- shift by bits

  lemma PowTwo32()
    ensures Pow(2, BITS) == BASE
  {
    assert Pow(2, 8) == 256;
    PowAdd(2, 8, 8);
    PowAdd(2, 16, 16);
  }

  lemma PowTwoSplit(s: nat)
    requires s <= BITS
    ensures Pow(2, s) * Pow(2, BITS - s) == BASE
  {
    hide Pow;
    PowTwo32();
    PowAdd(2, s, BITS - s);
  }

  /** Shifting one bigit and adding the carry is one step of multiplying by 2^s. */
  lemma ShiftStep(d: Bigit, carry: nat, p: nat, q: nat)
    requires p * q == BASE && p > 0 && q > 0 && carry < p
    ensures (d * p) % BASE + carry == (d * p + carry) % BASE < BASE
    ensures d / q == (d * p + carry) / BASE < p
  {
    DivMod(d, q);
    ShiftCore(d, d / q, d % q, carry, p, q);
  }

  lemma DivMod(d: nat, q: nat)
    requires q > 0
    ensures d == (d / q) * q + d % q && d % q < q
  {
  }

  lemma ShiftCore(d: nat, h: nat, l: nat, carry: nat, p: nat, q: nat)
    requires p * q == BASE && p > 0 && carry < p
    requires d == h * q + l && l < q && d < BASE
    ensures (d * p) % BASE + carry == (d * p + carry) % BASE < BASE
    ensures h == (d * p + carry) / BASE < p
  {
    Distrib(p, h * q, l);
    Assoc(h, q, p);
    MulLt(l, q, p);
    Quotient(d * p, BASE, h, l * p);
    Quotient(d * p + carry, BASE, h, l * p + carry);
    if h >= p {
      MulLe(p, h, q);
    }
  }

  /** 2^(32 k) is BASE^k. */
  lemma {:induction false} PowBits(k: nat)
    ensures Pow(2, BITS * k) == Pow(BASE, k)
  {
    if k > 0 {
      PowBits(k - 1);
      PowAdd(2, BITS, BITS * (k - 1));
      PowTwo32();
    }
  }

  // -------------------------------------------------------------------- trim

  /** The bigits below and including the top nonzero one, at least one bigit. */
  function Trim(s: seq<Bigit>): (t: seq<Bigit>)
    ensures Val(t) == Val(s) && t <= s
    ensures s != [] ==> Trimmed(t)
    ensures Trimmed(s) ==> t == s
  {
    if |s| > 1 && s[|s| - 1] == 0 then
      ValDropZeros(s, |s| - 1);
      Trim(s[..|s| - 1])
    else s
  }

  // ------------------------------------------------------- repeated subtraction

  /** How far above n's lowest bigit d's lowest one lies. */
  function Offset(n: Num, d: Num): nat
    requires n.exp <= d.exp
  {
    d.exp - n.exp
  }

  /** compare's verdict that n >= d leaves room for the subtraction and its borrow. */
  lemma SubFits(n: Num, d: Num)
    requires n.exp <= d.exp && Compare(n, d) >= 0
    ensures var k := Offset(n, d);
      && k + |d.bigits| <= |n.bigits|
      && (Val(n.bigits[k..k + |d.bigits|]) < Val(d.bigits) ==> k + |d.bigits| < |n.bigits|)
  {
    var k := Offset(n, d);
    if k + |d.bigits| == |n.bigits| {
      assert n.bigits[k..|n.bigits|] == n.bigits[k..];
      CompareTopVal(n.bigits, n.exp, d.bigits, d.exp);
      ValSplit(n.bigits, k);
      ValBound(n.bigits[..k]);
      PowAdd(BASE, n.exp, k);
      hide Val, Pow;
      TopFits(Val(n.bigits), Val(n.bigits[..k]), Pow(BASE, k), Val(n.bigits[k..]), Val(d.bigits), Pow(BASE, n.exp));
    }
  }

  lemma TopFits(v: nat, low: nat, p: nat, top: nat, w: nat, q: nat)
    requires v == low + p * top && low < p && q > 0
    requires v * q >= w * (q * p)
    ensures top >= w
  {
    if top < w {
      MulLt(top, w, p);
      Assoc(w, p, q);
      MulLt(v, w * p, q);
    }
  }

  /** One turn of subtract_aligned. */
  function SubtractStep(n: Num, d: Num): Num
    requires n.exp <= d.exp && Compare(n, d) >= 0
  {
    SubFits(n, d);
    Num(Trim(SubAligned(n.bigits, Offset(n, d), d.bigits)), n.exp)
  }

  predicate Stuck(n: Num, d: Num)
    requires n.exp <= d.exp && Compare(n, d) >= 0
  {
    SubFits(n, d);
    BorrowStuck(n.bigits, Offset(n, d), d.bigits)
  }

  /**
   subtract_aligned subtracts exactly when its borrow loop is not stuck; when it is,
   the result is larger than the minuend.
   */
  lemma SubtractStepVal(n: Num, d: Num)
    requires n.exp <= d.exp && Compare(n, d) >= 0
    ensures Value(SubtractStep(n, d)) + Value(d)
         == Value(n) + if Stuck(n, d) then (BASE - 1) * Pow(BASE, NumBigits(d)) else 0
  {
    hide Val, Pow, Trim, SubAligned, Compare, CompareTop, BorrowStuck;
    SubFits(n, d);
    var k := Offset(n, d);
    SubAlignedVal(n.bigits, k, d.bigits);
    PowAdd(BASE, n.exp, k);
    PowAdd(BASE, n.exp, k + |d.bigits|);
    var e := if Stuck(n, d) then BASE - 1 else 0;
    ScaleSub(Val(SubAligned(n.bigits, k, d.bigits)), Pow(BASE, k), Val(d.bigits), Val(n.bigits), e,
             Pow(BASE, k + |d.bigits|), Pow(BASE, n.exp));
  }

  lemma ScaleSub(r: nat, p: nat, w: nat, v: nat, e: nat, u: nat, q: nat)
    requires r + p * w == v + e * u
    ensures r * q + w * (q * p) == v * q + e * (q * u)
  {
    Distrib(q, r, p * w);
    Distrib(q, v, e * u);
    Assoc(w, p, q);
    Assoc(e, u, q);
  }

  /** With the minuend at most one bigit longer the borrow always finds a nonzero bigit. */
  lemma NotStuck(n: Num, d: Num)
    requires n.exp <= d.exp && Compare(n, d) >= 0
    requires Positive(n.bigits) && NumBigits(n) <= NumBigits(d) + 1
    ensures !Stuck(n, d)
  {
  }

  /**
   With a minuend two or more bigits longer, subtraction leaves its top bigit alone,
   so the loop of divmod_assign goes round again.
   */
  lemma LongStaysLong(n: Num, d: Num)
    requires n.exp <= d.exp && Compare(n, d) >= 0
    requires Positive(n.bigits) && NumBigits(n) > NumBigits(d) + 1
    ensures var n' := SubtractStep(n, d);
      && n'.exp == n.exp && NumBigits(n') == NumBigits(n)
      && Positive(n'.bigits) && Compare(n', d) >= 0
  {
    SubFits(n, d);
    var k := Offset(n, d);
    SubAlignedVal(n.bigits, k, d.bigits);
    var r := SubAligned(n.bigits, k, d.bigits);
    assert r[|r| - 1] == n.bigits[|r| - 1];
  }

  /** The numerator after `turns` turns of divmod_assign's loop. */
  function SubtractTurns(n: Num, d: Num, turns: nat): Option<Num>
    requires n.exp <= d.exp
  {
    if turns == 0 then Some(n)
    else match SubtractTurns(n, d, turns - 1)
      case None => None
      case Some(m) =>
        if m.exp <= d.exp && Compare(m, d) >= 0 then Some(SubtractStep(m, d)) else None
  }

  /**
   divmod_assign never leaves its loop when the numerator has two or more bigits
   than the divisor: after any number of turns there is another one.
   */
  lemma {:induction false} DivmodDiverges(n: Num, d: Num, turns: nat)
    requires n.exp <= d.exp && Positive(n.bigits) && Positive(d.bigits)
    requires NumBigits(n) > NumBigits(d) + 1
    ensures SubtractTurns(n, d, turns).Some?
    ensures var m := SubtractTurns(n, d, turns).value;
      m.exp <= d.exp && Positive(m.bigits) && NumBigits(m) == NumBigits(n) && Compare(m, d) >= 0
  {
    hide Val, Pow, Trim, SubAligned, CompareTop, SubtractStep;
    if turns > 0 {
      DivmodDiverges(n, d, turns - 1);
      LongStaysLong(SubtractTurns(n, d, turns - 1).value, d);
    }
  }

  // ------------------------------------------------------------------ alignment

  lemma AlignVal(s: seq<Bigit>, k: nat, e: nat)
    ensures Value(Num(seq(k, _ => 0) + s, e)) == Value(Num(s, e + k))
  {
    hide Val, Pow;
    ValConcat(seq(k, _ => 0), s);
    ValZeros(k);
    PowAdd(BASE, k, e);
    Assoc(Val(s), Pow(BASE, k), Pow(BASE, e));
  }

  // -------------------------------------------------------------- powers of ten

  lemma {:induction false} PowTen(e: nat)
    ensures Pow(10, e) == Pow(5, e) * Pow(2, e)
  {
    if e > 0 {
      PowTen(e - 1);
      var a, b := Pow(5, e - 1), Pow(2, e - 1);
      assert 5 * a * (2 * b) == 10 * (a * b);
    }
  }

  lemma {:induction false} PowBase(a: nat, b: nat, e: nat)
    requires a <= b
    ensures Pow(a, e) <= Pow(b, e)
  {
    if e > 0 {
      PowBase(a, b, e - 1);
      MulLe(a, b, Pow(a, e - 1));
      MulLe(Pow(a, e - 1), Pow(b, e - 1), b);
    }
  }

  /** 5^e needs at most e + 1 bigits. */
  lemma FiveFits(s: seq<Bigit>, e: nat)
    requires Positive(s) && Val(s) == Pow(5, e)
    ensures |s| <= e + 1
  {
    ValPositive(s);
    PowBase(5, BASE, e);
    if |s| > e + 1 {
      PowMono(BASE, e + 1, |s| - 1);
    }
  }

  lemma HalfStep(e: nat, b: nat)
    requires b > 0
    ensures e / b == 2 * (e / (2 * b)) + e / b % 2
  {
    var q := e / b;
    DivMod(e, b);
    HalfCore(e, b, q / 2, q % 2, e % b);
  }

  lemma HalfCore(e: nat, b: nat, h: nat, bit: nat, r: nat)
    requires e == (2 * h + bit) * b + r && r < b && bit <= 1
    ensures e / (2 * b) == h
  {
    Distrib(b, 2 * h, bit);
    Assoc(h, 2, b);
    assert bit * b <= b by { if bit == 0 {} else {} }
    Quotient(e, 2 * b, h, bit * b + r);
  }

  // -------------------------------------------------------------------- class

  /** A bigit less another and a borrow, and the borrow it takes. */
  function Wrapped(x: Bigit, y: Bigit, borrow: nat): Bigit
    requires borrow <= 1
  {
    if x - y - borrow < 0 then x - y - borrow + BASE else x - y - borrow
  }

  function Lent(x: Bigit, y: Bigit, borrow: nat): (r: nat)
    ensures r <= 1
  {
    if x - y - borrow < 0 then 1 else 0
  }

  class Bigint {
    var bigits: seq<Bigit>
    var exp: nat

    function AsNum(): Num
      reads this
    {
      Num(bigits, exp)
    }

    /** bigint(): no bigits. */
    constructor ()
      ensures AsNum() == Num([], 0)
    {
      bigits, exp := [], 0;
    }

    method Assign(n: DoubleBigit)
      modifies this
      ensures exp == 0 && Value(AsNum()) == n
      ensures n == 0 ==> bigits == [0]
      ensures n > 0 ==> Positive(bigits)
    {
      bigits := [n % BASE];
      var rest: int := n / BASE;
      ValSingle(n % BASE);
      while rest != 0
        invariant 0 <= rest && (rest == 0 || n > 0)
        invariant bigits == [0] || rest > 0 || Positive(bigits)
        invariant n == 0 ==> bigits == [0]
        invariant n > 0 && rest == 0 ==> Positive(bigits)
        invariant bigits + Digits(rest) == [n % BASE] + Digits(n / BASE)
        decreases rest
      {
        assert bigits + Digits(rest) == bigits + [rest % BASE] + Digits(rest / BASE);
        bigits := bigits + [rest % BASE];
        rest := rest / BASE;
      }
      ValCons(n % BASE, Digits(n / BASE));
      assert bigits == bigits + Digits(0);
      exp := 0;
      assert Pow(BASE, 0) == 1;
    }

    method RemoveLeadingZeros()
      modifies this`bigits
      ensures bigits == Trim(old(bigits))
    {
      var numBigits: int := |bigits| - 1;
      assert bigits[..numBigits + 1] == bigits;
      while numBigits > 0 && bigits[numBigits] == 0
        invariant -1 <= numBigits < |bigits|
        invariant numBigits >= 0 || bigits == []
        invariant bigits != [] ==> Trim(bigits[..numBigits + 1]) == Trim(bigits)
      {
        assert bigits[..numBigits + 1][..numBigits] == bigits[..numBigits];
        numBigits := numBigits - 1;
      }
      bigits := bigits[..numBigits + 1];
    }

    method SubtractBigits(index: nat, other: Bigit, borrow: nat) returns (borrow': nat)
      requires index < |bigits| && borrow <= 1
      modifies this`bigits
      ensures bigits == old(bigits)[index := Wrapped(old(bigits)[index], other, borrow)]
      ensures borrow' == Lent(old(bigits)[index], other, borrow)
    {
      var result: DoubleBigit := (bigits[index] as int - other as int - borrow) % TWO_POW_64;
      bigits := bigits[index := result % BASE];
      borrow' := result / 0x8000_0000_0000_0000;
    }

    /** The first loop of subtract_aligned: bigit by bigit over the subtrahend. */
    method SubtractLow(other: Bigint) returns (borrow: nat)
      requires other != this && exp <= other.exp && other.exp - exp + |other.bigits| <= |bigits|
      modifies this`bigits
      ensures (bigits, borrow) == SubLow(old(bigits), other.bigits, other.exp - exp)
    {
      ghost var a, b, k := bigits, other.bigits, other.exp - exp;
      borrow := 0;
      var i := other.exp - exp;
      LowInit(a, b, k);
      hide LowInv, SubLow, Wrapped, Lent, SubSeq;
      for j := 0 to |other.bigits|
        invariant i == k + j && borrow <= 1 && |bigits| == |a|
        invariant LowInv(a, b, k, j, borrow, bigits)
        modifies this`bigits
      {
        LowTurn(a, b, k, j, borrow, bigits);
        borrow := SubtractBigits(i, other.bigits[j], borrow);
        i := i + 1;
      }
      LowEnd(a, b, k, borrow, bigits);
    }

    /** Subtracts, and trims; see SubtractStepVal for what that means. */
    method SubtractAligned(other: Bigint)
      requires other != this && exp <= other.exp && Compare(AsNum(), other.AsNum()) >= 0
      modifies this`bigits
      ensures AsNum() == SubtractStep(old(AsNum()), other.AsNum())
    {
      SubFits(AsNum(), other.AsNum());
      SubAlignedIs(bigits, other.exp - exp, other.bigits);
      hide Val, Compare, SubAligned, SubLow, BorrowLoop, Trim;
      var borrow := SubtractLow(other);
      BorrowOn(other.exp - exp + |other.bigits|, borrow);
      RemoveLeadingZeros();
    }

    /** The second loop of subtract_aligned: the borrow from bigit i, which does not move on. */
    method BorrowOn(i: nat, borrow0: nat)
      requires i <= |bigits| && borrow0 <= 1 && (borrow0 == 1 ==> i < |bigits|)
      modifies this`bigits
      ensures bigits == old(bigits)[..i] + BorrowLoop(old(bigits)[i..], borrow0)
    {
      var borrow: nat := borrow0;
      BorrowAt(bigits, i);
      hide BorrowLoop;
      while borrow > 0
        invariant borrow <= borrow0 && |bigits| == |old(bigits)|
        invariant borrow == 1 ==> bigits == old(bigits) || (old(bigits)[i] == 0 && bigits == old(bigits)[i := BASE - 1])
        invariant borrow == 0 ==> bigits == old(bigits)[..i] + BorrowLoop(old(bigits)[i..], borrow0)
        decreases borrow, if borrow == 1 && bigits == old(bigits) then 1 else 0
      {
        borrow := SubtractBigits(i, 0, borrow);
      }
    }

    /** multiply(uint32_t): each product plus carry fits 64 bits. */
    method Multiply32(value: Bigit)
      requires value > 0
      modifies this`bigits
      ensures bigits == MulSeq(old(bigits), value, 0)
    {
      hide MulSeq, Digits;
      var carry: Bigit := 0;
      ghost var s := bigits;
      var n := |bigits|;
      assert s[0..] == s && [] + MulSeq(s, value, 0) == MulSeq(s, value, 0);
      for i := 0 to n
        invariant |bigits| == |s| && forall t | i <= t < n :: bigits[t] == s[t]
        invariant bigits[..i] + MulSeq(s[i..], value, carry) == MulSeq(s, value, 0)
      {
        ProductFits(s[i], value, carry);
        var result: DoubleBigit := bigits[i] * value as int + carry as int;
        MulTurn(s, bigits, i, value, carry, result);
        bigits := bigits[i := result % BASE];
        carry := result / BASE;
      }
      MulEnd(s, bigits, value, carry);
      if carry != 0 {
        bigits := bigits + [carry];
      }
    }

    /** multiply(uint64_t): the factor split in halves, with a 64-bit carry. */
    method Multiply64(value: DoubleBigit)
      requires value > 0
      modifies this`bigits
      ensures bigits == MulSeq(old(bigits), value, 0)
    {
      hide MulSeq, Digits;
      var lower, upper := value % BASE, value / BASE;
      var carry: DoubleBigit := 0;
      ghost var s := bigits;
      var n := |bigits|;
      assert s[0..] == s && [] + MulSeq(s, value, 0) == MulSeq(s, value, 0);
      for i := 0 to n
        invariant |bigits| == |s| && forall t | i <= t < n :: bigits[t] == s[t]
        invariant bigits[..i] + MulSeq(s[i..], value, carry) == MulSeq(s, value, 0)
      {
        HalvesTurn(s, bigits, i, value, lower, upper, carry);
        var result: DoubleBigit := bigits[i] * lower + carry % BASE;
        carry := bigits[i] * upper + result / BASE + carry / BASE;
        bigits := bigits[i := result % BASE];
      }
      MulDone(s, bigits, value, carry);
      PushCarry(carry);
    }

    /** Appends the bigits of a carry. */
    method PushCarry(carry: DoubleBigit)
      modifies this`bigits
      ensures bigits == old(bigits) + Digits(carry)
    {
      hide Digits;
      var rest: nat := carry;
      while rest != 0
        invariant bigits + Digits(rest) == old(bigits) + Digits(carry)
        decreases rest
      {
        DigitsTurn(bigits, rest);
        bigits := bigits + [rest % BASE];
        rest := rest / BASE;
      }
    }

    /** One bigit shifted left: the bits kept plus the carry, and the bits shifted out. */
    static method ShiftBigit(bigit: Bigit, carry: nat, p: nat, q: nat) returns (digit: Bigit, c: nat)
      requires p * q == BASE && p > 0 && q > 0 && carry < p
      ensures c < p && digit + BASE * c == bigit * p + carry
    {
      ShiftStep(bigit, carry, p, q);
      c := bigit / q;
      digit := (bigit * p) % BASE + carry;
    }

    /** operator<<=: whole bigits go into the exponent, the rest is shifted in. */
    method ShiftLeft(shift: nat)
      modifies this
      ensures exp == old(exp) + shift / BITS
      ensures bigits == if shift % BITS == 0 then old(bigits) else MulSeq(old(bigits), Pow(2, shift % BITS), 0)
    {
      hide MulSeq, Digits, Pow;
      exp := exp + shift / BITS;
      var sh := shift % BITS;
      if sh == 0 { return; }
      var p, q := Pow(2, sh), Pow(2, BITS - sh);
      PowTwoSplit(sh);
      var carry: nat := 0;
      ghost var s := bigits;
      var n := |bigits|;
      assert s[0..] == s && [] + MulSeq(s, p, 0) == MulSeq(s, p, 0);
      for i := 0 to n
        invariant |bigits| == |s| && carry < p
        invariant forall t | i <= t < n :: bigits[t] == s[t]
        invariant bigits[..i] + MulSeq(s[i..], p, carry) == MulSeq(s, p, 0)
        modifies this`bigits
      {
        var digit, c := ShiftBigit(bigits[i], carry, p, q);
        DigitTurn(s, bigits, i, p, carry, digit, c);
        bigits := bigits[i := digit];
        carry := c;
      }
      PowerBelow(p, q);
      MulEnd(s, bigits, p, carry);
      if carry != 0 {
        bigits := bigits + [carry];
      }
    }

    /** square: convolution, the low half of the result and then the high half. */
    method Square()
      requires |bigits| < MAX_BIGITS
      modifies this
      ensures exp == 2 * old(exp)
      ensures Val(bigits) == Val(old(bigits)) * Val(old(bigits))
      ensures old(bigits) != [] ==> Trimmed(bigits)
    {
      hide Val, Pow, Columns, Coef, Horner, Trim;
      var n := bigits;
      var numBigits := |n|;
      var numResultBigits := 2 * numBigits;
      var sum := new Accumulator();
      var result := LowColumns(n, sum);
      result := HighColumns(n, sum, result);
      ColumnsSquare(n, result, sum.Sum());
      bigits := result;
      RemoveLeadingZeros();
      exp := exp * 2;
    }

    /** align: trailing zeros until the exponent is no larger than other's. */
    method Align(other: Bigint)
      requires other != this
      modifies this
      ensures Value(AsNum()) == old(Value(AsNum()))
      ensures exp == if old(exp) <= other.exp then old(exp) else other.exp
      ensures bigits == seq(old(exp) - exp, _ => 0) + old(bigits)
    {
      hide Val, Pow, Value;
      var expDifference := exp - other.exp;
      if expDifference <= 0 {
        assert bigits == seq(0, _ => 0) + bigits;
        return;
      }
      ghost var s := bigits;
      MoveUp(expDifference);
      bigits := seq(expDifference, _ => 0) + bigits[expDifference..];
      exp := exp - expDifference;
      AlignVal(s, expDifference, exp);
    }

    /** Makes room for k bigits below, moving the others up from the top one down. */
    method MoveUp(k: nat)
      requires k > 0
      modifies this`bigits
      ensures |bigits| == k + |old(bigits)| && bigits[k..] == old(bigits)
    {
      var numBigits := |bigits|;
      bigits := bigits + seq(k, _ => 0);
      var i: int, j: int := numBigits - 1, numBigits - 1 + k;
      while i >= 0
        invariant -1 <= i < numBigits && j == i + k && |bigits| == numBigits + k
        invariant forall t | 0 <= t <= i :: bigits[t] == old(bigits)[t]
        invariant forall t | i < t < numBigits :: bigits[t + k] == old(bigits)[t]
      {
        bigits := bigits[j := bigits[i]];
        i, j := i - 1, j - 1;
      }
    }

    /** operator*= for a factor of at most 32 bits. */
    method TimesAssign32(value: Bigit)
      requires value > 0
      modifies this`bigits
      ensures Value(AsNum()) == old(Value(AsNum())) * value
      ensures bigits == MulSeq(old(bigits), value, 0)
    {
      hide Val, Pow;
      MulSeqVal(bigits, value, 0);
      Commute(Val(bigits), value, Pow(BASE, exp));
      Multiply32(value);
    }

    method TimesAssign64(value: DoubleBigit)
      requires value > 0
      modifies this`bigits
      ensures Value(AsNum()) == old(Value(AsNum())) * value
      ensures bigits == MulSeq(old(bigits), value, 0)
    {
      hide Val, Pow;
      MulSeqVal(bigits, value, 0);
      Commute(Val(bigits), value, Pow(BASE, exp));
      Multiply64(value);
    }

    /** operator<<= multiplies by the power of two. */
    method ShiftAssign(shift: nat)
      modifies this
      ensures Value(AsNum()) == old(Value(AsNum())) * Pow(2, shift)
      ensures exp == old(exp) + shift / BITS
      ensures Positive(old(bigits)) ==> Positive(bigits)
    {
      hide Val, Pow;
      ghost var k, sh := shift / BITS, shift % BITS;
      MulSeqVal(bigits, Pow(2, sh), 0);
      MulSeqTrimmed(bigits, Pow(2, sh), 0);
      PowBits(k);
      PowAdd(2, BITS * k, sh);
      PowAdd(BASE, exp, k);
      PowZero(sh);
      ShiftScale(Val(bigits), Pow(2, sh), Pow(BASE, k), Pow(BASE, exp));
      ShiftLeft(shift);
    }

    /** assign_pow10: 5^e by repeated squaring, then 2^e by shifting. */
    method AssignPow10(e: nat)
      requires e < MAX_BIGITS
      modifies this
      ensures Value(AsNum()) == Pow(10, e)
      ensures Positive(bigits) && exp == e / BITS
    {
      if e == 0 {
        Assign(1);
        return;
      }
      var bitmask := FindTopBit(e);
      ghost var done: nat := 1;
      Assign(5);
      ValueUnscaled(bigits);
      TopPrefix(e, bitmask);
      bitmask := bitmask / 2;
      while bitmask != 0
        invariant exp == 0 && Positive(bigits) && Val(bigits) == Pow(5, done)
        invariant PrefixOf(e, bitmask, done)
      {
        hide Val, Pow, MulSeq;
        FiveFits(bigits, done);
        PrefixTurn(e, bitmask, done);
        Square();
        FiveSquare(done, bigits);
        done := 2 * done;
        // exp & bitmask, bitmask being a power of two
        if e / bitmask % 2 != 0 {
          MulSeqVal(bigits, 5, 0);
          MulSeqTrimmed(bigits, 5, 0);
          FiveTimes(done);
          TimesAssign32(5);
          done := done + 1;
        }
        bitmask := bitmask / 2;
      }
      PowTen(e);
      ValueUnscaled(bigits);
      ShiftAssign(e);
    }

    /** divmod_assign: quotient by repeated subtraction, remainder left in place. */
    method DivmodAssign(divisor: Bigint) returns (quotient: nat)
      requires divisor != this && Positive(divisor.bigits)
      requires Bounded(AsNum(), NumBigits(divisor.AsNum()))
      requires NumBigits(AsNum()) <= NumBigits(divisor.AsNum()) + 1
      requires Value(AsNum()) == Value(divisor.AsNum()) ==> exp <= divisor.exp
      modifies this
      ensures old(Value(AsNum())) == quotient * Value(divisor.AsNum()) + Value(AsNum())
      ensures Value(AsNum()) < Value(divisor.AsNum())
      ensures Bounded(AsNum(), NumBigits(divisor.AsNum())) && NumBigits(AsNum()) <= NumBigits(divisor.AsNum())
      ensures exp <= divisor.exp || AsNum() == old(AsNum())
    {
      hide Val, Pow, Value, SubtractStep, CompareTop, Trim, SubAligned, BorrowStuck;
      ValuePositive(divisor.AsNum());
      CompareOrder(AsNum(), divisor.AsNum());
      var c := CompareBigits(AsNum(), divisor.AsNum());
      if c < 0 {
        TieBreak(AsNum(), divisor.AsNum());
        return 0;
      }
      PositiveWhenGe(AsNum(), divisor.AsNum());
      Align(divisor);
      CompareFaithful(AsNum(), divisor.AsNum());
      quotient := 0;
      while true
        invariant exp <= divisor.exp && Positive(bigits)
        invariant NumBigits(AsNum()) <= NumBigits(divisor.AsNum()) + 1
        invariant Compare(AsNum(), divisor.AsNum()) >= 0
        invariant old(Value(AsNum())) == quotient * Value(divisor.AsNum()) + Value(AsNum())
        decreases Value(AsNum())
      {
        NotStuck(AsNum(), divisor.AsNum());
        SubtractStepVal(AsNum(), divisor.AsNum());
        SubtractStepSize(AsNum(), divisor.AsNum());
        QuotTurn(quotient, Value(divisor.AsNum()));
        SubtractAligned(divisor);
        quotient := quotient + 1;
        CompareFaithful(AsNum(), divisor.AsNum());
        c := CompareBigits(AsNum(), divisor.AsNum());
        if c < 0 { break; }
        PositiveWhenGe(AsNum(), divisor.AsNum());
      }
    }
  }

  /** The lower half of square's result, the carry into the upper half left in sum. */
  method LowColumns(n: seq<Bigit>, sum: Accumulator) returns (result: seq<Bigit>)
    requires |n| < MAX_BIGITS && sum.Sum() == 0
    modifies sum
    ensures |result| == |n| && sum.Sum() <= |n| * BASE
    ensures result + Columns(n, |n|, sum.Sum(), 2 * |n|) == Columns(n, 0, 0, 2 * |n|)
  {
    hide Columns, Coef;
    result := [];
    assert [] + Columns(n, 0, 0, 2 * |n|) == Columns(n, 0, 0, 2 * |n|);
    for index := 0 to |n|
      invariant |result| == index && sum.Sum() <= |n| * BASE
      invariant result + Columns(n, index, sum.Sum(), 2 * |n|) == Columns(n, 0, 0, 2 * |n|)
    {
      ghost var start := sum.Sum();
      sum.AddLowColumn(n, index);
      ColumnTurn(n, result, index, start, 2 * |n|);
      result := result + [sum.Low()];
      sum.ShiftRight32();
    }
  }

  /** The upper half. */
  method HighColumns(n: seq<Bigit>, sum: Accumulator, low: seq<Bigit>) returns (result: seq<Bigit>)
    requires |n| < MAX_BIGITS && |low| == |n| && sum.Sum() <= |n| * BASE
    requires low + Columns(n, |n|, sum.Sum(), 2 * |n|) == Columns(n, 0, 0, 2 * |n|)
    modifies sum
    ensures |result| == 2 * |n| && sum.Sum() <= |n| * BASE
    ensures result + Columns(n, 2 * |n|, sum.Sum(), 2 * |n|) == Columns(n, 0, 0, 2 * |n|)
  {
    hide Columns, Coef;
    result := low;
    for index := |n| to 2 * |n|
      invariant |result| == index && sum.Sum() <= |n| * BASE
      invariant result + Columns(n, index, sum.Sum(), 2 * |n|) == Columns(n, 0, 0, 2 * |n|)
    {
      ghost var start := sum.Sum();
      sum.AddHighColumn(n, index);
      ColumnTurn(n, result, index, start, 2 * |n|);
      result := result + [sum.Low()];
      sum.ShiftRight32();
    }
  }

  /** Where the borrow loop leaves the bigits. */
  lemma BorrowAt(s: seq<Bigit>, i: nat)
    requires i <= |s|
    ensures s[..i] + BorrowLoop(s[i..], 0) == s
    ensures i < |s| ==> s[..i] + BorrowLoop(s[i..], 1) == s[i := if s[i] > 0 then s[i] - 1 else BASE - 2]
  {
  }

  /** subtract_aligned is its two loops. */
  lemma SubAlignedIs(a: seq<Bigit>, k: nat, b: seq<Bigit>)
    requires k + |b| <= |a|
    requires Val(a[k..k + |b|]) < Val(b) ==> k + |b| < |a|
    ensures var (low, borrow) := SubLow(a, b, k);
      var i := k + |b|;
      && |low| == |a| && borrow <= 1 && (borrow == 1 ==> i < |a|)
      && SubAligned(a, k, b) == low[..i] + BorrowLoop(low[i..], borrow)
  {
    SubSeqBorrow(a[k..k + |b|], b);
    hide Val, BorrowLoop;
    var mid := SubSeq(a[k..k + |b|], b, 0).0;
    var low := SubLow(a, b, k).0;
    assert low[..k + |b|] == a[..k] + mid && low[k + |b|..] == a[k + |b|..];
  }

  /** What the first loop of subtract_aligned leaves: the bigits and the final borrow. */
  function SubLow(a: seq<Bigit>, b: seq<Bigit>, k: nat): (seq<Bigit>, nat)
    requires k + |b| <= |a|
  {
    var (mid, out) := SubSeq(a[k..k + |b|], b, 0);
    (a[..k] + mid + a[k + |b|..], out)
  }

  /** After j bigits of the first loop: what is done, what is left, and the borrow between. */
  ghost predicate LowInv(a: seq<Bigit>, b: seq<Bigit>, k: nat, j: nat, borrow: nat, cur: seq<Bigit>)
    requires k + |b| <= |a| == |cur| && j <= |b| && borrow <= 1
  {
    var done := cur[k..k + j];
    var (rest, out) := SubSeq(a[k + j..k + |b|], b[j..], borrow);
    cur == a[..k] + done + a[k + j..] && (done + rest, out) == SubSeq(a[k..k + |b|], b, 0)
  }

  lemma LowInit(a: seq<Bigit>, b: seq<Bigit>, k: nat)
    requires k + |b| <= |a|
    ensures LowInv(a, b, k, 0, 0, a)
  {
    var first := SubSeq(a[k..k + |b|], b, 0);
    assert b[0..] == b && [] + first.0 == first.0;
  }

  lemma LowTurn(a: seq<Bigit>, b: seq<Bigit>, k: nat, j: nat, borrow: nat, cur: seq<Bigit>)
    requires k + |b| <= |a| == |cur| && j < |b| && borrow <= 1
    requires LowInv(a, b, k, j, borrow, cur)
    ensures LowInv(a, b, k, j + 1, Lent(cur[k + j], b[j], borrow), cur[k + j := Wrapped(cur[k + j], b[j], borrow)])
  {
    hide SubSeq;
    var done := cur[k..k + j];
    SubTurn(a, b, k, j, borrow, done);
    var d := cur[k + j] - b[j] - borrow;
    var x := if d < 0 then d + BASE else d;
    assert cur[k + j := x][k..k + j + 1] == done + [x];
  }

  lemma LowEnd(a: seq<Bigit>, b: seq<Bigit>, k: nat, borrow: nat, cur: seq<Bigit>)
    requires k + |b| <= |a| == |cur| && borrow <= 1 && LowInv(a, b, k, |b|, borrow, cur)
    ensures (cur, borrow) == SubLow(a, b, k)
  {
    var done := cur[k..k + |b|];
    assert a[k + |b|..k + |b|] == [] && b[|b|..] == [] && done + [] == done;
  }

  /** One turn of subtract_aligned's first loop is one step of the borrow recurrence. */
  lemma SubTurn(a: seq<Bigit>, b: seq<Bigit>, k: nat, j: nat, borrow: nat, done: seq<Bigit>)
    requires k + |b| <= |a| && j < |b| == |b| && borrow <= 1 && |done| == j
    ensures var i := k + j;
      var d := a[i] - b[j] - borrow;
      var x := if d < 0 then d + BASE else d;
      var s := a[..k] + done + a[i..];
      var (rest, out) := SubSeq(a[i..k + |b|], b[j..], borrow);
      var (rest', out') := SubSeq(a[i + 1..k + |b|], b[j + 1..], if d < 0 then 1 else 0);
      && s[i] == a[i]
      && s[i := x] == a[..k] + (done + [x]) + a[i + 1..]
      && rest == [x] + rest' && out == out'
      && done + rest == done + [x] + rest'
  {
    assert a[k + j..k + |b|][1..] == a[k + j + 1..k + |b|];
    assert b[j..][1..] == b[j + 1..];
  }

  // ------------------------------------------------------------ loop turns

  /** One turn of a multiplying loop is one step of the carry recurrence. */
  lemma MulTurn(s: seq<Bigit>, cur: seq<Bigit>, i: nat, v: nat, carry: nat, t: nat)
    requires i < |s| == |cur| && t == s[i] * v + carry
    ensures cur[i := t % BASE][..i + 1] + MulSeq(s[i + 1..], v, t / BASE)
         == cur[..i] + MulSeq(s[i..], v, carry)
  {
    assert s[i..][1..] == s[i + 1..];
    MulStep(s[i..], v, carry, t);
    hide MulSeq;
    assert cur[i := t % BASE][..i + 1] == cur[..i] + [t % BASE];
  }

  lemma HalvesTurn(s: seq<Bigit>, cur: seq<Bigit>, i: nat, v: nat, lower: nat, upper: nat, carry: nat)
    requires i < |s| == |cur| && v == lower + BASE * upper
    requires lower < BASE && upper < BASE && carry < TWO_POW_64
    ensures var result := s[i] * lower + carry % BASE;
      var carry' := s[i] * upper + result / BASE + carry / BASE;
      && 0 <= result < TWO_POW_64 && 0 <= carry' < TWO_POW_64
      && cur[i := result % BASE][..i + 1] + MulSeq(s[i + 1..], v, carry') == cur[..i] + MulSeq(s[i..], v, carry)
  {
    hide MulSeq;
    HalvesFit(s[i], lower, upper, carry);
    HalvesProduct(s[i], v, lower, upper, carry, s[i] * lower + carry % BASE, s[i] * v + carry);
    MulTurn(s, cur, i, v, carry, s[i] * v + carry);
  }

  lemma DigitTurn(s: seq<Bigit>, cur: seq<Bigit>, i: nat, v: nat, carry: nat, digit: Bigit, c: nat)
    requires i < |s| == |cur| && digit + BASE * c == s[i] * v + carry
    ensures cur[i := digit][..i + 1] + MulSeq(s[i + 1..], v, c) == cur[..i] + MulSeq(s[i..], v, carry)
  {
    hide MulSeq;
    MulTurn(s, cur, i, v, carry, s[i] * v + carry);
  }

  /** After the last bigit only the carry is left. */
  lemma MulDone(s: seq<Bigit>, cur: seq<Bigit>, v: nat, carry: nat)
    requires |s| == |cur|
    ensures cur[..|s|] + MulSeq(s[|s|..], v, carry) == cur + Digits(carry)
  {
    assert s[|s|..] == [] && cur[..|s|] == cur;
  }

  lemma MulEnd(s: seq<Bigit>, cur: seq<Bigit>, v: nat, carry: nat)
    requires |s| == |cur| && carry < BASE
    ensures cur[..|s|] + MulSeq(s[|s|..], v, carry) == if carry == 0 then cur else cur + [carry]
  {
    MulDone(s, cur, v, carry);
    DigitsOfCarry(carry);
  }

  lemma DigitsTurn(s: seq<Bigit>, n: nat)
    requires n > 0
    ensures s + Digits(n) == s + [n % BASE] + Digits(n / BASE)
  {
  }

  lemma DigitsOfCarry(c: nat)
    requires c < BASE
    ensures Digits(c) == if c == 0 then [] else [c]
  {
    assert c != 0 ==> Digits(c) == [c] + Digits(0);
  }

  lemma ProductFits(d: nat, v: nat, carry: nat)
    requires d < BASE && v < BASE && carry < BASE
    ensures 0 <= d * v + carry < TWO_POW_64 && (d * v + carry) / BASE < BASE
  {
    BigitProduct(d, v);
  }

  lemma HalvesFit(d: nat, lower: nat, upper: nat, carry: nat)
    requires d < BASE && lower < BASE && upper < BASE && carry < TWO_POW_64
    ensures 0 <= d * lower + carry % BASE < TWO_POW_64
    ensures 0 <= d * upper + (d * lower + carry % BASE) / BASE + carry / BASE < TWO_POW_64
  {
    BigitProduct(d, lower);
    BigitProduct(d, upper);
  }

  /** The split product has the digit and carry of the whole one. */
  lemma HalvesProduct(d: nat, value: nat, lower: nat, upper: nat, carry: nat, result: nat, t: nat)
    requires value == lower + BASE * upper
    requires result == d * lower + carry % BASE && t == d * value + carry
    ensures t % BASE == result % BASE
    ensures t / BASE == d * upper + result / BASE + carry / BASE
  {
    Distrib(d, lower, BASE * upper);
    Assoc(BASE, d, upper);
    Assoc(d, BASE, upper);
    Quotient(t, BASE, d * upper + result / BASE + carry / BASE, result % BASE);
  }

  lemma PowerBelow(p: nat, q: nat)
    requires p * q == BASE && q > 0
    ensures p <= BASE
  {
    MulGe(p, q);
  }

  lemma PowZero(s: nat)
    ensures s == 0 ==> Pow(2, s) == 1
    ensures Pow(2, s) > 0
  {
  }

  lemma Commute(x: nat, v: nat, p: nat)
    ensures (x * v + 0) * p == x * p * v
  {
    Assoc(x, v, p);
    Assoc(x, p, v);
  }

  lemma ShiftScale(v: nat, a: nat, k: nat, p: nat)
    ensures (v * a + 0) * (p * k) == v * p * (k * a)
    ensures v * (p * k) == v * p * k
  {
    Assoc(v, a, p * k);
    Assoc(v * p, k, a);
    Assoc(v, p, k);
    Assoc(v, p * k, a);
    assert a * (p * k) == p * k * a;
  }

  /** Result bigits of a square from position k on, given the carry into k. */
  function Columns(n: seq<Bigit>, k: nat, carry: nat, top: nat): seq<Bigit>
    requires k <= top
    decreases top - k
  {
    if k == top then Digits(carry)
    else
      var t := carry + Coef(n, n, k);
      [t % BASE] + Columns(n, k + 1, t / BASE, top)
  }

  lemma {:induction false} ColumnsVal(n: seq<Bigit>, k: nat, carry: nat, top: nat)
    requires k <= top
    ensures Val(Columns(n, k, carry, top)) == carry + Horner(n, n, k, top)
    ensures k < top ==> Columns(n, k, carry, top) != []
    decreases top - k
  {
    if k < top {
      var t := carry + Coef(n, n, k);
      ColumnsVal(n, k + 1, t / BASE, top);
      ValCons(t % BASE, Columns(n, k + 1, t / BASE, top));
    }
  }

  lemma ColumnTurn(n: seq<Bigit>, result: seq<Bigit>, k: nat, carry: nat, top: nat)
    requires k < top && carry <= |n| * BASE
    ensures var t := carry + Coef(n, n, k);
      && result + [t % BASE] + Columns(n, k + 1, t / BASE, top) == result + Columns(n, k, carry, top)
      && t / BASE <= |n| * BASE
  {
    hide Coef;
    CoefBound(n, n, k);
    var t := carry + Coef(n, n, k);
    assert Columns(n, k, carry, top) == [t % BASE] + Columns(n, k + 1, t / BASE, top);
  }

  /** No carry is left over, and the columns are the square. */
  lemma ColumnsSquare(n: seq<Bigit>, result: seq<Bigit>, carry: nat)
    requires |result| == 2 * |n|
    requires result + Columns(n, 2 * |n|, carry, 2 * |n|) == Columns(n, 0, 0, 2 * |n|)
    ensures Val(result) == Val(n) * Val(n)
  {
    ColumnsEnd(n, 2 * |n|, carry);
    hide Val, Pow, Columns, Horner;
    var top := 2 * |n|;
    ColumnsVal(n, 0, 0, top);
    HornerVal(n, n, top);
    ValConcat(result, Digits(carry));
    ValBound(n);
    PowAdd(BASE, |n|, |n|);
    SquareBound(Val(n), Pow(BASE, |n|));
    NoCarry(Val(result), Pow(BASE, top), carry, Val(n) * Val(n));
    assert result + Digits(0) == result;
  }

  lemma ColumnsEnd(n: seq<Bigit>, top: nat, carry: nat)
    ensures Columns(n, top, carry, top) == Digits(carry)
  {
  }

  lemma NoCarry(v: nat, p: nat, carry: nat, w: nat)
    requires v + p * carry == w < p
    ensures carry == 0
  {
    if carry > 0 {
      MulGe(p, carry);
    }
  }

  lemma SquareBound(v: nat, p: nat)
    requires v < p
    ensures v * v < p * p
  {
    MulLe(v, p, v);
    MulLt(v, p, p);
  }

  /** The largest power of two not above e. */
  method FindTopBit(e: nat) returns (bitmask: nat)
    requires 0 < e < MAX_BIGITS
    ensures IsPowTwo(bitmask) && bitmask <= e < 2 * bitmask
  {
    bitmask := 1;
    assert bitmask == Pow(2, 0);
    while e >= bitmask
      invariant IsPowTwo(bitmask) && bitmask / 2 <= e
      decreases 2 * e - bitmask
    {
      DoublePow(bitmask);
      bitmask := bitmask * 2;
    }
    HalfPow(bitmask);
    bitmask := bitmask / 2;
  }

  ghost predicate IsPowTwo(b: nat) {
    exists k: nat :: b == Pow(2, k)
  }

  lemma DoublePow(b: nat)
    requires IsPowTwo(b)
    ensures IsPowTwo(b * 2)
  {
    var k: nat :| b == Pow(2, k);
    assert b * 2 == Pow(2, k + 1);
  }

  lemma HalfPow(b: nat)
    requires IsPowTwo(b) && b > 1
    ensures b % 2 == 0 && IsPowTwo(b / 2)
  {
    var k: nat :| b == Pow(2, k);
    assert k > 0 && b == 2 * Pow(2, k - 1);
  }

  /** `done` is what the bits of e above the mask's bit say. */
  ghost predicate PrefixOf(e: nat, bitmask: nat, done: nat) {
    if bitmask == 0 then done == e
    else IsPowTwo(bitmask) && done == e / (2 * bitmask) && done > 0
  }

  lemma TopPrefix(e: nat, bitmask: nat)
    requires IsPowTwo(bitmask) && bitmask <= e < 2 * bitmask
    ensures PrefixOf(e, bitmask / 2, 1)
  {
    if bitmask > 1 {
      HalfPow(bitmask);
      Quotient(e, bitmask, 1, e - bitmask);
    }
  }

  lemma PrefixTurn(e: nat, bitmask: nat, done: nat)
    requires bitmask > 0 && PrefixOf(e, bitmask, done)
    ensures PrefixOf(e, bitmask / 2, 2 * done + e / bitmask % 2)
    ensures 2 * done <= e
  {
    HalfStep(e, bitmask);
    DivMod(e, bitmask);
    MulGe(e / bitmask, bitmask);
    if bitmask > 1 {
      HalfPow(bitmask);
    }
  }

  lemma FiveSquare(d: nat, s: seq<Bigit>)
    requires Val(s) == Pow(5, d) * Pow(5, d) && Trimmed(s)
    ensures Val(s) == Pow(5, 2 * d) && Positive(s)
  {
    PowAdd(5, d, d);
    assert |s| == 1 ==> s[1..] == [];
  }

  lemma FiveTimes(d: nat)
    ensures Pow(5, d + 1) == Pow(5, d) * 5
  {
  }

  lemma ValueUnscaled(s: seq<Bigit>)
    ensures Value(Num(s, 0)) == Val(s)
    ensures Val(s) == 5 ==> Val(s) == Pow(5, 1)
  {
    assert Pow(BASE, 0) == 1 && Pow(5, 1) == 5;
  }

  lemma TieBreak(l: Num, r: Num)
    requires Positive(r.bigits) && Bounded(l, NumBigits(r)) && Compare(l, r) < 0
    requires Value(l) == Value(r) ==> l.exp <= r.exp
    ensures Value(l) < Value(r) && NumBigits(l) <= NumBigits(r)
  {
    CompareOrder(l, r);
  }

  lemma ValuePositive(n: Num)
    requires Positive(n.bigits)
    ensures Value(n) > 0
  {
    ValueBound(n);
  }

  lemma PositiveWhenGe(n: Num, d: Num)
    requires Positive(d.bigits) && Bounded(n, NumBigits(d)) && Compare(n, d) >= 0
    ensures Positive(n.bigits)
  {
    if n.bigits == [0] {
      CompareOrder(n, d);
      ValueBound(d);
      ValSingle(0);
    }
  }

  lemma SubtractStepSize(n: Num, d: Num)
    requires n.exp <= d.exp && Compare(n, d) >= 0 && Positive(d.bigits)
    ensures var n' := SubtractStep(n, d);
      n'.exp == n.exp && NumBigits(n') <= NumBigits(n) && Bounded(n', NumBigits(d))
  {
    SubFits(n, d);
    SubAlignedVal(n.bigits, Offset(n, d), d.bigits);
  }

  lemma QuotTurn(q: nat, d: nat)
    ensures (q + 1) * d == q * d + d
  {
  }
}
