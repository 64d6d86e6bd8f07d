/**
 What bigint's compare and add_compare decide about the values of their operands.
 */
module BigintCompare {
  import opened Arithmetic
  import opened Bigits

  /** The value held by a bigint object: bigits scaled by 2^(32 exp). */
  datatype Num = Num(bigits: seq<Bigit>, exp: nat)

  function Value(n: Num): nat { Val(n.bigits) * Pow(BASE, n.exp) }

  function NumBigits(n: Num): nat { |n.bigits| + n.exp }

  /** Nonzero with nonzero top bigit, or a one-bigit zero reaching no higher than `limit`. */
  predicate Bounded(n: Num, limit: nat) {
    Positive(n.bigits) || (n.bigits == [0] && NumBigits(n) <= limit)
  }

  /** Comparing bigits from the top down, a sequence that runs out first being the smaller. */
  function CompareTop(l: seq<Bigit>, r: seq<Bigit>): (c: int)
    ensures -1 <= c <= 1
  {
    if l == [] then (if r == [] then 0 else -1)
    else if r == [] then 1
    else
      var x, y := l[|l| - 1], r[|r| - 1];
      if x != y then (if x > y then 1 else -1)
      else CompareTop(l[..|l| - 1], r[..|r| - 1])
  }

  function Compare(l: Num, r: Num): (c: int)
    ensures -1 <= c <= 1
  {
    if NumBigits(l) != NumBigits(r) then (if NumBigits(l) > NumBigits(r) then 1 else -1)
    else CompareTop(l.bigits, r.bigits)
  }

  lemma ValueTop(s: seq<Bigit>, e: nat)
    requires s != []
    ensures var top := Pow(BASE, |s| - 1 + e);
      && Value(Num(s, e)) == Value(Num(s[..|s| - 1], e)) + s[|s| - 1] * top
      && Value(Num(s[..|s| - 1], e)) < top
  {
    hide Val, Pow;
    ValTop(s);
    ValBound(s[..|s| - 1]);
    PowAdd(BASE, |s| - 1, e);
    ScaleTop(Val(s), Val(s[..|s| - 1]), Pow(BASE, |s| - 1), s[|s| - 1], Pow(BASE, e));
  }

  lemma ScaleTop(v: nat, low: nat, p: nat, d: nat, q: nat)
    requires v == low + p * d && low < p && q > 0
    ensures v * q == low * q + d * (p * q)
    ensures low * q < p * q
  {
    Distrib(q, low, p * d);
    Assoc(d, p, q);
    MulLt(low, p, q);
  }

  lemma ValueBound(n: Num)
    ensures Value(n) < Pow(BASE, NumBigits(n))
    ensures Positive(n.bigits) ==> Value(n) >= Pow(BASE, NumBigits(n) - 1)
  {
    hide Val, Pow;
    ValBound(n.bigits);
    PowAdd(BASE, |n.bigits|, n.exp);
    MulLt(Val(n.bigits), Pow(BASE, |n.bigits|), Pow(BASE, n.exp));
    if Positive(n.bigits) {
      ValPositive(n.bigits);
      PowAdd(BASE, |n.bigits| - 1, n.exp);
      if Pow(BASE, |n.bigits| - 1) < Val(n.bigits) {
        MulLt(Pow(BASE, |n.bigits| - 1), Val(n.bigits), Pow(BASE, n.exp));
      }
    }
  }

  lemma {:induction false} CompareTopVal(l: seq<Bigit>, le: nat, r: seq<Bigit>, re: nat)
    requires |l| + le == |r| + re
    ensures var c, v, w := CompareTop(l, r), Value(Num(l, le)), Value(Num(r, re));
      && (c > 0 ==> v >= w && (v == w ==> |l| > |r|))
      && (c < 0 ==> v <= w && (v == w ==> |l| < |r|))
      && (c == 0 ==> v == w && |l| == |r|)
    decreases |l|
  {
    if l == [] || r == [] {
    } else {
      var x, y := l[|l| - 1], r[|r| - 1];
      ValueTop(l, le);
      ValueTop(r, re);
      var top := Pow(BASE, |l| - 1 + le);
      if x == y {
        CompareTopVal(l[..|l| - 1], le, r[..|r| - 1], re);
      } else {
        hide Val, Pow, Value;
        if x > y { MulLt(y, x, top); } else { MulLt(x, y, top); }
      }
    }
  }

  /**
   compare never contradicts the order of the values; it only breaks ties, towards
   the operand with more stored bigits.
   */
  lemma CompareOrder(l: Num, r: Num)
    requires Positive(r.bigits) && Bounded(l, NumBigits(r))
    ensures Compare(l, r) > 0 ==> Value(l) >= Value(r)
    ensures Compare(l, r) < 0 ==> Value(l) <= Value(r)
    ensures Value(l) == Value(r) ==> (Compare(l, r) < 0 <==> |l.bigits| < |r.bigits|)
    ensures Value(l) == Value(r) ==> NumBigits(l) == NumBigits(r)
    ensures Compare(l, r) == 0 ==> Value(l) == Value(r)
  {
    ValueBound(l);
    ValueBound(r);
    if NumBigits(l) == NumBigits(r) {
      CompareTopVal(l.bigits, l.exp, r.bigits, r.exp);
    } else if NumBigits(l) < NumBigits(r) {
      PowMono(BASE, NumBigits(l), NumBigits(r) - 1);
    } else {
      PowMono(BASE, NumBigits(r), NumBigits(l) - 1);
    }
  }

  lemma {:induction false} CompareTopMirrored(l: seq<Bigit>, r: seq<Bigit>)
    ensures CompareTop(l, r) == -CompareTop(r, l)
    decreases |l|
  {
    if l != [] && r != [] { CompareTopMirrored(l[..|l| - 1], r[..|r| - 1]); }
  }

  /** Exchanging the operands reverses the verdict; a tie is only between numbers stored alike. */
  lemma CompareMirrored(l: Num, r: Num)
    ensures Compare(l, r) == -Compare(r, l)
    ensures Positive(l.bigits) && Positive(r.bigits) ==>
              (Compare(l, r) == 0 <==> Value(l) == Value(r) && |l.bigits| == |r.bigits|)
  {
    CompareTopMirrored(l.bigits, r.bigits);
    if Positive(l.bigits) && Positive(r.bigits) {
      CompareOrder(l, r);
      CompareOrder(r, l);
      hide Value, Val, Pow, CompareTop;
    }
  }

  /** A number with a larger exponent ends in a zero bigit seen from the smaller one. */
  lemma LowBigit(l: Num, r: Num)
    requires Value(l) == Value(r) && l.exp > r.exp && r.bigits != []
    ensures r.bigits[0] == 0
  {
    var p, k := Pow(BASE, r.exp), l.exp - r.exp;
    PowAdd(BASE, r.exp, k);
    var q := Pow(BASE, k - 1);
    assert Pow(BASE, k) == BASE * q;
    assert Val(r.bigits) == r.bigits[0] + BASE * Val(r.bigits[1..]);
    hide Val, Pow;
    CancelLow(Val(l.bigits), Val(r.bigits), p, q, r.bigits[0], Val(r.bigits[1..]));
  }

  lemma CancelLow(v: nat, w: nat, p: nat, q: nat, d: nat, rest: nat)
    requires p > 0 && v * (p * (BASE * q)) == w * p
    requires w == d + BASE * rest && d < BASE
    ensures d == 0
  {
    assert v * (p * (BASE * q)) == (v * (BASE * q)) * p by {
      Assoc(v, BASE * q, p);
    }
    CancelMul(v * (BASE * q), w, p);
    assert v * (BASE * q) == BASE * (v * q) by {
      Assoc(v, q, BASE);
    }
  }

  /** When `compare(l, r) < 0` is the order of the values: nothing is hidden below l's bigits. */
  predicate ComparableTo(l: Num, r: Num) {
    l.exp <= r.exp || (r.bigits != [] && r.bigits[0] != 0)
  }

  lemma CompareFaithful(l: Num, r: Num)
    requires Positive(r.bigits) && Bounded(l, NumBigits(r)) && ComparableTo(l, r)
    ensures Compare(l, r) < 0 <==> Value(l) < Value(r)
  {
    CompareOrder(l, r);
    if Value(l) == Value(r) && l.exp > r.exp {
      LowBigit(l, r);
    }
  }

  lemma {:induction false} SuffixLess(s: seq<Bigit>)
    requires |s| > 1
    ensures CompareTop(s[1..], s) == -1
  {
    var t := s[..|s| - 1];
    assert s[1..][..|s| - 2] == t[1..];
    if |s| > 2 {
      SuffixLess(t);
    }
  }

  /**
   As a test "less than r", compare is right for every left operand exactly when
   r's lowest bigit is nonzero; otherwise r itself, stored with its low zero bigit
   dropped, is reported smaller than r.
   */
  lemma CompareFaithfulIff(r: Num)
    requires Positive(r.bigits)
    ensures (forall l: Num | Positive(l.bigits) :: Compare(l, r) < 0 <==> Value(l) < Value(r))
       <==> r.bigits[0] != 0
  {
    if r.bigits[0] != 0 {
      forall l: Num | Positive(l.bigits) ensures Compare(l, r) < 0 <==> Value(l) < Value(r) {
        CompareFaithful(l, r);
      }
    } else {
      var l := Num(r.bigits[1..], r.exp + 1);
      SuffixLess(r.bigits);
      assert Positive(l.bigits) && Compare(l, r) < 0;
      assert Val(r.bigits) == BASE * Val(l.bigits);
      ShiftValue(Val(l.bigits), Pow(BASE, r.exp));
      assert Value(l) == Value(r);
    }
  }

  lemma ShiftValue(v: nat, p: nat)
    ensures v * (BASE * p) == BASE * v * p
  {
    Assoc(v, BASE, p);
  }

  // ---------------------------------------------------------------- add_compare

  /** get_bigit: the bigit at an absolute position, zero outside the stored ones. */
  function BigitAt(n: Num, i: nat): Bigit {
    if n.exp <= i < NumBigits(n) then n.bigits[i - n.exp] else 0
  }

  /** The number formed by the bigits at positions i and above. */
  function High(n: Num, i: nat): nat {
    if i <= n.exp then Val(n.bigits) * Pow(BASE, n.exp - i)
    else if i <= NumBigits(n) then Val(n.bigits[i - n.exp..])
    else 0
  }

  lemma HighStep(n: Num, i: nat)
    ensures High(n, i) == BASE * High(n, i + 1) + BigitAt(n, i)
  {
    if i < n.exp {
      hide Val;
      ShiftValue(Val(n.bigits), Pow(BASE, n.exp - i - 1));
    } else if i < NumBigits(n) {
      assert n.bigits[i - n.exp..][1..] == n.bigits[i + 1 - n.exp..];
      assert n.bigits[0..] == n.bigits;
    }
  }

  /** High(n, i) is Value(n) / BASE^i, and exact at or below the exponent. */
  lemma {:induction false} HighBounds(n: Num, i: nat)
    ensures High(n, i) * Pow(BASE, i) <= Value(n) < High(n, i) * Pow(BASE, i) + Pow(BASE, i)
    ensures i <= n.exp ==> High(n, i) * Pow(BASE, i) == Value(n)
  {
    if i == 0 {
      HighWhole(n);
    } else {
      hide High, Value;
      HighBounds(n, i - 1);
      HighStep(n, i - 1);
      HighScale(High(n, i - 1), High(n, i), BigitAt(n, i - 1), Pow(BASE, i - 1), Value(n));
    }
  }

  lemma HighWhole(n: Num)
    ensures High(n, 0) * Pow(BASE, 0) == Value(n)
  {
    hide Val;
    assert Pow(BASE, 0) == 1;
  }

  /** One bigit less of a bound. */
  lemma HighScale(g: nat, h: nat, d: Bigit, p: nat, v: nat)
    requires g == BASE * h + d && g * p <= v < g * p + p
    ensures h * (BASE * p) <= v < h * (BASE * p) + BASE * p
    ensures d == 0 ==> h * (BASE * p) == g * p
  {
    Distrib(p, BASE * h, d);
    assert h * (BASE * p) == BASE * h * p by { Assoc(h, BASE, p); }
    MulPos(d, p);
    MulLt(d, BASE, p);
  }

  /** Once the high parts differ enough, so do the values, in the same direction. */
  lemma HighDecides(l1: Num, l2: Num, r: Num, i: nat)
    ensures High(l1, i) + High(l2, i) > High(r, i) ==> Value(l1) + Value(l2) > Value(r)
    ensures High(l1, i) + High(l2, i) + 1 < High(r, i) ==> Value(l1) + Value(l2) < Value(r)
    ensures i <= l1.exp && i <= l2.exp && i <= r.exp
        ==> Value(l1) + Value(l2) - Value(r) == (High(l1, i) + High(l2, i) - High(r, i)) * Pow(BASE, i)
  {
    HighBounds(l1, i);
    HighBounds(l2, i);
    HighBounds(r, i);
    hide *;
    Decide(High(l1, i), High(l2, i), High(r, i), Pow(BASE, i), Value(l1), Value(l2), Value(r));
    ExactDiff(High(l1, i), High(l2, i), High(r, i), Pow(BASE, i));
  }

  lemma Decide(a: nat, b: nat, c: nat, p: nat, va: nat, vb: nat, vc: nat)
    requires a * p <= va < a * p + p && b * p <= vb < b * p + p && c * p <= vc < c * p + p
    ensures a + b > c ==> va + vb > vc
    ensures a + b + 1 < c ==> va + vb < vc
  {
    Distrib(p, a, b);
    if a + b > c {
      MulLt(c, a + b, p);
    } else if a + b + 1 < c {
      MulLt(a + b + 1, c, p);
      Distrib(p, a + b, 1);
    }
  }

  lemma ExactDiff(a: int, b: int, c: int, p: int)
    ensures a * p + b * p - c * p == (a + b - c) * p
  {
    Distrib(p, a, b);
    Distrib(p, a + b - c, c);
  }

  /** Comparing numbers of bigits settles add_compare before its loop. */
  lemma AddLengths(l1: Num, l2: Num, r: Num)
    requires Positive(r.bigits) && Bounded(l1, NumBigits(r)) && Bounded(l2, NumBigits(r))
    ensures NumBigits(l1) + 1 < NumBigits(r) && NumBigits(l2) + 1 < NumBigits(r)
        ==> Value(l1) + Value(l2) < Value(r)
    ensures NumBigits(l1) > NumBigits(r) || NumBigits(l2) > NumBigits(r)
        ==> Value(l1) + Value(l2) > Value(r)
  {
    ValueBound(l1);
    ValueBound(l2);
    ValueBound(r);
    if NumBigits(l1) + 1 < NumBigits(r) && NumBigits(l2) + 1 < NumBigits(r) {
      var n: nat := NumBigits(r) - 2;
      PowMono(BASE, NumBigits(l1), n);
      PowMono(BASE, NumBigits(l2), n);
      assert Pow(BASE, n + 1) == BASE * Pow(BASE, n);
    }
    if NumBigits(l1) > NumBigits(r) { PowMono(BASE, NumBigits(r), NumBigits(l1) - 1); }
    if NumBigits(l2) > NumBigits(r) { PowMono(BASE, NumBigits(r), NumBigits(l2) - 1); }
  }

  lemma HighAbove(n: Num, i: nat)
    requires i >= NumBigits(n)
    ensures High(n, i) == 0
  {
    if i <= n.exp {
      assert n.bigits == [];
    } else {
      assert i > NumBigits(n) || n.bigits[i - n.exp..] == [];
    }
  }

  /**
   add_compare: the exact sign of lhs1 + lhs2 - rhs, found from the top bigit down
   with the borrow kept in 64 bits.
   */
  method AddCompare(lhs1: Num, lhs2: Num, rhs: Num) returns (c: int)
    requires Positive(rhs.bigits) && Bounded(lhs1, NumBigits(rhs)) && Bounded(lhs2, NumBigits(rhs))
    ensures c == 1 <==> Value(lhs1) + Value(lhs2) > Value(rhs)
    ensures c == 0 <==> Value(lhs1) + Value(lhs2) == Value(rhs)
    ensures c == -1 <==> Value(lhs1) + Value(lhs2) < Value(rhs)
  {
    hide Value, High;
    AddLengths(lhs1, lhs2, rhs);
    var maxLhsBigits := if NumBigits(lhs1) >= NumBigits(lhs2) then NumBigits(lhs1) else NumBigits(lhs2);
    var numRhsBigits := NumBigits(rhs);
    if maxLhsBigits + 1 < numRhsBigits { return -1; }
    if maxLhsBigits > numRhsBigits { return 1; }
    var minExp := if lhs1.exp <= lhs2.exp then lhs1.exp else lhs2.exp;
    minExp := if minExp <= rhs.exp then minExp else rhs.exp;
    var borrow: DoubleBigit := 0;
    var i: int := numRhsBigits - 1;
    HighAbove(lhs1, numRhsBigits);
    HighAbove(lhs2, numRhsBigits);
    HighAbove(rhs, numRhsBigits);
    while i >= minExp
      invariant minExp - 1 <= i < numRhsBigits
      invariant borrow == 0 || borrow == BASE
      invariant borrow == BASE * (High(rhs, i + 1) - High(lhs1, i + 1) - High(lhs2, i + 1))
    {
      HighStep(lhs1, i);
      HighStep(lhs2, i);
      HighStep(rhs, i);
      HighDecides(lhs1, lhs2, rhs, i);
      var sum: DoubleBigit := BigitAt(lhs1, i) as int + BigitAt(lhs2, i) as int;
      var rhsBigit: DoubleBigit := BigitAt(rhs, i);
      var minuend: DoubleBigit := rhsBigit + borrow;
      if sum > minuend { return 1; }
      borrow := minuend - sum;
      if borrow > 1 { return -1; }
      borrow := borrow * BASE;
      i := i - 1;
    }
    HighDecides(lhs1, lhs2, rhs, minExp);
    SignOfProduct(High(lhs1, minExp) + High(lhs2, minExp) - High(rhs, minExp), Pow(BASE, minExp));
    return if borrow != 0 then -1 else 0;
  }

  lemma SignOfProduct(d: int, p: nat)
    requires p > 0
    ensures d == 0 ==> d * p == 0
    ensures d < 0 ==> d * p < 0
  {
  }

  /** compare, walking both operands down from their top bigits. */
  method CompareBigits(lhs: Num, rhs: Num) returns (c: int)
    ensures c == Compare(lhs, rhs)
  {
    if NumBigits(lhs) != NumBigits(rhs) {
      return if NumBigits(lhs) > NumBigits(rhs) then 1 else -1;
    }
    c := CompareAligned(lhs.bigits, rhs.bigits);
  }

  /** The loop over bigits whose top ones have the same weight. */
  method CompareAligned(l: seq<Bigit>, r: seq<Bigit>) returns (c: int)
    ensures c == CompareTop(l, r)
  {
    var i: int, j: int := |l| - 1, |r| - 1;
    var end := i - j;
    if end < 0 { end := 0; }
    assert l[..i + 1] == l && r[..j + 1] == r;
    while i >= end
      invariant -1 <= i < |l| && -1 <= j < |r|
      invariant i - j == |l| - |r|
      invariant i >= end - 1
      invariant CompareTop(l[..i + 1], r[..j + 1]) == CompareTop(l, r)
    {
      if l[i] != r[j] {
        return if l[i] > r[j] then 1 else -1;
      }
      assert l[..i + 1][..i] == l[..i];
      assert r[..j + 1][..j] == r[..j];
      i, j := i - 1, j - 1;
    }
    if i != j {
      return if i > j then 1 else -1;
    }
    return 0;
  }
}
