/**
 Squaring by convolution: the coefficients of a product of bigit sequences, and the
 128-bit accumulator their sums are kept in.
 */
module BigintSquare {
  import opened Arithmetic
  import opened Bigits

  const TWO_POW_128 := TWO_POW_64 * TWO_POW_64

  function At(b: seq<Bigit>, k: int): nat {
    if 0 <= k < |b| then b[k] else 0
  }

  /** Coefficient k of the product: the sum of a[i] * b[j] over i + j == k. */
  function Coef(a: seq<Bigit>, b: seq<Bigit>, k: int): nat {
    if a == [] || k < 0 then 0 else a[0] * At(b, k) + Coef(a[1..], b, k - 1)
  }

  /** Coefficients k, k + 1, ... below `top`, read as a number in base 2^32. */
  function Horner(a: seq<Bigit>, b: seq<Bigit>, k: nat, top: nat): nat
    requires k <= top
    decreases top - k
  {
    if k == top then 0 else Coef(a, b, k) + BASE * Horner(a, b, k + 1, top)
  }

  function Tail(b: seq<Bigit>, k: nat, top: nat): nat
    requires k <= top
    decreases top - k
  {
    if k == top then 0 else At(b, k) + BASE * Tail(b, k + 1, top)
  }

  lemma {:induction false} TailVal(b: seq<Bigit>, k: nat, top: nat)
    requires k <= top && |b| <= top
    ensures Tail(b, k, top) == if k <= |b| then Val(b[k..]) else 0
    decreases top - k
  {
    if k < top {
      TailVal(b, k + 1, top);
      if k < |b| {
        assert b[k..][1..] == b[k + 1..];
      }
    }
  }

  lemma {:induction false} HornerStep(a: seq<Bigit>, b: seq<Bigit>, k: nat, top: nat)
    requires a != [] && 1 <= k <= top
    ensures Horner(a, b, k, top) == a[0] * Tail(b, k, top) + Horner(a[1..], b, k - 1, top - 1)
    decreases top - k
  {
    if k < top {
      HornerStep(a, b, k + 1, top);
      CoefSum(a[0], At(b, k), Tail(b, k + 1, top), Coef(a[1..], b, k - 1), Horner(a[1..], b, k, top - 1));
    }
  }

  lemma CoefSum(d: int, x: int, t: int, c: int, h: int)
    ensures d * x + c + BASE * (d * t + h) == d * (x + BASE * t) + (c + BASE * h)
  {
    Distrib(d, x, BASE * t);
    Assoc(BASE, d, t);
    Assoc(d, BASE, t);
  }

  /** The coefficients of a * b, carried out, are the product of the values. */
  lemma {:induction false} HornerVal(a: seq<Bigit>, b: seq<Bigit>, top: nat)
    requires |a| + |b| <= top
    ensures Horner(a, b, 0, top) == Val(a) * Val(b)
  {
    if a == [] {
      HornerZero(b, 0, top);
    } else {
      HornerVal(a[1..], b, top - 1);
      HornerStep(a, b, 1, top);
      TailVal(b, 0, top);
      assert b[0..] == b;
      assert Coef(a, b, 0) == a[0] * At(b, 0);
      CoefSum(a[0], At(b, 0), Tail(b, 1, top), 0, Val(a[1..]) * Val(b));
      hide Horner, Tail, Coef, Val;
      ProductSum(a[0], Val(a[1..]), Val(b));
    }
  }

  lemma ProductSum(d: int, x: int, y: int)
    ensures d * y + BASE * (x * y) == (d + BASE * x) * y
  {
    Distrib(y, d, BASE * x);
    Assoc(BASE, x, y);
  }

  lemma {:induction false} HornerZero(b: seq<Bigit>, k: nat, top: nat)
    requires k <= top
    ensures Horner([], b, k, top) == 0
    decreases top - k
  {
    if k < top { HornerZero(b, k + 1, top); }
  }

  /** The terms before i contribute nothing once k - i is still past the end of b. */
  lemma {:induction false} CoefSkip(a: seq<Bigit>, b: seq<Bigit>, k: int, i: nat)
    requires i <= |a| && k - i + 1 >= |b| && i <= k
    ensures Coef(a, b, k) == Coef(a[i..], b, k - i)
  {
    if i > 0 {
      CoefSkip(a[1..], b, k - 1, i - 1);
      assert a[1..][i - 1..] == a[i..];
    } else {
      assert a[0..] == a;
    }
  }

  /** One product off the sum. */
  lemma CoefTurn(n: seq<Bigit>, i: nat, j: nat)
    requires i < |n| && j < |n|
    ensures Coef(n[i..], n, j) == n[i] * n[j] + Coef(n[i + 1..], n, j - 1)
    ensures 0 <= n[i] * n[j] < TWO_POW_64
  {
    assert n[i..][1..] == n[i + 1..];
    BigitProduct(n[i], n[j]);
  }

  lemma CoefEnd(n: seq<Bigit>)
    ensures Coef(n[|n|..], n, 0) == 0
    ensures forall i: nat | i <= |n| :: Coef(n[i..], n, -1) == 0
    ensures forall j: int :: Coef(n[|n|..], n, j) == 0
  {
  }

  /** No coefficient exceeds its number of terms times the largest bigit product. */
  lemma {:induction false} CoefBound(a: seq<Bigit>, b: seq<Bigit>, k: int)
    ensures Coef(a, b, k) <= |a| * ((BASE - 1) * (BASE - 1))
  {
    if a != [] && k >= 0 {
      CoefBound(a[1..], b, k - 1);
      BigitProduct(a[0], At(b, k));
    }
  }

  lemma BigitProduct(x: nat, y: nat)
    requires x < BASE && y < BASE
    ensures 0 <= x * y <= (BASE - 1) * (BASE - 1)
  {
    MulPos(x, y);
    MulLe(x, BASE - 1, y);
  }

  /** A carry and a column of fewer than 2^30 products fit 128 bits. */
  lemma TotalFits(count: nat, carry: nat, coef: nat)
    requires count < 0x4000_0000 && carry <= count * BASE && coef <= count * ((BASE - 1) * (BASE - 1))
    ensures carry + coef < TWO_POW_128
  {
  }

  /** The low 32 bits of a 128-bit sum, and the rest. */
  lemma LowPart(u: nat, l: nat)
    ensures (u * TWO_POW_64 + l) % BASE == l % BASE
    ensures (u * TWO_POW_64 + l) / BASE == u * BASE + l / BASE
  {
    Quotient(u * TWO_POW_64 + l, BASE, u * BASE + l / BASE, l % BASE);
  }

  lemma ShiftedParts(u: nat, l: nat)
    requires u < TWO_POW_64 && l < TWO_POW_64
    ensures (u / BASE) * TWO_POW_64 + (u * BASE) % TWO_POW_64 + l / BASE == (u * TWO_POW_64 + l) / BASE
    ensures (u * BASE) % TWO_POW_64 + l / BASE < TWO_POW_64
  {
    LowPart(u, l);
    var q, r := u / BASE, u % BASE;
    assert u * BASE == q * TWO_POW_64 + r * BASE;
    Quotient(u * BASE, TWO_POW_64, q, r * BASE);
  }

  /** Two 64-bit halves adding up 64-bit products; the portable stand-in for a 128-bit sum. */
  class Accumulator {
    var lower: DoubleBigit
    var upper: DoubleBigit

    ghost function Sum(): nat
      reads this
    {
      upper * TWO_POW_64 + lower
    }

    constructor ()
      ensures Sum() == 0
    {
      lower, upper := 0, 0;
    }

    method Add(n: DoubleBigit)
      requires Sum() + n < TWO_POW_128
      modifies this
      ensures Sum() == old(Sum()) + n
    {
      lower := (lower + n) % TWO_POW_64;
      if lower < n {
        upper := upper + 1;
      }
    }

    /** (upper << 32) | (lower >> 32): the two parts share no bit. */
    method ShiftRight32()
      modifies this
      ensures Sum() == old(Sum()) / BASE
    {
      ShiftedParts(upper, lower);
      lower := (upper * BASE) % TWO_POW_64 + lower / BASE;
      upper := upper / BASE;
    }

    function Low(): (r: Bigit)
      reads this
      ensures r == Sum() % BASE
    {
      LowPart(upper, lower);
      lower % BASE
    }

    /** Adds column k of the lower half: n[0] * n[k] up to n[k] * n[0]. */
    method AddLowColumn(n: seq<Bigit>, k: nat)
      requires k < |n| < 0x4000_0000 && Sum() <= |n| * BASE
      modifies this
      ensures Sum() == old(Sum()) + Coef(n, n, k)
    {
      CoefBound(n, n, k);
      assert n[0..] == n;
      CoefEnd(n);
      hide Coef;
      ghost var total := Sum() + Coef(n, n, k);
      TotalFits(|n|, Sum(), Coef(n, n, k));
      var i, j: int := 0, k;
      while j >= 0
        invariant 0 <= i <= |n| && i + j == k && j >= -1
        invariant Sum() + Coef(n[i..], n, j) == total
      {
        CoefTurn(n, i, j);
        Add(n[i] * n[j] as int);
        i, j := i + 1, j - 1;
      }
    }

    /** Adds column k of the upper half: n[k - |n| + 1] * n[|n| - 1] and on. */
    method AddHighColumn(n: seq<Bigit>, k: nat)
      requires |n| <= k < 2 * |n| && |n| < 0x4000_0000 && Sum() <= |n| * BASE
      modifies this
      ensures Sum() == old(Sum()) + Coef(n, n, k)
    {
      CoefBound(n, n, k);
      var j: int := |n| - 1;
      var i: int := k - j;
      CoefSkip(n, n, k, i);
      CoefEnd(n);
      hide Coef;
      ghost var total := Sum() + Coef(n, n, k);
      TotalFits(|n|, Sum(), Coef(n, n, k));
      while i < |n|
        invariant k - (|n| - 1) <= i <= |n| && i + j == k
        invariant Sum() + Coef(n[i..], n, j) == total
      {
        CoefTurn(n, i, j);
        Add(n[i] * n[j] as int);
        i, j := i + 1, j - 1;
      }
    }
  }
}
