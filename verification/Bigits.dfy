/**
 Numbers as little-endian sequences of 32-bit bigits: what a sequence denotes, and
 the carry and borrow recurrences of bigint's loops.
 */
module Bigits {
  import opened Arithmetic

  const BASE: nat := 0x1_0000_0000
  const TWO_POW_64 := 0x1_0000_0000_0000_0000

  type Bigit = x: int | 0 <= x < BASE
  type DoubleBigit = x: int | 0 <= x < TWO_POW_64

  function Pow(b: nat, e: nat): (r: nat)
    ensures b > 0 ==> r > 0
  {
    if e == 0 then 1 else b * Pow(b, e - 1)
  }

  lemma {:induction false} PowAdd(b: nat, m: nat, n: nat)
    ensures Pow(b, m + n) == Pow(b, m) * Pow(b, n)
  {
    if m == 0 {
    } else {
      PowAdd(b, m - 1, n);
      Assoc(b, Pow(b, m - 1), Pow(b, n));
    }
  }

  lemma {:induction false} PowMono(b: nat, m: nat, n: nat)
    requires b > 0 && m <= n
    ensures Pow(b, m) <= Pow(b, n)
  {
    PowAdd(b, m, n - m);
    assert Pow(b, n) == Pow(b, m) * Pow(b, n - m);
    MulGe(Pow(b, m), Pow(b, n - m));
  }

  /** The value of a bigit sequence, lowest bigit first. */
  function Val(s: seq<Bigit>): nat {
    if s == [] then 0 else s[0] + BASE * Val(s[1..])
  }

  /** Top bigit nonzero, or the one-bigit zero: what remove_leading_zeros leaves. */
  predicate Trimmed(s: seq<Bigit>) {
    |s| > 0 && (s[|s| - 1] != 0 || |s| == 1)
  }

  /** Top bigit nonzero. */
  predicate Positive(s: seq<Bigit>) {
    |s| > 0 && s[|s| - 1] != 0
  }

  lemma {:induction false} ValSplit(s: seq<Bigit>, k: nat)
    requires k <= |s|
    ensures Val(s) == Val(s[..k]) + Pow(BASE, k) * Val(s[k..])
  {
    if k == 0 {
      assert s[0..] == s;
    } else {
      ValSplit(s[1..], k - 1);
      assert s[..k][1..] == s[1..][..k - 1];
      assert s[1..][k - 1..] == s[k..];
      Assoc(BASE, Pow(BASE, k - 1), Val(s[k..]));
    }
  }

  lemma ValConcat(a: seq<Bigit>, b: seq<Bigit>)
    ensures Val(a + b) == Val(a) + Pow(BASE, |a|) * Val(b)
  {
    ValSplit(a + b, |a|);
    assert (a + b)[..|a|] == a && (a + b)[|a|..] == b;
  }

  lemma ValSingle(d: Bigit)
    ensures Val([d]) == d
  {
    assert [d][1..] == [];
  }

  /** Splitting off the top bigit. */
  lemma ValTop(s: seq<Bigit>)
    requires |s| > 0
    ensures Val(s) == Val(s[..|s| - 1]) + Pow(BASE, |s| - 1) * s[|s| - 1]
  {
    ValSplit(s, |s| - 1);
    assert s[|s| - 1..] == [s[|s| - 1]];
    ValSingle(s[|s| - 1]);
  }

  lemma {:induction false} ValBound(s: seq<Bigit>)
    ensures Val(s) < Pow(BASE, |s|)
  {
    if s != [] {
      ValBound(s[1..]);
    }
  }

  lemma ValPositive(s: seq<Bigit>)
    requires Positive(s)
    ensures Val(s) >= Pow(BASE, |s| - 1) > 0
  {
    ValTop(s);
    MulGe(Pow(BASE, |s| - 1), s[|s| - 1]);
  }

  lemma {:induction false} ValZeros(n: nat)
    ensures Val(seq(n, _ => 0)) == 0
  {
    if n > 0 {
      assert seq(n, _ => 0)[1..] == seq(n - 1, _ => 0);
      ValZeros(n - 1);
    }
  }

  /** Dropping zero top bigits keeps the value. */
  lemma ValDropZeros(s: seq<Bigit>, k: nat)
    requires k <= |s| && forall i | k <= i < |s| :: s[i] == 0
    ensures Val(s[..k]) == Val(s)
  {
    ValSplit(s, k);
    assert s[k..] == seq(|s| - k, _ => 0);
    ValZeros(|s| - k);
  }

  // ------------------------------------------------------------ multiplication

  /** The bigits of n, none for zero. */
  function Digits(n: nat): (s: seq<Bigit>)
    ensures Val(s) == n
    ensures n > 0 ==> Positive(s)
    ensures n == 0 ==> s == []
    decreases n
  {
    if n == 0 then [] else
      var rest := Digits(n / BASE);
      assert ([n % BASE] + rest)[1..] == rest;
      [n % BASE] + rest
  }

  /** Multiplying by v bigit by bigit, with an incoming carry. */
  function MulSeq(s: seq<Bigit>, v: nat, carry: nat): (r: seq<Bigit>) {
    if s == [] then Digits(carry)
    else
      var t := s[0] * v + carry;
      [t % BASE] + MulSeq(s[1..], v, t / BASE)
  }

  /** The carry recurrence computes exactly value * v + carry. */
  lemma {:induction false} MulSeqVal(s: seq<Bigit>, v: nat, carry: nat)
    ensures Val(MulSeq(s, v, carry)) == Val(s) * v + carry
  {
    if s == [] {
    } else {
      var t := s[0] * v + carry;
      MulStep(s, v, carry, t);
      hide MulSeq;
      var rest := MulSeq(s[1..], v, t / BASE);
      MulSeqVal(s[1..], v, t / BASE);
      ValCons(t % BASE, rest);
      ValCons(s[0], s[1..]);
      assert s == [s[0]] + s[1..];
      hide Val;
      MulSum(s[0], Val(s[1..]), v, carry, t);
    }
  }

  lemma MulSum(d: nat, x: nat, v: nat, carry: nat, t: nat)
    requires t == d * v + carry
    ensures t % BASE + BASE * (x * v + t / BASE) == (d + BASE * x) * v + carry
  {
    Distrib(v, d, BASE * x);
    Assoc(BASE, x, v);
  }

  lemma ValCons(d: Bigit, s: seq<Bigit>)
    ensures Val([d] + s) == d + BASE * Val(s)
  {
    assert ([d] + s)[1..] == s;
  }

  lemma {:induction false} MulSeqTrimmed(s: seq<Bigit>, v: nat, carry: nat)
    requires v > 0
    ensures Positive(s) ==> Positive(MulSeq(s, v, carry))
    ensures |s| <= |MulSeq(s, v, carry)|
    ensures s == [0] && carry == 0 ==> MulSeq(s, v, carry) == [0]
  {
    if s != [] {
      var t := s[0] * v + carry;
      var rest := MulSeq(s[1..], v, t / BASE);
      MulStep(s, v, carry, t);
      if |s| > 1 {
        MulSeqTrimmed(s[1..], v, t / BASE);
        hide MulSeq, Digits;
        assert Positive(s) ==> Positive(s[1..]) && Positive([t % BASE] + rest);
      } else {
        assert rest == Digits(t / BASE);
        hide MulSeq, Digits;
        MulSign(s[0], v, carry, t);
        if t >= BASE {
          assert Positive(rest);
        } else {
          assert rest == [];
        }
      }
    }
  }

  lemma MulSign(d: nat, v: nat, carry: nat, t: nat)
    requires v > 0 && t == d * v + carry
    ensures d > 0 ==> t > 0
    ensures d == 0 ==> t == carry
  {
    if d > 0 { MulGe(v, d); }
  }

  /** One step of the carry recurrence. */
  lemma MulStep(s: seq<Bigit>, v: nat, carry: nat, t: nat)
    requires s != [] && t == s[0] * v + carry
    ensures MulSeq(s, v, carry) == [t % BASE] + MulSeq(s[1..], v, t / BASE)
  {
  }

  // ---------------------------------------------------------------- subtraction

  /** Subtracting equally long sequences with an incoming borrow; returns the outgoing borrow. */
  function SubSeq(a: seq<Bigit>, b: seq<Bigit>, borrow: nat): (r: (seq<Bigit>, nat))
    requires |a| == |b| && borrow <= 1
    ensures |r.0| == |a| && r.1 <= 1
  {
    if a == [] then ([], borrow)
    else
      var d := a[0] - b[0] - borrow;
      var (rest, out) := SubSeq(a[1..], b[1..], if d < 0 then 1 else 0);
      ([if d < 0 then d + BASE else d] + rest, out)
  }

  lemma {:induction false} SubSeqVal(a: seq<Bigit>, b: seq<Bigit>, borrow: nat)
    requires |a| == |b| && borrow <= 1
    ensures var (r, out) := SubSeq(a, b, borrow);
      Val(r) + Val(b) + borrow == Val(a) + out * Pow(BASE, |a|)
  {
    if a != [] {
      var d := a[0] - b[0] - borrow;
      var bw := if d < 0 then 1 else 0;
      var (rest, out) := SubSeq(a[1..], b[1..], bw);
      SubSeqVal(a[1..], b[1..], bw);
      var r := SubSeq(a, b, borrow).0;
      assert r[1..] == rest;
      assert out * Pow(BASE, |a|) == BASE * (out * Pow(BASE, |a| - 1));
    }
  }

  /** A borrow is left over exactly when the subtrahend is larger. */
  lemma SubSeqBorrow(a: seq<Bigit>, b: seq<Bigit>)
    requires |a| == |b|
    ensures SubSeq(a, b, 0).1 == 1 <==> Val(a) < Val(b)
  {
    hide Val, Pow, SubSeq;
    var (r, out) := SubSeq(a, b, 0);
    SubSeqVal(a, b, 0);
    ValBound(r);
    BorrowSign(Val(r), Val(b), Val(a), out, Pow(BASE, |a|));
  }

  lemma BorrowSign(r: nat, b: nat, a: nat, out: nat, p: nat)
    requires r + b == a + out * p && r < p && out <= 1
    ensures out == 1 <==> a < b
  {
    if out == 0 {
      assert out * p == 0;
    } else {
      assert out * p == p;
    }
  }

  /**
   What subtract_aligned's borrow loop does to the bigits above the subtrahend: it
   stays on the first of them, and repeats there while a borrow is left.
   */
  function BorrowLoop(rest: seq<Bigit>, borrow: nat): (r: seq<Bigit>)
    requires borrow <= 1 && (borrow == 1 ==> rest != [])
    ensures |r| == |rest| && (rest != [] ==> r[1..] == rest[1..])
  {
    if borrow == 0 then rest
    else if rest[0] > 0 then [rest[0] - 1] + rest[1..]
    else [BASE - 2] + rest[1..]
  }

  /** The bigits after subtracting b, placed k bigits up, before trimming. */
  function SubAligned(a: seq<Bigit>, k: nat, b: seq<Bigit>): (r: seq<Bigit>)
    requires k + |b| <= |a|
    requires Val(a[k..k + |b|]) < Val(b) ==> k + |b| < |a|
  {
    SubSeqBorrow(a[k..k + |b|], b);
    var (mid, borrow) := SubSeq(a[k..k + |b|], b, 0);
    a[..k] + mid + BorrowLoop(a[k + |b|..], borrow)
  }

  /** The borrow loop goes wrong: a borrow is needed and the next bigit is zero. */
  predicate BorrowStuck(a: seq<Bigit>, k: nat, b: seq<Bigit>)
    requires k + |b| <= |a|
  {
    Val(a[k..k + |b|]) < Val(b) && k + |b| < |a| && a[k + |b|] == 0
  }

  lemma Val3(x: seq<Bigit>, y: seq<Bigit>, z: seq<Bigit>)
    ensures Val(x + y + z) == Val(x) + Pow(BASE, |x|) * Val(y) + Pow(BASE, |x| + |y|) * Val(z)
  {
    ValConcat(x + y, z);
    ValConcat(x, y);
  }

  /**
   Exactly how subtract_aligned relates to subtraction: right unless the borrow
   loop is stuck, and then too large by (2^32 - 1) units of the stuck bigit.
   */
  lemma SubAlignedVal(a: seq<Bigit>, k: nat, b: seq<Bigit>)
    requires k + |b| <= |a|
    requires Val(a[k..k + |b|]) < Val(b) ==> k + |b| < |a|
    ensures |SubAligned(a, k, b)| == |a|
    ensures Val(SubAligned(a, k, b)) + Pow(BASE, k) * Val(b)
         == Val(a) + (if BorrowStuck(a, k, b) then (BASE - 1) * Pow(BASE, k + |b|) else 0)
  {
    hide Val, SubSeq, SubAligned, Pow, BorrowLoop;
    var mid, borrow := SubAlignedParts(a, k, b);
    PowAdd(BASE, k, |b|);
    Scale(Pow(BASE, k), Pow(BASE, |b|), Val(mid), Val(b), Val(a[k..k + |b|]), borrow);
    BorrowVal(a[k + |b|..], borrow, Pow(BASE, k + |b|));
  }

  /** The three parts that subtract_aligned works on. */
  lemma SubAlignedParts(a: seq<Bigit>, k: nat, b: seq<Bigit>) returns (mid: seq<Bigit>, borrow: nat)
    requires k + |b| <= |a|
    requires Val(a[k..k + |b|]) < Val(b) ==> k + |b| < |a|
    ensures |SubAligned(a, k, b)| == |a| && borrow == (if Val(a[k..k + |b|]) < Val(b) then 1 else 0)
    ensures Val(mid) + Val(b) == Val(a[k..k + |b|]) + borrow * Pow(BASE, |b|)
    ensures Val(SubAligned(a, k, b))
         == Val(a[..k]) + Pow(BASE, k) * Val(mid) + Pow(BASE, k + |b|) * Val(BorrowLoop(a[k + |b|..], borrow))
    ensures Val(a) == Val(a[..k]) + Pow(BASE, k) * Val(a[k..k + |b|]) + Pow(BASE, k + |b|) * Val(a[k + |b|..])
  {
    hide Val, SubSeq, Pow;
    var mida, rest := a[k..k + |b|], a[k + |b|..];
    SubSeqBorrow(mida, b);
    SubSeqVal(mida, b, 0);
    mid, borrow := SubSeq(mida, b, 0).0, SubSeq(mida, b, 0).1;
    Val3(a[..k], mid, BorrowLoop(rest, borrow));
    Val3(a[..k], mida, rest);
    assert a == a[..k] + mida + rest;
  }

  lemma Scale(p: int, q: int, mid: int, b: int, mida: int, borrow: int)
    requires mid + b == mida + borrow * q
    ensures p * mid + p * b == p * mida + borrow * (p * q)
  {
    Distrib(p, mid, b);
    Distrib(p, mida, borrow * q);
    Assoc(p, borrow, q);
    Assoc(borrow, p, q);
  }

  lemma BorrowVal(rest: seq<Bigit>, borrow: nat, u: nat)
    requires borrow <= 1 && (borrow == 1 ==> rest != [])
    ensures u * Val(BorrowLoop(rest, borrow)) + borrow * u
         == u * Val(rest) + (if borrow == 1 && rest[0] == 0 then (BASE - 1) * u else 0)
  {
    BorrowDiff(rest, borrow);
    hide *;
    ScaleEq(u, Val(BorrowLoop(rest, borrow)), borrow, Val(rest), if borrow == 1 && rest[0] == 0 then BASE - 1 else 0);
  }

  lemma BorrowDiff(rest: seq<Bigit>, borrow: nat)
    requires borrow <= 1 && (borrow == 1 ==> rest != [])
    ensures Val(BorrowLoop(rest, borrow)) + borrow
         == Val(rest) + (if borrow == 1 && rest[0] == 0 then BASE - 1 else 0)
  {
  }

  lemma ScaleEq(u: int, x: int, y: int, z: int, w: int)
    requires x + y == z + w
    ensures u * x + y * u == u * z + w * u
  {
    Distrib(u, x, y);
    Distrib(u, z, w);
  }
}
