/**
 Decimal digit strings and rounding: what the output buffer of the digit generator
 denotes, and when it is the value rounded to nearest with ties to even.
 */
module Rounding {
  import opened Arithmetic
  import opened Bigits

  const ZERO: int := 48
  const OVERFLOW: int := 58

  /** An error of at most half of q; exactly half only for an even result. */
  predicate Near(err: int, q: nat, r: int) {
    && 2 * err <= q && -2 * err <= q
    && (2 * err == q || -2 * err == q ==> r % 2 == 0)
  }

  /** r is p / q rounded to the nearest integer, ties to the even one. */
  predicate IsRounded(p: nat, q: nat, r: int) {
    Near(r * q - p, q, r)
  }

  /** There is only one way to round. */
  lemma RoundedUnique(p: nat, q: nat, r: nat, r': nat)
    requires q > 0 && IsRounded(p, q, r) && IsRounded(p, q, r')
    ensures r == r'
  {
    Apart(q, r, r', r * q - p, r' * q - p);
    Apart(q, r', r, r' * q - p, r * q - p);
  }

  lemma Apart(q: nat, r: nat, r': nat, a: int, b: int)
    requires q > 0 && Near(a, q, r) && Near(b, q, r') && b - a == r' * q - r * q
    ensures r' <= r
  {
    var k, d := r' - r, b - a;
    Distrib(q, r, k);
    hide Near;
    if k >= 1 {
      Gap(k, q);
      NearGap(q, r, r', a, b);
    }
  }

  lemma Gap(k: int, q: int)
    requires k >= 1 && q > 0
    ensures k * q >= q && (k > 1 ==> k * q > q)
  {
    if k > 1 { MulLt(1, k, q); }
  }

  lemma NearGap(q: nat, r: nat, r': nat, a: int, b: int)
    requires q > 0 && r < r' && b - a >= q && (r' - r > 1 ==> b - a > q)
    ensures !(Near(a, q, r) && Near(b, q, r'))
  {
  }

  /** Rounding depends on the ratio only. */
  lemma RoundedScale(p: nat, q: nat, p': nat, q': nat, r: int)
    requires q > 0 && q' > 0 && p * q' == p' * q && IsRounded(p, q, r)
    ensures IsRounded(p', q', r)
  {
    CrossDiff(r, p, q, p', q');
    NearScale(r * q - p, q, r * q' - p', q', r);
  }

  lemma CrossDiff(r: int, p: int, q: int, p': int, q': int)
    requires p * q' == p' * q
    ensures (r * q - p) * q' == (r * q' - p') * q
  {
    Distrib(q', r * q - p, p);
    Distrib(q, r * q' - p', p');
    Assoc(r, q, q');
    Assoc(r, q', q);
  }

  lemma NearScale(a: int, q: nat, b: int, q': nat, r: int)
    requires q > 0 && q' > 0 && a * q' == b * q && Near(a, q, r)
    ensures Near(b, q', r)
  {
    ScaleBound(a, b, q, q');
    Negate(a, q');
    Negate(b, q);
    ScaleBound(-a, -b, q, q');
  }

  lemma Negate(a: int, q: int)
    ensures (-a) * q == -(a * q)
  {
  }

  lemma ScaleBound(a: int, b: int, q: int, q': int)
    requires q > 0 && q' > 0 && a * q' == b * q && 2 * a <= q
    ensures 2 * b <= q'
    ensures 2 * b == q' ==> 2 * a == q
  {
    if 2 * b > q' {
      MulLt(q', 2 * b, q);
      MulLe(2 * a, q, q');
      Assoc(2, a, q');
      Assoc(2, b, q);
    } else if 2 * b == q' && 2 * a < q {
      MulLt(2 * a, q, q');
      Assoc(2, a, q');
      Assoc(2, b, q);
    }
  }

  // ---------------------------------------------------------------- digits

  /** The number a buffer of digit characters spells, the overflow character counting ten. */
  function Spelled(buf: seq<int>): int {
    if buf == [] then 0 else 10 * Spelled(buf[..|buf| - 1]) + (buf[|buf| - 1] - ZERO)
  }

  predicate IsDigit(c: int) { ZERO <= c < OVERFLOW }

  predicate AllDigits(buf: seq<int>) {
    forall i | 0 <= i < |buf| :: IsDigit(buf[i])
  }

  lemma SpelledPush(buf: seq<int>, c: int)
    ensures Spelled(buf + [c]) == 10 * Spelled(buf) + (c - ZERO)
  {
    assert (buf + [c])[..|buf|] == buf;
  }

  /** Moving ten units of a digit into one unit of the digit before it. */
  lemma {:induction false} SpelledCarry(buf: seq<int>, i: nat)
    requires 0 < i < |buf|
    ensures Spelled(buf[i := buf[i] - 10][i - 1 := buf[i - 1] + 1]) == Spelled(buf)
  {
    var n := |buf| - 1;
    var s := buf[i := buf[i] - 10][i - 1 := buf[i - 1] + 1];
    if i < n {
      SpelledCarry(buf[..n], i);
      assert s[..n] == buf[..n][i := buf[i] - 10][i - 1 := buf[i - 1] + 1];
    } else {
      var t := buf[..n];
      assert s[..n] == t[n - 1 := t[n - 1] + 1];
      assert t[n - 1 := t[n - 1] + 1][..n - 1] == t[..n - 1];
    }
  }

  /** A digit followed by zeros. */
  lemma {:induction false} SpelledLead(buf: seq<int>)
    requires buf != [] && forall i | 0 < i < |buf| :: buf[i] == ZERO
    ensures Spelled(buf) == (buf[0] - ZERO) * Pow(10, |buf| - 1)
  {
    if |buf| == 1 {
      assert Spelled([]) == 0 && Pow(10, 0) == 1;
    } else {
      SpelledLead(buf[..|buf| - 1]);
      Assoc(buf[0] - ZERO, Pow(10, |buf| - 2), 10);
    }
  }

  /** Digits spell less than the next power of ten. */
  lemma {:induction false} SpelledBound(buf: seq<int>)
    requires AllDigits(buf)
    ensures 0 <= Spelled(buf) < Pow(10, |buf|)
  {
    if buf != [] {
      SpelledBound(buf[..|buf| - 1]);
    }
  }

  /** Digit strings of one length spell different numbers. */
  lemma {:induction false} SpelledInjective(a: seq<int>, b: seq<int>)
    requires AllDigits(a) && AllDigits(b) && |a| == |b| && Spelled(a) == Spelled(b)
    ensures a == b
    decreases |a|
  {
    if a != [] {
      var n := |a| - 1;
      assert IsDigit(a[n]) && IsDigit(b[n]);
      SpelledInjective(a[..n], b[..n]);
      assert a == a[..n] + [a[n]] && b == b[..n] + [b[n]];
    }
  }

  /** A one and zeros: the power of ten below a carry out of nines. */
  predicate OneAndZeros(buf: seq<int>) {
    buf != [] && buf[0] == ZERO + 1 && forall i | 0 < i < |buf| :: buf[i] == ZERO
  }

  lemma OneAndZerosSpelled(buf: seq<int>)
    requires OneAndZeros(buf)
    ensures 10 * Spelled(buf) == Pow(10, |buf|)
  {
    SpelledLead(buf);
  }

  /** A leading overflow with zeros after it is ten times a leading one. */
  lemma LeadingOne(buf: seq<int>)
    requires buf != [] && buf[0] == OVERFLOW && forall i | 0 < i < |buf| :: buf[i] == ZERO
    ensures Spelled(buf) == 10 * Spelled(buf[0 := ZERO + 1])
  {
    SpelledLead(buf);
    SpelledLead(buf[0 := ZERO + 1]);
  }
}
