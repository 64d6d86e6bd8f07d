/**
 The Internet checksum: 64-bit deferred-carry sums of little-endian words against the
 16-bit ones' complement sum of RFC 1071.
 */
module InternetChecksum {
  import opened Bytes

  const ONES: nat := 0xFFFF
  const TWO_POW_32: nat := 0x1_0000_0000
  const TWO_POW_64: nat := 0x1_0000_0000_0000_0000


  // ------------------------------------------------------------- reference

  /** Ones' complement addition: a carry out of 16 bits comes back in at the bottom. */
  function OnesAdd(a: nat, b: nat): nat {
    if a + b > ONES then a + b - ONES else a + b
  }

  /** The sum of sections 1 and 2 of RFC 1071 over big-endian words, an odd byte padded with zero. */
  function OnesSum(acc: nat, data: seq<Byte>): nat
    decreases |data|
  {
    if data == [] then acc
    else if |data| == 1 then OnesAdd(acc, 0x100 * data[0] as int)
    else OnesSum(OnesAdd(acc, 0x100 * data[0] as int + data[1] as int), data[2..])
  }

  // -------------------------------------------------- representatives mod 65535

  /** The 16-bit number ones' complement arithmetic takes n to: 0 only for 0. */
  function Canon(n: nat): (c: nat)
    ensures c <= ONES && (c == 0 <==> n == 0)
  {
    if n == 0 then 0 else (n - 1) % ONES + 1
  }

  lemma CanonUnique(n: nat, k: nat, c: nat)
    requires n == c + ONES * k && c <= ONES && (c == 0 ==> k == 0)
    ensures Canon(n) == c
  {
  }

  /** n and its representative differ by a multiple of 65535. */
  lemma CanonMultiple(n: nat) returns (k: nat)
    ensures n == Canon(n) + ONES * k
    ensures n == 0 ==> k == 0
  {
    k := if n == 0 then 0 else (n - 1) / ONES;
  }

  lemma CanonExcess(n: nat, k: nat)
    requires n > 0 || k == 0
    ensures Canon(n + ONES * k) == Canon(n)
  {
    var j := CanonMultiple(n);
    CanonUnique(n + ONES * k, j + k, Canon(n));
  }

  lemma CanonAdd(a: nat, b: nat)
    requires a <= ONES && b <= ONES
    ensures OnesAdd(a, b) == Canon(a + b)
  {
    CanonUnique(a + b, if a + b > ONES then 1 else 0, OnesAdd(a, b));
  }

  lemma CanonInner(n: nat, b: nat)
    ensures Canon(Canon(n) + b) == Canon(n + b)
  {
    var k := CanonMultiple(n);
    CanonExcess(Canon(n) + b, k);
  }

  /** Adding the complement of the representative completes the sum to all ones. */
  lemma CanonComplement(n: nat)
    ensures Canon(n + (ONES - Canon(n))) == ONES
  {
    var k := CanonMultiple(n);
    CanonUnique(n + (ONES - Canon(n)), k, ONES);
  }

  // ------------------------------------------------------------------- sums

  /** Sum of the 16-bit little-endian words, an odd byte counting as it is. */
  function Sum16(data: seq<Byte>): nat {
    if data == [] then 0
    else if |data| == 1 then data[0]
    else data[0] as int + 0x100 * data[1] as int + Sum16(data[2..])
  }

  /** Sum of the 16-bit big-endian words, an odd byte padded with zero. */
  function SumBig(data: seq<Byte>): nat {
    if data == [] then 0
    else if |data| == 1 then 0x100 * data[0] as int
    else 0x100 * data[0] as int + data[1] as int + SumBig(data[2..])
  }

  /** What AddChecksum adds up: 32-bit little-endian words, then two bytes, then one. */
  function Sum32(data: seq<Byte>): nat {
    if |data| > 3 then LittleWord(data, 0) + Sum32(data[4..]) else Sum16(data)
  }

  lemma {:induction false} Sum32Excess(data: seq<Byte>) returns (k: nat)
    ensures Sum32(data) == Sum16(data) + ONES * k
    ensures Sum16(data) == 0 ==> k == 0
  {
    if |data| > 3 {
      var j := Sum32Excess(data[4..]);
      assert data[2..][2..] == data[4..];
      k := j + (data[2] as int + 0x100 * data[3] as int);
    } else {
      k := 0;
    }
  }

  /** Folding 32-bit words or 16-bit words gives the same 16 bits. */
  lemma Sum32Canon(base: nat, data: seq<Byte>)
    ensures Canon(base + Sum32(data)) == Canon(base + Sum16(data))
  {
    var k := Sum32Excess(data);
    CanonExcess(base + Sum16(data), k);
  }

  lemma {:induction false} Sum16Concat(a: seq<Byte>, b: seq<Byte>)
    requires |a| % 2 == 0
    ensures Sum16(a + b) == Sum16(a) + Sum16(b)
    decreases |a|
  {
    if a == [] {
      assert a + b == b;
    } else {
      Sum16Concat(a[2..], b);
      assert (a + b)[2..] == a[2..] + b;
    }
  }

  /** The end-around-carry fold is the representative of the plain sum. */
  lemma {:induction false} OnesSumCanon(acc: nat, data: seq<Byte>)
    requires acc <= ONES
    ensures OnesSum(acc, data) == Canon(acc + SumBig(data))
    decreases |data|
  {
    if data == [] {
      CanonUnique(acc, 0, acc);
    } else {
      var w: nat := if |data| == 1 then 0x100 * data[0] as int else 0x100 * data[0] as int + data[1] as int;
      CanonAdd(acc, w);
      if |data| > 1 {
        OnesSumCanon(OnesAdd(acc, w), data[2..]);
        CanonInner(acc + w, SumBig(data[2..]));
      }
    }
  }

  // -------------------------------------------------------------- byte order

  function Swap(c: nat): (r: nat)
    requires c <= ONES
    ensures r <= ONES && (r == 0 <==> c == 0)
  {
    0x100 * (c % 0x100) + c / 0x100
  }

  lemma SwapSwap(c: nat)
    requires c <= ONES
    ensures Swap(Swap(c)) == c && Swap(ONES - c) == ONES - Swap(c)
  {
    var lo, hi := c % 0x100, c / 0x100;
    assert Swap(c) % 0x100 == hi && Swap(c) / 0x100 == lo;
    assert (ONES - c) % 0x100 == 0xFF - lo && (ONES - c) / 0x100 == 0xFF - hi by {
      assert ONES - c == 0x100 * (0xFF - hi) + (0xFF - lo);
    }
  }

  /** 256 * sum of little-endian words and the big-endian sum agree modulo 65535. */
  lemma {:induction false} BigFromLittle(data: seq<Byte>) returns (k: nat)
    ensures 0x100 * Sum16(data) == SumBig(data) + ONES * k
    ensures SumBig(data) == 0 <==> Sum16(data) == 0
    ensures SumBig(data) == 0 ==> k == 0
    decreases |data|
  {
    if |data| < 2 {
      k := 0;
    } else {
      var j := BigFromLittle(data[2..]);
      k := j + data[1];
    }
  }

  lemma SwapCanon(c: nat)
    requires c <= ONES
    ensures Canon(0x100 * c) == Swap(c)
  {
    CanonUnique(0x100 * c, c / 0x100, Swap(c));
  }

  /** Computing with little-endian words yields the byte-swapped big-endian sum. */
  lemma LittleIsSwapped(data: seq<Byte>)
    ensures Swap(Canon(Sum16(data))) == OnesSum(0, data)
  {
    OnesSumCanon(0, data);
    var k := BigFromLittle(data);
    CanonExcess(SumBig(data), k);
    var j := CanonMultiple(Sum16(data));
    var c := Canon(Sum16(data));
    CanonExcess(0x100 * c, 0x100 * j);
    SwapCanon(c);
  }

  // ------------------------------------------------------------------ methods

  /** AddChecksum: a 64-bit sum, wrapping if it must. */
  method AddChecksum(currentChecksum: nat, data: seq<Byte>) returns (sum: nat)
    requires currentChecksum < TWO_POW_64
    ensures sum == (currentChecksum + Sum32(data)) % TWO_POW_64
  {
    hide Sum32, LittleWord;
    sum := currentChecksum;
    var pos, dataLen := 0, |data|;
    assert data[0..] == data;
    while dataLen > 3
      invariant 0 <= pos && 0 <= dataLen && pos + dataLen == |data| && sum < TWO_POW_64
      invariant (sum + Sum32(data[pos..])) % TWO_POW_64 == (currentChecksum + Sum32(data)) % TWO_POW_64
    {
      SumWord(data, pos);
      ModStep(sum, LittleWord(data[pos..], 0), Sum32(data[pos + 4..]));
      sum := (sum + LittleWord(data[pos..], 0)) % TWO_POW_64;
      pos, dataLen := pos + 4, dataLen - 4;
    }
    sum := AddTail(sum, data[pos..]);
  }

  lemma SumWord(data: seq<Byte>, pos: nat)
    requires pos + 4 <= |data|
    ensures Sum32(data[pos..]) == LittleWord(data[pos..], 0) + Sum32(data[pos + 4..])
  {
    hide LittleWord;
    assert data[pos..][4..] == data[pos + 4..];
  }

  /** The last two bytes and the last one. */
  method AddTail(sum0: nat, rest: seq<Byte>) returns (sum: nat)
    requires sum0 < TWO_POW_64 && |rest| <= 3
    ensures sum < TWO_POW_64 && sum == (sum0 + Sum32(rest)) % TWO_POW_64
  {
    sum := sum0;
    var pos, dataLen := 0, |rest|;
    if dataLen > 1 {
      ModStep(sum, rest[0] as int + 0x100 * rest[1] as int, Sum16(rest[2..]));
      sum := (sum + rest[0] as int + 0x100 * rest[1] as int) % TWO_POW_64;
      pos, dataLen := pos + 2, dataLen - 2;
    }
    if dataLen > 0 {
      assert rest[pos..] == [rest[pos]];
      assert rest[0..] == rest;
      sum := (sum + rest[pos]) % TWO_POW_64;
    }
  }

  lemma ModStep(a: nat, w: nat, rest: nat)
    ensures ((a + w) % TWO_POW_64 + rest) % TWO_POW_64 == (a + (w + rest)) % TWO_POW_64
  {
  }

  /** FinishChecksum16: fold to 32 bits, then to 16; both loops stop. */
  method FinishChecksum16(currentChecksum: nat) returns (c: nat)
    requires currentChecksum < TWO_POW_64
    ensures c == Canon(currentChecksum)
  {
    c := currentChecksum;
    while c > 0xFFFF_FFFF
      invariant Canon(c) == Canon(currentChecksum)
    {
      Fold(c, TWO_POW_32);
      c := c / TWO_POW_32 + c % TWO_POW_32;
    }
    while c > 0xFFFF
      invariant Canon(c) == Canon(currentChecksum)
    {
      Fold(c, 0x1_0000);
      c := c / 0x1_0000 + c % 0x1_0000;
    }
    CanonUnique(c, 0, c);
  }

  /** Folding at 16 or 32 bits takes off a multiple of 65535 and leaves something. */
  lemma Fold(c: nat, p: nat)
    requires (p == 0x1_0000 || p == TWO_POW_32) && c >= p
    ensures 0 < c / p + c % p < c
    ensures Canon(c / p + c % p) == Canon(c)
  {
    var h := c / p;
    var k := if p == 0x1_0000 then h else 0x1_0001 * h;
    assert c == (h + c % p) + ONES * k;
    CanonExcess(h + c % p, k);
  }

  /** FinishChecksum32: the fold to 32 bits, with 2^32 - 1 in place of 65535. */
  method FinishChecksum32(currentChecksum: nat) returns (c: nat)
    requires currentChecksum < TWO_POW_64
    ensures c < TWO_POW_32
    ensures c % 0xFFFF_FFFF == currentChecksum % 0xFFFF_FFFF
    ensures c == 0 <==> currentChecksum == 0
  {
    c := currentChecksum;
    while c > 0xFFFF_FFFF
      invariant c % 0xFFFF_FFFF == currentChecksum % 0xFFFF_FFFF
      invariant c == 0 <==> currentChecksum == 0
    {
      assert c == (c / TWO_POW_32 + c % TWO_POW_32) + 0xFFFF_FFFF * (c / TWO_POW_32);
      c := c / TWO_POW_32 + c % TWO_POW_32;
    }
  }

  /**
   Checksum16 of any data whose sum fits 64 bits is the RFC 1071 sum in the other byte
   order.
   */
  method Checksum16(data: seq<Byte>) returns (c: nat)
    requires Sum32(data) < TWO_POW_64
    ensures c <= ONES && Swap(c) == OnesSum(0, data)
  {
    hide Canon, Sum32, Sum16, OnesSum, Swap;
    var sum := AddChecksum(0, data);
    c := FinishChecksum16(sum);
    Sum32Canon(0, data);
    LittleIsSwapped(data);
  }

  lemma {:induction false} Sum32Bound(data: seq<Byte>)
    ensures Sum32(data) <= TWO_POW_32 * (|data| / 4 + 1)
  {
    if |data| > 3 {
      Sum32Bound(data[4..]);
    } else if |data| > 1 {
      assert Sum16(data[2..]) <= 0xFF;
    }
  }
}
