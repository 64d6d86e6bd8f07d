/** Definitions and facts that several models share. */
module Wrappers {
  datatype Option<+T> = None | Some(value: T)
}

/** Bytes, and 32-bit words as a little-endian host lays them out in memory. */
module Bytes {
  type Byte = x: int | 0 <= x < 256

  function LittleWord(mem: seq<Byte>, at: nat): (w: nat)
    requires at + 4 <= |mem|
    ensures w <= 0xFFFF_FFFF
  {
    var b0: int, b1: int, b2: int, b3: int := mem[at], mem[at + 1], mem[at + 2], mem[at + 3];
    b0 + 0x100 * b1 + 0x1_0000 * b2 + 0x100_0000 * b3
  }

  lemma SameWord(mem: seq<Byte>, mem': seq<Byte>, at: nat)
    requires at + 4 <= |mem| == |mem'|
    requires mem'[at] == mem[at] && mem'[at + 1] == mem[at + 1]
    requires mem'[at + 2] == mem[at + 2] && mem'[at + 3] == mem[at + 3]
    ensures LittleWord(mem', at) == LittleWord(mem, at)
  {
  }

  function LittleBytes(w: nat): (b: seq<Byte>)
    requires w <= 0xFFFF_FFFF
    ensures |b| == 4 && LittleWord(b, 0) == w
  {
    var q1, q2 := w / 0x100, w / 0x100 / 0x100;
    [w % 0x100, q1 % 0x100, q2 % 0x100, q2 / 0x100]
  }
}

/** Multiplication and division, in steps small enough for the solver. */
module Arithmetic {
  lemma Distrib(x: int, y: int, z: int)
    ensures x * (y + z) == x * y + x * z
  {
  }

  lemma Assoc(x: int, y: int, z: int)
    ensures x * (y * z) == x * y * z
  {
  }

  lemma MulPos(x: int, y: int)
    requires x >= 0 && y >= 0
    ensures x * y >= 0
  {
  }

  lemma MulLe(x: int, y: int, z: int)
    requires x <= y && z >= 0
    ensures x * z <= y * z
  {
    MulPos(y - x, z);
    Distrib(z, x, y - x);
  }

  lemma MulLt(x: int, y: int, z: int)
    requires x < y && z >= 0
    ensures x * z + z <= y * z
  {
    MulLe(x + 1, y, z);
    Distrib(z, x, 1);
  }

  lemma MulGe(x: int, y: int)
    requires x >= 0 && y >= 1
    ensures x * y >= x
  {
    MulLe(1, y, x);
  }

  lemma CancelMul(x: int, y: int, p: int)
    requires p > 0 && x * p == y * p
    ensures x == y
  {
    if x < y { MulLt(x, y, p); } else if y < x { MulLt(y, x, p); }
  }

  /** Quotient and remainder are unique. */
  lemma Quotient(n: int, d: int, q: int, r: int)
    requires d > 0 && n == d * q + r && 0 <= r < d
    ensures n / d == q && n % d == r
  {
    var q', r' := n / d, n % d;
    if q < q' { MulLt(q, q', d); } else if q' < q { MulLt(q', q, d); }
  }
}
