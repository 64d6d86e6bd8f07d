/**
 Integers and length-prefixed strings on the wire: byte swapping, the two byte orders on
 hosts of either byte order, and reading back what was written.
 */
module BinaryCodec {
  import opened Wrappers
  import opened Bytes
  import opened Arithmetic

  datatype Endian = LittleEndian | BigEndian

  // ---------------------------------------------------------------- bytes of numbers

  function Pow256(w: nat): (r: nat)
    ensures r > 0
  {
    if w == 0 then 1 else 256 * Pow256(w - 1)
  }

  /** The w low bytes of u, the lowest first. */
  function LowFirst(w: nat, u: nat): (r: seq<Byte>)
    ensures |r| == w
  {
    if w == 0 then [] else [u % 256] + LowFirst(w - 1, u / 256)
  }

  function Number(b: seq<Byte>): nat {
    if b == [] then 0 else b[0] as int + 256 * Number(b[1..])
  }

  function Reversed(b: seq<Byte>): (r: seq<Byte>)
    ensures |r| == |b|
  {
    seq(|b|, i requires 0 <= i < |b| => b[|b| - 1 - i])
  }

  lemma {:induction false} NumberOfLowFirst(w: nat, u: nat)
    requires u < Pow256(w)
    ensures Number(LowFirst(w, u)) == u
  {
    if w > 0 {
      NumberOfLowFirst(w - 1, u / 256);
      assert LowFirst(w, u)[1..] == LowFirst(w - 1, u / 256);
    }
  }

  lemma {:induction false} LowFirstOfNumber(b: seq<Byte>)
    ensures Number(b) < Pow256(|b|) && LowFirst(|b|, Number(b)) == b
  {
    if b != [] {
      LowFirstOfNumber(b[1..]);
      var n := Number(b[1..]);
      assert (b[0] as int + 256 * n) % 256 == b[0] && (b[0] as int + 256 * n) / 256 == n;
    }
  }

  lemma ReversedTwice(b: seq<Byte>)
    ensures Reversed(Reversed(b)) == b
  {
  }

  // ------------------------------------------------------------------ byte swapping

  predicate Width(w: nat) { w == 1 || w == 2 || w == 4 || w == 8 }

  /** The byte of x k places up. */
  function ByteAt(x: nat, k: nat): Byte { x / Pow256(k) % 256 }

  function Swap16(x: nat): nat { ByteAt(x, 1) + 256 * ByteAt(x, 0) as int }

  function Swap32(x: nat): nat {
    ByteAt(x, 3) + 256 * ByteAt(x, 2) as int + 0x1_0000 * ByteAt(x, 1) as int + 0x100_0000 * ByteAt(x, 0) as int
  }

  function Swap64(x: nat): nat {
    ByteAt(x, 7) + 256 * ByteAt(x, 6) as int + 0x1_0000 * ByteAt(x, 5) as int + 0x100_0000 * ByteAt(x, 4) as int
    + 0x1_0000_0000 * ByteAt(x, 3) as int + 0x100_0000_0000 * ByteAt(x, 2) as int
    + 0x1_0000_0000_0000 * ByteAt(x, 1) as int + 0x100_0000_0000_0000 * ByteAt(x, 0) as int
  }

  /** ByteSwap of an unsigned integer of w bytes. */
  function ByteSwap(w: nat, x: nat): nat
    requires Width(w)
  {
    if w == 1 then x else if w == 2 then Swap16(x) else if w == 4 then Swap32(x) else Swap64(x)
  }

  lemma {:induction false} LowFirstAt(w: nat, u: nat, k: nat)
    requires k < w
    ensures LowFirst(w, u)[k] == ByteAt(u, k)
  {
    assert Pow256(0) == 1;
    if k > 0 {
      assert Pow256(k) == 256 * Pow256(k - 1);
      assert LowFirst(w, u)[k] == LowFirst(w - 1, u / 256)[k - 1];
      hide Pow256, LowFirst;
      LowFirstAt(w - 1, u / 256, k - 1);
      DivTwice(u, Pow256(k - 1));
    }
  }

  lemma DivTwice(u: nat, p: nat)
    requires p > 0
    ensures u / 256 / p == u / (256 * p)
  {
    var a, b := u / 256, u / 256 / p;
    var r, t := u % 256, a % p;
    assert u == 256 * a + r && a == p * b + t;
    Regroup(u, a, b, r, t, p);
    Quotient(u, 256 * p, b, 256 * t + r);
  }

  lemma Regroup(u: nat, a: nat, b: nat, r: nat, t: nat, p: nat)
    requires u == 256 * a + r && a == p * b + t
    ensures u == (256 * p) * b + (256 * t + r)
  {
  }

  /** Swapping reverses the bytes. */
  lemma SwapReverses(w: nat, x: nat)
    requires Width(w) && x < Pow256(w)
    ensures ByteSwap(w, x) == Number(Reversed(LowFirst(w, x)))
    ensures LowFirst(w, ByteSwap(w, x)) == Reversed(LowFirst(w, x))
  {
    var b := LowFirst(w, x);
    var r := Reversed(b);
    forall k | 0 <= k < w ensures r[k] == ByteAt(x, w - 1 - k) { LowFirstAt(w, x, w - 1 - k); }
    NumberUnfolds(r);
    if w == 1 { NumberOfLowFirst(1, x); assert r == b; }
    LowFirstOfNumber(r);
  }

  lemma NumberUnfolds(b: seq<Byte>)
    ensures |b| == 2 ==> Number(b) == b[0] as int + 256 * b[1] as int
    ensures |b| == 4 ==>
              Number(b) == b[0] as int + 256 * b[1] as int + 0x1_0000 * b[2] as int + 0x100_0000 * b[3] as int
    ensures |b| == 8 ==>
              Number(b) == b[0] as int + 256 * b[1] as int + 0x1_0000 * b[2] as int + 0x100_0000 * b[3] as int
                           + 0x1_0000_0000 * b[4] as int + 0x100_0000_0000 * b[5] as int
                           + 0x1_0000_0000_0000 * b[6] as int + 0x100_0000_0000_0000 * b[7] as int
  {
    if |b| == 2 { Number2(b); }
    if |b| == 4 { Number2(b[2..]); Number2(b); }
    if |b| == 8 { Number2(b[6..]); Number2(b[4..]); Number2(b[2..]); Number2(b); }
  }

  lemma Number2(b: seq<Byte>)
    requires |b| >= 2
    ensures Number(b) == b[0] as int + 256 * b[1] as int + 0x1_0000 * Number(b[2..])
  {
    assert b[1..][1..] == b[2..];
  }

  // -------------------------------------------------------------- memory and the wire

  /** An integer's bytes in the memory of a host. */
  function Store(host: Endian, w: nat, u: nat): (r: seq<Byte>)
    ensures |r| == w
  {
    if host.LittleEndian? then LowFirst(w, u) else Reversed(LowFirst(w, u))
  }

  function Load(host: Endian, b: seq<Byte>): nat {
    if host.LittleEndian? then Number(b) else Number(Reversed(b))
  }

  /** HostToLittleEndian and HostToBigEndian, and LittleEndianToHost and BigEndianToHost. */
  function Convert(host: Endian, endian: Endian, w: nat, u: nat): nat
    requires Width(w)
  {
    if host == endian then u else ByteSwap(w, u)
  }

  /** The bytes of u in the given order, whatever the host. */
  function Wire(endian: Endian, w: nat, u: nat): (r: seq<Byte>)
    ensures |r| == w
  {
    if endian.LittleEndian? then LowFirst(w, u) else Reversed(LowFirst(w, u))
  }

  /** Byte k of the wire: the k-th from the bottom in one order, from the top in the other. */
  lemma WireBytes(w: nat, u: nat, k: nat)
    requires k < w
    ensures Wire(LittleEndian, w, u)[k] == u / Pow256(k) % 256
    ensures Wire(BigEndian, w, u)[k] == u / Pow256(w - 1 - k) % 256
  {
    LowFirstAt(w, u, k);
    LowFirstAt(w, u, w - 1 - k);
  }

  /** What a host writes does not depend on its byte order. */
  lemma WireOnEveryHost(host: Endian, endian: Endian, w: nat, u: nat)
    requires Width(w) && u < Pow256(w)
    ensures Store(host, w, Convert(host, endian, w, u)) == Wire(endian, w, u)
  {
    SwapReverses(w, u);
    ReversedTwice(LowFirst(w, u));
  }

  /** Any host reads back the number. */
  lemma ReadOnEveryHost(host: Endian, endian: Endian, w: nat, u: nat)
    requires Width(w) && u < Pow256(w)
    ensures Convert(host, endian, w, Load(host, Wire(endian, w, u))) == u
  {
    var b := LowFirst(w, u);
    NumberOfLowFirst(w, u);
    ReversedTwice(b);
    if host != endian {
      var swapped := Number(Reversed(b));
      LowFirstOfNumber(Reversed(b));
      SwapReverses(w, swapped);
    }
  }

  // ---------------------------------------------------------------- values and items

  /** An integer type. */
  datatype Type = Type(width: nat, signed: bool)

  predicate ValidType(t: Type) { Width(t.width) }

  predicate Fits(t: Type, v: int) {
    if t.signed then 0 <= 2 * v + Pow256(t.width) < 2 * Pow256(t.width) else 0 <= v < Pow256(t.width)
  }

  /** static_cast to the unsigned type of the same width. */
  function Bits(t: Type, v: int): (r: nat)
    ensures r < Pow256(t.width)
  {
    v % Pow256(t.width)
  }

  /** The value of the type with these bits. */
  function Value(t: Type, u: nat): int {
    if t.signed && 2 * u >= Pow256(t.width) then u - Pow256(t.width) else u
  }

  lemma ValueOfBits(t: Type, v: int)
    requires Fits(t, v)
    ensures Value(t, Bits(t, v)) == v
  {
    var p := Pow256(t.width);
    if v >= 0 { Quotient(v, p, 0, v); } else { Quotient(v, p, -1, v + p); }
  }

  /** Something written: an integer, or a string behind its length. */
  datatype Item = Integer(t: Type, v: int) | Text(t: Type, text: seq<Byte>)

  function IntegerBytes(endian: Endian, t: Type, v: int): (r: seq<Byte>)
    ensures |r| == t.width
  {
    Wire(endian, t.width, Bits(t, v))
  }

  function ItemBytes(endian: Endian, i: Item): seq<Byte> {
    match i
    case Integer(t, v) => IntegerBytes(endian, t, v)
    case Text(t, text) => IntegerBytes(endian, t, |text|) + text
  }

  function Encode(endian: Endian, items: seq<Item>): seq<Byte> {
    if items == [] then [] else ItemBytes(endian, items[0]) + Encode(endian, items[1..])
  }

  /** ReadInteger on any host: the value, if enough bytes are left. */
  function ReadInt(host: Endian, endian: Endian, b: seq<Byte>, pos: nat, t: Type): Option<int>
    requires ValidType(t)
  {
    if pos + t.width <= |b|
    then Some(Value(t, Convert(host, endian, t.width, Load(host, b[pos..pos + t.width]))))
    else None
  }

  /** ReadString behind a length; a length that was read stays read. */
  function ReadText(host: Endian, endian: Endian, b: seq<Byte>, pos: nat, t: Type): (r: (Option<seq<Byte>>, nat))
    requires ValidType(t)
    ensures pos <= |b| ==> pos <= r.1 <= |b|
  {
    var n := ReadInt(host, endian, b, pos, t);
    var after := pos + t.width;
    if n.None? then (None, pos)
    else if n.value >= 0 && after + n.value <= |b| then (Some(b[after..after + n.value]), after + n.value)
    else (None, after)
  }

  /** b reads x at pos. */
  ghost predicate At(b: seq<Byte>, pos: nat, x: seq<Byte>): (r: bool)
    ensures r ==> pos + |x| <= |b|
  {
    pos + |x| <= |b| && b[pos..pos + |x|] == x
  }

  lemma AtSplit(b: seq<Byte>, pos: nat, x: seq<Byte>, y: seq<Byte>)
    requires At(b, pos, x + y)
    ensures At(b, pos, x) && At(b, pos + |x|, y)
  {
    var all := b[pos..pos + |x + y|];
    assert b[pos..pos + |x|] == all[..|x|] && b[pos + |x|..pos + |x| + |y|] == all[|x|..];
  }

  lemma IntegerReadBack(host: Endian, endian: Endian, b: seq<Byte>, pos: nat, t: Type, v: int)
    requires ValidType(t) && At(b, pos, IntegerBytes(endian, t, v))
    ensures ReadInt(host, endian, b, pos, t) == Some(Value(t, Bits(t, v)))
  {
    hide Pow256;
    ReadOnEveryHost(host, endian, t.width, Bits(t, v));
  }

  /** Reading an item of the same kind and type as i, and where that leaves the reader. */
  function ReadItem(host: Endian, endian: Endian, b: seq<Byte>, pos: nat, i: Item): (Option<Item>, nat)
    requires ValidType(i.t)
  {
    match i
    case Integer(t, _) =>
      var r := ReadInt(host, endian, b, pos, t);
      if r.Some? then (Some(Integer(t, r.value)), pos + t.width) else (None, pos)
    case Text(t, _) =>
      var (r, next) := ReadText(host, endian, b, pos, t);
      (if r.Some? then Some(Text(t, r.value)) else None, next)
  }

  /** Reading the items one after another gives them back and stops at the end. */
  ghost predicate ReadsBack(host: Endian, endian: Endian, b: seq<Byte>, pos: nat, items: seq<Item>)
    decreases |items|
  {
    if items == [] then pos == |b|
    else
      ValidType(items[0].t) &&
      var (r, next) := ReadItem(host, endian, b, pos, items[0]);
      r == Some(items[0]) && ReadsBack(host, endian, b, next, items[1..])
  }

  /** The item is of its type, and a string's length fits its prefix. */
  predicate Readable(i: Item) { ValidType(i.t) && Fits(i.t, if i.Integer? then i.v else |i.text|) }

  lemma TextReadBack(host: Endian, endian: Endian, b: seq<Byte>, pos: nat, t: Type, text: seq<Byte>)
    requires ValidType(t) && Fits(t, |text|) && At(b, pos, ItemBytes(endian, Text(t, text)))
    ensures ReadText(host, endian, b, pos, t) == (Some(text), pos + |ItemBytes(endian, Text(t, text))|)
  {
    AtSplit(b, pos, IntegerBytes(endian, t, |text|), text);
    IntegerReadBack(host, endian, b, pos, t, |text|);
    ValueOfBits(t, |text|);
    hide ReadInt, Fits, Bits, Value;
  }

  lemma ItemReadBack(host: Endian, endian: Endian, b: seq<Byte>, pos: nat, i: Item)
    requires Readable(i) && At(b, pos, ItemBytes(endian, i))
    ensures ReadItem(host, endian, b, pos, i) == (Some(i), pos + |ItemBytes(endian, i)|)
  {
    hide At, Fits, ReadInt, ReadText, Bits, Value;
    match i {
      case Integer(t, v) => IntegerReadBack(host, endian, b, pos, t, v); ValueOfBits(t, v);
      case Text(t, text) => TextReadBack(host, endian, b, pos, t, text);
    }
  }

  lemma {:induction false} ReadBackFrom(host: Endian, endian: Endian, b: seq<Byte>, pos: nat, items: seq<Item>)
    requires forall i | i in items :: Readable(i)
    requires At(b, pos, Encode(endian, items)) && pos + |Encode(endian, items)| == |b|
    ensures ReadsBack(host, endian, b, pos, items)
    decreases |items|
  {
    hide ReadItem, At, ItemBytes, Fits;
    if items != [] {
      AtSplit(b, pos, ItemBytes(endian, items[0]), Encode(endian, items[1..]));
      ItemReadBack(host, endian, b, pos, items[0]);
      ReadBackFrom(host, endian, b, pos + |ItemBytes(endian, items[0])|, items[1..]);
    }
  }

  /** Whatever list of items is written is read back, on hosts of any byte order, if every length fits its prefix. */
  lemma WriteThenRead(host: Endian, endian: Endian, items: seq<Item>)
    requires forall i | i in items :: Readable(i)
    ensures ReadsBack(host, endian, Encode(endian, items), 0, items)
  {
    var b := Encode(endian, items);
    assert b[0..0 + |b|] == b;
    ReadBackFrom(host, endian, b, 0, items);
  }

  /** For one string the condition is exact: a length that does not fit its prefix is not read back. */
  lemma TextReadBackIff(host: Endian, endian: Endian, t: Type, text: seq<Byte>)
    requires ValidType(t)
    ensures ReadText(host, endian, ItemBytes(endian, Text(t, text)), 0, t).0 == Some(text) <==> Fits(t, |text|)
  {
    var b, prefix := ItemBytes(endian, Text(t, text)), IntegerBytes(endian, t, |text|);
    assert b[0..0 + |b|] == b;
    if Fits(t, |text|) {
      TextReadBack(host, endian, b, 0, t, text);
    } else {
      AtSplit(b, 0, prefix, text);
      IntegerReadBack(host, endian, b, 0, t, |text|);
      Wraps(t, |text|);
      hide ReadInt, Fits, Bits, Value, Pow256;
    }
  }

  lemma Wraps(t: Type, n: nat)
    requires !Fits(t, n)
    ensures Value(t, Bits(t, n)) != n
  {
  }
}
