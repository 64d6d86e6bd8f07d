/** BinaryWriter, BinaryReader and BinaryBuffer over the wire format. */
module BinaryStreams {
  import opened Wrappers
  import opened Bytes
  import opened BinaryCodec

  class BinaryWriter {
    const host: Endian
    const endian: Endian
    var buf: seq<Byte>

    constructor (host: Endian, endian: Endian, stream: seq<Byte>)
      ensures this.host == host && this.endian == endian && buf == stream
    {
      this.host, this.endian, buf := host, endian, stream;
    }

    method WriteInteger(t: Type, v: int)
      requires ValidType(t)
      modifies this`buf
      ensures buf == old(buf) + IntegerBytes(endian, t, v)
    {
      WireOnEveryHost(host, endian, t.width, Bits(t, v));
      buf := buf + Store(host, t.width, Convert(host, endian, t.width, Bits(t, v)));
    }

    method WriteString(text: seq<Byte>)
      modifies this`buf
      ensures buf == old(buf) + text
    {
      buf := buf + text;
    }

    method WriteSizedString(t: Type, text: seq<Byte>)
      requires ValidType(t)
      modifies this`buf
      ensures buf == old(buf) + ItemBytes(endian, Text(t, text))
    {
      WriteInteger(t, |text|);
      WriteString(text);
    }
  }

  class BinaryReader {
    const host: Endian
    const endian: Endian
    const buf: seq<Byte>
    var pos: nat

    ghost predicate Valid() reads this { pos <= |buf| }

    constructor (host: Endian, endian: Endian, stream: seq<Byte>)
      ensures this.host == host && this.endian == endian && buf == stream && pos == 0 && Valid()
    {
      this.host, this.endian, buf, pos := host, endian, stream, 0;
    }

    method ReadInteger(t: Type) returns (r: Option<int>)
      requires ValidType(t) && Valid()
      modifies this`pos
      ensures Valid() && r == ReadInt(host, endian, buf, old(pos), t)
      ensures pos == if r.Some? then old(pos) + t.width else old(pos)
    {
      var finalPos := pos + t.width;
      if finalPos <= |buf| {
        var u := Load(host, buf[pos..finalPos]);
        r := Some(Value(t, Convert(host, endian, t.width, u)));
        pos := finalPos;
        return;
      }
      r := None;
    }

    /** The rest of the stream. */
    method ReadString() returns (text: seq<Byte>)
      requires Valid()
      modifies this`pos
      ensures Valid() && text == buf[old(pos)..] && pos == |buf|
    {
      text := buf[pos..];
      pos := |buf|;
    }

    method ReadSizedString(t: Type) returns (r: Option<seq<Byte>>)
      requires ValidType(t) && Valid()
      modifies this`pos
      ensures Valid() && (r, pos) == ReadText(host, endian, buf, old(pos), t)
      ensures var n, after := ReadInt(host, endian, buf, old(pos), t), old(pos) + t.width;
        if n.Some? && 0 <= n.value <= |buf| - after
        then r == Some(buf[after..pos]) && pos == after + n.value
        else r == None && pos == if n.Some? then after else old(pos)
    {
      var len := ReadInteger(t);
      if len.Some? && len.value >= 0 {
        var finalPos := pos + len.value;
        if finalPos <= |buf| {
          r := Some(buf[pos..finalPos]);
          pos := finalPos;
          return;
        }
      }
      r := None;
    }
  }

  // -------------------------------------------------------- writer and reader together

  lemma {:induction false} EncodeSnoc(endian: Endian, items: seq<Item>, i: Item)
    ensures Encode(endian, items + [i]) == Encode(endian, items) + ItemBytes(endian, i)
    decreases |items|
  {
    hide ItemBytes;
    if items == [] {
      assert [i][1..] == [];
    } else {
      assert (items + [i])[1..] == items[1..] + [i];
      EncodeSnoc(endian, items[1..], i);
    }
  }

  /** Writing items one after another. */
  method WriteAll(w: BinaryWriter, items: seq<Item>)
    requires forall i | i in items :: ValidType(i.t)
    modifies w`buf
    ensures w.buf == old(w.buf) + Encode(w.endian, items)
  {
    hide Encode, ItemBytes, IntegerBytes;
    assert Encode(w.endian, items[..0]) == [] by { EncodeNone(w.endian); }
    for k := 0 to |items|
      invariant w.buf == old(w.buf) + Encode(w.endian, items[..k])
    {
      var i := items[k];
      assert items[..k + 1] == items[..k] + [i];
      EncodeSnoc(w.endian, items[..k], i);
      ItemBytesAre(w.endian, i);
      match i
      case Integer(t, v) => w.WriteInteger(t, v);
      case Text(t, text) => w.WriteSizedString(t, text);
    }
    assert items[..|items|] == items;
  }

  lemma EncodeNone(endian: Endian)
    ensures Encode(endian, []) == []
  {
  }

  lemma ItemBytesAre(endian: Endian, i: Item)
    ensures i.Integer? ==> ItemBytes(endian, i) == IntegerBytes(endian, i.t, i.v)
  {
  }

  /** Reading items of the kinds and types of `shapes`, until one cannot be read. */
  method ReadAll(r: BinaryReader, shapes: seq<Item>) returns (items: seq<Item>)
    requires r.Valid() && forall i | i in shapes :: ValidType(i.t)
    modifies r`pos
    ensures r.Valid()
    ensures ReadsBack(r.host, r.endian, r.buf, old(r.pos), shapes) ==> items == shapes && r.pos == |r.buf|
  {
    hide ReadInt, ReadText;
    items := [];
    assert shapes[0..] == shapes;
    for k := 0 to |shapes|
      invariant r.Valid()
      invariant ReadsBack(r.host, r.endian, r.buf, old(r.pos), shapes) ==>
                  items == shapes[..k] && ReadsBack(r.host, r.endian, r.buf, r.pos, shapes[k..])
    {
      var i := shapes[k];
      assert shapes[k..][1..] == shapes[k + 1..] && shapes[k..][0] == i && shapes[..k + 1] == shapes[..k] + [i];
      match i
      case Integer(t, _) =>
        var v := r.ReadInteger(t);
        if v.None? { return; }
        items := items + [Integer(t, v.value)];
      case Text(t, _) =>
        var text := r.ReadSizedString(t);
        if text.None? { return; }
        items := items + [Text(t, text.value)];
    }
    assert shapes[|shapes|..] == [] && shapes[..|shapes|] == shapes;
  }

  /**
   What BinaryWriter writes on one host BinaryReader of the same byte order reads on any
   host: the same items, to the last byte.
   */
  method WriteAndRead(writeHost: Endian, readHost: Endian, endian: Endian, items: seq<Item>) returns (got: seq<Item>)
    requires forall i | i in items :: Readable(i)
    ensures got == items
  {
    hide Encode, ReadsBack, Fits;
    var w := new BinaryWriter(writeHost, endian, []);
    WriteAll(w, items);
    var r := new BinaryReader(readHost, endian, w.buf);
    assert w.buf == Encode(endian, items);
    WriteThenRead(readHost, endian, items);
    got := ReadAll(r, items);
  }

  const MAX := 0xFFFF_FFFF

  /** grow's new allocation. */
  function GrownSize(current: nat, appending: nat): nat { ((current + appending) / 1024 + 1) * 1024 }

  /** The next multiple of 1024 above what is needed. */
  lemma GrownSizeIs(current: nat, appending: nat)
    ensures GrownSize(current, appending) % 1024 == 0
    ensures current + appending < GrownSize(current, appending) <= current + appending + 1024
  {
  }

  /** The pointers head_ and tail_ are offsets into the allocation. */
  class BinaryBuffer {
    const host: Endian
    const endian: Endian
    const prependable: nat
    var data: array<Byte>
    var head: nat
    var tail: nat
    var headCap: nat
    var tailCap: nat

    ghost predicate Valid()
      reads this
    {
      && head == headCap && head <= tail && (tail - head) + headCap + tailCap == data.Length
      && headCap <= prependable <= tail && prependable <= 200 && data.Length <= MAX
    }

    ghost function Contents(): seq<Byte>
      requires Valid()
      reads this, data
    {
      data[head..tail]
    }

    /** Room is left for n more bytes at the end, or growing for them stays within 32 bits. */
    ghost predicate CanAppend(n: nat)
      reads this
    {
      n <= tailCap || GrownSize(data.Length, n) <= MAX
    }

    /** The allocation that holds n more bytes at the end. */
    ghost function LengthFor(n: nat): nat
      reads this
    {
      if n <= tailCap then data.Length else GrownSize(data.Length, n)
    }

    constructor (host: Endian, endian: Endian, reserved: nat, prependableBytes: nat)
      requires reserved > 0 && prependableBytes <= 200 && prependableBytes + reserved <= MAX
      ensures Valid() && fresh(data) && Contents() == [] && headCap == prependableBytes && tailCap == reserved
      ensures this.host == host && this.endian == endian && prependable == prependableBytes
    {
      this.host, this.endian, prependable := host, endian, prependableBytes;
      data := new Byte[prependableBytes + reserved](_ => 0);
      head, tail, headCap, tailCap := prependableBytes, prependableBytes, prependableBytes, reserved;
    }

    method Size() returns (n: nat)
      requires Valid()
      ensures n == |Contents()|
    {
      n := tail - head;
    }

    method Clear()
      requires Valid()
      modifies this`head, this`tail, this`headCap, this`tailCap
      ensures Valid() && Contents() == [] && headCap == prependable
    {
      var size := tail - head;
      var prepended := prependable - headCap;
      head := head + prepended;
      tail := head;
      headCap := prependable;
      tailCap := size - prepended + tailCap;
    }

    method Grow(n: nat)
      requires Valid() && CanAppend(n)
      modifies this`data, this`head, this`tail, this`tailCap
      ensures Valid() && Contents() == old(Contents()) && headCap == old(headCap)
      ensures n <= tailCap && (data == old(data) || fresh(data))
      ensures old(tailCap) >= n ==> data == old(data)
      ensures data.Length == old(LengthFor(n))
    {
      if tailCap >= n { return; }
      var size := tail - head;
      var current := headCap + size + tailCap;
      var newSize := GrownSize(current, n);
      var buf := new Byte[newSize](_ => 0);
      CopyRange(data, head, buf, headCap, size);
      data := buf;
      head := headCap;
      tail := head + size;
      tailCap := tailCap + (newSize - current);
    }

    method AppendString(text: seq<Byte>)
      requires Valid() && CanAppend(|text|)
      modifies this, data
      ensures Valid() && Contents() == old(Contents()) + text && headCap == old(headCap)
      ensures data == old(data) || fresh(data)
      ensures data.Length == old(LengthFor(|text|))
    {
      hide GrownSize;
      Grow(|text|);
      assert Contents() == old(Contents());
      CopyBehind(text, data, head, tail);
      tail := tail + |text|;
      tailCap := tailCap - |text|;
    }

    method PrependString(text: seq<Byte>)
      requires Valid() && |text| <= headCap
      modifies this`head, this`headCap, data
      ensures Valid() && Contents() == text + old(Contents()) && headCap == old(headCap) - |text|
    {
      head := head - |text|;
      CopyIn(text, data, head);
      headCap := headCap - |text|;
    }

    method AppendInteger(t: Type, v: int)
      requires Valid() && ValidType(t) && CanAppend(t.width)
      modifies this, data
      ensures Valid() && Contents() == old(Contents()) + IntegerBytes(endian, t, v) && headCap == old(headCap)
      ensures data == old(data) || fresh(data)
      ensures data.Length == old(LengthFor(t.width))
    {
      WireOnEveryHost(host, endian, t.width, Bits(t, v));
      AppendString(Store(host, t.width, Convert(host, endian, t.width, Bits(t, v))));
    }

    method AppendSizedString(t: Type, text: seq<Byte>)
      requires Valid() && ValidType(t) && CanAppend(t.width)
      requires || |text| + t.width <= tailCap + LengthFor(t.width) - data.Length
               || GrownSize(LengthFor(t.width), |text|) <= MAX
      modifies this, data
      ensures Valid() && Contents() == old(Contents()) + ItemBytes(endian, Text(t, text)) && headCap == old(headCap)
      ensures data == old(data) || fresh(data)
    {
      hide GrownSize, IntegerBytes;
      ghost var before, prefix := Contents(), IntegerBytes(endian, t, |text|);
      assert before + prefix + text == before + ItemBytes(endian, Text(t, text));
      AppendInteger(t, |text|);
      assert |Contents()| == |before| + t.width;
      AppendString(text);
    }

    method PrependInteger(t: Type, v: int)
      requires Valid() && ValidType(t) && t.width <= headCap
      modifies this`head, this`headCap, data
      ensures Valid() && Contents() == IntegerBytes(endian, t, v) + old(Contents()) && headCap == old(headCap) - t.width
    {
      WireOnEveryHost(host, endian, t.width, Bits(t, v));
      PrependString(Store(host, t.width, Convert(host, endian, t.width, Bits(t, v))));
    }

    method PrependSizedString(t: Type, text: seq<Byte>)
      requires Valid() && ValidType(t) && |text| + t.width <= headCap
      modifies this`head, this`headCap, data
      ensures Valid() && Contents() == ItemBytes(endian, Text(t, text)) + old(Contents())
      ensures headCap == old(headCap) - |text| - t.width
    {
      PrependString(text);
      PrependInteger(t, |text|);
    }
  }

  /** memcpy behind what is stored from head to tail. */
  method CopyBehind(text: seq<Byte>, to: array<Byte>, head: nat, tail: nat)
    requires head <= tail && tail + |text| <= to.Length
    modifies to
    ensures to[head..tail + |text|] == old(to[head..tail]) + text
  {
    ghost var kept := to[head..tail];
    CopyIn(text, to, tail);
    assert to[head..tail] == kept;
    assert to[head..tail + |text|] == to[head..tail] + to[tail..tail + |text|];
  }

  /** memcpy of a value. */
  method CopyIn(text: seq<Byte>, to: array<Byte>, at: nat)
    requires at + |text| <= to.Length
    modifies to
    ensures to[at..at + |text|] == text
    ensures forall i | 0 <= i < to.Length && !(at <= i < at + |text|) :: to[i] == old(to[i])
  {
    forall i | 0 <= i < |text| { to[at + i] := text[i]; }
  }

  /** memcpy between allocations. */
  method CopyRange(from: array<Byte>, start: nat, to: array<Byte>, at: nat, n: nat)
    requires from != to && start + n <= from.Length && at + n <= to.Length
    modifies to
    ensures to[at..at + n] == from[start..start + n]
  {
    forall i | 0 <= i < n { to[at + i] := from[start + i]; }
  }
}
