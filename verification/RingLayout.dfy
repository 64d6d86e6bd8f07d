/**
 The byte layout of the shared-memory circular queue: where blocks sit between
 Head and Tail, and what the bytes between them mean.

 A block is a little-endian 32-bit length (counting its own four bytes) followed
 by the payload. The data area runs from HEADER to shmSize. When Tail is below
 Head the queue is wrapped: blocks run from Head up to a pad (a marker word, or
 fewer than four remaining bytes), and continue at HEADER up to Tail.
 */
module RingLayout {
  import opened Wrappers
  import opened Bytes

  const HEADER := 80
  const BLOCK := 4
  const MARKER := 0xFFFF_FFFF
  const TWO_POW_32 := 0x1_0000_0000
  const MAX_QUEUE := 2_000_000_000

  type Payload = seq<Byte>

  datatype Config = Config(shmSize: nat, elemMax: nat)

  /** What Create's assertion on its two size arguments leaves in the segment. */
  predicate ValidConfig(c: Config) {
    BLOCK <= c.elemMax && HEADER + c.elemMax <= c.shmSize < HEADER + MAX_QUEUE
  }

  predicate Pushable(c: Config, data: Payload) {
    0 < |data| && |data| + BLOCK <= c.elemMax
  }

  function StoreWord(mem: seq<Byte>, at: nat, w: nat): (r: seq<Byte>)
    requires at + BLOCK <= |mem| && w <= MARKER
    ensures |r| == |mem| && LittleWord(r, at) == w
    ensures forall i | 0 <= i < |mem| && !(at <= i < at + BLOCK) :: r[i] == mem[i]
  {
    mem[..at] + LittleBytes(w) + mem[at + BLOCK..]
  }

  /** Positions a consistent segment can hold. */
  predicate InArea(c: Config, mem: seq<Byte>, head: nat, tail: nat) {
    |mem| == c.shmSize && HEADER <= head <= c.shmSize && HEADER <= tail <= c.shmSize
  }

  predicate AtPad(c: Config, mem: seq<Byte>, at: nat)
    requires |mem| == c.shmSize && at <= c.shmSize
  {
    c.shmSize - at < BLOCK || LittleWord(mem, at) == MARKER
  }

  /** A well-formed block starts at `at` and ends no later than `limit`. */
  predicate BlockAt(c: Config, mem: seq<Byte>, at: nat, limit: nat)
    requires |mem| == c.shmSize && limit <= c.shmSize
  {
    at + BLOCK <= limit && BLOCK < LittleWord(mem, at) <= c.elemMax && at + LittleWord(mem, at) <= limit
  }

  function Limit(c: Config, head: nat, tail: nat): nat {
    if head <= tail then tail else c.shmSize
  }

  /** A block, not a pad, is the next thing at Head. */
  predicate NextIsBlock(c: Config, mem: seq<Byte>, head: nat, tail: nat)
    requires InArea(c, mem, head, tail)
  {
    head != tail && BlockAt(c, mem, head, Limit(c, head, tail))
  }

  /** The payloads stored from Head to Tail, across the wrap; None for bytes that are no queue. */
  function Decode(c: Config, mem: seq<Byte>, head: nat, tail: nat): (r: Option<seq<Payload>>)
    requires InArea(c, mem, head, tail)
    decreases if head <= tail then tail - head else c.shmSize - head + tail + 1
  {
    if head == tail then Some([])
    else if tail < head && AtPad(c, mem, head) then Decode(c, mem, HEADER, tail)
    else if !BlockAt(c, mem, head, Limit(c, head, tail)) then None
    else
      var next := head + LittleWord(mem, head);
      match Decode(c, mem, next, tail)
      case None => None
      case Some(rest) => Some([mem[head + BLOCK..next]] + rest)
  }

  /** Bytes the decoding of head..tail may look at. */
  predicate Occupied(head: nat, tail: nat, i: int) {
    if head <= tail then head <= i < tail else i < tail || head <= i
  }

  predicate SameOccupied(c: Config, mem: seq<Byte>, mem': seq<Byte>, head: nat, tail: nat)
    requires InArea(c, mem, head, tail) && |mem'| == |mem|
  {
    forall i | 0 <= i < c.shmSize && Occupied(head, tail, i) :: mem'[i] == mem[i]
  }

  /** Writes outside the occupied bytes do not change what the queue holds. */
  lemma {:induction false} DecodeFrame(c: Config, mem: seq<Byte>, mem': seq<Byte>, head: nat, tail: nat)
    requires InArea(c, mem, head, tail) && |mem'| == |mem|
    requires SameOccupied(c, mem, mem', head, tail)
    requires Decode(c, mem, head, tail).Some?
    ensures Decode(c, mem', head, tail) == Decode(c, mem, head, tail)
    decreases if head <= tail then tail - head else c.shmSize - head + tail + 1
  {
    hide LittleWord;
    if head != tail && head + BLOCK <= c.shmSize && (head < tail ==> head + BLOCK <= tail) {
      SameWord(mem, mem', head);
    }
    if head == tail {
    } else if tail < head && AtPad(c, mem, head) {
      DecodeFrame(c, mem, mem', HEADER, tail);
    } else {
      var next := head + LittleWord(mem, head);
      DecodeFrame(c, mem, mem', next, tail);
      assert mem'[head + BLOCK..next] == mem[head + BLOCK..next];
    }
  }

  /** Moving Tail over a complete block appends its payload. */
  lemma {:induction false} DecodeAppend(c: Config, mem: seq<Byte>, head: nat, tail: nat, tail': nat)
    requires InArea(c, mem, head, tail) && tail' <= c.shmSize
    requires BlockAt(c, mem, tail, tail') && tail' == tail + LittleWord(mem, tail)
    requires head <= tail || tail' < head
    requires Decode(c, mem, head, tail).Some?
    ensures Decode(c, mem, head, tail')
         == Some(Decode(c, mem, head, tail).value + [mem[tail + BLOCK..tail']])
    decreases if head <= tail then tail - head else c.shmSize - head + tail + 1
  {
    if head == tail {
      var last := mem[tail + BLOCK..tail'];
      assert Decode(c, mem, tail', tail') == Some([]);
      assert [last] + [] == [] + [last];
    } else if tail < head && AtPad(c, mem, head) {
      DecodeAppend(c, mem, HEADER, tail, tail');
    } else {
      var next := head + LittleWord(mem, head);
      DecodeAppend(c, mem, next, tail, tail');
      var rest := Decode(c, mem, next, tail).value;
      var first := mem[head + BLOCK..next];
      assert ([first] + rest) + [mem[tail + BLOCK..tail']] == [first] + (rest + [mem[tail + BLOCK..tail']]);
    }
  }

  /** Writing a block into free bytes at Tail and moving Tail over it appends its payload. */
  lemma DecodePush(c: Config, mem: seq<Byte>, mem': seq<Byte>, head: nat, tail: nat, data: Payload)
    requires InArea(c, mem, head, tail) && |mem'| == |mem| && Pushable(c, data)
    requires tail + BLOCK + |data| <= c.shmSize && (head <= tail || tail + BLOCK + |data| < head)
    requires forall i | 0 <= i < |mem| && !(tail <= i < tail + BLOCK + |data|) :: mem'[i] == mem[i]
    requires LittleWord(mem', tail) == |data| + BLOCK && mem'[tail + BLOCK..tail + BLOCK + |data|] == data
    requires Decode(c, mem, head, tail).Some?
    ensures Decode(c, mem', head, tail + BLOCK + |data|) == Some(Decode(c, mem, head, tail).value + [data])
  {
    DecodeFrame(c, mem, mem', head, tail);
    DecodeAppend(c, mem', head, tail, tail + BLOCK + |data|);
  }

  /** Wrapping Tail behind a pad keeps the contents. */
  lemma {:induction false} DecodeWrap(c: Config, mem: seq<Byte>, head: nat, tail: nat)
    requires InArea(c, mem, head, tail) && HEADER < head <= tail
    requires ValidConfig(c) && AtPad(c, mem, tail)
    requires Decode(c, mem, head, tail).Some?
    ensures Decode(c, mem, head, HEADER) == Decode(c, mem, head, tail)
    decreases tail - head
  {
    if head < tail {
      DecodeWrap(c, mem, head + LittleWord(mem, head), tail);
    }
  }
}
