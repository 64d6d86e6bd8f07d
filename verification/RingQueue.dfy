/**
 ShmCircularBufQueue with both ends in one thread: the methods as written, over a
 byte array, proved against the queue of payloads the bytes decode to.
 */
module RingQueue {
  import opened Wrappers
  import opened Bytes
  import opened RingLayout

  const TRIES := 10

  /** pushWait's test for a block of n bytes at `tail`. */
  predicate HasRoom(c: Config, head: nat, tail: nat, n: nat) {
    head <= tail || tail + n + c.elemMax <= head
  }

  predicate InBlock(tail: nat, n: nat, i: nat) { tail <= i < tail + n }

  /** Below any byte of the largest block that may have been handed out just before Head. */
  predicate BelowLent(c: Config, head: nat, i: nat) { i + c.elemMax < head }

  /** There is room exactly when Head is not ahead, or every byte of the block is below what may be lent. */
  lemma RoomIff(c: Config, head: nat, tail: nat, n: nat)
    requires n > 0
    ensures HasRoom(c, head, tail, n) <==> head <= tail || forall i | InBlock(tail, n, i) :: BelowLent(c, head, i)
  {
    assert InBlock(tail, n, tail + n - 1);
  }

  /** When Push of a block of n bytes succeeds if the consumer does not move. */
  predicate Accepts(c: Config, head: nat, tail: nat, n: nat) {
    if tail + n <= c.shmSize then HasRoom(c, head, tail, n)
    else HEADER < head <= tail && HasRoom(c, head, HEADER, n)
  }

  /** Where alignTail leaves Tail before a block of n bytes, whether or not it then finds room. */
  function AlignedTail(c: Config, head: nat, tail: nat, n: nat): nat {
    if tail + n <= c.shmSize || !(HEADER < head <= tail) then tail else HEADER
  }

  lemma NothingQueued(c: Config, mem: seq<Byte>, at: nat)
    requires InArea(c, mem, at, at)
    ensures Decode(c, mem, at, at) == Some([])
  {
  }

  /** The block at Head is the first payload, and the rest decodes from behind it. */
  lemma FirstQueued(c: Config, mem: seq<Byte>, head: nat, tail: nat)
    requires ValidConfig(c) && InArea(c, mem, head, tail)
    requires Decode(c, mem, head, tail).Some? && NextIsBlock(c, mem, head, tail)
    ensures head + BLOCK <= |mem|
    ensures var next := head + LittleWord(mem, head);
      && LittleWord(mem, head) <= c.elemMax && head + BLOCK < next <= |mem|
      && InArea(c, mem, next, tail) && Decode(c, mem, next, tail).Some?
      && Decode(c, mem, head, tail).value == [mem[head + BLOCK..next]] + Decode(c, mem, next, tail).value
  {
  }

  class ShmCircularBufQueue {
    const c: Config
    const mem: array<Byte>
    var head: nat
    var tail: nat

    ghost predicate Valid()
      reads this, mem
    {
      && ValidConfig(c)
      && InArea(c, mem[..], head, tail)
      && Decode(c, mem[..], head, tail).Some?
    }

    ghost function Contents(): seq<Payload>
      requires Valid()
      reads this, mem
    {
      Decode(c, mem[..], head, tail).value
    }

    /** The bytes before Head that a block just popped may lie in are as they were. */
    ghost predicate LentAreSame(was: seq<Byte>)
      reads this, mem
    {
      |was| == mem.Length && forall i | 0 <= i < mem.Length && head - c.elemMax <= i < head :: mem[i] == was[i]
    }

    /** Create: the segment is the queue plus its header. */
    constructor (cqSize: nat, dataMaxSz: nat)
      requires dataMaxSz + BLOCK <= cqSize < MAX_QUEUE
      ensures Valid() && Contents() == [] && fresh(mem)
      ensures c == Config(cqSize + HEADER, dataMaxSz + BLOCK)
    {
      c := Config(cqSize + HEADER, dataMaxSz + BLOCK);
      mem := new Byte[cqSize + HEADER](_ => 0);
      head, tail := HEADER, HEADER;
    }

    method Empty() returns (r: bool)
      ensures r <==> head == tail
    {
      r := head == tail;
    }

    method PushWait(len: nat) returns (ok: bool)
      requires Valid() && tail + len <= c.shmSize
      ensures ok <==> HasRoom(c, head, tail, len)
    {
      var t := tail;
      for cnt := 0 to TRIES
        invariant cnt > 0 ==> !HasRoom(c, head, tail, len)
      {
        var h := head;
        if h <= t || h >= (t + len + c.elemMax) % TWO_POW_32 {
          return true;
        }
      }
      return false;
    }

    method TailAlignWait() returns (ok: bool)
      ensures ok <==> HEADER < head <= tail
    {
      var t := tail;
      for cnt := 0 to TRIES
        invariant cnt > 0 ==> !(HEADER < head <= tail)
      {
        var h := head;
        if h > HEADER && h <= t {
          return true;
        }
      }
      return false;
    }

    /** Skips the pad, if one is next; the contents do not change. */
    method AlignHead()
      requires Valid() && head != tail
      modifies this`head
      ensures Valid() && Contents() == old(Contents())
      ensures head == tail == HEADER || NextIsBlock(c, mem[..], head, tail)
      ensures old(Contents()) == [] ==> old(tail) == HEADER
    {
      if head < tail {
        return;
      }
      if c.shmSize - head < BLOCK || LoadWord(head) == MARKER {
        head := HEADER;
      }
    }

    function LoadWord(at: nat): nat
      requires at + BLOCK <= mem.Length
      reads mem
    {
      LittleWord(mem[..], at)
    }

    method StoreLen(at: nat, w: nat)
      requires at + BLOCK <= mem.Length && w <= MARKER
      modifies mem
      ensures mem[..] == StoreWord(old(mem[..]), at, w)
    {
      var b := LittleBytes(w);
      mem[at], mem[at + 1], mem[at + 2], mem[at + 3] := b[0], b[1], b[2], b[3];
    }

    method AlignTail(len: nat) returns (ok: bool)
      requires Valid() && BLOCK <= len <= c.elemMax
      modifies this`tail, mem
      ensures Valid() && Contents() == old(Contents())
      ensures ok <==> Accepts(c, head, old(tail), len)
      ensures tail == AlignedTail(c, head, old(tail), len)
      ensures ok ==> tail + len <= c.shmSize && HasRoom(c, head, tail, len)
      ensures LentAreSame(old(mem[..]))
    {
      var surplus := c.shmSize - tail;
      if surplus >= len {
        ok := PushWait(len);
        return;
      }
      ok := TailAlignWait();
      if ok {
        if surplus >= BLOCK {
          ghost var was := mem[..];
          StoreLen(tail, MARKER);
          DecodeFrame(c, was, mem[..], head, tail);
        }
        DecodeWrap(c, mem[..], head, tail);
        tail := HEADER;
        ok := PushWait(len);
      }
    }

    /** Pop hands out the oldest payload, or length 0 exactly when nothing is queued. */
    method Pop() returns (data: nat, len: nat)
      requires Valid()
      modifies this`head
      ensures Valid()
      ensures len == 0 <==> old(Contents()) == []
      ensures len == 0 ==> Contents() == []
      ensures len == 0 && old(head) != tail ==> head == tail == HEADER
      ensures len > 0 ==> data + len <= mem.Length
                          && old(Contents()) == [mem[data..data + len]] + Contents()
      ensures len > 0 ==> data + len == head && BLOCK <= data && len + BLOCK <= c.elemMax
                          && LittleWord(mem[..], data - BLOCK) == len + BLOCK
    {
      hide Decode, LittleWord, BlockAt;
      data, len := 0, 0;
      if head == tail { NothingQueued(c, mem[..], head); }
      var e := Empty();
      if e {
        return;
      }
      AlignHead();
      e := Empty();
      if e {
        NothingQueued(c, mem[..], head);
        return;
      }
      FirstQueued(c, mem[..], head, tail);
      var curMB := head;
      data := curMB + BLOCK;
      head := head + LoadWord(curMB);
      len := LoadWord(curMB) - BLOCK;
    }

    /** Push appends the payload, or changes nothing in the queue. */
    method Push(data: Payload) returns (ok: bool)
      requires Valid() && Pushable(c, data)
      modifies this`tail, mem
      ensures Valid()
      ensures ok <==> Accepts(c, head, old(tail), |data| + BLOCK)
      ensures Contents() == if ok then old(Contents()) + [data] else old(Contents())
      ensures tail == AlignedTail(c, head, old(tail), |data| + BLOCK) + if ok then |data| + BLOCK else 0
      ensures LentAreSame(old(mem[..]))
    {
      hide Decode, LittleWord;
      var elemLen := |data| + BLOCK;
      ok := AlignTail(elemLen);
      if ok {
        ghost var was := mem[..];
        WriteBlock(data);
        DecodePush(c, was, mem[..], head, tail, data);
        tail := tail + elemLen;
      }
    }

    method WriteBlock(data: Payload)
      requires Pushable(c, data) && mem.Length == c.shmSize && ValidConfig(c)
      requires tail + |data| + BLOCK <= mem.Length
      modifies mem
      ensures LittleWord(mem[..], tail) == |data| + BLOCK
      ensures mem[tail + BLOCK..tail + BLOCK + |data|] == data
      ensures forall i | 0 <= i < mem.Length && !(tail <= i < tail + BLOCK + |data|) :: mem[i] == old(mem[i])
    {
      hide LittleWord;
      StoreLen(tail, |data| + BLOCK);
      ghost var header := mem[..];
      CopyIn(tail + BLOCK, data);
      SameWord(header, mem[..], tail);
    }

    /** memcpy into the segment. */
    method CopyIn(at: nat, data: Payload)
      requires at + |data| <= mem.Length
      modifies mem
      ensures mem[at..at + |data|] == data
      ensures forall i | 0 <= i < mem.Length && !(at <= i < at + |data|) :: mem[i] == old(mem[i])
    {
      for i := 0 to |data|
        invariant forall j | 0 <= j < i :: mem[at + j] == data[j]
        invariant forall j | 0 <= j < mem.Length && !(at <= j < at + i) :: mem[j] == old(mem[j])
      {
        mem[at + i] := data[i];
      }
    }
  }

  /**
   What Pop handed out, length word included, is still there after a Push, whether or not
   that succeeds.
   */
  method PopThenPush(q: ShmCircularBufQueue, data: Payload) returns (at: nat, len: nat, ok: bool)
    requires q.Valid() && q.Contents() != [] && Pushable(q.c, data)
    modifies q, q.mem
    ensures q.Valid() && BLOCK <= at && at + len <= q.mem.Length
    ensures q.mem[at..at + len] == old(q.Contents())[0] && LittleWord(q.mem[..], at - BLOCK) == len + BLOCK
    ensures q.Contents() == old(q.Contents())[1..] + if ok then [data] else []
  {
    at, len := q.Pop();
    hide LittleWord;
    ghost var was, lent := q.mem[..], q.mem[at..at + len];
    ok := q.Push(data);
    assert q.mem[at..at + len] == lent;
    SameWord(was, q.mem[..], at - BLOCK);
  }

  /**
   A drained queue is never wedged: a permitted payload goes in at once, or on the
   retry after one Pop, which returns 0.
   */
  method PushWhenDrained(q: ShmCircularBufQueue, data: Payload) returns (retried: bool, popped: nat)
    requires q.Valid() && q.Contents() == [] && Pushable(q.c, data)
    modifies q, q.mem
    ensures q.Valid() && q.Contents() == [data]
    ensures retried <==> !Accepts(q.c, old(q.head), old(q.tail), |data| + BLOCK)
    ensures popped == 0
  {
    var ok := q.Push(data);
    retried, popped := !ok, 0;
    if !ok {
      var at;
      at, popped := q.Pop();
      ok := q.Push(data);
      assert ok;
    }
  }
}
