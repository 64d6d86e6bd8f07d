/**
 The single-producer/single-consumer ring as a transition system. Every shared
 load or store of Push and Pop is one step; a run is any interleaving of the two
 sides, given as the list of actions taken. Memory is sequentially consistent.
 */
module RingSteps {
  import opened Wrappers
  import opened Bytes
  import opened RingLayout

  const TRIES := 10

  /** Where Push stands: the constructor names the next shared access. */
  datatype Producer =
    | PushIdle
    | AlignLoadTail(data: Payload)
    | WaitLoadTail(data: Payload)
    | WaitPollHead(data: Payload, tail: nat, cnt: nat)
    | WrapLoadTail(data: Payload, surplus: nat)
    | WrapPollHead(data: Payload, surplus: nat, tail: nat, cnt: nat)
    | PadLoadTail(data: Payload)
    | PadStore(data: Payload, at: nat)
    | WrapStoreTail(data: Payload)
    | BlockLoadTail(data: Payload)
    | BlockStoreLen(data: Payload, at: nat)
    | BlockCopy(data: Payload, at: nat, done: set<nat>)
    | BumpLoadTail(data: Payload)
    | BumpStoreTail(data: Payload, tail: nat)

  /** Where Pop stands. */
  datatype Consumer =
    | PopIdle
    | Empty1LoadHead
    | Empty1LoadTail(head: nat)
    | AlignLoadHead
    | AlignHeadLoadTail(head: nat)
    | PadLoadHead(head: nat)
    | PadLoadLen(at: nat)
    | WrapStoreHead
    | Empty2LoadHead
    | Empty2LoadTail(head: nat)
    | BlockLoadHead
    | AssertLoadLen(at: nat)
    | AdvanceLoadLen(at: nat)
    | AdvanceLoadHead(at: nat, len: nat)
    | AdvanceStoreHead(at: nat, len: nat, head: nat)
    | ReturnLoadLen(at: nat)

  /** The pointer and length Pop handed to its caller. */
  datatype Loan = NoLoan | Loan(at: nat, len: nat)

  /**
   The shared segment and the history of the run: the payloads whose Push returned
   true, how many of them Pop took off the ring, the payloads Pop returned, the
   block lent to Pop's caller, whether Tail has wrapped and Head not yet, and
   whether an assertion failed, an access left the segment or a 32-bit sum wrapped.
   */
  datatype Shared = Shared(
    mem: seq<Byte>, head: nat, tail: nat,
    accepted: seq<Payload>, taken: nat, delivered: seq<Payload>,
    loan: Loan, wrapped: bool, fault: bool)

  datatype State = State(m: Shared, prod: Producer, cons: Consumer)

  datatype Action = StartPush(data: Payload) | Produce(i: nat) | StartPop | Consume

  function Init(c: Config): State {
    State(Shared(seq(c.shmSize, _ => 0), HEADER, HEADER, [], 0, [], NoLoan, false, false), PushIdle, PopIdle)
  }

  function Fault(m: Shared): Shared { m.(fault := true) }

  function BlockLen(data: Payload): nat { |data| + BLOCK }

  /** One shared access of Push. `i` picks which byte memcpy stores next. */
  function ProducerStep(c: Config, m: Shared, p: Producer, i: nat): (Shared, Producer) {
    match p
    case PushIdle => (m, p)
    case AlignLoadTail(data) =>
      if c.shmSize < m.tail then (Fault(m), p)
      else
        var surplus := c.shmSize - m.tail;
        if surplus >= BlockLen(data) then (m, WaitLoadTail(data)) else (m, WrapLoadTail(data, surplus))
    case WaitLoadTail(data) => (m, WaitPollHead(data, m.tail, 0))
    case WaitPollHead(data, tail, cnt) =>
      var sum := tail + BlockLen(data) + c.elemMax;
      if m.head <= tail then (m, BlockLoadTail(data))
      else if TWO_POW_32 <= sum then (Fault(m), p)
      else if m.head >= sum then (m, BlockLoadTail(data))
      else if cnt + 1 == TRIES then (m, PushIdle)
      else (m, WaitPollHead(data, tail, cnt + 1))
    case WrapLoadTail(data, surplus) => (m, WrapPollHead(data, surplus, m.tail, 0))
    case WrapPollHead(data, surplus, tail, cnt) =>
      if HEADER < m.head <= tail then
        (m, if surplus >= BLOCK then PadLoadTail(data) else WrapStoreTail(data))
      else if cnt + 1 == TRIES then (m, PushIdle)
      else (m, WrapPollHead(data, surplus, tail, cnt + 1))
    case PadLoadTail(data) => (m, PadStore(data, m.tail))
    case PadStore(data, at) =>
      if !(HEADER <= at && at + BLOCK <= |m.mem|) then (Fault(m), p)
      else (m.(mem := StoreWord(m.mem, at, MARKER)), WrapStoreTail(data))
    case WrapStoreTail(data) => (m.(tail := HEADER, wrapped := true), WaitLoadTail(data))
    case BlockLoadTail(data) => (m, BlockStoreLen(data, m.tail))
    case BlockStoreLen(data, at) =>
      if !(HEADER <= at && at + BLOCK <= |m.mem| && BlockLen(data) <= MARKER) then (Fault(m), p)
      else (m.(mem := StoreWord(m.mem, at, BlockLen(data))), BlockCopy(data, at, {}))
    case BlockCopy(data, at, done) =>
      if forall k | 0 <= k < |data| :: k in done then (m, BumpLoadTail(data))
      else if !(i < |data|) then (m, p)
      else if !(HEADER <= at && at + BLOCK + i < |m.mem|) then (Fault(m), p)
      else (m.(mem := m.mem[at + BLOCK + i := data[i]]), BlockCopy(data, at, done + {i}))
    case BumpLoadTail(data) => (m, BumpStoreTail(data, m.tail))
    case BumpStoreTail(data, tail) =>
      if TWO_POW_32 <= tail + BlockLen(data) then (Fault(m), p)
      else (m.(tail := tail + BlockLen(data), accepted := m.accepted + [data]), PushIdle)
  }

  /** One shared access of Pop. */
  function ConsumerStep(c: Config, m: Shared, k: Consumer): (Shared, Consumer) {
    match k
    case PopIdle => (m, k)
    case Empty1LoadHead => (m, Empty1LoadTail(m.head))
    case Empty1LoadTail(head) => (m, if head == m.tail then PopIdle else AlignLoadHead)
    case AlignLoadHead => (m, AlignHeadLoadTail(m.head))
    case AlignHeadLoadTail(head) => (m, if head < m.tail then Empty2LoadHead else PadLoadHead(head))
    case PadLoadHead(head) =>
      if c.shmSize < head then (Fault(m), k)
      else if c.shmSize - head < BLOCK then (m, WrapStoreHead)
      else (m, PadLoadLen(m.head))
    case PadLoadLen(at) =>
      if !(at + BLOCK <= |m.mem|) then (Fault(m), k)
      else (m, if LittleWord(m.mem, at) == MARKER then WrapStoreHead else Empty2LoadHead)
    case WrapStoreHead => (m.(head := HEADER, wrapped := false), Empty2LoadHead)
    case Empty2LoadHead => (m, Empty2LoadTail(m.head))
    case Empty2LoadTail(head) => (m, if head == m.tail then PopIdle else BlockLoadHead)
    case BlockLoadHead => (m, AssertLoadLen(m.head))
    case AssertLoadLen(at) =>
      if !(at + BLOCK <= |m.mem| && LittleWord(m.mem, at) <= c.elemMax) then (Fault(m), k)
      else (m, AdvanceLoadLen(at))
    case AdvanceLoadLen(at) =>
      if !(at + BLOCK <= |m.mem|) then (Fault(m), k)
      else (m, AdvanceLoadHead(at, LittleWord(m.mem, at)))
    case AdvanceLoadHead(at, len) => (m, AdvanceStoreHead(at, len, m.head))
    case AdvanceStoreHead(at, len, head) =>
      if TWO_POW_32 <= head + len then (Fault(m), k)
      else (m.(head := head + len, taken := m.taken + 1), ReturnLoadLen(at))
    case ReturnLoadLen(at) =>
      if !(at + BLOCK <= |m.mem|) then (Fault(m), k)
      else
        var len := LittleWord(m.mem, at);
        if !(BLOCK <= len && at + len <= |m.mem|) then (Fault(m), k)
        else (m.(delivered := m.delivered + [m.mem[at + BLOCK..at + len]], loan := Loan(at, len)), PopIdle)
  }

  function Next(c: Config, s: State, a: Action): State {
    match a
    case StartPush(data) =>
      if s.prod.PushIdle? && Pushable(c, data) then s.(prod := AlignLoadTail(data)) else s
    case Produce(i) =>
      var (m, p) := ProducerStep(c, s.m, s.prod, i);
      State(m, p, s.cons)
    case StartPop =>
      if s.cons.PopIdle? then s.(m := s.m.(loan := NoLoan), cons := Empty1LoadHead) else s
    case Consume =>
      var (m, k) := ConsumerStep(c, s.m, s.cons);
      State(m, s.prod, k)
  }

  /** The state after any interleaving. */
  function Run(c: Config, actions: seq<Action>): State {
    if actions == [] then Init(c)
    else Next(c, Run(c, actions[..|actions| - 1]), actions[|actions| - 1])
  }

  // ---------------------------------------------------------------- invariant

  ghost predicate Core(c: Config, m: Shared) {
    && InArea(c, m.mem, m.head, m.tail)
    && !m.fault
    && (m.wrapped <==> m.tail < m.head)
    && m.taken <= |m.accepted|
    && Decode(c, m.mem, m.head, m.tail) == Some(m.accepted[m.taken..])
  }

  /** Push may fill [Tail, Tail + n) without touching anything live or lent. */
  ghost predicate Granted(c: Config, m: Shared, n: nat) {
    m.tail + n <= c.shmSize && (m.head <= m.tail || m.tail + n + c.elemMax <= m.head)
  }

  ghost predicate Copied(m: Shared, data: Payload, done: set<nat>) {
    && m.tail + BlockLen(data) <= |m.mem|
    && LittleWord(m.mem, m.tail) == BlockLen(data)
    && forall k | k in done && k < |data| :: m.mem[m.tail + BLOCK + k] == data[k]
  }

  ghost predicate Complete(m: Shared, data: Payload) {
    && m.tail + BlockLen(data) <= |m.mem|
    && LittleWord(m.mem, m.tail) == BlockLen(data)
    && m.mem[m.tail + BLOCK..m.tail + BlockLen(data)] == data
  }

  ghost predicate MayWrap(m: Shared) { HEADER < m.head <= m.tail }

  ghost predicate ProducerInv(c: Config, m: Shared, p: Producer)
    requires InArea(c, m.mem, m.head, m.tail)
  {
    && (!p.PushIdle? ==> Pushable(c, p.data))
    && match p
       case PushIdle | AlignLoadTail(_) => true
       case WaitLoadTail(data) => m.tail + BlockLen(data) <= c.shmSize
       case WaitPollHead(data, tail, cnt) => tail == m.tail && m.tail + BlockLen(data) <= c.shmSize && cnt < TRIES
       case WrapLoadTail(data, surplus) => surplus == c.shmSize - m.tail
       case WrapPollHead(data, surplus, tail, cnt) => surplus == c.shmSize - m.tail && tail == m.tail && cnt < TRIES
       case PadLoadTail(data) => MayWrap(m) && m.tail + BLOCK <= c.shmSize
       case PadStore(data, at) => MayWrap(m) && m.tail + BLOCK <= c.shmSize && at == m.tail
       case WrapStoreTail(data) => MayWrap(m) && AtPad(c, m.mem, m.tail)
       case BlockLoadTail(data) => Granted(c, m, BlockLen(data))
       case BlockStoreLen(data, at) => Granted(c, m, BlockLen(data)) && at == m.tail
       case BlockCopy(data, at, done) => Granted(c, m, BlockLen(data)) && at == m.tail && Copied(m, data, done)
       case BumpLoadTail(data) => Granted(c, m, BlockLen(data)) && Complete(m, data)
       case BumpStoreTail(data, tail) => Granted(c, m, BlockLen(data)) && Complete(m, data) && tail == m.tail
  }

  /** The block [at, Head) is intact and holds payload `data`. */
  ghost predicate Intact(c: Config, m: Shared, at: nat, data: Payload) {
    && HEADER <= at && at + BlockLen(data) == m.head <= |m.mem|
    && Pushable(c, data)
    && LittleWord(m.mem, at) == BlockLen(data)
    && m.mem[at + BLOCK..m.head] == data
  }

  /** alignHead has returned: either Head is back at the start, or a block is next. */
  ghost predicate Aligned(c: Config, m: Shared)
    requires InArea(c, m.mem, m.head, m.tail)
  {
    HEADER == m.head <= m.tail || NextIsBlock(c, m.mem, m.head, m.tail)
  }

  ghost predicate LoanInv(c: Config, m: Shared) {
    m.loan.Loan? ==>
      && m.delivered != []
      && m.loan.len == BlockLen(m.delivered[|m.delivered| - 1])
      && Intact(c, m, m.loan.at, m.delivered[|m.delivered| - 1])
  }

  ghost predicate ConsumerInv(c: Config, m: Shared, k: Consumer)
    requires InArea(c, m.mem, m.head, m.tail) && m.taken <= |m.accepted|
  {
    && LoanInv(c, m)
    && (m.loan.Loan? ==> k.PopIdle?)
    && |m.delivered| <= |m.accepted| && m.delivered == m.accepted[..|m.delivered|]
    && m.taken == |m.delivered| + (if k.ReturnLoadLen? then 1 else 0)
    && match k
       case PopIdle | Empty1LoadHead => true
       case Empty1LoadTail(head) => head == m.head
       case AlignLoadHead => m.head != m.tail
       case AlignHeadLoadTail(head) => head == m.head && m.head != m.tail
       case PadLoadHead(head) => head == m.head && m.tail < m.head
       case PadLoadLen(at) => at == m.head && m.tail < m.head && m.head + BLOCK <= c.shmSize
       case WrapStoreHead => m.tail < m.head && AtPad(c, m.mem, m.head)
       case Empty2LoadHead => Aligned(c, m)
       case Empty2LoadTail(head) => head == m.head && Aligned(c, m)
       case BlockLoadHead => NextIsBlock(c, m.mem, m.head, m.tail)
       case AssertLoadLen(at) => at == m.head && NextIsBlock(c, m.mem, m.head, m.tail)
       case AdvanceLoadLen(at) => at == m.head && NextIsBlock(c, m.mem, m.head, m.tail)
       case AdvanceLoadHead(at, len) =>
         at == m.head && NextIsBlock(c, m.mem, m.head, m.tail) && len == LittleWord(m.mem, m.head)
       case AdvanceStoreHead(at, len, head) =>
         at == head == m.head && NextIsBlock(c, m.mem, m.head, m.tail) && len == LittleWord(m.mem, m.head)
       case ReturnLoadLen(at) => Intact(c, m, at, m.accepted[|m.delivered|])
  }

  ghost predicate Inv(c: Config, m: Shared, p: Producer, k: Consumer) {
    ValidConfig(c) && Core(c, m) && ProducerInv(c, m, p) && ConsumerInv(c, m, k)
  }

  // ------------------------------------------------------------ preservation

  predicate Writes(p: Producer) {
    p.PadStore? || p.WrapStoreTail? || p.BlockStoreLen? || p.BlockCopy? || p.BumpStoreTail?
  }

  /** Loads of Push change only its own registers. */
  lemma ProducerLoads(c: Config, m: Shared, p: Producer, i: nat)
    requires ValidConfig(c) && Core(c, m) && ProducerInv(c, m, p) && !Writes(p)
    ensures ProducerStep(c, m, p, i).0 == m && ProducerInv(c, m, ProducerStep(c, m, p, i).1)
  {
  }

  /** A write confined to a granted region, anything live or lent being outside it. */
  ghost predicate Confined(c: Config, m: Shared, m': Shared, n: nat) {
    && Granted(c, m, n) && m' == m.(mem := m'.mem) && |m'.mem| == |m.mem|
    && forall i | 0 <= i < |m.mem| && !(m.tail <= i < m.tail + n) :: m'.mem[i] == m.mem[i]
  }

  lemma WriteKeepsCore(c: Config, m: Shared, m': Shared, n: nat)
    requires ValidConfig(c) && Core(c, m) && Confined(c, m, m', n)
    ensures Core(c, m')
  {
    hide Decode, LittleWord;
    DecodeFrame(c, m.mem, m'.mem, m.head, m.tail);
  }

  lemma WriteKeepsBlock(c: Config, m: Shared, m': Shared, n: nat, at: nat, data: Payload)
    requires InArea(c, m.mem, m.head, m.tail) && Confined(c, m, m', n) && Intact(c, m, at, data)
    ensures Intact(c, m', at, data)
  {
    hide LittleWord;
    SameWord(m.mem, m'.mem, at);
    assert m'.mem[at + BLOCK..m.head] == m.mem[at + BLOCK..m.head];
  }

  lemma WriteKeepsHead(c: Config, m: Shared, m': Shared, n: nat)
    requires ValidConfig(c) && InArea(c, m.mem, m.head, m.tail) && Confined(c, m, m', n)
    ensures NextIsBlock(c, m.mem, m.head, m.tail) ==>
              NextIsBlock(c, m'.mem, m.head, m.tail) && LittleWord(m'.mem, m.head) == LittleWord(m.mem, m.head)
    ensures m.tail < m.head && AtPad(c, m.mem, m.head) ==> AtPad(c, m'.mem, m.head)
  {
    hide LittleWord;
    if m.head + BLOCK <= c.shmSize && (m.tail < m.head || m.head + BLOCK <= m.tail) {
      SameWord(m.mem, m'.mem, m.head);
    }
  }

  /** Such a write leaves contents and loan alone. */
  lemma WriteKeeps(c: Config, m: Shared, m': Shared, k: Consumer, n: nat)
    requires ValidConfig(c) && Core(c, m) && ConsumerInv(c, m, k) && Confined(c, m, m', n)
    ensures Core(c, m') && ConsumerInv(c, m', k)
  {
    WriteKeepsCore(c, m, m', n);
    WriteKeepsHead(c, m, m', n);
    hide Decode, LittleWord, AtPad, NextIsBlock, Intact;
    if m.loan.Loan? {
      WriteKeepsBlock(c, m, m', n, m.loan.at, m.delivered[|m.delivered| - 1]);
    }
    if k.ReturnLoadLen? {
      WriteKeepsBlock(c, m, m', n, k.at, m.accepted[|m.delivered|]);
    }
  }

  /** How much of the segment from Tail on the next store of Push may change. */
  function WriteLen(p: Producer): nat {
    if p.PadStore? then BLOCK else if p.BlockStoreLen? || p.BlockCopy? then BlockLen(p.data) else 0
  }

  /** Stores into the data area stay inside the region granted to Push. */
  ghost predicate Fills(c: Config, m: Shared, p: Producer, m': Shared, p': Producer) {
    && InArea(c, m.mem, m.head, m.tail)
    && Confined(c, m, m', WriteLen(p))
    && ProducerInv(c, m', p')
  }

  lemma FillKeeps(c: Config, m: Shared, p: Producer, k: Consumer, i: nat)
    requires ValidConfig(c) && Core(c, m) && ConsumerInv(c, m, k)
    requires var (m', p') := ProducerStep(c, m, p, i); Fills(c, m, p, m', p')
    ensures var (m', p') := ProducerStep(c, m, p, i); Inv(c, m', p', k)
  {
    WriteKeeps(c, m, ProducerStep(c, m, p, i).0, k, WriteLen(p));
  }

  lemma HeaderFills(c: Config, m: Shared, p: Producer, i: nat)
    requires ValidConfig(c) && InArea(c, m.mem, m.head, m.tail) && ProducerInv(c, m, p)
    requires p.PadStore? || p.BlockStoreLen?
    ensures var (m', p') := ProducerStep(c, m, p, i); Fills(c, m, p, m', p')
  {
  }

  lemma CopyFills(c: Config, m: Shared, p: Producer, i: nat)
    requires ValidConfig(c) && InArea(c, m.mem, m.head, m.tail) && ProducerInv(c, m, p)
    requires p.BlockCopy?
    ensures var (m', p') := ProducerStep(c, m, p, i); Fills(c, m, p, m', p')
  {
    hide LittleWord;
    var (m', p') := ProducerStep(c, m, p, i);
    if p'.BumpLoadTail? {
      assert m.mem[m.tail + BLOCK..m.tail + BlockLen(p.data)] == p.data;
    } else if m' != m {
      SameWord(m.mem, m'.mem, m.tail);
    }
  }

  /** Moving Tail ahead of, or away from, the consumer's block changes nothing the consumer knows. */
  lemma TailMoves(c: Config, m: Shared, m': Shared, k: Consumer)
    requires ValidConfig(c) && Core(c, m) && ConsumerInv(c, m, k)
    requires m' == m.(tail := m'.tail, accepted := m'.accepted, wrapped := m'.wrapped)
    requires m.accepted <= m'.accepted && HEADER <= m'.tail <= c.shmSize
    requires m.head <= m.tail <= m'.tail || m.tail <= m'.tail < m.head || HEADER == m'.tail < m.head <= m.tail
    ensures ConsumerInv(c, m', k)
  {
  }

  lemma WrapKeeps(c: Config, m: Shared, p: Producer, k: Consumer)
    requires Inv(c, m, p, k) && p.WrapStoreTail?
    ensures var (m', p') := ProducerStep(c, m, p, 0); Inv(c, m', p', k)
  {
    DecodeWrap(c, m.mem, m.head, m.tail);
    TailMoves(c, m, ProducerStep(c, m, p, 0).0, k);
  }

  lemma CommitCore(c: Config, m: Shared, p: Producer)
    requires ValidConfig(c) && Core(c, m) && ProducerInv(c, m, p) && p.BumpStoreTail?
    ensures Core(c, ProducerStep(c, m, p, 0).0)
  {
    var m' := ProducerStep(c, m, p, 0).0;
    DecodeAppend(c, m.mem, m.head, m.tail, m'.tail);
    assert m'.accepted[m.taken..] == m.accepted[m.taken..] + [p.data];
  }

  lemma CommitKeeps(c: Config, m: Shared, p: Producer, k: Consumer)
    requires Inv(c, m, p, k) && p.BumpStoreTail?
    ensures var (m', p') := ProducerStep(c, m, p, 0); Inv(c, m', p', k)
  {
    CommitCore(c, m, p);
    TailMoves(c, m, ProducerStep(c, m, p, 0).0, k);
  }

  lemma ProducerKeeps(c: Config, m: Shared, p: Producer, k: Consumer, i: nat)
    requires Inv(c, m, p, k)
    ensures var (m', p') := ProducerStep(c, m, p, i); Inv(c, m', p', k)
  {
    if p.WrapStoreTail? {
      WrapKeeps(c, m, p, k);
    } else if p.BumpStoreTail? {
      CommitKeeps(c, m, p, k);
    } else if p.BlockCopy? {
      CopyFills(c, m, p, i);
      FillKeeps(c, m, p, k, i);
    } else if Writes(p) {
      HeaderFills(c, m, p, i);
      FillKeeps(c, m, p, k, i);
    } else {
      ProducerLoads(c, m, p, i);
    }
  }

  predicate Stores(k: Consumer) {
    k.WrapStoreHead? || k.AdvanceStoreHead? || k.ReturnLoadLen?
  }

  /** Loads of Pop change only its own registers. */
  lemma ConsumerLoads(c: Config, m: Shared, k: Consumer)
    requires ValidConfig(c) && Core(c, m) && ConsumerInv(c, m, k) && !Stores(k)
    ensures ConsumerStep(c, m, k).0 == m && ConsumerInv(c, m, ConsumerStep(c, m, k).1)
  {
  }

  /** Head moving towards Tail, or back to the start, keeps every permission of Push. */
  lemma HeadMoves(c: Config, m: Shared, m': Shared, p: Producer)
    requires ValidConfig(c) && InArea(c, m.mem, m.head, m.tail) && ProducerInv(c, m, p)
    requires m' == m.(head := m'.head, taken := m'.taken, wrapped := m'.wrapped,
                      delivered := m'.delivered, loan := m'.loan)
    requires || m.head <= m'.head <= m.tail
             || m.tail < m.head <= m'.head <= c.shmSize
             || HEADER == m'.head <= m.tail < m.head
    ensures ProducerInv(c, m', p)
  {
  }

  lemma HeadWrapKeeps(c: Config, m: Shared, p: Producer, k: Consumer)
    requires Inv(c, m, p, k) && k.WrapStoreHead?
    ensures var (m', k') := ConsumerStep(c, m, k); Inv(c, m', p, k')
  {
    HeadMoves(c, m, ConsumerStep(c, m, k).0, p);
  }

  /** Taking the block at Head hands out exactly the oldest pending payload. */
  lemma AdvanceCore(c: Config, m: Shared, k: Consumer)
    requires ValidConfig(c) && Core(c, m) && ConsumerInv(c, m, k) && k.AdvanceStoreHead?
    ensures Core(c, ConsumerStep(c, m, k).0)
    ensures m.taken < |m.accepted| && m.accepted[m.taken] == m.mem[m.head + BLOCK..ConsumerStep(c, m, k).0.head]
  {
    var m' := ConsumerStep(c, m, k).0;
    var rest := Decode(c, m.mem, m'.head, m.tail).value;
    var first := m.mem[m.head + BLOCK..m'.head];
    assert Decode(c, m.mem, m.head, m.tail).value == m.accepted[m.taken..];
    assert Decode(c, m.mem, m.head, m.tail).value == [first] + rest;
    assert |m.accepted| - m.taken == 1 + |rest|;
    assert m.accepted[m.taken] == m.accepted[m.taken..][0];
    assert m.accepted[m.taken + 1..] == m.accepted[m.taken..][1..];
  }

  lemma AdvanceKeeps(c: Config, m: Shared, p: Producer, k: Consumer)
    requires Inv(c, m, p, k) && k.AdvanceStoreHead?
    ensures var (m', k') := ConsumerStep(c, m, k); Inv(c, m', p, k')
  {
    hide Decode, LittleWord;
    AdvanceCore(c, m, k);
    HeadMoves(c, m, ConsumerStep(c, m, k).0, p);
  }

  lemma ReturnKeeps(c: Config, m: Shared, p: Producer, k: Consumer)
    requires Inv(c, m, p, k) && k.ReturnLoadLen?
    ensures var (m', k') := ConsumerStep(c, m, k); Inv(c, m', p, k')
  {
    hide Decode, LittleWord;
    var m' := ConsumerStep(c, m, k).0;
    assert m.mem[k.at + BLOCK..k.at + LittleWord(m.mem, k.at)] == m.accepted[|m.delivered|];
    assert m'.delivered == m.accepted[..|m.delivered| + 1];
    HeadMoves(c, m, m', p);
  }

  lemma ConsumerKeeps(c: Config, m: Shared, p: Producer, k: Consumer)
    requires Inv(c, m, p, k)
    ensures var (m', k') := ConsumerStep(c, m, k); Inv(c, m', p, k')
  {
    if k.WrapStoreHead? {
      HeadWrapKeeps(c, m, p, k);
    } else if k.AdvanceStoreHead? {
      AdvanceKeeps(c, m, p, k);
    } else if k.ReturnLoadLen? {
      ReturnKeeps(c, m, p, k);
    } else {
      ConsumerLoads(c, m, k);
    }
  }

  lemma NextKeeps(c: Config, s: State, a: Action)
    requires Inv(c, s.m, s.prod, s.cons)
    ensures var s' := Next(c, s, a); Inv(c, s'.m, s'.prod, s'.cons)
  {
    match a
    case Produce(i) => ProducerKeeps(c, s.m, s.prod, s.cons, i);
    case Consume => ConsumerKeeps(c, s.m, s.prod, s.cons);
    case StartPush(_) =>
    case StartPop => HeadMoves(c, s.m, s.m.(loan := NoLoan), s.prod);
  }

  lemma {:induction false} RunKeeps(c: Config, actions: seq<Action>)
    requires ValidConfig(c)
    ensures var s := Run(c, actions); Inv(c, s.m, s.prod, s.cons)
  {
    if actions == [] {
    } else {
      RunKeeps(c, actions[..|actions| - 1]);
      NextKeeps(c, Run(c, actions[..|actions| - 1]), actions[|actions| - 1]);
    }
  }

  // ------------------------------------------------------------------ results

  /** Some interleaving of one producer and one consumer leads from Create to `s`. */
  ghost predicate Reachable(c: Config, s: State) {
    exists actions :: s == Run(c, actions)
  }

  lemma ReachableInv(c: Config, s: State)
    requires ValidConfig(c) && Reachable(c, s)
    ensures Inv(c, s.m, s.prod, s.cons)
  {
    var actions :| s == Run(c, actions);
    RunKeeps(c, actions);
  }

  /**
   In every interleaving the payloads Pop returned are a prefix of the payloads
   whose Push returned true, and the ring bytes decode to exactly the rest (one
   payload less while Pop has moved Head but not yet returned).
   */
  lemma PopReturnsPushedInOrder(c: Config, s: State)
    requires ValidConfig(c) && Reachable(c, s)
    ensures s.m.delivered <= s.m.accepted
    ensures s.m.taken == |s.m.delivered| + (if s.cons.ReturnLoadLen? then 1 else 0) <= |s.m.accepted|
    ensures InArea(c, s.m.mem, s.m.head, s.m.tail)
    ensures Decode(c, s.m.mem, s.m.head, s.m.tail) == Some(s.m.accepted[s.m.taken..])
  {
    ReachableInv(c, s);
  }

  /**
   From the return of Pop until the next call of Pop, the length word and the
   bytes of the block it handed out stay those of the payload it returned.
   */
  lemma LoanIntact(c: Config, s: State)
    requires ValidConfig(c) && Reachable(c, s) && s.m.loan.Loan?
    ensures s.cons.PopIdle? && s.m.delivered != []
    ensures HEADER <= s.m.loan.at && BLOCK <= s.m.loan.len && s.m.loan.at + s.m.loan.len <= |s.m.mem|
    ensures LittleWord(s.m.mem, s.m.loan.at) == s.m.loan.len
    ensures s.m.mem[s.m.loan.at + BLOCK..s.m.loan.at + s.m.loan.len] == s.m.delivered[|s.m.delivered| - 1]
  {
    ReachableInv(c, s);
  }

  /** No run fails an assertion, leaves the data area or wraps a 32-bit sum. */
  lemma NoFault(c: Config, s: State)
    requires ValidConfig(c) && Reachable(c, s)
    ensures !s.m.fault
    ensures |s.m.mem| == c.shmSize
    ensures HEADER <= s.m.head <= c.shmSize && HEADER <= s.m.tail <= c.shmSize
    ensures s.m.wrapped <==> s.m.tail < s.m.head
  {
    ReachableInv(c, s);
  }
}
