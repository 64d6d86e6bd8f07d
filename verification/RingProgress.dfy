/**
 What a call of Pop or Push answers in the step model, and that it answers at all:
 "empty" only of a drained ring, "full" only after ten polls that saw no room, and
 within a bounded number of its own steps whatever the other side does.
 */
module RingProgress {
  import opened Wrappers
  import opened Bytes
  import opened RingLayout
  import opened RingSteps
  import RingQueue

  /** The state after more actions. */
  function RunFrom(c: Config, s: State, actions: seq<Action>): State {
    if actions == [] then s else Next(c, RunFrom(c, s, actions[..|actions| - 1]), actions[|actions| - 1])
  }

  ghost predicate Good(c: Config, s: State) { Inv(c, s.m, s.prod, s.cons) }

  // ---------------------------------------------------------------------------- Pop

  /** How many shared accesses Pop has left at most. */
  function StepsLeft(k: Consumer): nat {
    match k
    case PopIdle => 0
    case ReturnLoadLen(_) => 1
    case AdvanceStoreHead(_, _, _) => 2
    case AdvanceLoadHead(_, _) => 3
    case AdvanceLoadLen(_) => 4
    case AssertLoadLen(_) => 5
    case BlockLoadHead => 6
    case Empty2LoadTail(_) => 7
    case Empty2LoadHead => 8
    case WrapStoreHead => 9
    case PadLoadLen(_) => 10
    case PadLoadHead(_) => 11
    case AlignHeadLoadTail(_) => 12
    case AlignLoadHead => 13
    case Empty1LoadTail(_) => 14
    case Empty1LoadHead => 15
  }

  /** Each step of Pop is one of at most fifteen, and its last one answers for the ring as it is. */
  lemma PopStep(c: Config, s: State)
    requires Good(c, s) && !s.cons.PopIdle?
    ensures var s' := Next(c, s, Consume);
      && StepsLeft(s'.cons) < StepsLeft(s.cons) && s'.prod == s.prod && s'.m.accepted == s.m.accepted
      && (!s'.cons.PopIdle? ==> s'.m.delivered == s.m.delivered)
      && (s'.cons.PopIdle? ==>
            || (s'.m.delivered == s.m.delivered && |s.m.delivered| == s.m.taken == |s.m.accepted|)
            || (|s.m.delivered| < |s.m.accepted|
                && s'.m.delivered == s.m.delivered + [s.m.accepted[|s.m.delivered|]]))
  {
    hide LittleWord, Decode;
    MetIsDrained(c, s.m);
    if s.cons.ReturnLoadLen? { ReturnStep(c, s); }
  }

  /** When Head has met Tail nothing is left to take. */
  lemma MetIsDrained(c: Config, m: Shared)
    requires Core(c, m)
    ensures m.head == m.tail ==> m.taken == |m.accepted|
  {
    if m.head == m.tail { assert Decode(c, m.mem, m.head, m.tail).value == []; }
  }

  lemma ReturnStep(c: Config, s: State)
    requires Good(c, s) && s.cons.ReturnLoadLen?
    ensures |s.m.delivered| < |s.m.accepted|
    ensures Next(c, s, Consume).cons.PopIdle?
    ensures Next(c, s, Consume).m.accepted == s.m.accepted
    ensures Next(c, s, Consume).m.delivered == s.m.delivered + [s.m.accepted[|s.m.delivered|]]
  {
    hide Decode, LittleWord;
  }

  /** Pop answers "empty" only when every payload pushed so far has been handed out. */
  lemma EmptyOnlyWhenDrained(c: Config, s: State)
    requires ValidConfig(c) && Reachable(c, s) && !s.cons.PopIdle?
    ensures var s' := Next(c, s, Consume);
      s'.cons.PopIdle? && s'.m.delivered == s.m.delivered ==> s.m.delivered == s.m.accepted
  {
    ReachableInv(c, s);
    PopStep(c, s);
    hide ConsumerStep, Decode, LittleWord;
  }

  function Consumes(actions: seq<Action>): nat {
    if actions == [] then 0
    else Consumes(actions[..|actions| - 1]) + if actions[|actions| - 1].Consume? then 1 else 0
  }

  /** Steps of the producer leave Pop and what it has handed out alone. */
  lemma OtherStep(c: Config, s: State, a: Action)
    requires Good(c, s) && !a.Consume? && !a.StartPop?
    ensures var s' := Next(c, s, a);
      s'.cons == s.cons && s'.m.delivered == s.m.delivered && s.m.accepted <= s'.m.accepted
  {
    hide Decode, LittleWord;
  }

  /** A Pop under way since `before`: not yet done and within its steps, or done with its answer. */
  ghost predicate PopUnderWay(before: Shared, s: State, consumed: nat) {
    && before.accepted <= s.m.accepted
    && (if s.cons.PopIdle? then
          || (s.m.delivered == before.delivered && |before.accepted| <= |before.delivered|)
          || (|before.delivered| < |s.m.accepted|
              && s.m.delivered == before.delivered + [s.m.accepted[|before.delivered|]])
        else s.m.delivered == before.delivered && consumed + StepsLeft(s.cons) <= 15)
  }

  lemma {:induction false} PopRuns(c: Config, s: State, actions: seq<Action>)
    requires Good(c, s) && s.cons.PopIdle? && forall a | a in actions :: !a.StartPop?
    ensures var s' := RunFrom(c, Next(c, s, StartPop), actions);
      Good(c, s') && PopUnderWay(s.m, s', Consumes(actions))
    decreases |actions|
  {
    var s1 := Next(c, s, StartPop);
    if actions == [] {
      NextKeeps(c, s, StartPop);
    } else {
      var n := |actions| - 1;
      PopRuns(c, s, actions[..n]);
      PopTurn(c, s.m, RunFrom(c, s1, actions[..n]), actions[n], Consumes(actions[..n]));
    }
  }

  lemma PopTurn(c: Config, before: Shared, s: State, a: Action, consumed: nat)
    requires Good(c, s) && PopUnderWay(before, s, consumed) && !a.StartPop?
    ensures var s' := Next(c, s, a);
      Good(c, s') && PopUnderWay(before, s', consumed + if a.Consume? then 1 else 0)
  {
    NextKeeps(c, s, a);
    hide Inv, Next;
    if !a.Consume? {
      OtherStep(c, s, a);
    } else if s.cons.PopIdle? {
      IdleConsume(c, s);
    } else {
      PopStep(c, s);
    }
  }

  lemma IdleConsume(c: Config, s: State)
    requires s.cons.PopIdle?
    ensures Next(c, s, Consume) == s
  {
  }

  /**
   Pop is wait-free: whatever the producer does in between, it returns within fifteen of
   its own steps, and if anything was queued when it was called it returns the oldest
   payload not yet handed out.
   */
  lemma PopWaitFree(c: Config, s: State, actions: seq<Action>)
    requires ValidConfig(c) && Reachable(c, s) && s.cons.PopIdle?
    requires (forall a | a in actions :: !a.StartPop?) && Consumes(actions) >= 15
    ensures var s' := RunFrom(c, Next(c, s, StartPop), actions);
      && s'.cons.PopIdle?
      && (|s.m.delivered| < |s.m.accepted| ==>
            s'.m.delivered == s.m.delivered + [s.m.accepted[|s.m.delivered|]])
  {
    ReachableInv(c, s);
    PopRuns(c, s, actions);
    hide Inv, Next;
  }

  // --------------------------------------------------------------------------- Push

  /** What a Push at this point will answer if the consumer does not move. */
  ghost predicate WillAccept(c: Config, m: Shared, p: Producer) {
    match p
    case PushIdle => false
    case AlignLoadTail(data) => RingQueue.Accepts(c, m.head, m.tail, BlockLen(data))
    case WaitLoadTail(data) => RingQueue.HasRoom(c, m.head, m.tail, BlockLen(data))
    case WaitPollHead(data, _, _) => RingQueue.HasRoom(c, m.head, m.tail, BlockLen(data))
    case WrapLoadTail(data, _) =>
      HEADER < m.head <= m.tail && RingQueue.HasRoom(c, m.head, HEADER, BlockLen(data))
    case WrapPollHead(data, _, _, _) =>
      HEADER < m.head <= m.tail && RingQueue.HasRoom(c, m.head, HEADER, BlockLen(data))
    case PadLoadTail(data) => RingQueue.HasRoom(c, m.head, HEADER, BlockLen(data))
    case PadStore(data, _) => RingQueue.HasRoom(c, m.head, HEADER, BlockLen(data))
    case WrapStoreTail(data) => RingQueue.HasRoom(c, m.head, HEADER, BlockLen(data))
    case _ => true
  }

  /** The tenth poll for room, or for a chance to wrap, has just failed. */
  ghost predicate LastPollFails(c: Config, m: Shared, p: Producer) {
    || (p.WaitPollHead? && p.cnt == 9 && !RingQueue.HasRoom(c, m.head, m.tail, BlockLen(p.data)))
    || (p.WrapPollHead? && p.cnt == 9 && !(HEADER < m.head <= m.tail))
  }

  function Polls(p: Producer): nat {
    if p.WaitPollHead? || p.WrapPollHead? then p.cnt else 0
  }

  /**
   A step of Push goes on with the same payload and the same prospect, polls counted one by
   one, or ends it: accepted exactly when it could be, refused exactly at the tenth poll.
   */
  ghost predicate PushMoves(c: Config, m: Shared, p: Producer, m': Shared, p': Producer)
    requires !p.PushIdle?
  {
    && m'.delivered == m.delivered && m'.head == m.head
    && (if p'.PushIdle? then
          && m'.accepted == (if WillAccept(c, m, p) then m.accepted + [p.data] else m.accepted)
          && (LastPollFails(c, m, p) || p.BumpStoreTail?)
        else
          && m'.accepted == m.accepted && p'.data == p.data && WillAccept(c, m', p') == WillAccept(c, m, p)
          && !LastPollFails(c, m, p) && (Polls(p') == 0 || Polls(p') == Polls(p) + 1))
  }

  lemma PollMoves(c: Config, m: Shared, p: Producer, i: nat)
    requires ValidConfig(c) && Core(c, m) && ProducerInv(c, m, p) && (p.WaitPollHead? || p.WrapPollHead?)
    ensures var (m', p') := ProducerStep(c, m, p, i); PushMoves(c, m, p, m', p')
  {
    hide Decode, LittleWord;
  }

  lemma LoadMoves(c: Config, m: Shared, p: Producer, i: nat)
    requires ValidConfig(c) && Core(c, m) && ProducerInv(c, m, p)
    requires !p.PushIdle? && !p.WaitPollHead? && !p.WrapPollHead? && !Writes(p)
    ensures var (m', p') := ProducerStep(c, m, p, i); PushMoves(c, m, p, m', p')
  {
    hide Decode, LittleWord;
  }

  lemma WriteMoves(c: Config, m: Shared, p: Producer, i: nat)
    requires ValidConfig(c) && Core(c, m) && ProducerInv(c, m, p) && Writes(p)
    ensures var (m', p') := ProducerStep(c, m, p, i); PushMoves(c, m, p, m', p')
  {
    hide Decode, LittleWord;
  }

  lemma PushStep(c: Config, s: State, i: nat)
    requires Good(c, s) && !s.prod.PushIdle?
    ensures var s' := Next(c, s, Produce(i)); s'.cons == s.cons && PushMoves(c, s.m, s.prod, s'.m, s'.prod)
  {
    hide Decode, LittleWord, ProducerStep, Core, ProducerInv, ConsumerInv, PushMoves;
    if s.prod.WaitPollHead? || s.prod.WrapPollHead? { PollMoves(c, s.m, s.prod, i); }
    else if Writes(s.prod) { WriteMoves(c, s.m, s.prod, i); }
    else { LoadMoves(c, s.m, s.prod, i); }
  }

  /** In every interleaving Push answers "full" only at a tenth poll that sees no room or no chance to wrap. */
  lemma FullOnlyAfterTenPolls(c: Config, s: State, i: nat)
    requires ValidConfig(c) && Reachable(c, s) && !s.prod.PushIdle?
    ensures var s' := Next(c, s, Produce(i));
      s'.prod.PushIdle? ==>
        || s'.m.accepted == s.m.accepted + [s.prod.data]
        || (s'.m.accepted == s.m.accepted && LastPollFails(c, s.m, s.prod))
  {
    ReachableInv(c, s);
    PushStep(c, s, i);
    hide Inv, Next;
  }

  function Produces(picks: seq<nat>): seq<Action> { seq(|picks|, j requires 0 <= j < |picks| => Produce(picks[j])) }

  lemma ProducesSnoc(picks: seq<nat>)
    requires picks != []
    ensures var n := |picks| - 1;
      Produces(picks)[..n] == Produces(picks[..n]) && Produces(picks)[n] == Produce(picks[n])
  {
  }

  /** A Push running alone keeps its prospect until it answers. */
  lemma {:induction false} PushRuns(c: Config, s: State, data: Payload, picks: seq<nat>)
    requires Good(c, s) && s.prod.PushIdle? && Pushable(c, data)
    ensures var s' := RunFrom(c, Next(c, s, StartPush(data)), Produces(picks));
      && Good(c, s')
      && var will := RingQueue.Accepts(c, s.m.head, s.m.tail, BlockLen(data));
        if s'.prod.PushIdle? then s'.m.accepted == if will then s.m.accepted + [data] else s.m.accepted
        else s'.m.accepted == s.m.accepted && s'.prod.data == data && WillAccept(c, s'.m, s'.prod) == will
    decreases |picks|
  {
    var s1 := Next(c, s, StartPush(data));
    if picks == [] {
      NextKeeps(c, s, StartPush(data));
    } else {
      var n := |picks| - 1;
      PushRuns(c, s, data, picks[..n]);
      ProducesSnoc(picks);
      var t := RunFrom(c, s1, Produces(picks[..n]));
      hide Inv, WillAccept, Produces, Next;
      NextKeeps(c, t, Produce(picks[n]));
      if t.prod.PushIdle? { IdleProduce(c, t, picks[n]); } else { PushStep(c, t, picks[n]); }
    }
  }

  lemma IdleProduce(c: Config, s: State, i: nat)
    requires s.prod.PushIdle?
    ensures Next(c, s, Produce(i)) == s
  {
  }

  /** The bytes memcpy still has to store. */
  ghost function Missing(p: Producer): set<nat> {
    if p.BlockCopy? then set k: nat | k < |p.data| && k !in p.done else {}
  }

  /** A bound on the shared accesses Push has left, each byte of the payload being one. */
  ghost function PushLeft(p: Producer): int {
    match p
    case PushIdle => 0
    case BumpStoreTail(_, _) => 1
    case BumpLoadTail(_) => 2
    case BlockCopy(_, _, _) => 3 + |Missing(p)|
    case BlockStoreLen(data, _) => 4 + |data|
    case BlockLoadTail(data) => 5 + |data|
    case WaitPollHead(data, _, cnt) => 15 + |data| - cnt
    case WaitLoadTail(data) => 16 + |data|
    case WrapStoreTail(data) => 17 + |data|
    case PadStore(data, _) => 18 + |data|
    case PadLoadTail(data) => 19 + |data|
    case WrapPollHead(data, _, _, cnt) => 29 + |data| - cnt
    case WrapLoadTail(data, _) => 30 + |data|
    case AlignLoadTail(data) => 31 + |data|
  }

  /** The next byte to store, if any is left. */
  lemma Pick(p: Producer) returns (i: nat)
    ensures Missing(p) != {} ==> i in Missing(p)
  {
    if k :| k in Missing(p) { i := k; } else { i := 0; }
  }

  function Below(n: nat): (r: set<nat>)
    ensures |r| == n && forall k: nat :: k in r <==> k < n
  {
    if n == 0 then {} else Below(n - 1) + {n - 1}
  }

  lemma AllMissing(p: Producer)
    requires p.BlockCopy? && p.done == {}
    ensures |Missing(p)| == |p.data|
  {
    assert Missing(p) == Below(|p.data|);
  }

  lemma CopyStep(c: Config, s: State, i: nat)
    requires Good(c, s) && s.prod.BlockCopy? && (Missing(s.prod) != {} ==> i in Missing(s.prod))
    ensures 0 <= PushLeft(Next(c, s, Produce(i)).prod) < PushLeft(s.prod)
  {
    hide Decode, LittleWord;
    var p, p' := s.prod, Next(c, s, Produce(i)).prod;
    if Missing(p) == {} {
      assert forall k: nat | k < |p.data| && k !in p.done :: k in Missing(p);
    } else {
      assert i < |p.data| && i !in p.done;
      assert Missing(p') == Missing(p) - {i};
    }
  }

  lemma PollStep(c: Config, s: State, i: nat)
    requires Good(c, s) && (s.prod.WaitPollHead? || s.prod.WrapPollHead?)
    ensures 0 <= PushLeft(Next(c, s, Produce(i)).prod) < PushLeft(s.prod)
  {
    hide Decode, LittleWord, Missing, ConsumerInv;
  }

  lemma PlainStep(c: Config, s: State, i: nat)
    requires Good(c, s) && !s.prod.PushIdle? && !s.prod.BlockCopy? && !s.prod.WaitPollHead? && !s.prod.WrapPollHead?
    ensures 0 <= PushLeft(Next(c, s, Produce(i)).prod) < PushLeft(s.prod)
  {
    hide Decode, LittleWord, Missing, ConsumerInv;
    var p' := Next(c, s, Produce(i)).prod;
    if p'.BlockCopy? { AllMissing(p'); }
  }

  lemma UsefulStep(c: Config, s: State, i: nat)
    requires Good(c, s) && !s.prod.PushIdle? && (Missing(s.prod) != {} ==> i in Missing(s.prod))
    ensures 0 <= PushLeft(Next(c, s, Produce(i)).prod) < PushLeft(s.prod)
  {
    hide Inv, Missing, Next;
    if s.prod.BlockCopy? { CopyStep(c, s, i); }
    else if s.prod.WaitPollHead? || s.prod.WrapPollHead? { PollStep(c, s, i); }
    else { PlainStep(c, s, i); }
  }

  /** Some run of Push alone ends it, in at most 31 steps and one for each byte. */
  lemma {:induction false} PushEnds(c: Config, s: State) returns (picks: seq<nat>)
    requires Good(c, s)
    ensures |picks| <= PushLeft(s.prod)
    ensures RunFrom(c, s, Produces(picks)).prod.PushIdle?
    decreases PushLeft(s.prod)
  {
    if s.prod.PushIdle? {
      picks := [];
    } else {
      var i := Pick(s.prod);
      UsefulStep(c, s, i);
      NextKeeps(c, s, Produce(i));
      hide Inv, Next, PushLeft;
      var rest := PushEnds(c, Next(c, s, Produce(i)));
      picks := [i] + rest;
      assert Produces(picks) == [Produce(i)] + Produces(rest);
      RunCons(c, s, Produce(i), Produces(rest));
    }
  }

  lemma {:induction false} RunCons(c: Config, s: State, a: Action, rest: seq<Action>)
    ensures RunFrom(c, s, [a] + rest) == RunFrom(c, Next(c, s, a), rest)
    decreases |rest|
  {
    hide Next;
    if rest == [] {
      assert [a] + rest == [a] && [a][..0] == [];
    } else {
      var n := |rest| - 1;
      assert ([a] + rest)[..n + 1] == [a] + rest[..n];
      RunCons(c, s, a, rest[..n]);
    }
  }

  /**
   A Push running alone can always end within 31 steps and one for each byte, and however it
   runs it accepts the payload exactly when RingQueue.Push does.
   */
  lemma PushAlone(c: Config, s: State, data: Payload)
    requires ValidConfig(c) && Reachable(c, s) && s.prod.PushIdle? && Pushable(c, data)
    ensures exists picks ::
              |picks| <= 31 + |data| && RunFrom(c, Next(c, s, StartPush(data)), Produces(picks)).prod.PushIdle?
    ensures forall picks ::
              var s' := RunFrom(c, Next(c, s, StartPush(data)), Produces(picks));
              s'.prod.PushIdle? ==>
                s'.m.accepted == if RingQueue.Accepts(c, s.m.head, s.m.tail, BlockLen(data))
                                 then s.m.accepted + [data] else s.m.accepted
  {
    ReachableInv(c, s);
    var s1 := Next(c, s, StartPush(data));
    NextKeeps(c, s, StartPush(data));
    assert PushLeft(s1.prod) == 31 + |data| && !s1.prod.PushIdle?;
    hide Inv, Next, PushLeft, Produces;
    var picks := PushEnds(c, s1);
    forall picks ensures var s' := RunFrom(c, s1, Produces(picks));
      s'.prod.PushIdle? ==>
        s'.m.accepted == if RingQueue.Accepts(c, s.m.head, s.m.tail, BlockLen(data))
                         then s.m.accepted + [data] else s.m.accepted
    {
      PushRuns(c, s, data, picks);
    }
  }
}
