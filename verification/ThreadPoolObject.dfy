/**
 The pools as an object: the lock-protected bodies as they are written, updating the
 pool's fields in place. Each is one action of the transition system (the loop of
 ResetJobConfig a run of them), keeps the pool valid, so that everything proved of
 reachable states holds of the object, and states what its caller gets.
 */
module ThreadPoolObject {
  import opened Wrappers
  import opened ThreadPool
  import opened ThreadPoolRuns
  import opened ThreadPoolResults

  /** The state after some actions. */
  function Steps(c: Config, s: State, actions: seq<Action>): State {
    if actions == [] then s else Next(c, Steps(c, s, actions[..|actions| - 1]), actions[|actions| - 1])
  }

  /**
   A worker that came round its loop took the oldest queued task, or waits because there
   is none, or has left a stopped pool that has none.
   */
  ghost predicate CameRound(s: State, s': State, w: nat) {
    && w in s'.ws
    && (match s'.ws[w].pc
        case Fetched(t, floor) => TookOldest(s, s', w) && floor == s.confirmed
        case Waiting => s.queue == [] && !s.stop
        case Done => s.queue == [] && s.stop
        case _ => false)
    && (s.queue == [] ==> s'.queue == [])
  }

  /** freeWorkerNum_ is the number of workers in a wait, as long as the pool runs. */
  ghost predicate WaitersRight(s: State) { !s.stop ==> s.free == |InWait(s.ws)| }

  /**
   A running pool has queued the task. It has a new worker, a temporary one, exactly when no
   more workers waited than tasks were queued and it had fewer workers than it may; so it
   has as many waiting workers as queued tasks, or a new worker, or as many as it may. A
   stopped pool has not changed.
   */
  ghost predicate Submitted(c: Config, s: State, s': State) {
    && s'.stop == s.stop && s'.out == s.out && s'.delivered == s.delivered
    && (s.stop ==> s'.queue == s.queue && s'.all == s.all && s'.ws == s.ws)
    && (!s.stop ==>
          && s'.queue == s.queue + [s.accepted] && s'.accepted == s.accepted + 1 && OnePlaceEach(s')
          && (if |InWait(s.ws)| <= |s.queue| && |s.all| < c.maxThreads
              then s.nextId !in s.ws && s'.all == s.all + {s.nextId}
                   && s'.ws == s.ws[s.nextId := Worker(false, Starting, false, 0)]
              else s'.all == s.all && s'.ws == s.ws)
          && (|| |InWait(s'.ws)| >= |s'.queue|
              || (s.nextId !in s.ws && s.nextId in s'.all)
              || |s'.all| == c.maxThreads))
  }

  /** A temporary worker that timed out takes nothing, and is off the list of a running pool. */
  ghost predicate Resumed(s: State, s': State, w: nat, timeout: bool) {
    && w in s.ws && w in s'.ws
    && (s.ws[w].keep || !timeout ==> CameRound(s, s', w))
    && (!s.ws[w].keep && timeout ==> s'.queue == s.queue && Exited(s'.ws[w].pc) && (w in s'.all ==> s.stop))
  }

  /** The task of worker w, which had no result, has one now, under a configuration as new as promised. */
  ghost predicate Delivered(c: Config, s: State, s': State, w: nat) {
    && w in s.ws && w in s'.ws && s.ws[w].pc.Processing? && OnePlaceEach(s')
    && (var wk := s.ws[w];
        && s'.out == s.out + [Result(wk.pc.task, wk.jobVer, wk.pc.floor)]
        && wk.pc.floor <= wk.jobVer && wk.pc.task !in DoneTasks(s)
        && (c.kind.Plain? ==> CameRound(s, s', w))
        && (c.kind.Ex? ==> s'.ws[w].pc == Freeing(wk.pc.task)))
  }

  /** The workers in `done` are flagged to reload, and nothing else about any worker has changed. */
  ghost predicate Flagged(before: map<nat, Worker>, ws: map<nat, Worker>, done: set<nat>) {
    && ws.Keys == before.Keys
    && forall w | w in ws :: ws[w] == if w in done then before[w].(reload := true) else before[w]
  }

  class Pool {
    const config: Config
    var dataQueue: seq<nat>
    var outQueue: seq<Result>
    var allWorkers: set<nat>
    var freeWorkerNum: nat
    var stop: bool
    var workers: map<nat, Worker>
    var nextId: nat
    // tasks are named by the order of their acceptance
    var accepted: nat
    // the newest configuration for which ResetJobConfig has returned
    var confirmed: nat
    // what the pool does not record
    ghost var history: State

    ghost function View(): State
      reads this
    {
      history.(queue := dataQueue, out := outQueue, all := allWorkers, free := freeWorkerNum,
               stop := stop, ws := workers, nextId := nextId, accepted := accepted, confirmed := confirmed)
    }

    ghost predicate Valid()
      reads this
    {
      Inv(config, View())
    }

    constructor (kind: Kind, minThreads: nat, maxThreads: nat)
      requires minThreads <= maxThreads
      ensures Valid() && config == Config(kind, minThreads, maxThreads) && View() == Init(config)
    {
      hide Inv, Kept, Ids, NewWorker;
      config := Config(kind, minThreads, maxThreads);
      dataQueue, outQueue, freeWorkerNum, stop, nextId, accepted, confirmed := [], [], 0, false, 0, 0, 0;
      allWorkers, workers := {}, map[];
      history := Init(Config(kind, minThreads, maxThreads));
      new;
      InitHolds(config);
      StartKept(minThreads);
    }

    method StartKept(n: nat)
      requires allWorkers == {} && workers == map[] && nextId == 0
      modifies this`allWorkers, this`workers, this`nextId
      ensures allWorkers == Ids(n) && workers == Kept(n) && nextId == n
    {
      assert workers == Kept(0) && allWorkers == Ids(0);
      hide Kept, Ids, NewWorker;
      while nextId != n
        invariant nextId <= n && allWorkers == Ids(nextId) && workers == Kept(nextId)
        decreases n - nextId
        modifies this`allWorkers, this`workers, this`nextId
      {
        OneMoreKept(nextId);
        CreateWorker(true);
      }
    }

    method CreateWorker(keepInPool: bool)
      modifies this`allWorkers, this`workers, this`nextId
      ensures allWorkers == old(allWorkers) + {old(nextId)}
      ensures workers == old(workers)[old(nextId) := NewWorker(keepInPool)] && nextId == old(nextId) + 1
    {
      allWorkers := allWorkers + {nextId};
      workers := workers[nextId := NewWorker(keepInPool)];
      nextId := nextId + 1;
    }

    // ------------------------------------------------------------------ for callers

    /**
     Run: on a running pool the task is queued, and there are as many waiting workers as
     queued tasks, or a new worker, or as many workers as allowed; a stopped pool stays
     as it is.
     */
    method Submit()
      requires Valid() && View().resetting.None?
      modifies this
      ensures Valid() && View() == Next(config, old(View()), Run)
      ensures Submitted(config, old(View()), View())
    {
      ghost var s := View();
      hide Inv, Next, Submitted;
      NextKeeps(config, s, Run);
      SubmitMeans(config, s);
      if !stop {
        AddTask();
      } else {
        history := history.(created := history.created + 1,
          freed := if config.kind.Ex? then history.freed + [history.created] else history.freed);
      }
    }

    method AddTask()
      requires !stop
      modifies this
      ensures View() == Accept(config, old(View()))
    {
      hide Hired;
      if freeWorkerNum <= |dataQueue| && |allWorkers| < config.maxThreads {
        HireWorker();
      }
      dataQueue := dataQueue + [accepted];
      accepted := accepted + 1;
      history := history.(created := history.created + 1);
    }

    method HireWorker()
      modifies this`allWorkers, this`workers, this`nextId
      ensures View() == Hired(old(View()))
    {
      CreateWorker(false);
    }

    /**
     GetJobOutput from where its waits, if any, are over: the oldest result, of a task no
     other result is of, computed under a configuration as new as was promised.
     */
    method TakeOutput() returns (r: Option<Result>)
      requires Valid() && View().resetting.None?
      modifies this`outQueue, this`history
      ensures Valid() && View() == Next(config, old(View()), GetJobOutput)
      ensures r == if old(outQueue) == [] then None else Some(old(outQueue)[0])
      ensures r.Some? ==> r.value.floor <= r.value.ver && forall x | x in outQueue :: x.task != r.value.task
    {
      ghost var s := View();
      NextKeeps(config, s, GetJobOutput);
      if outQueue != [] { OutputMeans(config, s); }
      hide Inv;
      if outQueue == [] { return None; }
      r := Some(outQueue[0]);
      history := history.(delivered := history.delivered + [outQueue[0]]);
      outQueue := outQueue[1..];
    }

    /**
     The subtraction of size_t does not wrap: until the join the count bounds the tasks
     queued and executing, so 0 means there are none; afterwards it is what is queued.
     */
    method GetPendingTaskCount() returns (n: nat)
      requires Valid()
      ensures n == |dataQueue| + |allWorkers| - freeWorkerNum
      ensures !View().joined ==> n >= |dataQueue| + |Executing(workers)|
      ensures View().joined ==> n == |dataQueue|
    {
      ghost var s := View();
      if !s.joined { PendingBound(config, s); }
      n := Minus(|dataQueue| + |allWorkers|, freeWorkerNum);
    }

    /**
     ResetJobConfig from where it takes the lock, its configuration stored as version v:
     on a running pool every worker will process its next task under v or a later one.
     */
    method ResetJobConfig(v: nat)
      requires Valid() && View().resetting.None? && v in View().pending
      modifies this
      ensures Valid() && View().resetting.None? && stop == old(stop)
      ensures !stop ==> confirmed >= v && forall w | w in workers :: Fresh(workers[w], v)
      ensures exists actions :: View() == Steps(config, old(View()), actions)
    {
      hide Next, Inv;
      ghost var s := View();
      ghost var s1 := Next(config, s, BeginReset(v));
      ResetMeans(config, s, v);
      NextKeeps(config, s, BeginReset(v));
      StepsSnoc(config, s, [], BeginReset(v));
      if stop {
        history := history.(pending := history.pending - {v});
        return;
      }
      history := history.(pending := history.pending - {v}, resetting := Some(Reset(v, allWorkers)));
      assert View() == s1;
      ghost var flags := FlagWorkers();
      StepsKeep(config, s1, flags);
      ghost var s2 := View();
      EndMeans(config, s2);
      NextKeeps(config, s2, EndReset);
      StepsJoin(config, s, [BeginReset(v)], flags);
      StepsSnoc(config, s, [BeginReset(v)] + flags, EndReset);
      if confirmed < v { confirmed := v; }
      history := history.(resetting := None);
    }

    /** The loop of ResetJobConfig: every listed worker is flagged, and no other changes. */
    method FlagWorkers() returns (ghost flags: seq<Action>)
      requires View().resetting.Some? && View().resetting.value.todo == allWorkers && allWorkers <= workers.Keys
      modifies this`workers, this`history
      ensures View() == Steps(config, old(View()), flags)
      ensures View().resetting == Some(Reset(old(View()).resetting.value.ver, {}))
      ensures Flagged(old(workers), workers, allWorkers)
    {
      hide Next, Steps;
      var todo := allWorkers;
      flags := [];
      StepsNone(config, View());
      while todo != {}
        invariant todo <= allWorkers && workers.Keys == old(workers).Keys
        invariant Flagged(old(workers), workers, allWorkers - todo)
        invariant View().resetting == Some(Reset(old(View()).resetting.value.ver, todo))
        invariant View() == Steps(config, old(View()), flags)
        decreases todo
        modifies this`workers, this`history
      {
        var w :| w in todo;
        FlagTurn(old(workers), workers, allWorkers - todo, w);
        assert allWorkers - todo + {w} == allWorkers - (todo - {w});
        hide Flagged;
        StepsSnoc(config, old(View()), flags, FlagWorker(w));
        FlagMeans(config, View(), w);
        flags := flags + [FlagWorker(w)];
        workers := workers[w := workers[w].(reload := true)];
        todo := todo - {w};
        history := history.(resetting := Some(Reset(history.resetting.value.ver, todo)));
      }
      assert allWorkers - todo == allWorkers;
    }

    /**
     Stop once every worker it deletes has been joined: with a kept worker all accepted
     tasks have their one result, and ThreadPoolEx has freed every executor once.
     */
    method FinishStop()
      requires Valid() && stop && !View().joined
      requires forall w | w in allWorkers :: w in workers && Exited(workers[w].pc)
      modifies this
      ensures Valid() && View() == Next(config, old(View()), Join)
      ensures allWorkers == {} && freeWorkerNum == 0 && dataQueue == old(dataQueue)
      ensures config.minThreads > 0 ==> AllDone(View())
      ensures config.minThreads > 0 && config.kind.Ex? ==> EachFreedOnce(View())
    {
      ghost var s := View();
      hide Inv, AllDone, EachFreedOnce, Next;
      NextKeeps(config, s, Join);
      JoinMeans(config, s);
      allWorkers := {};
      freeWorkerNum := 0;
      history := history.(joined := true);
    }

    // -------------------------------------------------------------- for the workers

    /** A worker that has taken the lock for the first time, or again after freeing its executor. */
    method Enter(w: nat)
      requires Valid() && View().resetting.None? && w in workers && workers[w].pc.Locking?
      modifies this
      ensures Valid() && View() == Next(config, old(View()), Acquire(w))
      ensures CameRound(old(View()), View(), w) && WaitersRight(View())
    {
      ghost var s := View();
      hide Inv, CameRound, LoopTop, WaitersRight;
      NextKeeps(config, s, Acquire(w));
      EnterMeans(config, s, w);
      GoRound(w);
    }

    /**
     A waiting worker has the lock back: freeWorkerNum_ does not wrap and again counts the
     waiting ones; unless the worker is temporary and timed out it comes round the loop.
     */
    method Resume(w: nat, timeout: bool)
      requires Valid() && View().resetting.None? && w in workers && workers[w].pc.Waiting?
      modifies this
      ensures Valid() && View() == Next(config, old(View()), Wake(w, timeout))
      ensures Resumed(old(View()), View(), w, timeout) && WaitersRight(View())
    {
      ghost var s := View();
      hide Inv, Resumed, LoopTop, WaitersRight, Next;
      NextKeeps(config, s, Wake(w, timeout));
      ResumeMeans(config, s, w, timeout);
      if !workers[w].keep && timeout {
        if !stop {
          allWorkers := allWorkers - {w};
          freeWorkerNum := freeWorkerNum - 1;
          workers := workers[w := workers[w].(pc := Done)];
        } else {
          workers := workers[w := workers[w].(pc := TimedOutStopped)];
        }
        return;
      }
      freeWorkerNum := freeWorkerNum - 1;
      GoRound(w);
    }

    /**
     A worker has processed its task and has the lock: the first and only result of that
     task goes out, under a configuration as new as promised; a ThreadPool worker comes
     round at once, a ThreadPoolEx worker still has the executor to free.
     */
    method Deliver(w: nat)
      requires Valid() && View().resetting.None? && w in workers && workers[w].pc.Processing?
      modifies this
      ensures Valid() && View() == Next(config, old(View()), Finish(w))
      ensures Delivered(config, old(View()), View(), w)
    {
      ghost var s := View();
      hide Inv, Delivered, LoopTop, Next;
      NextKeeps(config, s, Finish(w));
      DeliverMeans(config, s, w);
      var wk := workers[w];
      outQueue := outQueue + [Result(wk.pc.task, wk.jobVer, wk.pc.floor)];
      if config.kind.Ex? {
        workers := workers[w := wk.(pc := Freeing(wk.pc.task))];
      } else {
        GoRound(w);
      }
    }

    /** The top of the worker's loop, holding the lock. */
    method GoRound(w: nat)
      requires w in workers
      modifies this
      ensures View() == LoopTop(old(View()), w)
    {
      if |dataQueue| == 0 {
        if stop {
          workers := workers[w := workers[w].(pc := Done)];
          return;
        }
        freeWorkerNum := freeWorkerNum + 1;
        workers := workers[w := workers[w].(pc := Waiting)];
        return;
      }
      var task := dataQueue[0];
      dataQueue := dataQueue[1..];
      workers := workers[w := workers[w].(pc := Fetched(task, confirmed))];
      history := history.(dequeued := history.dequeued + 1);
    }
  }

  /** Subtraction of size_t. */
  function Minus(a: nat, b: nat): nat { if a >= b then a - b else (a - b) % 0x1_0000_0000_0000_0000 }

  // ------------------------------------------------------- what the steps mean

  lemma WaitersCounted(c: Config, s: State)
    requires Inv(c, s)
    ensures WaitersRight(s)
  {
    hide ConfigInv, DrainInv, Owned, Conserved;
    if !s.stop { assert InWait(s.ws) == CountedIn(s.all, s.ws); }
  }

  lemma RoomToHire(c: Config, s: State)
    requires WorkerInv(c, s)
    ensures s.nextId !in s.ws && |s.all| <= c.maxThreads
  {
  }

  lemma SubmitMeans(c: Config, s: State)
    requires Inv(c, s) && s.resetting.None?
    ensures s.stop ==>
              Next(c, s, Run) == s.(created := s.created + 1,
                                    freed := if c.kind.Ex? then s.freed + [s.created] else s.freed)
    ensures !s.stop ==> Next(c, s, Run) == Accept(c, s)
    ensures Submitted(c, s, Next(c, s, Run))
  {
    hide Inv, WorkerInv, QueueInv, OnePlaceEach, InWait;
    NextKeeps(c, s, Run);
    InvMeans(c, s);
    InvMeans(c, Next(c, s, Run));
    RoomToHire(c, s);
    WaitersCounted(c, s);
  }

  lemma JoinMeans(c: Config, s: State)
    requires Inv(c, s) && s.stop && !s.joined
    requires forall w | w in s.all :: w in s.ws && Exited(s.ws[w].pc)
    ensures var s' := Next(c, s, Join);
      && s' == s.(all := {}, free := 0, joined := true)
      && (c.minThreads > 0 ==> AllDone(s') && (c.kind.Ex? ==> EachFreedOnce(s')))
  {
    hide Inv, AllDone, EachFreedOnce;
    var s' := Next(c, s, Join);
    NextKeeps(c, s, Join);
    if c.minThreads > 0 {
      JoinedIsDone(c, s');
      if c.kind.Ex? { JoinedIsFreed(c, s'); }
    }
  }

  lemma OutputMeans(c: Config, s: State)
    requires Inv(c, s) && s.out != []
    ensures s.out[0].floor <= s.out[0].ver && forall x | x in s.out[1..] :: x.task != s.out[0].task
  {
    hide WorkerInv, DrainInv, Owned;
    var all, d := s.delivered + s.out, |s.delivered|;
    forall x | x in s.out[1..] ensures x.task != s.out[0].task {
      var i :| 1 <= i < |s.out| && s.out[i] == x;
      assert DoneTasks(s)[d] == all[d].task && DoneTasks(s)[d + i] == all[d + i].task;
    }
  }

  lemma LoopTopMeans(s: State, w: nat)
    requires QueueInv(s.queue, s.dequeued, s.accepted) && w in s.ws
    ensures CameRound(s, LoopTop(s, w), w)
  {
  }

  lemma CameRoundSame(s: State, s1: State, s': State, w: nat)
    requires CameRound(s1, s', w)
    requires s1.queue == s.queue && s1.stop == s.stop && s1.dequeued == s.dequeued && s1.confirmed == s.confirmed
    ensures CameRound(s, s', w)
  {
  }

  lemma EnterMeans(c: Config, s: State, w: nat)
    requires Inv(c, s) && s.resetting.None? && w in s.ws && s.ws[w].pc.Locking?
    ensures Next(c, s, Acquire(w)) == LoopTop(s, w)
    ensures CameRound(s, LoopTop(s, w), w) && WaitersRight(LoopTop(s, w))
  {
    hide Inv, LoopTop, CameRound, WaitersRight, QueueInv, WorkerInv;
    NextKeeps(c, s, Acquire(w));
    InvMeans(c, s);
    LoopTopMeans(s, w);
    WaitersCounted(c, LoopTop(s, w));
  }

  lemma ResumeMeans(c: Config, s: State, w: nat, timeout: bool)
    requires Inv(c, s) && s.resetting.None? && w in s.ws && s.ws[w].pc.Waiting?
    ensures s.free > 0 && Next(c, s, Wake(w, timeout)) == Awake(s, w, timeout)
    ensures Resumed(s, Awake(s, w, timeout), w, timeout) && WaitersRight(Awake(s, w, timeout))
  {
    hide Inv, LoopTop, CameRound, WaitersRight, QueueInv, WorkerInv;
    NextKeeps(c, s, Wake(w, timeout));
    InvMeans(c, s);
    WaitingIsCounted(c, s, w);
    var s1 := s.(free := Dec(s.free));
    LoopTopMeans(s1, w);
    CameRoundSame(s, s1, LoopTop(s1, w), w);
    WaitersCounted(c, Awake(s, w, timeout));
    CameRoundListed(s1, w);
  }

  lemma CameRoundListed(s: State, w: nat)
    requires w in s.ws
    ensures w in LoopTop(s, w).ws
  {
  }

  lemma DeliverMeans(c: Config, s: State, w: nat)
    requires Inv(c, s) && s.resetting.None? && w in s.ws && s.ws[w].pc.Processing?
    ensures Next(c, s, Finish(w)) == PushResult(c, s, w) && Delivered(c, s, PushResult(c, s, w), w)
  {
    hide Inv, LoopTop, CameRound, OnePlaceEach, DoneTasks, QueueInv, WorkerInv;
    NextKeeps(c, s, Finish(w));
    ProcessedMeans(c, s, w);
    InvMeans(c, s);
    var s1 := s.(out := s.out + [Result(s.ws[w].pc.task, s.ws[w].jobVer, s.ws[w].pc.floor)]);
    LoopTopMeans(s1, w);
    CameRoundSame(s, s1, LoopTop(s1, w), w);
    CameRoundListed(s1, w);
    LoopTopOut(s1, w);
    InvMeans(c, PushResult(c, s, w));
  }

  lemma InvMeans(c: Config, s: State)
    requires Inv(c, s)
    ensures OnePlaceEach(s) && WorkerInv(c, s) && QueueInv(s.queue, s.dequeued, s.accepted)
  {
    hide WorkerInv, ConfigInv, DrainInv, Owned, OnePlaceEach, TaskInv, QueueInv;
    ConservedMeans(s);
  }

  /** A task being processed has no result yet, and its configuration is as new as promised. */
  lemma ProcessedMeans(c: Config, s: State, w: nat)
    requires Inv(c, s) && w in s.ws && s.ws[w].pc.Processing?
    ensures s.ws[w].pc.floor <= s.ws[w].jobVer && s.ws[w].pc.task !in DoneTasks(s)
  {
    hide WorkerInv, DrainInv, Owned, DoneTasks;
    assert UpToDate(s.ws[w], s.confirmed);
  }

  // ------------------------------------------------------- ResetJobConfig's run

  lemma ResetMeans(c: Config, s: State, v: nat)
    requires Inv(c, s) && s.resetting.None? && v in s.pending
    ensures s.all <= s.ws.Keys
    ensures Next(c, s, BeginReset(v))
         == if s.stop then s.(pending := s.pending - {v})
            else s.(pending := s.pending - {v}, resetting := Some(Reset(v, s.all)))
  {
  }

  lemma FlagMeans(c: Config, s: State, w: nat)
    requires s.resetting.Some? && w in s.resetting.value.todo && w in s.ws
    ensures Next(c, s, FlagWorker(w))
         == s.(ws := s.ws[w := s.ws[w].(reload := true)],
               resetting := Some(Reset(s.resetting.value.ver, s.resetting.value.todo - {w})))
  {
  }

  lemma FlagTurn(before: map<nat, Worker>, ws: map<nat, Worker>, done: set<nat>, w: nat)
    requires Flagged(before, ws, done) && w in ws && w !in done
    ensures Flagged(before, ws[w := ws[w].(reload := true)], done + {w})
  {
  }

  lemma EndMeans(c: Config, s: State)
    requires Inv(c, s) && s.resetting.Some? && s.resetting.value.todo == {}
    ensures var v := s.resetting.value.ver;
      && Next(c, s, EndReset) == s.(resetting := None, confirmed := if s.confirmed < v then v else s.confirmed)
      && forall w | w in s.ws :: Fresh(s.ws[w], v)
  {
    hide WorkerInv, DrainInv, Owned, Conserved;
  }

  lemma {:induction false} StepsKeep(c: Config, s: State, actions: seq<Action>)
    requires Inv(c, s)
    ensures Inv(c, Steps(c, s, actions))
    decreases |actions|
  {
    hide Inv, Next;
    if actions != [] {
      var n := |actions| - 1;
      StepsKeep(c, s, actions[..n]);
      NextKeeps(c, Steps(c, s, actions[..n]), actions[n]);
    }
  }

  lemma StepsNone(c: Config, s: State)
    ensures Steps(c, s, []) == s
  {
  }

  lemma StepsSnoc(c: Config, s: State, actions: seq<Action>, a: Action)
    ensures Steps(c, s, actions + [a]) == Next(c, Steps(c, s, actions), a)
  {
    assert (actions + [a])[..|actions|] == actions;
  }

  lemma {:induction false} StepsJoin(c: Config, s: State, before: seq<Action>, after: seq<Action>)
    ensures Steps(c, s, before + after) == Steps(c, Steps(c, s, before), after)
    decreases |after|
  {
    hide Next;
    if after == [] {
      assert before + after == before;
    } else {
      var n := |after| - 1;
      assert (before + after)[..|before| + n] == before + after[..n];
      StepsJoin(c, s, before, after[..n]);
    }
  }
}
