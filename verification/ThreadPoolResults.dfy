/** The promises of the thread pools, for every run. */
module ThreadPoolResults {
  import opened Wrappers
  import opened ThreadPool
  import opened ThreadPoolRuns

  // ---------------------------------------------------------------- conservation

  ghost function Executing(ws: map<nat, Worker>): set<nat> { set w | w in ws && HasTask(ws[w].pc) }

  /** As many tasks as workers when no two workers have the same. */
  lemma {:induction false} OneTaskEach(m: map<nat, nat>)
    requires forall v, w | v in m && w in m && v != w :: m[v] != m[w]
    ensures |m.Values| == |m|
    decreases |m|
  {
    if m == map[] {
      assert m.Values == {};
    } else {
      var w :| w in m;
      var rest := m - {w};
      assert |rest| == |m| - 1 by { assert rest.Keys == m.Keys - {w}; }
      OneTaskEach(rest);
      forall t ensures t in m.Values <==> t in rest.Values + {m[w]} {
        if v :| v in m && m[v] == t && v != w { assert v in rest && rest[v] == t; }
      }
      assert m.Values == rest.Values + {m[w]};
    }
  }

  lemma {:induction false} DistinctSize(s: seq<nat>, members: set<nat>)
    requires Distinct(s) && forall t :: t in members <==> t in s
    ensures |members| == |s|
    decreases |s|
  {
    if s == [] {
      assert members == {};
    } else {
      var n := |s| - 1;
      forall t ensures t in members - {s[n]} <==> t in s[..n] {
        if t in s && t != s[n] { var i :| 0 <= i < |s| && s[i] == t; assert s[..n][i] == t; }
      }
      DistinctSize(s[..n], members - {s[n]});
      assert members == members - {s[n]} + {s[n]};
    }
  }

  lemma BusySize(ws: map<nat, Worker>)
    requires forall v, w | v in ws && w in ws && v != w && HasTask(ws[v].pc) && HasTask(ws[w].pc) ::
               ws[v].pc.task != ws[w].pc.task
    ensures |Busy(ws)| == |Executing(ws)|
  {
    var m := map w | w in Executing(ws) :: ws[w].pc.task;
    forall t | t in Busy(ws) ensures t in m.Values {
      var w :| w in ws && HasTask(ws[w].pc) && ws[w].pc.task == t;
      assert w in m && m[w] == t;
    }
    assert m.Values == Busy(ws);
    assert m.Keys == Executing(ws);
    OneTaskEach(m);
  }

  lemma DequeuedSize(ws: map<nat, Worker>, done: seq<nat>, dequeued: nat)
    requires TaskInv(ws, done, dequeued)
    ensures dequeued == |Executing(ws)| + |done|
  {
    var busy, finished := Busy(ws), set t | t in done;
    assert Ids(dequeued) == busy + finished;
    assert busy !! finished;
    BusySize(ws);
    DistinctSize(done, finished);
  }

  /**
   Each accepted task is in exactly one place: queued in order, with one worker, or once
   among the results.
   */
  ghost predicate OnePlaceEach(s: State) {
    && s.accepted == |s.queue| + |Executing(s.ws)| + |s.out| + |s.delivered|
    && s.accepted == s.dequeued + |s.queue| && (forall i | 0 <= i < |s.queue| :: s.queue[i] == s.dequeued + i)
    && Distinct(DoneTasks(s))
    && (forall w | w in Executing(s.ws) :: s.ws[w].pc.task < s.dequeued && s.ws[w].pc.task !in DoneTasks(s))
    && (forall v, w | v in Executing(s.ws) && w in Executing(s.ws) && v != w :: s.ws[v].pc.task != s.ws[w].pc.task)
    && (forall t: nat | t < s.dequeued :: t in DoneTasks(s) || exists w :: w in Executing(s.ws) && s.ws[w].pc.task == t)
  }

  lemma ConservedMeans(s: State)
    requires Conserved(s)
    ensures OnePlaceEach(s)
  {
    DequeuedSize(s.ws, DoneTasks(s), s.dequeued);
    forall t: nat | t < s.dequeued && t !in DoneTasks(s)
      ensures exists w :: w in Executing(s.ws) && s.ws[w].pc.task == t
    {
      var w :| w in s.ws && HasTask(s.ws[w].pc) && s.ws[w].pc.task == t;
      assert w in Executing(s.ws);
    }
  }

  /** On every run tasks are conserved. */
  lemma TasksConserved(c: Config, s: State)
    requires ValidConfig(c) && Reachable(c, s)
    ensures OnePlaceEach(s)
  {
    ReachableKeeps(c, s);
    hide WorkerInv, ConfigInv, DrainInv, Owned, Reachable, Conserved, OnePlaceEach;
    ConservedMeans(s);
  }

  /** Worker w holds a task in the second state that it did not hold in the first. */
  ghost predicate Took(s: State, s': State, w: nat) {
    && w in s'.ws && HasTask(s'.ws[w].pc)
    && (w in s.ws && HasTask(s.ws[w].pc) ==> s.ws[w].pc.task != s'.ws[w].pc.task)
  }

  ghost predicate TookOldest(s: State, s': State, w: nat)
    requires w in s'.ws && HasTask(s'.ws[w].pc)
  {
    && s'.ws[w].pc.task == s.dequeued && s'.dequeued == s.dequeued + 1
    && s.queue != [] && s.queue[0] == s.dequeued && s'.queue == s.queue[1..]
  }

  lemma LoopTopFetches(s: State, w: nat, v: nat)
    requires QueueInv(s.queue, s.dequeued, s.accepted) && w in s.ws
    ensures Took(s, LoopTop(s, w), v) ==> TookOldest(s, LoopTop(s, w), v)
  {
  }

  lemma LockedFetches(c: Config, s: State, a: Action, w: nat)
    requires QueueInv(s.queue, s.dequeued, s.accepted) && (a.Acquire? || a.Wake? || a.Finish?)
    ensures Took(s, Next(c, s, a), w) ==> TookOldest(s, Next(c, s, a), w)
  {
    hide LoopTop;
    if a.w in s.ws {
      var wk := s.ws[a.w];
      LoopTopFetches(s, a.w, w);
      LoopTopFetches(s.(free := Dec(s.free)), a.w, w);
      if wk.pc.Processing? {
        LoopTopFetches(s.(out := s.out + [Result(wk.pc.task, wk.jobVer, wk.pc.floor)]), a.w, w);
      }
    }
  }

  lemma OthersFetchNone(c: Config, s: State, a: Action, w: nat)
    requires !(a.Acquire? || a.Wake? || a.Finish?)
    ensures !Took(s, Next(c, s, a), w)
  {
    hide LoopTop, Awake, PushResult;
    match a {
      case Run =>
      case StartWorker(v) =>
      case Exchange(v) =>
      case Reload(v) =>
      case FreeTask(v) =>
      case FlagWorker(v) =>
      case _ =>
    }
  }

  /** A worker that comes to hold a task took the oldest one, and no step takes two. */
  lemma FetchInOrder(c: Config, s: State, a: Action, w: nat)
    requires ValidConfig(c) && Reachable(c, s) && Took(s, Next(c, s, a), w)
    ensures TookOldest(s, Next(c, s, a), w)
  {
    ReachableKeeps(c, s);
    hide Next, Reachable, WorkerInv, ConfigInv, DrainInv, Owned, TaskInv, QueueInv, TookOldest;
    if a.Acquire? || a.Wake? || a.Finish? {
      LockedFetches(c, s, a, w);
    } else {
      OthersFetchNone(c, s, a, w);
    }
  }

  // --------------------------------------------------------------------- Stop

  /** Every accepted task has exactly one result, and none is queued. */
  ghost predicate AllDone(s: State) {
    && s.queue == [] && |s.out| + |s.delivered| == s.accepted
    && Distinct(DoneTasks(s)) && forall t: nat :: t < s.accepted <==> t in DoneTasks(s)
  }

  lemma JoinedIsDone(c: Config, s: State)
    requires Inv(c, s) && c.minThreads > 0 && s.joined
    ensures AllDone(s)
  {
    hide ConfigInv, Owned, CountedIn;
    assert Executing(s.ws) == {};
    ConservedMeans(s);
  }

  /** When Stop has joined the workers of a pool that keeps one, every accepted task has exactly one result. */
  lemma StopDrains(c: Config, s: State)
    requires ValidConfig(c) && Reachable(c, s) && c.minThreads > 0 && s.joined
    ensures AllDone(s)
  {
    ReachableKeeps(c, s);
    hide Inv, Reachable, AllDone;
    JoinedIsDone(c, s);
  }

  /** A run in which the only worker times out just after a task was queued for it. */
  const Stranding: seq<Action> :=
    [Run, StartWorker(0), Acquire(0), Exchange(0), Finish(0), FreeTask(0), Acquire(0), Run, Wake(0, true), Stop, Join]

  lemma {:induction false} ExecuteFrom(c: Config, actions: seq<Action>, k: nat)
    requires k < |actions|
    ensures Execute(c, actions[..k + 1]) == Next(c, Execute(c, actions[..k]), actions[k])
  {
    assert actions[..k + 1][..k] == actions[..k];
  }

  /** One worker at most, not a kept one. */
  ghost predicate Alone(c: Config, s: State, queued: nat, free: nat) {
    && !s.stop && !s.joined && s.resetting.None?
    && (c.maxThreads == 0 ==> s.all == {} && s.ws == map[])
    && (c.maxThreads > 0 ==>
          && s.all == {0} && s.ws.Keys == {0} && !s.ws[0].keep && !s.ws[0].reload
          && |s.queue| == queued && s.free == free)
  }

  lemma StrandingRun(c: Config)
    requires c.minThreads == 0
    ensures var s := Execute(c, Stranding[..1]); Alone(c, s, 1, 0) && (c.maxThreads > 0 ==> s.ws[0].pc.Starting?)
  {
    assert Execute(c, Stranding[..0]) == Init(c);
    hide Execute;
    assert Ids(0) == {};
    ExecuteFrom(c, Stranding, 0);
  }

  lemma StrandingFetched(c: Config)
    requires c.minThreads == 0
    ensures var s := Execute(c, Stranding[..4]); Alone(c, s, 0, 0) && (c.maxThreads > 0 ==> s.ws[0].pc.Processing?)
  {
    hide Execute;
    StrandingRun(c);
    ExecuteFrom(c, Stranding, 1);
    ExecuteFrom(c, Stranding, 2);
    ExecuteFrom(c, Stranding, 3);
  }

  lemma StrandingFinished(c: Config)
    requires c.minThreads == 0
    ensures var s := Execute(c, Stranding[..5]);
      if c.kind.Ex? then Alone(c, s, 0, 0) && (c.maxThreads > 0 ==> s.ws[0].pc.Freeing?)
      else Alone(c, s, 0, 1) && (c.maxThreads > 0 ==> s.ws[0].pc.Waiting?)
  {
    hide Execute;
    StrandingFetched(c);
    ExecuteFrom(c, Stranding, 4);
  }

  lemma StrandingIdle(c: Config)
    requires c.minThreads == 0
    ensures var s := Execute(c, Stranding[..7]); Alone(c, s, 0, 1) && (c.maxThreads > 0 ==> s.ws[0].pc.Waiting?)
  {
    hide Execute;
    StrandingFinished(c);
    ExecuteFrom(c, Stranding, 5);
    ExecuteFrom(c, Stranding, 6);
  }

  lemma Stranded(c: Config)
    requires c.minThreads == 0
    ensures var s := Execute(c, Stranding); s.joined && s.queue != []
  {
    hide Execute;
    StrandingIdle(c);
    ExecuteFrom(c, Stranding, 7);
    ExecuteFrom(c, Stranding, 8);
    ExecuteFrom(c, Stranding, 9);
    ExecuteFrom(c, Stranding, 10);
    assert Stranding[..11] == Stranding;
  }

  /** Stop drains the queue on every run exactly when the pool keeps at least one worker. */
  lemma DrainsIffOneKept(c: Config)
    requires ValidConfig(c)
    ensures c.minThreads > 0 <==> forall s | Reachable(c, s) && s.joined :: s.queue == []
  {
    if c.minThreads > 0 {
      forall s | Reachable(c, s) && s.joined ensures s.queue == [] { StopDrains(c, s); }
    } else {
      Stranded(c);
      hide Execute;
      assert Reachable(c, Execute(c, Stranding));
    }
  }

  /** ThreadPoolEx: no executor that is queued or running has been freed, and none is freed twice. */
  lemma NoUseAfterFree(c: Config, s: State)
    requires ValidConfig(c) && Reachable(c, s) && c.kind.Ex?
    ensures Distinct(s.freed)
    ensures forall t | t in s.queue :: t !in s.freed
    ensures forall w | w in s.ws && (HasTask(s.ws[w].pc) || s.ws[w].pc.Freeing?) :: s.ws[w].pc.task !in s.freed
  {
    ReachableKeeps(c, s);
    hide CountedIn;
    assert Owned(s) && Conserved(s);
  }

  ghost predicate EachFreedOnce(s: State) {
    Distinct(s.freed) && forall t: nat :: t < s.created <==> t in s.freed
  }

  lemma JoinedIsFreed(c: Config, s: State)
    requires Inv(c, s) && c.kind.Ex? && c.minThreads > 0 && s.joined
    ensures EachFreedOnce(s)
  {
    JoinedIsDone(c, s);
    hide CountedIn, ConfigInv, DrainInv;
    assert ToFree(s.ws) == {};
  }

  /** ThreadPoolEx: after the join every executor ever made, refused ones included, was freed exactly once. */
  lemma AllFreed(c: Config, s: State)
    requires ValidConfig(c) && Reachable(c, s) && c.kind.Ex? && c.minThreads > 0 && s.joined
    ensures EachFreedOnce(s)
  {
    ReachableKeeps(c, s);
    hide Inv, Reachable, EachFreedOnce;
    JoinedIsFreed(c, s);
  }

  // ---------------------------------------------------------- configuration

  /** Tasks numbered from `first` on are processed under version v or later. */
  ghost predicate Promised(s: State, first: nat, v: nat) {
    && v <= s.confirmed
    && first <= s.dequeued
    && (forall w | w in s.ws && HasTask(s.ws[w].pc) && first <= s.ws[w].pc.task :: v <= s.ws[w].pc.floor)
    && (forall r | (r in s.out || r in s.delivered) && first <= r.task :: v <= r.floor)
  }

  lemma PromiseMade(s: State)
    requires Conserved(s)
    ensures Promised(s, s.dequeued, s.confirmed)
  {
    var all := s.delivered + s.out;
    forall r | r in s.out || r in s.delivered ensures r.task < s.dequeued {
      assert r in all;
      var i :| 0 <= i < |all| && all[i] == r;
      assert DoneTasks(s)[i] == r.task;
      assert r.task in DoneTasks(s);
    }
  }

  lemma PromiseLoopTop(s: State, w: nat, first: nat, v: nat)
    requires Promised(s, first, v) && w in s.ws
    ensures Promised(LoopTop(s, w), first, v)
  {
  }

  lemma PromiseFinish(c: Config, s: State, w: nat, first: nat, v: nat)
    requires Promised(s, first, v) && w in s.ws && s.ws[w].pc.Processing?
    ensures Promised(PushResult(c, s, w), first, v)
  {
    hide LoopTop;
    var wk := s.ws[w];
    var s1 := s.(out := s.out + [Result(wk.pc.task, wk.jobVer, wk.pc.floor)]);
    assert Promised(s1, first, v);
    PromiseLoopTop(s1, w, first, v);
  }

  lemma PromiseAccept(c: Config, s: State, first: nat, v: nat)
    requires Promised(s, first, v)
    ensures Promised(Accept(c, s), first, v)
  {
  }

  lemma PromiseKept(c: Config, s: State, a: Action, first: nat, v: nat)
    requires Promised(s, first, v)
    ensures Promised(Next(c, s, a), first, v)
  {
    hide LoopTop, PushResult, Accept, Awake, Promised;
    match a
    case Run =>
      if s.stop || s.resetting.Some? { PromiseQuiet(c, s, a, first, v); } else { PromiseAccept(c, s, first, v); }
    case Acquire(w) => if w in s.ws { PromiseLoopTop(s, w, first, v); }
    case Wake(w, timeout) => if w in s.ws { PromiseAwake(s, w, timeout, first, v); }
    case Finish(w) => if w in s.ws && s.ws[w].pc.Processing? { PromiseFinish(c, s, w, first, v); }
    case _ => PromiseQuiet(c, s, a, first, v);
  }

  lemma PromiseAwake(s: State, w: nat, timeout: bool, first: nat, v: nat)
    requires Promised(s, first, v) && w in s.ws
    ensures Promised(Awake(s, w, timeout), first, v)
  {
    hide LoopTop;
    PromiseLoopTop(s.(free := Dec(s.free)), w, first, v);
  }

  /** Steps that neither fetch nor finish a task. */
  lemma PromiseQuiet(c: Config, s: State, a: Action, first: nat, v: nat)
    requires Promised(s, first, v) && !(a.Acquire? || a.Wake? || a.Finish?) && (a.Run? ==> s.stop || s.resetting.Some?)
    ensures Promised(Next(c, s, a), first, v)
  {
    hide LoopTop, PushResult, Accept, Awake;
  }

  lemma ExecuteSnoc(c: Config, actions: seq<Action>, a: Action)
    ensures Execute(c, actions + [a]) == Next(c, Execute(c, actions), a)
  {
    assert (actions + [a])[..|actions|] == actions;
  }

  lemma PromiseNow(c: Config, actions: seq<Action>)
    requires ValidConfig(c)
    ensures var s := Execute(c, actions); Promised(s, s.dequeued, s.confirmed)
  {
    hide Execute, Promised, WorkerInv, ConfigInv, Owned, DrainInv;
    RunKeeps(c, actions);
    PromiseMade(Execute(c, actions));
  }

  lemma {:induction false} PromiseHolds(c: Config, before: seq<Action>, after: seq<Action>)
    requires ValidConfig(c)
    ensures var s := Execute(c, before); Promised(Execute(c, before + after), s.dequeued, s.confirmed)
    decreases |after|
  {
    hide Execute, Promised, Next;
    var s := Execute(c, before);
    if after == [] {
      assert before + after == before;
      PromiseNow(c, before);
    } else {
      var n := |after| - 1;
      PromiseHolds(c, before, after[..n]);
      ExecuteSnoc(c, before + after[..n], after[n]);
      assert before + after[..n] + [after[n]] == before + after;
      PromiseKept(c, Execute(c, before + after[..n]), after[n], s.dequeued, s.confirmed);
    }
  }

  /**
   A task fetched after ResetJobConfig for version v returned on a running pool is processed
   under v or a later version, whatever the run did before and does after.
   */
  lemma ResetTakesEffect(c: Config, before: seq<Action>, after: seq<Action>, r: Result)
    requires ValidConfig(c)
    ensures var s, s2 := Execute(c, before), Execute(c, before + [EndReset] + after);
      s.resetting.Some? && s.resetting.value.todo == {} && (r in s2.out || r in s2.delivered) && r.task >= s.dequeued
      ==> r.ver >= s.resetting.value.ver
  {
    hide Execute, WorkerInv, Conserved, Owned, DrainInv, LoopTop, Awake, PushResult, Accept;
    var returned := before + [EndReset];
    ExecuteSnoc(c, before, EndReset);
    PromiseHolds(c, returned, after);
    RunKeeps(c, returned + after);
  }

  /** What a step may do to the configuration and the reload flag of a worker that is there already. */
  ghost predicate ReloadKept(s: State, s': State, a: Action, w: nat)
    requires w in s.ws
  {
    && w in s'.ws
    && (var wk, wk' := s.ws[w], s'.ws[w];
        && wk'.keep == wk.keep
        && (wk'.jobVer != wk.jobVer ==>
              wk'.jobVer == s.ver && ((a == StartWorker(w) && wk.pc.Starting?) || (a == Reload(w) && wk.pc.Reloading?)))
        && (wk'.reload && !wk.reload ==> a == FlagWorker(w))
        && (wk.reload && !wk'.reload ==> a == Exchange(w) && wk'.pc.Reloading?)
        && (a == Exchange(w) && wk.pc.Fetched? ==>
              !wk'.reload && (wk'.pc.Reloading? <==> wk.reload) && (wk'.pc.Processing? <==> !wk.reload)))
  }

  ghost predicate SameReload(s: State, s': State, w: nat)
    requires w in s.ws
  {
    && w in s'.ws && s'.ws[w].keep == s.ws[w].keep
    && s'.ws[w].jobVer == s.ws[w].jobVer && s'.ws[w].reload == s.ws[w].reload
  }

  lemma LoopTopReload(s: State, v: nat, w: nat)
    requires v in s.ws && w in s.ws
    ensures SameReload(s, LoopTop(s, v), w)
  {
  }

  lemma AwakeReload(s: State, v: nat, timeout: bool, w: nat)
    requires v in s.ws && w in s.ws
    ensures SameReload(s, Awake(s, v, timeout), w)
  {
    hide LoopTop;
    LoopTopReload(s.(free := Dec(s.free)), v, w);
  }

  lemma FinishReload(c: Config, s: State, v: nat, w: nat)
    requires v in s.ws && s.ws[v].pc.Processing? && w in s.ws
    ensures SameReload(s, PushResult(c, s, v), w)
  {
    hide LoopTop;
    var wk := s.ws[v];
    LoopTopReload(s.(out := s.out + [Result(wk.pc.task, wk.jobVer, wk.pc.floor)]), v, w);
  }

  lemma LockedReload(c: Config, s: State, a: Action, w: nat)
    requires w in s.ws && (a.Acquire? || a.Wake? || a.Finish?)
    ensures ReloadKept(s, Next(c, s, a), a, w)
  {
    hide LoopTop, Awake, PushResult;
    if Next(c, s, a) != s {
      match a {
        case Acquire(v) => LoopTopReload(s, v, w);
        case Wake(v, timeout) => AwakeReload(s, v, timeout, w);
        case Finish(v) => FinishReload(c, s, v, w);
      }
    }
  }

  lemma OtherReload(c: Config, s: State, a: Action, w: nat)
    requires w in s.ws && s.nextId !in s.ws && !(a.Acquire? || a.Wake? || a.Finish?)
    ensures ReloadKept(s, Next(c, s, a), a, w)
  {
    hide LoopTop, Awake, PushResult;
    match a {
      case Run =>
      case StartWorker(v) =>
      case Exchange(v) =>
      case Reload(v) =>
      case FreeTask(v) =>
      case FlagWorker(v) =>
      case _ =>
    }
  }

  /**
   On every run a worker changes its configuration only when it starts or reloads, then to
   the newest; it reloads exactly when it fetched a task with its flag up, which takes the
   flag down; and only ResetJobConfig puts the flag up.
   */
  lemma ReloadIffFlagged(c: Config, s: State, a: Action, w: nat)
    requires ValidConfig(c) && Reachable(c, s) && w in s.ws
    ensures ReloadKept(s, Next(c, s, a), a, w)
  {
    ReachableKeeps(c, s);
    hide Next, Reachable, ReloadKept, ConfigInv, Conserved, DrainInv, Owned;
    if a.Acquire? || a.Wake? || a.Finish? { LockedReload(c, s, a, w); } else { OtherReload(c, s, a, w); }
  }

  // ------------------------------------------------------------------ counters

  ghost function InWait(ws: map<nat, Worker>): set<nat> { set w | w in ws && ws[w].pc.Waiting? }

  lemma PendingBound(c: Config, s: State)
    requires WorkerInv(c, s) && !s.joined
    ensures PendingCount(s) >= |s.queue| + |Executing(s.ws)|
  {
    var counted := CountedIn(s.all, s.ws);
    assert Executing(s.ws) <= s.all - counted;
    SubsetSize(Executing(s.ws), s.all - counted);
    assert counted <= s.all;
  }

  /** The worker limit, freeWorkerNum_ and GetPendingTaskCount. */
  lemma CountersRight(c: Config, s: State)
    requires ValidConfig(c) && Reachable(c, s)
    ensures |s.all| <= c.maxThreads
    ensures !s.stop ==> s.free == |InWait(s.ws)|
    ensures !s.joined ==> PendingCount(s) >= |s.queue| + |Executing(s.ws)|
  {
    ReachableKeeps(c, s);
    hide ConfigInv, DrainInv, Owned, Reachable, Conserved, Executing, PendingCount;
    if !s.stop { assert InWait(s.ws) == CountedIn(s.all, s.ws); }
    if !s.joined { PendingBound(c, s); }
  }

  lemma {:induction false} SubsetSize(a: set<nat>, b: set<nat>)
    requires a <= b
    ensures |a| <= |b|
    decreases a
  {
    if x :| x in a { SubsetSize(a - {x}, b - {x}); }
  }

}
