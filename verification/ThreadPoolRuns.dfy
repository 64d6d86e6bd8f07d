/**
 What holds over every run of a thread pool: configuration freshness, draining at Stop,
 executor ownership, and the counters.
 */
module ThreadPoolRuns {
  import opened Wrappers
  import opened ThreadPool

  // ------------------------------------------------------- configuration freshness

  /** The worker will process its next task under version v or a later one. */
  predicate Fresh(wk: Worker, v: nat) {
    wk.reload || wk.jobVer >= v || wk.pc.Starting? || wk.pc.Reloading? || Exited(wk.pc)
  }

  predicate UpToDate(wk: Worker, confirmed: nat) {
    && Fresh(wk, confirmed)
    && (HasTask(wk.pc) ==> wk.pc.floor <= confirmed)
    && (wk.pc.Processing? ==> wk.pc.floor <= wk.jobVer)
  }

  ghost predicate ConfigInv(s: State) {
    && s.confirmed <= s.ver
    && (forall v | v in s.pending :: v <= s.ver)
    && (s.resetting.Some? ==>
          && s.resetting.value.ver <= s.ver
          && forall w | w in s.ws && w !in s.resetting.value.todo :: Fresh(s.ws[w], s.resetting.value.ver))
    && (forall w | w in s.ws :: UpToDate(s.ws[w], s.confirmed))
    && (forall r | r in s.out || r in s.delivered :: r.floor <= r.ver)
  }

  lemma LoopTopConfig(s: State, w: nat)
    requires ConfigInv(s) && w in s.ws && s.resetting.None? && !s.ws[w].pc.Starting? && !s.ws[w].pc.Reloading?
             && !Exited(s.ws[w].pc)
    ensures ConfigInv(LoopTop(s, w))
  {
  }

  lemma AwakeConfig(s: State, w: nat, timeout: bool)
    requires ConfigInv(s) && w in s.ws && s.resetting.None? && s.ws[w].pc.Waiting?
    ensures ConfigInv(Awake(s, w, timeout))
  {
    hide LoopTop;
    LoopTopConfig(s.(free := Dec(s.free)), w);
  }

  lemma FinishConfig(c: Config, s: State, w: nat)
    requires ConfigInv(s) && w in s.ws && s.resetting.None? && s.ws[w].pc.Processing?
    ensures ConfigInv(PushResult(c, s, w))
  {
    hide LoopTop;
    var wk := s.ws[w];
    var s1 := s.(out := s.out + [Result(wk.pc.task, wk.jobVer, wk.pc.floor)]);
    assert ConfigInv(s1);
    LoopTopConfig(s1, w);
  }

  lemma UnlockedConfig(c: Config, s: State, a: Action)
    requires ConfigInv(s) && (a.StartWorker? || a.Exchange? || a.Reload? || a.FreeTask?)
    ensures ConfigInv(Next(c, s, a))
  {
    hide LoopTop, Awake, PushResult, Accept;
  }

  lemma ResetConfig(c: Config, s: State, a: Action)
    requires WorkerInv(c, s) && ConfigInv(s) && (a.BeginReset? || a.FlagWorker? || a.EndReset?)
    ensures ConfigInv(Next(c, s, a))
  {
    hide LoopTop, Awake, PushResult, Accept, CountedIn;
  }

  lemma AcceptConfig(c: Config, s: State)
    requires ConfigInv(s) && s.resetting.None?
    ensures ConfigInv(Accept(c, s))
  {
  }

  lemma ConfigKept(c: Config, s: State, a: Action)
    requires WorkerInv(c, s) && ConfigInv(s)
    ensures ConfigInv(Next(c, s, a))
  {
    hide LoopTop, Awake, PushResult, Accept, WorkerInv, Fresh, UpToDate;
    match a
    case Run => if s.resetting.None? { AcceptConfig(c, s); }
    case Acquire(w) => if Next(c, s, a) != s { LoopTopConfig(s, w); }
    case Wake(w, timeout) => if Next(c, s, a) != s { AwakeConfig(s, w, timeout); }
    case Finish(w) => if Next(c, s, a) != s { FinishConfig(c, s, w); }
    case BeginReset(v) => ResetConfig(c, s, a);
    case FlagWorker(w) => ResetConfig(c, s, a);
    case EndReset => ResetConfig(c, s, a);
    case StartWorker(w) => UnlockedConfig(c, s, a);
    case Exchange(w) => UnlockedConfig(c, s, a);
    case Reload(w) => UnlockedConfig(c, s, a);
    case FreeTask(w) => UnlockedConfig(c, s, a);
    case _ =>
  }

  // ------------------------------------------------------------------- draining

  /** Worker 0 is kept in the pool, and leaves only when Stop was called and nothing is queued. */
  ghost predicate DrainInv(s: State) {
    && 0 in s.ws && s.ws[0].keep
    && (0 in s.all || s.joined)
    && !s.ws[0].pc.TimedOutStopped?
    && (s.ws[0].pc.Done? ==> s.stop && s.queue == [])
    && (s.joined ==> s.ws[0].pc.Done?)
  }

  lemma LoopTopDrains(s: State, w: nat)
    requires DrainInv(s) && w in s.ws && !Exited(s.ws[w].pc)
    ensures DrainInv(LoopTop(s, w))
  {
  }

  lemma AwakeDrains(s: State, w: nat, timeout: bool)
    requires DrainInv(s) && w in s.ws && s.ws[w].pc.Waiting?
    ensures DrainInv(Awake(s, w, timeout))
  {
    hide LoopTop;
    LoopTopDrains(s.(free := Dec(s.free)), w);
  }

  lemma FinishDrains(c: Config, s: State, w: nat)
    requires DrainInv(s) && w in s.ws && s.ws[w].pc.Processing?
    ensures DrainInv(PushResult(c, s, w))
  {
    hide LoopTop;
    LoopTopDrains(s.(out := s.out + [Result(s.ws[w].pc.task, s.ws[w].jobVer, s.ws[w].pc.floor)]), w);
  }

  lemma DrainKept(c: Config, s: State, a: Action)
    requires WorkerInv(c, s) && DrainInv(s)
    ensures DrainInv(Next(c, s, a))
  {
    hide CountedIn, LoopTop, Awake, PushResult;
    match a
    case Acquire(w) => if Next(c, s, a) != s { LoopTopDrains(s, w); }
    case Wake(w, timeout) => if Next(c, s, a) != s { AwakeDrains(s, w, timeout); }
    case Finish(w) => if Next(c, s, a) != s { FinishDrains(c, s, w); }
    case _ =>
  }

  // ---------------------------------------------------------- executor ownership

  /** Every executor whose result is out is freed once or about to be; a refused one is freed at once. */
  ghost predicate FreeInv(ws: map<nat, Worker>, done: seq<nat>, freed: seq<nat>, accepted: nat, created: nat) {
    && Distinct(freed)
    && accepted <= created
    && (forall t | t in freed :: t in done || accepted <= t < created)
    && (forall t: nat | accepted <= t < created :: t in freed)
    && (forall w | w in ws && ws[w].pc.Freeing? :: ws[w].pc.task in done && ws[w].pc.task !in freed)
    && (forall v, w | v in ws && w in ws && v != w && ws[v].pc.Freeing? && ws[w].pc.Freeing? ::
          ws[v].pc.task != ws[w].pc.task)
    && (forall t | t in done :: t in freed || t in ToFree(ws))
  }

  ghost function ToFree(ws: map<nat, Worker>): set<nat> {
    set w | w in ws && ws[w].pc.Freeing? :: ws[w].pc.task
  }

  ghost predicate Owned(s: State) {
    && FreeInv(s.ws, DoneTasks(s), s.freed, s.accepted, s.created)
    && (!s.stop ==> s.created == s.accepted)
  }

  /** A worker neither starts nor ends holding an executor to free. */
  lemma OthersFree(ws: map<nat, Worker>, w: nat, wk: Worker, done: seq<nat>, freed: seq<nat>,
    accepted: nat, created: nat)
    requires FreeInv(ws, done, freed, accepted, created)
    requires w in ws ==> !ws[w].pc.Freeing?
    requires !wk.pc.Freeing?
    ensures FreeInv(ws[w := wk], done, freed, accepted, created)
  {
    var ws' := ws[w := wk];
    forall t | t in ToFree(ws) ensures t in ToFree(ws') {
      var v :| v in ws && ws[v].pc.Freeing? && ws[v].pc.task == t;
      assert v in ws' && ws'[v] == ws[v];
    }
  }

  /** The flag of a worker says nothing about what it holds. */
  lemma FlagFree(ws: map<nat, Worker>, w: nat, wk: Worker, done: seq<nat>, freed: seq<nat>,
    accepted: nat, created: nat)
    requires FreeInv(ws, done, freed, accepted, created) && w in ws && wk.pc == ws[w].pc
    ensures FreeInv(ws[w := wk], done, freed, accepted, created)
  {
    var ws' := ws[w := wk];
    forall t | t in ToFree(ws) ensures t in ToFree(ws') {
      var v :| v in ws && ws[v].pc.Freeing? && ws[v].pc.task == t;
      assert v in ws' && ws'[v].pc == ws[v].pc;
    }
  }

  /** A worker has pushed the result of a task and still owns its executor. */
  lemma StartFree(ws: map<nat, Worker>, w: nat, wk: Worker, done: seq<nat>, freed: seq<nat>,
    accepted: nat, created: nat)
    requires FreeInv(ws, done, freed, accepted, created) && w in ws && !ws[w].pc.Freeing?
    requires wk.pc.Freeing? && wk.pc.task !in done && wk.pc.task < accepted
    ensures FreeInv(ws[w := wk], done + [wk.pc.task], freed, accepted, created)
  {
    var ws' := ws[w := wk];
    assert ws'[w].pc.task in ToFree(ws');
    forall t | t in ToFree(ws) ensures t in ToFree(ws') {
      var v :| v in ws && ws[v].pc.Freeing? && ws[v].pc.task == t;
      assert v in ws' && ws'[v] == ws[v];
    }
  }

  lemma EndFree(ws: map<nat, Worker>, w: nat, wk: Worker, done: seq<nat>, freed: seq<nat>,
    accepted: nat, created: nat)
    requires FreeInv(ws, done, freed, accepted, created) && w in ws && ws[w].pc.Freeing? && !wk.pc.Freeing?
    ensures FreeInv(ws[w := wk], done, freed + [ws[w].pc.task], accepted, created)
  {
    var ws' := ws[w := wk];
    forall t | t in done ensures t in freed + [ws[w].pc.task] || t in ToFree(ws') {
      if t !in freed && t != ws[w].pc.task {
        var v :| v in ws && ws[v].pc.Freeing? && ws[v].pc.task == t;
        assert v in ws' && ws'[v] == ws[v];
      }
    }
  }

  lemma LoopTopOwned(s: State, w: nat)
    requires Owned(s) && w in s.ws && !s.ws[w].pc.Freeing?
    ensures Owned(LoopTop(s, w))
  {
    hide FreeInv;
    var s' := LoopTop(s, w);
    OthersFree(s.ws, w, s'.ws[w], DoneTasks(s), s.freed, s.accepted, s.created);
  }

  lemma AwakeOwned(s: State, w: nat, timeout: bool)
    requires Owned(s) && w in s.ws && s.ws[w].pc.Waiting?
    ensures Owned(Awake(s, w, timeout))
  {
    hide FreeInv, LoopTop;
    var s' := Awake(s, w, timeout);
    if timeout && !s.ws[w].keep {
      OthersFree(s.ws, w, s'.ws[w], DoneTasks(s), s.freed, s.accepted, s.created);
    } else {
      LoopTopOwned(s.(free := Dec(s.free)), w);
    }
  }

  lemma FinishOwned(c: Config, s: State, w: nat)
    requires c.kind.Ex? && Conserved(s) && Owned(s) && w in s.ws && s.ws[w].pc.Processing?
    ensures Owned(PushResult(c, s, w))
  {
    hide FreeInv;
    var s' := PushResult(c, s, w);
    assert DoneTasks(s') == DoneTasks(s) + [s.ws[w].pc.task];
    StartFree(s.ws, w, s'.ws[w], DoneTasks(s), s.freed, s.accepted, s.created);
  }

  lemma UnlockedOwned(c: Config, s: State, a: Action)
    requires c.kind.Ex? && Owned(s) && (a.StartWorker? || a.Exchange? || a.Reload? || a.FreeTask? || a.FlagWorker?)
    ensures Owned(Next(c, s, a))
  {
    hide FreeInv;
    var s' := Next(c, s, a);
    if s' != s {
      if a.FlagWorker? {
        FlagFree(s.ws, a.w, s'.ws[a.w], DoneTasks(s), s.freed, s.accepted, s.created);
      } else if a.FreeTask? {
        EndFree(s.ws, a.w, s'.ws[a.w], DoneTasks(s), s.freed, s.accepted, s.created);
      } else {
        OthersFree(s.ws, a.w, s'.ws[a.w], DoneTasks(s), s.freed, s.accepted, s.created);
      }
    }
  }

  lemma AcceptOwned(c: Config, s: State)
    requires Owned(s) && s.nextId !in s.ws && !s.stop && Conserved(s)
    ensures Owned(Accept(c, s))
  {
    OthersFree(s.ws, s.nextId, NewWorker(false), DoneTasks(s), s.freed, s.accepted, s.created);
  }

  lemma RefuseOwned(c: Config, s: State)
    requires c.kind.Ex? && Owned(s) && s.stop && Conserved(s)
    ensures Owned(s.(created := s.created + 1, freed := s.freed + [s.created]))
  {
    var freed := s.freed + [s.created];
    assert freed[|s.freed|] == s.created;
    assert s.created !in s.freed;
    assert forall t | t in s.freed :: t in freed;
    assert DoneTasks(s.(created := s.created + 1, freed := freed)) == DoneTasks(s);
  }

  lemma OwnedKept(c: Config, s: State, a: Action)
    requires c.kind.Ex? && Owned(s) && Conserved(s) && s.nextId !in s.ws
    ensures Owned(Next(c, s, a))
  {
    hide FreeInv, TaskInv, LoopTop, Awake, PushResult, Accept;
    match a
    case Run => if s.stop { RefuseOwned(c, s); } else { AcceptOwned(c, s); }
    case GetJobOutput =>
      if s.out != [] { assert s.delivered + [s.out[0]] + s.out[1..] == s.delivered + s.out; }
    case Acquire(w) => if Next(c, s, a) != s { LoopTopOwned(s, w); }
    case Wake(w, timeout) => if Next(c, s, a) != s { AwakeOwned(s, w, timeout); }
    case Finish(w) => if Next(c, s, a) != s { FinishOwned(c, s, w); }
    case FlagWorker(w) => UnlockedOwned(c, s, a);
    case StartWorker(w) => UnlockedOwned(c, s, a);
    case Exchange(w) => UnlockedOwned(c, s, a);
    case Reload(w) => UnlockedOwned(c, s, a);
    case FreeTask(w) => UnlockedOwned(c, s, a);
    case _ =>
  }

  // ----------------------------------------------------------------- every run

  ghost predicate Inv(c: Config, s: State) {
    && WorkerInv(c, s) && Conserved(s) && ConfigInv(s)
    && (c.kind.Ex? ==> Owned(s))
    && (c.minThreads > 0 ==> DrainInv(s))
  }

  /** The constructor asserts that the bounds are in order. */
  predicate ValidConfig(c: Config) { c.minThreads <= c.maxThreads }

  ghost predicate Reachable(c: Config, s: State) {
    exists actions :: Execute(c, actions) == s
  }

  lemma InitIdle(c: Config)
    ensures var s := Init(c);
      s.ws.Keys == Ids(c.minThreads) && forall w | w in s.ws :: s.ws[w] == NewWorker(true)
  {
  }

  lemma InitWorkers(c: Config)
    requires ValidConfig(c)
    ensures WorkerInv(c, Init(c))
  {
    hide Kept;
    InitIdle(c);
    assert CountedIn(Init(c).all, Init(c).ws) == {};
  }

  lemma InitTasks(c: Config)
    ensures Conserved(Init(c)) && Owned(Init(c))
  {
    hide Kept;
    InitIdle(c);
    assert DoneTasks(Init(c)) == [];
  }

  lemma InitConfig(c: Config)
    ensures ConfigInv(Init(c)) && (c.minThreads > 0 ==> DrainInv(Init(c)))
  {
    hide Kept;
    InitIdle(c);
  }

  lemma InitHolds(c: Config)
    requires ValidConfig(c)
    ensures Inv(c, Init(c))
  {
    hide WorkerInv, Conserved, Owned, ConfigInv, DrainInv, Init;
    InitWorkers(c);
    InitTasks(c);
    InitConfig(c);
  }

  lemma NextKeeps(c: Config, s: State, a: Action)
    requires Inv(c, s)
    ensures Inv(c, Next(c, s, a))
  {
    WorkersKept(c, s, a);
    hide Next, CountedIn, TaskInv, QueueInv, FreeInv, ConfigInv, DrainInv;
    TasksKept(c, s, a);
    ConfigKept(c, s, a);
    if c.kind.Ex? { OwnedKept(c, s, a); }
    if c.minThreads > 0 { DrainKept(c, s, a); }
  }

  lemma {:induction false} RunKeeps(c: Config, actions: seq<Action>)
    requires ValidConfig(c)
    ensures Inv(c, Execute(c, actions))
    decreases |actions|
  {
    if actions == [] {
      InitHolds(c);
    } else {
      hide Inv, Next, Init;
      RunKeeps(c, actions[..|actions| - 1]);
      NextKeeps(c, Execute(c, actions[..|actions| - 1]), actions[|actions| - 1]);
    }
  }

  lemma ReachableKeeps(c: Config, s: State)
    requires ValidConfig(c) && Reachable(c, s)
    ensures Inv(c, s)
  {
    hide Inv, Execute;
    var actions :| Execute(c, actions) == s;
    RunKeeps(c, actions);
  }
}
