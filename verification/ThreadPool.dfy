/**
 ThreadPool and ThreadPoolEx as a transition system. Code between taking and releasing
 the queue lock is one step; everything a thread does outside the lock is its own step.
 Waits may end at any time, by notification, spuriously, or by timeout.
 */
module ThreadPool {
  import opened Wrappers

  /** Which class: ThreadPool has job configurations, ThreadPoolEx owns its executors. */
  datatype Kind = Plain | Ex

  datatype Config = Config(kind: Kind, minThreads: nat, maxThreads: nat)

  /** A result, with the configuration version it was computed under and the one promised when its task was fetched. */
  datatype Result = Result(task: nat, ver: nat, floor: nat)

  datatype Pc =
    | Starting
    | Locking
    | Waiting
    | Fetched(task: nat, floor: nat)
    | Reloading(task: nat, floor: nat)
    | Processing(task: nat, floor: nat)
    | Freeing(task: nat)
    | Done
    | TimedOutStopped

  datatype Worker = Worker(keep: bool, pc: Pc, reload: bool, jobVer: nat)

  /** A caller of ResetJobConfig holding the lock: its version and the workers still to flag. */
  datatype Reset = Reset(ver: nat, todo: set<nat>)

  datatype State = State(
    queue: seq<nat>, out: seq<Result>, delivered: seq<Result>,
    all: set<nat>, free: nat, stop: bool, joined: bool,
    ws: map<nat, Worker>, nextId: nat,
    ver: nat, pending: set<nat>, resetting: Option<Reset>, confirmed: nat,
    accepted: nat, dequeued: nat, created: nat, freed: seq<nat>)

  datatype Action =
    | Run
    | GetJobOutput
    | Stop
    | Join
    | SetJobConfig
    | BeginReset(v: nat)
    | FlagWorker(w: nat)
    | EndReset
    | StartWorker(w: nat)
    | Acquire(w: nat)
    | Wake(w: nat, timeout: bool)
    | Exchange(w: nat)
    | Reload(w: nat)
    | Finish(w: nat)
    | FreeTask(w: nat)

  function NewWorker(keep: bool): Worker { Worker(keep, Starting, false, 0) }

  function Ids(n: nat): (r: set<nat>)
    ensures forall i: nat :: i in r <==> i < n
    ensures |r| == n
  {
    if n == 0 then {} else Ids(n - 1) + {n - 1}
  }

  /** n kept workers, started. */
  function Kept(n: nat): map<nat, Worker> { map w | w in Ids(n) :: NewWorker(true) }

  lemma OneMoreKept(n: nat)
    ensures Kept(n)[n := NewWorker(true)] == Kept(n + 1) && Ids(n) + {n} == Ids(n + 1)
  {
  }

  /** The constructor. */
  function Init(c: Config): State {
    State([], [], [], Ids(c.minThreads), 0, false, false,
          Kept(c.minThreads), c.minThreads,
          0, {}, None, 0, 0, 0, 0, [])
  }

  function SetPc(s: State, w: nat, pc: Pc): State
    requires w in s.ws
  {
    s.(ws := s.ws[w := s.ws[w].(pc := pc)])
  }

  /** The top of a worker's loop, entered holding the lock. */
  function LoopTop(s: State, w: nat): State
    requires w in s.ws
  {
    if s.queue == [] then
      if s.stop then SetPc(s, w, Done) else SetPc(s.(free := s.free + 1), w, Waiting)
    else SetPc(s.(queue := s.queue[1..], dequeued := s.dequeued + 1), w, Fetched(s.queue[0], s.confirmed))
  }

  /** --freeWorkerNum_, a size_t. */
  function Dec(n: nat): nat { if n == 0 then 0xFFFF_FFFF_FFFF_FFFF else n - 1 }

  /** createWorker(false). */
  function Hired(s: State): State {
    s.(all := s.all + {s.nextId}, ws := s.ws[s.nextId := NewWorker(false)], nextId := s.nextId + 1)
  }

  /** Run on a pool that has not stopped. */
  function Accept(c: Config, s: State): State {
    var s1 := if s.free <= |s.queue| && |s.all| < c.maxThreads then Hired(s) else s;
    s1.(queue := s1.queue + [s1.accepted], accepted := s1.accepted + 1, created := s1.created + 1)
  }

  /** A waiting worker has the lock again. */
  function Awake(s: State, w: nat, timeout: bool): State
    requires w in s.ws
  {
    if timeout && !s.ws[w].keep then
      if s.stop then SetPc(s, w, TimedOutStopped)
      else SetPc(s.(all := s.all - {w}, free := Dec(s.free)), w, Done)
    else LoopTop(s.(free := Dec(s.free)), w)
  }

  /** The result is queued; ThreadPool goes round holding the lock, ThreadPoolEx first deletes the executor. */
  function PushResult(c: Config, s: State, w: nat): State
    requires w in s.ws && s.ws[w].pc.Processing?
  {
    var wk := s.ws[w];
    var s1 := s.(out := s.out + [Result(wk.pc.task, wk.jobVer, wk.pc.floor)]);
    if c.kind.Ex? then SetPc(s1, w, Freeing(wk.pc.task)) else LoopTop(s1, w)
  }


  /** The state after an action; an action that cannot be taken changes nothing. */
  function Next(c: Config, s: State, a: Action): State {
    match a
    case Run =>
      if s.resetting.Some? then s
      else if s.stop then
        // ThreadPoolEx::Run still owns the executor it made, and deletes it
        s.(created := s.created + 1, freed := if c.kind.Ex? then s.freed + [s.created] else s.freed)
      else Accept(c, s)
    case GetJobOutput =>
      if s.resetting.Some? || s.out == [] then s
      else s.(out := s.out[1..], delivered := s.delivered + [s.out[0]])
    case Stop => if s.resetting.Some? then s else s.(stop := true)
    case Join =>
      if s.stop && !s.joined && forall w | w in s.all :: w in s.ws && Exited(s.ws[w].pc)
      then s.(all := {}, free := 0, joined := true) else s
    case SetJobConfig =>
      if c.kind.Ex? then s else s.(ver := s.ver + 1, pending := s.pending + {s.ver + 1})
    case BeginReset(v) =>
      if s.resetting.Some? || v !in s.pending then s
      else if s.stop then s.(pending := s.pending - {v})
      else s.(pending := s.pending - {v}, resetting := Some(Reset(v, s.all)))
    case FlagWorker(w) =>
      if s.resetting.Some? && w in s.resetting.value.todo && w in s.ws
      then s.(ws := s.ws[w := s.ws[w].(reload := true)],
              resetting := Some(Reset(s.resetting.value.ver, s.resetting.value.todo - {w}))) else s
    case EndReset =>
      if s.resetting.Some? && s.resetting.value.todo == {}
      then s.(resetting := None,
              confirmed := if s.confirmed < s.resetting.value.ver then s.resetting.value.ver else s.confirmed) else s
    case StartWorker(w) =>
      if w in s.ws && s.ws[w].pc.Starting?
      then s.(ws := s.ws[w := s.ws[w].(pc := Locking, jobVer := s.ver)]) else s
    case Acquire(w) => if s.resetting.None? && w in s.ws && s.ws[w].pc.Locking? then LoopTop(s, w) else s
    case Wake(w, timeout) => if s.resetting.None? && w in s.ws && s.ws[w].pc.Waiting? then Awake(s, w, timeout) else s
    case Exchange(w) =>
      if w in s.ws && s.ws[w].pc.Fetched? then
        var wk := s.ws[w];
        s.(ws := s.ws[w := wk.(reload := false,
                               pc := if wk.reload then Reloading(wk.pc.task, wk.pc.floor)
                                     else Processing(wk.pc.task, wk.pc.floor))]) else s
    case Reload(w) =>
      if w in s.ws && s.ws[w].pc.Reloading?
      then s.(ws := s.ws[w := s.ws[w].(pc := Processing(s.ws[w].pc.task, s.ws[w].pc.floor), jobVer := s.ver)]) else s
    case Finish(w) => if s.resetting.None? && w in s.ws && s.ws[w].pc.Processing? then PushResult(c, s, w) else s
    case FreeTask(w) =>
      if w in s.ws && s.ws[w].pc.Freeing? then SetPc(s.(freed := s.freed + [s.ws[w].pc.task]), w, Locking) else s
  }

  function Execute(c: Config, actions: seq<Action>): State {
    if actions == [] then Init(c)
    else Next(c, Execute(c, actions[..|actions| - 1]), actions[|actions| - 1])
  }

  // ---------------------------------------------------------------- vocabulary

  predicate Exited(pc: Pc) { pc.Done? || pc.TimedOutStopped? }

  predicate HasTask(pc: Pc) { pc.Fetched? || pc.Reloading? || pc.Processing? }

  /** Counted in freeWorkerNum_: inside a wait, or gone from one without counting down. */
  predicate Counted(pc: Pc) { pc.Waiting? || pc.TimedOutStopped? }

  /** The tasks being executed. */
  ghost function Busy(ws: map<nat, Worker>): set<nat> {
    set w | w in ws && HasTask(ws[w].pc) :: ws[w].pc.task
  }

  function TasksOf(r: seq<Result>): seq<nat> { seq(|r|, i requires 0 <= i < |r| => r[i].task) }

  ghost predicate Distinct(s: seq<nat>) {
    forall i, j | 0 <= i < j < |s| :: s[i] != s[j]
  }

  /** GetPendingTaskCount, in size_t arithmetic. */
  function PendingCount(s: State): int { |s.queue| + |s.all| - s.free }

  // ------------------------------------------------------------- workers counted

  ghost function CountedIn(all: set<nat>, ws: map<nat, Worker>): set<nat> {
    set w | w in all && w in ws && Counted(ws[w].pc)
  }

  ghost predicate WorkerInv(c: Config, s: State) {
    && (forall w | w in s.ws :: w < s.nextId)
    && s.all <= s.ws.Keys
    && |s.all| <= c.maxThreads
    && (s.joined ==> s.stop && s.all == {} && s.free == 0)
    && (forall w | w in s.ws && w !in s.all :: Exited(s.ws[w].pc))
    && (!s.joined ==> s.free == |CountedIn(s.all, s.ws)|)
    && (!s.stop ==> forall w | w in s.ws :: !s.ws[w].pc.TimedOutStopped?)
  }

  /** A set differing from another in at most w. */
  lemma SizeWithout(a: set<nat>, b: set<nat>, w: nat)
    requires a - {w} == b - {w}
    ensures |a| - (if w in a then 1 else 0) == |b| - (if w in b then 1 else 0)
  {
    var rest := a - {w};
    if w in a { assert a == rest + {w}; } else { assert a == rest; }
    if w in b { assert b == rest + {w}; } else { assert b == rest; }
  }

  /** Changing one worker moves it in or out of the counted ones. */
  lemma Recount(all: set<nat>, ws: map<nat, Worker>, w: nat, wk: Worker)
    requires w in all && all <= ws.Keys
    ensures |CountedIn(all, ws[w := wk])| == |CountedIn(all, ws)|
              + (if Counted(wk.pc) then 1 else 0) - (if Counted(ws[w].pc) then 1 else 0)
  {
    var before, after := CountedIn(all, ws), CountedIn(all, ws[w := wk]);
    assert w in before <==> Counted(ws[w].pc);
    assert w in after <==> Counted(wk.pc);
    forall v | v != w ensures v in before <==> v in after { }
    assert before - {w} == after - {w};
    hide CountedIn;
    SizeWithout(before, after, w);
  }

  lemma WaitingIsCounted(c: Config, s: State, w: nat)
    requires WorkerInv(c, s) && w in s.ws && s.ws[w].pc.Waiting?
    ensures w in s.all && s.free > 0
  {
    assert w in CountedIn(s.all, s.ws);
  }

  /** A step of a worker that stays listed keeps the counters right. */
  lemma WorkerMoves(c: Config, s: State, s': State, w: nat)
    requires WorkerInv(c, s) && w in s.ws && !Exited(s.ws[w].pc) && w in s'.ws
    requires s'.ws == s.ws[w := s'.ws[w]]
    requires s'.all == s.all && s'.joined == s.joined && s'.stop == s.stop && s'.nextId == s.nextId
    requires s'.free + (if s.ws[w].pc.Waiting? then 1 else 0) == s.free + (if Counted(s'.ws[w].pc) then 1 else 0)
    requires s'.ws[w].pc.TimedOutStopped? ==> s.stop
    ensures WorkerInv(c, s')
  {
    Recount(s.all, s.ws, w, s'.ws[w]);
  }

  /** A worker that times out on a running pool takes itself off the list. */
  lemma WorkerLeaves(c: Config, s: State, w: nat)
    requires WorkerInv(c, s) && w in s.ws && s.ws[w].pc.Waiting? && !s.stop
    ensures WorkerInv(c, SetPc(s.(all := s.all - {w}, free := Dec(s.free)), w, Done))
  {
    WaitingIsCounted(c, s, w);
    var s' := SetPc(s.(all := s.all - {w}, free := Dec(s.free)), w, Done);
    assert CountedIn(s'.all, s'.ws) == CountedIn(s.all, s.ws) - {w};
  }

  lemma WorkerJoins(c: Config, s: State)
    requires WorkerInv(c, s) && !s.stop && |s.all| < c.maxThreads
    ensures WorkerInv(c, Hired(s))
  {
    var s' := Hired(s);
    assert s.nextId !in s.ws;
    forall w ensures w in CountedIn(s'.all, s'.ws) <==> w in CountedIn(s.all, s.ws) { }
    assert CountedIn(s'.all, s'.ws) == CountedIn(s.all, s.ws);
    hide CountedIn;
  }

  lemma LoopTopCounts(c: Config, s: State, w: nat)
    requires WorkerInv(c, s) && w in s.ws && !Exited(s.ws[w].pc) && !s.ws[w].pc.Waiting?
    ensures WorkerInv(c, LoopTop(s, w))
  {
    WorkerMoves(c, s, LoopTop(s, w), w);
  }

  lemma AwakeCounts(c: Config, s: State, w: nat, timeout: bool)
    requires WorkerInv(c, s) && w in s.ws && s.ws[w].pc.Waiting?
    ensures WorkerInv(c, Awake(s, w, timeout))
  {
    WaitingIsCounted(c, s, w);
    if timeout && !s.ws[w].keep && !s.stop {
      WorkerLeaves(c, s, w);
    } else {
      WorkerMoves(c, s, Awake(s, w, timeout), w);
    }
  }

  /** Steps a worker takes outside the lock. */
  lemma UnlockedCounts(c: Config, s: State, a: Action)
    requires WorkerInv(c, s) && (a.StartWorker? || a.Exchange? || a.Reload? || a.FreeTask?)
    ensures WorkerInv(c, Next(c, s, a))
  {
    var s' := Next(c, s, a);
    if s' != s {
      hide WorkerInv;
      WorkerMoves(c, s, s', a.w);
    }
  }

  lemma FinishCounts(c: Config, s: State, w: nat)
    requires WorkerInv(c, s) && w in s.ws && s.ws[w].pc.Processing?
    ensures WorkerInv(c, PushResult(c, s, w))
  {
    var s' := PushResult(c, s, w);
    if c.kind.Ex? { WorkerMoves(c, s, s', w); } else { LoopTopCounts(c, s.(out := s'.out), w); }
  }

  lemma FlagCounts(c: Config, s: State, w: nat)
    requires WorkerInv(c, s)
    ensures WorkerInv(c, Next(c, s, FlagWorker(w)))
  {
    var s' := Next(c, s, FlagWorker(w));
    if s' != s {
      if w in s.all { Recount(s.all, s.ws, w, s'.ws[w]); }
      else { assert CountedIn(s.all, s'.ws) == CountedIn(s.all, s.ws); }
    }
  }

  lemma WorkersKept(c: Config, s: State, a: Action)
    requires WorkerInv(c, s)
    ensures WorkerInv(c, Next(c, s, a))
  {
    hide LoopTop, Awake, PushResult, CountedIn;
    match a
    case Run => if s.resetting.None? && !s.stop && |s.all| < c.maxThreads { WorkerJoins(c, s); }
    case Acquire(w) => if Next(c, s, a) != s { LoopTopCounts(c, s, w); }
    case Wake(w, timeout) => if Next(c, s, a) != s { AwakeCounts(c, s, w, timeout); }
    case Finish(w) => if Next(c, s, a) != s { FinishCounts(c, s, w); }
    case FlagWorker(w) => FlagCounts(c, s, w);
    case StartWorker(w) => UnlockedCounts(c, s, a);
    case Exchange(w) => UnlockedCounts(c, s, a);
    case Reload(w) => UnlockedCounts(c, s, a);
    case FreeTask(w) => UnlockedCounts(c, s, a);
    case _ =>
  }

  // --------------------------------------------------------------- tasks conserved

  /** Every dequeued task is in exactly one place: with one worker, or once among the results. */
  ghost predicate TaskInv(ws: map<nat, Worker>, done: seq<nat>, dequeued: nat) {
    && Distinct(done)
    && (forall t | t in done :: t < dequeued)
    && (forall w | w in ws && HasTask(ws[w].pc) :: ws[w].pc.task < dequeued && ws[w].pc.task !in done)
    && (forall v, w | v in ws && w in ws && v != w && HasTask(ws[v].pc) && HasTask(ws[w].pc) ::
          ws[v].pc.task != ws[w].pc.task)
    && (forall t: nat | t < dequeued :: t in done || t in Busy(ws))
  }

  /** The queue holds, in order, exactly the accepted tasks not yet dequeued. */
  ghost predicate QueueInv(queue: seq<nat>, dequeued: nat, accepted: nat) {
    && dequeued + |queue| == accepted
    && (forall i | 0 <= i < |queue| :: queue[i] == dequeued + i)
  }

  ghost predicate Conserved(s: State) {
    QueueInv(s.queue, s.dequeued, s.accepted) && TaskInv(s.ws, DoneTasks(s), s.dequeued)
  }

  /** A worker changes, and keeps the task it has, if any. */
  lemma SameTask(ws: map<nat, Worker>, w: nat, wk: Worker, done: seq<nat>, dequeued: nat)
    requires TaskInv(ws, done, dequeued)
    requires w in ws && HasTask(wk.pc) == HasTask(ws[w].pc) && (HasTask(wk.pc) ==> wk.pc.task == ws[w].pc.task)
    ensures TaskInv(ws[w := wk], done, dequeued)
  {
    var ws' := ws[w := wk];
    forall t | t in Busy(ws) ensures t in Busy(ws') {
      var v :| v in ws && HasTask(ws[v].pc) && ws[v].pc.task == t;
      assert v in ws' && ws'[v].pc.task == t;
    }
  }

  lemma NewHasNone(ws: map<nat, Worker>, w: nat, wk: Worker, done: seq<nat>, dequeued: nat)
    requires TaskInv(ws, done, dequeued) && w !in ws && !HasTask(wk.pc)
    ensures TaskInv(ws[w := wk], done, dequeued)
  {
    var ws' := ws[w := wk];
    forall t | t in Busy(ws) ensures t in Busy(ws') {
      var v :| v in ws && HasTask(ws[v].pc) && ws[v].pc.task == t;
      assert v in ws' && ws'[v] == ws[v];
    }
  }

  lemma FetchTask(ws: map<nat, Worker>, w: nat, wk: Worker, done: seq<nat>, dequeued: nat)
    requires TaskInv(ws, done, dequeued) && w in ws && !HasTask(ws[w].pc)
    requires HasTask(wk.pc) && wk.pc.task == dequeued
    ensures TaskInv(ws[w := wk], done, dequeued + 1)
  {
    var ws' := ws[w := wk];
    assert ws'[w].pc.task in Busy(ws');
    forall t | t in Busy(ws) ensures t in Busy(ws') {
      var v :| v in ws && HasTask(ws[v].pc) && ws[v].pc.task == t;
      assert v in ws' && ws'[v] == ws[v];
    }
  }

  lemma FinishTask(ws: map<nat, Worker>, w: nat, wk: Worker, done: seq<nat>, dequeued: nat)
    requires TaskInv(ws, done, dequeued) && w in ws && HasTask(ws[w].pc) && !HasTask(wk.pc)
    ensures TaskInv(ws[w := wk], done + [ws[w].pc.task], dequeued)
  {
    var ws' := ws[w := wk];
    forall t: nat | t < dequeued ensures t in done + [ws[w].pc.task] || t in Busy(ws') {
      if t !in done && t != ws[w].pc.task {
        var v :| v in ws && HasTask(ws[v].pc) && ws[v].pc.task == t;
        assert v in ws' && ws'[v] == ws[v];
      }
    }
  }

  function DoneTasks(s: State): seq<nat> { TasksOf(s.delivered + s.out) }

  /** A worker whose task, if it had one, is among the done ones goes round the loop. */
  lemma LoopTopTasks(s: State, w: nat, done: seq<nat>)
    requires QueueInv(s.queue, s.dequeued, s.accepted) && w in s.ws
    requires TaskInv(s.ws[w := s.ws[w].(pc := Locking)], done, s.dequeued)
    ensures var s' := LoopTop(s, w); QueueInv(s'.queue, s'.dequeued, s'.accepted) && TaskInv(s'.ws, done, s'.dequeued)
  {
    hide TaskInv;
    var s' := LoopTop(s, w);
    var ws := s.ws[w := s.ws[w].(pc := Locking)];
    assert s'.ws == ws[w := s'.ws[w]];
    if s.queue == [] {
      SameTask(ws, w, s'.ws[w], done, s.dequeued);
    } else {
      FetchTask(ws, w, s'.ws[w], done, s.dequeued);
    }
  }

  lemma IdleLoopTasks(s: State, w: nat)
    requires Conserved(s) && w in s.ws && !HasTask(s.ws[w].pc)
    ensures Conserved(LoopTop(s, w))
  {
    hide TaskInv, QueueInv;
    SameTask(s.ws, w, s.ws[w].(pc := Locking), DoneTasks(s), s.dequeued);
    LoopTopTasks(s, w, DoneTasks(s));
  }

  lemma AwakeTasks(s: State, w: nat, timeout: bool)
    requires Conserved(s) && w in s.ws && s.ws[w].pc.Waiting?
    ensures Conserved(Awake(s, w, timeout))
  {
    hide TaskInv, QueueInv, LoopTop;
    var s' := Awake(s, w, timeout);
    if timeout && !s.ws[w].keep {
      SameTask(s.ws, w, s'.ws[w], DoneTasks(s), s.dequeued);
    } else {
      IdleLoopTasks(s.(free := Dec(s.free)), w);
    }
  }

  /** The result goes out; a ThreadPool worker may fetch at once. */
  lemma FinishTasks(c: Config, s: State, w: nat)
    requires Conserved(s) && w in s.ws && s.ws[w].pc.Processing?
    ensures Conserved(PushResult(c, s, w))
  {
    hide TaskInv, QueueInv, LoopTop;
    var s' := PushResult(c, s, w);
    var t := s.ws[w].pc.task;
    var s1 := s.(out := s.out + [Result(t, s.ws[w].jobVer, s.ws[w].pc.floor)]);
    assert DoneTasks(s1) == DoneTasks(s) + [t];
    if c.kind.Ex? {
      FinishTask(s.ws, w, s'.ws[w], DoneTasks(s), s.dequeued);
    } else {
      FinishTask(s.ws, w, s.ws[w].(pc := Locking), DoneTasks(s), s.dequeued);
      LoopTopTasks(s1, w, DoneTasks(s1));
      LoopTopOut(s1, w);
    }
  }

  lemma LoopTopOut(s: State, w: nat)
    requires w in s.ws
    ensures LoopTop(s, w).out == s.out && LoopTop(s, w).delivered == s.delivered
  {
  }

  lemma UnlockedTasks(c: Config, s: State, a: Action)
    requires Conserved(s) && (a.StartWorker? || a.Exchange? || a.Reload? || a.FreeTask? || a.FlagWorker?)
    ensures Conserved(Next(c, s, a))
  {
    hide TaskInv, QueueInv;
    var s' := Next(c, s, a);
    if s' != s { SameTask(s.ws, a.w, s'.ws[a.w], DoneTasks(s), s.dequeued); }
  }

  lemma RunTasks(c: Config, s: State)
    requires Conserved(s) && s.nextId !in s.ws
    ensures Conserved(Accept(c, s))
  {
    hide TaskInv;
    NewHasNone(s.ws, s.nextId, NewWorker(false), DoneTasks(s), s.dequeued);
  }

  lemma TasksKept(c: Config, s: State, a: Action)
    requires Conserved(s) && s.nextId !in s.ws
    ensures Conserved(Next(c, s, a))
  {
    hide TaskInv, QueueInv, LoopTop, Awake, PushResult, Accept;
    match a
    case Run => RunTasks(c, s);
    case GetJobOutput =>
      if s.out != [] { assert s.delivered + [s.out[0]] + s.out[1..] == s.delivered + s.out; }
    case Acquire(w) => if Next(c, s, a) != s { IdleLoopTasks(s, w); }
    case Wake(w, timeout) => if Next(c, s, a) != s { AwakeTasks(s, w, timeout); }
    case Finish(w) => if Next(c, s, a) != s { FinishTasks(c, s, w); }
    case FlagWorker(w) => UnlockedTasks(c, s, a);
    case StartWorker(w) => UnlockedTasks(c, s, a);
    case Exchange(w) => UnlockedTasks(c, s, a);
    case Reload(w) => UnlockedTasks(c, s, a);
    case FreeTask(w) => UnlockedTasks(c, s, a);
    case _ =>
  }
}
