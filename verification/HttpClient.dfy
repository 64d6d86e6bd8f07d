/**
 The control state of BaseHttpClient: the request queue, retries, the asynchronous
 operations under way, and callbacks that call back into the client.
 */
module HttpClient {
  /**
   HttpClient's handshake finishes at once; HttpsClient's is asynchronous, or fails at
   once if the host name cannot be set.
   */
  datatype Scheme = Http | Https

  datatype Config = Config(scheme: Scheme, maxRetry: nat)

  datatype Code = Success | Canceled | Other

  datatype Op = Resolve | Connect | Handshake | Send | Read

  /** How a request was answered, and after how many retries. */
  datatype Outcome = Received(statusOk: bool) | Failed(code: Code)

  datatype Answer = Answer(id: nat, outcome: Outcome, retries: nat)

  /** An asynchronous operation started on behalf of a request. */
  datatype Flight = Flight(op: Op, request: nat)

  /**
   Requests are named by the order of Get and Post calls. `flight` holds every operation
   started and not yet completed, however many; `turns` and `sends` count since the front
   request was started.
   */
  datatype State = State(
    pending: seq<nat>, closed: bool, connected: bool, retried: nat, flight: seq<Flight>,
    replying: bool, destroyed: bool, issued: nat, answered: seq<Answer>, turns: nat, sends: nat)

  /**
   What a completion brings: its code, whether the host name could be set and the error
   if not, and the response's two flags.
   */
  datatype Event = Event(code: Code, named: bool, sslCode: Code, keepAlive: bool, statusOk: bool)

  /** Any of the operations under way may complete next. */
  datatype Action = Request | Close | Complete(k: nat, e: Event) | CallbackReturns | Destroy

  function Init(): State { State([], false, false, 0, [], false, false, 0, [], 0, 0) }

  // ------------------------------------------------------------------------ steps

  /** One more operation under way, for the front of the queue. */
  function Start(s: State, op: Op): State
    requires s.pending != []
  {
    s.(flight := s.flight + [Flight(op, s.pending[0])])
  }

  function SendRequest(s: State): State
    requires s.pending != []
  {
    Start(s.(sends := s.sends + 1), Send)
  }

  /** do_request for the front of the queue. */
  function DoRequest(s: State): State
    requires s.pending != []
  {
    var s1 := s.(retried := 0, turns := 0, sends := 0);
    if s.connected then SendRequest(s1) else Start(s1, Resolve)
  }

  /** response up to the callback. */
  function Respond(s: State, outcome: Outcome): State
    requires s.pending != []
  {
    s.(replying := true, answered := s.answered + [Answer(s.pending[0], outcome, s.retried)])
  }

  /** The tail shared by the error paths. */
  function RetryOrFail(c: Config, s: State, code: Code): State
    requires s.pending != []
  {
    if !code.Canceled? && s.retried < c.maxRetry then Start(s.(retried := s.retried + 1), Resolve)
    else Respond(s, Failed(code))
  }

  function OnHandshake(c: Config, s: State, code: Code): State
    requires s.pending != []
  {
    if s.closed then Respond(s, Failed(Canceled))
    else if code.Success? then SendRequest(s.(connected := true))
    else RetryOrFail(c, s, code)
  }

  function OnRead(c: Config, s: State, e: Event): State
    requires s.pending != []
  {
    if s.closed then Respond(s, Failed(Canceled))
    else if e.code.Success? then
      var s1 := if e.keepAlive then s else s.(connected := false);
      if e.statusOk || s.retried >= c.maxRetry then Respond(s1, Received(e.statusOk))
      else
        var s2 := s1.(retried := s.retried + 1);
        if s2.connected then SendRequest(s2) else Start(s2, Resolve)
    else RetryOrFail(c, s.(connected := false), e.code)
  }

  /** The handler of a completed operation, which is no longer under way. */
  function Completed(c: Config, s: State, op: Op, e: Event): State
    requires s.pending != []
  {
    match op
    case Resolve =>
      if s.closed then Respond(s, Failed(Canceled))
      else if e.code.Success? then Start(s, Connect)
      else RetryOrFail(c, s, e.code)
    case Connect =>
      if s.closed then Respond(s, Failed(Canceled))
      else if !e.code.Success? then RetryOrFail(c, s, e.code)
      else if c.scheme.Http? then OnHandshake(c, s, Success)
      else if e.named then Start(s, Handshake)
      else OnHandshake(c, s, e.sslCode)
    case Handshake => OnHandshake(c, s, e.code)
    case Send =>
      if s.closed then Respond(s, Failed(Canceled))
      else if e.code.Success? then Start(s, Read)
      else RetryOrFail(c, s.(connected := false), e.code)
    case Read => OnRead(c, s, e)
  }

  /** Operation k is delivered. */
  function Landed(s: State, k: nat): State
    requires k < |s.flight|
  {
    s.(flight := s.flight[..k] + s.flight[k + 1..], turns := s.turns + 1)
  }

  /** What the destructor answers. */
  function Cancelled(pending: seq<nat>, retried: nat): seq<Answer> {
    seq(|pending|, i requires 0 <= i < |pending| => Answer(pending[i], Failed(Canceled), retried))
  }

  /** The state after an action; an action that cannot be taken changes nothing. */
  function Next(c: Config, s: State, a: Action): State {
    if s.destroyed then s
    else match a
    case Request =>
      var s1 := s.(pending := s.pending + [s.issued], issued := s.issued + 1);
      if s.pending != [] then s1 else DoRequest(s1)
    case Close => s.(closed := true)
    case Complete(k, e) =>
      if k >= |s.flight| || s.replying || s.pending == [] then s
      else Completed(c, Landed(s, k), s.flight[k].op, e)
    case CallbackReturns =>
      if !s.replying || s.pending == [] then s
      else
        var s1 := s.(pending := s.pending[1..], replying := false);
        if s1.pending != [] && !s.closed then DoRequest(s1) else s1
    // operations under way and callbacks hold a reference to the client
    case Destroy =>
      if s.flight != [] || s.replying then s
      else s.(pending := [], destroyed := true, answered := s.answered + Cancelled(s.pending, s.retried))
  }

  function Run(c: Config, actions: seq<Action>): State {
    if actions == [] then Init() else Next(c, Run(c, actions[..|actions| - 1]), actions[|actions| - 1])
  }

  // -------------------------------------------------------------------- invariants

  /** Answers and pending requests together are all the requests, in order; the one being answered is in both. */
  ghost predicate OrderInv(s: State) {
    && |s.answered| + |s.pending| == s.issued + (if s.replying then 1 else 0)
    && (forall i | 0 <= i < |s.answered| :: s.answered[i].id == i)
    && (forall i | 0 <= i < |s.pending| :: s.pending[i] == s.issued - |s.pending| + i)
    && (s.replying ==> s.pending != [])
    && (s.destroyed ==> s.pending == [] && !s.replying)
  }

  /** One operation at most is under way, for the front request, and none while its callback runs. */
  ghost predicate OpInv(s: State) {
    && |s.flight| <= 1
    && (s.flight != [] ==> s.pending != [] && s.flight[0].request == s.pending[0] && !s.replying && !s.destroyed)
    && (s.flight == [] && !s.replying ==> s.pending == [] || s.closed)
    && (s.flight != [] ==> (s.connected <==> s.flight[0].op.Send? || s.flight[0].op.Read?))
  }

  function Stage(op: Op): nat {
    match op case Read => 1 case Send => 2 case Handshake => 3 case Connect => 4 case Resolve => 5
  }

  /** (max - retried, stage), lexicographically, as a number. */
  function Work(c: Config, s: State, op: Op): int { 5 * (c.maxRetry - s.retried) + Stage(op) }

  ghost predicate RetryInv(c: Config, s: State) {
    && s.retried <= c.maxRetry
    && s.turns <= 5 * (c.maxRetry + 1)
    && s.sends <= s.retried + 1
    && (s.flight != [] ==>
          && s.turns + Work(c, s, s.flight[0].op) <= 5 * (c.maxRetry + 1)
          && (!s.connected ==> s.sends <= s.retried))
  }

  /** Only a cancellation, or a request whose retries are used up, is answered with a failure or a bad status. */
  ghost predicate Justified(c: Config, a: Answer) {
    && a.retries <= c.maxRetry
    && (a.outcome == Received(false) || a.outcome == Failed(Other) ==> a.retries == c.maxRetry)
    && a.outcome != Failed(Success)
  }

  ghost predicate Inv(c: Config, s: State) {
    && OrderInv(s) && OpInv(s) && RetryInv(c, s)
    && forall a | a in s.answered :: Justified(c, a)
  }

  /** A state in which the operation under way has just completed. */
  ghost predicate Between(c: Config, s: State) {
    && OrderInv(s) && s.flight == [] && s.pending != [] && !s.replying && !s.destroyed
    && s.retried <= c.maxRetry && s.sends <= s.retried + 1
    && s.turns + 5 * (c.maxRetry - s.retried) <= 5 * (c.maxRetry + 1)
    && forall a | a in s.answered :: Justified(c, a)
  }

  lemma RespondKeeps(c: Config, s: State, outcome: Outcome)
    requires Between(c, s) && Justified(c, Answer(s.pending[0], outcome, s.retried))
    ensures Inv(c, Respond(s, outcome))
  {
  }

  lemma StartKeeps(c: Config, s: State, op: Op)
    requires Between(c, s) && (s.connected <==> op.Send? || op.Read?)
    requires s.turns + Work(c, s, op) <= 5 * (c.maxRetry + 1) && (!s.connected ==> s.sends <= s.retried)
    ensures Inv(c, Start(s, op))
  {
  }

  lemma RetryOrFailKeeps(c: Config, s: State, code: Code)
    requires Between(c, s) && !s.connected && !code.Success?
    ensures Inv(c, RetryOrFail(c, s, code))
  {
    if code.Canceled? || s.retried >= c.maxRetry {
      RespondKeeps(c, s, Failed(code));
    } else {
      StartKeeps(c, s.(retried := s.retried + 1), Resolve);
    }
  }

  lemma OnHandshakeKeeps(c: Config, s: State, code: Code)
    requires Between(c, s) && !s.connected && s.sends <= s.retried
    requires s.turns + 5 * (c.maxRetry - s.retried) + 2 <= 5 * (c.maxRetry + 1)
    ensures Inv(c, OnHandshake(c, s, code))
  {
    if s.closed { RespondKeeps(c, s, Failed(Canceled)); }
    else if !code.Success? { RetryOrFailKeeps(c, s, code); }
    else { StartKeeps(c, s.(connected := true, sends := s.sends + 1), Send); }
  }

  lemma OnReadKeeps(c: Config, s: State, e: Event)
    requires Between(c, s) && s.connected
    ensures Inv(c, OnRead(c, s, e))
  {
    hide Inv, Start, Respond, RetryOrFail;
    var off := s.(connected := false);
    if s.closed { RespondKeeps(c, s, Failed(Canceled)); }
    else if !e.code.Success? { RetryOrFailKeeps(c, off, e.code); }
    else if e.statusOk || s.retried >= c.maxRetry {
      RespondKeeps(c, if e.keepAlive then s else off, Received(e.statusOk));
    } else {
      var again := s.(retried := s.retried + 1);
      if e.keepAlive { StartKeeps(c, again.(sends := s.sends + 1), Send); }
      else { StartKeeps(c, again.(connected := false), Resolve); }
    }
  }

  /** A landed operation leaves none under way. */
  lemma LandedBetween(c: Config, s: State)
    requires Inv(c, s) && s.flight != []
    ensures Between(c, Landed(s, 0)) && Between(c, Landed(s, 0).(connected := false))
    ensures var s1 := Landed(s, 0);
      && s1 == s.(flight := [], turns := s.turns + 1)
      && s1.turns + Work(c, s1, s.flight[0].op) <= 5 * (c.maxRetry + 1) + 1
  {
    assert s.flight[..0] + s.flight[1..] == [];
  }

  lemma CompletedKeeps(c: Config, s: State, e: Event)
    requires Inv(c, s) && s.flight != []
    ensures s.pending != [] && Inv(c, Completed(c, Landed(s, 0), s.flight[0].op, e))
  {
    LandedBetween(c, s);
    var s1, op := Landed(s, 0), s.flight[0].op;
    hide OrderInv, OnHandshake, OnRead, RetryOrFail, Respond, Start, Landed;
    if op.Read? {
      OnReadKeeps(c, s1, e);
    } else if op.Handshake? {
      OnHandshakeKeeps(c, s1, e.code);
    } else if s.closed {
      RespondKeeps(c, s1, Failed(Canceled));
    } else if !e.code.Success? {
      RetryOrFailKeeps(c, if op.Send? then s1.(connected := false) else s1, e.code);
    } else if op.Connect? {
      OnHandshakeKeeps(c, s1, Success);
      OnHandshakeKeeps(c, s1, e.sslCode);
      StartKeeps(c, s1, Handshake);
    } else {
      StartKeeps(c, s1, if op.Resolve? then Connect else Read);
    }
  }

  lemma DoRequestKeeps(c: Config, s: State)
    requires OrderInv(s) && s.flight == [] && s.pending != [] && !s.replying && !s.destroyed
    requires forall a | a in s.answered :: Justified(c, a)
    ensures Inv(c, DoRequest(s))
  {
    hide OrderInv, Inv, Start;
    var s1 := s.(retried := 0, turns := 0, sends := if s.connected then 1 else 0);
    SameOrder(s, s1);
    StartKeeps(c, s1, if s.connected then Send else Resolve);
  }

  lemma SameOrder(s: State, s': State)
    requires OrderInv(s)
    requires s' == s.(connected := s'.connected, retried := s'.retried, flight := s'.flight, turns := s'.turns,
                      sends := s'.sends, closed := s'.closed)
    ensures OrderInv(s')
  {
  }

  lemma RequestKeeps(c: Config, s: State)
    requires Inv(c, s) && !s.destroyed
    ensures Inv(c, Next(c, s, Request))
  {
    hide DoRequest, Completed;
    var s1 := s.(pending := s.pending + [s.issued], issued := s.issued + 1);
    assert OrderInv(s1);
    if s.pending == [] { DoRequestKeeps(c, s1); }
  }

  lemma ReturnKeeps(c: Config, s: State)
    requires Inv(c, s) && s.replying && !s.destroyed
    ensures Inv(c, Next(c, s, CallbackReturns))
  {
    hide DoRequest, Completed;
    var s1 := s.(pending := s.pending[1..], replying := false);
    assert OrderInv(s1);
    if s1.pending != [] && !s.closed { DoRequestKeeps(c, s1); }
  }

  lemma DestroyKeeps(c: Config, s: State)
    requires Inv(c, s) && !s.destroyed && s.flight == [] && !s.replying
    ensures Inv(c, Next(c, s, Destroy))
  {
  }

  lemma NextKeeps(c: Config, s: State, a: Action)
    requires Inv(c, s)
    ensures Inv(c, Next(c, s, a))
  {
    hide Completed, Landed, DoRequest, Cancelled;
    if Next(c, s, a) != s {
      match a
      case Request => RequestKeeps(c, s);
      case Close => SameOrder(s, Next(c, s, a));
      case Complete(k, e) => CompletedKeeps(c, s, e);
      case CallbackReturns => ReturnKeeps(c, s);
      case Destroy => DestroyKeeps(c, s);
    }
  }

  lemma {:induction false} RunKeeps(c: Config, actions: seq<Action>)
    ensures Inv(c, Run(c, actions))
    decreases |actions|
  {
    hide Inv, Next;
    if actions == [] {
      InitHolds(c);
    } else {
      RunKeeps(c, actions[..|actions| - 1]);
      NextKeeps(c, Run(c, actions[..|actions| - 1]), actions[|actions| - 1]);
    }
  }

  lemma InitHolds(c: Config)
    ensures Inv(c, Init())
  {
  }

  // ------------------------------------------------------------------------ results

  ghost predicate Reachable(c: Config, s: State) { exists actions :: Run(c, actions) == s }

  lemma ReachableKeeps(c: Config, s: State)
    requires Reachable(c, s)
    ensures Inv(c, s)
  {
    hide Inv;
    var actions :| Run(c, actions) == s;
    RunKeeps(c, actions);
  }

  /** Answers come in request order, each request at most once, and all of them by destruction. */
  lemma AnsweredOnceInOrder(c: Config, s: State)
    requires Reachable(c, s)
    ensures |s.answered| <= s.issued && forall i | 0 <= i < |s.answered| :: s.answered[i].id == i
    ensures s.destroyed ==> |s.answered| == s.issued
    ensures s.flight == [] && !s.replying && !s.closed ==> |s.answered| == s.issued
  {
    ReachableKeeps(c, s);
  }

  /**
   Of all the operations ever started at most one is under way; it was started for the
   oldest unanswered request, and no callback is running then.
   */
  lemma OneOperation(c: Config, s: State)
    requires Reachable(c, s)
    ensures |s.flight| <= 1
    ensures forall f | f in s.flight ::
              s.pending != [] && f.request == s.pending[0] == |s.answered| && !s.replying && !s.destroyed
  {
    ReachableKeeps(c, s);
  }

  /**
   From s, where nothing is under way, the front request is answered, or it is served by
   an operation with less work left than a completed operation of the given stage.
   */
  ghost predicate Served(s: State, s': State, stage: nat)
    requires s.pending != []
  {
    && s'.pending == s.pending && s'.issued == s.issued && s'.closed == s.closed && s'.destroyed == s.destroyed
    && (if s'.replying then
          && s'.flight == [] && |s'.answered| == |s.answered| + 1 && s'.answered[..|s.answered|] == s.answered
          && s'.answered[|s.answered|].id == s.pending[0]
          && (s.closed ==> s'.answered[|s.answered|].outcome == Failed(Canceled))
        else
          && s'.answered == s.answered && !s.closed
          && |s'.flight| == 1 && s'.flight[0].request == s.pending[0]
          && (s'.retried == s.retried + 1 || (s'.retried == s.retried && Stage(s'.flight[0].op) < stage)))
  }

  lemma RetryOrFailServes(c: Config, s: State, code: Code, stage: nat)
    requires s.pending != [] && s.flight == [] && !s.replying && !s.closed
    ensures Served(s, RetryOrFail(c, s, code), stage)
  {
  }

  lemma OnHandshakeServes(c: Config, s: State, code: Code, stage: nat)
    requires s.pending != [] && s.flight == [] && !s.replying && stage >= 3
    ensures Served(s, OnHandshake(c, s, code), stage)
  {
    hide RetryOrFail;
    if !s.closed { RetryOrFailServes(c, s, code, stage); }
  }

  lemma OnReadServes(c: Config, s: State, e: Event)
    requires s.pending != [] && s.flight == [] && !s.replying
    ensures Served(s, OnRead(c, s, e), 1)
  {
    hide RetryOrFail;
    if !s.closed { RetryOrFailServes(c, s.(connected := false), e.code, 1); }
  }

  /** Every handler serves the front request. */
  lemma CompletedServes(c: Config, s: State, op: Op, e: Event)
    requires s.pending != [] && s.flight == [] && !s.replying
    ensures Served(s, Completed(c, s, op, e), Stage(op))
  {
    hide RetryOrFail, OnHandshake, OnRead;
    match op
    case Read => OnReadServes(c, s, e);
    case Handshake => OnHandshakeServes(c, s, e.code, 3);
    case Connect =>
      OnHandshakeServes(c, s, Success, 4);
      OnHandshakeServes(c, s, e.sslCode, 4);
      if !s.closed { RetryOrFailServes(c, s, e.code, 4); }
    case Resolve => if !s.closed { RetryOrFailServes(c, s, e.code, 5); }
    case Send => if !s.closed { RetryOrFailServes(c, s.(connected := false), e.code, 2); }
  }

  lemma CompletedProgress(c: Config, s: State, e: Event)
    requires Inv(c, s) && s.flight != []
    ensures s.pending != [] && !s.replying && Served(s, Next(c, s, Complete(0, e)), Stage(s.flight[0].op))
  {
    LandedBetween(c, s);
    hide Landed, Completed, OrderInv;
    CompletedServes(c, Landed(s, 0), s.flight[0].op, e);
  }

  /**
   Whatever the run, a request takes at most 5(max + 1) completions and max + 1 sends, and
   every completion makes progress on the front request.
   */
  lemma BoundedWork(c: Config, s: State, k: nat, e: Event)
    requires Reachable(c, s)
    ensures s.turns <= 5 * (c.maxRetry + 1) && s.sends <= c.maxRetry + 1 && s.retried <= c.maxRetry
    ensures k < |s.flight| ==> s.pending != [] && Served(s, Next(c, s, Complete(k, e)), Stage(s.flight[k].op))
  {
    ReachableKeeps(c, s);
    hide Next, OrderInv;
    if k < |s.flight| { CompletedProgress(c, s, e); }
  }

  // ------------------------------------------------------- what each completion leads to

  /** The front request gets this answer, and nothing is under way. */
  ghost predicate Answers(s: State, s': State, outcome: Outcome)
    requires s.pending != []
  {
    s'.replying && s'.flight == [] && s'.answered == s.answered + [Answer(s.pending[0], outcome, s.retried)]
  }

  /** The front request is served on by this operation, after this many retries. */
  ghost predicate ServedBy(s: State, s': State, op: Op, retried: nat)
    requires s.pending != []
  {
    !s'.replying && s'.answered == s.answered && s'.retried == retried && s'.flight == [Flight(op, s.pending[0])]
  }

  /** An error is retried while retries are left and then reported; a cancellation is reported at once. */
  ghost predicate FailureHandled(c: Config, s: State, s': State, code: Code)
    requires s.pending != []
  {
    && (code.Canceled? ==> Answers(s, s', Failed(Canceled)))
    && (code.Other? ==>
          if s.retried < c.maxRetry then ServedBy(s, s', Resolve, s.retried + 1) else Answers(s, s', Failed(Other)))
  }

  /** The code that decides: that of the completion, or the error of setting the host name. */
  function Verdict(c: Config, op: Op, e: Event): Code {
    if op.Connect? && e.code.Success? && c.scheme.Https? && !e.named then e.sslCode else e.code
  }

  /** What follows a success. */
  ghost predicate SuccessHandled(c: Config, s: State, s': State, op: Op, e: Event)
    requires s.pending != []
  {
    match op
    case Resolve => ServedBy(s, s', Connect, s.retried)
    case Connect => ServedBy(s, s', if c.scheme.Https? && e.named then Handshake else Send, s.retried)
    case Handshake => ServedBy(s, s', Send, s.retried)
    case Send => ServedBy(s, s', Read, s.retried)
    case Read =>
      if e.statusOk || s.retried >= c.maxRetry then Answers(s, s', Received(e.statusOk))
      else ServedBy(s, s', if e.keepAlive then Send else Resolve, s.retried + 1)
  }

  /** The whole of what a completion does to an open client, or to a closed one. */
  ghost predicate Handled(c: Config, s: State, s': State, op: Op, e: Event)
    requires s.pending != []
  {
    if s.closed then Answers(s, s', Failed(Canceled)) && s'.connected == s.connected
    else
      && FailureHandled(c, s, s', Verdict(c, op, e))
      && (Verdict(c, op, e).Success? ==> SuccessHandled(c, s, s', op, e))
      && (s'.replying ==> (s'.connected <==> op.Read? && e.code.Success? && e.keepAlive))
  }

  lemma FailureLaw(c: Config, s: State, code: Code)
    requires s.pending != [] && s.flight == [] && !s.replying && s.retried <= c.maxRetry
    ensures FailureHandled(c, s, RetryOrFail(c, s, code), code)
  {
  }

  lemma HandshakeLaw(c: Config, s: State, code: Code)
    requires s.pending != [] && s.flight == [] && !s.replying && !s.closed && s.retried <= c.maxRetry
    ensures FailureHandled(c, s, OnHandshake(c, s, code), code)
    ensures code.Success? ==> ServedBy(s, OnHandshake(c, s, code), Send, s.retried)
    ensures OnHandshake(c, s, code).replying ==> OnHandshake(c, s, code).connected == s.connected
  {
    FailureLaw(c, s, code);
  }

  lemma ReadLaw(c: Config, s: State, e: Event)
    requires s.pending != [] && s.flight == [] && !s.replying && s.retried <= c.maxRetry && s.connected
    ensures Handled(c, s, OnRead(c, s, e), Read, e)
  {
  }

  /** Every handler, in a state in which its operation has just completed. */
  lemma CompletedLaw(c: Config, s: State, op: Op, e: Event)
    requires s.pending != [] && s.flight == [] && !s.replying && s.retried <= c.maxRetry
    requires s.connected <==> op.Send? || op.Read?
    ensures Handled(c, s, Completed(c, s, op, e), op, e)
  {
    if op.Read? {
      ReadLaw(c, s, e);
    } else if !s.closed {
      hide FailureHandled, OnHandshake, OnRead;
      HandshakeLaw(c, s, e.code);
      HandshakeLaw(c, s, e.sslCode);
      HandshakeLaw(c, s, Success);
      FailureLaw(c, s, e.code);
      var off := s.(connected := false);
      FailureLaw(c, off, e.code);
      SameFailure(c, s, off, RetryOrFail(c, off, e.code), e.code);
    }
  }

  lemma SameFailure(c: Config, s: State, t: State, s': State, code: Code)
    requires s.pending != [] && t == s.(connected := t.connected) && FailureHandled(c, t, s', code)
    ensures FailureHandled(c, s, s', code)
  {
  }

  lemma HandledLater(c: Config, s: State, t: State, s': State, op: Op, e: Event)
    requires s.pending != [] && t == s.(flight := t.flight, turns := t.turns) && Handled(c, t, s', op, e)
    ensures Handled(c, s, s', op, e)
  {
  }

  lemma CompletionHandled(c: Config, s: State, e: Event)
    requires Inv(c, s) && s.flight != []
    ensures s.pending != [] && Handled(c, s, Next(c, s, Complete(0, e)), s.flight[0].op, e)
  {
    LandedBetween(c, s);
    hide Landed, Completed, OrderInv, Handled;
    var t, op := Landed(s, 0), s.flight[0].op;
    CompletedLaw(c, t, op, e);
    HandledLater(c, s, t, Completed(c, t, op, e), op, e);
  }

  /** On every run: what a completion leads to, error by error and success by success. */
  lemma CompletionLaw(c: Config, s: State, k: nat, e: Event)
    requires Reachable(c, s) && k < |s.flight|
    ensures s.pending != [] && Handled(c, s, Next(c, s, Complete(k, e)), s.flight[k].op, e)
  {
    ReachableKeeps(c, s);
    hide Next, OrderInv, Handled;
    CompletionHandled(c, s, e);
  }

  /** A completion is answered with a cancellation only on a closed client or for a cancellation. */
  lemma CanceledOnlyIf(c: Config, s: State, k: nat, e: Event)
    requires Reachable(c, s) && k < |s.flight|
    ensures s.pending != []
    ensures Answers(s, Next(c, s, Complete(k, e)), Failed(Canceled)) ==>
              s.closed || Verdict(c, s.flight[k].op, e).Canceled?
  {
    CompletionLaw(c, s, k, e);
    hide Next;
    var s' := Next(c, s, Complete(k, e));
    if Answers(s, s', Failed(Canceled)) {
      assert s'.answered[|s.answered|].outcome == Failed(Canceled);
    }
  }

  /** A failure or a bad status is reported only for a cancellation or when no retry is left. */
  lemma FailuresJustified(c: Config, s: State, i: nat)
    requires Reachable(c, s) && i < |s.answered|
    ensures Justified(c, s.answered[i])
  {
    ReachableKeeps(c, s);
  }

  /** Once closed, every further answer is a cancellation. */
  lemma ClosedCancels(c: Config, s: State, a: Action)
    requires Reachable(c, s) && s.closed
    ensures var s' := Next(c, s, a);
      s'.closed && |s.answered| <= |s'.answered| && s'.answered[..|s.answered|] == s.answered
      && forall i | |s.answered| <= i < |s'.answered| :: s'.answered[i].outcome == Failed(Canceled)
  {
    ReachableKeeps(c, s);
    hide Completed, Landed, Reachable, OrderInv, RetryInv;
    match a
    case Complete(k, e) => if Next(c, s, a) != s { CompletedProgress(c, s, e); }
    case _ =>
  }
}
