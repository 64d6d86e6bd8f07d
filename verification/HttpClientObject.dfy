/**
 BaseHttpClient as an object: its methods as they are written, updating its fields. Each
 keeps the client valid, so everything proved of reachable states holds of the object, and
 states what its caller gets. A callback is where `response` stops and AfterCallback goes
 on: in between, the client may be called again.
 */
module HttpClientObject {
  import opened HttpClient

  class BaseHttpClient {
    const config: Config
    var pendingRequests: seq<nat>
    var retriedTimes: nat
    var closed: bool
    var connected: bool
    var issued: nat
    // what the client does not record: operations under way are held by the I/O context
    ghost var flight: seq<Flight>
    ghost var replying: bool
    ghost var destroyed: bool
    ghost var answered: seq<Answer>
    ghost var turns: nat
    ghost var sends: nat

    ghost function View(): State
      reads this
    {
      State(pendingRequests, closed, connected, retriedTimes, flight,
            replying, destroyed, issued, answered, turns, sends)
    }

    ghost predicate Valid()
      reads this
    {
      Inv(config, View())
    }

    constructor (scheme: Scheme, maxRetryTimes: nat)
      ensures Valid() && config == Config(scheme, maxRetryTimes) && View() == Init()
    {
      config := Config(scheme, maxRetryTimes);
      pendingRequests, retriedTimes, closed, connected, issued := [], 0, false, false, 0;
      flight, replying, destroyed, answered, turns, sends := [], false, false, [], 0, 0;
      new;
      InitHolds(config);
    }

    // ------------------------------------------------------------------ for callers

    /** Get and Post: queued behind the others, or started at once; never answered before it returns. */
    method Ask()
      requires Valid() && !destroyed
      modifies this
      ensures Valid() && View() == Next(config, old(View()), Request)
      ensures pendingRequests == old(pendingRequests) + [old(issued)] && answered == old(answered)
      ensures old(pendingRequests) != [] ==> flight == old(flight)
      ensures old(pendingRequests) == [] ==> |flight| == 1 && flight[0].request == old(issued)
    {
      ghost var s := View();
      RequestKeeps(config, s);
      hide Inv;
      if |pendingRequests| != 0 {
        pendingRequests, issued := pendingRequests + [issued], issued + 1;
        return;
      }
      OnlyFrontFlies(config, s);
      pendingRequests, issued := pendingRequests + [issued], issued + 1;
      StartFront();
    }

    method CloseClient()
      requires Valid() && !destroyed
      modifies this`closed
      ensures Valid() && closed && View() == Next(config, old(View()), Close)
    {
      NextKeeps(config, View(), Close);
      if closed { return; }
      closed := true;
    }

    /**
     response from the callback's return: the answered request is gone, whatever the
     callback asked for is still queued, and the next request is under way unless the
     client is closed.
     */
    method AfterCallback()
      requires Valid() && replying
      modifies this
      ensures Valid() && View() == Next(config, old(View()), CallbackReturns)
      ensures !replying && pendingRequests == old(pendingRequests)[1..] && answered == old(answered)
      ensures pendingRequests != [] && !closed ==>
                |flight| == 1 && flight[0].request == pendingRequests[0] && retriedTimes == 0
      ensures pendingRequests == [] || closed ==> flight == []
    {
      ghost var s := View();
      OnlyFrontFlies(config, s);
      ReturnKeeps(config, s);
      hide Inv;
      pendingRequests := pendingRequests[1..];
      replying := false;
      if |pendingRequests| != 0 && !closed {
        StartFront();
      }
    }

    /** The destructor: every request still pending is answered as cancelled, in order. */
    method Destruct()
      requires Valid() && flight == [] && !replying && !destroyed
      modifies this
      ensures Valid() && destroyed && View() == Next(config, old(View()), Destroy)
      ensures |answered| == issued && forall i | 0 <= i < |answered| :: answered[i].id == i
      ensures answered == old(answered) + Cancelled(old(pendingRequests), retriedTimes)
    {
      DestroyKeeps(config, View());
      ghost var all := Cancelled(pendingRequests, retriedTimes);
      var i := 0;
      while i < |pendingRequests|
        invariant 0 <= i <= |pendingRequests| && answered == old(answered) + all[..i]
        modifies this`answered
      {
        answered := answered + [Answer(pendingRequests[i], Failed(Canceled), retriedTimes)];
        assert all[..i + 1] == all[..i] + [all[i]];
        i := i + 1;
      }
      assert all[..i] == all;
      pendingRequests, destroyed := [], true;
    }

    // ----------------------------------------------------------- completion handlers

    /** A resolved name leads to a connection attempt; anything else to a retry or an answer. */
    method OnResolve(code: Code)
      requires Valid() && flight != [] && flight[0].op.Resolve?
      modifies this
      ensures Valid() && old(pendingRequests) != [] && Served(old(View()), View(), Stage(Resolve))
      ensures !closed ==> FailureHandled(config, old(View()), View(), code)
      ensures code.Success? && !closed ==> flight == [Flight(Connect, pendingRequests[0])]
      ensures forall e: Event | e.code == code :: View() == Next(config, old(View()), Complete(0, e))
    {
      ghost var s := View();
      Deliver();
      HandlerMeans(config, s, Event(code, true, Other, true, true));
      hide Inv, Served, FailureHandled, Completed, Next;
      ResolveDone(code);
    }

    /** A connection leads to the handshake, which the plain client skips. */
    method OnConnect(code: Code, named: bool, sslCode: Code)
      requires Valid() && flight != [] && flight[0].op.Connect?
      modifies this
      ensures Valid() && old(pendingRequests) != [] && Served(old(View()), View(), Stage(Connect))
      ensures !closed ==>
                FailureHandled(config, old(View()), View(),
                               Verdict(config, Connect, Event(code, named, sslCode, true, true)))
      ensures code.Success? && !closed && config.scheme.Http? ==>
                connected && flight == [Flight(Send, pendingRequests[0])]
      ensures code.Success? && !closed && config.scheme.Https? && named ==>
                !connected && flight == [Flight(Handshake, pendingRequests[0])]
      ensures forall e: Event | e.code == code && e.named == named && e.sslCode == sslCode ::
                View() == Next(config, old(View()), Complete(0, e))
    {
      ghost var s := View();
      Deliver();
      HandlerMeans(config, s, Event(code, named, sslCode, true, true));
      assert !connected;
      hide Inv, Served, FailureHandled, Completed, Next;
      ConnectDone(code, named, sslCode);
    }

    /** A handshake leads to the connection being open and the request being sent. */
    method OnHandshaken(code: Code)
      requires Valid() && flight != [] && flight[0].op.Handshake?
      modifies this
      ensures Valid() && old(pendingRequests) != [] && Served(old(View()), View(), Stage(Handshake))
      ensures !closed ==> FailureHandled(config, old(View()), View(), code)
      ensures code.Success? && !closed ==> connected && flight == [Flight(Send, pendingRequests[0])]
      ensures forall e: Event | e.code == code :: View() == Next(config, old(View()), Complete(0, e))
    {
      ghost var s := View();
      Deliver();
      HandlerMeans(config, s, Event(code, true, Other, true, true));
      hide Inv, Served, FailureHandled, Completed, Next;
      HandshakeDone(code);
    }

    /** A request sent leads to its response being read; an error closes the connection. */
    method OnRequestSent(code: Code)
      requires Valid() && flight != [] && flight[0].op.Send?
      modifies this
      ensures Valid() && old(pendingRequests) != [] && Served(old(View()), View(), Stage(Send))
      ensures !closed ==> FailureHandled(config, old(View()), View(), code)
      ensures code.Success? && !closed ==> connected && flight == [Flight(Read, pendingRequests[0])]
      ensures !code.Success? && !closed ==> !connected
      ensures forall e: Event | e.code == code :: View() == Next(config, old(View()), Complete(0, e))
    {
      ghost var s := View();
      Deliver();
      HandlerMeans(config, s, Event(code, true, Other, true, true));
      assert connected;
      hide Inv, Served, FailureHandled, Completed, Next;
      SentDone(code);
    }

    /**
     A good response is the front request's answer; a bad one is answered only when the
     retries are used up. The connection stays open exactly for a response that keeps it.
     */
    method OnResponseRead(code: Code, keepAlive: bool, statusOk: bool)
      requires Valid() && flight != [] && flight[0].op.Read?
      modifies this
      ensures Valid() && old(pendingRequests) != [] && Served(old(View()), View(), Stage(Read))
      ensures !closed ==> FailureHandled(config, old(View()), View(), code)
      ensures !closed ==> (connected <==> code.Success? && keepAlive)
      ensures !closed && code.Success? ==> (replying <==> statusOk || old(retriedTimes) >= config.maxRetry)
      ensures !closed && code.Success? && replying ==>
                answered == old(answered) + [Answer(old(pendingRequests)[0], Received(statusOk), old(retriedTimes))]
      ensures forall e: Event | e.code == code && e.keepAlive == keepAlive && e.statusOk == statusOk ::
                View() == Next(config, old(View()), Complete(0, e))
    {
      ghost var s := View();
      Deliver();
      ghost var e := Event(code, true, Other, keepAlive, statusOk);
      HandlerMeans(config, s, e);
      if !closed { ReadMeans(config, Landed(s, 0), e); }
      hide Inv, Served, OnRead, FailureHandled;
      ReadDone(code, keepAlive, statusOk);
    }

    // --------------------------------------------------------------------- the parts

    /** on_handshake's body, reached from a completion or straight from on_connect. */
    method HandshakeDone(code: Code)
      requires |pendingRequests| != 0
      modifies this
      ensures View() == OnHandshake(config, old(View()), code)
    {
      if closed {
        Response(Failed(Canceled));
        return;
      }
      if code.Success? {
        connected := true;
        SendIt();
        return;
      }
      if !code.Canceled? && retriedTimes < config.maxRetry {
        retriedTimes := retriedTimes + 1;
        Launch(Resolve);
        return;
      }
      Response(Failed(code));
    }

    /** on_response_read's body. */
    method ReadDone(code: Code, keepAlive: bool, statusOk: bool)
      requires |pendingRequests| != 0
      modifies this
      ensures forall e: Event | e.code == code && e.keepAlive == keepAlive && e.statusOk == statusOk ::
                View() == OnRead(config, old(View()), e)
    {
      if closed {
        Response(Failed(Canceled));
        return;
      }
      if code.Success? {
        if !keepAlive { connected := false; }
        if statusOk || retriedTimes >= config.maxRetry {
          Response(Received(statusOk));
          return;
        }
        retriedTimes := retriedTimes + 1;
        if connected {
          SendIt();
          return;
        }
        Launch(Resolve);
        return;
      }
      connected := false;
      if !code.Canceled? && retriedTimes < config.maxRetry {
        retriedTimes := retriedTimes + 1;
        Launch(Resolve);
        return;
      }
      Response(Failed(code));
    }

    /** The body of on_resolve. */
    method ResolveDone(code: Code)
      requires |pendingRequests| != 0
      modifies this
      ensures forall e: Event | e.code == code :: View() == Completed(config, old(View()), Resolve, e)
    {
      if closed {
        Response(Failed(Canceled));
        return;
      }
      if code.Success? {
        Launch(Connect);
        return;
      }
      if !code.Canceled? && retriedTimes < config.maxRetry {
        retriedTimes := retriedTimes + 1;
        Launch(Resolve);
        return;
      }
      Response(Failed(code));
    }

    /** The body of on_connect. */
    method ConnectDone(code: Code, named: bool, sslCode: Code)
      requires |pendingRequests| != 0
      modifies this
      ensures forall e: Event | e.code == code && e.named == named && e.sslCode == sslCode ::
        View() == Completed(config, old(View()), Connect, e)
    {
      if closed {
        Response(Failed(Canceled));
        return;
      }
      if code.Success? {
        if config.scheme.Http? {
          HandshakeDone(Success);
        } else if named {
          Launch(Handshake);
        } else {
          HandshakeDone(sslCode);
        }
        return;
      }
      if !code.Canceled? && retriedTimes < config.maxRetry {
        retriedTimes := retriedTimes + 1;
        Launch(Resolve);
        return;
      }
      Response(Failed(code));
    }

    /** The body of on_request_sent. */
    method SentDone(code: Code)
      requires |pendingRequests| != 0
      modifies this
      ensures forall e: Event | e.code == code :: View() == Completed(config, old(View()), Send, e)
    {
      if closed {
        Response(Failed(Canceled));
        return;
      }
      if code.Success? {
        Launch(Read);
        return;
      }
      connected := false;
      if !code.Canceled? && retriedTimes < config.maxRetry {
        retriedTimes := retriedTimes + 1;
        Launch(Resolve);
        return;
      }
      Response(Failed(code));
    }

    /** do_request. */
    method StartFront()
      requires |pendingRequests| != 0
      modifies this
      ensures View() == DoRequest(old(View()))
    {
      retriedTimes, turns, sends := 0, 0, 0;
      if connected {
        SendIt();
        return;
      }
      Launch(Resolve);
    }

    method SendIt()
      requires |pendingRequests| != 0
      modifies this`flight, this`sends
      ensures View() == SendRequest(old(View()))
    {
      sends := sends + 1;
      Launch(Send);
    }

    /** An asynchronous operation is started. */
    method Launch(op: Op)
      requires |pendingRequests| != 0
      modifies this`flight
      ensures View() == Start(old(View()), op)
    {
      flight := flight + [Flight(op, pendingRequests[0])];
    }

    /** The oldest operation under way is delivered to its handler. */
    ghost method Deliver()
      requires flight != []
      modifies this`flight, this`turns
      ensures View() == Landed(old(View()), 0)
    {
      assert flight[..0] + flight[1..] == flight[1..];
      flight, turns := flight[1..], turns + 1;
    }

    /** response up to the callback, which gets the outcome. */
    method Response(outcome: Outcome)
      requires |pendingRequests| != 0
      modifies this`replying, this`answered
      ensures View() == Respond(old(View()), outcome)
    {
      answered := answered + [Answer(pendingRequests[0], outcome, retriedTimes)];
      replying := true;
    }
  }

  /** Nothing is under way when nothing is pending or a callback runs. */
  lemma OnlyFrontFlies(c: Config, s: State)
    requires Inv(c, s)
    ensures s.pending == [] || s.replying ==> s.flight == []
    ensures s.replying ==> s.pending != [] && !s.destroyed
  {
  }

  /** What a delivered completion does in every valid state. */
  lemma HandlerMeans(c: Config, s: State, e: Event)
    requires Inv(c, s) && s.flight != []
    ensures s.pending != [] && !s.replying && !s.destroyed
    ensures Landed(s, 0) == s.(flight := [], turns := s.turns + 1)
    ensures Next(c, s, Complete(0, e)) == Completed(c, Landed(s, 0), s.flight[0].op, e)
    ensures Inv(c, Next(c, s, Complete(0, e))) && Served(s, Next(c, s, Complete(0, e)), Stage(s.flight[0].op))
    ensures Handled(c, s, Next(c, s, Complete(0, e)), s.flight[0].op, e)
  {
    hide OrderInv, Completed, Served, Handled;
    LandedBetween(c, s);
    CompletionHandled(c, s, e);
    CompletedProgress(c, s, e);
    CompletedKeeps(c, s, e);
  }

  /** What reading a response does to the connection and the front request. */
  lemma ReadMeans(c: Config, s: State, e: Event)
    requires s.pending != [] && s.connected && !s.replying && !s.closed
    ensures var s' := OnRead(c, s, e);
      && (s'.connected <==> e.code.Success? && e.keepAlive)
      && (e.code.Success? ==> (s'.replying <==> e.statusOk || s.retried >= c.maxRetry))
      && (e.code.Success? && s'.replying ==>
            s'.answered == s.answered + [Answer(s.pending[0], Received(e.statusOk), s.retried)])
  {
  }
}
