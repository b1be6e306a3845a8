/**
 The light client: it retries only the connect, within a bound, and then sends one request.  Over
 any number of broker restarts that request is executed at most once.
 */
module BrokerClient {

  // ---------------------------------------------------------------- waiting for the broker

  datatype Connect = Connected | Missing | ConnRefused | OtherError

  /** What one attempt meets: its result, the clock (in milliseconds) when the deadline is set and
      when it is compared, and whether systemd has the unit up or coming back. */
  datatype Attempt = Attempt(result: Connect, first: int, second: int, restarting: bool)

  type World = nat -> Attempt

  const PAUSE := 250

  /** The clock never runs back, and a sleep lasts at least as long as asked. */
  ghost predicate TimePasses(w: World)
  {
    forall k: nat :: w(k).first <= w(k).second && w(k).second + PAUSE <= w(k + 1).first
  }

  /** Nothing was sent, the deadline has not come, and the broker is on its way. */
  predicate Retries(w: World, wait: nat, k: nat)
  {
    (w(k).result.Missing? || w(k).result.ConnRefused?) && w(k).second < w(0).first + wait && w(k).restarting
  }

  lemma {:induction false} Elapsed(w: World, k: nat)
    requires TimePasses(w)
    ensures w(0).first + PAUSE * k <= w(k).first
  {
    if k > 0 { Elapsed(w, k - 1); }
  }

  /** Stops at the first attempt that is not to be retried and reports it; no socket is left open
      but the one returned. */
  method ConnectToBroker(wait: nat, w: World) returns (r: Connect, attempts: nat, open: nat)
    requires TimePasses(w)
    ensures attempts >= 1 && r == w(attempts - 1).result && !Retries(w, wait, attempts - 1)
    ensures forall k :: 0 <= k < attempts - 1 ==> Retries(w, wait, k)
    ensures attempts <= (wait + PAUSE - 1) / PAUSE + 1
    ensures open == if r.Connected? then 1 else 0
  {
    var deadline := 0;
    attempts, open := 0, 0;
    while true
      invariant open == 0 && (attempts > 0 ==> deadline == w(0).first + wait)
      invariant forall k :: 0 <= k < attempts ==> Retries(w, wait, k)
      invariant attempts <= (wait + PAUSE - 1) / PAUSE
      decreases (wait + PAUSE - 1) / PAUSE - attempts
    {
      var a := w(attempts);
      open := open + 1;
      attempts := attempts + 1;
      if a.result.Connected? { return a.result, attempts, open; }
      open := open - 1;
      if a.result.OtherError? { return a.result, attempts, open; }
      if attempts == 1 { deadline := a.first + wait; }
      if a.second >= deadline || !a.restarting { return a.result, attempts, open; }
      Elapsed(w, attempts - 1);
      Fits(attempts, wait);
    }
  }

  lemma Fits(attempts: nat, wait: nat)
    requires attempts >= 1 && PAUSE * (attempts - 1) < wait
    ensures attempts <= (wait + PAUSE - 1) / PAUSE
  {}

  // ---------------------------------------------------------------- one call across restarts

  /** How much of the request the client has sent; the whole of it includes closing its sending
      side, without which the daemon reads on. */
  datatype Sent = Nothing | Part | Whole

  /** What the daemon sent before it closed the connection: the whole reply, or less. */
  datatype Reply = Full(ok: bool) | Cut

  /** The connection: not there, in the backlog of daemon g, given to a handler thread, its request
      being executed, its reply being sent, closed by the handler, or broken by the end of the
      daemon.  ok: the reply says ok; read: the handler had read the whole request. */
  datatype Conn =
    | NoConn | Queued(g: nat) | Handled(g: nat) | Running(g: nat)
    | Replying(g: nat, ok: bool, read: bool) | Closed(g: nat, reply: Reply, read: bool) | Broken

  datatype Why = TimedOut | Disconnected

  /** The client: trying to connect, sending, waiting for the reply, or finished.  Lost is exit code
      125 after a connection was made, Unreachable the same before. */
  datatype Client = Trying | Sending | Waiting | Got(ok: bool) | Lost(why: Why) | Unreachable

  /** Daemons are numbered; up: daemon `current` runs; listening: it accepts on the socket path;
      executed: the daemons that executed the request. */
  datatype State = State(client: Client, sent: Sent, conn: Conn, up: bool, current: nat, listening: bool, executed: seq<nat>)

  datatype Event =
    | Dial | GiveUp | SendPart | SendRest | TimeOut | Receive | Notice     // the client
    | Accept | Execute | Reject(read: bool) | Finish(ok: bool) | Close(full: bool)     // a handler thread
    | StartDaemon | StopListening | Exit                                  // the daemon

  /** A running daemon has the connection in its hands. */
  predicate InDaemon(c: Conn) { c.Queued? || c.Handled? || c.Running? || c.Replying? }

  predicate Gone(c: Client) { c.Got? || c.Lost? || c.Unreachable? }

  predicate Enabled(s: State, e: Event)
  {
    match e
    case Dial | GiveUp => s.client.Trying?
    case SendPart => s.client.Sending? && s.sent.Nothing?
    case SendRest => s.client.Sending? && InDaemon(s.conn)
    case TimeOut => s.client.Sending? || s.client.Waiting?
    case Receive => s.client.Waiting? && s.conn.Closed? && s.conn.reply.Full?
    case Notice =>     // a send that fails, a reset, or an end without a reply
      || (s.client.Sending? && (s.conn.Closed? || s.conn.Broken?))
      || (s.client.Waiting? && (s.conn.Broken? || (s.conn.Closed? && (s.conn.reply.Cut? || !s.conn.read))))
    case Accept => s.conn.Queued?
    case Execute => s.conn.Handled? && s.sent.Whole?
    case Reject(read) => s.conn.Handled? && (read ==> s.sent.Whole? || Gone(s.client))
    case Finish(_) => s.conn.Running?
    case Close(_) => s.conn.Replying?
    case StartDaemon => !s.up
    case StopListening => s.up && s.listening
    case Exit => s.up
  }

  /** A handler serves its connection whatever the client does meanwhile. */
  function Step(s: State, e: Event): (r: State)
    requires Enabled(s, e)
  {
    match e
    case Dial => if s.listening then s.(client := Sending, conn := Queued(s.current)) else s
    case GiveUp => s.(client := Unreachable)
    case SendPart => s.(sent := Part)
    case SendRest => s.(client := Waiting, sent := Whole)
    case TimeOut => s.(client := Lost(TimedOut))
    case Receive => s.(client := Got(s.conn.reply.ok))
    case Notice => s.(client := Lost(Disconnected))
    case Accept => s.(conn := Handled(s.conn.g))
    case Execute => s.(conn := Running(s.conn.g), executed := s.executed + [s.conn.g])
    case Reject(read) => s.(conn := Replying(s.conn.g, false, read))
    case Finish(ok) => s.(conn := Replying(s.conn.g, ok, true))
    case Close(full) => s.(conn := Closed(s.conn.g, if full then Full(s.conn.ok) else Cut, s.conn.read))
    case StartDaemon => s.(up := true, current := s.current + 1, listening := true)
    case StopListening => s.(listening := false)
    case Exit => s.(up := false, listening := false, conn := if InDaemon(s.conn) then Broken else s.conn)
  }

  predicate Init(s: State)
  {
    s.client.Trying? && s.sent.Nothing? && s.conn.NoConn? && s.executed == [] && (s.listening ==> s.up)
  }

  predicate StepAt(tr: seq<State>, ev: seq<Event>, i: nat)
    requires |tr| == |ev| + 1
  {
    i < |ev| ==> Enabled(tr[i], ev[i]) && tr[i + 1] == Step(tr[i], ev[i])
  }

  ghost predicate Run(tr: seq<State>, ev: seq<Event>)
  {
    |tr| == |ev| + 1 && Init(tr[0]) && forall i: nat :: StepAt(tr, ev, i)
  }

  predicate Inv(s: State)
  {
    && (s.listening ==> s.up)
    && |s.executed| <= 1 && (s.executed != [] ==> s.sent.Whole?)
    && (s.client.Trying? || s.client.Unreachable? <==> s.conn.NoConn?)
    && (s.client.Trying? || s.client.Unreachable? ==> s.sent.Nothing?)
    && (s.client.Sending? ==> !s.sent.Whole?) && (s.client.Waiting? || s.client.Got? ==> s.sent.Whole?)
    && (s.conn.NoConn? || s.conn.Queued? || s.conn.Handled? ==> s.executed == [])
    && (s.conn.Running? ==> s.executed == [s.conn.g])
    && (s.conn.Replying? && s.conn.ok ==> s.executed == [s.conn.g])
    && (s.conn.Closed? && s.conn.reply == Full(true) ==> s.executed == [s.conn.g])
    && (s.client.Got? ==> s.conn.Closed? && s.conn.reply == Full(s.client.ok))
    && (InDaemon(s.conn) ==> s.up && s.current == s.conn.g)
  }

  lemma StepInv(s: State, e: Event)
    requires Inv(s) && Enabled(s, e)
    ensures Inv(Step(s, e))
  {}

  lemma {:induction false} Reachable(tr: seq<State>, ev: seq<Event>, i: nat)
    requires Run(tr, ev) && i < |tr|
    ensures Inv(tr[i])
  {
    if i > 0 {
      Reachable(tr, ev, i - 1);
      assert StepAt(tr, ev, i - 1);
      StepInv(tr[i - 1], ev[i - 1]);
    }
  }

  /** At most one daemon executes the request, at most once, and none before the whole of it was
      sent; a client that found no daemon leaves none behind that executed it; and a reply that
      says ok means that exactly one did. */
  lemma AtMostOnce(tr: seq<State>, ev: seq<Event>, i: nat)
    requires Run(tr, ev) && i < |tr|
    ensures |tr[i].executed| <= 1
    ensures !tr[i].sent.Whole? || tr[i].client.Unreachable? ==> tr[i].executed == []
    ensures tr[i].client == Got(true) ==> |tr[i].executed| == 1
  {
    Reachable(tr, ev, i);
  }

  // ---------------------------------------------------------------- lost calls

  /** The daemon exits while it has the connection. */
  predicate CutsOff(s: State, e: Event) { e.Exit? && InDaemon(s.conn) }

  /** The handler closes the connection without the whole reply, or without having read the whole
      request. */
  predicate ClosesShort(s: State, e: Event) { e.Close? && s.conn.Replying? && (!e.full || !s.conn.read) }

  predicate Loses(s: State, e: Event) { e.TimeOut? || CutsOff(s, e) || ClosesShort(s, e) }

  /** What a call that can still be lost has behind it. */
  predicate Short(s: State)
  {
    s.client.Lost? || s.conn.Broken? || (s.conn.Closed? && (s.conn.reply.Cut? || !s.conn.read))
  }

  predicate ReadWhole(s: State)
  {
    s.client.Sending? && (s.conn.Replying? || s.conn.Closed?) ==> !s.conn.read
  }

  lemma ShortStep(s: State, e: Event)
    requires Inv(s) && ReadWhole(s) && Enabled(s, e)
    ensures ReadWhole(Step(s, e))
    ensures Short(Step(s, e)) ==> Short(s) || Loses(s, e)
    ensures Step(s, e).client == Lost(TimedOut) ==> s.client == Lost(TimedOut) || e.TimeOut?
    ensures Step(s, e).client == Lost(Disconnected) && s.client != Lost(Disconnected) ==> Short(s) && !s.client.Lost?
  {}

  lemma {:induction false} ReachableRead(tr: seq<State>, ev: seq<Event>, i: nat)
    requires Run(tr, ev) && i < |tr|
    ensures Inv(tr[i]) && ReadWhole(tr[i])
  {
    Reachable(tr, ev, i);
    if i > 0 {
      ReachableRead(tr, ev, i - 1);
      assert StepAt(tr, ev, i - 1);
      ShortStep(tr[i - 1], ev[i - 1]);
    }
  }

  /** Every lost call has its cause: the client's own time limit, a daemon that exited with the
      connection in its hands, or a handler that closed it without the whole reply or without having
      read the whole request. */
  lemma {:induction false} LostHasACause(tr: seq<State>, ev: seq<Event>, i: nat) returns (j: nat)
    requires Run(tr, ev) && i < |tr| && Short(tr[i])
    ensures j < i && Loses(tr[j], ev[j])
    ensures tr[i].client == Lost(TimedOut) ==> ev[j].TimeOut?
    ensures tr[i].client == Lost(Disconnected) ==> !ev[j].TimeOut?
    decreases i
  {
    assert i > 0;
    ReachableRead(tr, ev, i - 1);
    assert StepAt(tr, ev, i - 1);
    ShortStep(tr[i - 1], ev[i - 1]);
    if tr[i].client == Lost(TimedOut) && tr[i - 1].client != Lost(TimedOut) {
      j := i - 1;
    } else if Short(tr[i - 1]) {
      j := LostHasACause(tr, ev, i - 1);
      if ev[j].TimeOut? { TimeOutIsFinal(tr, ev, j, i - 1); }
    } else {
      j := i - 1;
    }
  }

  lemma {:induction false} TimeOutIsFinal(tr: seq<State>, ev: seq<Event>, j: nat, i: nat)
    requires Run(tr, ev) && j < i < |tr| && ev[j].TimeOut?
    ensures tr[i].client == Lost(TimedOut)
    decreases i
  {
    assert StepAt(tr, ev, i - 1);
    if j < i - 1 { TimeOutIsFinal(tr, ev, j, i - 1); }
  }

  /** The connection will bring no reply. */
  predicate Hopeless(s: State)
  {
    !s.client.Got? && (s.client.Lost? || s.conn.Broken? || (s.conn.Closed? && s.conn.reply.Cut?))
  }

  /** Conversely: after the time limit, after a daemon exited with the connection, and after a reply
      was cut, the client never gets a reply.  Only a handler that replied in full without reading
      everything leaves it open. */
  lemma {:induction false} NoReplyAfter(tr: seq<State>, ev: seq<Event>, j: nat, i: nat)
    requires Run(tr, ev) && j < i < |tr|
    requires ev[j].TimeOut? || CutsOff(tr[j], ev[j]) || ev[j] == Close(false)
    ensures Hopeless(tr[i])
    decreases i
  {
    Reachable(tr, ev, i - 1);
    assert StepAt(tr, ev, i - 1);
    if j < i - 1 { NoReplyAfter(tr, ev, j, i - 1); }
  }

  lemma Extend(tr: seq<State>, ev: seq<Event>, e: Event) returns (tr': seq<State>, ev': seq<Event>)
    requires Run(tr, ev) && Enabled(tr[|ev|], e)
    ensures Run(tr', ev') && ev' == ev + [e] && tr' == tr + [Step(tr[|ev|], e)]
  {
    tr', ev' := tr + [Step(tr[|ev|], e)], ev + [e];
    forall i: nat ensures StepAt(tr', ev', i) {
      if i < |ev| { assert StepAt(tr, ev, i); }
    }
  }

  /** Dialled, sent and accepted. */
  lemma Delivered() returns (tr: seq<State>, ev: seq<Event>)
    ensures Run(tr, ev) && |ev| == 3 && tr[3] == State(Waiting, Whole, Handled(0), true, 0, true, [])
    ensures forall k :: 0 <= k < 3 ==> !ev[k].Exit?
  {
    tr, ev := [State(Trying, Nothing, NoConn, true, 0, true, [])], [];
    tr, ev := Extend(tr, ev, Dial);
    tr, ev := Extend(tr, ev, SendRest);
    tr, ev := Extend(tr, ev, Accept);
  }

  /** A call cut off by an exit says nothing about whether the request ran: both can happen. */
  lemma LostMayHaveRun(ran: bool) returns (tr: seq<State>, ev: seq<Event>)
    ensures Run(tr, ev) && tr[|ev|].client == Lost(Disconnected) && |tr[|ev|].executed| == if ran then 1 else 0
  {
    tr, ev := Delivered();
    if ran { tr, ev := Extend(tr, ev, Execute); }
    tr, ev := Extend(tr, ev, Exit);
    tr, ev := Extend(tr, ev, Notice);
  }

  /** With the daemon up throughout: the client gives up at its time limit, and the request is
      executed all the same, afterwards. */
  lemma RunsAfterTimeOut() returns (tr: seq<State>, ev: seq<Event>)
    ensures Run(tr, ev) && (forall k :: 0 <= k < |ev| ==> !ev[k].Exit?) && |ev| == 5
    ensures tr[4].client == Lost(TimedOut) && tr[4].executed == [] && tr[5].executed == [0]
  {
    tr, ev := Delivered();
    tr, ev := Extend(tr, ev, TimeOut);
    tr, ev := Extend(tr, ev, Execute);
  }

  /** And an over-long request: the handler replies and closes before it has read everything, and the
      client, still sending, never sees the reply. */
  lemma TooLongIsLost() returns (tr: seq<State>, ev: seq<Event>)
    ensures Run(tr, ev) && (forall k :: 0 <= k < |ev| ==> !ev[k].Exit? && !ev[k].TimeOut?)
    ensures tr[|ev|].client == Lost(Disconnected) && tr[|ev|].executed == [] && tr[|ev|].conn == Closed(0, Full(false), false)
  {
    tr, ev := [State(Trying, Nothing, NoConn, true, 0, true, [])], [];
    tr, ev := Extend(tr, ev, Dial);
    tr, ev := Extend(tr, ev, Accept);
    tr, ev := Extend(tr, ev, SendPart);
    tr, ev := Extend(tr, ev, Reject(false));
    tr, ev := Extend(tr, ev, Close(true));
    tr, ev := Extend(tr, ev, Notice);
  }

  /** A reply that does not say ok leaves open whether the request ran. */
  lemma ErrorMayHaveRun(ran: bool) returns (tr: seq<State>, ev: seq<Event>)
    ensures Run(tr, ev) && tr[|ev|].client == Got(false) && |tr[|ev|].executed| == if ran then 1 else 0
  {
    tr, ev := Delivered();
    if ran {
      tr, ev := Extend(tr, ev, Execute);
      tr, ev := Extend(tr, ev, Finish(false));
    } else {
      tr, ev := Extend(tr, ev, Reject(true));
    }
    tr, ev := Extend(tr, ev, Close(true));
    tr, ev := Extend(tr, ev, Receive);
  }

  /** The client is never stuck: as long as it is not done it can go on by itself, and when its connection is at
      an end it sees that at once, without waiting for its time limit. */
  lemma NeverStuck(tr: seq<State>, ev: seq<Event>, i: nat)
    requires Run(tr, ev) && i < |tr| && !tr[i].client.Got? && !tr[i].client.Lost? && !tr[i].client.Unreachable?
    ensures tr[i].client.Trying? ==> Enabled(tr[i], Dial) && Enabled(tr[i], GiveUp)
    ensures !tr[i].client.Trying? ==> Enabled(tr[i], TimeOut)
    ensures tr[i].client.Sending? && tr[i].sent.Nothing? ==> Enabled(tr[i], SendPart)
    ensures tr[i].client.Sending? && !tr[i].conn.Closed? && !tr[i].conn.Broken? ==> Enabled(tr[i], SendRest)
    ensures tr[i].conn.Closed? || tr[i].conn.Broken? ==> Enabled(tr[i], Receive) || Enabled(tr[i], Notice)
    ensures tr[i].client.Waiting? && tr[i].conn.Closed? && tr[i].conn.reply.Full? ==> Enabled(tr[i], Receive)
  {
    Reachable(tr, ev, i);
  }

  /** A client that gives up half-way: the handler reads to the end of what came, refuses it as broken, and
      nothing runs. */
  lemma HalfIsRefused() returns (tr: seq<State>, ev: seq<Event>)
    ensures Run(tr, ev) && tr[|ev|].client == Lost(TimedOut) && tr[|ev|].sent.Part?
    ensures tr[|ev|].executed == [] && tr[|ev|].conn == Closed(0, Full(false), true)
  {
    tr, ev := [State(Trying, Nothing, NoConn, true, 0, true, [])], [];
    tr, ev := Extend(tr, ev, Dial);
    tr, ev := Extend(tr, ev, Accept);
    tr, ev := Extend(tr, ev, SendPart);
    tr, ev := Extend(tr, ev, TimeOut);
    tr, ev := Extend(tr, ev, Reject(true));
    tr, ev := Extend(tr, ev, Close(true));
  }

  /** From a fresh connection to the reply. */
  lemma Served(tr: seq<State>, ev: seq<Event>, g: nat) returns (tr': seq<State>, ev': seq<Event>)
    requires Run(tr, ev) && tr[|ev|] == State(Sending, Nothing, Queued(g), true, g, true, [])
    ensures Run(tr', ev') && ev <= ev' && tr <= tr' && tr'[|ev'|].client == Got(true) && tr'[|ev'|].executed == [g]
  {
    tr', ev' := Extend(tr, ev, SendRest);
    tr', ev' := Extend(tr', ev', Accept);
    tr', ev' := Extend(tr', ev', Execute);
    assert tr'[|ev'|].executed == [g];
    tr', ev' := Extend(tr', ev', Finish(true));
    tr', ev' := Extend(tr', ev', Close(true));
    tr', ev' := Extend(tr', ev', Receive);
  }

  /** A restart in between is waited out: the call then reaches the next daemon. */
  lemma RestartIsWaitedOut() returns (tr: seq<State>, ev: seq<Event>)
    ensures Run(tr, ev) && tr[|ev|].client == Got(true) && tr[|ev|].executed == [1]
    ensures tr[0].up && tr[0].listening && exists i :: 0 <= i < |ev| && ev[i].Dial? && !tr[i].listening
  {
    tr, ev := [State(Trying, Nothing, NoConn, true, 0, true, [])], [];
    tr, ev := Extend(tr, ev, StopListening);
    tr, ev := Extend(tr, ev, Dial);
    tr, ev := Extend(tr, ev, Exit);
    tr, ev := Extend(tr, ev, StartDaemon);
    tr, ev := Extend(tr, ev, Dial);
    assert ev[1].Dial? && !tr[1].listening;
    tr, ev := Served(tr, ev, 1);
    assert ev[1].Dial? && !tr[1].listening;
  }

  /** No daemon, no harm: a client that finds none gives up with nothing sent. */
  lemma NobodyThere() returns (tr: seq<State>, ev: seq<Event>)
    ensures Run(tr, ev) && tr[|ev|].client.Unreachable? && tr[|ev|].sent.Nothing? && ev == [Dial, GiveUp]
  {
    tr, ev := [State(Trying, Nothing, NoConn, false, 0, false, [])], [];
    tr, ev := Extend(tr, ev, Dial);
    tr, ev := Extend(tr, ev, GiveUp);
  }
}
