/**
 The broker's idle recycle as interleaved atomic steps over a monotone clock: handler threads
 that count themselves in and out, a watcher that reads the count and the activity stamp under
 separate lock acquisitions, and the main thread that stops, drains and exits.
 */
module IdleRecycle {
  import opened Wrappers

  /** after, quiet, quietMax: thresholds of the watcher; drainMax: bound of the drain. */
  datatype Config = Config(started: int, after: int, quiet: int, quietMax: int, drainMax: int)

  /** A handler thread: accepted but not yet counted, counted, or past its decrement. */
  datatype Phase = Accepted | Counted | Left

  /** The watcher's program counter with its locals: `now` read on waking, `n` the count it
      read, `last` the stamp it read. */
  datatype Watcher =
    | Asleep
    | Woke(now: int)
    | GotCount(now: int, n: int)
    | GotBoth(now: int, n: int, last: Option<int>)
    | Fired
    | Unlinked
    | Finished

  /** The main thread: accepting, returned from the accept loop, draining since t0, or gone. */
  datatype Main = Serving | Stopped | Draining(t0: int) | DrainBusy(t0: int) | Exited(drained: bool)

  datatype State = State(clock: int, inflight: int, last: Option<int>, handlers: map<nat, Phase>,
                         watcher: Watcher, main: Main, shutdown: bool, socket: bool)

  datatype Event =
    | Tick(d: nat)
    | Accept(h: nat) | Begin(h: nat) | End(h: nat)
    | Wake | ReadCount | ReadLast | Decide | Unlink | Shutdown
    | StopServing | StartDrain | DrainCount | DrainClock

  predicate Init(c: Config, s: State)
  {
    s == State(c.started, 0, None, map[], Asleep, Serving, false, true)
  }

  /** The module-level counter and stamp, which the lock makes one atomic object. */
  class Activity {
    var inflight: int
    var last: Option<int>

    constructor ()
      ensures inflight == 0 && last == None
    {
      inflight, last := 0, None;
    }

    /** `_inflight_add`: entry and exit of a handler, the exit also when it ends by exception. */
    method Add(n: int, clock: int) returns (count: int)
      modifies this
      ensures inflight == old(inflight) + n == count && last == Some(clock)
      ensures forall s: State :: s.inflight == old(inflight) && s.last == old(last) && s.clock == clock
                                 ==> Bump(s, n).inflight == inflight && Bump(s, n).last == last
    {
      inflight := inflight + n;
      last := Some(clock);
      count := inflight;
    }
  }

  function Bump(s: State, n: int): (r: State) { s.(inflight := s.inflight + n, last := Some(s.clock)) }

  /** The watcher's test, on the values it read. */
  predicate Goes(c: Config, now: int, n: int, last: Option<int>)
  {
    n == 0 && (last.None? || now - last.value >= c.quiet || now - c.started - c.after >= c.quietMax)
  }

  predicate Enabled(c: Config, s: State, e: Event)
  {
    !s.main.Exited? &&
    match e
    case Tick(_) => true
    case Accept(h) => s.main.Serving? && h !in s.handlers
    case Begin(h) => h in s.handlers && s.handlers[h] == Accepted
    case End(h) => h in s.handlers && s.handlers[h] == Counted
    case Wake => s.watcher.Asleep?
    case ReadCount => s.watcher.Woke?
    case ReadLast => s.watcher.GotCount?
    case Decide => s.watcher.GotBoth?
    case Unlink => s.watcher.Fired?
    case Shutdown => s.watcher.Unlinked?
    case StopServing => s.main.Serving?      // after a shutdown, or on an interrupt
    case StartDrain => s.main.Stopped?
    case DrainCount => s.main.Draining?
    case DrainClock => s.main.DrainBusy?
  }

  function Step(c: Config, s: State, e: Event): (r: State)
    requires Enabled(c, s, e)
  {
    match e
    case Tick(d) => s.(clock := s.clock + d)
    case Accept(h) => s.(handlers := s.handlers[h := Accepted])
    case Begin(h) => Bump(s, 1).(handlers := s.handlers[h := Counted])
    case End(h) => Bump(s, -1).(handlers := s.handlers[h := Left])
    case Wake => s.(watcher := if s.clock - c.started < c.after then Asleep else Woke(s.clock))
    case ReadCount => s.(watcher := GotCount(s.watcher.now, s.inflight))
    case ReadLast => s.(watcher := GotBoth(s.watcher.now, s.watcher.n, s.last))
    case Decide => s.(watcher := if Goes(c, s.watcher.now, s.watcher.n, s.watcher.last) then Fired else Asleep)
    case Unlink => s.(watcher := Unlinked, socket := false)
    case Shutdown => s.(watcher := Finished, shutdown := true)
    case StopServing => s.(main := Stopped)
    case StartDrain => s.(main := Draining(s.clock), socket := false)
    case DrainCount => s.(main := if s.inflight > 0 then DrainBusy(s.main.t0) else Exited(true))
    case DrainClock => s.(main := if s.clock - s.main.t0 >= c.drainMax then Exited(false) else Draining(s.main.t0))
  }

  predicate StepAt(c: Config, tr: seq<State>, ev: seq<Event>, i: nat)
    requires |tr| == |ev| + 1
  {
    i < |ev| ==> Enabled(c, tr[i], ev[i]) && tr[i + 1] == Step(c, tr[i], ev[i])
  }

  /** A run: states tr[0..n] and the n events between them. */
  ghost predicate Run(c: Config, tr: seq<State>, ev: seq<Event>)
  {
    |tr| == |ev| + 1 && Init(c, tr[0]) && forall i: nat :: StepAt(c, tr, ev, i)
  }

  lemma OneStep(c: Config, tr: seq<State>, ev: seq<Event>, i: nat)
    requires Run(c, tr, ev) && i < |ev|
    ensures Enabled(c, tr[i], ev[i]) && tr[i + 1] == Step(c, tr[i], ev[i])
  {
    assert StepAt(c, tr, ev, i);
  }

  // ---------------------------------------------------------------- the counter

  /** The requests in flight: handlers between their +1 and their -1. */
  function InFlight(s: State): (r: set<nat>)
  {
    set h | h in s.handlers && s.handlers[h] == Counted
  }

  predicate Inv(s: State)
  {
    && s.inflight == |InFlight(s)|
    && (s.last.None? ==> s.inflight == 0)
    && (s.last.Some? ==> s.last.value <= s.clock)
    && (s.watcher.Woke? || s.watcher.GotCount? || s.watcher.GotBoth? ==> s.watcher.now <= s.clock)
    && (s.watcher.GotCount? && s.last.None? ==> s.watcher.n == 0)
    && (s.watcher.GotBoth? && s.watcher.last.None? ==> s.watcher.n == 0)
    && ((s.main.Draining? || s.main.DrainBusy?) ==> s.main.t0 <= s.clock)
  }

  lemma StepInFlight(c: Config, s: State, e: Event)
    requires Enabled(c, s, e)
    ensures InFlight(Step(c, s, e)) == if e.Begin? then InFlight(s) + {e.h} else if e.End? then InFlight(s) - {e.h} else InFlight(s)
  {
    var s' := Step(c, s, e);
    forall h ensures h in InFlight(s') <==> h in (if e.Begin? then InFlight(s) + {e.h} else if e.End? then InFlight(s) - {e.h} else InFlight(s)) {}
  }

  lemma StepInv(c: Config, s: State, e: Event)
    requires Inv(s) && Enabled(c, s, e)
    ensures Inv(Step(c, s, e))
  {
    StepInFlight(c, s, e);
    if e.Begin? { assert e.h !in InFlight(s); }
    if e.End? { assert e.h in InFlight(s); }
  }

  /** In every reachable state the counter is the number of handlers between their +1 and -1. */
  lemma {:induction false} CounterExact(c: Config, tr: seq<State>, ev: seq<Event>, i: nat)
    requires Run(c, tr, ev) && i < |tr|
    ensures Inv(tr[i]) && tr[i].inflight == |InFlight(tr[i])| >= 0
  {
    if i == 0 {
      assert InFlight(tr[0]) == {};
    } else {
      CounterExact(c, tr, ev, i - 1);
      OneStep(c, tr, ev, i - 1);
      StepInv(c, tr[i - 1], ev[i - 1]);
    }
  }

  lemma {:induction false} ClockMonotone(c: Config, tr: seq<State>, ev: seq<Event>, i: nat, j: nat)
    requires Run(c, tr, ev) && i <= j < |tr|
    ensures tr[i].clock <= tr[j].clock
    decreases j
  {
    if i < j {
      ClockMonotone(c, tr, ev, i, j - 1);
      OneStep(c, tr, ev, j - 1);
    }
  }

  // ---------------------------------------------------------------- the two reads

  /** Nothing was counted in or out after the instant the stamp shows. */
  lemma {:induction false} SameSinceStamp(c: Config, tr: seq<State>, ev: seq<Event>, i: nat, j: nat)
    requires Run(c, tr, ev) && i <= j < |tr|
    requires tr[j].last.Some? ==> tr[i].clock > tr[j].last.value
    ensures InFlight(tr[i]) == InFlight(tr[j])
    decreases j
  {
    if i < j {
      ClockMonotone(c, tr, ev, i, j - 1);
      OneStep(c, tr, ev, j - 1);
      assert !ev[j - 1].Begin? && !ev[j - 1].End?;
      StepInFlight(c, tr[j - 1], ev[j - 1]);
      SameSinceStamp(c, tr, ev, i, j - 1);
    }
  }

  /** What the watcher holds was read where it says: the stamp at rl, the count at rc, both
      after the clock. */
  ghost predicate ReadAt(tr: seq<State>, w: Watcher, rc: nat, rl: nat)
    requires w.GotBoth?
  {
    rc <= rl < |tr| && tr[rc].clock >= w.now && tr[rc].inflight == w.n && tr[rl].last == w.last
  }

  lemma {:induction false} CountWasRead(c: Config, tr: seq<State>, ev: seq<Event>, k: nat) returns (rc: nat)
    requires Run(c, tr, ev) && k < |tr| && tr[k].watcher.GotCount?
    ensures rc < k && tr[rc].clock >= tr[k].watcher.now && tr[rc].inflight == tr[k].watcher.n
  {
    assert k > 0;
    OneStep(c, tr, ev, k - 1);
    if ev[k - 1].ReadCount? {
      rc := k - 1;
      CounterExact(c, tr, ev, k - 1);
    } else {
      rc := CountWasRead(c, tr, ev, k - 1);
    }
  }

  lemma {:induction false} BothWereRead(c: Config, tr: seq<State>, ev: seq<Event>, k: nat) returns (rc: nat, rl: nat)
    requires Run(c, tr, ev) && k < |tr| && tr[k].watcher.GotBoth?
    ensures rl < k && ev[rl].ReadLast? && ReadAt(tr, tr[k].watcher, rc, rl)
  {
    assert k > 0;
    OneStep(c, tr, ev, k - 1);
    if ev[k - 1].ReadLast? {
      rl := k - 1;
      rc := CountWasRead(c, tr, ev, k - 1);
    } else {
      rc, rl := BothWereRead(c, tr, ev, k - 1);
    }
  }

  /** At every instant later than `since`, up to state rl, no request was in flight. */
  ghost predicate QuietSince(tr: seq<State>, since: int, rl: nat)
    requires rl < |tr|
  {
    forall i :: 0 <= i <= rl && tr[i].clock > since ==> InFlight(tr[i]) == {}
  }

  /** The separate reads are sound.  Whenever the recycle fires, no request was in flight when the count
      was read, and either the bound on waiting has passed, or no request was in flight at any instant
      later than `now - quiet` up to the moment the stamp was read.  This holds for every
      interleaving of handlers with the two reads. */
  lemma QuietIsSound(c: Config, tr: seq<State>, ev: seq<Event>, k: nat) returns (rc: nat, rl: nat)
    requires Run(c, tr, ev) && c.quiet > 0 && k < |ev| && ev[k].Decide? && tr[k].watcher.GotBoth? && tr[k + 1].watcher.Fired?
    ensures rc <= rl < k && ev[rl].ReadLast? && tr[rc].clock >= tr[k].watcher.now && InFlight(tr[rc]) == {}
    ensures tr[k].watcher.now >= c.started + c.after + c.quietMax || QuietSince(tr, tr[k].watcher.now - c.quiet, rl)
  {
    var w := tr[k].watcher;
    OneStep(c, tr, ev, k);
    rc, rl := BothWereRead(c, tr, ev, k);
    CounterExact(c, tr, ev, rc);
    assert InFlight(tr[rc]) == {};
    if w.now < c.started + c.after + c.quietMax {
      SameSinceStamp(c, tr, ev, rc, rl);
      forall i | 0 <= i <= rl && tr[i].clock > w.now - c.quiet ensures InFlight(tr[i]) == {} {
        SameSinceStamp(c, tr, ev, i, rl);
      }
    }
  }

  /** The interval is open at its left end: a request that ends exactly `quiet` before the
      watcher wakes is still in flight in a state of that very instant. */
  lemma QuietEndpointIsOpen() returns (c: Config, tr: seq<State>, ev: seq<Event>)
    ensures Run(c, tr, ev) && c.quiet > 0 && ev != [] && ev[|ev| - 1].Decide? && tr[|ev|].watcher.Fired?
    ensures tr[|ev| - 1].watcher.GotBoth?
    ensures exists i :: 0 <= i < |ev| && tr[i].clock == tr[|ev| - 1].watcher.now - c.quiet && InFlight(tr[i]) != {}
  {
    c := Config(0, 10, 15, 3600, 100);
    tr, ev := [State(0, 0, None, map[], Asleep, Serving, false, true)], [];
    tr, ev := Extend(c, tr, ev, Accept(7));
    tr, ev := Extend(c, tr, ev, Begin(7));
    assert 7 in InFlight(tr[2]) && tr[2].clock == 0;
    tr, ev := Extend(c, tr, ev, End(7));
    tr, ev := Extend(c, tr, ev, Tick(15));
    tr, ev := Extend(c, tr, ev, Wake);
    tr, ev := Extend(c, tr, ev, ReadCount);
    tr, ev := Extend(c, tr, ev, ReadLast);
    tr, ev := Extend(c, tr, ev, Decide);
    assert InFlight(tr[2]) != {};
  }

  lemma Extend(c: Config, tr: seq<State>, ev: seq<Event>, e: Event) returns (tr': seq<State>, ev': seq<Event>)
    requires Run(c, tr, ev) && Enabled(c, tr[|ev|], e)
    ensures Run(c, tr', ev') && ev' == ev + [e] && tr' == tr + [Step(c, tr[|ev|], e)]
  {
    tr', ev' := tr + [Step(c, tr[|ev|], e)], ev + [e];
    forall i: nat ensures StepAt(c, tr', ev', i) {
      if i < |ev| { assert StepAt(c, tr, ev, i); }
    }
  }

  /** A recycle before any request: no handler was ever counted up to the read of the stamp. */
  lemma {:induction false} NoStampNoRequest(c: Config, tr: seq<State>, ev: seq<Event>, j: nat)
    requires Run(c, tr, ev) && j < |tr| && tr[j].last.None?
    ensures forall i :: 0 <= i < j ==> !ev[i].Begin?
  {
    if j > 0 {
      OneStep(c, tr, ev, j - 1);
      NoStampNoRequest(c, tr, ev, j - 1);
    }
  }

  // ---------------------------------------------------------------- when it recycles

  predicate Polling(w: Watcher) { w.Asleep? || w.Woke? || w.GotCount? || w.GotBoth? }

  lemma {:induction false} FiredForGood(c: Config, tr: seq<State>, ev: seq<Event>, i: nat, j: nat)
    requires Run(c, tr, ev) && i <= j < |tr| && Polling(tr[j].watcher)
    ensures Polling(tr[i].watcher)
    decreases j
  {
    if i < j {
      OneStep(c, tr, ev, j - 1);
      FiredForGood(c, tr, ev, i, j - 1);
    }
  }

  /** While the watcher still polls, every completed poll found a request in flight, or recent
      activity within the first `quietMax` after the threshold.  So after `after + quietMax` of
      uptime the first poll that sees nothing in flight recycles. */
  lemma EveryDeferralHasAReason(c: Config, tr: seq<State>, ev: seq<Event>, j: nat, k: nat)
    requires Run(c, tr, ev) && j < k < |tr| && ev[j].Decide? && tr[j].watcher.GotBoth? && Polling(tr[k].watcher)
    ensures var w := tr[j].watcher;
            w.n > 0 || (w.last.Some? && w.now - w.last.value < c.quiet && w.now < c.started + c.after + c.quietMax)
  {
    FiredForGood(c, tr, ev, j + 1, k);
    OneStep(c, tr, ev, j);
    var rc, rl := BothWereRead(c, tr, ev, j);
    CounterExact(c, tr, ev, rc);
  }

  /** And it does recycle: a poll after the threshold that runs undisturbed on a box without requests fires if
      none was ever seen, or the last was long enough ago, or the bound on waiting has passed. */
  lemma IdlePollRecycles(c: Config, tr: seq<State>, ev: seq<Event>) returns (tr': seq<State>, ev': seq<Event>)
    requires Run(c, tr, ev) && tr[|ev|].watcher.Asleep? && !tr[|ev|].main.Exited? && InFlight(tr[|ev|]) == {}
    requires var s := tr[|ev|];
             && s.clock >= c.started + c.after
             && (s.last.None? || s.clock >= s.last.value + c.quiet || s.clock >= c.started + c.after + c.quietMax)
    ensures Run(c, tr', ev') && ev' == ev + [Wake, ReadCount, ReadLast, Decide] && tr'[|ev'|] == tr[|ev|].(watcher := Fired)
  {
    CounterExact(c, tr, ev, |ev|);
    tr', ev' := Extend(c, tr, ev, Wake);
    tr', ev' := Extend(c, tr', ev', ReadCount);
    tr', ev' := Extend(c, tr', ev', ReadLast);
    tr', ev' := Extend(c, tr', ev', Decide);
  }

  /** From there the daemon comes to its end, with nothing cut off, if nothing else happens. */
  lemma RecycleExits(c: Config, tr: seq<State>, ev: seq<Event>) returns (tr': seq<State>, ev': seq<Event>)
    requires Run(c, tr, ev) && tr[|ev|].watcher.Fired? && tr[|ev|].main.Serving? && InFlight(tr[|ev|]) == {}
    ensures Run(c, tr', ev') && ev' == ev + [Unlink, Shutdown, StopServing, StartDrain, DrainCount]
    ensures var s := tr'[|ev'|]; s.main == Exited(true) && s.watcher.Finished? && s.shutdown && !s.socket
  {
    CounterExact(c, tr, ev, |ev|);
    tr', ev' := Extend(c, tr, ev, Unlink);
    tr', ev' := Extend(c, tr', ev', Shutdown);
    tr', ev' := Extend(c, tr', ev', StopServing);
    tr', ev' := Extend(c, tr', ev', StartDrain);
    tr', ev' := Extend(c, tr', ev', DrainCount);
  }

  /** It never recycles before `after` of uptime. */
  lemma {:induction false} NotBeforeThreshold(c: Config, tr: seq<State>, ev: seq<Event>, k: nat)
    requires Run(c, tr, ev) && k < |tr| && !tr[k].watcher.Asleep?
    ensures c.started + c.after <= tr[k].clock
    ensures tr[k].watcher.Woke? || tr[k].watcher.GotCount? || tr[k].watcher.GotBoth? ==> c.started + c.after <= tr[k].watcher.now
  {
    assert k > 0;
    OneStep(c, tr, ev, k - 1);
    if !tr[k - 1].watcher.Asleep? { NotBeforeThreshold(c, tr, ev, k - 1); }
  }

  // ---------------------------------------------------------------- stopping and draining

  /** Exiting as drained: no counted request is cut off.  Exiting otherwise: the drain bound
      has passed since the drain began, and a request was seen in flight during the drain. */
  lemma ExitIsClean(c: Config, tr: seq<State>, ev: seq<Event>, k: nat)
    requires Run(c, tr, ev) && k < |ev| && tr[k + 1].main.Exited? && !tr[k].main.Exited?
    ensures tr[k + 1].main.drained ==> InFlight(tr[k + 1]) == {}
    ensures !tr[k + 1].main.drained ==> tr[k].main.DrainBusy? && tr[k].clock >= tr[k].main.t0 + c.drainMax
    ensures !tr[k + 1].main.drained ==> exists r :: 0 <= r < k && tr[r].main == Draining(tr[k].main.t0) && InFlight(tr[r]) != {}
  {
    OneStep(c, tr, ev, k);
    CounterExact(c, tr, ev, k);
    if tr[k + 1].main.drained {
      StepInFlight(c, tr[k], ev[k]);
    } else {
      var r := BusyWasSeen(c, tr, ev, k);
    }
  }

  lemma {:induction false} BusyWasSeen(c: Config, tr: seq<State>, ev: seq<Event>, k: nat) returns (r: nat)
    requires Run(c, tr, ev) && k < |tr| && tr[k].main.DrainBusy?
    ensures r < k && tr[r].main == Draining(tr[k].main.t0) && InFlight(tr[r]) != {}
  {
    assert k > 0;
    OneStep(c, tr, ev, k - 1);
    if ev[k - 1].DrainCount? {
      r := k - 1;
      CounterExact(c, tr, ev, r);
    } else {
      r := BusyWasSeen(c, tr, ev, k - 1);
    }
  }

  /** And it exits as soon as it looks and nothing is in flight, or looks at the clock too late. */
  lemma ExitExact(c: Config, tr: seq<State>, ev: seq<Event>, k: nat)
    requires Run(c, tr, ev) && k < |ev|
    ensures ev[k].DrainCount? ==> (tr[k + 1].main == Exited(true) <==> InFlight(tr[k]) == {})
    ensures ev[k].DrainClock? ==> tr[k].main.DrainBusy? && (tr[k + 1].main == Exited(false) <==> tr[k].clock >= tr[k].main.t0 + c.drainMax)
  {
    OneStep(c, tr, ev, k);
    CounterExact(c, tr, ev, k);
  }

  /** The socket is there until the watcher has decided or the accept loop has returned, and it is gone
      before a shutdown is asked for and before the drain begins: a new client waits for the next daemon. */
  lemma {:induction false} SocketGoesFirst(c: Config, tr: seq<State>, ev: seq<Event>, k: nat)
    requires Run(c, tr, ev) && k < |tr|
    ensures tr[k].shutdown || tr[k].watcher.Unlinked? || tr[k].main.Draining? || tr[k].main.DrainBusy? || tr[k].main.Exited? ==> !tr[k].socket
    ensures (Polling(tr[k].watcher) || tr[k].watcher.Fired?) && (tr[k].main.Serving? || tr[k].main.Stopped?) ==> tr[k].socket
    ensures tr[k].watcher.Finished? <==> tr[k].shutdown
  {
    if k > 0 {
      OneStep(c, tr, ev, k - 1);
      SocketGoesFirst(c, tr, ev, k - 1);
    }
  }

  predicate NonePending(s: State) { forall h :: h in s.handlers ==> s.handlers[h] != Accepted }

  /** Once the accept loop has returned and every accepted handler has counted itself, the
      requests in flight can only become fewer. */
  lemma {:induction false} OnlyFallsAfterStop(c: Config, tr: seq<State>, ev: seq<Event>, i: nat, j: nat)
    requires Run(c, tr, ev) && i <= j < |tr| && !tr[i].main.Serving? && NonePending(tr[i])
    ensures InFlight(tr[j]) <= InFlight(tr[i]) && !tr[j].main.Serving? && NonePending(tr[j])
    decreases j
  {
    if i < j {
      OnlyFallsAfterStop(c, tr, ev, i, j - 1);
      OneStep(c, tr, ev, j - 1);
      StepInFlight(c, tr[j - 1], ev[j - 1]);
      assert !ev[j - 1].Begin? && !ev[j - 1].Accept?;
    }
  }

  /** The comment on the watcher says the count can only fall once it has decided.  It can
      rise: the accept loop runs on for the grace period. */
  lemma CountMayRiseAfterDeciding() returns (c: Config, tr: seq<State>, ev: seq<Event>)
    ensures Run(c, tr, ev)
    ensures exists i :: 0 <= i < |ev| && tr[i].watcher.Fired? && tr[i].inflight < tr[|ev|].inflight
  {
    c := Config(0, 10, 15, 3600, 100);
    tr, ev := [State(0, 0, None, map[], Asleep, Serving, false, true)], [];
    tr, ev := Extend(c, tr, ev, Tick(10));
    tr, ev := Extend(c, tr, ev, Wake);
    tr, ev := Extend(c, tr, ev, ReadCount);
    tr, ev := Extend(c, tr, ev, ReadLast);
    tr, ev := Extend(c, tr, ev, Decide);
    tr, ev := Extend(c, tr, ev, Accept(1));
    tr, ev := Extend(c, tr, ev, Begin(1));
    assert tr[5].watcher.Fired?;
  }
}
