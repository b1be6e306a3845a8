/**
 Requests are handled by concurrent threads.  Each judges its request, writes the verdict to the
 audit log and only then acts; a refusal is counted before it is written.  The threads' atomic
 steps interleave in any order.
 */
module Dispatch {
  import opened Wrappers
  import AuditJson
  import CleanWindow

  datatype Verdict = Allow | Deny | WouldDeny | Error

  /** The verdict as the log spells it. */
  function Text(v: Verdict): (s: string)
  {
    match v case Allow => "ALLOW" case Deny => "DENY" case WouldDeny => "WOULD-DENY" case Error => "ERROR"
  }

  /** What the rulebook says of a request (of `check`: of the request inside); a malformed one can
      make it fail otherwise. */
  datatype Eval = Permit | Forbid | Raises

  type Rule = (string, string) -> Eval

  /** The mode is fixed when the daemon starts. */
  datatype Config = Config(enforce: bool, rule: Rule)

  /** Operations of one fixed shape each. */
  const FIXED: set<string> := {
    "pg_dump", "stack_pg_dump", "stack_nodered_tar", "stack_pg_restore", "pg_restore", "pgminer_scan", "disk_reclaim",
    "takportal_sudoers", "tak58_upgrade_db", "tak58_setup_db", "java_cacerts_sync", "certifi_upgrade", "pg_old_cluster"}

  const DATA: set<string> := {"exec", "write", "read"}

  /** The operations that check a dump's authenticity themselves and may then return a refusal. */
  const RESTORES: set<string> := {"stack_pg_restore", "pg_restore"}

  /** What arrives: too much, something that is not a request, or a request. */
  datatype Input = TooLong | Broken | Request(op: string, body: string)

  datatype Code = Answered | Denied | Timeout | Failed

  /** What a thread does once its record is written: run the operation, compose the reply, or
      send it as it is. */
  datatype Next = Enter | Reply(code: Code) | Send(code: Code)

  datatype Pc = Start | Auditing(v: Verdict, next: Next) | Counted(next: Next) | At(next: Next) | Inside | Done(code: Code)

  /** refused: the operation itself returned a refusal. */
  datatype Thread = Thread(peerOk: bool, input: Input, pc: Pc, refused: bool)

  datatype Entry = Wrote(t: nat, v: Verdict) | Ran(t: nat)

  /** The history lists what was written and what was run, in order. */
  datatype State = State(threads: map<nat, Thread>, denies: nat, history: seq<Entry>)

  /** How an operation ends: by an exception, or by returning a response, which for a restore can
      itself say DENIED. */
  datatype How = Returned | ReturnedDenied | RaisedDenied | RaisedTimeout | RaisedOther

  datatype Event = Arrive(t: nat, peerOk: bool, input: Input) | Go(t: nat) | Finish(t: nat, how: How) | Compose(t: nat, tooBig: bool)

  /** From reading the request to the point where a record is due. */
  function Decide(c: Config, peerOk: bool, input: Input): (pc: Pc)
  {
    if !peerOk then Auditing(Deny, Send(Denied))
    else match input
    case TooLong => After(RaisedDenied)
    case Broken => After(RaisedOther)
    case Request(op, body) =>
      if op == "ping" then Auditing(Allow, Reply(Answered))
      else if op == "enforce_enable" then Auditing(Allow, Enter)
      else if op == "check" then if c.rule(op, body).Raises? then After(RaisedOther) else At(Reply(Answered))
      else if op in FIXED then
        match c.rule(op, body)
        case Raises => After(RaisedOther)
        case Forbid => Auditing(Deny, Reply(Denied))
        case Permit => Auditing(Allow, Enter)
      else if op in DATA then
        match c.rule(op, body)
        case Raises => After(RaisedOther)
        case Forbid => if c.enforce then Auditing(Deny, Reply(Denied)) else Auditing(WouldDeny, Enter)
        case Permit => Auditing(Allow, Enter)
      else Auditing(Deny, Reply(Denied))
  }

  /** What follows a return or an exception: only an exception is recorded again. */
  function After(how: How): (pc: Pc)
  {
    match how
    case Returned => At(Reply(Answered))
    case ReturnedDenied => At(Reply(Denied))
    case RaisedDenied => Auditing(Deny, Reply(Denied))
    case RaisedTimeout => Auditing(Error, Reply(Timeout))
    case RaisedOther => Auditing(Error, Reply(Failed))
  }

  predicate Init(s: State) { s == State(map[], 0, []) }

  predicate Enabled(s: State, e: Event)
  {
    match e
    case Arrive(t, _, _) => t !in s.threads
    case Go(t) => t in s.threads && !s.threads[t].pc.Inside? && !s.threads[t].pc.Done? && !(s.threads[t].pc.At? && s.threads[t].pc.next.Reply?)
    case Finish(t, how) =>
      && t in s.threads && s.threads[t].pc.Inside?
      && (how.ReturnedDenied? ==> s.threads[t].input.Request? && s.threads[t].input.op in RESTORES)
    case Compose(t, _) => t in s.threads && s.threads[t].pc.At? && s.threads[t].pc.next.Reply?
  }

  function To(s: State, t: nat, pc: Pc): (r: State)
    requires t in s.threads
  {
    s.(threads := s.threads[t := s.threads[t].(pc := pc)])
  }

  function Put(s: State, x: Entry): (r: State) { s.(history := s.history + [x]) }

  function Step(c: Config, s: State, e: Event): (r: State)
    requires Enabled(s, e)
  {
    match e
    case Arrive(t, ok, input) => s.(threads := s.threads[t := Thread(ok, input, Start, false)])
    case Finish(t, how) => s.(threads := s.threads[t := s.threads[t].(pc := After(how), refused := how.ReturnedDenied?)])
    case Compose(t, big) => To(s, t, if big then Auditing(Error, Send(Failed)) else At(Send(s.threads[t].pc.next.code)))
    case Go(t) =>
      var th := s.threads[t];
      match th.pc
      case Start => To(s, t, Decide(c, th.peerOk, th.input))
      case Auditing(v, next) =>
        if v.Deny? then To(s, t, Counted(next)).(denies := s.denies + 1) else Put(To(s, t, At(next)), Wrote(t, v))
      case Counted(next) => Put(To(s, t, At(next)), Wrote(t, Deny))
      case At(next) => if next.Enter? then Put(To(s, t, Inside), Ran(t)) else To(s, t, Done(next.code))
      case Inside => s
      case Done(_) => s
  }

  predicate StepAt(c: Config, tr: seq<State>, ev: seq<Event>, i: nat)
    requires |tr| == |ev| + 1
  {
    i < |ev| ==> Enabled(tr[i], ev[i]) && tr[i + 1] == Step(c, tr[i], ev[i])
  }

  ghost predicate Run(c: Config, tr: seq<State>, ev: seq<Event>)
  {
    |tr| == |ev| + 1 && Init(tr[0]) && forall i: nat :: StepAt(c, tr, ev, i)
  }

  // ---------------------------------------------------------------- one call of audit

  /** `audit` is not atomic: the counter has its own lock. */
  class AuditLog {
    var denies: nat
    var records: seq<Entry>

    constructor ()
      ensures denies == 0 && records == []
    {
      denies, records := 0, [];
    }

    /** What one thread's call does when no other runs: the effect of its steps in the machine. */
    method Audit(c: Config, t: nat, v: Verdict, next: Next)
      modifies this
      ensures denies == old(denies) + (if v.Deny? then 1 else 0)
      ensures records == old(records) + [Wrote(t, v)]
      ensures forall th: Thread :: th.pc == Auditing(v, next) ==>
                var s := State(map[t := th], old(denies), old(records));
                var s1 := Step(c, s, Go(t));
                var s2 := if v.Deny? then Step(c, s1, Go(t)) else s1;
                s2 == State(map[t := th.(pc := At(next))], denies, records)
    {
      if v.Deny? { denies := denies + 1; }
      records := records + [Wrote(t, v)];
    }
  }

  // ---------------------------------------------------------------- what every step keeps

  predicate Has(h: seq<Entry>, x: Entry) { exists i :: 0 <= i < |h| && h[i] == x }

  /** The record with which this request may run. */
  function Licence(c: Config, input: Input): (v: Option<Verdict>)
  {
    if !input.Request? then None
    else if input.op == "enforce_enable" then Some(Allow)
    else if input.op in FIXED then if c.rule(input.op, input.body).Permit? then Some(Allow) else None
    else if input.op in DATA then
      match c.rule(input.op, input.body)
      case Permit => Some(Allow)
      case Forbid => if c.enforce then None else Some(WouldDeny)
      case Raises => None
    else None
  }

  predicate Licensed(c: Config, th: Thread, v: Verdict) { th.peerOk && Licence(c, th.input) == Some(v) }

  /** A refusal goes with a DENY record. */
  predicate NextOk(c: Config, th: Thread, v: Verdict, next: Next)
  {
    (next.Enter? ==> Licensed(c, th, v)) && (!next.Enter? && next.code.Denied? ==> v.Deny?)
    && (v.WouldDeny? ==> Licensed(c, th, v) && next.Enter?)
  }

  predicate ThreadOk(c: Config, h: seq<Entry>, t: nat, th: Thread)
  {
    match th.pc
    case Start => true
    case Auditing(v, next) => NextOk(c, th, v, next)
    case Counted(next) => NextOk(c, th, Deny, next)
    case At(next) => if next.Enter? then exists v :: Licensed(c, th, v) && Has(h, Wrote(t, v))
                     else next.code.Denied? ==> th.refused || Has(h, Wrote(t, Deny))
    case Inside => true
    case Done(code) => code.Denied? ==> th.refused || Has(h, Wrote(t, Deny))
  }

  predicate ThreadsOk(c: Config, s: State) { forall t :: t in s.threads ==> ThreadOk(c, s.history, t, s.threads[t]) }

  /** An operation ran with its record before it; WOULD-DENY only where it stands for a run. */
  predicate EntryOk(c: Config, s: State, i: nat)
    requires i < |s.history|
  {
    var x := s.history[i];
    x.t in s.threads &&
    match x
    case Ran(t) => exists v :: Licensed(c, s.threads[t], v) && Has(s.history[..i], Wrote(t, v))
    case Wrote(t, v) => v.WouldDeny? ==> Licensed(c, s.threads[t], v)
  }

  predicate HistoryOk(c: Config, s: State) { forall i: nat :: i < |s.history| ==> EntryOk(c, s, i) }

  function DenyRecords(h: seq<Entry>): (n: nat)
  {
    if h == [] then 0 else DenyRecords(h[..|h| - 1]) + if h[|h| - 1].Wrote? && h[|h| - 1].v.Deny? then 1 else 0
  }

  /** Threads that have counted a refusal and not yet written it. */
  function Pending(s: State): (r: set<nat>) { set t | t in s.threads && s.threads[t].pc.Counted? }

  predicate CountOk(s: State) { s.denies == DenyRecords(s.history) + |Pending(s)| }

  lemma HasMore(h: seq<Entry>, x: Entry, y: Entry)
    ensures Has(h + [x], x)
    ensures Has(h, y) ==> Has(h + [x], y)
  {
    assert (h + [x])[|h|] == x;
    if Has(h, y) {
      var i :| 0 <= i < |h| && h[i] == y;
      assert (h + [x])[i] == y;
    }
  }

  lemma HasPrefix(h: seq<Entry>, h': seq<Entry>, x: Entry)
    requires Has(h, x) && h <= h'
    ensures Has(h', x)
  {
    var i :| 0 <= i < |h| && h[i] == x;
    assert h'[i] == x;
  }

  lemma ThreadStays(c: Config, h: seq<Entry>, h': seq<Entry>, t: nat, th: Thread)
    requires ThreadOk(c, h, t, th) && h <= h'
    ensures ThreadOk(c, h', t, th)
  {
    if th.pc.At? && th.pc.next.Enter? {
      var v :| Licensed(c, th, v) && Has(h, Wrote(t, v));
      HasPrefix(h, h', Wrote(t, v));
    } else if Has(h, Wrote(t, Deny)) {
      HasPrefix(h, h', Wrote(t, Deny));
    }
  }

  lemma DecideOk(c: Config, h: seq<Entry>, t: nat, th: Thread)
    ensures ThreadOk(c, h, t, th.(pc := Decide(c, th.peerOk, th.input)))
  {}

  /** The thread that moves. */
  lemma MoverOk(c: Config, s: State, e: Event)
    requires Enabled(s, e) && ThreadsOk(c, s)
    ensures var s' := Step(c, s, e); s.history <= s'.history && ThreadOk(c, s'.history, e.t, s'.threads[e.t])
  {
    if e.Go? {
      var th := s.threads[e.t];
      assert ThreadOk(c, s.history, e.t, th);
      match th.pc {
        case Start => DecideOk(c, s.history, e.t, th);
        case Auditing(v, next) =>
          if !v.Deny? { HasMore(s.history, Wrote(e.t, v), Wrote(e.t, v)); }
        case Counted(next) => HasMore(s.history, Wrote(e.t, Deny), Wrote(e.t, Deny));
        case At(next) =>
        case Inside =>
        case Done(_) =>
      }
    } else if e.Compose? {
      assert ThreadOk(c, s.history, e.t, s.threads[e.t]);
    }
  }

  lemma StepThreads(c: Config, s: State, e: Event)
    requires Enabled(s, e) && ThreadsOk(c, s)
    ensures ThreadsOk(c, Step(c, s, e))
  {
    var s' := Step(c, s, e);
    MoverOk(c, s, e);
    forall t | t in s'.threads ensures ThreadOk(c, s'.history, t, s'.threads[t]) {
      if t != e.t { ThreadStays(c, s.history, s'.history, t, s.threads[t]); }
    }
  }

  /** A thread's peer and request never change. */
  lemma SameInput(c: Config, s: State, e: Event, t: nat)
    requires Enabled(s, e) && t in s.threads
    ensures var s' := Step(c, s, e);
            t in s'.threads && s'.threads[t].peerOk == s.threads[t].peerOk && s'.threads[t].input == s.threads[t].input
  {}

  lemma NewEntryOk(c: Config, s: State, e: Event)
    requires Enabled(s, e) && ThreadsOk(c, s)
    ensures var s' := Step(c, s, e);
            && |s'.history| <= |s.history| + 1
            && (|s'.history| > |s.history| ==> s'.history[..|s.history|] == s.history && EntryOk(c, s', |s.history|))
  {
    var s' := Step(c, s, e);
    if e.Go? {
      assert ThreadOk(c, s.history, e.t, s.threads[e.t]);
      assert s'.history[..|s.history|] == s.history;
      SameInput(c, s, e, e.t);
      if s.threads[e.t].pc == At(Enter) {
        var v :| Licensed(c, s.threads[e.t], v) && Has(s.history, Wrote(e.t, v));
        assert Licensed(c, s'.threads[e.t], v);
      }
    }
  }

  lemma EntryStays(c: Config, s: State, e: Event, i: nat)
    requires Enabled(s, e) && i < |s.history| && EntryOk(c, s, i)
    ensures i < |Step(c, s, e).history| && EntryOk(c, Step(c, s, e), i)
  {
    var s' := Step(c, s, e);
    var t := s.history[i].t;
    SameInput(c, s, e, t);
    assert s'.history[i] == s.history[i] && s'.history[..i] == s.history[..i];
    if s.history[i].Ran? {
      var v :| Licensed(c, s.threads[t], v) && Has(s.history[..i], Wrote(t, v));
      assert Licensed(c, s'.threads[t], v);
    }
  }

  lemma StepHistory(c: Config, s: State, e: Event)
    requires Enabled(s, e) && ThreadsOk(c, s) && HistoryOk(c, s)
    ensures HistoryOk(c, Step(c, s, e))
  {
    var s' := Step(c, s, e);
    NewEntryOk(c, s, e);
    forall i: nat | i < |s'.history| ensures EntryOk(c, s', i) {
      if i < |s.history| { EntryStays(c, s, e, i); }
    }
  }

  lemma DenyRecordsMore(h: seq<Entry>, x: Entry)
    ensures DenyRecords(h + [x]) == DenyRecords(h) + if x.Wrote? && x.v.Deny? then 1 else 0
  {
    InitOfSnoc(h, x);
  }

  lemma StepPending(c: Config, s: State, e: Event)
    requires Enabled(s, e)
    ensures var s' := Step(c, s, e);
            Pending(s') == if s'.threads[e.t].pc.Counted? then Pending(s) + {e.t} else Pending(s) - {e.t}
  {
    var s' := Step(c, s, e);
    forall t ensures t in Pending(s') <==> if t == e.t then s'.threads[e.t].pc.Counted? else t in Pending(s) {}
  }

  predicate IsCounted(s: State, t: nat) { t in s.threads && s.threads[t].pc.Counted? }

  lemma PendingSize(c: Config, s: State, e: Event)
    requires Enabled(s, e)
    ensures |Pending(Step(c, s, e))| + (if IsCounted(s, e.t) then 1 else 0) == |Pending(s)| + if IsCounted(Step(c, s, e), e.t) then 1 else 0
  {
    StepPending(c, s, e);
    assert e.t in Pending(s) <==> IsCounted(s, e.t);
  }

  /** Only a thread that has counted its refusal writes a DENY record. */
  lemma StepDenies(c: Config, s: State, e: Event)
    requires Enabled(s, e)
    ensures DenyRecords(Step(c, s, e).history) == DenyRecords(s.history) + if IsCounted(s, e.t) then 1 else 0
  {
    var h, h' := s.history, Step(c, s, e).history;
    if |h'| > |h| { DenyRecordsMore(h, h'[|h|]); }
  }

  lemma StepCount(c: Config, s: State, e: Event)
    requires Enabled(s, e) && CountOk(s)
    ensures CountOk(Step(c, s, e))
  {
    PendingSize(c, s, e);
    StepDenies(c, s, e);
  }

  /** The operation of this thread is still to run. */
  predicate Waiting(pc: Pc)
  {
    pc.Start? || ((pc.Auditing? || pc.Counted? || pc.At?) && pc.next.Enter?)
  }

  predicate RanOnce(h: seq<Entry>) { forall i, j :: 0 <= i < j < |h| && h[i].Ran? ==> h[j] != h[i] }

  ghost predicate OnceOk(s: State)
  {
    && RanOnce(s.history)
    && (forall t :: Has(s.history, Ran(t)) ==> t in s.threads && !Waiting(s.threads[t].pc))
  }

  lemma StepOnce(c: Config, s: State, e: Event)
    requires Enabled(s, e) && OnceOk(s)
    ensures OnceOk(Step(c, s, e))
  {
    var s' := Step(c, s, e);
    var h, h' := s.history, s'.history;
    assert h' == h || (h' == h + [h'[|h|]] && h'[|h|].t == e.t);
    forall t | Has(h', Ran(t)) ensures t in s'.threads && !Waiting(s'.threads[t].pc) {
      var i :| 0 <= i < |h'| && h'[i] == Ran(t);
      if i < |h| { assert h[i] == Ran(t) && Has(h, Ran(t)); }
    }
    forall i, j | 0 <= i < j < |h'| && h'[i].Ran? ensures h'[j] != h'[i] {
      assert h[i] == h'[i] && Has(h, Ran(h[i].t));
    }
  }

  /** The operation runs, or has refused by itself. */
  predicate Unrefused(th: Thread) { Waiting(th.pc) || th.pc.Inside? || th.refused }

  /** Such a thread has no DENY record, and only a restore that ran under ALLOW refuses by itself. */
  predicate SelfOk(c: Config, h: seq<Entry>, t: nat, th: Thread)
  {
    && (Unrefused(th) ==> !Has(h, Wrote(t, Deny)))
    && (th.pc.Inside? || th.refused ==> Has(h, Ran(t)))
    && RefusedOk(th)
  }

  predicate RefusedOk(th: Thread)
  {
    th.refused ==> th.input.Request? && th.input.op in RESTORES && !Waiting(th.pc) && !th.pc.Inside? && !Refusing(th.pc)
  }

  /** A DENY record is being written. */
  predicate Refusing(pc: Pc) { pc.Counted? || (pc.Auditing? && pc.v.Deny?) }

  ghost predicate SelvesOk(c: Config, s: State)
  {
    && (forall t :: t in s.threads ==> SelfOk(c, s.history, t, s.threads[t]))
    && (forall t, v :: Has(s.history, Wrote(t, v)) ==> t in s.threads)
  }

  lemma HasNew(h: seq<Entry>, x: Entry, y: Entry)
    ensures Has(h + [x], y) <==> Has(h, y) || x == y
  {
    HasMore(h, x, y);
    if Has(h + [x], y) { var i :| 0 <= i < |h| + 1 && (h + [x])[i] == y; if i < |h| { assert h[i] == y; } }
  }

  /** The history grows by at most one entry, of the thread that moves. */
  lemma StepHas(c: Config, s: State, e: Event, y: Entry)
    requires Enabled(s, e)
    ensures var s' := Step(c, s, e);
      && (Has(s.history, y) ==> Has(s'.history, y))
      && (Has(s'.history, y) ==> Has(s.history, y) || (y.t == e.t && e.Go? && e.t in s.threads && |s'.history| > |s.history| && y == s'.history[|s.history|]))
  {
    var h, h' := s.history, Step(c, s, e).history;
    if h' != h { HasNew(h, h'[|h|], y); assert h' == h + [h'[|h|]]; }
  }

  lemma StepRefused(c: Config, s: State, e: Event, t: nat)
    requires Enabled(s, e) && t in Step(c, s, e).threads && (t in s.threads ==> RefusedOk(s.threads[t]))
    ensures RefusedOk(Step(c, s, e).threads[t])
  {}

  lemma StepSelf(c: Config, s: State, e: Event, t: nat)
    requires Enabled(s, e) && ThreadsOk(c, s) && SelvesOk(c, s) && t in Step(c, s, e).threads
    ensures SelfOk(c, Step(c, s, e).history, t, Step(c, s, e).threads[t])
  {
    StepHas(c, s, e, Wrote(t, Deny));
    StepHas(c, s, e, Ran(t));
    StepRefused(c, s, e, t);
    if t in s.threads {
      assert SelfOk(c, s.history, t, s.threads[t]) && ThreadOk(c, s.history, t, s.threads[t]);
      if t == e.t && e.Go? && s.threads[t].pc == At(Enter) { HasMore(s.history, Ran(t), Ran(t)); }
    }
  }

  lemma StepSelves(c: Config, s: State, e: Event)
    requires Enabled(s, e) && ThreadsOk(c, s) && SelvesOk(c, s)
    ensures SelvesOk(c, Step(c, s, e))
  {
    var s' := Step(c, s, e);
    forall t | t in s'.threads ensures SelfOk(c, s'.history, t, s'.threads[t]) { StepSelf(c, s, e, t); }
    forall t, v | Has(s'.history, Wrote(t, v)) ensures t in s'.threads { StepHas(c, s, e, Wrote(t, v)); }
  }

  lemma {:induction false} Reachable(c: Config, tr: seq<State>, ev: seq<Event>, i: nat)
    requires Run(c, tr, ev) && i < |tr|
    ensures ThreadsOk(c, tr[i]) && HistoryOk(c, tr[i]) && CountOk(tr[i]) && OnceOk(tr[i]) && SelvesOk(c, tr[i])
  {
    if i == 0 {
      assert Pending(tr[0]) == {};
    } else {
      Reachable(c, tr, ev, i - 1);
      assert StepAt(c, tr, ev, i - 1);
      StepThreads(c, tr[i - 1], ev[i - 1]);
      StepHistory(c, tr[i - 1], ev[i - 1]);
      StepCount(c, tr[i - 1], ev[i - 1]);
      StepOnce(c, tr[i - 1], ev[i - 1]);
      StepSelves(c, tr[i - 1], ev[i - 1]);
    }
  }

  // ---------------------------------------------------------------- whole runs

  /** Whatever ran had its record in the log before it ran: ALLOW where the rulebook permits it,
      and otherwise WOULD-DENY, only for exec, write and read and only in PERMISSIVE mode.
      `check` and requests of strangers never run. */
  lemma AuditedBeforeItRan(c: Config, tr: seq<State>, ev: seq<Event>, k: nat, i: nat)
    requires Run(c, tr, ev) && k < |tr| && i < |tr[k].history| && tr[k].history[i].Ran?
    ensures var t := tr[k].history[i].t;
      && t in tr[k].threads && tr[k].threads[t].peerOk && tr[k].threads[t].input.Request?
      && var r := tr[k].threads[t].input;
      && r.op != "check"
      && (r.op == "enforce_enable" || r.op in FIXED || r.op in DATA)
      && (Has(tr[k].history[..i], Wrote(t, Allow)) || Has(tr[k].history[..i], Wrote(t, WouldDeny)))
      && (c.enforce || r.op !in DATA ==> Has(tr[k].history[..i], Wrote(t, Allow)))
      && (r.op == "enforce_enable" || c.rule(r.op, r.body).Permit?
          || (c.rule(r.op, r.body).Forbid? && !c.enforce && r.op in DATA && Has(tr[k].history[..i], Wrote(t, WouldDeny))))
  {
    Reachable(c, tr, ev, k);
    assert EntryOk(c, tr[k], i);
  }

  /** No request runs twice. */
  lemma RunsOnce(c: Config, tr: seq<State>, ev: seq<Event>, k: nat, i: nat, j: nat)
    requires Run(c, tr, ev) && k < |tr| && i < |tr[k].history| && j < |tr[k].history|
    requires tr[k].history[i].Ran? && tr[k].history[i] == tr[k].history[j]
    ensures i == j
  {
    Reachable(c, tr, ev, k);
  }

  /** An enforcing broker never writes WOULD-DENY. */
  lemma NoWouldDeny(c: Config, tr: seq<State>, ev: seq<Event>, k: nat, i: nat)
    requires Run(c, tr, ev) && c.enforce && k < |tr| && i < |tr[k].history| && tr[k].history[i].Wrote?
    ensures !tr[k].history[i].v.WouldDeny?
  {
    Reachable(c, tr, ev, k);
    assert EntryOk(c, tr[k], i);
  }

  /** A thread's operation returned a refusal if it did before or does now. */
  lemma RefusedStep(c: Config, s: State, e: Event, r: State, t: nat)
    requires Enabled(s, e) && r == Step(c, s, e) && t in r.threads && SelvesOk(c, s)
    ensures r.threads[t].refused <==> (t in s.threads && s.threads[t].refused) || e == Finish(t, ReturnedDenied)
    ensures t !in s.threads ==> e.t == t && e.Arrive?
  {
    if t in s.threads { assert SelfOk(c, s.history, t, s.threads[t]); }
  }

  lemma {:induction false} RefusedByEvent(c: Config, tr: seq<State>, ev: seq<Event>, k: nat, t: nat)
    requires Run(c, tr, ev) && k < |tr| && t in tr[k].threads
    ensures tr[k].threads[t].refused <==> exists j :: 0 <= j < k && ev[j] == Finish(t, ReturnedDenied)
  {
    if k > 0 {
      Reachable(c, tr, ev, k - 1);
      assert StepAt(c, tr, ev, k - 1);
      RefusedStep(c, tr[k - 1], ev[k - 1], tr[k], t);
      if t in tr[k - 1].threads { RefusedByEvent(c, tr, ev, k - 1, t); } else { NoEventBefore(c, tr, ev, k - 1, t); }
    }
  }

  lemma {:induction false} NoEventBefore(c: Config, tr: seq<State>, ev: seq<Event>, k: nat, t: nat)
    requires Run(c, tr, ev) && k < |tr| && t !in tr[k].threads
    ensures forall j :: 0 <= j < k ==> ev[j].t != t
  {
    if k > 0 {
      assert StepAt(c, tr, ev, k - 1);
      NoEventBefore(c, tr, ev, k - 1, t);
    }
  }

  /** Which refusals are logged.  A client told DENIED has a DENY record in the log unless its
      operation returned the refusal itself, which only the two restores do; then the log says
      ALLOW and no DENY record is ever written for it. */
  lemma RefusalsLogged(c: Config, tr: seq<State>, ev: seq<Event>, k: nat, t: nat)
    requires Run(c, tr, ev) && k < |tr| && t in tr[k].threads && tr[k].threads[t].pc == Done(Denied)
    ensures !Has(tr[k].history, Wrote(t, Deny)) <==> exists j :: 0 <= j < k && ev[j] == Finish(t, ReturnedDenied)
    ensures !Has(tr[k].history, Wrote(t, Deny)) ==>
              && tr[k].threads[t].input.Request? && tr[k].threads[t].input.op in RESTORES
              && Has(tr[k].history, Wrote(t, Allow)) && Has(tr[k].history, Ran(t))
  {
    Reachable(c, tr, ev, k);
    RefusedByEvent(c, tr, ev, k, t);
    var s := tr[k];
    assert ThreadOk(c, s.history, t, s.threads[t]) && SelfOk(c, s.history, t, s.threads[t]);
    if s.threads[t].refused {
      var i :| 0 <= i < |s.history| && s.history[i] == Ran(t);
      assert EntryOk(c, s, i);
      HasPrefix(s.history[..i], s.history, Wrote(t, Allow));
    }
  }

  lemma Extend(c: Config, tr: seq<State>, ev: seq<Event>, e: Event) returns (tr': seq<State>, ev': seq<Event>)
    requires Run(c, tr, ev) && Enabled(tr[|ev|], e)
    ensures Run(c, tr', ev') && ev' == ev + [e] && tr' == tr + [Step(c, tr[|ev|], e)]
  {
    tr', ev' := tr + [Step(c, tr[|ev|], e)], ev + [e];
    forall i: nat ensures StepAt(c, tr', ev', i) {
      if i < |ev| { assert StepAt(c, tr, ev, i); }
    }
  }

  /** The comment on the handler says that every refusal reaches the audit log.  A restore of a
      dump whose hash does not verify is answered DENIED, and the log holds its ALLOW alone. */
  lemma RestoreRefusalUnlogged(c: Config, op: string, body: string) returns (tr: seq<State>, ev: seq<Event>)
    requires op in RESTORES && c.rule(op, body).Permit?
    ensures Run(c, tr, ev) && var s := tr[|ev|];
      0 in s.threads && s.threads[0].pc == Done(Denied) && s.history == [Wrote(0, Allow), Ran(0)] && s.denies == 0
  {
    tr, ev := [State(map[], 0, [])], [];
    tr, ev := Extend(c, tr, ev, Arrive(0, true, Request(op, body)));
    tr, ev := Extend(c, tr, ev, Go(0));
    tr, ev := Extend(c, tr, ev, Go(0));
    tr, ev := Extend(c, tr, ev, Go(0));
    assert tr[4].threads[0].pc == Inside && tr[4].history == [Wrote(0, Allow), Ran(0)];
    tr, ev := Extend(c, tr, ev, Finish(0, ReturnedDenied));
    tr, ev := Extend(c, tr, ev, Compose(0, false));
    tr, ev := Extend(c, tr, ev, Go(0));
  }

  // ---------------------------------------------------------------- the whole story of a request

  /** What is to become of a request: a refusal, an error, an answer with a record or without one, or the
      operation under this verdict. */
  datatype Fate = Refuse | Fail | Tell | TellUnrecorded | Serve(v: Verdict)

  function FateOf(c: Config, peerOk: bool, input: Input): (f: Fate)
  {
    if !peerOk || input.TooLong? then Refuse
    else if input.Broken? then Fail
    else if input.op == "ping" then Tell
    else if Licence(c, input).Some? then Serve(Licence(c, input).value)
    else if input.op in FIXED + DATA + {"check"} && c.rule(input.op, input.body).Raises? then Fail
    else if input.op == "check" then TellUnrecorded
    else Refuse
  }

  /** The entries of one thread, in order. */
  function Of(h: seq<Entry>, t: nat): (r: seq<Entry>)
  {
    if h == [] then [] else Of(h[..|h| - 1], t) + if h[|h| - 1].t == t then [h[|h| - 1]] else []
  }

  /** How an operation that ended like this is recorded and answered. */
  predicate Ended(how: How, after: seq<Verdict>, code: Code)
  {
    match how
    case Returned => after == [] && code == Answered
    case ReturnedDenied => after == [] && code == Denied
    case RaisedDenied => after == [Deny] && code == Denied
    case RaisedTimeout => after == [Error] && code == Timeout
    case RaisedOther => after == [Error] && code == Failed
  }

  function Records(t: nat, vs: seq<Verdict>): (h: seq<Entry>)
    ensures |h| == |vs| && forall i :: 0 <= i < |vs| ==> h[i] == Wrote(t, vs[i])
  {
    seq(|vs|, i requires 0 <= i < |vs| => Wrote(t, vs[i]))
  }

  /** h is all that a thread with this fate leaves in the history, and code its answer. */
  ghost predicate Complete(f: Fate, t: nat, h: seq<Entry>, code: Code)
  {
    match f
    case Refuse => h == [Wrote(t, Deny)] && code == Denied
    case Fail => h == [Wrote(t, Error)] && code == Failed
    case Tell => h == [Wrote(t, Allow)] && code == Answered
    case TellUnrecorded => h == [] && code == Answered
    case Serve(v) => exists how, after :: Ended(how, after, code) && h == [Wrote(t, v), Ran(t)] + Records(t, after)
  }

  /** The same, or an answer that turned out too big and was replaced. */
  ghost predicate Finished(f: Fate, t: nat, h: seq<Entry>, code: Code)
  {
    || Complete(f, t, h, code)
    || (code == Failed && exists h0, code0 :: Complete(f, t, h0, code0) && h == h0 + [Wrote(t, Error)])
  }

  ghost predicate Answers(f: Fate, t: nat, h: seq<Entry>, next: Next)
    requires !next.Enter?
  {
    if next.Reply? then Complete(f, t, h, next.code) else Finished(f, t, h, next.code)
  }

  /** What a thread has left so far, by where it is. */
  ghost predicate StoryOk(f: Fate, t: nat, h: seq<Entry>, pc: Pc)
  {
    match pc
    case Start => h == []
    case Auditing(v, next) => if next.Enter? then f == Serve(v) && h == [] else Answers(f, t, h + [Wrote(t, v)], next)
    case Counted(next) => !next.Enter? && Answers(f, t, h + [Wrote(t, Deny)], next)
    case At(next) => if next.Enter? then f.Serve? && h == [Wrote(t, f.v)] else Answers(f, t, h, next)
    case Inside => f.Serve? && h == [Wrote(t, f.v), Ran(t)]
    case Done(code) => Finished(f, t, h, code)
  }

  lemma OfMore(h: seq<Entry>, x: Entry, t: nat)
    ensures Of(h + [x], t) == Of(h, t) + if x.t == t then [x] else []
  {
    InitOfSnoc(h, x);
  }

  ghost predicate ThreadStory(c: Config, s: State, t: nat)
    requires t in s.threads
  {
    StoryOk(FateOf(c, s.threads[t].peerOk, s.threads[t].input), t, Of(s.history, t), s.threads[t].pc)
  }

  ghost predicate StoriesOk(c: Config, s: State)
  {
    && (forall t :: t in s.threads ==> ThreadStory(c, s, t))
    && (forall t: nat :: t !in s.threads ==> Of(s.history, t) == [])
  }

  lemma StoryDecided(c: Config, t: nat, peerOk: bool, input: Input)
    ensures StoryOk(FateOf(c, peerOk, input), t, [], Decide(c, peerOk, input))
  {
    assert [] + [Wrote(t, Deny)] == [Wrote(t, Deny)] && [] + [Wrote(t, Error)] == [Wrote(t, Error)]
      && [] + [Wrote(t, Allow)] == [Wrote(t, Allow)];
  }

  lemma StoryReturned(f: Fate, t: nat, how: How)
    requires f.Serve?
    ensures StoryOk(f, t, [Wrote(t, f.v), Ran(t)], After(how))
  {
    var h, after := [Wrote(t, f.v), Ran(t)], if how.RaisedDenied? then [Deny] else if how.RaisedTimeout? || how.RaisedOther? then [Error] else [];
    var code := if After(how).At? then After(how).next.code else if After(how).Auditing? then After(how).next.code else Answered;
    assert Ended(how, after, code);
    assert Records(t, after) == if after == [] then [] else [Wrote(t, after[0])];
    assert h + [] == h;
  }

  lemma StoryMoves(c: Config, s: State, e: Event)
    requires Enabled(s, e) && StoriesOk(c, s)
    ensures ThreadStory(c, Step(c, s, e), e.t)
  {
    var s' := Step(c, s, e);
    var h, t := s.history, e.t;
    if |s'.history| > |h| { OfMore(h, s'.history[|h|], t); }
    match e {
      case Arrive(_, _, _) =>
      case Finish(_, how) =>
        assert ThreadStory(c, s, t);
        StoryReturned(FateOf(c, s.threads[t].peerOk, s.threads[t].input), t, how);
      case Compose(_, _) => assert ThreadStory(c, s, t);
      case Go(_) =>
        assert ThreadStory(c, s, t);
        StoryDecided(c, t, s.threads[t].peerOk, s.threads[t].input);
    }
  }

  lemma StepStories(c: Config, s: State, e: Event)
    requires Enabled(s, e) && StoriesOk(c, s)
    ensures StoriesOk(c, Step(c, s, e))
  {
    var s' := Step(c, s, e);
    forall t | t in s'.threads ensures ThreadStory(c, s', t) {
      if t == e.t {
        StoryMoves(c, s, e);
      } else {
        StoryStays(c, s, e, t);
        assert ThreadStory(c, s, t);
      }
    }
    forall t: nat | t !in s'.threads ensures Of(s'.history, t) == [] { StoryStays(c, s, e, t); }
  }

  lemma StoryStays(c: Config, s: State, e: Event, t: nat)
    requires Enabled(s, e) && t != e.t
    ensures Of(Step(c, s, e).history, t) == Of(s.history, t) && (t in Step(c, s, e).threads <==> t in s.threads)
    ensures t in s.threads ==> Step(c, s, e).threads[t] == s.threads[t]
  {
    var h, h' := s.history, Step(c, s, e).history;
    if |h'| > |h| { OfMore(h, h'[|h|], t); }
  }

  /** The story of every request that was answered, whatever the other threads did: what it left in the log,
      whether and where its operation ran, and the answer.  A request that may run has run, exactly
      once and under its record; all others never; and only `check` leaves no record. */
  lemma {:induction false} StoryExact(c: Config, tr: seq<State>, ev: seq<Event>, k: nat)
    requires Run(c, tr, ev) && k < |tr|
    ensures StoriesOk(c, tr[k])
    ensures forall t :: t in tr[k].threads && tr[k].threads[t].pc.Done? ==>
              Finished(FateOf(c, tr[k].threads[t].peerOk, tr[k].threads[t].input), t, Of(tr[k].history, t), tr[k].threads[t].pc.code)
  {
    if k > 0 {
      StoryExact(c, tr, ev, k - 1);
      assert StepAt(c, tr, ev, k - 1);
      StepStories(c, tr[k - 1], ev[k - 1]);
    }
    forall t | t in tr[k].threads && tr[k].threads[t].pc.Done?
      ensures Finished(FateOf(c, tr[k].threads[t].peerOk, tr[k].threads[t].input), t, Of(tr[k].history, t), tr[k].threads[t].pc.code)
    {
      assert ThreadStory(c, tr[k], t);
    }
  }

  lemma {:induction false} OfHas(h: seq<Entry>, x: Entry)
    ensures Has(h, x) <==> x in Of(h, x.t)
    decreases |h|
  {
    if h != [] {
      var init, last := h[..|h| - 1], h[|h| - 1];
      OfHas(init, x);
      InitLast(h);
      HasNew(init, last, x);
    }
  }

  /** An answered request has run if and only if it may: `enforce_enable`, a permitted operation, or a
      forbidden exec, write or read in PERMISSIVE mode; and its record tells which. */
  lemma ServedExactly(c: Config, tr: seq<State>, ev: seq<Event>, k: nat, t: nat)
    requires Run(c, tr, ev) && k < |tr| && t in tr[k].threads && tr[k].threads[t].pc.Done?
    ensures var th := tr[k].threads[t];
      && (Has(tr[k].history, Ran(t)) <==>
            th.peerOk && th.input.Request?
            && (th.input.op == "enforce_enable"
                || (th.input.op in FIXED + DATA && c.rule(th.input.op, th.input.body).Permit?)
                || (th.input.op in DATA && c.rule(th.input.op, th.input.body).Forbid? && !c.enforce)))
      && (Has(tr[k].history, Ran(t)) ==> Has(tr[k].history, Wrote(t, Licence(c, th.input).value)))
  {
    StoryExact(c, tr, ev, k);
    var th, h := tr[k].threads[t], Of(tr[k].history, t);
    var f := FateOf(c, th.peerOk, th.input);
    OfHas(tr[k].history, Ran(t));
    StoryRuns(f, t, h, th.pc.code);
    if f.Serve? { OfHas(tr[k].history, Wrote(t, f.v)); }
  }

  lemma StoryRuns(f: Fate, t: nat, h: seq<Entry>, code: Code)
    requires Finished(f, t, h, code)
    ensures Ran(t) in h <==> f.Serve?
    ensures f.Serve? ==> Wrote(t, f.v) in h
    decreases |h|
  {
    if !Complete(f, t, h, code) {
      var h0, code0 :| Complete(f, t, h0, code0) && h == h0 + [Wrote(t, Error)];
      StoryRuns(f, t, h0, code0);
    } else if f.Serve? {
      assert h[0] == Wrote(t, f.v) && h[1] == Ran(t);
    }
  }

  /** The counter the broker shows is never behind the log, ahead of it by the refusals being
      written, and equal to it when no thread is between its two steps. */
  lemma DenyCountExact(c: Config, tr: seq<State>, ev: seq<Event>, k: nat)
    requires Run(c, tr, ev) && k < |tr|
    ensures tr[k].denies == DenyRecords(tr[k].history) + |Pending(tr[k])|
    ensures tr[k].denies == DenyRecords(tr[k].history) <==> forall t :: t in tr[k].threads ==> !tr[k].threads[t].pc.Counted?
  {
    Reachable(c, tr, ev, k);
    var p := Pending(tr[k]);
    if |p| > 0 {
      var t :| t in p;
      assert tr[k].threads[t].pc.Counted?;
    }
    if t :| t in tr[k].threads && tr[k].threads[t].pc.Counted? {
      assert t in p;
      assert p != {};
    }
  }

  /** The records of a history, with the text each carries. */
  predicate RecordsOf(h: seq<Entry>, rs: seq<AuditJson.Record>, who: seq<nat>)
  {
    |who| == |rs| && forall j :: 0 <= j < |rs| ==> who[j] < |h| && h[who[j]].Wrote? && rs[j].verdict == Text(h[who[j]].v)
  }

  /** The verdicts are told apart in the log. */
  lemma VerdictsApart(v: Verdict, w: Verdict)
    ensures Text(v) == Text(w) ==> v == w
  {}

  /** A forbidden request in PERMISSIVE mode shuts the gate until its record is old. */
  lemma WouldDenyShuts(c: Config, tr: seq<State>, ev: seq<Event>, k: nat, rs: seq<AuditJson.Record>, who: seq<nat>, i: nat,
                       ts: CleanWindow.Clock, now: CleanWindow.Time, later: CleanWindow.Time, ls: seq<string>, stamps: seq<string>)
    requires Run(c, tr, ev) && k < |tr| && RecordsOf(tr[k].history, rs, who) && i < |rs| && tr[k].history[who[i]].v.WouldDeny?
    requires CleanWindow.IsClean(ts, now, ls) && now <= later && |stamps| == |rs| && CleanWindow.Stamps(stamps)
    requires var line := AuditJson.LogLine(stamps[i], rs[i]); ts(line).Some? && later - ts(line).value < CleanWindow.CLEAN_SECS
    ensures !CleanWindow.IsClean(ts, later, ls + CleanWindow.Lines(stamps, rs))
  {
    assert CleanWindow.RecentRefusal(ts, later, stamps[i], rs[i]);
    CleanWindow.RecordsDecide(ts, now, later, ls, stamps, rs);
  }

  /** Once a clean log opens the gate, no audit record of an enforcing broker can shut it. */
  lemma EnforcingStaysReady(c: Config, tr: seq<State>, ev: seq<Event>, k: nat, rs: seq<AuditJson.Record>, who: seq<nat>,
                            ts: CleanWindow.Clock, now: CleanWindow.Time, later: CleanWindow.Time, ls: seq<string>, stamps: seq<string>)
    requires Run(c, tr, ev) && c.enforce && k < |tr| && RecordsOf(tr[k].history, rs, who)
    requires CleanWindow.IsClean(ts, now, ls) && now <= later && |stamps| == |rs| && CleanWindow.Stamps(stamps)
    ensures CleanWindow.IsClean(ts, later, ls + CleanWindow.Lines(stamps, rs))
  {
    forall i | 0 <= i < |rs| ensures !CleanWindow.RecentRefusal(ts, later, stamps[i], rs[i]) {
      NoWouldDeny(c, tr, ev, k, who[i]);
    }
    CleanWindow.RecordsDecide(ts, now, later, ls, stamps, rs);
  }
}
