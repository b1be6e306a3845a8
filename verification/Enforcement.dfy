/**
 When the broker enforces: the mode it resolves at each start, from the environment, the sticky
 stamp, the operator's opt-in marker and the audit log, and what can happen to those between
 starts.
 */
module Enforcement {
  import opened Wrappers
  import opened PathNorm
  import opened PathRules
  import opened CleanWindow

  /** The override variable: 0, 1 or anything else. */
  datatype Env = Off | On | Unset

  /** The stamp file as the start reads it: absent or not JSON, JSON but no object, an object
      without flipped_at, or one with it. */
  datatype Stamp = Unreadable | NotObject | Unflipped | Flipped

  /** A start fails outright, or settles the mode. */
  datatype Outcome = Crash | Mode(enforce: bool)

  /** The mode a start settles on. */
  function Resolve(env: Env, marker: bool, stamp: Stamp, clean: bool): (o: Outcome)
  {
    match env
    case Off => Mode(false)
    case On => Mode(true)
    case Unset =>
      match stamp
      case NotObject => Crash
      case Flipped => Mode(true)
      case Unreadable | Unflipped => Mode(marker && clean)
  }

  /** Whether that start tries to write the stamp. */
  predicate LeavesStamp(env: Env, marker: bool, stamp: Stamp, clean: bool)
  {
    env.Unset? && (stamp.Unreadable? || stamp.Unflipped?) && marker && clean
  }

  /** The two files of the broker's state directory. */
  class StateDir {
    var marker: bool
    var stamp: Stamp

    constructor (marker: bool, stamp: Stamp)
      ensures this.marker == marker && this.stamp == stamp
    {
      this.marker, this.stamp := marker, stamp;
    }

    /** `_resolve_enforce`; `disk`: the stamp can be written.  The log is read only when neither
        the variable nor the stamp decides. */
    method ResolveEnforce(env: Env, now: Time, files: seq<LogFile>, ts: Clock, disk: bool) returns (o: Outcome)
      modifies this
      ensures marker == old(marker)
      ensures o == Resolve(env, marker, old(stamp), IsClean(ts, now, Log(files)))
      // it fails outright exactly on JSON that is no object, where the variable does not decide
      ensures o.Crash? <==> env.Unset? && old(stamp).NotObject?
      // unstamped and without override it enforces exactly on opt-in and a clean log, and then
      // leaves the stamp exactly if it can
      ensures env.Unset? && !old(stamp).Flipped? ==>
                (o == Mode(true) <==> marker && IsClean(ts, now, Log(files)) && !old(stamp).NotObject?)
                && (stamp.Flipped? <==> o == Mode(true) && disk)
      ensures stamp == if disk && LeavesStamp(env, marker, old(stamp), IsClean(ts, now, Log(files))) then Flipped else old(stamp)
    {
      if env == Off { return Mode(false); }
      if env == On { return Mode(true); }
      if stamp == NotObject { return Crash; }
      if stamp == Flipped { return Mode(true); }
      var gate := AuditCleanWindow(now, files, ts);
      if !marker { return Mode(false); }
      if !gate.Clean? { return Mode(false); }
      if disk { stamp := Flipped; }
      return Mode(true);
    }

    /** `_do_enforce_enable`: creates the marker and answers whether the box is ready.  made: the
        file could be written; moded: so could its mode, without which the answer is an error
        although the marker is there. */
    method EnforceEnable(now: Time, files: seq<LogFile>, ts: Clock, made: bool, moded: bool) returns (ready: Option<bool>)
      modifies this
      ensures stamp == old(stamp) && marker == (old(marker) || made)
      ensures ready == if made && moded then Some(IsClean(ts, now, Log(files))) else None
    {
      if !made { return None; }
      marker := true;
      if !moded { return None; }
      var gate := AuditCleanWindow(now, files, ts);
      return Some(gate.Clean?);
    }
  }

  // ---------------------------------------------------------------- runs

  /** Where the files are: stamp, marker, the audit log from the oldest file to the newest, and the trees
      in which the handlers of the fixed-shape operations write. */
  datatype Layout = Layout(stamp: Comps, marker: Comps, logs: seq<Comps>, trees: seq<Comps>)

  /** cnf: the one file whose writes a gate of their own judges, and that gate's answer. */
  datatype Config = Config(rules: Rules, within: (string, string) -> bool, cnf: string, cnfOk: bool, ts: Clock, at: Layout)

  /** The rulebook on a `write` request. */
  predicate WritePermitted(c: Config, path: string)
  {
    if Abs(path) == Ok(c.cnf) then c.cnfOk else PathAllowed(c.rules, c.within, path, false).Ok?
  }

  /** The rulebook on a command such as rm with this operand. */
  predicate OperandPermitted(c: Config, path: string) { PathAllowed(c.rules, c.within, path, false).Ok? }

  /** The daemon, with the mode it runs in. */
  datatype Daemon = Stopped | Permissive | Enforcing

  datatype State = State(now: Time, files: seq<LogFile>, marker: bool, stamp: Stamp, up: Daemon)

  /** One file of the log for every place. */
  predicate Shaped(c: Config, s: State) { |s.files| == |c.at.logs| >= 2 }

  predicate Ready(c: Config, s: State) { IsClean(c.ts, s.now, Log(s.files)) }

  /** The files afterwards, as a start reads them. */
  datatype Disk = Disk(stamp: Stamp, marker: bool, files: seq<LogFile>)

  /** Write stands for a `write`.  Command stands for a command whose operand is judged, such as rm, mv or
      cp: it leaves what it likes at its operand and anywhere below.  What else a PERMISSIVE daemon
      executes is a command on `/`.  Operate stands for a handler of a fixed-shape operation at work in
      one place.  Append names the file the log handler holds open, if that is still one of the log.
      Tick may set the clock back. */
  datatype Event =
    | StartUp(env: Env, disk: bool)
    | Down
    | Tick(to: Time)
    | Append(line: string, open: Option<nat>)
    | Rotate
    | Enable(made: bool)
    | Write(path: string, stamp: Stamp, lines: seq<string>)
    | Command(path: string, left: Disk)
    | Operate(place: Comps, left: Disk)

  predicate Enabled(c: Config, s: State, e: Event)
  {
    Shaped(c, s) &&
    match e
    case StartUp(_, _) => s.up.Stopped?
    case Down => !s.up.Stopped?
    case Tick(_) => true
    case Append(line, open) => !s.up.Stopped? && (s.up.Enforcing? ==> !Marked(line)) && (open.Some? ==> open.value < |s.files|)
    case Rotate => true
    case Enable(_) => !s.up.Stopped?
    case Write(_, _, _) => !s.up.Stopped?
    case Command(_, left) => !s.up.Stopped? && |left.files| == |s.files|
    case Operate(place, left) => !s.up.Stopped? && |left.files| == |s.files| && Covers(c.at.trees, place)
  }

  function Started(c: Config, s: State, env: Env, disk: bool): (r: State)
  {
    var o := Resolve(env, s.marker, s.stamp, Ready(c, s));
    s.(up := if o.Crash? then Stopped else if o.enforce then Enforcing else Permissive,
       stamp := if disk && LeavesStamp(env, s.marker, s.stamp, Ready(c, s)) then Flipped else s.stamp)
  }

  /** Whether the event can change this file. */
  predicate Reaches(e: Event, file: Comps)
  {
    match e
    case Write(path, _, _) => Resolved(path) == file
    case Command(path, _) => Resolved(path) <= file
    case Operate(place, _) => place <= file
    case _ => false
  }

  predicate IsRequest(e: Event) { e.Write? || e.Command? }

  function Left(e: Event, n: nat): (d: Disk)
    requires IsRequest(e) || e.Operate?
    requires !e.Write? ==> |e.left.files| == n
    ensures |d.files| == n
  {
    if e.Write? then Disk(e.stamp, true, seq(n, i => Some(e.lines))) else e.left
  }

  /** Every file the event reaches is changed, the others are not. */
  function Touched(c: Config, s: State, e: Event): (r: State)
    requires Shaped(c, s) && (IsRequest(e) || e.Operate?)
    requires !e.Write? ==> |e.left.files| == |s.files|
  {
    var left := Left(e, |s.files|);
    s.(stamp := if Reaches(e, c.at.stamp) then left.stamp else s.stamp,
       marker := if Reaches(e, c.at.marker) then left.marker else s.marker,
       files := seq(|s.files|, i requires 0 <= i < |s.files| => if Reaches(e, c.at.logs[i]) then left.files[i] else s.files[i]))
  }

  /** In ENFORCE only what the rulebook permits happens, in PERMISSIVE mode everything does. */
  predicate Happens(c: Config, s: State, e: Event)
  {
    || (e.Write? && Abs(e.path).Ok? && (s.up.Enforcing? ==> WritePermitted(c, e.path)))
    || (e.Command? && Abs(e.path).Ok? && (s.up.Enforcing? ==> OperandPermitted(c, e.path)))
  }

  function Step(c: Config, s: State, e: Event): (r: State)
    requires Enabled(c, s, e)
  {
    match e
    case StartUp(env, disk) => Started(c, s, env, disk)
    case Down => s.(up := Stopped)
    case Tick(to) => s.(now := to)
    case Append(line, open) => s.(files := Appended(s.files, line, open))
    case Rotate => s.(files := Rollover(s.files))
    case Enable(made) => s.(marker := s.marker || made)
    case Write(_, _, _) => if Happens(c, s, e) then Touched(c, s, e) else s
    case Command(_, _) => if Happens(c, s, e) then Touched(c, s, e) else s
    case Operate(_, _) => Touched(c, s, e)
  }

  predicate StepAt(c: Config, tr: seq<State>, ev: seq<Event>, i: nat)
    requires |tr| == |ev| + 1
  {
    i < |ev| ==> Enabled(c, tr[i], ev[i]) && tr[i + 1] == Step(c, tr[i], ev[i])
  }

  /** A run from any state of the box. */
  ghost predicate Run(c: Config, tr: seq<State>, ev: seq<Event>)
  {
    |tr| == |ev| + 1 && forall i: nat :: StepAt(c, tr, ev, i)
  }

  lemma OneStep(c: Config, tr: seq<State>, ev: seq<Event>, i: nat)
    requires Run(c, tr, ev) && i < |ev|
    ensures Enabled(c, tr[i], ev[i]) && tr[i + 1] == Step(c, tr[i], ev[i])
  {
    assert StepAt(c, tr, ev, i);
  }

  // ---------------------------------------------------------------- what cannot be reached

  /** The rulebook lets nothing reach this file, and it is not the one with a gate of its own. */
  predicate Kept(c: Config, cs: Comps) { Sealed(c.rules, cs) && c.cnf != File(cs) && c.cnf != "/" + File(cs) }

  predicate NoneAbove(ds: seq<Comps>, cs: Comps) { forall k :: 0 <= k < |ds| ==> !(ds[k] <= cs) }

  /** Nothing reaches stamp and marker, and the handlers write elsewhere than there and in the log. */
  predicate Guarded(c: Config)
  {
    && Wf(c.rules) && Kept(c, c.at.stamp) && Kept(c, c.at.marker)
    && NoneAbove(c.at.trees, c.at.stamp) && NoneAbove(c.at.trees, c.at.marker)
    && forall i :: 0 <= i < |c.at.logs| ==> NoneAbove(c.at.trees, c.at.logs[i])
  }

  /** A path keeps two leading slashes or has one. */
  lemma TextOf(path: string)
    ensures Abs(path).Ok? ==> Abs(path).path == File(Resolved(path)) || Abs(path).path == "/" + File(Resolved(path))
  {
    AbsExact(path);
    Assoc("/", "/", Join(Resolved(path)));
    assert "/" + "/" == "//";
  }

  /** In ENFORCE no write and no command, however its path is spelled, happens to marker or stamp or to a
      directory above them. */
  lemma RequestsKeepOut(c: Config, s: State, e: Event)
    requires Guarded(c) && s.up.Enforcing? && IsRequest(e) && Happens(c, s, e)
    ensures !Reaches(e, c.at.stamp) && !Reaches(e, c.at.marker)
  {
    forall cs | cs in {c.at.stamp, c.at.marker} ensures !Reaches(e, cs) {
      if Reaches(e, cs) {
        TextOf(e.path);
        SealedRefused(c.rules, c.within, e.path, false, cs);
      }
    }
  }

  /** No handler of a fixed-shape operation writes marker, stamp or log, or removes a directory above
      them. */
  lemma HandlersKeepOut(c: Config, e: Event)
    requires Guarded(c) && e.Operate? && Covers(c.at.trees, e.place)
    ensures !Reaches(e, c.at.stamp) && !Reaches(e, c.at.marker) && forall i :: 0 <= i < |c.at.logs| ==> !Reaches(e, c.at.logs[i])
  {
    var k :| 0 <= k < |c.at.trees| && c.at.trees[k] <= e.place;
    NotBelow(c.at.trees[k], e.place, c.at.stamp);
    NotBelow(c.at.trees[k], e.place, c.at.marker);
    forall i | 0 <= i < |c.at.logs| ensures !Reaches(e, c.at.logs[i]) { NotBelow(c.at.trees[k], e.place, c.at.logs[i]); }
  }

  lemma NotBelow(d: Comps, place: Comps, file: Comps)
    requires d <= place && !(d <= file)
    ensures !(place <= file)
  {}

  lemma HandlersLeave(c: Config, s: State, e: Event)
    requires Guarded(c) && Enabled(c, s, e) && e.Operate?
    ensures Step(c, s, e) == s
  {
    HandlersKeepOut(c, e);
    assert Touched(c, s, e).files == s.files;
  }

  /** Without a PERMISSIVE daemon marker and stamp change only at a start and by the enable
      operation. */
  lemma StateKept(c: Config, s: State, e: Event)
    requires Guarded(c) && Enabled(c, s, e) && !s.up.Permissive?
    ensures Step(c, s, e).stamp == s.stamp || (e.StartUp? && Step(c, s, e).stamp.Flipped?)
    ensures Step(c, s, e).marker == (s.marker || e == Enable(true))
  {
    if e.Operate? { HandlersLeave(c, s, e); }
    if IsRequest(e) && Happens(c, s, e) { RequestsKeepOut(c, s, e); }
  }

  // ---------------------------------------------------------------- the ratchet

  predicate NoOverride(ev: seq<Event>, i: nat) { forall k :: i <= k < |ev| && ev[k].StartUp? ==> ev[k].env != Off }

  lemma StampedStep(c: Config, s: State, e: Event)
    requires Guarded(c) && Enabled(c, s, e) && s.stamp.Flipped? && !s.up.Permissive? && (e.StartUp? ==> e.env != Off)
    ensures var r := Step(c, s, e); r.stamp.Flipped? && !r.up.Permissive? && (e.StartUp? ==> r.up.Enforcing?)
  {
    StateKept(c, s, e);
  }

  /** The ratchet: once the stamp stands and no PERMISSIVE daemon is running, then, as long as
      nobody sets the kill switch, the stamp stays and every later start enforces. */
  lemma {:induction false} Ratchet(c: Config, tr: seq<State>, ev: seq<Event>, i: nat, j: nat)
    requires Run(c, tr, ev) && Guarded(c) && i <= j < |tr| && NoOverride(ev, i)
    requires tr[i].stamp.Flipped? && !tr[i].up.Permissive?
    ensures tr[j].stamp.Flipped? && !tr[j].up.Permissive?
    ensures j < |ev| && ev[j].StartUp? ==> tr[j + 1].up.Enforcing?
    decreases j
  {
    if i < j {
      Ratchet(c, tr, ev, i, j - 1);
      assert StepAt(c, tr, ev, j - 1);
      StampedStep(c, tr[j - 1], ev[j - 1]);
    }
    assert StepAt(c, tr, ev, j);
    if j < |ev| { StampedStep(c, tr[j], ev[j]); }
  }

  /** So the first start that enforces on a box with a writable stamp settles it: from then on every start
      enforces, whatever becomes of marker, log and clock, as long as nobody sets the kill switch. */
  lemma FirstStartSticks(c: Config, tr: seq<State>, ev: seq<Event>, i: nat, j: nat)
    requires Run(c, tr, ev) && Guarded(c) && i < j < |ev| && ev[i] == StartUp(Unset, true) && tr[i + 1].up.Enforcing?
    requires ev[j].StartUp? && NoOverride(ev, i + 1)
    ensures tr[i + 1].stamp.Flipped? && tr[j + 1].up.Enforcing?
  {
    OneStep(c, tr, ev, i);
    Ratchet(c, tr, ev, i + 1, j);
  }

  /** What can bring enforcement about: a start on an opted-in box with a clean log, or a stamp that a
      request to a PERMISSIVE daemon puts in place. */
  predicate Causes(c: Config, s: State, e: Event)
  {
    || (e.StartUp? && e.env.Unset? && s.marker && Ready(c, s))
    || (IsRequest(e) && s.up.Permissive? && Reaches(e, c.at.stamp) && PutsStamp(e))
  }

  predicate PutsStamp(e: Event) { (e.Write? && e.stamp.Flipped?) || (e.Command? && e.left.stamp.Flipped?) }

  predicate Watching(s: State) { !s.stamp.Flipped? && !s.up.Enforcing? }

  lemma WatchingStep(c: Config, s: State, e: Event, r: State)
    requires Guarded(c) && Enabled(c, s, e) && Watching(s) && (e.StartUp? ==> e.env != On) && r == Step(c, s, e)
    ensures Watching(r) || Causes(c, s, e)
  {
    if e.Operate? { HandlersLeave(c, s, e); }
  }

  /** A box that neither enforces nor is stamped comes to enforce, where nobody forces it on, only
      after a start that found it opted in and clean, or after a stamp put in place in PERMISSIVE mode. */
  lemma {:induction false} EnforcementHasACause(c: Config, tr: seq<State>, ev: seq<Event>, i: nat, j: nat) returns (k: nat)
    requires Run(c, tr, ev) && Guarded(c) && i <= j < |tr| && Watching(tr[i]) && !Watching(tr[j])
    requires forall k :: i <= k < |ev| && ev[k].StartUp? ==> ev[k].env != On
    ensures i <= k < j && Causes(c, tr[k], ev[k])
    decreases j
  {
    if !Watching(tr[j - 1]) {
      k := EnforcementHasACause(c, tr, ev, i, j - 1);
    } else {
      k := j - 1;
      OneStep(c, tr, ev, k);
      WatchingStep(c, tr[k], ev[k], tr[j]);
    }
  }

  /** What creates the marker: the enable operation, or in PERMISSIVE mode a write that names it or a
      command on it or on a directory above it. */
  predicate MakesMarker(c: Config, s: State, e: Event)
  {
    !s.up.Stopped? && (e == Enable(true) || (IsRequest(e) && Reaches(e, c.at.marker) && s.up.Permissive?))
  }

  lemma MarkerStep(c: Config, s: State, e: Event, r: State)
    requires Guarded(c) && Enabled(c, s, e) && r == Step(c, s, e) && !s.marker && r.marker
    ensures MakesMarker(c, s, e)
  {
    if e.Operate? { HandlersLeave(c, s, e); }
    if !s.up.Permissive? { StateKept(c, s, e); }
  }

  lemma {:induction false} MarkerHasACause(c: Config, tr: seq<State>, ev: seq<Event>, i: nat, j: nat) returns (k: nat)
    requires Run(c, tr, ev) && Guarded(c) && i <= j < |tr| && !tr[i].marker && tr[j].marker
    ensures i <= k < j && !tr[k].marker && MakesMarker(c, tr[k], ev[k])
    decreases j
  {
    if tr[j - 1].marker {
      k := MarkerHasACause(c, tr, ev, i, j - 1);
    } else {
      k := j - 1;
      OneStep(c, tr, ev, k);
      MarkerStep(c, tr[k], ev[k], tr[j]);
    }
  }

  /** No box comes to enforce by itself: somebody opted in, or a PERMISSIVE daemon was told to put one of
      the two files in place. */
  lemma OptInFirst(c: Config, tr: seq<State>, ev: seq<Event>, i: nat, j: nat) returns (k: nat)
    requires Run(c, tr, ev) && Guarded(c) && i <= j < |tr| && Watching(tr[i]) && !tr[i].marker && !Watching(tr[j])
    requires forall k :: i <= k < |ev| && ev[k].StartUp? ==> ev[k].env != On
    ensures i <= k < j
    ensures MakesMarker(c, tr[k], ev[k]) || (IsRequest(ev[k]) && tr[k].up.Permissive? && Reaches(ev[k], c.at.stamp) && PutsStamp(ev[k]))
  {
    k := EnforcementHasACause(c, tr, ev, i, j);
    if ev[k].StartUp? { k := MarkerHasACause(c, tr, ev, i, k); }
  }

  /** What takes the marker away. */
  predicate UnmakesMarker(c: Config, s: State, e: Event)
  {
    e.Command? && s.up.Permissive? && Reaches(e, c.at.marker) && !e.left.marker
  }

  lemma MarkerKept(c: Config, s: State, e: Event)
    requires Guarded(c) && Enabled(c, s, e) && s.marker
    ensures Step(c, s, e).marker || UnmakesMarker(c, s, e)
  {
    if e.Operate? { HandlersLeave(c, s, e); }
    if !s.up.Permissive? { StateKept(c, s, e); }
  }

  /** The opt-in is taken back only by a command that a PERMISSIVE daemon runs on the marker or on a
      directory above it: no start, no operation handler, no write and no rotation removes it. */
  lemma {:induction false} MarkerStays(c: Config, tr: seq<State>, ev: seq<Event>, i: nat, j: nat)
    requires Run(c, tr, ev) && Guarded(c) && i <= j < |tr| && tr[i].marker
    ensures tr[j].marker || exists k :: i <= k < j && UnmakesMarker(c, tr[k], ev[k])
    decreases j
  {
    if i < j {
      MarkerStays(c, tr, ev, i, j - 1);
      assert StepAt(c, tr, ev, j - 1);
      if tr[j - 1].marker { MarkerKept(c, tr[j - 1], ev[j - 1]); }
    }
  }

  // ---------------------------------------------------------------- without a stamp

  /** Opted in, clean and not PERMISSIVE. */
  predicate Holding(c: Config, s: State) { s.marker && !s.up.Permissive? && !s.stamp.NotObject? && Ready(c, s) }

  /** A permitted request names a file of the log, or a command a directory above one. */
  predicate TouchesLog(c: Config, s: State, e: Event)
  {
    IsRequest(e) && Happens(c, s, e) && exists i :: 0 <= i < |c.at.logs| && Reaches(e, c.at.logs[i])
  }

  lemma LogKept(c: Config, s: State, e: Event)
    requires Guarded(c) && Enabled(c, s, e) && IsRequest(e) && !TouchesLog(c, s, e)
    ensures Step(c, s, e).files == s.files
  {}

  /** The log is as it was, new lines apart, and no younger than it was. */
  predicate KeepsLog(c: Config, s: State, e: Event) { !e.Rotate? && !TouchesLog(c, s, e) && (e.Tick? ==> s.now <= e.to) }

  lemma HoldingStep(c: Config, s: State, e: Event)
    requires Guarded(c) && Enabled(c, s, e) && Holding(c, s) && KeepsLog(c, s, e) && (e.StartUp? ==> e.env != Off)
    ensures Holding(c, Step(c, s, e)) && (e.StartUp? ==> Step(c, s, e).up.Enforcing?)
  {
    StateKept(c, s, e);
    match e {
      case StartUp(_, _) =>
      case Down =>
      case Tick(to) => StaysClean(c.ts, s.now, to, Log(s.files), []); EmptyPrefix(Log(s.files));
      case Append(line, open) => AppendedStaysClean(c.ts, s.now, s.files, line, open);
      case Rotate =>
      case Enable(_) =>
      case Write(_, _, _) => LogKept(c, s, e);
      case Command(_, _) => LogKept(c, s, e);
      case Operate(_, _) => HandlersLeave(c, s, e);
    }
  }

  /** Where the stamp could not be written the ratchet rests on the log: as long as no file of it is
      rotated away, no permitted request names one or a directory above one, and the clock is not set
      back, a box that enforces keeps enforcing over every restart. */
  lemma {:induction false} UnstampedRatchet(c: Config, tr: seq<State>, ev: seq<Event>, i: nat, j: nat)
    requires Run(c, tr, ev) && Guarded(c) && i <= j < |tr| && NoOverride(ev, i) && Holding(c, tr[i])
    requires forall k :: i <= k < |ev| ==> KeepsLog(c, tr[k], ev[k])
    ensures Holding(c, tr[j])
    ensures j < |ev| && ev[j].StartUp? ==> tr[j + 1].up.Enforcing?
    decreases j
  {
    if i < j {
      UnstampedRatchet(c, tr, ev, i, j - 1);
      assert StepAt(c, tr, ev, j - 1);
      HoldingStep(c, tr[j - 1], ev[j - 1]);
    }
    assert StepAt(c, tr, ev, j);
    if j < |ev| { HoldingStep(c, tr[j], ev[j]); }
  }

  predicate Next(c: Config, s: State, e: Event, r: State) { Enabled(c, s, e) && Step(c, s, e) == r }

  lemma FourSteps(c: Config, tr: seq<State>, ev: seq<Event>)
    requires |tr| == 5 && |ev| == 4 && Next(c, tr[0], ev[0], tr[1]) && Next(c, tr[1], ev[1], tr[2])
    requires Next(c, tr[2], ev[2], tr[3]) && Next(c, tr[3], ev[3], tr[4])
    ensures Run(c, tr, ev)
  {
    forall i: nat ensures StepAt(c, tr, ev, i) {
      if i == 0 {} else if i == 1 {} else if i == 2 {} else if i == 3 {}
    }
  }

  lemma Restart(c: Config, s: State)
    requires Shaped(c, s) && !s.up.Stopped? && !s.stamp.Flipped? && !s.stamp.NotObject? && !(s.marker && Ready(c, s))
    ensures Next(c, s, Down, s.(up := Stopped)) && Next(c, s.(up := Stopped), StartUp(Unset, true), s.(up := Permissive))
  {}

  /** The box enforces, its stamp was never written, one event changes log or clock so that the log is no
      longer clean, and the next start is PERMISSIVE. */
  lemma LogChangeUndoes(c: Config, s: State, e: Event) returns (tr: seq<State>, ev: seq<Event>)
    requires Shaped(c, s) && Holding(c, s) && s.up.Stopped? && s.stamp.Unreadable? && var s1 := s.(up := Enforcing);
             Enabled(c, s1, e) && Step(c, s1, e) == s1.(files := Step(c, s1, e).files, now := Step(c, s1, e).now) && !Ready(c, Step(c, s1, e))
    ensures Run(c, tr, ev) && tr[0] == s && ev == [StartUp(Unset, false), e, Down, StartUp(Unset, true)]
    ensures tr[1].up.Enforcing? && tr[4].up.Permissive?
  {
    var s1 := s.(up := Enforcing);
    var s2 := Step(c, s1, e);
    assert Next(c, s, StartUp(Unset, false), s1);
    Restart(c, s2);
    tr := [s, s1, s2, s2.(up := Stopped), s2.(up := Permissive)];
    ev := [StartUp(Unset, false), e, Down, StartUp(Unset, true)];
    FourSteps(c, tr, ev);
  }

  /** One rotation is enough, when what it drops was all the old history. */
  lemma RotationUndoes(c: Config, s: State) returns (tr: seq<State>, ev: seq<Event>)
    requires Shaped(c, s) && Holding(c, s) && s.up.Stopped? && s.stamp.Unreadable? && !IsClean(c.ts, s.now, Log(Rollover(s.files)))
    ensures Run(c, tr, ev) && tr[0] == s && ev == [StartUp(Unset, false), Rotate, Down, StartUp(Unset, true)]
    ensures tr[1].up.Enforcing? && tr[4].up.Permissive?
  {
    tr, ev := LogChangeUndoes(c, s, Rotate);
  }

  /** Or setting the clock back, to when the log was too young or a refusal in it was fresh. */
  lemma ClockUndoes(c: Config, s: State, to: Time) returns (tr: seq<State>, ev: seq<Event>)
    requires Shaped(c, s) && Holding(c, s) && s.up.Stopped? && s.stamp.Unreadable? && !IsClean(c.ts, to, Log(s.files))
    ensures to < s.now && Run(c, tr, ev) && tr[0] == s && ev == [StartUp(Unset, false), Tick(to), Down, StartUp(Unset, true)]
    ensures tr[1].up.Enforcing? && tr[4].up.Permissive?
  {
    if s.now <= to {
      StaysClean(c.ts, s.now, to, Log(s.files), []);
      EmptyPrefix(Log(s.files));
    }
    tr, ev := LogChangeUndoes(c, s, Tick(to));
  }

  /** And so is one permitted request, when what it leaves of the log is not clean. */
  lemma LogRequestUndoes(c: Config, s: State, e: Event) returns (tr: seq<State>, ev: seq<Event>)
    requires Guarded(c) && Shaped(c, s) && Holding(c, s) && s.up.Stopped? && s.stamp.Unreadable? && IsRequest(e)
    requires var s1 := s.(up := Enforcing); Enabled(c, s1, e) && Happens(c, s1, e)
    requires !IsClean(c.ts, s.now, Log(Touched(c, s, e).files))
    ensures Run(c, tr, ev) && tr[0] == s && ev == [StartUp(Unset, false), e, Down, StartUp(Unset, true)]
    ensures tr[1].up.Enforcing? && tr[4].up.Permissive?
  {
    RequestsKeepOut(c, s.(up := Enforcing), e);
    assert Touched(c, s.(up := Enforcing), e).files == Touched(c, s, e).files;
    tr, ev := LogChangeUndoes(c, s, e);
  }

  /** A permitted `rm -rf` of a directory above the whole log is such a request. */
  lemma RemovalUndoes(c: Config, s: State, path: string) returns (tr: seq<State>, ev: seq<Event>)
    requires Guarded(c) && Shaped(c, s) && Holding(c, s) && s.up.Stopped? && s.stamp.Unreadable?
    requires Abs(path).Ok? && OperandPermitted(c, path) && NoneOutside(c, Resolved(path))
    ensures Run(c, tr, ev) && |ev| == 4 && tr[0] == s && ev[1] == Command(path, Disk(Unreadable, false, seq(|s.files|, i => None)))
    ensures tr[1].up.Enforcing? && tr[4].up.Permissive?
  {
    var e := Command(path, Disk(Unreadable, false, seq(|s.files|, i => None)));
    NothingLeft(Touched(c, s, e).files);
    tr, ev := LogRequestUndoes(c, s, e);
  }

  predicate NoneOutside(c: Config, d: Comps) { forall i :: 0 <= i < |c.at.logs| ==> d <= c.at.logs[i] }

  lemma {:induction false} NothingLeft(files: seq<LogFile>)
    requires forall i :: 0 <= i < |files| ==> files[i].None?
    ensures Log(files) == []
    decreases |files|
  {
    if files != [] { NothingLeft(files[..|files| - 1]); }
  }

  lemma PermissiveWrite(c: Config, s: State, e: Event)
    requires Shaped(c, s) && s.up.Permissive? && e.Write? && Abs(e.path).Ok? && Resolved(e.path) == c.at.stamp
    requires c.at.stamp != c.at.marker && c.at.stamp !in c.at.logs
    ensures Step(c, s, e) == s.(stamp := e.stamp)
  {
    assert Touched(c, s, e).files == s.files;
  }

  /** The hypothesis on the kill switch is needed: a PERMISSIVE daemon carries out any write, and
      after one on the stamp the next start does not enforce. */
  lemma KillSwitchUndoes(c: Config, s: State, e: Event) returns (tr: seq<State>, ev: seq<Event>)
    requires Shaped(c, s) && s.stamp.Flipped? && s.up.Stopped? && !s.marker
    requires e.Write? && Abs(e.path).Ok? && Resolved(e.path) == c.at.stamp && e.stamp.Unflipped?
    requires c.at.stamp != c.at.marker && c.at.stamp !in c.at.logs
    ensures Run(c, tr, ev) && tr[0] == s && ev == [StartUp(Off, true), e, Down, StartUp(Unset, true)] && tr[4].up.Permissive?
  {
    var s1 := s.(up := Permissive);
    var s2 := s1.(stamp := e.stamp);
    assert Next(c, s, StartUp(Off, true), s1);
    PermissiveWrite(c, s1, e);
    Restart(c, s2);
    tr := [s, s1, s2, s2.(up := Stopped), s2];
    ev := [StartUp(Off, true), e, Down, StartUp(Unset, true)];
    FourSteps(c, tr, ev);
  }

  // ---------------------------------------------------------------- the shipped layout

  const STAMP: Comps := BROKER_STATE + ["enforce.json"]
  const MARKER: Comps := BROKER_STATE + ["enforce-optin"]

  /** Where the handlers of the fixed-shape operations write: dumps and their key, the quarantine of a
      database volume, the sudoers grant and its helpers, the Java store and its copy, an old cluster,
      fstab, the copies of /home. */
  const HANDLER_TREES: seq<Comps> := [
    ["etc"], ["home"], ["opt", "tak", "snapshots"], ["usr", "local", "libexec"], ["var", "backups"],
    ["var", "lib", "infratak-backups"], ["var", "lib", "docker", "volumes"], ["var", "lib", "postgresql"],
    ["var", "lib", "pgsql"], ["var", "lib", "takwerx-broker", "dump.key"], ["var", "lib", "takwerx-broker", "dump.key.tmp"],
    ["var", "lib", "takwerx-broker", "home-fold"]]

  function ShippedLayout(): (l: Layout)
    ensures |l.logs| == |LOG_NAMES| && forall i :: 0 <= i < |LOG_NAMES| ==> l.logs[i] == LogPath(i)
  {
    Layout(STAMP, MARKER, seq(|LOG_NAMES|, i requires 0 <= i < |LOG_NAMES| => LogPath(i)), HANDLER_TREES)
  }

  /** The rulebook and the layout as shipped. */
  predicate IsShipped(c: Config, home: Comps, convHome: Comps, denyExact: set<string>, denyPrefix: seq<string>, console: seq<Comps>)
  {
    && c.rules == Shipped(home, convHome, denyExact, denyPrefix, console) && Canonical(home) && Canonical(convHome)
    && c.cnf == "/etc/ssl/openssl.cnf" && c.at == ShippedLayout()
  }

  predicate InEtc(p: string) { |p| > 1 && p[1] == 'e' }

  lemma StateIsNoCnf(c: Config, name: string)
    requires InEtc(c.cnf)
    ensures c.cnf != File(BROKER_STATE + [name]) && c.cnf != "/" + File(BROKER_STATE + [name])
  {
    StateText(name);
  }

  /** A tree with such components holds neither the state files nor the log. */
  predicate Apart(d: Comps)
  {
    d != [] && (d[0] != "var" || (|d| > 1 && (d[1] == "backups" || (d[1] == "lib" && |d| > 2
      && (d[2] != "takwerx-broker" || (|d| > 3 && d[3] !in {"enforce.json", "enforce-optin"}))))))
  }

  lemma HandlersApart()
    ensures forall k :: 0 <= k < |HANDLER_TREES| ==> Apart(HANDLER_TREES[k])
  {}

  lemma ApartNotAbove(d: Comps, name: string, i: nat)
    requires Apart(d) && name in {"enforce.json", "enforce-optin"} && i < |LOG_NAMES|
    ensures !(d <= BROKER_STATE + [name]) && !(d <= LogPath(i))
  {
    PrefixAt(d, BROKER_STATE + [name]);
    PrefixAt(d, LogPath(i));
  }

  /** They meet the hypothesis of the results above, wherever the console's home is. */
  lemma ShippedGuards(c: Config, home: Comps, convHome: Comps, denyExact: set<string>, denyPrefix: seq<string>, console: seq<Comps>)
    requires IsShipped(c, home, convHome, denyExact, denyPrefix, console)
    ensures Guarded(c)
  {
    ShippedWf(home, convHome, denyExact, denyPrefix, console);
    StateIsSealed(home, convHome, denyExact, denyPrefix, console, "enforce.json");
    StateIsSealed(home, convHome, denyExact, denyPrefix, console, "enforce-optin");
    CnfInEtc(c.cnf);
    StateIsNoCnf(c, "enforce.json");
    StateIsNoCnf(c, "enforce-optin");
    HandlersApart();
    forall k, i | 0 <= k < |HANDLER_TREES| && 0 <= i < |LOG_NAMES|
      ensures !(HANDLER_TREES[k] <= STAMP) && !(HANDLER_TREES[k] <= MARKER) && !(HANDLER_TREES[k] <= LogPath(i))
    {
      ApartNotAbove(HANDLER_TREES[k], "enforce.json", i);
      ApartNotAbove(HANDLER_TREES[k], "enforce-optin", i);
    }
  }

  /** No shipped directory is at or above a file whose components are none of the modules' and none of the fixed
      entries' first ones. */
  lemma CnfKeepsOut(home: Comps, convHome: Comps)
    ensures !Covers(ShippedDirs(home, convHome), CNF)
  {
    CnfComponents();
    var ds := ShippedDirs(home, convHome);
    forall i | 0 <= i < |ds| ensures !(ds[i] <= CNF) { CnfAbove(home, convHome, ds[i]); }
  }

  const CNF: Comps := ["etc", "ssl", "openssl.cnf"]

  lemma CnfComponents()
    ensures forall k :: 0 <= k < |CNF| ==> Reserved(CNF[k])
  {}

  lemma CnfFixed(d: Comps)
    requires d in EARLY_DIRS || d in LATE_DIRS
    ensures !(d <= CNF)
  {
    CnfElsewhere(d);
    PrefixAt(d, CNF);
  }

  lemma CnfElsewhere(d: Comps)
    requires d in EARLY_DIRS || d in LATE_DIRS
    ensures d != [] && (d[0] != "etc" || (|d| >= 2 && d[1] != "ssl"))
  {}

  lemma CnfAbove(home: Comps, convHome: Comps, d: Comps)
    requires d in ShippedDirs(home, convHome)
    ensures !(d <= CNF)
  {
    if d in EARLY_DIRS || d in LATE_DIRS {
      CnfFixed(d);
    } else {
      LastIsModule(home, convHome, d);
      ModuleNotCnf(d);
    }
  }

  lemma ModuleNotCnf(d: Comps)
    requires d != [] && !Reserved(d[|d| - 1])
    ensures !(d <= CNF)
  {
    CnfComponents();
    PrefixAt(d, CNF);
  }

  /** The other entries end in the name of a module or of the bundle directory. */
  lemma LastIsModule(home: Comps, convHome: Comps, d: Comps)
    requires d in ShippedDirs(home, convHome) && d !in EARLY_DIRS && d !in LATE_DIRS
    ensures d != [] && !Reserved(d[|d| - 1])
  {
    if d in Under1(["root"]) { NamedInIt(["root"], d); }
    else if d in Under1(home) { NamedInIt(home, d); }
    else if d in Under1(convHome) { NamedInIt(convHome, d); }
  }

  lemma NamedInIt(home: Comps, d: Comps)
    requires d in Under1(home)
    ensures d != [] && !Reserved(d[|d| - 1])
  {
    var k :| 0 <= k < |Under1(home)| && Under1(home)[k] == d;
    assert d == home + [MODULES[k]];
  }

  /** The one file with a gate of its own: the lists refuse it, so nothing but a `write` that this gate accepts
      reaches it. */
  lemma CnfNeedsItsGate(c: Config, home: Comps, convHome: Comps, denyExact: set<string>, denyPrefix: seq<string>,
                        console: seq<Comps>, p: string)
    requires IsShipped(c, home, convHome, denyExact, denyPrefix, console) && Abs(p) == Ok(c.cnf)
    ensures (WritePermitted(c, p) <==> c.cnfOk) && !OperandPermitted(c, p)
  {
    ShippedWf(home, convHome, denyExact, denyPrefix, console);
    CnfKeepsOut(home, convHome);
    CnfResolves(c, p);
    GrantIsCovered(c.rules, c.within, p, false);
    CnfNotListed(c.cnf);
  }

  lemma CnfNotListed(p: string)
    requires p == "/etc/ssl/openssl.cnf"
    ensures p !in FIXED_FILES
  {}

  lemma CnfResolves(c: Config, p: string)
    requires Abs(p) == Ok("/etc/ssl/openssl.cnf")
    ensures Resolved(p) == CNF
  {
    CnfText();
    AbsExact(p);
    SameFile(Slashes(p), Resolved(p), CNF);
  }

  /** Texts tell files apart. */
  lemma SameFile(sl: string, a: Comps, b: Comps)
    requires sl + Join(a) == File(b) && sl in {"/", "//"} && Canonical(a) && Canonical(b) && b != []
    ensures a == b
  {
    JoinHead(b);
    CanonicalNoSlashes(a);
    CanonicalNoSlashes(b);
    SplitJoin(b);
    assert (sl + Join(a))[1..] == sl[1..] + Join(a) && File(b)[1..] == Join(b);
    assert (sl + Join(a))[..|sl|] == sl && File(b)[1] == Join(b)[0];
    assert sl[1..] == "" && "" + Join(a) == Join(a);
    if a != [] { SplitJoin(a); }
  }

  lemma CnfText()
    ensures File(CNF) == "/etc/ssl/openssl.cnf" && Canonical(CNF) && NulFreeAll(CNF)
  {
    var a, b, x := "etc", "ssl", "openssl.cnf";
    InitOfSnoc([a, b], x);
    InitOfSnoc([a], b);
    assert CNF == [a, b] + [x] && [a, b] == [a] + [b];
    assert Join([a]) == a && Join([a, b]) == "etc/ssl";
  }

  /** The shipped rulebook permits a write to every path in /var/log and a command on it, the directory of
      the audit log included, unless a deny list names it. */
  lemma ShippedPermits(c: Config, home: Comps, convHome: Comps, denyExact: set<string>, denyPrefix: seq<string>,
                       console: seq<Comps>, cs: Comps) returns (p: string)
    requires IsShipped(c, home, convHome, denyExact, denyPrefix, console) && ["var", "log"] !in console && InLogTree(cs)
    ensures p == File(cs) && Abs(p) == Ok(p) && Resolved(p) == cs
    ensures WritePermitted(c, p) <==> !DenyListed(c.rules, p)
    ensures OperandPermitted(c, p) <==> !DenyListed(c.rules, p)
  {
    p := File(cs);
    ShippedReachesLog(home, convHome, denyExact, denyPrefix, console, c.within, cs);
    LogText(cs);
    CnfInEtc(c.cnf);
    AllowedIsPermitted(c, p);
  }

  lemma CnfInEtc(p: string)
    requires p == "/etc/ssl/openssl.cnf"
    ensures InEtc(p)
  {}

  lemma AllowedIsPermitted(c: Config, p: string)
    requires InEtc(c.cnf) && !InEtc(p) && Abs(p) == Ok(p)
    ensures WritePermitted(c, p) <==> PathAllowed(c.rules, c.within, p, false) == Ok(p)
    ensures OperandPermitted(c, p) <==> PathAllowed(c.rules, c.within, p, false) == Ok(p)
  {
    VerdictOnNormalised(c.rules, c.within, p, false);
  }

  lemma LogText(cs: Comps)
    requires InLogTree(cs)
    ensures !InEtc(File(cs))
  {
    PrefixAt(["var", "log"], cs);
    JoinFirst(cs);
    assert File(cs)[1] == Join(cs)[0] && cs[0] == "var";
  }

  lemma {:induction false} JoinFirst(cs: Comps)
    requires cs != [] && cs[0] != ""
    ensures Join(cs) != "" && Join(cs)[0] == cs[0][0]
    decreases |cs|
  {
    if |cs| > 1 { JoinFirst(cs[..|cs| - 1]); }
  }

  /** So is one of the log's directory, or of /var/log, on a box as shipped, unless a deny list names it. */
  lemma ShippedRemovalUndoes(c: Config, home: Comps, convHome: Comps, denyExact: set<string>, denyPrefix: seq<string>,
                             console: seq<Comps>, s: State, cs: Comps) returns (tr: seq<State>, ev: seq<Event>)
    requires IsShipped(c, home, convHome, denyExact, denyPrefix, console) && ["var", "log"] !in console
    requires Shaped(c, s) && Holding(c, s) && s.up.Stopped? && s.stamp.Unreadable?
    requires cs in {LOG_DIR, ["var", "log"]} && !DenyListed(c.rules, File(cs))
    ensures Run(c, tr, ev) && |ev| == 4 && tr[0] == s && tr[1].up.Enforcing? && tr[4].up.Permissive?
    ensures ev[1].Command? && ev[1].path == File(cs)
  {
    ShippedGuards(c, home, convHome, denyExact, denyPrefix, console);
    LogsInTree(0);
    var p := ShippedPermits(c, home, convHome, denyExact, denyPrefix, console, cs);
    LogBelow(c, cs);
    tr, ev := RemovalUndoes(c, s, p);
  }

  lemma LogBelow(c: Config, cs: Comps)
    requires c.at == ShippedLayout() && cs in {LOG_DIR, ["var", "log"]}
    ensures NoneOutside(c, cs)
  {
    forall i | 0 <= i < |c.at.logs| ensures cs <= c.at.logs[i] { assert c.at.logs[i] == LogPath(i); }
  }
}
