/**
 The readiness gate: the broker may start to enforce only when its own audit log shows 72 hours
 of history and no WOULD-DENY within them.  The log is read from its rotated files, oldest first.
 */
module CleanWindow {
  import opened Wrappers
  import opened AuditJson

  /** Seconds since the epoch. */
  type Time = real

  const CLEAN_SECS: Time := 259200.0

  /** Reads the time prefix of a line; not every line has one. */
  type Clock = string -> Option<Time>

  /** One log file as far as it could be read; None when it is missing. */
  type LogFile = Option<seq<string>>

  datatype Gate =
    | Clean(since: Time)
    | NoHistory
    | TooShort(span: Time)
    | SeenRecently(ago: Time)

  /** All lines, oldest file first. */
  function Log(files: seq<LogFile>): (ls: seq<string>)
    decreases |files|
  {
    if files == [] then []
    else Log(files[..|files| - 1]) + if files[|files| - 1].Some? then files[|files| - 1].value else []
  }

  predicate At(ts: Clock, line: string, t: Time) { ts(line) == Some(t) }

  predicate Marked(line: string) { Contains(MARK, line) }

  /** A line at least the window old. */
  predicate Old(ts: Clock, now: Time, line: string) { ts(line).Some? && now - ts(line).value >= CLEAN_SECS }

  /** A WOULD-DENY line inside the window. */
  predicate Fresh(ts: Clock, now: Time, line: string) { ts(line).Some? && now - ts(line).value < CLEAN_SECS && Marked(line) }

  predicate HasOld(ts: Clock, now: Time, ls: seq<string>) { exists i :: 0 <= i < |ls| && Old(ts, now, ls[i]) }

  predicate HasFresh(ts: Clock, now: Time, ls: seq<string>) { exists i :: 0 <= i < |ls| && Fresh(ts, now, ls[i]) }

  predicate HasTime(ts: Clock, ls: seq<string>) { exists i :: 0 <= i < |ls| && ts(ls[i]).Some? }

  /** What the gate is for. */
  predicate IsClean(ts: Clock, now: Time, ls: seq<string>) { HasOld(ts, now, ls) && !HasFresh(ts, now, ls) }

  /** o is the least time of any line. */
  ghost predicate IsOldest(ts: Clock, ls: seq<string>, o: Option<Time>)
  {
    && (o.Some? ==> exists i :: 0 <= i < |ls| && At(ts, ls[i], o.value))
    && (forall i :: 0 <= i < |ls| && ts(ls[i]).Some? ==> o.Some? && o.value <= ts(ls[i]).value)
  }

  /** n is the greatest time of any marked line. */
  ghost predicate IsNewestMark(ts: Clock, ls: seq<string>, n: Option<Time>)
  {
    && (n.Some? ==> exists i :: 0 <= i < |ls| && At(ts, ls[i], n.value) && Marked(ls[i]))
    && (forall i :: 0 <= i < |ls| && ts(ls[i]).Some? && Marked(ls[i]) ==> n.Some? && n.value >= ts(ls[i]).value)
  }

  /** What each answer says about the log. */
  ghost predicate Reports(ts: Clock, now: Time, ls: seq<string>, g: Gate)
  {
    match g
    case NoHistory => !HasTime(ts, ls)
    case TooShort(span) => HasTime(ts, ls) && !HasOld(ts, now, ls) && IsOldest(ts, ls, Some(now - span))
    case SeenRecently(ago) => HasOld(ts, now, ls) && HasFresh(ts, now, ls) && IsNewestMark(ts, ls, Some(now - ago))
    case Clean(since) => IsClean(ts, now, ls) && IsSince(ts, ls, since)
  }

  /** Clean since the last WOULD-DENY, or else since the log begins; a time of 0 counts as none. */
  ghost predicate IsSince(ts: Clock, ls: seq<string>, since: Time)
  {
    if since != 0.0 && IsNewestMark(ts, ls, Some(since)) then true
    else (IsNewestMark(ts, ls, None) || IsNewestMark(ts, ls, Some(0.0))) && IsOldest(ts, ls, Some(since))
  }

  /** The answer is exact, whatever order the lines stand in. */
  method AuditCleanWindow(now: Time, files: seq<LogFile>, ts: Clock) returns (g: Gate)
    ensures Reports(ts, now, Log(files), g)
  {
    var oldest: Option<Time>, newest: Option<Time> := None, None;
    for k := 0 to |files|
      invariant IsOldest(ts, Log(files[..k]), oldest) && IsNewestMark(ts, Log(files[..k]), newest)
    {
      TakeMore(files, k);
      InitOfSnoc(files[..k], files[k]);
      if files[k].None? {
        EmptyPrefix(Log(files[..k]));
        continue;
      }
      oldest, newest := ScanFile(ts, Log(files[..k]), files[k].value, oldest, newest);
    }
    TakeAll(files);
    Answers(ts, now, Log(files), oldest, newest);
    if oldest.None? { return NoHistory; }
    if now - oldest.value < CLEAN_SECS { return TooShort(now - oldest.value); }
    if newest.Some? && now - newest.value < CLEAN_SECS { return SeenRecently(now - newest.value); }
    return Clean(if newest.Some? && newest.value != 0.0 then newest.value else oldest.value);
  }

  /** The inner loop, over the lines of one file. */
  method ScanFile(ts: Clock, ghost before: seq<string>, lines: seq<string>, oldest: Option<Time>, newest: Option<Time>)
      returns (o: Option<Time>, n: Option<Time>)
    requires IsOldest(ts, before, oldest) && IsNewestMark(ts, before, newest)
    ensures IsOldest(ts, before + lines, o) && IsNewestMark(ts, before + lines, n)
  {
    o, n := oldest, newest;
    EmptyPrefix(before);
    for j := 0 to |lines|
      invariant IsOldest(ts, before + lines[..j], o) && IsNewestMark(ts, before + lines[..j], n)
    {
      var t := ts(lines[j]);
      OneMore(ts, before + lines[..j], lines[j], o, n);
      TakeMore(lines, j);
      Assoc(before, lines[..j], [lines[j]]);
      if t.None? { continue; }
      if o.None? || t.value < o.value { o := t; }
      if Contains(MARK, lines[j]) && (n.None? || t.value > n.value) { n := t; }
    }
    TakeAll(lines);
  }

  lemma OneMore(ts: Clock, ls: seq<string>, line: string, o: Option<Time>, n: Option<Time>)
    requires IsOldest(ts, ls, o) && IsNewestMark(ts, ls, n)
    ensures var t := ts(line);
      && IsOldest(ts, ls + [line], if t.Some? && (o.None? || t.value < o.value) then t else o)
      && IsNewestMark(ts, ls + [line], if t.Some? && Marked(line) && (n.None? || t.value > n.value) then t else n)
  {
    var ls' := ls + [line];
    assert forall i :: 0 <= i < |ls| ==> ls'[i] == ls[i];
    assert ls'[|ls|] == line;
  }

  /** The gate's two comparisons of extremes decide the two quantified conditions. */
  lemma Extremes(ts: Clock, now: Time, ls: seq<string>, o: Option<Time>, n: Option<Time>)
    requires IsOldest(ts, ls, o) && IsNewestMark(ts, ls, n)
    ensures o.Some? <==> HasTime(ts, ls)
    ensures HasOld(ts, now, ls) <==> o.Some? && now - o.value >= CLEAN_SECS
    ensures HasFresh(ts, now, ls) <==> n.Some? && now - n.value < CLEAN_SECS
  {
    if n.Some? && now - n.value < CLEAN_SECS {
      var i :| 0 <= i < |ls| && At(ts, ls[i], n.value) && Marked(ls[i]);
      assert Fresh(ts, now, ls[i]);
    }
    if o.Some? && now - o.value >= CLEAN_SECS {
      var i :| 0 <= i < |ls| && At(ts, ls[i], o.value);
      assert Old(ts, now, ls[i]);
    }
  }

  /** So each answer is right where the gate gives it. */
  lemma Answers(ts: Clock, now: Time, ls: seq<string>, o: Option<Time>, n: Option<Time>)
    requires IsOldest(ts, ls, o) && IsNewestMark(ts, ls, n)
    ensures o.None? ==> Reports(ts, now, ls, NoHistory)
    ensures o.Some? && now - o.value < CLEAN_SECS ==> Reports(ts, now, ls, TooShort(now - o.value))
    ensures o.Some? && now - o.value >= CLEAN_SECS && n.Some? && now - n.value < CLEAN_SECS ==>
              Reports(ts, now, ls, SeenRecently(now - n.value))
    ensures o.Some? && now - o.value >= CLEAN_SECS && !(n.Some? && now - n.value < CLEAN_SECS) ==>
              Reports(ts, now, ls, Clean(if n.Some? && n.value != 0.0 then n.value else o.value))
  {
    Extremes(ts, now, ls, o, n);
    assert n.Some? ==> now - (now - n.value) == n.value;
    assert o.Some? ==> now - (now - o.value) == o.value;
  }

  // ---------------------------------------------------------------- rotation

  predicate TimeOrdered(ts: Clock, ls: seq<string>)
  {
    forall i, j :: 0 <= i < j < |ls| && ts(ls[i]).Some? && ts(ls[j]).Some? ==> ts(ls[i]).value <= ts(ls[j]).value
  }

  /** Losing the oldest lines can only take readiness away: the rest is clean exactly when the
      whole log was and an old enough line is left. */
  lemma RotationExact(ts: Clock, now: Time, ls: seq<string>, k: nat)
    requires k <= |ls| && TimeOrdered(ts, ls)
    ensures IsClean(ts, now, ls[k..]) <==> IsClean(ts, now, ls) && HasOld(ts, now, ls[k..])
  {
    var rest := ls[k..];
    assert forall i :: 0 <= i < |rest| ==> rest[i] == ls[k + i];
    if HasOld(ts, now, rest) {
      var i :| 0 <= i < |rest| && Old(ts, now, rest[i]);
      assert Old(ts, now, ls[k + i]);
      if HasFresh(ts, now, ls) {
        var j :| 0 <= j < |ls| && Fresh(ts, now, ls[j]);
        assert j >= k by { OldFirst(ts, now, ls, k + i, j); }
        assert Fresh(ts, now, rest[j - k]);
      }
      if HasFresh(ts, now, rest) {
        var j :| 0 <= j < |rest| && Fresh(ts, now, rest[j]);
        assert Fresh(ts, now, ls[k + j]);
      }
    }
  }

  lemma OldFirst(ts: Clock, now: Time, ls: seq<string>, i: nat, j: nat)
    requires TimeOrdered(ts, ls) && i < |ls| && j < |ls| && Old(ts, now, ls[i]) && Fresh(ts, now, ls[j])
    ensures i < j
  {}

  /** The rollover of the log files: from the oldest on, every file that exists takes the next place, and
      what lay there is lost.  Only the oldest file can be: it stays where no other moves up to it. */
  function Rollover(files: seq<LogFile>): (r: seq<LogFile>)
    requires |files| >= 2
    ensures |r| == |files|
  {
    Shifted(files) + [Some([])]
  }

  function Shifted(files: seq<LogFile>): (r: seq<LogFile>)
    requires |files| >= 2
    ensures |r| == |files| - 1
  {
    if files[1].Some? then files[1..] else [files[0]] + files[2..]
  }

  /** What is left of the log. */
  lemma RolloverLeaves(files: seq<LogFile>)
    requires |files| >= 2
    ensures Log(Rollover(files)) == if files[1].Some? then Log(files[1..]) else Log(files)
  {
    EmptyLast(Shifted(files));
    if files[1].None? { Closed(files); }
  }

  lemma Closed(files: seq<LogFile>)
    requires |files| >= 2 && files[1].None?
    ensures Log(Shifted(files)) == Log(files)
  {
    GapApart(files);
    GapAdds([files[0]], files[2..]);
  }

  lemma GapApart(files: seq<LogFile>)
    requires |files| >= 2 && files[1].None?
    ensures files == [files[0]] + ([None] + files[2..]) && Shifted(files) == [files[0]] + files[2..]
  {}

  lemma EmptyLast(files: seq<LogFile>)
    ensures Log(files + [Some([])]) == Log(files)
  {
    InitOfSnoc(files, Some([]));
    EmptyPrefix(Log(files));
  }

  lemma GapAdds(a: seq<LogFile>, b: seq<LogFile>)
    ensures Log(a + ([None] + b)) == Log(a + b)
  {
    LogAppend(a, [None] + b);
    LogAppend([None], b);
    LogAppend(a, b);
    LogOne(None);
    EmptyPrefix(Log(b));
  }

  lemma {:induction false} LogAppend(a: seq<LogFile>, b: seq<LogFile>)
    ensures Log(a + b) == Log(a) + Log(b)
    decreases |b|
  {
    if b == [] {
      EmptyPrefix(a);
      EmptyPrefix(Log(a));
    } else {
      var init, f := b[..|b| - 1], b[|b| - 1];
      InitLast(b);
      Assoc(a, init, [f]);
      InitOfSnoc(a + init, f);
      LogAppend(a, init);
      Assoc(Log(a), Log(init), if f.Some? then f.value else []);
    }
  }

  lemma LogOne(f: LogFile)
    ensures Log([f]) == if f.Some? then f.value else []
  {
    assert Log([f][..0]) == [];
    EmptyPrefix(if f.Some? then f.value else []);
  }

  /** A rollover never opens the gate. */
  lemma RolloverIsSafe(ts: Clock, now: Time, files: seq<LogFile>)
    requires |files| >= 2 && TimeOrdered(ts, Log(files)) && !IsClean(ts, now, Log(files))
    ensures !IsClean(ts, now, Log(Rollover(files)))
  {
    RolloverLeaves(files);
    if files[1].Some? {
      OldestApart(files);
      SuffixIsSafe(ts, now, Log([files[0]]), Log(files[1..]));
    }
  }

  lemma OldestApart(files: seq<LogFile>)
    requires files != []
    ensures Log(files) == Log([files[0]]) + Log(files[1..])
  {
    LogAppend([files[0]], files[1..]);
    assert files == [files[0]] + files[1..];
  }

  lemma SuffixIsSafe(ts: Clock, now: Time, a: seq<string>, b: seq<string>)
    requires TimeOrdered(ts, a + b) && !IsClean(ts, now, a + b)
    ensures !IsClean(ts, now, b)
  {
    assert (a + b)[|a|..] == b;
    RotationExact(ts, now, a + b, |a|);
  }

  /** Time order is needed: after the clock was set back, losing the oldest line opens the gate. */
  lemma OutOfOrderOpens(ts: Clock, plain: string, refusal: string)
    requires ts(plain) == Some(0.0) && ts(refusal) == Some(CLEAN_SECS) && !Marked(plain) && Marked(refusal)
    ensures !IsClean(ts, CLEAN_SECS, [refusal, plain]) && IsClean(ts, CLEAN_SECS, [refusal, plain][1..])
  {
    assert Fresh(ts, CLEAN_SECS, [refusal, plain][0]);
    assert Old(ts, CLEAN_SECS, [refusal, plain][1..][0]);
  }

  // ---------------------------------------------------------------- as time passes

  /** While time passes and lines are appended, a clean window stays clean exactly until a
      WOULD-DENY line inside the window is written. */
  lemma StaysClean(ts: Clock, now: Time, later: Time, ls: seq<string>, more: seq<string>)
    requires IsClean(ts, now, ls) && now <= later
    ensures IsClean(ts, later, ls + more) <==> !HasFresh(ts, later, more)
  {
    var all := ls + more;
    var i :| 0 <= i < |ls| && Old(ts, now, ls[i]);
    assert Old(ts, later, all[i]);
    if HasFresh(ts, later, all) {
      var j :| 0 <= j < |all| && Fresh(ts, later, all[j]);
      assert Fresh(ts, now, all[j]);
      assert j >= |ls| && all[j] == more[j - |ls|];
    }
    if HasFresh(ts, later, more) {
      var j :| 0 <= j < |more| && Fresh(ts, later, more[j]);
      assert Fresh(ts, later, all[|ls| + j]);
    }
  }

  lemma {:induction false} InLog(files: seq<LogFile>, x: string)
    ensures x in Log(files) <==> exists i :: 0 <= i < |files| && files[i].Some? && x in files[i].value
    decreases |files|
  {
    if files != [] {
      var init, f := files[..|files| - 1], files[|files| - 1];
      InLog(init, x);
      assert forall i :: 0 <= i < |init| ==> init[i] == files[i];
    }
  }

  /** The handler appends to the file it holds open, which need not be the newest one: a command can have
      moved it.  None: it was removed. */
  function Appended(files: seq<LogFile>, line: string, at: Option<nat>): (r: seq<LogFile>)
    requires at.Some? ==> at.value < |files|
    ensures |r| == |files|
  {
    if at.None? then files
    else files[at.value := Some((if files[at.value].None? then [] else files[at.value].value) + [line])]
  }

  lemma InAppended(files: seq<LogFile>, line: string, at: Option<nat>, x: string)
    requires at.Some? ==> at.value < |files|
    ensures x in Log(files) ==> x in Log(Appended(files, line, at))
    ensures x in Log(Appended(files, line, at)) ==> x in Log(files) || x == line
  {
    var r := Appended(files, line, at);
    InLog(files, x);
    InLog(r, x);
    if i :| 0 <= i < |files| && files[i].Some? && x in files[i].value { assert r[i].Some? && x in r[i].value; }
  }

  /** Wherever it lands, a line that is no WOULD-DENY keeps a clean window clean. */
  lemma AppendedStaysClean(ts: Clock, now: Time, files: seq<LogFile>, line: string, at: Option<nat>)
    requires (at.Some? ==> at.value < |files|) && IsClean(ts, now, Log(files)) && !Marked(line)
    ensures IsClean(ts, now, Log(Appended(files, line, at)))
  {
    var was, all := Log(files), Log(Appended(files, line, at));
    forall x | x in was ensures x in all { InAppended(files, line, at, x); }
    forall x | x in all ensures x in was || !Marked(x) { InAppended(files, line, at, x); }
    MoreStaysClean(ts, now, was, all);
  }

  lemma MoreStaysClean(ts: Clock, now: Time, was: seq<string>, all: seq<string>)
    requires IsClean(ts, now, was) && (forall x :: x in was ==> x in all) && (forall x :: x in all ==> x in was || !Marked(x))
    ensures IsClean(ts, now, all)
  {
    var i :| 0 <= i < |was| && Old(ts, now, was[i]);
    assert was[i] in all;
    var j :| 0 <= j < |all| && all[j] == was[i];
    forall k | 0 <= k < |all| ensures !Fresh(ts, now, all[k]) {
      assert all[k] in all;
      if all[k] in was { var m :| 0 <= m < |was| && was[m] == all[k]; }
    }
  }

  /** The lines that records produce. */
  function Lines(stamps: seq<string>, rs: seq<Record>): (ls: seq<string>)
    requires |stamps| == |rs|
    ensures |ls| == |rs| && forall i :: 0 <= i < |rs| ==> ls[i] == LogLine(stamps[i], rs[i])
  {
    seq(|rs|, i requires 0 <= i < |rs| => LogLine(stamps[i], rs[i]))
  }

  predicate Stamps(stamps: seq<string>) { forall i :: 0 <= i < |stamps| ==> IsStamp(stamps[i]) }

  predicate RecentRefusal(ts: Clock, now: Time, stamp: string, r: Record)
  {
    r.verdict == WOULD_DENY && ts(LogLine(stamp, r)).Some? && now - ts(LogLine(stamp, r)).value < CLEAN_SECS
  }

  /** On the records themselves: a clean log stays clean until a request is recorded WOULD-DENY,
      and no other record, whatever text it carries, can shut the gate. */
  lemma RecordsDecide(ts: Clock, now: Time, later: Time, ls: seq<string>, stamps: seq<string>, rs: seq<Record>)
    requires IsClean(ts, now, ls) && now <= later && |stamps| == |rs| && Stamps(stamps)
    ensures IsClean(ts, later, ls + Lines(stamps, rs))
      <==> forall i :: 0 <= i < |rs| ==> !RecentRefusal(ts, later, stamps[i], rs[i])
  {
    var more := Lines(stamps, rs);
    StaysClean(ts, now, later, ls, more);
    forall i | 0 <= i < |rs| ensures Fresh(ts, later, more[i]) <==> RecentRefusal(ts, later, stamps[i], rs[i]) {
      assert IsStamp(stamps[i]);
      GateTestIsExact(stamps[i], rs[i]);
    }
  }
}
