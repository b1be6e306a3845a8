/**
 The edits planned for one `cd DIR && CMD` call: replace the command, drop `shell=True`, append
 `cwd=DIR`.  The deletion may start exactly where the insertion goes.
 */
module CdConverter {
  import opened Wrappers
  import opened SourceEdits

  datatype Span = Span(start: nat, end: nat)

  /** What the parser reports of a call: the span of the command argument and of the called
      function, and the spans of the values of the keywords that matter. */
  datatype CallSite = CallSite(cmd: Span, func: Span, shell: Option<Span>, capture: Option<Span>,
                               hasStdout: bool, hasStderr: bool, isSystem: bool)

  const MERGED := "stdout=subprocess.PIPE, stderr=subprocess.STDOUT"

  predicate IsBlank(c: char) { c == ' ' || c == '\t' || c == '\n' }

  /** Python's src.rfind(pat, lo, hi). */
  function RFind(src: string, pat: string, lo: nat, hi: nat): (r: int)
    requires hi <= |src|
    ensures r == -1 || (lo <= r && r + |pat| <= hi && OccursAt(pat, src, r))
    ensures forall i :: lo <= i && i + |pat| <= hi && OccursAt(pat, src, i) ==> i <= r
    decreases hi
  {
    if hi < lo + |pat| then -1
    else if OccursAt(pat, src, hi - |pat|) then hi - |pat|
    else if hi == 0 then -1 else RFind(src, pat, lo, hi - 1)
  }

  /** From j back over blanks. */
  function Back(src: string, j: nat): (r: nat)
    requires j < |src|
    ensures r <= j && (r == 0 || !IsBlank(src[r])) && forall i :: r < i <= j ==> IsBlank(src[i])
  {
    if j > 0 && IsBlank(src[j]) then Back(src, j - 1) else j
  }

  /** The keyword `text` is written at `name`, with only blanks and `=` before its value. */
  predicate WrittenAt(src: string, text: string, name: nat, value: Span)
  {
    && value.start < value.end <= |src| && name + |text| < value.start && OccursAt(text, src, name)
    && forall i :: name + |text| <= i < value.start ==> IsBlank(src[i]) || src[i] == '='
  }

  /** A comma separates what ends at `end` from what starts at `name`. */
  predicate CommaBetween(src: string, end: nat, name: nat)
  {
    name <= |src| && exists c :: end <= c < name && src[c] == ','
  }

  /** The call as it stands in the file: function, command, then keywords separated by commas.
      The names lie within the distance the search looks back. */
  predicate LaidOut(src: string, call: CallSite, shellName: nat, captureName: nat)
  {
    && call.func.start < call.func.end <= call.cmd.start < call.cmd.end <= |src|
    && (call.shell.Some? ==>
          && WrittenAt(src, "shell", shellName, call.shell.value) && call.shell.value.start <= shellName + 30
          && CommaBetween(src, call.cmd.end, shellName))
    && (call.capture.Some? ==>
          && WrittenAt(src, "capture_output", captureName, call.capture.value) && call.capture.value.start <= captureName + 40
          && CommaBetween(src, call.cmd.end, captureName))
    && (call.shell.Some? && call.capture.Some? ==>
          || CommaBetween(src, call.shell.value.end, captureName)
          || CommaBetween(src, call.capture.value.end, shellName))
  }

  /** The search for a keyword's name looks back so far from its value. */
  function Search(src: string, text: string, value: Span, window: nat): (r: int)
    requires value.start <= |src|
  {
    RFind(src, text, if value.start > window then value.start - window else 0, value.start)
  }

  /** The search finds the name if it lies within the window, and else nothing. */
  lemma FoundKeyword(src: string, text: string, name: nat, value: Span, window: nat)
    requires WrittenAt(src, text, name, value)
    requires |text| > 0 && !IsBlank(text[|text| - 1]) && text[|text| - 1] != '='
    ensures Search(src, text, value, window) == if value.start <= name + window then name else -1
  {
    var lo := if value.start > window then value.start - window else 0;
    var r := Search(src, text, value, window);
    if r != -1 {
      LastChar(text, src, r);
      assert r <= name;
    }
    assert value.start <= name + window ==> lo <= name && name + |text| <= value.start;
  }

  lemma LastChar(text: string, src: string, p: int)
    requires text != [] && OccursAt(text, src, p)
    ensures src[p + |text| - 1] == text[|text| - 1]
  {
    assert src[p..p + |text|][|text| - 1] == src[p + |text| - 1];
  }

  /** Where the deletion of a keyword starts: at the comma before it if only blanks intervene. */
  function DropFrom(src: string, name: nat): (r: nat)
    requires 0 < name <= |src|
    ensures r <= name
  {
    if src[Back(src, name - 1)] == ',' then Back(src, name - 1) else name
  }

  lemma DropsAfter(src: string, end: nat, name: nat)
    requires 0 < name <= |src| && CommaBetween(src, end, name)
    ensures end <= DropFrom(src, name)
  {
    var c :| end <= c < name && src[c] == ',';
    assert !IsBlank(src[c]);
  }

  function Merge(call: CallSite, merge: bool): bool
  {
    merge && call.capture.None? && !call.hasStdout && !call.hasStderr
  }

  function Tail(call: CallSite, cwdSrc: string, merge: bool): string
  {
    ", cwd=" + cwdSrc + if Merge(call, merge) then ", " + MERGED else ""
  }

  function Wrapped(argvSrc: string): string { "_sudo_wrap([" + argvSrc + "])" }

  function Drops(src: string, call: CallSite, shellName: nat): (r: seq<Edit>)
    requires call.shell.Some? ==> 0 < shellName <= |src|
  {
    if call.shell.Some? then [Edit(DropFrom(src, shellName), call.shell.value.end, "")] else []
  }

  function Merges(call: CallSite, captureName: nat, merge: bool): (r: seq<Edit>)
  {
    if merge && call.capture.Some? then [Edit(captureName, call.capture.value.end, MERGED)] else []
  }

  /** The list the converter plans, in the order it lists it. */
  function Planned(src: string, call: CallSite, shellName: nat, captureName: nat,
                   argvSrc: string, cwdSrc: string, merge: bool): (r: seq<Edit>)
    requires LaidOut(src, call, shellName, captureName)
  {
    [Edit(call.cmd.start, call.cmd.end, Wrapped(argvSrc))]
    + Drops(src, call, shellName)
    + Merges(call, captureName, merge)
    + [Edit(call.cmd.end, call.cmd.end, Tail(call, cwdSrc, merge))]
    + (if call.isSystem then [Edit(call.func.start, call.func.end, "subprocess.run")] else [])
  }

  // ---------------------------------------------------------------- as the converter computes it

  /** A planned edit before it is known that its start lies in the text: a search that finds nothing
      gives -1, which Python counts from the end. */
  datatype RawEdit = RawEdit(start: int, end: nat, repl: string)

  function Raw(e: Edit): (r: RawEdit) { RawEdit(e.start, e.end, e.repl) }

  function Raws(es: seq<Edit>): (r: seq<RawEdit>)
    ensures |r| == |es| && forall i :: 0 <= i < |es| ==> r[i] == Raw(es[i])
  {
    seq(|es|, i requires 0 <= i < |es| => Raw(es[i]))
  }

  /** Python's src[k], negative k counting from the end. */
  function At(src: string, k: int): (c: char)
    requires -|src| <= k < |src|
  {
    if k < 0 then src[|src| + k] else src[k]
  }

  function DropStart(src: string, value: Span): (r: int)
    requires value.start <= |src| && |src| >= 2
  {
    var name := Search(src, "shell", value, 30);
    if name > 0 then DropFrom(src, name)
    else if At(src, name - 1) == ',' then name - 1 else name
  }

  /** Where the deletion of `shell=...` starts, whatever the search finds. */
  method FindDrop(src: string, value: Span) returns (cstart: int)
    requires value.start <= |src| && |src| >= 2
    ensures cstart == DropStart(src, value)
  {
    var ks := value.start;
    var kstart := RFind(src, "shell", if ks > 30 then ks - 30 else 0, ks);
    var j := kstart - 1;
    while j > 0 && IsBlank(src[j])
      invariant kstart > 0 ==> 0 <= j < kstart && Back(src, j) == Back(src, kstart - 1)
      invariant kstart <= 0 ==> j == kstart - 1
    {
      j := j - 1;
    }
    cstart := if At(src, j) == ',' then j else kstart;
  }

  function Clip(k: int): (n: nat) { if k < 0 then 0 else k }

  /** Python's src[:s] + repl + src[e:]. */
  function PySplice(src: string, start: int, end: nat, repl: string): (r: string)
  {
    Take(src, if start < 0 then Clip(|src| + start) else start) + repl + Drop(src, end)
  }

  /** The deletion is the intended one exactly if the keyword's name lies within 30 characters of its
      value.  Otherwise almost the whole text is kept in front of it, and what follows the keyword
      stands there twice. */
  lemma DropExact(src: string, name: nat, value: Span)
    requires WrittenAt(src, "shell", name, value) && name > 0
    ensures PySplice(src, DropStart(src, value), value.end, "") == src[..DropFrom(src, name)] + "" + src[value.end..]
       <==> value.start <= name + 30
    ensures value.start > name + 30 ==>
              && DropStart(src, value) in {-1, -2}
              && PySplice(src, DropStart(src, value), value.end, "") == src[..|src| + DropStart(src, value)] + "" + src[value.end..]
  {
    FoundKeyword(src, "shell", name, value, 30);
    var d := DropStart(src, value);
    if value.start > name + 30 {
      assert d == -1 || d == -2;
      assert PySplice(src, d, value.end, "") == src[..|src| + d] + "" + src[value.end..];
      assert |src[..|src| + d]| > |src[..DropFrom(src, name)]|;
    }
  }

  /** Spans lie in the text. */
  predicate InText(src: string, call: CallSite)
  {
    |src| >= 2 && (call.shell.Some? ==> call.shell.value.start <= |src|) && (call.capture.Some? ==> call.capture.value.start <= |src|)
  }

  function RawDrops(src: string, call: CallSite): (r: seq<RawEdit>)
    requires InText(src, call)
  {
    if call.shell.Some? then [RawEdit(DropStart(src, call.shell.value), call.shell.value.end, "")] else []
  }

  function RawMerges(src: string, call: CallSite, merge: bool): (r: seq<RawEdit>)
    requires InText(src, call)
  {
    if merge && call.capture.Some? then
      [RawEdit(Search(src, "capture_output", call.capture.value, 40), call.capture.value.end, MERGED)]
    else []
  }

  function RawPlanned(src: string, call: CallSite, argvSrc: string, cwdSrc: string, merge: bool): (r: seq<RawEdit>)
    requires InText(src, call)
  {
    [RawEdit(call.cmd.start, call.cmd.end, Wrapped(argvSrc))]
    + RawDrops(src, call)
    + RawMerges(src, call, merge)
    + [RawEdit(call.cmd.end, call.cmd.end, Tail(call, cwdSrc, merge))]
    + (if call.isSystem then [RawEdit(call.func.start, call.func.end, "subprocess.run")] else [])
  }

  /** On a call laid out as usual these are the planned edits. */
  lemma RawIsPlanned(src: string, call: CallSite, shellName: nat, captureName: nat,
                     argvSrc: string, cwdSrc: string, merge: bool)
    requires LaidOut(src, call, shellName, captureName) && InText(src, call)
    ensures RawPlanned(src, call, argvSrc, cwdSrc, merge) == Raws(Planned(src, call, shellName, captureName, argvSrc, cwdSrc, merge))
  {
    RawDropsArePlanned(src, call, shellName, captureName);
    RawMergesArePlanned(src, call, shellName, captureName, merge);
    var raw, plan := RawPlanned(src, call, argvSrc, cwdSrc, merge), Planned(src, call, shellName, captureName, argvSrc, cwdSrc, merge);
    assert |raw| == |plan|;
  }

  lemma RawDropsArePlanned(src: string, call: CallSite, shellName: nat, captureName: nat)
    requires LaidOut(src, call, shellName, captureName) && InText(src, call)
    ensures RawDrops(src, call) == Raws(Drops(src, call, shellName))
  {
    if call.shell.Some? { FoundKeyword(src, "shell", shellName, call.shell.value, 30); }
  }

  lemma RawMergesArePlanned(src: string, call: CallSite, shellName: nat, captureName: nat, merge: bool)
    requires LaidOut(src, call, shellName, captureName) && InText(src, call)
    ensures RawMerges(src, call, merge) == Raws(Merges(call, captureName, merge))
  {
    if call.capture.Some? { FoundKeyword(src, "capture_output", captureName, call.capture.value, 40); }
  }

  method MakeEdits(src: string, call: CallSite, argvSrc: string, cwdSrc: string, merge: bool) returns (edits: seq<RawEdit>)
    requires InText(src, call)
    ensures edits == RawPlanned(src, call, argvSrc, cwdSrc, merge)
    ensures forall sn, cn :: LaidOut(src, call, sn, cn) ==> edits == Raws(Planned(src, call, sn, cn, argvSrc, cwdSrc, merge))
  {
    forall sn, cn | LaidOut(src, call, sn, cn)
      ensures RawPlanned(src, call, argvSrc, cwdSrc, merge) == Raws(Planned(src, call, sn, cn, argvSrc, cwdSrc, merge))
    {
      RawIsPlanned(src, call, sn, cn, argvSrc, cwdSrc, merge);
    }
    edits := [RawEdit(call.cmd.start, call.cmd.end, Wrapped(argvSrc))];
    if call.shell.Some? {
      var cstart := FindDrop(src, call.shell.value);
      edits := edits + [RawEdit(cstart, call.shell.value.end, "")];
    }
    assert edits == [RawEdit(call.cmd.start, call.cmd.end, Wrapped(argvSrc))] + RawDrops(src, call);
    var tail := ", cwd=" + cwdSrc;
    if merge && call.capture.None? && !call.hasStdout && !call.hasStderr {
      tail := tail + (", " + MERGED);
    } else if merge && call.capture.Some? {
      var cs := call.capture.value.start;
      var kstart := RFind(src, "capture_output", if cs > 40 then cs - 40 else 0, cs);
      edits := edits + [RawEdit(kstart, call.capture.value.end, MERGED)];
    }
    assert edits == [RawEdit(call.cmd.start, call.cmd.end, Wrapped(argvSrc))] + RawDrops(src, call) + RawMerges(src, call, merge);
    assert tail == Tail(call, cwdSrc, merge);
    edits := edits + [RawEdit(call.cmd.end, call.cmd.end, tail)];
    if call.isSystem { edits := edits + [RawEdit(call.func.start, call.func.end, "subprocess.run")]; }
  }

  /** The keyword regions: after the command, inside the text, and clear of each other. */
  lemma Regions(src: string, call: CallSite, shellName: nat, captureName: nat)
    requires LaidOut(src, call, shellName, captureName)
    ensures call.shell.Some? ==> call.cmd.end <= DropFrom(src, shellName) < call.shell.value.end <= |src|
    ensures call.capture.Some? ==> call.cmd.end < captureName < call.capture.value.end <= |src|
    ensures call.shell.Some? && call.capture.Some? ==>
              call.shell.value.end < captureName || call.capture.value.end <= DropFrom(src, shellName)
  {
    if call.shell.Some? {
      DropsAfter(src, call.cmd.end, shellName);
      if call.capture.Some? && !CommaBetween(src, call.shell.value.end, captureName) {
        DropsAfter(src, call.capture.value.end, shellName);
      }
    }
  }

  predicate AllGo(xs: seq<Edit>, ys: seq<Edit>) { forall x, y :: x in xs && y in ys ==> Goes(x, y) }

  lemma AppendCompatible(xs: seq<Edit>, ys: seq<Edit>)
    requires Compatible(xs) && |ys| <= 1 && AllGo(xs, ys)
    ensures Compatible(xs + ys)
  {
    forall i, j | 0 <= i < j < |xs + ys| ensures Goes((xs + ys)[i], (xs + ys)[j]) {
      if j >= |xs| { assert (xs + ys)[i] in xs && (xs + ys)[j] in ys; }
    }
  }

  lemma AllIn(xs: seq<Edit>, n: nat)
    requires forall x :: x in xs ==> x.start <= x.end <= n
    ensures InBounds(xs, n)
  {}

  /** The planned edits never overlap, and the one tie is listed deletion first. */
  lemma PlannedCompatible(src: string, call: CallSite, shellName: nat, captureName: nat,
                          argvSrc: string, cwdSrc: string, merge: bool)
    requires LaidOut(src, call, shellName, captureName)
    ensures Compatible(Planned(src, call, shellName, captureName, argvSrc, cwdSrc, merge))
  {
    Regions(src, call, shellName, captureName);
    var cmd := [Edit(call.cmd.start, call.cmd.end, Wrapped(argvSrc))];
    var drops := Drops(src, call, shellName);
    var merges := Merges(call, captureName, merge);
    var tail := [Edit(call.cmd.end, call.cmd.end, Tail(call, cwdSrc, merge))];
    var func := if call.isSystem then [Edit(call.func.start, call.func.end, "subprocess.run")] else [];
    AppendCompatible(cmd, drops);
    AppendCompatible(cmd + drops, merges);
    AppendCompatible(cmd + drops + merges, tail);
    AppendCompatible(cmd + drops + merges + tail, func);
  }

  lemma PlannedInBounds(src: string, call: CallSite, shellName: nat, captureName: nat,
                        argvSrc: string, cwdSrc: string, merge: bool)
    requires LaidOut(src, call, shellName, captureName)
    ensures InBounds(Planned(src, call, shellName, captureName, argvSrc, cwdSrc, merge), |src|)
  {
    Regions(src, call, shellName, captureName);
    AllIn(Planned(src, call, shellName, captureName, argvSrc, cwdSrc, merge), |src|);
  }

  /** The rewritten text of a `subprocess` call with `shell=True` and no `capture_output`: the command becomes
      the wrapped list followed by the directory, and by the merged streams if asked for and not given
      already; the keyword with its comma is gone, and everything else stands. */
  lemma RewrittenCall(src: string, call: CallSite, shellName: nat, argvSrc: string, cwdSrc: string, merge: bool)
    requires LaidOut(src, call, shellName, 0) && call.shell.Some? && call.capture.None? && !call.isSystem
    ensures var es := Planned(src, call, shellName, 0, argvSrc, cwdSrc, merge);
            var d := DropFrom(src, shellName);
            && call.cmd.end <= d
            && SpliceAll(src, SortDescending(es))
               == src[..call.cmd.start] + "_sudo_wrap([" + argvSrc + "])" + ", cwd=" + cwdSrc
                  + (if merge && !call.hasStdout && !call.hasStderr then ", " + "stdout=subprocess.PIPE, stderr=subprocess.STDOUT" else "")
                  + src[call.cmd.end..d] + src[call.shell.value.end..]
  {
    var d, ke, s, e := DropFrom(src, shellName), call.shell.value.end, call.cmd.start, call.cmd.end;
    DropsAfter(src, e, shellName);
    var cmd, drop, tail := Edit(s, e, Wrapped(argvSrc)), Edit(d, ke, ""), Edit(e, e, Tail(call, cwdSrc, merge));
    assert Planned(src, call, shellName, 0, argvSrc, cwdSrc, merge) == [cmd, drop, tail];
    SortedThree(cmd, drop, tail);
    ThreeSplices(src, drop, tail, cmd);
    ThreePieces(src, cmd, drop, tail);
    Spelled(src[..s], argvSrc, cwdSrc, call, merge);
    Rejoined(src[..s] + Wrapped(argvSrc) + Tail(call, cwdSrc, merge), src[e..d], "", src[ke..]);
  }

  /** And of one without `shell=True`, with `capture_output` and merged streams: the keyword becomes the two
      streams, and they are given once. */
  lemma RewrittenCapture(src: string, call: CallSite, captureName: nat, argvSrc: string, cwdSrc: string)
    requires LaidOut(src, call, 0, captureName) && call.shell.None? && call.capture.Some? && !call.isSystem
    ensures var es := Planned(src, call, 0, captureName, argvSrc, cwdSrc, true);
            && call.cmd.end <= captureName
            && SpliceAll(src, SortDescending(es))
               == src[..call.cmd.start] + "_sudo_wrap([" + argvSrc + "])" + ", cwd=" + cwdSrc
                  + src[call.cmd.end..captureName] + "stdout=subprocess.PIPE, stderr=subprocess.STDOUT" + src[call.capture.value.end..]
  {
    var ke, s, e := call.capture.value.end, call.cmd.start, call.cmd.end;
    Regions(src, call, 0, captureName);
    var cmd, streams, tail := Edit(s, e, Wrapped(argvSrc)), Edit(captureName, ke, MERGED), Edit(e, e, Tail(call, cwdSrc, true));
    assert Planned(src, call, 0, captureName, argvSrc, cwdSrc, true) == [cmd, streams, tail];
    SortedThree(cmd, streams, tail);
    ThreeSplices(src, streams, tail, cmd);
    ThreePieces(src, cmd, streams, tail);
    Spelled(src[..s], argvSrc, cwdSrc, call, true);
    EmptyPrefix(src[..s] + "_sudo_wrap([" + argvSrc + "])" + ", cwd=" + cwdSrc);
    Rejoined(src[..s] + Wrapped(argvSrc) + Tail(call, cwdSrc, true), src[e..captureName], MERGED, src[ke..]);
  }

  lemma ThreePieces(src: string, cmd: Edit, later: Edit, tail: Edit)
    requires cmd.start < cmd.end == tail.start == tail.end <= later.start <= later.end <= |src|
    ensures Splice(Splice(Splice(src, later), tail), cmd)
         == src[..cmd.start] + cmd.repl + tail.repl + (src[cmd.end..later.start] + later.repl + src[later.end..])
  {
    var s, e := cmd.start, cmd.end;
    var s1 := Splice(src, later);
    assert s1 == src[..later.start] + later.repl + src[later.end..];
    var s2 := Splice(s1, tail);
    assert s1[..e] == src[..e] && s1[e..] == src[e..later.start] + later.repl + src[later.end..];
    assert s2 == src[..e] + tail.repl + s1[e..];
    assert s2[..s] == src[..s] && s2[e..] == tail.repl + s1[e..];
  }

  lemma Rejoined(a: string, b: string, c: string, d: string)
    ensures a + (b + c + d) == a + b + c + d && (c == "" ==> a + (b + c + d) == a + b + d)
  {}

  lemma Spelled(front: string, argvSrc: string, cwdSrc: string, call: CallSite, merge: bool)
    ensures front + Wrapped(argvSrc) + Tail(call, cwdSrc, merge)
         == front + "_sudo_wrap([" + argvSrc + "])" + ", cwd=" + cwdSrc
            + if merge && call.capture.None? && !call.hasStdout && !call.hasStderr
              then ", " + "stdout=subprocess.PIPE, stderr=subprocess.STDOUT" else ""
  {
    var w, x := "_sudo_wrap([", if Merge(call, merge) then ", " + MERGED else "";
    Assoc(front, w + argvSrc, "])");
    Assoc(front, w, argvSrc);
    Assoc(front + Wrapped(argvSrc), ", cwd=" + cwdSrc, x);
    Assoc(front + Wrapped(argvSrc), ", cwd=", cwdSrc);
  }

  lemma SortedThree(cmd: Edit, drop: Edit, tail: Edit)
    requires cmd.start < tail.start <= drop.start
    ensures SortDescending([cmd, drop, tail]) == [drop, tail, cmd]
  {
    assert [cmd, drop, tail][1..] == [drop, tail] && [drop, tail][1..] == [tail] && [tail][1..] == [];
    assert SortDescending([]) == [] && SortDescending([tail]) == [tail];
    assert SortDescending([drop, tail]) == Insert(drop, [tail]) == [drop, tail];
    assert Insert(cmd, [drop, tail]) == [drop] + Insert(cmd, [tail]);
    assert Insert(cmd, [tail]) == [tail] + Insert(cmd, []);
  }

  lemma ThreeSplices(src: string, a: Edit, b: Edit, c: Edit)
    ensures SpliceAll(src, [a, b, c]) == Splice(Splice(Splice(src, a), b), c)
  {
    assert SpliceFirst(src, [a, b, c], 1) == Splice(src, a);
    assert SpliceFirst(src, [a, b, c], 2) == Splice(Splice(src, a), b);
  }

  // ---------------------------------------------------------------- the whole file

  /** One planned call: where it stands in the file, where its keywords are named, and what it becomes. */
  datatype Job = Job(call: CallSite, site: Span, shellName: nat, captureName: nat, argvSrc: string, cwdSrc: string, merge: bool)

  /** The call lies in its site, whose last character, the closing parenthesis, comes after the
      command. */
  predicate JobOk(src: string, j: Job)
  {
    && LaidOut(src, j.call, j.shellName, j.captureName) && j.site.end <= |src|
    && j.site.start <= j.call.func.start && j.call.cmd.end < j.site.end
    && (j.call.shell.Some? ==> j.call.shell.value.end <= j.site.end)
    && (j.call.capture.Some? ==> j.call.capture.value.end <= j.site.end)
  }

  predicate JobsOk(src: string, jobs: seq<Job>) { forall i :: 0 <= i < |jobs| ==> JobOk(src, jobs[i]) }

  predicate Clear(s: Span, t: Span) { s.end <= t.start || t.end <= s.start }

  predicate DisjointSites(jobs: seq<Job>) { forall i, j :: 0 <= i < j < |jobs| ==> Clear(jobs[i].site, jobs[j].site) }

  function PlanOf(src: string, j: Job): (es: seq<Edit>)
    requires JobOk(src, j)
  {
    Planned(src, j.call, j.shellName, j.captureName, j.argvSrc, j.cwdSrc, j.merge)
  }

  /** The edits of all calls, in the order of the calls. */
  function PlanAll(src: string, jobs: seq<Job>): (es: seq<Edit>)
    requires JobsOk(src, jobs)
  {
    if jobs == [] then [] else PlanAll(src, jobs[..|jobs| - 1]) + PlanOf(src, jobs[|jobs| - 1])
  }

  predicate InSite(e: Edit, s: Span) { s.start <= e.start < s.end && e.start <= e.end <= s.end }

  lemma PlanInSite(src: string, j: Job)
    requires JobOk(src, j)
    ensures forall e :: e in PlanOf(src, j) ==> InSite(e, j.site)
  {
    Regions(src, j.call, j.shellName, j.captureName);
  }

  lemma ClearGoes(x: Edit, y: Edit, s: Span, t: Span)
    requires InSite(x, s) && InSite(y, t) && Clear(s, t)
    ensures Goes(x, y)
  {}

  lemma {:induction false} AllInSites(src: string, jobs: seq<Job>, e: Edit)
    requires JobsOk(src, jobs) && e in PlanAll(src, jobs)
    ensures exists i :: 0 <= i < |jobs| && InSite(e, jobs[i].site)
    decreases |jobs|
  {
    var init, j := jobs[..|jobs| - 1], jobs[|jobs| - 1];
    if e in PlanAll(src, init) { AllInSites(src, init, e); } else { PlanInSite(src, j); }
  }

  lemma CompatibleAppend(xs: seq<Edit>, ys: seq<Edit>)
    requires Compatible(xs) && Compatible(ys) && AllGo(xs, ys)
    ensures Compatible(xs + ys)
  {
    var zs := xs + ys;
    forall i, j | 0 <= i < j < |zs| ensures Goes(zs[i], zs[j]) {
      if i < |xs| <= j { assert zs[i] in xs && zs[j] in ys; }
    }
  }

  /** Calls at disjoint sites: all their edits together are compatible. */
  lemma {:induction false} PlanAllCompatible(src: string, jobs: seq<Job>)
    requires JobsOk(src, jobs) && DisjointSites(jobs)
    ensures Compatible(PlanAll(src, jobs)) && InBounds(PlanAll(src, jobs), |src|)
    decreases |jobs|
  {
    if jobs != [] {
      var init, j := jobs[..|jobs| - 1], jobs[|jobs| - 1];
      assert JobOk(src, j);
      PlanAllCompatible(src, init);
      PlannedCompatible(src, j.call, j.shellName, j.captureName, j.argvSrc, j.cwdSrc, j.merge);
      PlannedInBounds(src, j.call, j.shellName, j.captureName, j.argvSrc, j.cwdSrc, j.merge);
      PlanInSite(src, j);
      forall x, y | x in PlanAll(src, init) && y in PlanOf(src, j) ensures Goes(x, y) {
        AllInSites(src, init, x);
        var i :| 0 <= i < |init| && InSite(x, init[i].site);
        ClearGoes(x, y, jobs[i].site, j.site);
      }
      CompatibleAppend(PlanAll(src, init), PlanOf(src, j));
    }
  }

  /** Back from computed edits that lie in the text. */
  function Cooked(es: seq<RawEdit>): (r: seq<Edit>)
    requires forall i :: 0 <= i < |es| ==> es[i].start >= 0
    ensures |r| == |es| && forall i :: 0 <= i < |es| ==> Raw(r[i]) == es[i]
  {
    seq(|es|, i requires 0 <= i < |es| => Edit(es[i].start, es[i].end, es[i].repl))
  }

  lemma CookedRaws(es: seq<Edit>)
    ensures Cooked(Raws(es)) == es
  {
    forall i | 0 <= i < |es| ensures Cooked(Raws(es))[i] == es[i] { assert Raw(Cooked(Raws(es))[i]) == Raw(es[i]); }
  }

  /** Patching the file: the edits of all calls, collected and then spliced one after the other, are
      one simultaneous substitution on the original text. */
  method PatchFile(src: string, jobs: seq<Job>) returns (r: string)
    requires JobsOk(src, jobs) && DisjointSites(jobs)
    ensures r == Substituted(src, PlanAll(src, jobs), 0)
    ensures Downwards(src, SortDescending(PlanAll(src, jobs))) && r == Patched(src, SortDescending(PlanAll(src, jobs)))
  {
    var all: seq<Edit> := [];
    for k := 0 to |jobs|
      invariant all == PlanAll(src, jobs[..k])
    {
      var j := jobs[k];
      assert JobOk(src, j);
      var edits := MakeEdits(src, j.call, j.argvSrc, j.cwdSrc, j.merge);
      assert edits == Raws(PlanOf(src, j));
      CookedRaws(PlanOf(src, j));
      all := all + Cooked(edits);
      TakeMore(jobs, k);
      InitOfSnoc(jobs[..k], j);
    }
    TakeAll(jobs);
    PlanAllCompatible(src, jobs);
    SplicesArePatched(src, all);
    r := ApplyEdits(src, all);
  }
}
