/**
 The converter for `cd DIR && CMD`: the directory becomes a keyword argument, the command an argument
 list.
 */
module CdPlan {
  import opened Wrappers
  import opened ShellWords
  import opened ReaderAgreement
  import opened Substitution
  import opened FStringConverter
  import PathNorm

  const AND := " && "

  /** Where pat first stands in s, from i on. */
  function FirstAt(pat: string, s: string, i: nat): (r: Option<nat>)
    requires i <= |s|
    ensures r.Some? ==> i <= r.value && OccursAt(pat, s, r.value) && forall k :: i <= k < r.value ==> !OccursAt(pat, s, k)
    ensures r.None? ==> forall k :: i <= k <= |s| ==> !OccursAt(pat, s, k)
    decreases |s| - i
  {
    if OccursAt(pat, s, i) then Some(i) else if i == |s| then None else FirstAt(pat, s, i + 1)
  }

  /** The two parts of Python's t.split(" && "), if there are exactly two. */
  function Halves(t: string): (r: Option<(string, string)>)
    ensures r.Some? ==> t == r.value.0 + AND + r.value.1 && !Contains(AND, r.value.1)
    ensures r.Some? ==> forall k :: 0 <= k < |r.value.0| ==> !OccursAt(AND, t, k)
    ensures r.None? && Contains(AND, t) ==> exists k, m :: 0 <= k && k + |AND| <= m && OccursAt(AND, t, k) && OccursAt(AND, t, m)
  {
    var p := FirstAt(AND, t, 0);
    if p.None? then None else
    var a, b := t[..p.value], t[p.value + |AND|..];
    assert t == a + AND + b;
    var q := FirstAt(AND, b, 0);
    if q.Some? then
      assert OccursAt(AND, t, p.value + |AND| + q.value) by { assert b[q.value..q.value + |AND|] == t[p.value + |AND| + q.value..p.value + |AND| + q.value + |AND|]; }
      None
    else
      Some((a, b))
  }

  /** The working directory in source form: an expression, a text for os.path.expanduser, or a text. */
  datatype Dir = Given(expr: string) | Home(text: string) | Fixed(text: string)

  /** None also stands for a sentinel number without an expression (an IndexError in the source). */
  function DirOf(target: string, exprs: seq<string>): (r: Option<Dir>)
  {
    var d := Decode(target);
    if HasHole(d) then
      if |d| == 1 && d[0].idx < |exprs| then Some(Given(exprs[d[0].idx])) else None
    else if StartsWith(target, "~") then Some(Home(target))
    else if StartsWith(target, "/") then Some(Fixed(target))
    else None
  }

  /** What is left of the first part without its `cd`. */
  function Target(a: string): (r: string)
  {
    var s := Stripped(a);
    Stripped(if |s| <= 3 then "" else s[3..])
  }

  predicate Untouchable(t: string) { Contains("$(", t) || '`' in t || '|' in t }

  datatype Plan = Plan(dir: Dir, argv: seq<Arg>)

  /** p is the plan for the template t. */
  ghost predicate IsCdPlan(t: string, exprs: seq<string>, bins: set<string>, p: Plan)
  {
    && StartsWith(t, "cd ") && !Untouchable(t) && Halves(t).Some?
    && var (a, b) := Halves(t).value;
    && ';' !in Stripped(b) && DirOf(Target(a), exprs) == Some(p.dir) && IsArgv(Stripped(b), exprs, bins, p.argv)
  }

  method PlanOne(t: string, exprs: seq<string>, bins: set<string>) returns (r: Option<Plan>)
    ensures r.Some? ==> IsCdPlan(t, exprs, bins, r.value)
    ensures r.None? ==> forall p :: !IsCdPlan(t, exprs, bins, p)
  {
    if !StartsWith(t, "cd ") { return None; }
    if Untouchable(t) { return None; }
    var parts := Halves(t);
    if parts.None? { return None; }
    var (a, b) := parts.value;
    if ';' in Stripped(b) { return None; }
    var dir := DirOf(Target(a), exprs);
    if dir.None? { return None; }
    var argv := ArgvOf(Stripped(b), exprs, bins);
    if argv.None? { return None; }
    return Some(Plan(dir.value, argv.value));
  }

  // ---------------------------------------------------------------- stripping a template

  lemma {:induction false} StripLeftParts(s: string) returns (w: string)
    ensures s == w + StripLeft(s) && AllWhite(w)
    decreases |s|
  {
    if s != "" && IsWhite(s[0]) {
      w := StripLeftParts(s[1..]);
      w := [s[0]] + w;
    } else {
      w := "";
    }
  }

  lemma {:induction false} StripRightParts(s: string) returns (w: string)
    ensures s == StripRight(s) + w && AllWhite(w)
    decreases |s|
  {
    if s != "" && IsWhite(s[|s| - 1]) {
      var v := StripRightParts(s[..|s| - 1]);
      w := v + [s[|s| - 1]];
      InitLast(s);
      Assoc(StripRight(s), v, [s[|s| - 1]]);
    } else {
      w := "";
      EmptyPrefix(s);
    }
  }

  lemma WhiteIsClean(w: string)
    requires AllWhite(w)
    ensures Clean(w)
  {}

  /** A template with white space around what is left of it by `strip`. */
  lemma CutStripped(t: Text) returns (v: string, x: Text, w: string)
    ensures AllWhite(v) && AllWhite(w) && t == Lift(v) + (x + Lift(w)) && Fill(x, Sent) == Stripped(Fill(t, Sent))
  {
    var s := Fill(t, Sent);
    v := StripLeftParts(s);
    w := StripRightParts(StripLeft(s));
    WhiteIsClean(v);
    WhiteIsClean(w);
    var y := CutFront(t, v, StripLeft(s));
    x := CutBack(y, Stripped(s), w);
  }

  // ---------------------------------------------------------------- meaning

  /** `cd DIR && CMD`, with white space around both. */
  datatype CdLine = CdLine(w1: string, dir: Text, w2: string, w3: string, cmd: Text, w4: string)

  predicate Spaced(l: CdLine) { AllWhite(l.w1) && AllWhite(l.w2) && AllWhite(l.w3) && AllWhite(l.w4) }

  function First(l: CdLine): (r: Text) { Lift("cd ") + (Lift(l.w1) + (l.dir + Lift(l.w2))) }

  function Second(l: CdLine): (r: Text) { Lift(l.w3) + (l.cmd + Lift(l.w4)) }

  function Whole(l: CdLine): (r: Text) { First(l) + (Lift(AND) + Second(l)) }

  /** The line it stands for. */
  function LineOf(l: CdLine, ins: nat -> string): (r: string)
  {
    ("cd " + (l.w1 + (Fill(l.dir, ins) + l.w2))) + (AND + (l.w3 + (Fill(l.cmd, ins) + l.w4)))
  }

  lemma FillSpaced(v: string, x: Text, w: string, ins: nat -> string)
    ensures Fill(Lift(v) + (x + Lift(w)), ins) == v + (Fill(x, ins) + w)
  {
    FillAppend(Lift(v), x + Lift(w), ins);
    FillAppend(x, Lift(w), ins);
    FillLift(v, ins);
    FillLift(w, ins);
  }

  lemma FillWhole(l: CdLine, ins: nat -> string)
    ensures Fill(Whole(l), ins) == LineOf(l, ins)
  {
    FillAppend(First(l), Lift(AND) + Second(l), ins);
    FillAppend(Lift(AND), Second(l), ins);
    FillLift(AND, ins);
    FillAppend(Lift("cd "), Lift(l.w1) + (l.dir + Lift(l.w2)), ins);
    FillLift("cd ", ins);
    FillSpaced(l.w1, l.dir, l.w2, ins);
    FillSpaced(l.w3, l.cmd, l.w4, ins);
  }

  lemma NoDir(exprs: seq<string>)
    ensures Stripped("") == "" && DirOf("", exprs).None?
  {}

  lemma StartsWithCd(a: string)
    requires StartsWith(a + AND, "cd ")
    ensures StripLeft(a) == a && |a| >= 2 && (|a| >= 3 ==> a[..3] == "cd ")
  {
    CdFirst(a);
    if |a| >= 3 { assert (a + AND)[..3] == a[..3]; }
  }

  lemma CdFirst(a: string)
    requires StartsWith(a + AND, "cd ")
    ensures |a| >= 2 && a[0] == 'c'
  {
    StartsWithChars(a + AND);
    assert (a + AND)[1] == if |a| == 0 then '&' else if |a| == 1 then ' ' else a[1];
  }

  lemma StartsWithChars(z: string)
    requires StartsWith(z, "cd ")
    ensures z[0] == 'c' && z[1] == 'd'
  {
    assert z[..3][0] == z[0] && z[..3][1] == z[1];
  }

  /** The first part of a planned template. */
  lemma FirstPart(x: Text, a: string, exprs: seq<string>) returns (w1: string, dir: Text, w2: string)
    requires Fill(x, Sent) == a && StartsWith(a + AND, "cd ") && DirOf(Target(a), exprs).Some?
    ensures AllWhite(w1) && AllWhite(w2) && x == Lift("cd ") + (Lift(w1) + (dir + Lift(w2))) && Fill(dir, Sent) == Target(a)
  {
    var s := Stripped(a);
    StartsWithCd(a);
    var w := StripRightParts(a);
    WhiteIsClean(w);
    var y := CutBack(x, s, w);
    NoDir(exprs);
    assert s[..3] == a[..3] == "cd " && s == "cd " + s[3..];
    var z := CutFront(y, "cd ", s[3..]);
    var v;
    w1, dir, v := CutStripped(z);
    w2 := v + w;
    LiftAppend(v, w);
    Rejoin(Lift("cd "), Lift(w1), dir, Lift(v), Lift(w));
  }

  lemma Rejoin(a: Text, b: Text, c: Text, d: Text, e: Text)
    ensures (a + (b + (c + d))) + e == a + (b + (c + (d + e)))
  {}

  /** A planned template is such a line, and the plan is made from its two texts. */
  lemma PlannedLine(t: Text, exprs: seq<string>, bins: set<string>, p: Plan) returns (l: CdLine)
    requires IsCdPlan(Fill(t, Sent), exprs, bins, p)
    ensures Spaced(l) && t == Whole(l)
    ensures DirOf(Fill(l.dir, Sent), exprs) == Some(p.dir) && IsArgv(Fill(l.cmd, Sent), exprs, bins, p.argv)
    ensures ';' !in Fill(l.cmd, Sent) && !Contains(AND, Fill(l.cmd, Sent))
  {
    var s := Fill(t, Sent);
    var (a, b) := Halves(s).value;
    HalvesStart(s, a, b);
    l := CutLine(t, a, b, exprs);
    if Contains(AND, Stripped(b)) { StrippedInside(b); }
  }

  lemma StrippedInside(b: string)
    requires Contains(AND, Stripped(b))
    ensures Contains(AND, b)
  {
    var v := StripLeftParts(b);
    var w := StripRightParts(StripLeft(b));
    ContainsWider(AND, v, Stripped(b), w);
    Assoc(v, Stripped(b), w);
  }

  lemma HalvesStart(s: string, a: string, b: string)
    requires s == a + AND + b && StartsWith(s, "cd ")
    ensures s == a + (AND + b) && StartsWith(a + AND, "cd ")
  {
    assert s[..3] == (a + AND)[..3];
  }

  lemma CutLine(t: Text, a: string, b: string, exprs: seq<string>) returns (l: CdLine)
    requires Fill(t, Sent) == a + (AND + b) && StartsWith(a + AND, "cd ") && DirOf(Target(a), exprs).Some?
    ensures Spaced(l) && t == Whole(l) && Fill(l.dir, Sent) == Target(a) && Fill(l.cmd, Sent) == Stripped(b)
  {
    var x, y := CutMiddle(t, a, AND, b);
    var w1, dir, w2 := FirstPart(x, a, exprs);
    var w3, cmd, w4 := CutStripped(y);
    l := CdLine(w1, dir, w2, w3, cmd, w4);
  }

  // ---------------------------------------------------------------- one command in one directory

  lemma UntouchableShows(t: Text, l: CdLine, i: nat)
    requires t == Whole(l) && !Untouchable(Fill(t, Sent)) && i < |l.cmd|
    ensures l.cmd[i].C? ==> l.cmd[i].ch !in "|`"
    ensures !PairAt(l.cmd, i, '$', '(')
  {
    var k := |First(l)| + |AND| + |l.w3| + i;
    assert t[k] == l.cmd[i] && (i + 1 < |l.cmd| ==> t[k + 1] == l.cmd[i + 1]);
    if t[k].C? { CharShows(t, k, t[k].ch); }
    if PairAt(l.cmd, i, '$', '(') { PairShows(t, k, '$', '('); }
  }

  /** The command of a plan is one simple command, neither redirected nor with another substituted in it,
      exactly if the shell finds no `&`, parenthesis, line feed or redirection in it: it never stops at
      `;`, `|`, a backquote or `$(`.  In the line nothing else is a ` && ` to the converter. */
  lemma OneCommandInDir(t: Text, exprs: seq<string>, bins: set<string>, p: Plan) returns (l: CdLine)
    requires IsCdPlan(Fill(t, Sent), exprs, bins, p)
    ensures Spaced(l) && t == Whole(l) && !Contains(AND, Fill(l.cmd, Sent))
    ensures forall i :: 0 <= i < |l.cmd| && RejectsAt(l.cmd, i) ==>
              l.cmd[i].C? && l.cmd[i].ch !in ";|`" && !PairAt(l.cmd, i, '$', '(')
    ensures forall i :: 0 <= i < |l.cmd| ==> (LeavesCommand(l.cmd, i) <==> RejectsAt(l.cmd, i) && l.cmd[i].ch in "&<>()\n")
  {
    l := PlannedLine(t, exprs, bins, p);
    forall i | 0 <= i < |l.cmd|
      ensures RejectsAt(l.cmd, i) ==> l.cmd[i].C? && l.cmd[i].ch !in ";|`" && !PairAt(l.cmd, i, '$', '(')
      ensures LeavesCommand(l.cmd, i) <==> RejectsAt(l.cmd, i) && l.cmd[i].ch in "&<>()\n"
    {
      UntouchableShows(t, l, i);
      StopsAt(l.cmd, i);
    }
  }

  lemma StopsAt(cmd: Text, i: nat)
    requires i < |cmd| && ';' !in Fill(cmd, Sent) && (cmd[i].C? ==> cmd[i].ch !in "|`") && !PairAt(cmd, i, '$', '(')
    ensures RejectsAt(cmd, i) ==> cmd[i].C? && cmd[i].ch != ';'
    ensures LeavesCommand(cmd, i) <==> RejectsAt(cmd, i) && cmd[i].ch in "&<>()\n"
  {
    if RejectsAt(cmd, i) { HoleNeverRejects(Run(Sh, START, cmd[..i]), cmd[i]); }
    if cmd[i].C? { CharShows(cmd, i, cmd[i].ch); }
  }

  /** No white space at either end. */
  predicate Trim(x: Text)
  {
    x != [] && (x[0].C? ==> !IsWhite(x[0].ch)) && (x[|x| - 1].C? ==> !IsWhite(x[|x| - 1].ch))
  }

  lemma TrimStripped(v: string, x: Text, w: string)
    requires AllWhite(v) && AllWhite(w) && Trim(x)
    ensures Stripped(v + (Fill(x, Sent) + w)) == Fill(x, Sent) != ""
  {
    EdgesOfTrim(x);
    StripBlank(v, Fill(x, Sent), w);
  }

  /** A directory the converter takes: one placeholder, or a literal that starts with `~` or `/`. */
  predicate IsDir(d: Text, n: nat)
  {
    Trim(d) && ((|d| == 1 && d[0].P? && d[0].idx < n) || (!HasHole(d) && d[0] in {C('~'), C('/')}))
  }

  function DirFor(d: Text, exprs: seq<string>): (r: Dir)
    requires IsDir(d, |exprs|)
  {
    if d[0].P? then Given(exprs[d[0].idx]) else if d[0] == C('~') then Home(Lower(d)) else Fixed(Lower(d))
  }

  lemma DirOfText(d: Text, exprs: seq<string>)
    requires AllTame(d, |exprs|) && IsDir(d, |exprs|)
    ensures DirOf(Fill(d, Sent), exprs) == Some(DirFor(d, exprs))
  {
    DecodeSentinels(d, |exprs|);
    if HasHole(d) { assert |d| == 1; } else { WholeLiteral(d); }
  }

  /** And every such line is planned: with a directory of that kind and a command that becomes an argument
      list, nothing untouchable in it, no `;` in the command, and one ` && `. */
  lemma LineIsPlanned(l: CdLine, exprs: seq<string>, bins: set<string>) returns (p: Plan)
    requires Spaced(l) && AllTame(Whole(l), |exprs|) && IsDir(l.dir, |exprs|) && Trim(l.cmd)
    requires !Untouchable(LineOf(l, Sent)) && ';' !in Fill(l.cmd, Sent)
    requires Halves(LineOf(l, Sent)) == Some((Fill(First(l), Sent), Fill(Second(l), Sent)))
    requires Words(Shlex, l.cmd).Some? && Headed(Words(Shlex, l.cmd).value, bins)
    ensures IsCdPlan(Fill(Whole(l), Sent), exprs, bins, p) && p.dir == DirFor(l.dir, exprs)
    ensures |p.argv| == |Words(Shlex, l.cmd).value|
    ensures forall i :: 0 <= i < |p.argv| ==>
              InRange(Words(Shlex, l.cmd).value[i], |exprs|) && p.argv[i] == ArgFor(Words(Shlex, l.cmd).value[i], exprs)
  {
    FillWhole(l, Sent);
    TameLine(l, |exprs|);
    var argv := ArgvExact(l.cmd, exprs, bins);
    p := Plan(DirFor(l.dir, exprs), argv);
    DirOfText(l.dir, exprs);
    FillSpaced(l.w3, l.cmd, l.w4, Sent);
    TrimStripped(l.w3, l.cmd, l.w4);
    TargetOfLine(l);
    LineStarts(l);
  }

  /** One ` && ` and no other `&`. */
  lemma OneAnd(a: string, b: string)
    requires '&' !in a && '&' !in b
    ensures Halves(a + AND + b) == Some((a, b))
  {
    var t := a + AND + b;
    assert forall k :: 0 <= k < |t| && t[k] == '&' ==> k == |a| + 1 || k == |a| + 2;
    forall k | OccursAt(AND, t, k) ensures k == |a| {
      assert t[k + 1] == t[k..k + 4][1] == '&' && t[k + 2] == t[k..k + 4][2] == '&';
    }
    assert t[|a|..|a| + 4] == AND && OccursAt(AND, t, |a|);
    var p := FirstAt(AND, t, 0);
    assert p == Some(|a|);
    assert t[..|a|] == a && t[|a| + |AND|..] == b;
    if Contains(AND, b) { CharOf(AND, b, 1); }
  }

  /** The exception is real: a redirection stays in the command and becomes an argument. */
  lemma RedirectionIsArgument(dir: string, a: string, b: string, bins: set<string>) returns (t: Text, p: Plan)
    requires PlainWord(Sh, dir) && dir[0] == '/' && PlainWord(Sh, a) && PlainWord(Sh, b) && NUL !in dir && NUL !in a && NUL !in b
    requires PathNorm.Name(a) in bins && NoWhite(dir) && NoWhite(a) && NoWhite(b)
    ensures t == Lift("cd " + dir + AND + (a + " >" + b)) && IsCdPlan(Fill(t, Sent), [], bins, p)
    ensures p == Plan(Fixed(dir), [Lit(a), Lit(">" + b)]) && Words(Sh, Lift(a + " >" + b)).None?
  {
    var cmd := a + ([' '] + (">" + b));
    assert cmd == a + " >" + b;
    var l := CdLine("", Lift(dir), "", "", Lift(cmd), "");
    t := Lift("cd " + dir + AND + cmd);
    PlainLine(l, dir, cmd);
    RedirectionReady(dir, a, b);
    RedirectionWords(a, b);
    HeadOfTwo(a, ">" + b, bins);
    p := LiteralCdPlan(l, dir, cmd, [Lift(a), Lift(">" + b)], [Lit(a), Lit(">" + b)], bins);
  }

  lemma RedirectionReady(dir: string, a: string, b: string)
    requires PlainWord(Sh, dir) && PlainWord(Sh, a) && PlainWord(Sh, b) && NUL !in dir && NUL !in a && NUL !in b
    requires NoWhite(a) && NoWhite(b)
    ensures var cmd := a + ([' '] + (">" + b)); var s := "cd " + dir + AND + cmd;
      !Untouchable(s) && ';' !in cmd && '&' !in "cd " + dir && '&' !in cmd && AllTame(Lift(s), 0) && Trim(Lift(cmd))
  {
    var cmd := a + ([' '] + (">" + b));
    OrdinaryWord(dir);
    RedirectionOrdinary(a, b);
    OrdinaryLine("cd " + dir + AND + cmd, dir, cmd);
    RedirectionTrim(a, b);
  }

  lemma OrdinaryWord(a: string)
    requires PlainWord(Sh, a) && NUL !in a
    ensures forall c :: c in a ==> Ordinary(c)
  {
    forall c | c in a ensures Ordinary(c) { var i :| 0 <= i < |a| && a[i] == c; assert Plain(Sh, a[i]); }
  }

  lemma RedirectionOrdinary(a: string, b: string)
    requires PlainWord(Sh, a) && PlainWord(Sh, b) && NUL !in a && NUL !in b
    ensures forall c :: c in a + ([' '] + (">" + b)) ==> Ordinary(c) || c == '>'
  {
    OrdinaryWord(a);
    OrdinaryWord(b);
  }

  lemma RedirectionTrim(a: string, b: string)
    requires a != "" && b != "" && NoWhite(a) && NoWhite(b)
    ensures Trim(Lift(a + ([' '] + (">" + b))))
  {
    var cmd := a + ([' '] + (">" + b));
    assert cmd[0] == a[0] && cmd[|cmd| - 1] == b[|b| - 1];
  }

  lemma LiteralCdPlan(l: CdLine, dir: string, cmd: string, ws: seq<Text>, argv: seq<Arg>, bins: set<string>) returns (p: Plan)
    requires l == CdLine("", Lift(dir), "", "", Lift(cmd), "") && dir != "" && dir[0] == '/' && Trim(l.dir) && Trim(l.cmd)
    requires !Untouchable("cd " + dir + AND + cmd) && AllTame(Lift("cd " + dir + AND + cmd), 0)
    requires ';' !in cmd && '&' !in "cd " + dir && '&' !in cmd
    requires Words(Shlex, l.cmd) == Some(ws) && Headed(ws, bins)
    requires |argv| == |ws| && forall i :: 0 <= i < |ws| ==> !HasHole(ws[i]) && argv[i] == Lit(Lower(ws[i]))
    ensures IsCdPlan(Fill(Whole(l), Sent), [], bins, p) && p == Plan(Fixed(dir), argv)
  {
    PlainLine(l, dir, cmd);
    OneAnd("cd " + dir, cmd);
    LiteralWord(dir);
    FillLift(cmd, Sent);
    p := LineIsPlanned(l, [], bins);
    assert p.argv == argv;
  }

  /** A line without white space around its parts. */
  lemma PlainLine(l: CdLine, dir: string, cmd: string)
    requires l == CdLine("", Lift(dir), "", "", Lift(cmd), "")
    ensures Whole(l) == Lift("cd " + dir + AND + cmd) && LineOf(l, Sent) == "cd " + dir + AND + cmd
    ensures Fill(First(l), Sent) == "cd " + dir && Fill(Second(l), Sent) == cmd
  {
    FillLift(dir, Sent);
    FillLift(cmd, Sent);
    LiftAppend("cd " + dir, AND + cmd);
    LiftAppend(AND, cmd);
    LiftAppend("cd ", dir);
    Assoc("cd " + dir, AND, cmd);
    EmptyPrefix(Lift(dir));
    EmptyPrefix(Lift(cmd));
    EmptyPrefix(dir);
    EmptyPrefix(cmd);
    assert First(l) == Lift("cd " + dir) && Second(l) == Lift(cmd);
    FillLift("cd " + dir, Sent);
  }

  lemma CharOf(pat: string, s: string, k: nat)
    requires k < |pat| && Contains(pat, s)
    ensures pat[k] in s
  {
    var p :| 0 <= p <= |s| && OccursAt(pat, s, p);
    assert s[p..p + |pat|][k] == s[p + k];
  }

  predicate Ordinary(c: char) { c !in "|&;<>()$`" && c != NUL }

  lemma OrdinaryLine(s: string, dir: string, cmd: string)
    requires s == "cd " + dir + AND + cmd && forall c :: c in dir ==> Ordinary(c)
    requires forall c :: c in cmd ==> Ordinary(c) || c == '>'
    ensures !Untouchable(s) && ';' !in cmd && '&' !in "cd " + dir && '&' !in cmd && AllTame(Lift(s), 0)
  {
    forall c | c in s ensures c in "cd " || c in dir || c in AND || c in cmd {}
    forall c | c in s ensures c !in "|;$`" && c != NUL {}
    forall i | 0 <= i < |s| ensures Tame(Lift(s)[i], 0) { assert s[i] in s; }
    if Contains("$(", s) { CharOf("$(", s, 0); }
  }

  lemma RedirectionWords(a: string, b: string)
    requires PlainWord(Sh, a) && PlainWord(Sh, b)
    ensures var cmd := a + ([' '] + (">" + b));
      && Words(Shlex, Lift(cmd)) == Some([Lift(a), Lift(">" + b)]) && Words(Sh, Lift(cmd)).None?
  {
    var r := ">" + b;
    PlainForBoth(a);
    PlainForBoth(b);
    assert forall i :: 0 <= i < |r| ==> r[i] == '>' || r[i] == b[i - 1];
    WordsOfTwo(Shlex, a, ' ', r);
    LiftAppend(a, [' '] + r);
    LiftAppend([' '], r);
    LiftAppend(">", b);
    assert Lift([' ']) == [C(' ')] && Lift(">") == [C('>')];
    RunAppend(Sh, START, Lift(a), [C(' ')] + ([C('>')] + Lift(b)));
    ReadFirstLine(Sh, a);
    RedirectionRejects(Run(Sh, START, Lift(a)), Lift(b));
  }

  lemma RedirectionRejects(l: Lexer, rest: Text)
    requires l.Lexer? && l.mode.Word?
    ensures Run(Sh, l, [C(' ')] + ([C('>')] + rest)) == Bad
  {
    var t := [C('>')] + rest;
    assert ([C(' ')] + t)[1..] == t && t[1..] == rest;
    assert Step(Sh, Step(Sh, l, C(' ')), C('>')) == Bad;
    BadForever(Sh, rest);
  }

  predicate NoWhite(s: string) { forall i :: 0 <= i < |s| ==> !IsWhite(s[i]) }

  lemma LineStarts(l: CdLine)
    ensures StartsWith(LineOf(l, Sent), "cd ")
  {
    var rest := l.w1 + (Fill(l.dir, Sent) + l.w2);
    var tail := AND + (l.w3 + (Fill(l.cmd, Sent) + l.w4));
    Assoc("cd ", rest, tail);
    assert ("cd " + (rest + tail))[..3] == "cd ";
  }

  lemma TargetOfLine(l: CdLine)
    requires Spaced(l) && Trim(l.dir)
    ensures Target(Fill(First(l), Sent)) == Fill(l.dir, Sent)
  {
    FillAppend(Lift("cd "), Lift(l.w1) + (l.dir + Lift(l.w2)), Sent);
    FillLift("cd ", Sent);
    FillSpaced(l.w1, l.dir, l.w2, Sent);
    EdgesOfTrim(l.dir);
    TargetOf(l.w1, Fill(l.dir, Sent), l.w2);
  }

  lemma TargetOf(v: string, d: string, w: string)
    requires AllWhite(v) && AllWhite(w) && d != "" && !IsWhite(d[0]) && !IsWhite(d[|d| - 1])
    ensures Target("cd " + (v + (d + w))) == d
  {
    var s := "cd " + (v + d);
    Assoc(v, d, w);
    Assoc("cd ", v + d, w);
    LastOf("cd ", v, d);
    StripBlank("", s, w);
    EmptyPrefix(s + w);
    StripBlank(v, d, "");
    EmptyPrefix(d);
    assert s[3..] == v + d;
  }

  lemma LastOf(a: string, b: string, c: string)
    requires c != ""
    ensures (a + (b + c))[|a + (b + c)| - 1] == c[|c| - 1] && |a + (b + c)| > |a|
    ensures a != "" ==> (a + (b + c))[0] == a[0]
  {}

  lemma EdgesOfTrim(x: Text)
    requires Trim(x)
    ensures var s := Fill(x, Sent); s != "" && !IsWhite(s[0]) && !IsWhite(s[|s| - 1])
  {
    var s, k := Fill(x, Sent), |x| - 1;
    assert x == x[..k] + [x[k]] && [x[k]][1..] == [];
    FillAppend(x[..k], [x[k]], Sent);
    assert Fill([x[k]], Sent) == Shown(x[k]) + "" == Shown(x[k]);
    assert s[0] == Shown(x[0])[0] && s[|s| - 1] == Shown(x[k])[|Shown(x[k])| - 1];
  }

  // ---------------------------------------------------------------- what the plan means

  /** The directory the plan means; `expand` is os.path.expanduser. */
  function DirValue(d: Dir, env: string -> Value, expand: string -> string): (r: string)
  {
    match d
    case Given(e) => env(e).text
    case Home(text) => expand(text)
    case Fixed(text) => text
  }

  /** What the shell makes of a literal with a tilde in front, and of any other. */
  function Tilde(text: string, expand: string -> string): (r: string) { if StartsWith(text, "~") then expand(text) else text }

  /** The shell reads the text as one word. */
  predicate IsWord(text: string, word: string) { Words(Sh, Lift(text)) == Some([Lift(word)]) }

  /** What the directory is: a placeholder's value, or the literal text, of which only a tilde is expanded.  For
      a placeholder it is the one word that the shell reads, exactly if it was wrapped in shlex.quote or
      is a plain word; a literal is, exactly if it is plain: the converter takes neither quotes nor
      escapes off it. */
  lemma DirMeaning(d: Text, t: Template, dir: Dir, env: string -> Value, expand: string -> string)
    requires |t.exprs| == |t.quoted| && AllTame(d, |t.exprs|) && DirOf(Fill(d, Sent), t.exprs) == Some(dir)
    ensures d != [] && (d[0].P? ==> d == [d[0]] && d[0].idx < |t.exprs|) && (d[0].C? ==> !HasHole(d))
    ensures DirValue(dir, env, expand) == if d[0].P? then env(t.exprs[d[0].idx]).text else Tilde(Lower(d), expand)
    ensures var v := if d[0].P? then DirValue(dir, env, expand) else Lower(d);
            IsWord(Fill(d, InsOf(t, env)), v) <==> (d[0].P? && t.quoted[d[0].idx]) || PlainWord(Sh, v)
  {
    DecodeSentinels(d, |t.exprs|);
    DirComesFrom(d, t.exprs, dir);
    DirFilled(d, t, dir, env, expand);
    var v := if d[0].P? then DirValue(dir, env, expand) else Lower(d);
    if d[0].P? && t.quoted[d[0].idx] { QuotedWord(v); } else { BareWordExact(Sh, v); }
  }

  /** What kind of target a planned directory came from. */
  predicate DirFrom(d: Text, exprs: seq<string>, dir: Dir)
  {
    || (|d| == 1 && d[0].P? && d[0].idx < |exprs| && dir == Given(exprs[d[0].idx]))
    || (d != [] && !HasHole(d) && dir == if StartsWith(Lower(d), "~") then Home(Lower(d)) else Fixed(Lower(d)))
  }

  lemma DirComesFrom(d: Text, exprs: seq<string>, dir: Dir)
    requires DirOf(Fill(d, Sent), exprs) == Some(dir) && Decode(Fill(d, Sent)) == d
    ensures DirFrom(d, exprs, dir)
  {
    if !HasHole(d) { WholeLiteral(d); }
  }

  lemma DirFilled(d: Text, t: Template, dir: Dir, env: string -> Value, expand: string -> string)
    requires |t.exprs| == |t.quoted| && DirFrom(d, t.exprs, dir)
    ensures d[0].P? ==> d == [d[0]] && d[0].idx < |t.exprs| && DirValue(dir, env, expand) == env(t.exprs[d[0].idx]).text
                        && Fill(d, InsOf(t, env)) == Inserted(t.quoted[d[0].idx], DirValue(dir, env, expand))
    ensures d[0].C? ==> !HasHole(d) && DirValue(dir, env, expand) == Tilde(Lower(d), expand) && Fill(d, InsOf(t, env)) == Lower(d)
  {
    if d[0].P? {
      assert d[1..] == [];
      EmptyPrefix(InsOf(t, env)(d[0].idx));
    } else {
      FillNoHoles(d, Sent, InsOf(t, env));
      WholeLiteral(d);
    }
  }

  /** The output of shlex.quote is one word, the value. */
  lemma QuotedWord(v: string)
    ensures Words(Sh, Lift(ShlexQuote(v))) == Some([Lift(v)])
  {
    var ins, val, t := (i: nat) => ShlexQuote(v), (i: nat) => v, [P(0)];
    QuoteFits(Sh, Blank, v);
    OneHole(ins, ShlexQuote(v));
    OneHole(val, v);
    BareHole();
    assert HolesFit(Sh, START, t, ins, val) by { assert t[1..] == []; }
    WordsCommute(Sh, t, ins, val);
    assert LiftAll([v]) == [Lift(v)];
  }

  lemma OneHole(f: nat -> string, v: string)
    requires f(0) == v
    ensures Fill([P(0)], f) == v && FillAll([[P(0)]], f) == [v]
  {
    var t := [P(0)];
    assert t[1..] == [];
    EmptyPrefix(v);
  }

  lemma BareHole()
    ensures Words(Sh, [P(0)]) == Some([[P(0)]])
  {
    var t := [P(0)];
    RunOne(Sh, START, P(0));
    EmptyPrefix(t);
    EmptyPrefix([t]);
  }

  lemma TameParts(x: Text, y: Text, n: nat)
    ensures AllTame(x + y, n) <==> AllTame(x, n) && AllTame(y, n)
  {
    if AllTame(x + y, n) {
      forall i | 0 <= i < |x| ensures Tame(x[i], n) { assert (x + y)[i] == x[i]; }
      forall i | 0 <= i < |y| ensures Tame(y[i], n) { assert (x + y)[|x| + i] == y[i]; }
    }
  }

  lemma TameLine(l: CdLine, n: nat)
    requires AllTame(Whole(l), n)
    ensures AllTame(l.dir, n) && AllTame(l.cmd, n)
  {
    TameParts(First(l), Lift(AND) + Second(l), n);
    TameParts(Lift(AND), Second(l), n);
    TameParts(Lift("cd "), Lift(l.w1) + (l.dir + Lift(l.w2)), n);
    TameParts(Lift(l.w1), l.dir + Lift(l.w2), n);
    TameParts(l.dir, Lift(l.w2), n);
    TameParts(Lift(l.w3), l.cmd + Lift(l.w4), n);
    TameParts(l.cmd, Lift(l.w4), n);
  }

  /** The plan keeps what the line said.  The old line is `cd DIR && CMD`; the planned directory is the word
      the shell read for DIR, exactly under the condition above; and where CMD is readable, the planned
      argument list evaluates to the words the shell read for CMD, exactly if it is sound. */
  lemma CdTranslation(parts: seq<Part>, bins: set<string>, p: Plan, env: string -> Value, expand: string -> string)
    returns (l: CdLine, values: seq<string>)
    requires TemplateOf(parts).Some? && LiteralsNulFree(parts) && Line(parts, env).Some?
    requires IsCdPlan(Fill(TemplateOf(parts).value.text, Sent), TemplateOf(parts).value.exprs, bins, p)
    ensures Spaced(l) && l.dir != [] && Line(parts, env).value == LineOf(l, InsOf(TemplateOf(parts).value, env))
    ensures var t := TemplateOf(parts).value;
      && (l.dir[0].P? ==> l.dir[0].idx < |t.exprs|)
      && DirValue(p.dir, env, expand) == (if l.dir[0].P? then env(t.exprs[l.dir[0].idx]).text else Tilde(Lower(l.dir), expand))
      && (IsWord(Fill(l.dir, InsOf(t, env)), if l.dir[0].P? then DirValue(p.dir, env, expand) else Lower(l.dir))
          <==> (l.dir[0].P? && t.quoted[l.dir[0].idx])
               || PlainWord(Sh, if l.dir[0].P? then DirValue(p.dir, env, expand) else Lower(l.dir)))
    ensures var t := TemplateOf(parts).value;
      Readable(l.cmd, t, env) ==>
        && Words(Sh, Lift(Fill(l.cmd, InsOf(t, env)))) == Some(LiftAll(values))
        && (EvaluatesTo(p.argv, env, values) <==> AllSound(p.argv, env))
  {
    var t := TemplateOf(parts).value;
    l := PlannedLine(t.text, t.exprs, bins, p);
    TemplateTame(parts);
    TameLine(l, |t.exprs|);
    LineIsFilled(parts, t, env);
    FillWhole(l, InsOf(t, env));
    DirMeaning(l.dir, t, p.dir, env, expand);
    values := [];
    if Readable(l.cmd, t, env) { values := ArgvMeaning(l.cmd, t, bins, p.argv, env); }
  }
}
