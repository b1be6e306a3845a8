/**
 Two readers of one command line: Python's `shlex.split` in POSIX mode, which the
 converters run on a template, and the shell (IEEE Std 1003.1 XCU sections 2.2 and 2.3),
 which used to run the instantiated line.  Both are one state machine over symbols, where a
 symbol is a character or a placeholder that stands for text not known yet.
 */
module ShellWords {
  import opened Wrappers

  datatype Sym = C(ch: char) | P(idx: nat)
  type Text = seq<Sym>

  datatype Dialect = Shlex | Sh

  /** Esc(b): a backslash has been read in mode b. */
  datatype Mode = Blank | Word | InQuote(q: char) | Esc(back: Mode)

  datatype Lexer =
    | Lexer(mode: Mode, token: Text, quoted: bool, out: seq<Text>)
    | Bad   // the shell gives the line a meaning beyond quoting and splitting

  const START := Lexer(Blank, [], false, [])

  predicate IsQuote(c: char) { c == '\'' || c == '"' }

  /** Unquoted characters at which `shlex` ends a word. */
  predicate IsSpace(d: Dialect, c: char)
  {
    c == ' ' || c == '\t' || (d == Shlex && (c == '\r' || c == '\n'))
  }

  /** Unquoted characters with a further meaning to the shell (XCU 2.2).  A carriage return
      is listed because the two readers disagree on it. */
  predicate IsSpecial(c: char)
  {
    c in "|&;<>()$`*?[\n\r"
  }

  /** `#` and `~` are special only where a word starts. */
  predicate IsSpecialAtStart(c: char) { c == '#' || c == '~' }

  function Emit(l: Lexer): (r: Lexer)
    requires l.Lexer?
  {
    Lexer(Blank, [], false, if l.token != [] || l.quoted then l.out + [l.token] else l.out)
  }

  /** Where an escaped symbol leaves the reader. */
  function Outside(m: Mode): (r: Mode) { if m.InQuote? then m else Word }

  /** What one symbol does in a given mode: refuse the line, end the word, or keep some
      symbols of the word and move on (`quote`: a quotation has been seen). */
  datatype Action = Reject | EndWord | Keep(more: Text, mode: Mode, quote: bool)

  function Act(d: Dialect, m: Mode, s: Sym): (r: Action)
  {
    match m
    case Blank =>
      if s.P? then Keep([s], Word, false)
      else if IsSpace(d, s.ch) then Keep([], Blank, false)
      else if s.ch == '\\' then Keep([], Esc(Blank), false)
      else if IsQuote(s.ch) then Keep([], InQuote(s.ch), false)
      else if d == Sh && (IsSpecial(s.ch) || IsSpecialAtStart(s.ch)) then Reject
      else Keep([s], Word, false)
    case Word =>
      if s.P? then Keep([s], Word, false)
      else if IsSpace(d, s.ch) then EndWord
      else if s.ch == '\\' then Keep([], Esc(Word), false)
      else if IsQuote(s.ch) then Keep([], InQuote(s.ch), false)
      else if d == Sh && IsSpecial(s.ch) then Reject
      else Keep([s], Word, false)
    case InQuote(q) =>
      if s == C(q) then Keep([], Word, true)
      else if s == C('\\') && q == '"' then Keep([], Esc(m), true)
      else if d == Sh && q == '"' && (s == C('$') || s == C('`')) then Reject
      else Keep([s], m, true)
    case Esc(b) =>
      if d == Sh && s == C('\n') then Keep([], b, false)     // line continuation
      else if b.InQuote? && !EscapableIn(d, b.q, s) then Keep([C('\\'), s], b, false)
      else Keep([s], Outside(b), false)
  }

  function Step(d: Dialect, l: Lexer, s: Sym): (r: Lexer)
  {
    if l.Bad? then Bad else
    match Act(d, l.mode, s)
    case Reject => Bad
    case EndWord => Emit(l)
    case Keep(more, m, quote) => Lexer(m, l.token + more, l.quoted || quote, l.out)
  }

  /** The symbols a backslash can escape inside double quotes. */
  predicate EscapableIn(d: Dialect, q: char, s: Sym)
  {
    s == C('\\') || s == C(q) || (d == Sh && (s == C('$') || s == C('`')))
  }

  function Run(d: Dialect, l: Lexer, t: Text): (r: Lexer)
    decreases |t|
  {
    if t == [] then l else Run(d, Step(d, l, t[0]), t[1..])
  }

  /** None: an open quotation or escape, or a line the shell would not read as plain words. */
  function Finish(l: Lexer): (r: Option<seq<Text>>)
  {
    if l.Bad? || l.mode.InQuote? || l.mode.Esc? then None
    else Some(if l.mode.Word? && (l.token != [] || l.quoted) then l.out + [l.token] else l.out)
  }

  function Words(d: Dialect, t: Text): (r: Option<seq<Text>>) { Finish(Run(d, START, t)) }

  // ---------------------------------------------------------------- text and strings

  function Lift(s: string): (r: Text)
    ensures |r| == |s| && forall i :: 0 <= i < |s| ==> r[i] == C(s[i])
  {
    seq(|s|, i requires 0 <= i < |s| => C(s[i]))
  }

  function Lower(t: Text): (r: string)
    ensures |r| == |t| && forall i :: 0 <= i < |t| ==> r[i] == (if t[i].C? then t[i].ch else '?')
  {
    seq(|t|, i requires 0 <= i < |t| => if t[i].C? then t[i].ch else '?')
  }

  lemma LowerLift(s: string)
    ensures Lower(Lift(s)) == s
  {}

  lemma LiftAppend(a: string, b: string)
    ensures Lift(a + b) == Lift(a) + Lift(b)
  {}

  /** The string a text becomes when every placeholder i is replaced by f(i). */
  function Fill(t: Text, f: nat -> string): (r: string)
    decreases |t|
  {
    if t == [] then "" else (if t[0].C? then [t[0].ch] else f(t[0].idx)) + Fill(t[1..], f)
  }

  function FillAll(ts: seq<Text>, f: nat -> string): (r: seq<string>)
    ensures |r| == |ts| && forall i :: 0 <= i < |ts| ==> r[i] == Fill(ts[i], f)
  {
    seq(|ts|, i requires 0 <= i < |ts| => Fill(ts[i], f))
  }

  function LiftAll(ss: seq<string>): (r: seq<Text>)
    ensures |r| == |ss| && forall i :: 0 <= i < |ss| ==> r[i] == Lift(ss[i])
  {
    seq(|ss|, i requires 0 <= i < |ss| => Lift(ss[i]))
  }

  function LowerAll(ts: seq<Text>): (r: seq<string>)
    ensures |r| == |ts| && forall i :: 0 <= i < |ts| ==> r[i] == Lower(ts[i])
  {
    seq(|ts|, i requires 0 <= i < |ts| => Lower(ts[i]))
  }

  lemma {:induction false} FillAppend(a: Text, b: Text, f: nat -> string)
    ensures Fill(a + b, f) == Fill(a, f) + Fill(b, f)
    decreases |a|
  {
    if a == [] {
      assert a + b == b;
    } else {
      assert (a + b)[1..] == a[1..] + b;
      FillAppend(a[1..], b, f);
    }
  }

  lemma {:induction false} FillLift(s: string, f: nat -> string)
    ensures Fill(Lift(s), f) == s
    decreases |s|
  {
    if s != "" {
      assert Lift(s)[1..] == Lift(s[1..]);
      FillLift(s[1..], f);
    }
  }

  lemma {:induction false} RunAppend(d: Dialect, l: Lexer, a: Text, b: Text)
    ensures Run(d, l, a + b) == Run(d, Run(d, l, a), b)
    decreases |a|
  {
    if a == [] {
      assert a + b == b;
    } else {
      assert (a + b)[0] == a[0] && (a + b)[1..] == a[1..] + b;
      RunAppend(d, Step(d, l, a[0]), a[1..], b);
    }
  }

  lemma RunOne(d: Dialect, l: Lexer, s: Sym)
    ensures Run(d, l, [s]) == Step(d, l, s)
  {
    assert [s][1..] == [] && Run(d, Step(d, l, s), []) == Step(d, l, s);
  }

  lemma {:induction false} BadForever(d: Dialect, t: Text)
    ensures Run(d, Bad, t) == Bad
    decreases |t|
  {
    if t != [] { BadForever(d, t[1..]); }
  }

  // ---------------------------------------------------------------- reachable readers

  predicate ModeOk(m: Mode) { m.Esc? ==> m.back in {Blank, Word, InQuote('"')} }

  predicate AtBlank(m: Mode) { m.Blank? || m == Esc(Blank) }

  predicate AtWord(m: Mode) { m.Word? || m == Esc(Word) }

  /** What every reader reached from START satisfies: between words nothing is pending, and
      inside a word something is. */
  predicate Wf(l: Lexer)
  {
    l.Lexer? ==>
      && ModeOk(l.mode)
      && (AtBlank(l.mode) ==> l.token == [] && !l.quoted)
      && (AtWord(l.mode) ==> l.token != [] || l.quoted)
  }

  lemma StepWf(d: Dialect, l: Lexer, s: Sym)
    requires Wf(l)
    ensures Wf(Step(d, l, s))
  {}

  lemma {:induction false} RunWf(d: Dialect, l: Lexer, t: Text)
    requires Wf(l)
    ensures Wf(Run(d, l, t))
    decreases |t|
  {
    if t != [] {
      StepWf(d, l, t[0]);
      RunWf(d, Step(d, l, t[0]), t[1..]);
    }
  }
}
