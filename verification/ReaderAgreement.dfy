/**
 Where `shlex.split` and the shell part: on a line of plain words they give the same words exactly if
 a few escaped symbols do not occur.
 */
module ReaderAgreement {
  import opened Wrappers
  import opened ShellWords

  function Total(ts: seq<Text>): (r: nat) decreases |ts|
  {
    if ts == [] then 0 else |ts[0]| + Total(ts[1..])
  }

  lemma {:induction false} TotalAppend(a: seq<Text>, t: Text)
    ensures Total(a + [t]) == Total(a) + |t|
    decreases |a|
  {
    if a == [] {
      assert a + [t] == [t];
    } else {
      assert (a + [t])[1..] == a[1..] + [t];
      TotalAppend(a[1..], t);
    }
  }

  /** Symbols a reader has kept so far. */
  function Size(l: Lexer): nat
    requires l.Lexer?
  {
    Total(l.out) + |l.token|
  }

  predicate SameButBlank(m: Mode, n: Mode)
  {
    m == n || (m in {Blank, Word} && n in {Blank, Word}) || (m in {Esc(Blank), Esc(Word)} && n in {Esc(Blank), Esc(Word)})
  }

  /** The shell has already kept less than shlex, or has left plain words behind. */
  predicate Parted(sh: Lexer, sx: Lexer)
  {
    sh.Bad? || (sx.Lexer? && SameButBlank(sh.mode, sx.mode) && Size(sh) < Size(sx))
  }

  function Growth(d: Dialect, m: Mode, s: Sym): (n: nat)
  {
    var a := Act(d, m, s);
    if a.Keep? then |a.more| else 0
  }

  lemma StepSize(d: Dialect, l: Lexer, s: Sym)
    requires l.Lexer? && Step(d, l, s).Lexer?
    ensures Size(Step(d, l, s)) == Size(l) + Growth(d, l.mode, s)
  {
    if l.token != [] || l.quoted { TotalAppend(l.out, l.token); }
  }

  function NextMode(d: Dialect, m: Mode, s: Sym): (r: Mode)
  {
    var a := Act(d, m, s);
    if a.Keep? then a.mode else Blank
  }

  lemma ShellKeepsLess(m: Mode, n: Mode, s: Sym)
    requires ModeOk(m) && ModeOk(n) && SameButBlank(m, n) && !Act(Sh, m, s).Reject?
    ensures !Act(Shlex, n, s).Reject? && Growth(Sh, m, s) <= Growth(Shlex, n, s)
    ensures SameButBlank(NextMode(Sh, m, s), NextMode(Shlex, n, s))
  {}

  lemma StillParted(sh: Lexer, sx: Lexer, s: Sym)
    requires Wf(sh) && Wf(sx) && Parted(sh, sx)
    ensures Parted(Step(Sh, sh, s), Step(Shlex, sx, s))
  {
    if sh.Lexer? && !Act(Sh, sh.mode, s).Reject? {
      ShellKeepsLess(sh.mode, sx.mode, s);
      StepSize(Sh, sh, s);
      StepSize(Shlex, sx, s);
    }
  }

  lemma FinishSize(l: Lexer)
    requires Finish(l).Some?
    ensures Total(Finish(l).value) == Total(l.out) + (if l.mode.Word? then |l.token| else 0)
  {
    TotalAppend(l.out, l.token);
  }

  lemma {:induction false} PartedForever(sh: Lexer, sx: Lexer, t: Text)
    requires Wf(sh) && Wf(sx) && Parted(sh, sx)
    ensures Finish(Run(Sh, sh, t)) == None || Finish(Run(Sh, sh, t)) != Finish(Run(Shlex, sx, t))
    decreases |t|
  {
    if t == [] {
      if Finish(sh).Some? && Finish(sx).Some? {
        FinishSize(sh);
        FinishSize(sx);
      }
    } else {
      StepWf(Sh, sh, t[0]);
      StepWf(Shlex, sx, t[0]);
      StillParted(sh, sx, t[0]);
      PartedForever(Step(Sh, sh, t[0]), Step(Shlex, sx, t[0]), t[1..]);
    }
  }

  lemma StepAgreesOrParts(l: Lexer, s: Sym)
    requires Wf(l) && l.Lexer?
    ensures Step(Sh, l, s) == Step(Shlex, l, s) || Parted(Step(Sh, l, s), Step(Shlex, l, s))
  {
    if Step(Sh, l, s).Lexer? {
      StepSize(Sh, l, s);
      StepSize(Shlex, l, s);
    }
  }

  /** Two readers that give the same words have agreed at every symbol. */
  lemma AgreeAtFirst(l: Lexer, t: Text)
    requires Wf(l) && l.Lexer? && t != []
    requires Finish(Run(Sh, l, t)).Some? && Finish(Run(Sh, l, t)) == Finish(Run(Shlex, l, t))
    ensures Step(Sh, l, t[0]) == Step(Shlex, l, t[0])
  {
    StepAgreesOrParts(l, t[0]);
    if Step(Sh, l, t[0]) != Step(Shlex, l, t[0]) {
      StepWf(Sh, l, t[0]);
      StepWf(Shlex, l, t[0]);
      PartedForever(Step(Sh, l, t[0]), Step(Shlex, l, t[0]), t[1..]);
    }
  }

  /** The symbols on which the readers differ although the shell reads on: an escaped line feed,
      and an escaped dollar or backquote inside double quotes. */
  predicate Divergent(m: Mode, s: Sym)
  {
    m.Esc? && (s == C('\n') || (m.back == InQuote('"') && (s == C('$') || s == C('`'))))
  }

  lemma StepDiffers(l: Lexer, s: Sym)
    requires Wf(l) && l.Lexer? && Step(Sh, l, s).Lexer?
    ensures Step(Sh, l, s) == Step(Shlex, l, s) <==> !Divergent(l.mode, s)
  {}

  predicate NoDivergence(l: Lexer, t: Text)
    decreases |t|
  {
    t == [] || l.Bad? || (!Divergent(l.mode, t[0]) && NoDivergence(Step(Sh, l, t[0]), t[1..]))
  }

  lemma {:induction false} AgreeFrom(l: Lexer, t: Text)
    requires Wf(l) && Finish(Run(Sh, l, t)).Some?
    ensures Finish(Run(Sh, l, t)) == Finish(Run(Shlex, l, t)) <==> NoDivergence(l, t)
    decreases |t|
  {
    if l.Bad? {
      BadForever(Sh, t);
    } else if t != [] {
      var l' := Step(Sh, l, t[0]);
      if l'.Bad? { BadForever(Sh, t[1..]); }
      StepWf(Sh, l, t[0]);
      StepDiffers(l, t[0]);
      AgreeFrom(l', t[1..]);
      if Finish(Run(Sh, l, t)) == Finish(Run(Shlex, l, t)) { AgreeAtFirst(l, t); }
    }
  }

  /** On a line of plain words shlex and the shell give the same words exactly if none of those
      symbols occurs. */
  lemma ReadersAgreeExactly(t: Text)
    requires Words(Sh, t).Some?
    ensures Words(Sh, t) == Words(Shlex, t) <==> NoDivergence(START, t)
  {
    AgreeFrom(START, t);
  }
}
