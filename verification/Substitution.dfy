/**
 Filling placeholders in and reading the line commute: if every inserted text is absorbed
 whole where it stands, reading the filled line gives the filled words of the template.
 */
module Substitution {
  import opened Wrappers
  import opened ShellWords
  import opened ReaderAgreement

  /** The reader in mode m with nothing pending beyond what the mode itself implies. */
  function Fresh(m: Mode): (r: Lexer) { Lexer(m, [], AtWord(m), []) }

  function After(m: Mode): (r: Mode) { if m.Esc? then Outside(m.back) else Outside(m) }

  /** What a backslash leaves in front of an ordinary symbol. */
  function Kept(m: Mode): (r: string) { if m.Esc? && m.back.InQuote? then "\\" else "" }

  /** Inserting the text `w` in mode m has the effect of one ordinary symbol worth `v`. */
  predicate Fits(d: Dialect, m: Mode, w: string, v: string)
  {
    var r := Run(d, Fresh(m), Lift(w));
    r.Lexer? && r.out == [] && r.mode == After(m) && r.token == Lift(Kept(m) + v)
  }

  /** Every placeholder of t, read from l on, is absorbed where it stands. */
  predicate HolesFit(d: Dialect, l: Lexer, t: Text, ins: nat -> string, val: nat -> string)
    decreases |t|
  {
    t == [] || l.Bad? ||
    (&& (t[0].P? ==> Fits(d, l.mode, ins(t[0].idx), val(t[0].idx)))
     && HolesFit(d, Step(d, l, t[0]), t[1..], ins, val))
  }

  /** l has read the template, lc the filled line. */
  predicate Related(l: Lexer, lc: Lexer, val: nat -> string)
  {
    && l.Lexer? && lc.Lexer? && lc.mode == l.mode
    && lc.token == Lift(Fill(l.token, val))
    && lc.out == LiftAll(FillAll(l.out, val))
  }

  // ---------------------------------------------------------------- a reader in context

  lemma {:induction false} OutGrows(d: Dialect, l: Lexer, t: Text)
    requires l.Lexer? && Run(d, l, t).Lexer?
    ensures |l.out| <= |Run(d, l, t).out|
    decreases |t|
  {
    if t != [] {
      if Step(d, l, t[0]).Bad? { BadForever(d, t[1..]); }
      OutGrows(d, Step(d, l, t[0]), t[1..]);
    }
  }

  /** A reader that ends no word behaves the same whatever was pending before. */
  lemma {:induction false} InContext(d: Dialect, f: Lexer, l: Lexer, pre: Text, t: Text)
    requires f.Lexer? && l.Lexer? && f.mode == l.mode && l.token == pre + f.token
    requires Wf(f) && Run(d, f, t).Lexer? && f.out == [] == Run(d, f, t).out
    ensures var r := Run(d, l, t);
            r.Lexer? && r.out == l.out && r.mode == Run(d, f, t).mode && r.token == pre + Run(d, f, t).token
    decreases |t|
  {
    if t != [] {
      var f' := Step(d, f, t[0]);
      var l' := Step(d, l, t[0]);
      StepWf(d, f, t[0]);
      if f'.Bad? { BadForever(d, t[1..]); }
      OutGrows(d, f', t[1..]);
      assert Act(d, f.mode, t[0]).Keep?;
      assert l'.token == pre + f'.token;
      InContext(d, f', l', pre, t[1..]);
    }
  }

  lemma FitsInContext(d: Dialect, l: Lexer, w: string, v: string)
    requires Wf(l) && l.Lexer? && Fits(d, l.mode, w, v)
    ensures var r := Run(d, l, Lift(w));
            r.Lexer? && r.out == l.out && r.mode == After(l.mode) && r.token == l.token + Lift(Kept(l.mode) + v)
  {
    assert l.token == l.token + Fresh(l.mode).token;
    InContext(d, Fresh(l.mode), l, l.token, Lift(w));
  }

  // ---------------------------------------------------------------- commutation

  lemma FillEmit(l: Lexer, lc: Lexer, val: nat -> string)
    requires Related(l, lc, val) && Wf(l) && Wf(lc) && l.mode.Word?
    ensures Related(Emit(l), Emit(lc), val)
  {
    assert FillAll(l.out + [l.token], val) == FillAll(l.out, val) + [Fill(l.token, val)];
    assert LiftAll(FillAll(l.out, val) + [Fill(l.token, val)]) == LiftAll(FillAll(l.out, val)) + [Lift(Fill(l.token, val))];
  }

  lemma FillToken(token: Text, more: Text, w: string, val: nat -> string)
    requires Fill(more, val) == w
    ensures Lift(Fill(token + more, val)) == Lift(Fill(token, val)) + Lift(w)
  {
    FillAppend(token, more, val);
    LiftAppend(Fill(token, val), w);
  }

  lemma CharStep(d: Dialect, l: Lexer, lc: Lexer, c: char, val: nat -> string)
    requires Wf(l) && Wf(lc) && Related(l, lc, val) && Step(d, l, C(c)).Lexer?
    ensures Related(Step(d, l, C(c)), Step(d, lc, C(c)), val)
  {
    match Act(d, l.mode, C(c))
    case EndWord => FillEmit(l, lc, val);
    case Keep(more, m, quote) =>
      assert more == Lift(Lower(more));
      FillLift(Lower(more), val);
      FillToken(l.token, more, Lower(more), val);
  }

  lemma HoleStep(d: Dialect, l: Lexer, lc: Lexer, i: nat, w: string, val: nat -> string)
    requires Wf(l) && Wf(lc) && Related(l, lc, val) && Fits(d, l.mode, w, val(i))
    ensures Related(Step(d, l, P(i)), Run(d, lc, Lift(w)), val)
  {
    FitsInContext(d, lc, w, val(i));
    assert Fill([P(i)], val) == val(i);
    FillToken(l.token, [P(i)], val(i), val);
    assert Fill([C('\\'), P(i)], val) == "\\" + val(i) by {
      assert [C('\\'), P(i)][1..] == [P(i)];
    }
    FillToken(l.token, [C('\\'), P(i)], "\\" + val(i), val);
    assert "" + val(i) == val(i);
  }

  lemma {:induction false} Commute(d: Dialect, l: Lexer, lc: Lexer, t: Text, ins: nat -> string, val: nat -> string)
    requires Wf(l) && Wf(lc) && Related(l, lc, val)
    requires HolesFit(d, l, t, ins, val) && Run(d, l, t).Lexer?
    ensures Related(Run(d, l, t), Run(d, lc, Lift(Fill(t, ins))), val)
    decreases |t|
  {
    if t != [] {
      var l' := Step(d, l, t[0]);
      if l'.Bad? { BadForever(d, t[1..]); }
      StepWf(d, l, t[0]);
      var w := if t[0].C? then [t[0].ch] else ins(t[0].idx);
      LiftAppend(w, Fill(t[1..], ins));
      RunAppend(d, lc, Lift(w), Lift(Fill(t[1..], ins)));
      RunWf(d, lc, Lift(w));
      if t[0].C? {
        CharStep(d, l, lc, t[0].ch, val);
        assert Lift(w) == [t[0]];
        RunOne(d, lc, t[0]);
      } else {
        HoleStep(d, l, lc, t[0].idx, w, val);
      }
      Commute(d, l', Run(d, lc, Lift(w)), t[1..], ins, val);
    }
  }

  /** Reading the filled line gives the filled words of the template. */
  lemma WordsCommute(d: Dialect, t: Text, ins: nat -> string, val: nat -> string)
    requires Words(d, t).Some? && HolesFit(d, START, t, ins, val)
    ensures Words(d, Lift(Fill(t, ins))) == Some(LiftAll(FillAll(Words(d, t).value, val)))
  {
    Commute(d, START, START, t, ins, val);
    RunWf(d, START, t);
    RunWf(d, START, Lift(Fill(t, ins)));
    var l := Run(d, START, t);
    var lc := Run(d, START, Lift(Fill(t, ins)));
    if l.mode.Word? { FillEmit(l, lc, val); }
  }

  /** And a template whose reading is left open inside a quotation or an escape leaves the filled line so. */
  lemma OpenStays(d: Dialect, t: Text, ins: nat -> string, val: nat -> string)
    requires Run(d, START, t).Lexer? && Words(d, t).None? && HolesFit(d, START, t, ins, val)
    ensures Words(d, Lift(Fill(t, ins))).None?
  {
    Commute(d, START, START, t, ins, val);
  }

  // ---------------------------------------------------------------- what fits where

  /** Characters shlex.quote leaves as they are. */
  predicate IsSafe(c: char)
  {
    'a' <= c <= 'z' || 'A' <= c <= 'Z' || '0' <= c <= '9' || c in "_@%+=:,./-"
  }

  predicate AllSafe(s: string) { forall i :: 0 <= i < |s| ==> IsSafe(s[i]) }

  /** Python's s.replace("'", "'\"'\"'"). */
  function EscapeSingle(s: string): (r: string) decreases |s|
  {
    if s == "" then "" else (if s[0] == '\'' then "'\"'\"'" else [s[0]]) + EscapeSingle(s[1..])
  }

  /** shlex.quote. */
  function ShlexQuote(s: string): (r: string)
  {
    if s != "" && AllSafe(s) then s else "'" + EscapeSingle(s) + "'"
  }

  /** A character that stands for itself in an unquoted position for this reader. */
  predicate Plain(d: Dialect, c: char)
  {
    !IsSpace(d, c) && c != '\\' && !IsQuote(c) && (d == Sh ==> !IsSpecial(c))
  }

  predicate AllPlain(d: Dialect, s: string) { forall i :: 0 <= i < |s| ==> Plain(d, s[i]) }

  /** A value the shell reads as exactly one word, itself, when it stands alone unquoted. */
  predicate PlainWord(d: Dialect, s: string)
  {
    s != "" && AllPlain(d, s) && (d == Sh ==> !IsSpecialAtStart(s[0]))
  }

  predicate Unquoted(m: Mode) { m.Blank? || m.Word? }

  lemma {:induction false} PlainRun(d: Dialect, l: Lexer, s: string)
    requires l.Lexer? && l.mode.Word? && AllPlain(d, s)
    ensures Run(d, l, Lift(s)) == l.(token := l.token + Lift(s))
    decreases |s|
  {
    if s == "" {
      assert l.token + Lift(s) == l.token;
    } else {
      assert Lift(s)[1..] == Lift(s[1..]);
      PlainRun(d, Step(d, l, C(s[0])), s[1..]);
      assert l.token + [C(s[0])] + Lift(s[1..]) == l.token + Lift(s);
    }
  }

  lemma PlainFits(d: Dialect, m: Mode, s: string)
    requires (m.Word? && AllPlain(d, s)) || (m.Blank? && PlainWord(d, s))
    ensures Fits(d, m, s, s)
  {
    EmptyPrefix(s);
    EmptyPrefix(Lift(s));
    if m.Word? { PlainRun(d, Fresh(m), s); } else { PlainFromBlank(d, s); }
  }

  lemma PlainFromBlank(d: Dialect, s: string)
    requires PlainWord(d, s)
    ensures Run(d, Fresh(Blank), Lift(s)) == Lexer(Word, Lift(s), false, [])
  {
    var l := Lexer(Word, [C(s[0])], false, []);
    EmptyPrefix([C(s[0])]);
    assert Step(d, Fresh(Blank), C(s[0])) == l;
    PlainRun(d, l, s[1..]);
    assert Lift(s) == [C(s[0])] + Lift(s[1..]);
    RunOne(d, Fresh(Blank), C(s[0]));
    RunAppend(d, Fresh(Blank), [C(s[0])], Lift(s[1..]));
  }

  /** `'"'"'` inside single quotes: close, one double-quoted single quote, open again. */
  lemma SpliceRun(d: Dialect, l: Lexer)
    requires l.Lexer? && l.mode == InQuote('\'')
    ensures var r := Run(d, l, Lift("'\"'\"'"));
            r.Lexer? && r.mode == l.mode && r.out == l.out && r.token == l.token + [C('\'')]
  {
    var t := Lift("'\"'\"'");
    var l1 := Step(d, l, t[0]);
    var l2 := Step(d, l1, t[1]);
    var l3 := Step(d, l2, t[2]);
    var l4 := Step(d, l3, t[3]);
    assert l2.mode == InQuote('"') && l3.token == l.token + [C('\'')] && l4.mode == Word;
    calc {
      Run(d, l, t);
      { assert t[1..][0] == t[1] && t[1..][1..] == t[2..]; }
      Run(d, l2, t[2..]);
      { assert t[2..][0] == t[2] && t[2..][1..] == t[3..]; }
      Run(d, l3, t[3..]);
      { assert t[3..][0] == t[3] && t[3..][1..] == t[4..]; }
      Run(d, l4, t[4..]);
      { assert t[4..][0] == t[4] && t[4..][1..] == []; }
      Step(d, l4, t[4]);
    }
  }

  /** One escaped character, read inside single quotes. */
  lemma EscapedStep(d: Dialect, l: Lexer, c: char) returns (w: string, mid: Lexer)
    requires l.Lexer? && l.mode == InQuote('\'')
    ensures w == (if c == '\'' then "'\"'\"'" else [c]) && mid == Run(d, l, Lift(w))
    ensures mid.Lexer? && mid.mode == l.mode && mid.out == l.out && mid.token == l.token + [C(c)]
  {
    w := if c == '\'' then "'\"'\"'" else [c];
    mid := Run(d, l, Lift(w));
    if c == '\'' {
      SpliceRun(d, l);
    } else {
      assert Lift(w) == [C(c)];
      RunOne(d, l, C(c));
    }
  }

  /** From inside single quotes, the escaped text puts back exactly the value. */
  lemma {:induction false} EscapedRun(d: Dialect, l: Lexer, s: string)
    requires l.Lexer? && l.mode == InQuote('\'')
    ensures var r := Run(d, l, Lift(EscapeSingle(s)));
            r.Lexer? && r.mode == l.mode && r.out == l.out && r.token == l.token + Lift(s)
    decreases |s|
  {
    if s == "" {
      assert Lift(s) == [] && l.token + [] == l.token;
    } else {
      var w, mid := EscapedStep(d, l, s[0]);
      var rest := EscapeSingle(s[1..]);
      assert EscapeSingle(s) == w + rest;
      LiftAppend(w, rest);
      RunAppend(d, l, Lift(w), Lift(rest));
      EscapedRun(d, mid, s[1..]);
      TokenMore(l.token, s);
    }
  }

  lemma TokenMore(t: Text, s: string)
    requires s != ""
    ensures t + [C(s[0])] + Lift(s[1..]) == t + Lift(s)
  {
    assert Lift(s) == [C(s[0])] + Lift(s[1..]);
    Assoc(t, [C(s[0])], Lift(s[1..]));
  }

  lemma QuotedRun(d: Dialect, m: Mode, s: string)
    requires Unquoted(m)
    ensures Fits(d, m, "'" + EscapeSingle(s) + "'", s)
  {
    var f := Fresh(m);
    RunThree(d, f, "'", EscapeSingle(s), "'");
    OpenQuote(d, f);
    var inner := Run(d, f, Lift("'"));
    EscapedRun(d, inner, s);
    CloseQuote(d, Run(d, inner, Lift(EscapeSingle(s))));
    EmptyPrefix(Lift(s));
    EmptyPrefix(s);
  }

  lemma OpenQuote(d: Dialect, l: Lexer)
    requires l.Lexer? && Unquoted(l.mode)
    ensures var r := Run(d, l, Lift("'")); r.Lexer? && r.mode == InQuote('\'') && r.token == l.token && r.out == l.out
  {
    Apostrophe(d, l);
    EmptyPrefix(l.token);
  }

  lemma CloseQuote(d: Dialect, l: Lexer)
    requires l.Lexer? && l.mode == InQuote('\'')
    ensures var r := Run(d, l, Lift("'")); r.Lexer? && r.mode == Word && r.token == l.token && r.out == l.out
  {
    Apostrophe(d, l);
    EmptyPrefix(l.token);
  }

  lemma RunThree(d: Dialect, l: Lexer, a: string, b: string, c: string)
    ensures Run(d, l, Lift(a + b + c)) == Run(d, Run(d, Run(d, l, Lift(a)), Lift(b)), Lift(c))
  {
    LiftAppend(a + b, c);
    LiftAppend(a, b);
    RunAppend(d, l, Lift(a + b), Lift(c));
    RunAppend(d, l, Lift(a), Lift(b));
  }

  lemma Apostrophe(d: Dialect, l: Lexer)
    requires l.Lexer?
    ensures Run(d, l, Lift("'")) == Step(d, l, C('\''))
  {
    assert Lift("'") == [C('\'')];
    RunOne(d, l, C('\''));
  }

  lemma QuoteCases(s: string)
    ensures ShlexQuote(s) == if s != "" && AllSafe(s) then s else "'" + EscapeSingle(s) + "'"
  {}

  /** Every value whatsoever survives shlex.quote in an unquoted position. */
  lemma QuoteFits(d: Dialect, m: Mode, s: string)
    requires Unquoted(m)
    ensures Fits(d, m, ShlexQuote(s), s)
  {
    QuoteCases(s);
    if s != "" && AllSafe(s) {
      SafeIsPlain(d, s);
      PlainFits(d, m, s);
    } else {
      QuotedRun(d, m, s);
    }
  }

  lemma SafeIsPlain(d: Dialect, s: string)
    requires s != "" && AllSafe(s)
    ensures AllPlain(d, s) && PlainWord(d, s)
  {
    forall i | 0 <= i < |s| ensures Plain(d, s[i]) && !IsSpecialAtStart(s[i]) { SafeChar(d, s[i]); }
  }

  lemma SafeChar(d: Dialect, c: char)
    requires IsSafe(c)
    ensures Plain(d, c) && !IsSpecialAtStart(c)
  {}

  /** Which characters a quotation passes through unchanged. */
  predicate InertIn(d: Dialect, q: char, s: string)
  {
    forall i :: 0 <= i < |s| ==> s[i] != q && (q == '"' ==> s[i] != '\\' && (d == Sh ==> s[i] != '$' && s[i] != '`'))
  }

  lemma InertStep(d: Dialect, l: Lexer, c: char)
    requires l.Lexer? && l.mode.InQuote? && InertIn(d, l.mode.q, [c])
    ensures var r := Step(d, l, C(c)); r.Lexer? && r.mode == l.mode && r.out == l.out && r.token == l.token + [C(c)]
  {
    assert InertIn(d, l.mode.q, [c]) && [c][0] == c;
  }

  lemma {:induction false} InertFits(d: Dialect, l: Lexer, s: string)
    requires l.Lexer? && l.mode.InQuote? && InertIn(d, l.mode.q, s)
    ensures var r := Run(d, l, Lift(s)); r.Lexer? && r.mode == l.mode && r.out == l.out && r.token == l.token + Lift(s)
    decreases |s|
  {
    if s == "" {
      assert l.token + Lift(s) == l.token;
    } else {
      InertStep(d, l, s[0]);
      var next := Step(d, l, C(s[0]));
      assert Lift(s)[0] == C(s[0]) && Lift(s)[1..] == Lift(s[1..]);
      InertFits(d, next, s[1..]);
      TokenMore(l.token, s);
    }
  }

  lemma InQuoteFits(d: Dialect, q: char, s: string)
    requires IsQuote(q) && InertIn(d, q, s)
    ensures Fits(d, InQuote(q), s, s)
  {
    InertFits(d, Fresh(InQuote(q)), s);
    assert Kept(InQuote(q)) + s == s;
  }

  /** Only words of letters, digits, underscores and a few signs are left unquoted. */
  lemma LeftUnquoted(s: string)
    ensures ShlexQuote(s) == s <==>
              s != "" && forall i :: 0 <= i < |s| ==>
                s[i] in "_@%+=:,./-" || '0' <= s[i] <= '9' || 'A' <= s[i] <= 'Z' || 'a' <= s[i] <= 'z'
  {
    if s == "" || !AllSafe(s) { EscapeGrows(s); }
  }

  lemma {:induction false} EscapeGrows(s: string)
    ensures |EscapeSingle(s)| >= |s|
    decreases |s|
  {
    if s != "" { EscapeGrows(s[1..]); }
  }

  // ---------------------------------------------------------------- what the readers do with quotes

  /** What a backslash can take the meaning off inside double quotes: itself and the quote, and for the shell
      the beginnings of substitutions. */
  predicate Meaningful(d: Dialect, c: char) { c == '"' || c == '\\' || (d == Sh && (c == '$' || c == '`')) }

  function EscapeDouble(d: Dialect, s: string): (r: string)
    decreases |s|
  {
    if s == "" then "" else (if Meaningful(d, s[0]) then ['\\', s[0]] else [s[0]]) + EscapeDouble(d, s[1..])
  }

  lemma DoubleStep(d: Dialect, l: Lexer, c: char) returns (w: string, mid: Lexer)
    requires l.Lexer? && l.mode == InQuote('"')
    ensures w == (if Meaningful(d, c) then ['\\', c] else [c]) && mid == Run(d, l, Lift(w))
    ensures mid.Lexer? && mid.mode == l.mode && mid.out == l.out && mid.token == l.token + [C(c)]
  {
    w := if Meaningful(d, c) then ['\\', c] else [c];
    mid := Run(d, l, Lift(w));
    if Meaningful(d, c) {
      assert Lift(w) == [C('\\')] + [C(c)];
      RunAppend(d, l, [C('\\')], [C(c)]);
      RunOne(d, l, C('\\'));
      RunOne(d, Step(d, l, C('\\')), C(c));
      EmptyPrefix(l.token);
    } else {
      assert Lift(w) == [C(c)];
      RunOne(d, l, C(c));
    }
  }

  lemma {:induction false} DoubleRun(d: Dialect, l: Lexer, s: string)
    requires l.Lexer? && l.mode == InQuote('"')
    ensures var r := Run(d, l, Lift(EscapeDouble(d, s)));
            r.Lexer? && r.mode == l.mode && r.out == l.out && r.token == l.token + Lift(s)
    decreases |s|
  {
    if s == "" {
      assert Lift(s) == [] && l.token + [] == l.token;
    } else {
      var w, mid := DoubleStep(d, l, s[0]);
      var rest := EscapeDouble(d, s[1..]);
      assert EscapeDouble(d, s) == w + rest;
      LiftAppend(w, rest);
      RunAppend(d, l, Lift(w), Lift(rest));
      DoubleRun(d, mid, s[1..]);
      TokenMore(l.token, s);
    }
  }

  /** Any text at all can be written in double quotes, and both readers then read it as one word. */
  lemma DoubleQuotesRead(d: Dialect, s: string)
    ensures Words(d, Lift("\"" + EscapeDouble(d, s) + "\"")) == Some([Lift(s)])
  {
    var q := "\"";
    RunThree(d, START, q, EscapeDouble(d, s), q);
    assert Lift(q) == [C('"')];
    RunOne(d, START, C('"'));
    var inner := Run(d, START, Lift(q));
    DoubleRun(d, inner, s);
    var last := Run(d, inner, Lift(EscapeDouble(d, s)));
    RunOne(d, last, C('"'));
    EmptyPrefix(Lift(s));
    EmptyPrefix([Lift(s)]);
  }

  /** The shell finds more than words at an operator, a substitution, a pattern or the end of a line, and at a
      comment or a tilde where a word starts. */
  lemma SpecialStops(c: char, rest: Text)
    requires c in "|&;<>()$`*?[\n#~"
    ensures Words(Sh, [C(c)] + rest).None?
  {
    assert ([C(c)] + rest)[1..] == rest;
    BadForever(Sh, rest);
  }

  /** Inside double quotes it still finds substitutions. */
  lemma SubstitutionStops(c: char, rest: Text)
    requires c in "$`"
    ensures Words(Sh, [C('"')] + ([C(c)] + rest)).None?
  {
    var t := [C(c)] + rest;
    var l := Step(Sh, START, C('"'));
    RunAppend(Sh, START, [C('"')], t);
    RunOne(Sh, START, C('"'));
    RunAppend(Sh, l, [C(c)], rest);
    RunOne(Sh, l, C(c));
    BadForever(Sh, rest);
  }

  /** Single quotes hide everything but their own end. */
  lemma SingleQuotesHide(c: char)
    requires c != '\''
    ensures Words(Sh, [C('\'')] + ([C(c)] + [C('\'')])) == Some([[C(c)]])
  {
    var q := "'";
    RunThree(Sh, START, q, [c], q);
    assert Lift(q) == [C('\'')] && Lift([c]) == [C(c)] && Lift(q + [c] + q) == [C('\'')] + ([C(c)] + [C('\'')]);
    OpenQuote(Sh, START);
    var inner := Run(Sh, START, Lift(q));
    RunOne(Sh, inner, C(c));
    CloseQuote(Sh, Run(Sh, inner, Lift([c])));
    EmptyPrefix([C(c)]);
    EmptyPrefix([[C(c)]]);
  }

  // ---------------------------------------------------------------- exactness

  /** A reader never keeps more symbols than it reads; a space, quote, escape or special
      character in the text makes it keep strictly fewer. */
  lemma {:induction false} NeverMore(d: Dialect, l: Lexer, s: string)
    requires Wf(l) && l.Lexer? && Run(d, l, Lift(s)).Lexer?
    ensures Size(Run(d, l, Lift(s))) + (if Run(d, l, Lift(s)).mode.Esc? then 1 else 0)
            <= Size(l) + (if l.mode.Esc? then 1 else 0) + |s|
    decreases |s|
  {
    if s != "" {
      assert Lift(s)[1..] == Lift(s[1..]);
      var l' := Step(d, l, C(s[0]));
      if l'.Bad? { BadForever(d, Lift(s[1..])); }
      StepWf(d, l, C(s[0]));
      StepSize(d, l, C(s[0]));
      NeverMore(d, l', s[1..]);
    }
  }

  lemma {:induction false} LossIsFinal(d: Dialect, l: Lexer, s: string)
    requires Wf(l) && l.Lexer? && Unquoted(l.mode) && Run(d, l, Lift(s)).Lexer? && Finish(Run(d, l, Lift(s))).Some?
    requires Size(Run(d, l, Lift(s))) == Size(l) + |s|
    ensures AllPlain(d, s)
    decreases |s|
  {
    if s != "" {
      assert Lift(s)[1..] == Lift(s[1..]);
      var l' := Step(d, l, C(s[0]));
      if l'.Bad? { BadForever(d, Lift(s[1..])); }
      StepWf(d, l, C(s[0]));
      StepSize(d, l, C(s[0]));
      NeverMore(d, l', s[1..]);
      if Plain(d, s[0]) {
        LossIsFinal(d, l', s[1..]);
      } else if s[0] == '\\' {
        EscapeLoses(d, l', s[1..]);
        assert false;
      } else {
        assert false;
      }
    }
  }

  /** After an unquoted backslash one symbol is lost for good. */
  lemma EscapeLoses(d: Dialect, l: Lexer, s: string)
    requires Wf(l) && l.Lexer? && l.mode in {Esc(Blank), Esc(Word)}
    requires Run(d, l, Lift(s)).Lexer? && Finish(Run(d, l, Lift(s))).Some?
    ensures Size(Run(d, l, Lift(s))) < Size(l) + 1 + |s|
  {
    if s != "" {
      assert Lift(s)[1..] == Lift(s[1..]);
      var l' := Step(d, l, C(s[0]));
      StepWf(d, l, C(s[0]));
      StepSize(d, l, C(s[0]));
      NeverMore(d, l', s[1..]);
    }
  }

  /** The [REVIEW] case of the converter: an argument that is one bare placeholder.  The
      shell passes the value on as one argument exactly when it is a plain word. */
  lemma BareWordExact(d: Dialect, v: string)
    ensures Words(d, Lift(v)) == Some([Lift(v)]) <==> PlainWord(d, v)
  {
    if PlainWord(d, v) {
      PlainFits(d, Blank, v);
      assert Kept(Blank) + v == v && |Lift(v)| == |v|;
      assert [] + [Lift(v)] == [Lift(v)];
    }
    if Words(d, Lift(v)) == Some([Lift(v)]) {
      var l := Run(d, START, Lift(v));
      RunWf(d, START, Lift(v));
      FinishSize(l);
      assert Total([Lift(v)]) == |v| by { assert [Lift(v)][1..] == []; }
      LossIsFinal(d, START, v);
      assert v != "";
      if d == Sh && IsSpecialAtStart(v[0]) {
        assert Lift(v)[0] == C(v[0]);
        BadForever(d, Lift(v)[1..]);
        assert false;
      }
    }
  }
}
