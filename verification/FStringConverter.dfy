/**
 The converter's half of the translation: an f-string becomes a template with NUL-delimited
 sentinels, the template becomes tokens, the tokens become an argument list in source form.
 */
module FStringConverter {
  import opened Wrappers
  import opened ShellWords
  import opened ReaderAgreement
  import opened Substitution
  import PathNorm

  // ---------------------------------------------------------------- sentinels

  const NUL := '\0'

  function Sent(i: nat): (s: string) { [NUL] + Decimal(i) + [NUL] }

  function DigitRun(s: string): (k: nat)
    ensures k <= |s| && (forall i :: 0 <= i < k ==> IsDigit(s[i])) && (k < |s| ==> !IsDigit(s[k]))
    decreases |s|
  {
    if s == "" || !IsDigit(s[0]) then 0 else 1 + DigitRun(s[1..])
  }

  /** Length of a match of the sentinel pattern at the head of s, or 0. */
  function MatchLength(s: string): (k: nat)
    ensures k == 0 || (3 <= k <= |s| && forall i :: 1 <= i < k - 1 ==> IsDigit(s[i]))
  {
    if s == "" || s[0] != NUL then 0 else
    var k := DigitRun(s[1..]);
    if k > 0 && 1 + k < |s| && s[1 + k] == NUL then k + 2 else 0
  }

  /** The leftmost, non-overlapping matches of the sentinel pattern, with the text between. */
  function Decode(s: string): (t: Text)
    decreases |s|
  {
    if s == "" then [] else
    var k := MatchLength(s);
    if k > 0 then [P(NatOf(s[1..k - 1]))] + Decode(s[k..]) else [C(s[0])] + Decode(s[1..])
  }

  predicate Tame(s: Sym, n: nat) { if s.C? then s.ch != NUL else s.idx < n }

  predicate AllTame(t: Text, n: nat) { forall i :: 0 <= i < |t| ==> Tame(t[i], n) }

  lemma MatchSentinel(i: nat, rest: string)
    ensures MatchLength(Sent(i) + rest) == |Sent(i)| && NatOf((Sent(i) + rest)[1..|Sent(i)| - 1]) == i
  {
    var s := Sent(i) + rest;
    var k := DigitRun(s[1..]);
    assert forall j :: 0 <= j < |Decimal(i)| ==> s[1..][j] == Decimal(i)[j];
    assert s[1..][|Decimal(i)|] == NUL;
    assert k == |Decimal(i)| by {
      assert IsDigit(Decimal(i)[if k < |Decimal(i)| then k else 0]);
    }
    assert s[1..|Sent(i)| - 1] == Decimal(i);
    NatOfDecimal(i);
  }

  /** No literal NUL begins a match of the sentinel pattern. */
  predicate Unforged(t: Text)
    decreases |t|
  {
    t == [] || ((t[0] == C(NUL) ==> MatchLength(Fill(t, Sent)) == 0) && Unforged(t[1..]))
  }

  /** The sentinels are decodable exactly if no literal text forges one. */
  lemma {:induction false} DecodeExact(t: Text)
    ensures Decode(Fill(t, Sent)) == t <==> Unforged(t)
    decreases |t|
  {
    if t != [] {
      var rest := Fill(t[1..], Sent);
      DecodeExact(t[1..]);
      if t[0].C? { DecodeChar(t[0].ch, rest); } else { DecodeSentinel(t[0].idx, rest); }
      if MatchLength(Fill(t, Sent)) == 0 || t[0].P? { DecodedHead(t[0], Decode(rest), t); }
    }
  }

  lemma DecodeChar(c: char, rest: string)
    ensures MatchLength([c] + rest) == 0 ==> Decode([c] + rest) == [C(c)] + Decode(rest)
    ensures MatchLength([c] + rest) > 0 ==> c == NUL && Decode([c] + rest) != [] && Decode([c] + rest)[0].P?
  {
    assert ([c] + rest)[1..] == rest;
  }

  lemma DecodeSentinel(i: nat, rest: string)
    ensures Decode(Sent(i) + rest) == [P(i)] + Decode(rest)
  {
    MatchSentinel(i, rest);
    assert (Sent(i) + rest)[|Sent(i)|..] == rest;
  }

  lemma DecodedHead(x: Sym, d: Text, t: Text)
    requires t != [] && t[0] == x
    ensures [x] + d == t <==> d == t[1..]
  {
    if [x] + d == t { assert ([x] + d)[1..] == d; }
  }

  lemma {:induction false} TameUnforged(t: Text, n: nat)
    requires AllTame(t, n)
    ensures Unforged(t)
    decreases |t|
  {
    if t != [] {
      assert Tame(t[0], n);
      TameUnforged(t[1..], n);
    }
  }

  /** So they are uniquely decodable when the literal text holds no NUL. */
  lemma DecodeSentinels(t: Text, n: nat)
    requires AllTame(t, n)
    ensures Decode(Fill(t, Sent)) == t
  {
    TameUnforged(t, n);
    DecodeExact(t);
  }

  /** Literal text can forge a sentinel. */
  lemma NulForges()
    ensures Fill([C(NUL), C('0'), C(NUL)], Sent) == Fill([P(0)], Sent)
  {
    assert [C(NUL), C('0'), C(NUL)][1..] == [C('0'), C(NUL)] && [C('0'), C(NUL)][1..] == [C(NUL)];
    assert Fill([C(NUL)], Sent) == [NUL] && Fill([C('0'), C(NUL)], Sent) == ['0', NUL];
    assert Fill([P(0)], Sent) == Sent(0) == [NUL, '0', NUL];
  }

  // ---------------------------------------------------------------- the f-string

  /** An expression node: a call `recv.attr(args)`, or anything else.  `src` is its source
      segment, which the parser may fail to give. */
  datatype Expr =
    | Call(recv: string, attr: string, args: seq<Expr>, src: Option<string>)
    | Other(src: Option<string>)

  /** A piece of an f-string; `converted`: it carries a conversion or a format spec. */
  datatype Part = Literal(text: string) | Hole(expr: Expr, converted: bool) | Strange

  predicate IsQuoteCall(e: Expr)
  {
    e.Call? && e.attr == "quote" && |e.args| == 1 && (e.recv == "shlex" || e.recv == "pipes")
  }

  /** The expression whose value becomes the argument. */
  function Unwrap(e: Expr): (r: Expr) { if IsQuoteCall(e) then e.args[0] else e }

  /** text: literals and placeholders; exprs[i]: source of placeholder i; quoted[i]: it was
      wrapped in shlex.quote. */
  datatype Template = Template(text: Text, exprs: seq<string>, quoted: seq<bool>)

  function TemplateOf(parts: seq<Part>): (r: Option<Template>)
    ensures r.Some? ==> |r.value.exprs| == |r.value.quoted|
    decreases |parts|
  {
    if parts == [] then Some(Template([], [], [])) else
    match TemplateOf(parts[..|parts| - 1])
    case None => None
    case Some(t) =>
      match parts[|parts| - 1]
      case Literal(s) => Some(t.(text := t.text + Lift(s)))
      case Strange => None
      case Hole(e, converted) =>
        if converted || Unwrap(e).src.None? then None
        else Some(Template(t.text + [P(|t.exprs|)], t.exprs + [Unwrap(e).src.value], t.quoted + [IsQuoteCall(e)]))
  }

  lemma {:induction false} TemplateNonePrefix(parts: seq<Part>, k: nat)
    requires k <= |parts| && TemplateOf(parts[..k]).None?
    ensures TemplateOf(parts).None?
    decreases |parts| - k
  {
    if k == |parts| {
      assert parts[..k] == parts;
    } else {
      assert parts[..k + 1][..|parts[..k + 1]| - 1] == parts[..k];
      TemplateNonePrefix(parts, k + 1);
    }
  }

  function Join(pieces: seq<string>): (r: string) decreases |pieces|
  {
    if pieces == [] then "" else Join(pieces[..|pieces| - 1]) + pieces[|pieces| - 1]
  }

  method BuildTemplate(parts: seq<Part>) returns (r: Option<(string, seq<string>)>)
    ensures r.Some? <==> TemplateOf(parts).Some?
    ensures r.Some? ==> r.value == (Fill(TemplateOf(parts).value.text, Sent), TemplateOf(parts).value.exprs)
  {
    var pieces: seq<string>, exprs: seq<string> := [], [];
    for i := 0 to |parts|
      invariant TemplateOf(parts[..i]).Some? && TemplateOf(parts[..i]).value.exprs == exprs
      invariant Join(pieces) == Fill(TemplateOf(parts[..i]).value.text, Sent)
    {
      assert parts[..i + 1][..|parts[..i + 1]| - 1] == parts[..i];
      ghost var text := TemplateOf(parts[..i]).value.text;
      var piece: string;
      match parts[i] {
        case Literal(s) =>
          piece := s;
          FillAppend(text, Lift(s), Sent);
          FillLift(s, Sent);
        case Hole(e, converted) =>
          if converted {
            TemplateNonePrefix(parts, i + 1);
            return None;
          }
          var expr := Unwrap(e);
          if expr.src.None? {
            TemplateNonePrefix(parts, i + 1);
            return None;
          }
          piece := Sent(|exprs|);
          FillAppend(text, [P(|exprs|)], Sent);
          assert Fill([P(|exprs|)], Sent) == Sent(|exprs|);
          exprs := exprs + [expr.src.value];
        case Strange =>
          TemplateNonePrefix(parts, i + 1);
          return None;
      }
      assert (pieces + [piece])[..|pieces|] == pieces;
      pieces := pieces + [piece];
    }
    assert parts[..|parts|] == parts;
    return Some((Join(pieces), exprs));
  }

  // ---------------------------------------------------------------- tokens to arguments

  /** A symbol of a rebuilt f-string: one literal character, or `{expr}`. */
  datatype FSym = Ch(c: char) | Brace(expr: string)

  /** Source of one list element: a string literal, an expression, or an f-string. */
  datatype Arg = Lit(text: string) | Src(expr: string) | FStr(body: seq<FSym>)

  predicate HasHole(t: Text) { exists i :: 0 <= i < |t| && t[i].P? }

  predicate InRange(t: Text, n: nat) { forall i :: 0 <= i < |t| && t[i].P? ==> t[i].idx < n }

  function Body(t: Text, exprs: seq<string>): (r: seq<FSym>)
    requires InRange(t, |exprs|)
    ensures |r| == |t|
    ensures forall i :: 0 <= i < |t| ==> r[i] == if t[i].C? then Ch(t[i].ch) else Brace(exprs[t[i].idx])
  {
    seq(|t|, i requires 0 <= i < |t| => if t[i].C? then Ch(t[i].ch) else Brace(exprs[t[i].idx]))
  }

  /** None: a sentinel number without an expression (an IndexError in the source). */
  function ArgOf(tok: string, exprs: seq<string>): (r: Option<Arg>)
  {
    var t := Decode(tok);
    if !HasHole(t) then Some(Lit(tok))
    else if !InRange(t, |exprs|) then None
    else if |t| == 1 then Some(Src(exprs[t[0].idx]))
    else Some(FStr(Body(t, exprs)))
  }

  method TokensToArgv(toks: seq<string>, exprs: seq<string>) returns (r: Option<seq<Arg>>)
    ensures r.Some? <==> forall i :: 0 <= i < |toks| ==> ArgOf(toks[i], exprs).Some?
    ensures r.Some? ==> |r.value| == |toks| && forall i :: 0 <= i < |toks| ==> Some(r.value[i]) == ArgOf(toks[i], exprs)
  {
    var argv: seq<Arg> := [];
    for i := 0 to |toks|
      invariant |argv| == i && forall j :: 0 <= j < i ==> Some(argv[j]) == ArgOf(toks[j], exprs)
    {
      var a := ArgOf(toks[i], exprs);
      if a.None? { return None; }
      argv := argv + [a.value];
    }
    return Some(argv);
  }

  function ShlexSplit(s: string): (r: Option<seq<string>>)
  {
    match Words(Shlex, Lift(s)) case None => None case Some(ws) => Some(LowerAll(ws))
  }

  /** What the converter refuses to touch: substitutions, pipes, lists, redirections, `cd`. */
  predicate Refused(t: string)
  {
    || Contains("$(", t) || '`' in t || Contains("&&", t) || '|' in t || ';' in t
    || StartsWith(t, "cd ") || '>' in t || '<' in t
  }

  /** The words that hint at a privileged command, and the privileged binaries. */
  datatype Tools = Tools(hints: seq<string>, bins: set<string>)

  predicate Hinted(tools: Tools, t: string) { exists i :: 0 <= i < |tools.hints| && Contains(tools.hints[i], t) }

  /** argv is the argument list for the command template `cmd`: its head is a literal privileged binary. */
  ghost predicate IsArgv(cmd: string, exprs: seq<string>, bins: set<string>, argv: seq<Arg>)
  {
    && ShlexSplit(cmd).Some?
    && var toks := ShlexSplit(cmd).value;
    && toks != [] && !HasHole(Decode(toks[0])) && PathNorm.Name(toks[0]) in bins
    && |argv| == |toks| && forall i :: 0 <= i < |toks| ==> ArgOf(toks[i], exprs) == Some(argv[i])
  }

  method ArgvOf(cmd: string, exprs: seq<string>, bins: set<string>) returns (r: Option<seq<Arg>>)
    ensures r.Some? ==> IsArgv(cmd, exprs, bins, r.value)
    ensures r.None? ==> forall argv :: !IsArgv(cmd, exprs, bins, argv)
  {
    var toks := ShlexSplit(cmd);
    if toks.None? || toks.value == [] { return None; }
    if HasHole(Decode(toks.value[0])) { return None; }
    if PathNorm.Name(toks.value[0]) !in bins { return None; }
    r := TokensToArgv(toks.value, exprs);
    if r.None? {
      var k :| 0 <= k < |toks.value| && ArgOf(toks.value[k], exprs).None?;
    }
  }

  /** argv is the plan for the f-string `parts`. */
  ghost predicate IsPlan(parts: seq<Part>, tools: Tools, argv: seq<Arg>)
  {
    && TemplateOf(parts).Some?
    && var t := TemplateOf(parts).value;
    && var tmpl := Fill(t.text, Sent);
    && Hinted(tools, tmpl) && !Refused(tmpl) && IsArgv(tmpl, t.exprs, tools.bins, argv)
  }

  method PlanOne(parts: seq<Part>, tools: Tools) returns (r: Option<seq<Arg>>)
    ensures r.Some? ==> IsPlan(parts, tools, r.value)
    ensures r.None? ==> forall argv :: !IsPlan(parts, tools, argv)
  {
    var built := BuildTemplate(parts);
    if built.None? { return None; }
    var (tmpl, exprs) := built.value;
    if !Hinted(tools, tmpl) { return None; }
    if Refused(tmpl) { return None; }
    r := ArgvOf(tmpl, exprs, tools.bins);
  }

  // ---------------------------------------------------------------- cutting a template

  /** Neither NUL nor a digit: no part of a sentinel. */
  predicate Clean(s: string) { forall i :: 0 <= i < |s| ==> s[i] != NUL && !IsDigit(s[i]) }

  lemma SentinelInside(i: nat, rest: string, a: string, c: char, b: string)
    requires Sent(i) + rest == a + ([c] + b) && c != NUL && !IsDigit(c)
    ensures |Sent(i)| <= |a| && a == Sent(i) + a[|Sent(i)|..] && rest == a[|Sent(i)|..] + ([c] + b)
  {
    var s, n, z := Sent(i), |Sent(i)|, a + ([c] + b);
    assert forall k :: 0 <= k < n ==> z[k] == s[k] && (s[k] == NUL || IsDigit(s[k]));
    assert z[|a|] == c;
    assert (s + rest)[..n] == s && z[..n] == a[..n];
    assert (s + rest)[n..] == rest && z[n..] == a[n..] + ([c] + b);
  }

  function Shown(s: Sym): (r: string) { if s.C? then [s.ch] else Sent(s.idx) }

  /** A template whose text is cut at such a character is cut there itself. */
  lemma {:induction false} CutAt(t: Text, a: string, c: char, b: string) returns (x: Text, y: Text)
    requires Fill(t, Sent) == a + ([c] + b) && c != NUL && !IsDigit(c)
    ensures t == x + ([C(c)] + y) && Fill(x, Sent) == a && Fill(y, Sent) == b
    decreases |t|
  {
    assert Fill(t, Sent) != "";
    var head, rest := Shown(t[0]), Fill(t[1..], Sent);
    if t[0].C? && a == "" {
      CutHere(t, c, b);
      x, y := [], t[1..];
    } else {
      if t[0].P? { SentinelInside(t[0].idx, rest, a, c, b); } else { CharInside(t[0].ch, rest, a, c, b); }
      x, y := CutAt(t[1..], a[|head|..], c, b);
      x := Consed(t, x, [C(c)] + y);
    }
  }

  lemma CharInside(d: char, rest: string, a: string, c: char, b: string)
    requires [d] + rest == a + ([c] + b) && a != ""
    ensures a == [d] + a[1..] && rest == a[1..] + ([c] + b)
  {
    var z := a + ([c] + b);
    assert z[0] == a[0] && z[1..] == a[1..] + ([c] + b);
    assert ([d] + rest)[0] == d && ([d] + rest)[1..] == rest;
  }

  lemma CutHere(t: Text, c: char, b: string)
    requires t != [] && t[0].C? && Fill(t, Sent) == "" + ([c] + b)
    ensures t == [] + ([C(c)] + t[1..]) && Fill(t[1..], Sent) == b
  {
    var rest := Fill(t[1..], Sent);
    assert Fill(t, Sent) == [t[0].ch] + rest == [c] + b;
    assert ([t[0].ch] + rest)[0] == t[0].ch && ([c] + b)[0] == c;
    assert ([t[0].ch] + rest)[1..] == rest && ([c] + b)[1..] == b;
    assert t == [t[0]] + t[1..];
  }

  lemma Consed(t: Text, x: Text, z: Text) returns (x': Text)
    requires t != [] && t[1..] == x + z
    ensures x' == [t[0]] + x && t == x' + z && Fill(x', Sent) == Shown(t[0]) + Fill(x, Sent)
  {
    x' := [t[0]] + x;
    assert t == [t[0]] + t[1..];
    Assoc([t[0]], x, z);
    assert x'[1..] == x;
  }

  /** What a template starts with, ... */
  lemma {:induction false} CutFront(t: Text, w: string, b: string) returns (y: Text)
    requires Fill(t, Sent) == w + b && Clean(w)
    ensures t == Lift(w) + y && Fill(y, Sent) == b
    decreases |w|
  {
    if w == "" {
      assert w + b == b;
      y := t;
      assert Lift(w) + y == y;
    } else {
      HeadApart(w, b);
      var x, z := CutAt(t, "", w[0], w[1..] + b);
      NoText(x);
      assert t == [C(w[0])] + z;
      y := CutFront(z, w[1..], b);
      LiftHead(w);
      Assoc([C(w[0])], Lift(w[1..]), y);
    }
  }

  lemma HeadApart(w: string, b: string)
    requires w != ""
    ensures w + b == [w[0]] + (w[1..] + b) == "" + ([w[0]] + (w[1..] + b))
  {
    assert w == [w[0]] + w[1..];
  }

  lemma LiftHead(w: string)
    requires w != ""
    ensures Lift(w) == [C(w[0])] + Lift(w[1..])
  {}

  lemma NoText(x: Text)
    requires Fill(x, Sent) == ""
    ensures x == []
  {}

  /** ... what it ends with, ... */
  lemma CutBack(t: Text, a: string, w: string) returns (x: Text)
    requires Fill(t, Sent) == a + w && Clean(w)
    ensures t == x + Lift(w) && Fill(x, Sent) == a
  {
    if w == "" {
      assert a + w == a;
      x := t;
      assert x + Lift(w) == x;
    } else {
      var y;
      x, y := CutMiddle(t, a, w, "");
      NoText(y);
      assert y == [] && Lift(w) + y == Lift(w);
    }
  }

  /** ... and a text between two of its parts. */
  lemma CutMiddle(t: Text, a: string, w: string, b: string) returns (x: Text, y: Text)
    requires Fill(t, Sent) == a + (w + b) && w != "" && Clean(w)
    ensures t == x + (Lift(w) + y) && Fill(x, Sent) == a && Fill(y, Sent) == b
  {
    HeadApart(w, b);
    var z;
    x, z := CutAt(t, a, w[0], w[1..] + b);
    y := CutFront(z, w[1..], b);
    LiftHead(w);
    Assoc([C(w[0])], Lift(w[1..]), y);
  }

  // ---------------------------------------------------------------- one command

  /** The shell, reading t, finds more than plain words at symbol i. */
  predicate RejectsAt(t: Text, i: nat)
    requires i < |t|
  {
    Run(Sh, START, t[..i]).Lexer? && Step(Sh, Run(Sh, START, t[..i]), t[i]).Bad?
  }

  predicate PairAt(t: Text, i: nat, c: char, d: char) { i + 1 < |t| && t[i] == C(c) && t[i + 1] == C(d) }

  /** There the first simple command ends, is redirected, or has a command substituted. */
  predicate LeavesCommand(t: Text, i: nat)
    requires i < |t|
  {
    RejectsAt(t, i) && t[i].C? && (t[i].ch in ";|&<>()\n`" || PairAt(t, i, '$', '('))
  }

  /** None of what the converter refuses stands in the template itself. */
  predicate Bare(t: Text)
  {
    && (forall i :: 0 <= i < |t| && t[i].C? ==> t[i].ch !in ";|<>`")
    && (forall i :: 0 <= i < |t| ==> !PairAt(t, i, '&', '&') && !PairAt(t, i, '$', '('))
    && !StartsWith(t, Lift("cd "))
  }

  lemma FillAround(t: Text, i: nat)
    requires i < |t| && t[i].C?
    ensures Fill(t, Sent) == Fill(t[..i], Sent) + ([t[i].ch] + Fill(t[i + 1..], Sent))
  {
    assert t == t[..i] + t[i..] && t[i..][1..] == t[i + 1..];
    FillAppend(t[..i], t[i..], Sent);
  }

  lemma CharShows(t: Text, i: nat, c: char)
    requires i < |t| && t[i] == C(c)
    ensures c in Fill(t, Sent)
  {
    FillAround(t, i);
  }

  lemma PairShows(t: Text, i: nat, c: char, d: char)
    requires PairAt(t, i, c, d)
    ensures Contains([c, d], Fill(t, Sent))
  {
    FillAround(t, i);
    var a, b := Fill(t[..i], Sent), Fill(t[i + 2..], Sent);
    assert Fill(t[i + 1..], Sent) == [d] + b by { assert t[i + 1..][1..] == t[i + 2..]; }
    var s := Fill(t, Sent);
    assert s == a + ([c] + ([d] + b));
    assert s[|a|..|a| + 2] == [c, d];
    assert OccursAt([c, d], s, |a|);
  }

  /** A planned template does not start with `cd `, and it is one simple command, neither redirected nor with
      another substituted in it, exactly if the shell finds no `&`, parenthesis or line feed in it: it never
      stops at `;`, `|`, `<`, `>`, a backquote, `&&` or `$(`. */
  lemma OneCommand(parts: seq<Part>, tools: Tools, argv: seq<Arg>, i: nat)
    requires IsPlan(parts, tools, argv) && i < |TemplateOf(parts).value.text|
    ensures var t := TemplateOf(parts).value.text;
      && !StartsWith(t, Lift("cd "))
      && (RejectsAt(t, i) ==> t[i].C? && t[i].ch !in ";|<>`" && !PairAt(t, i, '&', '&') && !PairAt(t, i, '$', '('))
      && (LeavesCommand(t, i) <==> RejectsAt(t, i) && t[i].ch in "&()\n")
  {
    var t := TemplateOf(parts).value.text;
    RefusedExact(t);
    if RejectsAt(t, i) { HoleNeverRejects(Run(Sh, START, t[..i]), t[i]); }
  }

  /** What the converter looks for in the text with sentinels it finds exactly if it stands in the template. */
  lemma RefusedExact(t: Text)
    ensures Refused(Fill(t, Sent)) <==> !Bare(t)
  {
    if Refused(Fill(t, Sent)) { RefusedShows(t); }
    forall i | 0 <= i < |t| && t[i].C? ensures t[i].ch in Fill(t, Sent) { CharShows(t, i, t[i].ch); }
    forall i: nat ensures PairAt(t, i, '&', '&') ==> Contains("&&", Fill(t, Sent)) {
      if PairAt(t, i, '&', '&') { PairShows(t, i, '&', '&'); }
    }
    forall i: nat ensures PairAt(t, i, '$', '(') ==> Contains("$(", Fill(t, Sent)) {
      if PairAt(t, i, '$', '(') { PairShows(t, i, '$', '('); }
    }
    if StartsWith(t, Lift("cd ")) { StartShows(t, "cd "); }
  }

  lemma RefusedShows(t: Text)
    requires Refused(Fill(t, Sent))
    ensures !Bare(t)
  {
    var s := Fill(t, Sent);
    if c :| c in s && c in ";|<>`" {
      var i := CharComesFrom(t, c);
      assert t[i].ch in ";|<>`";
    } else if Contains("$(", s) {
      var i := PairComesFrom(t, '$', '(');
    } else if Contains("&&", s) {
      var i := PairComesFrom(t, '&', '&');
    } else {
      assert s == "cd " + s[3..];
      var y := CutFront(t, "cd ", s[3..]);
    }
  }

  lemma CharComesFrom(t: Text, c: char) returns (i: nat)
    requires c in Fill(t, Sent) && c != NUL && !IsDigit(c)
    ensures i < |t| && t[i] == C(c)
  {
    var s := Fill(t, Sent);
    var p :| 0 <= p < |s| && s[p] == c;
    assert s == s[..p] + ([c] + s[p + 1..]);
    var x, y := CutAt(t, s[..p], c, s[p + 1..]);
    i := |x|;
  }

  lemma PairComesFrom(t: Text, c: char, d: char) returns (i: nat)
    requires Contains([c, d], Fill(t, Sent)) && Clean([c, d])
    ensures PairAt(t, i, c, d)
  {
    var s, w := Fill(t, Sent), [c, d];
    var p :| 0 <= p <= |s| && OccursAt(w, s, p);
    assert s == s[..p] + (w + s[p + 2..]);
    var x, y := CutMiddle(t, s[..p], w, s[p + 2..]);
    i := |x|;
    assert t[i] == Lift(w)[0] && t[i + 1] == Lift(w)[1];
  }

  lemma HoleNeverRejects(l: Lexer, s: Sym)
    requires l.Lexer? && Step(Sh, l, s).Bad?
    ensures s.C?
  {}

  lemma StartShows(t: Text, s: string)
    requires StartsWith(t, Lift(s))
    ensures StartsWith(Fill(t, Sent), s)
  {
    assert t == t[..|s|] + t[|s|..];
    FillAppend(Lift(s), t[|s|..], Sent);
    FillLift(s, Sent);
  }

  // ---------------------------------------------------------------- meaning

  /** The value of an expression: a string, or anything else, with the text an f-string shows for it. */
  datatype Value = Str(text: string) | Thing(text: string)

  /** The command line the f-string denotes: what the shell used to be given.  None: shlex.quote was
      called on something that is no string. */
  function Line(parts: seq<Part>, env: string -> Value): (r: Option<string>)
    requires TemplateOf(parts).Some?
    decreases |parts|
  {
    if parts == [] then Some("") else
    match Line(parts[..|parts| - 1], env)
    case None => None
    case Some(line) =>
      match parts[|parts| - 1]
      case Literal(s) => Some(line + s)
      case Hole(e, _) =>
        match Said(e, env) case None => None case Some(text) => Some(line + text)
  }

  /** What an expression contributes.  shlex.quote, or pipes.quote by its old name, on one argument quotes
      that, and takes strings only; anything else is shown as it is. */
  function Said(e: Expr, env: string -> Value): (r: Option<string>)
    requires Unwrap(e).src.Some?
  {
    if e.Call? && |e.args| == 1 && e.attr == "quote" && e.recv in {"shlex", "pipes"} then
      (var v := env(e.args[0].src.value); if v.Str? then Some(ShlexQuote(v.text)) else None)
    else Some(env(e.src.value).text)
  }

  /** The line can be built exactly if everything that is quoted holds a string. */
  lemma {:induction false} LineExists(parts: seq<Part>, env: string -> Value)
    requires TemplateOf(parts).Some?
    ensures Line(parts, env).Some? <==>
              var t := TemplateOf(parts).value; forall i :: 0 <= i < |t.exprs| && t.quoted[i] ==> env(t.exprs[i]).Str?
    decreases |parts|
  {
    if parts != [] {
      var init, last := parts[..|parts| - 1], parts[|parts| - 1];
      LineExists(init, env);
      var t0, t := TemplateOf(init).value, TemplateOf(parts).value;
      if last.Hole? {
        var k := |t0.exprs|;
        assert t.exprs[k] == Unwrap(last.expr).src.value && t.quoted[k] == IsQuoteCall(last.expr);
        assert forall i :: 0 <= i < k ==> t.exprs[i] == t0.exprs[i] && t.quoted[i] == t0.quoted[i];
      }
    }
  }

  function Inserted(quoted: bool, value: string): (r: string) { if quoted then ShlexQuote(value) else value }

  /** Python's reading of an f-string body: doubled braces are one brace, a lone one is an error. */
  function EvalBody(b: seq<FSym>, env: string -> Value): (r: Option<string>)
    decreases |b|
  {
    if b == [] then Some("") else
    if b[0].Ch? && (b[0].c == '{' || b[0].c == '}') then
      if |b| >= 2 && b[1] == b[0] then Prefix([b[0].c], EvalBody(b[2..], env)) else None
    else Prefix(if b[0].Ch? then [b[0].c] else env(b[0].expr).text, EvalBody(b[1..], env))
  }

  function Prefix(s: string, r: Option<string>): Option<string> { if r.None? then None else Some(s + r.value) }

  /** The string that reaches the command.  None: there is none, because the f-string is malformed or the
      list element is no string. */
  function Eval(a: Arg, env: string -> Value): (r: Option<string>)
  {
    match a
    case Lit(s) => Some(s)
    case Src(e) => if env(e).Str? then Some(env(e).text) else None
    case FStr(b) => EvalBody(b, env)
  }

  predicate BraceFree(b: seq<FSym>) { forall i :: 0 <= i < |b| && b[i].Ch? ==> b[i].c != '{' && b[i].c != '}' }

  /** The value the converter means by a rebuilt f-string. */
  function Flat(b: seq<FSym>, env: string -> Value): (r: string) decreases |b|
  {
    if b == [] then "" else (if b[0].Ch? then [b[0].c] else env(b[0].expr).text) + Flat(b[1..], env)
  }

  lemma {:induction false} EvalShrinks(b: seq<FSym>, env: string -> Value)
    requires EvalBody(b, env).Some?
    ensures |EvalBody(b, env).value| <= |Flat(b, env)|
    ensures !BraceFree(b) ==> |EvalBody(b, env).value| < |Flat(b, env)|
    decreases |b|
  {
    if b != [] {
      if b[0].Ch? && (b[0].c == '{' || b[0].c == '}') {
        assert b[1..][1..] == b[2..];
        EvalShrinks(b[2..], env);
      } else {
        EvalShrinks(b[1..], env);
        if !BraceFree(b) {
          var i :| 0 <= i < |b| && b[i].Ch? && (b[i].c == '{' || b[i].c == '}');
          assert b[1..][i - 1] == b[i];
        }
      }
    }
  }

  lemma {:induction false} EvalFlat(b: seq<FSym>, env: string -> Value)
    requires BraceFree(b)
    ensures EvalBody(b, env) == Some(Flat(b, env))
    decreases |b|
  {
    if b != [] { EvalFlat(b[1..], env); }
  }

  /** A rebuilt f-string means what the token meant exactly when its literal part has no brace. */
  lemma RebuiltExact(b: seq<FSym>, env: string -> Value)
    ensures EvalBody(b, env) == Some(Flat(b, env)) <==> BraceFree(b)
  {
    if BraceFree(b) { EvalFlat(b, env); }
    if EvalBody(b, env) == Some(Flat(b, env)) { EvalShrinks(b, env); }
  }

  // ---------------------------------------------------------------- the theorem

  /** The text placeholder i contributes to the line, and the value it stands for. */
  function InsOf(t: Template, env: string -> Value): nat -> string
    requires |t.exprs| == |t.quoted|
  {
    (i: nat) => if i < |t.exprs| then Inserted(t.quoted[i], env(t.exprs[i]).text) else ""
  }

  function ValOf(t: Template, env: string -> Value): nat -> string
  {
    (i: nat) => if i < |t.exprs| then env(t.exprs[i]).text else ""
  }

  predicate LiteralsNulFree(parts: seq<Part>)
  {
    forall i :: 0 <= i < |parts| && parts[i].Literal? ==> NUL !in parts[i].text
  }

  lemma {:induction false} TemplateTame(parts: seq<Part>)
    requires TemplateOf(parts).Some? && LiteralsNulFree(parts)
    ensures AllTame(TemplateOf(parts).value.text, |TemplateOf(parts).value.exprs|)
    decreases |parts|
  {
    if parts != [] {
      var init := parts[..|parts| - 1];
      TemplateTame(init);
      var t := TemplateOf(init).value;
      var last := parts[|parts| - 1];
      if last.Literal? {
        assert forall i :: 0 <= i < |last.text| ==> last.text[i] in last.text;
      }
    }
  }

  /** One list of expressions and quoting flags extends another. */
  predicate Extends(t: Template, full: Template)
  {
    && |t.exprs| == |t.quoted| <= |full.exprs| == |full.quoted|
    && full.exprs[..|t.exprs|] == t.exprs && full.quoted[..|t.exprs|] == t.quoted
  }

  lemma {:induction false} LineIsFilled(parts: seq<Part>, full: Template, env: string -> Value)
    requires TemplateOf(parts).Some? && Extends(TemplateOf(parts).value, full) && Line(parts, env).Some?
    ensures Line(parts, env).value == Fill(TemplateOf(parts).value.text, InsOf(full, env))
    decreases |parts|
  {
    if parts != [] {
      var init := parts[..|parts| - 1];
      var t0 := TemplateOf(init).value;
      var t := TemplateOf(parts).value;
      assert t.exprs[..|t0.exprs|] == t0.exprs && t.quoted[..|t0.exprs|] == t0.quoted;
      assert full.exprs[..|t0.exprs|] == full.exprs[..|t.exprs|][..|t0.exprs|];
      assert full.quoted[..|t0.exprs|] == full.quoted[..|t.exprs|][..|t0.exprs|];
      LineIsFilled(init, full, env);
      var ins := InsOf(full, env);
      match parts[|parts| - 1]
      case Literal(s) =>
        FillAppend(t0.text, Lift(s), ins);
        FillLift(s, ins);
      case Hole(e, _) =>
        var k := |t0.exprs|;
        FillAppend(t0.text, [P(k)], ins);
        assert Fill([P(k)], ins) == ins(k);
        assert full.exprs[k] == full.exprs[..|t.exprs|][k] == t.exprs[k];
        assert full.quoted[k] == full.quoted[..|t.exprs|][k] == t.quoted[k];
    }
  }

  lemma SentinelFits(m: Mode, i: nat)
    requires ModeOk(m) && (m.InQuote? ==> IsQuote(m.q))
    ensures Fits(Shlex, m, Sent(i), Sent(i))
  {
    var s := Sent(i);
    assert AllPlain(Shlex, s) by {
      forall j | 0 <= j < |s| ensures Plain(Shlex, s[j]) { assert s[j] == NUL || IsDigit(s[j]); }
    }
    if m.InQuote? {
      assert InertIn(Shlex, m.q, s);
      InQuoteFits(Shlex, m.q, s);
    } else if m.Esc? {
      EscapedFits(m, s);
    } else {
      PlainFits(Shlex, m, s);
    }
  }

  lemma EscapedFits(m: Mode, s: string)
    requires ModeOk(m) && m.Esc? && s != "" && AllPlain(Shlex, s)
    ensures Fits(Shlex, m, s, s)
  {
    if m.back.InQuote? { EscapedInQuotes(m, s); } else { EscapedOutside(m, s); }
  }

  lemma EscapedInQuotes(m: Mode, s: string)
    requires ModeOk(m) && m.Esc? && m.back.InQuote? && s != "" && AllPlain(Shlex, s)
    ensures Fits(Shlex, m, s, s)
  {
    assert Lift(s)[1..] == Lift(s[1..]);
    var l := Step(Shlex, Fresh(m), C(s[0]));
    assert Plain(Shlex, s[0]);
    assert l.token == Lift(['\\', s[0]]);
    InertFits(Shlex, l, s[1..]);
    assert Lift(['\\', s[0]]) + Lift(s[1..]) == Lift("\\" + s);
  }

  lemma EscapedOutside(m: Mode, s: string)
    requires ModeOk(m) && m.Esc? && !m.back.InQuote? && s != "" && AllPlain(Shlex, s)
    ensures Fits(Shlex, m, s, s)
  {
    assert Lift(s)[1..] == Lift(s[1..]);
    var l := Step(Shlex, Fresh(m), C(s[0]));
    assert Plain(Shlex, s[0]);
    assert l.token == Lift([s[0]]) by { assert [] + [C(s[0])] == [C(s[0])]; }
    PlainRun(Shlex, l, s[1..]);
    assert Lift([s[0]]) + Lift(s[1..]) == Lift("" + s);
  }

  predicate QuoteModes(m: Mode) { ModeOk(m) && (m.InQuote? ==> IsQuote(m.q)) }

  /** Sentinels are ordinary characters to shlex wherever they stand. */
  lemma {:induction false} SentinelsFit(l: Lexer, t: Text)
    requires Wf(l) && (l.Lexer? ==> QuoteModes(l.mode))
    ensures HolesFit(Shlex, l, t, Sent, Sent)
    decreases |t|
  {
    if t != [] && l.Lexer? {
      StepWf(Shlex, l, t[0]);
      if t[0].P? { SentinelFits(l.mode, t[0].idx); }
      SentinelsFit(Step(Shlex, l, t[0]), t[1..]);
    }
  }

  predicate LexerTame(l: Lexer, n: nat)
  {
    l.Lexer? ==> AllTame(l.token, n) && forall i :: 0 <= i < |l.out| ==> AllTame(l.out[i], n)
  }

  lemma {:induction false} RunTame(l: Lexer, t: Text, n: nat)
    requires LexerTame(l, n) && AllTame(t, n)
    ensures LexerTame(Run(Shlex, l, t), n)
    decreases |t|
  {
    if t != [] {
      assert Tame(t[0], n);
      RunTame(Step(Shlex, l, t[0]), t[1..], n);
    }
  }

  /** A list element that means what its token meant: a bare expression has to hold a string, the literal part
      of a rebuilt f-string no brace. */
  predicate Sound(a: Arg, env: string -> Value)
  {
    match a
    case Lit(_) => true
    case Src(e) => env(e).Str?
    case FStr(b) => BraceFree(b)
  }

  lemma TokenMeaning(w: Text, t: Template, env: string -> Value, a: Arg)
    requires |t.exprs| == |t.quoted| && AllTame(w, |t.exprs|)
    requires ArgOf(Fill(w, Sent), t.exprs) == Some(a)
    ensures Eval(a, env) == Some(Fill(w, ValOf(t, env))) <==> Sound(a, env)
  {
    DecodeSentinels(w, |t.exprs|);
    assert InRange(w, |t.exprs|) by {
      forall i | 0 <= i < |w| && w[i].P? ensures w[i].idx < |t.exprs| { assert Tame(w[i], |t.exprs|); }
    }
    if !HasHole(w) {
      FillNoHoles(w, Sent, ValOf(t, env));
    } else if |w| == 1 {
      var v := env(t.exprs[w[0].idx]).text;
      assert w[1..] == [] && Fill(w, ValOf(t, env)) == v + "" == v;
    } else {
      FlatIsFill(w, t, env);
      RebuiltExact(a.body, env);
    }
  }

  lemma {:induction false} FillNoHoles(w: Text, f: nat -> string, g: nat -> string)
    requires !HasHole(w)
    ensures Fill(w, f) == Fill(w, g)
    decreases |w|
  {
    if w != [] {
      assert forall i :: 0 <= i < |w[1..]| ==> w[1..][i] == w[i + 1];
      FillNoHoles(w[1..], f, g);
    }
  }

  lemma {:induction false} FlatIsFill(w: Text, t: Template, env: string -> Value)
    requires InRange(w, |t.exprs|)
    ensures Flat(Body(w, t.exprs), env) == Fill(w, ValOf(t, env))
    decreases |w|
  {
    if w != [] {
      assert InRange(w[1..], |t.exprs|) by {
        forall i | 0 <= i < |w[1..]| && w[1..][i].P? ensures w[1..][i].idx < |t.exprs| { assert w[i + 1].P?; }
      }
      assert Body(w, t.exprs)[1..] == Body(w[1..], t.exprs);
      FlatIsFill(w[1..], t, env);
    }
  }

  /** The tokens of a text with sentinels are the text's words with sentinels. */
  lemma TemplateTokens(text: Text, n: nat)
    requires AllTame(text, n) && Words(Shlex, text).Some?
    ensures var ws := Words(Shlex, text).value;
      ShlexSplit(Fill(text, Sent)) == Some(FillAll(ws, Sent)) && forall i :: 0 <= i < |ws| ==> AllTame(ws[i], n)
  {
    var ws := Words(Shlex, text).value;
    SentinelsFit(START, text);
    WordsCommute(Shlex, text, Sent, Sent);
    RunTame(START, text, n);
    LowerLiftAll(FillAll(ws, Sent));
  }

  lemma {:induction false} ShlexNeverRejects(l: Lexer, t: Text)
    requires l.Lexer?
    ensures Run(Shlex, l, t).Lexer?
    decreases |t|
  {
    if t != [] { ShlexNeverRejects(Step(Shlex, l, t[0]), t[1..]); }
  }

  /** The list element for a word of the template. */
  function ArgFor(w: Text, exprs: seq<string>): (r: Arg)
    requires InRange(w, |exprs|)
  {
    if !HasHole(w) then Lit(Lower(w)) else if |w| == 1 then Src(exprs[w[0].idx]) else FStr(Body(w, exprs))
  }

  /** The program is one of these, by its name or by a path that ends in it. */
  predicate IsProgram(head: string, bins: set<string>)
  {
    exists b :: b in bins && PathNorm.NoSlash(b) && (head == b || EndsWith(head, "/" + b))
  }

  lemma ProgramByName(head: string, bins: set<string>)
    ensures PathNorm.Name(head) in bins <==> IsProgram(head, bins)
  {
    PathNorm.SplitNoSlashes(head);
    PathNorm.NameExact(head, PathNorm.Name(head));
    forall b | b in bins && PathNorm.NoSlash(b) ensures PathNorm.Name(head) == b <==> head == b || EndsWith(head, "/" + b) {
      PathNorm.NameExact(head, b);
    }
  }

  predicate Headed(ws: seq<Text>, bins: set<string>) { ws != [] && !HasHole(ws[0]) && IsProgram(Lower(ws[0]), bins) }

  lemma TameInRange(w: Text, n: nat)
    requires AllTame(w, n)
    ensures InRange(w, n)
  {
    forall i | 0 <= i < |w| && w[i].P? ensures w[i].idx < n { assert Tame(w[i], n); }
  }

  lemma ArgOfWord(w: Text, exprs: seq<string>)
    requires AllTame(w, |exprs|)
    ensures InRange(w, |exprs|) && ArgOf(Fill(w, Sent), exprs) == Some(ArgFor(w, exprs)) && Decode(Fill(w, Sent)) == w
    ensures !HasHole(w) ==> Fill(w, Sent) == Lower(w)
  {
    TameInRange(w, |exprs|);
    DecodeSentinels(w, |exprs|);
    if !HasHole(w) { WholeLiteral(w); }
  }

  lemma {:induction false} WholeLiteral(w: Text)
    requires !HasHole(w)
    ensures Fill(w, Sent) == Lower(w)
    decreases |w|
  {
    if w != [] {
      assert forall i :: 0 <= i < |w[1..]| ==> w[1..][i] == w[i + 1];
      WholeLiteral(w[1..]);
      assert Lower(w) == [w[0].ch] + Lower(w[1..]);
    }
  }

  /** Exactly which command templates become an argument list, and which: the list has one element for each
      word of the template. */
  lemma ArgvExact(text: Text, exprs: seq<string>, bins: set<string>) returns (argv: seq<Arg>)
    requires AllTame(text, |exprs|)
    ensures forall a :: IsArgv(Fill(text, Sent), exprs, bins, a) <==>
              Words(Shlex, text).Some? && Headed(Words(Shlex, text).value, bins) && a == argv
    ensures Words(Shlex, text).Some? ==>
              && |argv| == |Words(Shlex, text).value|
              && forall i :: 0 <= i < |argv| ==>
                   InRange(Words(Shlex, text).value[i], |exprs|) && argv[i] == ArgFor(Words(Shlex, text).value[i], exprs)
  {
    argv := [];
    if Words(Shlex, text).None? {
      ShlexNeverRejects(START, text);
      SentinelsFit(START, text);
      OpenStays(Shlex, text, Sent, Sent);
    } else {
      var ws := Words(Shlex, text).value;
      TemplateTokens(text, |exprs|);
      forall i | 0 <= i < |ws|
        ensures InRange(ws[i], |exprs|) && ArgOf(Fill(ws[i], Sent), exprs) == Some(ArgFor(ws[i], exprs))
        ensures Decode(Fill(ws[i], Sent)) == ws[i] && (!HasHole(ws[i]) ==> Fill(ws[i], Sent) == Lower(ws[i]))
      {
        ArgOfWord(ws[i], exprs);
      }
      argv := seq(|ws|, i requires 0 <= i < |ws| => ArgFor(ws[i], exprs));
      if ws != [] { ProgramByName(Lower(ws[0]), bins); }
      OnlyArgv(Fill(text, Sent), exprs, bins, argv);
    }
  }

  lemma OnlyArgv(cmd: string, exprs: seq<string>, bins: set<string>, argv: seq<Arg>)
    requires ShlexSplit(cmd).Some? && |argv| == |ShlexSplit(cmd).value|
    requires forall i :: 0 <= i < |argv| ==> ArgOf(ShlexSplit(cmd).value[i], exprs) == Some(argv[i])
    ensures forall a :: IsArgv(cmd, exprs, bins, a) <==> IsArgv(cmd, exprs, bins, argv) && a == argv
  {}

  /** Exactly which f-strings are planned: those with a hint, without anything the converter refuses in
      them, closed quotations and a literal privileged binary at their head. */
  lemma PlanExact(parts: seq<Part>, tools: Tools) returns (argv: seq<Arg>)
    requires TemplateOf(parts).Some? && LiteralsNulFree(parts)
    ensures var t := TemplateOf(parts).value;
      && (forall a :: IsPlan(parts, tools, a) <==>
            (exists h :: h in tools.hints && Contains(h, Fill(t.text, Sent))) && Bare(t.text)
            && Words(Shlex, t.text).Some? && Headed(Words(Shlex, t.text).value, tools.bins) && a == argv)
      && (Words(Shlex, t.text).Some? ==>
            && |argv| == |Words(Shlex, t.text).value|
            && forall i :: 0 <= i < |argv| ==>
                 InRange(Words(Shlex, t.text).value[i], |t.exprs|) && argv[i] == ArgFor(Words(Shlex, t.text).value[i], t.exprs))
  {
    var t := TemplateOf(parts).value;
    TemplateTame(parts);
    RefusedExact(t.text);
    argv := ArgvExact(t.text, t.exprs, tools.bins);
  }

  /** Two lines, each a plain word. */
  function TwoLines(a: string, b: string): (r: string) { a + (['\n'] + b) }

  lemma PlainForBoth(a: string)
    requires PlainWord(Sh, a)
    ensures PlainWord(Shlex, a)
  {
    forall i | 0 <= i < |a| ensures Plain(Shlex, a[i]) { assert Plain(Sh, a[i]); }
  }

  /** A plain word read from the start, and the line feed after it. */
  lemma ReadFirstLine(d: Dialect, a: string)
    requires PlainWord(d, a)
    ensures Run(d, START, Lift(a)) == Lexer(Word, Lift(a), false, []) || Run(d, START, Lift(a)) == Lexer(Word, Lift(a), true, [])
  {
    PlainFits(d, Blank, a);
    assert Kept(Blank) + a == a;
  }

  /** What separates words: a blank or a tab for both, and the ends of lines for shlex. */
  predicate Separates(d: Dialect, c: char) { c in {' ', '\t'} || (d == Shlex && c in {'\r', '\n'}) }

  lemma BlankEnds(d: Dialect, l: Lexer, a: Text, sep: char)
    requires l.Lexer? && l.mode.Word? && l.token == a != [] && l.out == []
    ensures Separates(d, sep) ==> Step(d, l, C(sep)) == Lexer(Blank, [], false, [a])
    ensures d == Sh && sep == '\n' ==> Step(d, l, C(sep)).Bad?
  {
    assert [] + [a] == [a];
  }

  lemma WordsOfTwo(d: Dialect, a: string, sep: char, b: string)
    requires PlainWord(d, a) && PlainWord(d, b) && Separates(d, sep)
    ensures Words(d, Lift(a + ([sep] + b))) == Some([Lift(a), Lift(b)])
  {
    LiftAppend(a, [sep] + b);
    LiftAppend([sep], b);
    RunAppend(d, START, Lift(a), Lift([sep] + b));
    RunAppend(d, Run(d, START, Lift(a)), Lift([sep]), Lift(b));
    ReadFirstLine(d, a);
    assert Lift([sep]) == [C(sep)];
    RunOne(d, Run(d, START, Lift(a)), C(sep));
    BlankEnds(d, Run(d, START, Lift(a)), Lift(a), sep);
    var l := Lexer(Blank, [], false, [Lift(a)]);
    PlainFits(d, Blank, b);
    FitsInContext(d, l, b, b);
    assert Kept(Blank) + b == b && [] + Lift(b) == Lift(b) && [Lift(a)] + [Lift(b)] == [Lift(a), Lift(b)];
  }

  lemma LinesAreBare(a: string, b: string)
    requires PlainWord(Sh, a) && PlainWord(Sh, b)
    ensures Bare(Lift(TwoLines(a, b)))
  {
    var s := TwoLines(a, b);
    forall i | 0 <= i < |s| ensures s[i] == '\n' || Plain(Sh, s[i]) {
      if i < |a| { assert s[i] == a[i]; } else if i > |a| { assert s[i] == b[i - |a| - 1]; }
    }
    NoBlank(Lift(s));
  }

  lemma NoBlank(t: Text)
    requires forall i :: 0 <= i < |t| ==> t[i] != C(' ')
    ensures !StartsWith(t, Lift("cd "))
  {
    var p := Lift("cd ");
    assert p[2] == C(' ');
    if |t| >= 3 { assert t[..3][2] == t[2]; }
  }

  lemma LinesStop(a: string, b: string)
    requires PlainWord(Sh, a)
    ensures LeavesCommand(Lift(TwoLines(a, b)), |a|)
  {
    var t := Lift(TwoLines(a, b));
    assert t[..|a|] == Lift(a) && t[|a|] == C('\n');
    ReadFirstLine(Sh, a);
    BlankEnds(Sh, Run(Sh, START, Lift(a)), Lift(a), '\n');
  }

  /** The exception is real: two lines in one f-string are planned as one command, the second line as its
      argument. */
  lemma LinesAreJoined(a: string, b: string, tools: Tools) returns (parts: seq<Part>)
    requires PlainWord(Sh, a) && PlainWord(Sh, b) && NUL !in a && NUL !in b
    requires Hinted(tools, TwoLines(a, b)) && PathNorm.Name(a) in tools.bins
    ensures parts == [Literal(TwoLines(a, b))] && IsPlan(parts, tools, [Lit(a), Lit(b)])
    ensures LeavesCommand(TemplateOf(parts).value.text, |a|)
  {
    parts := [Literal(TwoLines(a, b))];
    OneLiteral(TwoLines(a, b));
    LinesPlanned(a, b, parts, tools);
    LinesStop(a, b);
  }

  lemma LinesPlanned(a: string, b: string, parts: seq<Part>, tools: Tools)
    requires PlainWord(Sh, a) && PlainWord(Sh, b) && NUL !in a && NUL !in b && parts == [Literal(TwoLines(a, b))]
    requires Hinted(tools, TwoLines(a, b)) && PathNorm.Name(a) in tools.bins
    ensures IsPlan(parts, tools, [Lit(a), Lit(b)])
  {
    var s := TwoLines(a, b);
    OneLiteral(s);
    FillLift(s, Sent);
    PlainForBoth(a);
    PlainForBoth(b);
    WordsOfTwo(Shlex, a, '\n', b);
    LinesAreBare(a, b);
    HeadOfTwo(a, b, tools.bins);
    LiteralPlan(parts, tools, Lift(s), [Lift(a), Lift(b)], [Lit(a), Lit(b)]);
  }

  lemma HeadOfTwo(a: string, b: string, bins: set<string>)
    requires PathNorm.Name(a) in bins
    ensures var ws, argv := [Lift(a), Lift(b)], [Lit(a), Lit(b)];
      Headed(ws, bins) && forall i :: 0 <= i < 2 ==> !HasHole(ws[i]) && argv[i] == Lit(Lower(ws[i]))
  {
    ProgramByName(a, bins);
    LiteralWord(a);
    LiteralWord(b);
  }

  lemma LiteralWord(a: string)
    ensures !HasHole(Lift(a)) && Lower(Lift(a)) == a
  {
    LowerLift(a);
  }

  lemma LiteralPlan(parts: seq<Part>, tools: Tools, t: Text, ws: seq<Text>, argv: seq<Arg>)
    requires TemplateOf(parts) == Some(Template(t, [], [])) && LiteralsNulFree(parts)
    requires Hinted(tools, Fill(t, Sent)) && Bare(t) && Words(Shlex, t) == Some(ws) && Headed(ws, tools.bins)
    requires |argv| == |ws| && forall i :: 0 <= i < |ws| ==> !HasHole(ws[i]) && argv[i] == Lit(Lower(ws[i]))
    ensures IsPlan(parts, tools, argv)
  {
    var planned := PlanExact(parts, tools);
    assert planned == argv;
  }

  lemma OneLiteral(s: string)
    ensures TemplateOf([Literal(s)]) == Some(Template(Lift(s), [], []))
  {
    assert [Literal(s)][..0] == [] && [] + Lift(s) == Lift(s);
  }

  lemma LowerLiftAll(ss: seq<string>)
    ensures LowerAll(LiftAll(ss)) == ss
  {
    forall i | 0 <= i < |ss| ensures LowerAll(LiftAll(ss))[i] == ss[i] { LowerLift(ss[i]); }
  }

  /** The planned list evaluates, element by element, to these strings. */
  predicate EvaluatesTo(argv: seq<Arg>, env: string -> Value, values: seq<string>)
  {
    |values| == |argv| && forall i :: 0 <= i < |argv| ==> Eval(argv[i], env) == Some(values[i])
  }

  predicate AllSound(argv: seq<Arg>, env: string -> Value) { forall i :: 0 <= i < |argv| ==> Sound(argv[i], env) }

  /** A text is plain words that shlex and the shell read alike, and every inserted text is absorbed where
      it stands. */
  predicate Readable(text: Text, t: Template, env: string -> Value)
    requires |t.exprs| == |t.quoted|
  {
    && Words(Sh, text).Some? && NoDivergence(START, text)
    && HolesFit(Sh, START, text, InsOf(t, env), ValOf(t, env))
  }

  /** The argument list for a command template has the shell's words for the instantiated command as its
      values, exactly if all of its elements are sound. */
  lemma ArgvMeaning(text: Text, t: Template, bins: set<string>, argv: seq<Arg>, env: string -> Value) returns (values: seq<string>)
    requires |t.exprs| == |t.quoted| && AllTame(text, |t.exprs|)
    requires IsArgv(Fill(text, Sent), t.exprs, bins, argv) && Readable(text, t, env)
    ensures Words(Sh, Lift(Fill(text, InsOf(t, env)))) == Some(LiftAll(values))
    ensures EvaluatesTo(argv, env, values) <==> AllSound(argv, env)
  {
    ReadersAgreeExactly(text);
    var ws := Words(Shlex, text).value;
    TemplateTokens(text, |t.exprs|);
    values := FillAll(ws, ValOf(t, env));
    forall i | 0 <= i < |argv| ensures Eval(argv[i], env) == Some(values[i]) <==> Sound(argv[i], env) {
      TokenMeaning(ws[i], t, env, argv[i]);
    }
    WordsCommute(Sh, text, InsOf(t, env), ValOf(t, env));
  }

  /** The translation preserves meaning.  Whenever the template is plain words that shlex and
      the shell read alike, and every inserted text is absorbed where it stands, the shell's words
      for the instantiated line are the values of the planned argument list, exactly if all of its
      elements are sound. */
  lemma TranslationPreservesMeaning(parts: seq<Part>, tools: Tools, argv: seq<Arg>, env: string -> Value)
    returns (values: seq<string>)
    requires IsPlan(parts, tools, argv) && LiteralsNulFree(parts) && Line(parts, env).Some?
    requires Readable(TemplateOf(parts).value.text, TemplateOf(parts).value, env)
    ensures Words(Sh, Lift(Line(parts, env).value)) == Some(LiftAll(values))
    ensures EvaluatesTo(argv, env, values) <==> AllSound(argv, env)
  {
    var t := TemplateOf(parts).value;
    TemplateTame(parts);
    values := ArgvMeaning(t.text, t, tools.bins, argv, env);
    LineIsFilled(parts, t, env);
  }

  /** A text that is absorbed where it stands: outside quotes anything from shlex.quote, or a plain word, which
      inside a word may be empty; inside quotes what they pass through, and from shlex.quote only what it
      leaves as it is. */
  predicate Placed(m: Mode, quoted: bool, v: string)
  {
    match m
    case Blank => quoted || PlainWord(Sh, v)
    case Word => quoted || AllPlain(Sh, v)
    case InQuote(q) => InertIn(Sh, q, v) && (quoted ==> ShlexQuote(v) == v)
    case Esc(_) => false
  }

  predicate HolesPlaced(l: Lexer, text: Text, t: Template, env: string -> Value)
    requires |t.exprs| == |t.quoted|
    decreases |text|
  {
    text == [] || l.Bad?
    || ((text[0].P? ==> text[0].idx < |t.exprs| && Placed(l.mode, t.quoted[text[0].idx], env(t.exprs[text[0].idx]).text))
        && HolesPlaced(Step(Sh, l, text[0]), text[1..], t, env))
  }

  lemma PlacedFits(m: Mode, quoted: bool, v: string)
    requires QuoteModes(m) && Placed(m, quoted, v)
    ensures Fits(Sh, m, Inserted(quoted, v), v)
  {
    if m.InQuote? { InQuoteFits(Sh, m.q, v); } else if quoted { QuoteFits(Sh, m, v); } else { PlainFits(Sh, m, v); }
  }

  lemma {:induction false} PlacedHolesFit(l: Lexer, text: Text, t: Template, env: string -> Value)
    requires |t.exprs| == |t.quoted| && HolesPlaced(l, text, t, env) && Wf(l) && (l.Lexer? ==> QuoteModes(l.mode))
    ensures HolesFit(Sh, l, text, InsOf(t, env), ValOf(t, env))
    decreases |text|
  {
    if text != [] && l.Lexer? {
      StepWf(Sh, l, text[0]);
      if text[0].P? { PlacedFits(l.mode, t.quoted[text[0].idx], env(t.exprs[text[0].idx]).text); }
      PlacedHolesFit(Step(Sh, l, text[0]), text[1..], t, env);
    }
  }

  /** The converter's own use: placeholders outside quotes, each either wrapped in shlex.quote
      (then any value at all is fine) or holding a plain word, or inside quotes and inert there. */
  lemma PlacedTranslation(parts: seq<Part>, tools: Tools, argv: seq<Arg>, env: string -> Value)
    returns (values: seq<string>)
    requires IsPlan(parts, tools, argv) && LiteralsNulFree(parts) && Line(parts, env).Some?
    requires Words(Sh, TemplateOf(parts).value.text).Some? && NoDivergence(START, TemplateOf(parts).value.text)
    requires HolesPlaced(START, TemplateOf(parts).value.text, TemplateOf(parts).value, env)
    ensures Words(Sh, Lift(Line(parts, env).value)) == Some(LiftAll(values))
    ensures EvaluatesTo(argv, env, values) <==> AllSound(argv, env)
  {
    PlacedHolesFit(START, TemplateOf(parts).value.text, TemplateOf(parts).value, env);
    values := TranslationPreservesMeaning(parts, tools, argv, env);
  }
}
