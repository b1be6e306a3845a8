/**
 Two scanners over docker command lines: the time limit a command gets by default, and the
 project directory of `docker compose`.  Both are read off the tokens: words, flags, and flags with
 a value.
 */
module DockerArgv {
  import opened Wrappers
  import PathNorm

  datatype Tok = Word(w: string) | Flag(f: string) | Valued(f: string, v: string)

  const VALUE_FLAGS: set<string> := {
    "-c", "--context", "-H", "--host", "-l", "--log-level", "--config", "-f", "--file", "-p", "--project-name",
    "--profile", "--env-file", "--project-directory", "--progress", "--ansi", "--parallel"}

  const PROJECT_DIR := "--project-directory"
  const PROJECT_DIR_IS := "--project-directory="

  predicate IsFlag(a: string) { StartsWith(a, "-") }

  /** A value flag at the very end has no value and counts as a plain flag. */
  function Tokens(args: seq<string>): (ts: seq<Tok>)
    decreases |args|
  {
    if args == [] then []
    else if !IsFlag(args[0]) then [Word(args[0])] + Tokens(args[1..])
    else if args[0] in VALUE_FLAGS && |args| > 1 then [Valued(args[0], args[1])] + Tokens(args[2..])
    else [Flag(args[0])] + Tokens(args[1..])
  }

  function Words(ts: seq<Tok>): (ws: seq<string>)
    decreases |ts|
  {
    if ts == [] then [] else (if ts[0].Word? then [ts[0].w] else []) + Words(ts[1..])
  }

  /** No value is missing at the end: what is appended starts a new token. */
  predicate Complete(args: seq<string>)
  {
    forall t :: t in Tokens(args) && t.Flag? ==> t.f !in VALUE_FLAGS
  }

  lemma {:induction false} TokensAppend(a: seq<string>, b: seq<string>)
    requires Complete(a)
    ensures Tokens(a + b) == Tokens(a) + Tokens(b)
    decreases |a|
  {
    if a == [] {
      EmptyPrefix(b);
      EmptyPrefix(Tokens(b));
    } else {
      var n := if IsFlag(a[0]) && a[0] in VALUE_FLAGS && |a| > 1 then 2 else 1;
      assert Tokens(a)[0] in Tokens(a);
      assert Tokens(a)[1..] == Tokens(a[n..]) && (a + b)[n..] == a[n..] + b;
      forall t | t in Tokens(a[n..]) && t.Flag? ensures t.f !in VALUE_FLAGS { assert t in Tokens(a); }
      TokensAppend(a[n..], b);
      Assoc([Tokens(a)[0]], Tokens(a[n..]), Tokens(b));
    }
  }

  lemma {:induction false} WordsAppend(a: seq<Tok>, b: seq<Tok>)
    ensures Words(a + b) == Words(a) + Words(b)
    decreases |a|
  {
    if a == [] {
      EmptyPrefix(b);
      EmptyPrefix(Words(b));
    } else {
      assert (a + b)[1..] == a[1..] + b;
      WordsAppend(a[1..], b);
      Assoc(if a[0].Word? then [a[0].w] else [], Words(a[1..]), Words(b));
    }
  }

  /** What is left to read at word k, a value being skipped first. */
  function Rest(args: seq<string>, k: nat, skip: bool): (r: seq<string>)
    requires k <= |args|
  {
    if skip && k < |args| then args[k + 1..] else args[k..]
  }

  // ---------------------------------------------------------------- the default time limit

  const BUILD_TIMEOUT := 3600

  predicate IsDocker(program: string) { PathNorm.Name(program) == "docker" }

  /** Decided by the first two words. */
  function Limit(ws: seq<string>): (n: nat)
  {
    if ws == [] then 0
    else if ws[0] in {"build", "pull"} then BUILD_TIMEOUT
    else if |ws| == 1 then 0
    else if ws[0] == "buildx" && ws[1] == "build" then BUILD_TIMEOUT
    else if ws[0] == "compose" && ws[1] in {"build", "up", "pull", "create"} then BUILD_TIMEOUT
    else 0
  }

  function TimeLimit(argv: seq<string>): (n: nat)
  {
    if argv == [] || !IsDocker(argv[0]) then 0 else Limit(Words(Tokens(argv[1..])))
  }

  lemma LimitOfTwo(ws: seq<string>, more: seq<string>)
    requires |ws| == 2
    ensures Limit(ws + more) == Limit(ws)
  {}

  /** The scanner stops at the second word and drops the value of every value flag. */
  method DefaultTimeout(argv: seq<string>) returns (n: nat)
    ensures n == TimeLimit(argv)
  {
    if argv == [] || !IsDocker(argv[0]) { return 0; }
    var args := argv[1..];
    var words: seq<string>, skip := [], false;
    ghost var all := Words(Tokens(args));
    EmptyPrefix(all);
    TakeAll(args);
    for k := 0 to |args|
      invariant |words| < 2 && all == words + Words(Tokens(Rest(args, k, skip)))
    {
      var a := args[k];
      ReadOne(args, k, skip, words);
      if skip {
        skip := false;
      } else if IsFlag(a) {
        skip := a in VALUE_FLAGS;
      } else {
        words := words + [a];
        if |words| == 2 {
          LimitOfTwo(words, Words(Tokens(Rest(args, k + 1, false))));
          return Limit(words);
        }
      }
    }
    EmptyPrefix(words);
    return Limit(words);
  }

  lemma ReadOne(args: seq<string>, k: nat, skip: bool, words: seq<string>)
    requires k < |args|
    ensures var a := args[k];
            var skip' := !skip && IsFlag(a) && a in VALUE_FLAGS;
            words + Words(Tokens(Rest(args, k, skip)))
              == words + (if !skip && !IsFlag(a) then [a] else []) + Words(Tokens(Rest(args, k + 1, skip')))
  {
    var a := args[k];
    var skip' := !skip && IsFlag(a) && a in VALUE_FLAGS;
    ReadNext(args, k, skip);
    Assoc(words, if !skip && !IsFlag(a) then [a] else [], Words(Tokens(Rest(args, k + 1, skip'))));
  }

  lemma ReadNext(args: seq<string>, k: nat, skip: bool)
    requires k < |args|
    ensures var a := args[k];
            var skip' := !skip && IsFlag(a) && a in VALUE_FLAGS;
            Words(Tokens(Rest(args, k, skip))) == (if !skip && !IsFlag(a) then [a] else []) + Words(Tokens(Rest(args, k + 1, skip')))
  {
    var a, rest := args[k], args[k..];
    if !skip {
      assert rest[0] == a && rest[1..] == args[k + 1..] && (|rest| > 1 ==> rest[2..] == args[k + 2..]);
      var ts := Tokens(rest);
      assert Words(ts) == (if ts[0].Word? then [ts[0].w] else []) + Words(ts[1..]);
      assert k + 1 == |args| ==> args[k + 1..] == [];
    }
  }

  /** Complete flags, with their values, and no word. */
  predicate FlagsOnly(f: seq<string>) { Complete(f) && Words(Tokens(f)) == [] }

  /** The arguments begin with flags, and then this word. */
  predicate WordFirst(args: seq<string>, f: seq<string>, w: string, rest: seq<string>)
  {
    args == f + ([w] + rest) && FlagsOnly(f) && (w == "" || w[0] != '-')
  }

  lemma FlagByDash(a: string)
    ensures IsFlag(a) <==> a != "" && a[0] == '-'
  {
    if a != "" { assert a[..1] == [a[0]]; }
  }

  lemma FlagsThenWord(args: seq<string>, f: seq<string>, w: string, rest: seq<string>)
    requires WordFirst(args, f, w, rest)
    ensures Words(Tokens(args)) == [w] + Words(Tokens(rest))
  {
    TokensAppend(f, [w] + rest);
    FlagByDash(w);
    assert ([w] + rest)[1..] == rest && Tokens([w] + rest) == [Word(w)] + Tokens(rest);
    WordsAppend(Tokens(f), Tokens([w] + rest));
    assert ([Word(w)] + Tokens(rest))[1..] == Tokens(rest);
  }

  lemma {:induction false} FindWord(args: seq<string>) returns (f: seq<string>, w: string, rest: seq<string>)
    requires Words(Tokens(args)) != []
    ensures WordFirst(args, f, w, rest) && Words(Tokens(args)) == [w] + Words(Tokens(rest))
    decreases |args|
  {
    FlagByDash(args[0]);
    if !IsFlag(args[0]) {
      f, w, rest := [], args[0], args[1..];
      assert args == [w] + rest;
    } else {
      var n := if args[0] in VALUE_FLAGS && |args| > 1 then 2 else 1;
      assert Tokens(args)[1..] == Tokens(args[n..]) && args == args[..n] + args[n..];
      assert args[n..] != [];
      var f';
      f', w, rest := FindWord(args[n..]);
      f := args[..n] + f';
      UnitFirst(args[..n], f');
      Assoc(args[..n], f', [w] + rest);
      FlagsThenWord(args, f, w, rest);
    }
  }

  lemma UnitFirst(u: seq<string>, f: seq<string>)
    requires u != [] && IsFlag(u[0]) && FlagsOnly(f) && |u| == if u[0] in VALUE_FLAGS then 2 else 1
    ensures FlagsOnly(u + f)
  {
    assert u[|u|..] == [] && Tokens(u) == [if |u| == 2 then Valued(u[0], u[1]) else Flag(u[0])];
    TokensAppend(u, f);
    WordsAppend(Tokens(u), Tokens(f));
    assert Tokens(u)[1..] == [];
  }

  /** Which two words stand for a build or a pull. */
  const LONG_PAIRS: set<(string, string)> := {
    ("buildx", "build"), ("compose", "build"), ("compose", "up"), ("compose", "pull"), ("compose", "create")}

  /** `docker [flags] build|pull ...`, `docker [flags] buildx [flags] build ...` or
      `docker [flags] compose [flags] build|up|pull|create ...`. */
  ghost predicate IsLong(args: seq<string>)
  {
    || (exists f, w, rest :: WordFirst(args, f, w, rest) && w in {"build", "pull"})
    || (exists f, g, more, h, w, rest :: WordFirst(args, f, g, more) && WordFirst(more, h, w, rest) && (g, w) in LONG_PAIRS)
  }

  /** Image builds and pulls get the long time limit, and nothing else does. */
  lemma LongExactly(argv: seq<string>)
    ensures TimeLimit(argv) ==
              if argv != [] && (argv[0] == "docker" || EndsWith(argv[0], "/docker")) && IsLong(argv[1..]) then BUILD_TIMEOUT else 0
  {
    if argv != [] { DockerByName(argv[0]); }
    if argv == [] || !IsDocker(argv[0]) { return; }
    var args := argv[1..];
    if IsLong(args) { LongIsLong(args); } else { ShortIsShort(args); }
  }

  lemma DockerByName(program: string)
    ensures IsDocker(program) <==> program == "docker" || EndsWith(program, "/docker")
  {
    PathNorm.NameExact(program, "docker");
  }

  lemma LongIsLong(args: seq<string>)
    requires IsLong(args)
    ensures Limit(Words(Tokens(args))) == BUILD_TIMEOUT
  {
    if f, w, rest :| WordFirst(args, f, w, rest) && w in {"build", "pull"} {
      FlagsThenWord(args, f, w, rest);
      LimitFirst(w, Words(Tokens(rest)));
    } else {
      var f, g, more, h, w, rest :| WordFirst(args, f, g, more) && WordFirst(more, h, w, rest) && (g, w) in LONG_PAIRS;
      FlagsThenWord(args, f, g, more);
      FlagsThenWord(more, h, w, rest);
      LimitPair(g, w, Words(Tokens(rest)));
    }
  }

  lemma LimitFirst(w: string, ws: seq<string>)
    requires w in {"build", "pull"}
    ensures Limit([w] + ws) == BUILD_TIMEOUT
  {}

  lemma LimitPair(g: string, w: string, ws: seq<string>)
    requires (g, w) in LONG_PAIRS
    ensures Limit([g] + ([w] + ws)) == BUILD_TIMEOUT
  {
    var all := [g] + ([w] + ws);
    assert all[0] == g && all[1] == w;
  }

  lemma ShortIsShort(args: seq<string>)
    requires !IsLong(args)
    ensures Limit(Words(Tokens(args))) == 0
  {
    if Words(Tokens(args)) != [] {
      var f, g, more := FindWord(args);
      assert WordFirst(args, f, g, more);
      if Words(Tokens(more)) != [] {
        var h, w, rest := FindWord(more);
        assert WordFirst(more, h, w, rest) && (g, w) !in LONG_PAIRS;
      }
      LimitOther(g, Words(Tokens(more)));
    }
  }

  lemma LimitOther(g: string, ws: seq<string>)
    requires g !in {"build", "pull"} && (ws == [] || (g, ws[0]) !in LONG_PAIRS)
    ensures Limit([g] + ws) == 0
  {
    var all := [g] + ws;
    assert all[0] == g && (ws != [] ==> all[1] == ws[0]);
  }

  /** Nothing after the second word matters. */
  lemma AfterSecondWord(docker: string, a: seq<string>, b: seq<string>)
    requires Complete(a) && |Words(Tokens(a))| == 2
    ensures TimeLimit([docker] + (a + b)) == TimeLimit([docker] + a)
  {
    TokensAppend(a, b);
    WordsAppend(Tokens(a), Tokens(b));
    LimitOfTwo(Words(Tokens(a)), Words(Tokens(b)));
    assert ([docker] + (a + b))[1..] == a + b && ([docker] + a)[1..] == a;
  }

  /** A flag, with its value if it takes one. */
  predicate IsFlagUnit(u: seq<string>)
  {
    && u != [] && IsFlag(u[0])
    && |u| == if u[0] in VALUE_FLAGS then 2 else 1
  }

  function UnitTok(u: seq<string>): (t: Tok)
    requires IsFlagUnit(u)
  {
    if |u| == 2 then Valued(u[0], u[1]) else Flag(u[0])
  }

  lemma UnitTokens(u: seq<string>)
    requires IsFlagUnit(u)
    ensures Tokens(u) == [UnitTok(u)] && Complete(u)
  {
    assert Tokens(u[|u|..]) == [];
    EmptyPrefix([UnitTok(u)]);
  }

  lemma InsertTokens(a: seq<string>, u: seq<string>, b: seq<string>)
    requires Complete(a) && IsFlagUnit(u)
    ensures Tokens(a + (u + b)) == Tokens(a) + ([UnitTok(u)] + Tokens(b)) && Tokens(a + b) == Tokens(a) + Tokens(b)
  {
    UnitTokens(u);
    TokensAppend(u, b);
    TokensAppend(a, u + b);
    TokensAppend(a, b);
  }

  /** Flags inserted between tokens do not matter. */
  lemma FlagsDoNotMatter(docker: string, a: seq<string>, u: seq<string>, b: seq<string>)
    requires Complete(a) && IsFlagUnit(u)
    ensures TimeLimit([docker] + (a + (u + b))) == TimeLimit([docker] + (a + b))
  {
    InsertTokens(a, u, b);
    WordsAppend(Tokens(a), [UnitTok(u)] + Tokens(b));
    WordsAppend(Tokens(a), Tokens(b));
    WordsAppend([UnitTok(u)], Tokens(b));
    NoWords(UnitTok(u), Words(Tokens(b)));
    assert ([docker] + (a + (u + b)))[1..] == a + (u + b) && ([docker] + (a + b))[1..] == a + b;
  }

  lemma NoWords(t: Tok, ws: seq<string>)
    requires !t.Word?
    ensures Words([t]) + ws == ws
  {
    assert Words([t][1..]) == [];
  }

  // ---------------------------------------------------------------- the project directory

  /** The directory a token names. */
  function Dir(t: Tok): (d: Option<string>)
  {
    match t
    case Word(_) => None
    case Flag(f) => if StartsWith(f, PROJECT_DIR_IS) then Some(f[|PROJECT_DIR_IS|..]) else None
    case Valued(f, v) => if f == PROJECT_DIR then Some(v) else None
  }

  /** Read the tokens with n words behind and `found` so far. */
  function Find(ts: seq<Tok>, n: nat, found: Option<string>): (d: Option<string>)
    decreases |ts|
  {
    if ts == [] then found
    else if ts[0].Word? then
      if n == 0 && ts[0].w != "compose" then None
      else if n >= 1 then found
      else Find(ts[1..], n + 1, found)
    else Find(ts[1..], n, if n == 1 && Dir(ts[0]).Some? then Dir(ts[0]) else found)
  }

  function ProjectDir(argv: seq<string>, isDir: string -> bool): (d: Option<string>)
  {
    if argv == [] || !IsDocker(argv[0]) then None else
    var d := Find(Tokens(argv[1..]), 0, None);
    if d.Some? && StartsWith(d.value, "/") && isDir(d.value) then d else None
  }

  lemma FindStep(args: seq<string>, k: nat, n: nat, found: Option<string>)
    requires k < |args|
    ensures var a, ts := args[k], Tokens(args[k..]);
      && (!IsFlag(a) ==> ts == [Word(a)] + Tokens(args[k + 1..]))
      && (IsFlag(a) && a in VALUE_FLAGS && k + 1 < |args| ==> ts == [Valued(a, args[k + 1])] + Tokens(args[k + 2..]))
      && (IsFlag(a) && (a !in VALUE_FLAGS || k + 1 == |args|) ==> ts == [Flag(a)] + Tokens(args[k + 1..]))
  {
    var rest := args[k..];
    assert rest[0] == args[k] && rest[1..] == args[k + 1..];
    if |rest| > 1 { assert rest[1] == args[k + 1] && rest[2..] == args[k + 2..]; }
  }

  lemma ConsTail(t: Tok, ts: seq<Tok>)
    ensures ([t] + ts)[0] == t && ([t] + ts)[1..] == ts
  {}

  lemma ValueFlagNames(a: string)
    requires a in VALUE_FLAGS
    ensures |a| < |PROJECT_DIR_IS|
  {}

  /** found and pending after a value flag, until its value is read. */
  method ComposeProjectDir(argv: seq<string>, isDir: string -> bool) returns (d: Option<string>)
    ensures d == ProjectDir(argv, isDir)
  {
    if argv == [] || !IsDocker(argv[0]) { return None; }
    var args := argv[1..];
    var words, skip, pending, found := 0, false, false, None;
    var k := 0;
    assert args[0..] == args;
    while k < |args|
      invariant k <= |args| && words <= 1
      invariant !skip ==> Find(Tokens(args), 0, None) == Find(Tokens(args[k..]), words, found)
      invariant skip && k < |args| ==>
        Find(Tokens(args), 0, None) == Find(Tokens(args[k + 1..]), words, if pending then Some(args[k]) else found)
      invariant skip && k == |args| ==> Find(Tokens(args), 0, None) == found
    {
      var a := args[k];
      k := k + 1;
      if skip {
        skip := false;
        if pending { found, pending := Some(a), false; }
        continue;
      }
      FindStep(args, k - 1, words, found);
      if IsFlag(a) {
        ConsTail(Flag(a), Tokens(args[k..]));
        if k < |args| { ConsTail(Valued(a, args[k]), Tokens(args[k + 1..])); }
        if a in VALUE_FLAGS { ValueFlagNames(a); }
        if words == 1 && StartsWith(a, PROJECT_DIR_IS) {
          found := Some(a[|PROJECT_DIR_IS|..]);
        } else if a in VALUE_FLAGS {
          skip := true;
          pending := words == 1 && a == PROJECT_DIR;
        }
        continue;
      }
      ConsTail(Word(a), Tokens(args[k..]));
      words := words + 1;
      if words == 1 && a != "compose" { return None; }
      if words == 2 { break; }
    }
    d := if found.Some? && StartsWith(found.value, "/") && isDir(found.value) then found else None;
  }

  predicate Wordless(ts: seq<Tok>) { forall t :: t in ts ==> !t.Word? }

  /** The last directory named. */
  function LastDir(ts: seq<Tok>): (d: Option<string>)
    decreases |ts|
  {
    if ts == [] then None
    else if Dir(ts[|ts| - 1]).Some? then Dir(ts[|ts| - 1]) else LastDir(ts[..|ts| - 1])
  }

  function Or(d: Option<string>, e: Option<string>): (r: Option<string>) { if d.Some? then d else e }

  lemma {:induction false} LastDirFirst(t: Tok, ts: seq<Tok>)
    ensures LastDir([t] + ts) == Or(LastDir(ts), Dir(t))
    decreases |ts|
  {
    var all := [t] + ts;
    if ts == [] {
      assert all[..0] == [] && all[|all| - 1] == t;
    } else {
      var init := ts[..|ts| - 1];
      assert all[..|all| - 1] == [t] + init && all[|all| - 1] == ts[|ts| - 1];
      LastDirFirst(t, init);
    }
  }

  lemma {:induction false} FindInSecond(mid: seq<Tok>, post: seq<Tok>, found: Option<string>)
    requires Wordless(mid) && (post == [] || post[0].Word?)
    ensures Find(mid + post, 1, found) == Or(LastDir(mid), found)
    decreases |mid|
  {
    if mid == [] {
      EmptyPrefix(post);
    } else {
      assert mid[0] in mid && mid == [mid[0]] + mid[1..];
      assert (mid + post)[0] == mid[0] && (mid + post)[1..] == mid[1..] + post;
      FindInSecond(mid[1..], post, Or(Dir(mid[0]), found));
      LastDirFirst(mid[0], mid[1..]);
    }
  }

  lemma {:induction false} FindSkips(pre: seq<Tok>, ts: seq<Tok>)
    requires Wordless(pre)
    ensures Find(pre + ts, 0, None) == Find(ts, 0, None)
    decreases |pre|
  {
    if pre == [] {
      EmptyPrefix(ts);
    } else {
      assert pre[0] in pre;
      assert (pre + ts)[0] == pre[0] && (pre + ts)[1..] == pre[1..] + ts;
      FindSkips(pre[1..], ts);
    }
  }

  /** The whole specification: only flags between `compose`, which must be the first word, and the
      second word are read, and of those the last that names a directory counts. */
  lemma FindExact(pre: seq<Tok>, w: string, mid: seq<Tok>, post: seq<Tok>)
    requires Wordless(pre) && Wordless(mid) && (post == [] || post[0].Word?)
    ensures Find(pre, 0, None) == None
    ensures Find(pre + ([Word(w)] + (mid + post)), 0, None) == if w == "compose" then LastDir(mid) else None
  {
    FindSkips(pre, []);
    EmptyPrefix(pre);
    FindSkips(pre, [Word(w)] + (mid + post));
    ConsTail(Word(w), mid + post);
    FindInSecond(mid, post, None);
  }

  lemma {:induction false} FindInsert(a: seq<Tok>, t: Tok, b: seq<Tok>, n: nat, found: Option<string>)
    requires !t.Word? && Dir(t).None?
    ensures Find(a + ([t] + b), n, found) == Find(a + b, n, found)
    decreases |a|
  {
    if a == [] {
      EmptyPrefix([t] + b);
      EmptyPrefix(b);
      ConsTail(t, b);
    } else {
      var l, r := a + ([t] + b), a + b;
      assert l[0] == r[0] == a[0] && l[1..] == a[1..] + ([t] + b) && r[1..] == a[1..] + b;
      FindInsert(a[1..], t, b, if a[0].Word? then n + 1 else n, if !a[0].Word? && n == 1 then Or(Dir(a[0]), found) else found);
    }
  }

  lemma {:induction false} FindAfter(a: seq<Tok>, b: seq<Tok>, n: nat, found: Option<string>)
    requires n + |Words(a)| >= 2 && n <= 1
    ensures Find(a + b, n, found) == Find(a, n, found)
    decreases |a|
  {
    var l := a + b;
    assert l[0] == a[0] && l[1..] == a[1..] + b;
    if !a[0].Word? {
      FindAfter(a[1..], b, n, if n == 1 then Or(Dir(a[0]), found) else found);
    } else if n == 0 {
      FindAfter(a[1..], b, 1, found);
    }
  }

  /** Flags that name no project directory do not matter, wherever they stand between tokens. */
  lemma OtherFlagsDoNotMatter(docker: string, a: seq<string>, u: seq<string>, b: seq<string>, isDir: string -> bool)
    requires Complete(a) && IsFlagUnit(u) && Dir(UnitTok(u)).None?
    ensures ProjectDir([docker] + (a + (u + b)), isDir) == ProjectDir([docker] + (a + b), isDir)
  {
    InsertTokens(a, u, b);
    FindInsert(Tokens(a), UnitTok(u), Tokens(b), 0, None);
    assert ([docker] + (a + (u + b)))[1..] == a + (u + b) && ([docker] + (a + b))[1..] == a + b;
  }

  /** Nor does anything after the second word: the arguments of `run` and `exec` are never read. */
  lemma ArgumentsDoNotMatter(docker: string, a: seq<string>, b: seq<string>, isDir: string -> bool)
    requires Complete(a) && |Words(Tokens(a))| == 2
    ensures ProjectDir([docker] + (a + b), isDir) == ProjectDir([docker] + a, isDir)
  {
    TokensAppend(a, b);
    FindAfter(Tokens(a), Tokens(b), 0, None);
    assert ([docker] + (a + b))[1..] == a + b && ([docker] + a)[1..] == a;
  }
}
