/**
 Lexical path normalisation as the broker does it: Python's `os.path.normpath` followed by the
 checks of `_abs`.  Paths are strings; their meaning is a list of components.
 */
module PathNorm {
  import opened Wrappers

  type Comps = seq<string>

  // ---------------------------------------------------------------- split and join

  /** Python's s.split('/'). */
  function Split(s: string): (r: Comps)
    ensures r != []
    decreases |s|
  {
    if s == "" then [""]
    else if s[|s| - 1] == '/' then Split(s[..|s| - 1]) + [""]
    else var r := Split(s[..|s| - 1]); r[..|r| - 1] + [r[|r| - 1] + [s[|s| - 1]]]
  }

  /** Python's '/'.join(cs). */
  function Join(cs: Comps): (r: string)
    decreases |cs|
  {
    if cs == [] then "" else if |cs| == 1 then cs[0] else Join(cs[..|cs| - 1]) + "/" + cs[|cs| - 1]
  }

  predicate NoSlash(c: string) { '/' !in c }

  predicate NoSlashes(cs: Comps) { forall i :: 0 <= i < |cs| ==> NoSlash(cs[i]) }

  lemma {:induction false} SplitAppend(a: string, c: string)
    requires NoSlash(c)
    ensures Split(a + c) == Split(a)[..|Split(a)| - 1] + [Split(a)[|Split(a)| - 1] + c]
    decreases |c|
  {
    var r := Split(a);
    if c == "" {
      EmptyPrefix(a);
      EmptyPrefix(r[|r| - 1]);
      assert r == r[..|r| - 1] + [r[|r| - 1]];
    } else {
      var init, x := c[..|c| - 1], c[|c| - 1];
      assert x in c && c == init + [x];
      SplitAppend(a, init);
      assert (a + c)[..|a + c| - 1] == a + init;
      Assoc(r[|r| - 1], init, [x]);
    }
  }

  /** Appending one character. */
  lemma SplitSnoc(a: string, x: char)
    ensures x == '/' ==> Split(a + [x]) == Split(a) + [""]
    ensures x != '/' ==> Split(a + [x]) == Split(a)[..|Split(a)| - 1] + [Split(a)[|Split(a)| - 1] + [x]]
  {
    InitOfSnoc(a, x);
  }

  lemma {:induction false} SplitSlash(a: string, b: string)
    ensures Split(a + "/" + b) == Split(a) + Split(b)
    decreases |b|
  {
    var l := a + "/";
    if b == "" {
      EmptyPrefix(l);
      SplitSnoc(a, '/');
    } else {
      var init, x := b[..|b| - 1], b[|b| - 1];
      InitLast(b);
      Assoc(l, init, [x]);
      SplitSlash(a, init);
      SplitSnoc(l + init, x);
      SplitSnoc(init, x);
      LastOfAppend(Split(a), Split(init), [x]);
    }
  }

  lemma LastOfAppend(l: Comps, r: Comps, x: string)
    requires r != []
    ensures l + r + [""] == l + (r + [""])
    ensures (l + r)[..|l + r| - 1] + [(l + r)[|l + r| - 1] + x] == l + (r[..|r| - 1] + [r[|r| - 1] + x])
  {}

  lemma SplitPlain(c: string)
    requires NoSlash(c)
    ensures Split(c) == [c]
  {
    EmptyPrefix(c);
    SplitAppend("", c);
  }

  function Name(p: string): (c: string) { Split(p)[|Split(p)| - 1] }

  /** os.path.basename, as the last component: the path is that name, or ends in it behind a slash. */
  lemma {:induction false} NameExact(p: string, c: string)
    requires NoSlash(c)
    ensures Name(p) == c <==> p == c || EndsWith(p, "/" + c)
    decreases |p|
  {
    if p == c { SplitPlain(c); }
    if EndsWith(p, "/" + c) {
      var a := p[..|p| - |"/" + c|];
      assert p == a + "/" + c;
      SplitSlash(a, c);
      SplitPlain(c);
    }
    if Name(p) == c && p != c { NameAtEnd(p, c); }
  }

  lemma {:induction false} NameAtEnd(p: string, c: string)
    requires NoSlash(c) && Name(p) == c && p != c
    ensures EndsWith(p, "/" + c)
    decreases |p|
  {
    var init, x := p[..|p| - 1], p[|p| - 1];
    if x == '/' {
      assert c == "";
    } else {
      var c0 := Name(init);
      assert c == c0 + [x] && init + [x] == p;
      assert NoSlash(c0) by { forall k | 0 <= k < |c0| ensures c0[k] != '/' { assert c[k] in c; } }
      NameAtEnd(init, c0);
      assert "/" + c == "/" + c0 + [x];
    }
  }

  lemma {:induction false} SplitJoin(cs: Comps)
    requires cs != [] && NoSlashes(cs)
    ensures Split(Join(cs)) == cs
    decreases |cs|
  {
    var init, c := cs[..|cs| - 1], cs[|cs| - 1];
    assert NoSlash(c);
    SplitPlain(c);
    if |cs| == 1 {
      assert cs == [c];
    } else {
      SplitJoin(init);
      assert Join(cs) == Join(init) + "/" + c;
      SplitSlash(Join(init), c);
      InitLast(cs);
    }
  }

  lemma {:induction false} SplitNoSlashes(s: string)
    ensures NoSlashes(Split(s))
    decreases |s|
  {
    if s != "" { SplitNoSlashes(s[..|s| - 1]); }
  }

  // ---------------------------------------------------------------- normpath

  /** One component on the stack of `normpath`; `abs`: the path is absolute. */
  function Push(abs: bool, stack: Comps, c: string): (r: Comps)
  {
    if c == "" || c == "." then stack
    else if c != ".." || (!abs && stack == []) || (stack != [] && stack[|stack| - 1] == "..") then stack + [c]
    else if stack != [] then stack[..|stack| - 1] else stack
  }

  function PushAll(abs: bool, stack: Comps, cs: Comps): (r: Comps)
    decreases |cs|
  {
    if cs == [] then stack else Push(abs, PushAll(abs, stack, cs[..|cs| - 1]), cs[|cs| - 1])
  }

  /** Exactly two leading slashes are kept, any other number becomes one. */
  function Slashes(path: string): (r: string)
  {
    if !StartsWith(path, "/") then "" else if StartsWith(path, "//") && !StartsWith(path, "///") then "//" else "/"
  }

  function NormPath(path: string): (r: string)
  {
    if path == "" then "." else
    var p := Slashes(path) + Join(PushAll(Slashes(path) != "", [], Split(path)));
    if p == "" then "." else p
  }

  datatype Reason = Empty | HasNul | NotAbsolute | Traversal | Listed | Escapes | NotListed

  datatype Verdict = Ok(path: string) | Denied(why: Reason)

  function Abs(path: string): (r: Verdict)
  {
    if path == "" then Denied(Empty)
    else if '\0' in path then Denied(HasNul)
    else
      var p := NormPath(path);
      if !StartsWith(p, "/") then Denied(NotAbsolute)
      else if ".." in Split(p) then Denied(Traversal)
      else Ok(p)
  }

  /** A component that names a directory entry. */
  predicate Proper(c: string) { c != "" && c != "." && c != ".." && NoSlash(c) }

  predicate Canonical(cs: Comps) { forall i :: 0 <= i < |cs| ==> Proper(cs[i]) }

  lemma {:induction false} PushAllCanonical(stack: Comps, cs: Comps)
    requires Canonical(stack) && NoSlashes(cs)
    ensures Canonical(PushAll(true, stack, cs))
    decreases |cs|
  {
    if cs != [] {
      PushAllCanonical(stack, cs[..|cs| - 1]);
      assert NoSlash(cs[|cs| - 1]);
    }
  }

  lemma {:induction false} PushAllAppend(abs: bool, stack: Comps, a: Comps, b: Comps)
    ensures PushAll(abs, stack, a + b) == PushAll(abs, PushAll(abs, stack, a), b)
    decreases |b|
  {
    if b == [] {
      EmptyPrefix(a);
    } else {
      assert (a + b)[..|a + b| - 1] == a + b[..|b| - 1];
      PushAllAppend(abs, stack, a, b[..|b| - 1]);
    }
  }

  lemma {:induction false} PushAllProper(stack: Comps, cs: Comps)
    requires Canonical(stack) && Canonical(cs)
    ensures PushAll(true, stack, cs) == stack + cs
    decreases |cs|
  {
    if cs == [] {
      EmptyPrefix(stack);
    } else {
      var init, c := cs[..|cs| - 1], cs[|cs| - 1];
      PushAllProper(stack, init);
      assert Proper(c) && cs == init + [c];
      Assoc(stack, init, [c]);
    }
  }

  /** The directory entries an absolute path names. */
  function Resolved(path: string): (r: Comps) { PushAll(true, [], Split(path)) }

  lemma ResolvedCanonical(path: string)
    ensures Canonical(Resolved(path))
  {
    SplitNoSlashes(path);
    PushAllCanonical([], Split(path));
  }

  lemma {:induction false} JoinHead(cs: Comps)
    requires Canonical(cs)
    ensures cs == [] <==> Join(cs) == ""
    ensures Join(cs) != "" ==> Join(cs)[0] != '/'
    decreases |cs|
  {
    if cs != [] {
      assert Proper(cs[0]) && cs[0][0] in cs[0];
      if |cs| > 1 { JoinHead(cs[..|cs| - 1]); }
    }
  }

  lemma CanonicalNoSlashes(cs: Comps)
    requires Canonical(cs)
    ensures NoSlashes(cs)
  {
    forall i | 0 <= i < |cs| ensures NoSlash(cs[i]) { assert Proper(cs[i]); }
  }

  /** The components of a canonical absolute path as `split` gives them. */
  function Parts(sl: string, cs: Comps): Comps
  {
    (if sl == "/" then [""] else ["", ""]) + (if cs == [] then [""] else cs)
  }

  lemma SplitAfterSlash(x: string)
    ensures Split("/" + x) == [""] + Split(x)
  {
    var e, sl := "", "/";
    SplitSlash(e, x);
    EmptyPrefix(sl);
  }

  lemma SplitRooted(sl: string, cs: Comps)
    requires Canonical(cs) && (sl == "/" || sl == "//")
    ensures Split(sl + Join(cs)) == Parts(sl, cs)
  {
    var tail := if cs == [] then [""] else cs;
    assert Split(Join(cs)) == tail by {
      CanonicalNoSlashes(cs);
      if cs != [] { SplitJoin(cs); }
    }
    SplitAfterSlash(Join(cs));
    if sl == "//" {
      SplitAfterSlash("/" + Join(cs));
      Assoc("/", "/", Join(cs));
      Assoc([""], [""], tail);
      assert "/" + "/" == sl && [""] + [""] == ["", ""];
    }
  }

  lemma EmptyPushed(cs: Comps)
    ensures PushAll(true, [], [""] + cs) == PushAll(true, [], cs)
  {
    assert [""][..0] == [];
    PushAllAppend(true, [], [""], cs);
  }

  lemma PartsResolve(sl: string, cs: Comps)
    requires Canonical(cs)
    ensures PushAll(true, [], Parts(sl, cs)) == cs && ".." !in Parts(sl, cs)
  {
    var tail := if cs == [] then [""] else cs;
    assert PushAll(true, [], tail) == cs by {
      if cs == [] { assert [""][..0] == []; } else { PushAllProper([], cs); EmptyPrefix(cs); }
    }
    EmptyPushed(tail);
    EmptyPushed([""] + tail);
    Assoc([""], [""], tail);
    assert [""] + [""] == ["", ""];
    forall i | 0 <= i < |cs| ensures cs[i] != ".." { assert Proper(cs[i]); }
  }

  lemma SplitAbsolute(sl: string, cs: Comps)
    requires Canonical(cs) && (sl == "/" || sl == "//")
    ensures Resolved(sl + Join(cs)) == cs && ".." !in Split(sl + Join(cs))
  {
    SplitRooted(sl, cs);
    PartsResolve(sl, cs);
  }

  /** An absolute path without NUL is never refused here: normalisation leaves no `..`, so the
      traversal test cannot fire. */
  lemma AbsExact(path: string)
    ensures Abs(path).Ok? <==> StartsWith(path, "/") && '\0' !in path
    ensures Abs(path).Ok? ==> Abs(path).path == Slashes(path) + Join(Resolved(path)) && Canonical(Resolved(path))
    ensures Abs(path) != Denied(Traversal)
  {
    ResolvedCanonical(path);
    if path != "" {
      if StartsWith(path, "/") {
        SplitAbsolute(Slashes(path), Resolved(path));
      } else {
        RelativeStays(path);
      }
    }
  }

  predicate Relative(cs: Comps) { forall i :: 0 <= i < |cs| ==> cs[i] != "" && NoSlash(cs[i]) }

  lemma {:induction false} PushAllRelative(cs: Comps)
    requires NoSlashes(cs)
    ensures Relative(PushAll(false, [], cs))
    decreases |cs|
  {
    if cs != [] {
      PushAllRelative(cs[..|cs| - 1]);
      assert NoSlash(cs[|cs| - 1]);
    }
  }

  lemma {:induction false} JoinRelative(cs: Comps)
    requires Relative(cs)
    ensures Join(cs) == "" || Join(cs)[0] != '/'
    decreases |cs|
  {
    if cs != [] {
      assert NoSlash(cs[0]) && cs[0] != "" && cs[0][0] in cs[0];
      if |cs| > 1 { JoinRelative(cs[..|cs| - 1]); JoinNonEmpty(cs[..|cs| - 1]); }
    }
  }

  lemma {:induction false} JoinNonEmpty(cs: Comps)
    requires Relative(cs) && cs != []
    ensures Join(cs) != ""
  {}

  lemma RelativeStays(path: string)
    requires path != "" && !StartsWith(path, "/")
    ensures !StartsWith(NormPath(path), "/")
  {
    var cs := PushAll(false, [], Split(path));
    SplitNoSlashes(path);
    PushAllRelative(Split(path));
    JoinRelative(cs);
    EmptyPrefix(Join(cs));
  }

  lemma SlashesOfCanonical(sl: string, cs: Comps)
    requires Canonical(cs) && (sl == "/" || sl == "//")
    ensures Slashes(sl + Join(cs)) == sl
  {
    JoinHead(cs);
    var p := sl + Join(cs);
    assert p[..|sl|] == sl;
    if sl == "/" {
      if |p| >= 2 { assert p[1] == Join(cs)[0] && p[..2][1] == p[1]; }
    } else {
      assert p[..1] == "/";
      if |p| >= 3 { assert p[2] == Join(cs)[0] && p[..3][2] == p[2]; }
    }
  }

  /** Normalisation is idempotent. */
  lemma AbsIdempotent(path: string)
    requires Abs(path).Ok?
    ensures Abs(Abs(path).path) == Abs(path)
  {
    AbsExact(path);
    AbsNoNul(path);
    var sl, cs := Slashes(path), Resolved(path);
    SplitAbsolute(sl, cs);
    SlashesOfCanonical(sl, cs);
    AbsExact(sl + Join(cs));
  }

  predicate NulFree(c: string) { '\0' !in c }

  predicate NulFreeAll(cs: Comps) { forall i :: 0 <= i < |cs| ==> NulFree(cs[i]) }

  lemma {:induction false} SplitNoNul(s: string)
    requires NulFree(s)
    ensures NulFreeAll(Split(s))
    decreases |s|
  {
    if s != "" {
      var r := Split(s[..|s| - 1]);
      SplitNoNul(s[..|s| - 1]);
      assert NulFree(r[|r| - 1]);
      assert s[|s| - 1] in s;
    }
  }

  lemma {:induction false} PushAllNoNul(cs: Comps)
    requires NulFreeAll(cs)
    ensures NulFreeAll(PushAll(true, [], cs))
    decreases |cs|
  {
    if cs != [] {
      PushAllNoNul(cs[..|cs| - 1]);
      assert NulFree(cs[|cs| - 1]);
    }
  }

  lemma {:induction false} JoinNoNul(cs: Comps)
    requires NulFreeAll(cs)
    ensures NulFree(Join(cs))
    decreases |cs|
  {
    if cs != [] {
      assert NulFree(cs[|cs| - 1]);
      if |cs| > 1 { JoinNoNul(cs[..|cs| - 1]); }
    }
  }

  lemma AbsNoNul(path: string)
    requires Abs(path).Ok?
    ensures '\0' !in Abs(path).path
  {
    AbsExact(path);
    SplitNoNul(path);
    PushAllNoNul(Split(path));
    JoinNoNul(Resolved(path));
  }

  // ---------------------------------------------------------------- containment

  /** A directory entry of the rulebook: "/a/b/". */
  function Dir(ds: Comps): (r: string) { "/" + Join(ds) + "/" }

  function File(cs: Comps): (r: string) { "/" + Join(cs) }

  /** Python's a.rstrip('/'). */
  function RStrip(a: string): (r: string) decreases |a|
  {
    if a != "" && a[|a| - 1] == '/' then RStrip(a[..|a| - 1]) else a
  }

  /** The broker's test of a path against an allowed directory. */
  predicate Under(p: string, a: string) { StartsWith(p, a) || p == RStrip(a) }

  lemma {:induction false} JoinLast(cs: Comps)
    requires Canonical(cs) && cs != []
    ensures Join(cs) != "" && Join(cs)[|Join(cs)| - 1] != '/'
  {
    var c := cs[|cs| - 1];
    assert Proper(c) && c[|c| - 1] in c;
  }

  lemma RStripDir(ds: Comps)
    requires Canonical(ds) && ds != []
    ensures RStrip(Dir(ds)) == File(ds)
  {
    JoinLast(ds);
    var a := Dir(ds);
    assert a[..|a| - 1] == File(ds);
    assert File(ds)[|File(ds)| - 1] == Join(ds)[|Join(ds)| - 1];
  }

  lemma {:induction false} JoinAppend(a: Comps, b: Comps)
    requires a != [] && b != []
    ensures Join(a + b) == Join(a) + "/" + Join(b)
    decreases |b|
  {
    var init, c := b[..|b| - 1], b[|b| - 1];
    assert (a + b)[..|a + b| - 1] == a + init;
    if |b| == 1 {
      EmptyPrefix(a);
    } else {
      JoinAppend(a, init);
      Assoc(Join(a) + "/" + Join(init), "/", c);
      Assoc(Join(a) + "/", Join(init), "/" + c);
      Assoc(Join(init), "/", c);
    }
  }

  lemma PrefixIsUnder(cs: Comps, ds: Comps)
    requires Canonical(cs) && Canonical(ds) && ds != [] && ds <= cs
    ensures Under(File(cs), Dir(ds))
  {
    var rest := cs[|ds|..];
    assert cs == ds + rest;
    if rest == [] {
      EmptyPrefix(ds);
      RStripDir(ds);
    } else {
      var a, r := Dir(ds), Join(rest);
      JoinAppend(ds, rest);
      Assoc("/", Join(ds) + "/", r);
      Assoc("/", Join(ds), "/");
      assert (a + r)[..|a|] == a;
    }
  }

  /** The string test decides containment component by component. */
  lemma UnderIsPrefix(cs: Comps, ds: Comps)
    requires Canonical(cs) && Canonical(ds) && ds != []
    ensures Under(File(cs), Dir(ds)) <==> ds <= cs
  {
    var p, a := File(cs), Dir(ds);
    if ds <= cs { PrefixIsUnder(cs, ds); }
    RStripDir(ds);
    if p == RStrip(a) {
      FileInjective(cs, ds);
    } else if StartsWith(p, a) {
      JoinLast(ds);
      assert |p| == 1 + |Join(cs)| && cs != [];
      assert p == a + p[|a|..];
      PrefixOfComponents(cs, ds, p[|a|..]);
    }
  }

  lemma FileInjective(cs: Comps, ds: Comps)
    requires Canonical(cs) && Canonical(ds) && File(cs) == File(ds)
    ensures cs == ds
  {
    SplitAbsolute("/", cs);
    SplitAbsolute("/", ds);
  }

  lemma PrefixOfComponents(cs: Comps, ds: Comps, rest: string)
    requires Canonical(cs) && Canonical(ds) && cs != [] && ds != [] && File(cs) == Dir(ds) + rest
    ensures ds <= cs
  {
    CanonicalNoSlashes(cs);
    CanonicalNoSlashes(ds);
    SplitJoin(cs);
    SplitJoin(ds);
    SplitSlash(Join(ds), rest);
    assert Join(cs) == File(cs)[1..] == Join(ds) + "/" + rest;
    assert cs == ds + Split(rest);
  }

  // ---------------------------------------------------------------- relative arguments

  /** os.path.join(b, a). */
  function JoinPath(b: string, a: string): (r: string)
  {
    if StartsWith(a, "/") then a
    else if b == "" || b[|b| - 1] == '/' then b + a
    else b + "/" + a
  }

  /** A relative argument resolves component by component from the resolved directory. */
  lemma RelativeResolves(cwd: string, a: string)
    requires StartsWith(cwd, "/") && !StartsWith(a, "/")
    ensures Resolved(JoinPath(cwd, a)) == PushAll(true, Resolved(cwd), Split(a))
  {
    if cwd[|cwd| - 1] == '/' {
      var d := cwd[..|cwd| - 1];
      assert cwd + a == d + "/" + a;
      SplitSlash(d, a);
      PushAllAppend(true, [], Split(d), Split(a));
      assert Split(cwd) == Split(d) + [""];
      assert Split(cwd)[..|Split(cwd)| - 1] == Split(d);
    } else {
      SplitSlash(cwd, a);
      PushAllAppend(true, [], Split(cwd), Split(a));
    }
  }
}
