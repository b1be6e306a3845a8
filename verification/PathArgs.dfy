/**
 The operands of a command that takes paths, and the working directory the caller supplies.
 */
module PathArgs {
  import opened Wrappers
  import opened PathNorm
  import opened PathRules

  /** What a relative operand is joined to. */
  function Base(cwd: string): (r: string) { if StartsWith(cwd, "/") then cwd else "/" }

  function Positional(args: seq<string>): (r: seq<string>)
    decreases |args|
  {
    if args == [] then []
    else var init, a := args[..|args| - 1], args[|args| - 1];
         Positional(init) + if StartsWith(a, "-") then [] else [a]
  }

  predicate TakesMode(base: string) { base == "chmod" || base == "chown" }

  /** chmod and chown take a mode or an owner first. */
  function Operands(base: string, args: seq<string>): (r: seq<string>)
  {
    var ps := Positional(args);
    if TakesMode(base) && ps != [] then ps[1..] else ps
  }

  predicate Granted(r: Rules, within: (string, string) -> bool, cwd: string, a: string)
  {
    PathAllowed(r, within, JoinPath(Base(cwd), a), false).Ok?
  }

  predicate AllGranted(r: Rules, within: (string, string) -> bool, cwd: string, os: seq<string>)
  {
    forall i :: 0 <= i < |os| ==> Granted(r, within, cwd, os[i])
  }

  /** The i-th operand is refused for `why`, and none before it is. */
  predicate FirstRefused(r: Rules, within: (string, string) -> bool, cwd: string, os: seq<string>, i: nat, why: Reason)
  {
    i < |os| && AllGranted(r, within, cwd, os[..i])
    && PathAllowed(r, within, JoinPath(Base(cwd), os[i]), false) == Denied(why)
  }

  /** Every operand is judged, wherever it stands; the reason is that of the first one refused. */
  method CheckPathArgs(r: Rules, within: (string, string) -> bool, base: string, args: seq<string>, cwd: string)
      returns (refused: Option<Reason>)
    ensures refused.None? <==> AllGranted(r, within, cwd, Operands(base, args))
    ensures refused.Some? ==> exists i :: FirstRefused(r, within, cwd, Operands(base, args), i, refused.value)
  {
    var seen := false;
    for k := 0 to |args|
      invariant seen <==> Positional(args[..k]) != []
      invariant AllGranted(r, within, cwd, Operands(base, args[..k]))
    {
      TakeMore(args, k);
      OperandsMore(base, args[..k], args[k]);
      if StartsWith(args[k], "-") { continue; }
      if TakesMode(base) && !seen {
        seen := true;
        continue;
      }
      seen := true;
      var target := if StartsWith(args[k], "/") then args[k] else JoinPath(Base(cwd), args[k]);
      var v := PathAllowed(r, within, target, false);
      if v.Denied? {
        RefusedAt(r, within, cwd, Operands(base, args[..k]), args[k], Operands(base, args), v.why) by {
          OperandsPrefix(base, args, k + 1);
        }
        return Some(v.why);
      }
      GrantedMore(r, within, cwd, Operands(base, args[..k]), args[k]);
    }
    TakeAll(args);
    return None;
  }

  lemma GrantedMore(r: Rules, within: (string, string) -> bool, cwd: string, os: seq<string>, a: string)
    requires AllGranted(r, within, cwd, os) && Granted(r, within, cwd, a)
    ensures AllGranted(r, within, cwd, os + [a])
  {}

  lemma RefusedAt(r: Rules, within: (string, string) -> bool, cwd: string, os: seq<string>, a: string, all: seq<string>, why: Reason)
    requires AllGranted(r, within, cwd, os) && os + [a] <= all
    requires PathAllowed(r, within, JoinPath(Base(cwd), a), false) == Denied(why)
    ensures FirstRefused(r, within, cwd, all, |os|, why) && !AllGranted(r, within, cwd, all)
  {
    assert all[|os|] == (os + [a])[|os|] == a && all[..|os|] == os;
    assert !Granted(r, within, cwd, all[|os|]);
  }

  lemma OperandsMore(base: string, init: seq<string>, a: string)
    ensures Operands(base, init + [a]) == Operands(base, init)
      + if StartsWith(a, "-") || (TakesMode(base) && Positional(init) == []) then [] else [a]
    ensures Positional(init + [a]) == Positional(init) + if StartsWith(a, "-") then [] else [a]
  {
    InitOfSnoc(init, a);
  }

  lemma {:induction false} OperandsPrefix(base: string, args: seq<string>, k: nat)
    requires k <= |args|
    ensures Operands(base, args[..k]) <= Operands(base, args)
    decreases |args| - k
  {
    if k == |args| {
      TakeAll(args);
    } else {
      TakeMore(args, k);
      OperandsMore(base, args[..k], args[k]);
      OperandsPrefix(base, args, k + 1);
    }
  }

  // ---------------------------------------------------------------- relative operands

  lemma SlashesOfJoin(cwd: string, a: string)
    requires StartsWith(cwd, "/") && !StartsWith(a, "/")
    ensures Slashes(JoinPath(cwd, a)) == Slashes(cwd) && ('\0' in JoinPath(cwd, a) <==> '\0' in cwd || '\0' in a)
  {
    var j := JoinPath(cwd, a);
    assert j[0] == cwd[0] == '/';
    assert a != "" ==> a[0] != '/' by { SlashFirst(a); }
    SlashChars(cwd);
    SlashChars(j);
  }

  lemma SlashFirst(a: string)
    ensures StartsWith(a, "/") <==> SlashAt(a, 0)
  {
    assert SlashAt(a, 0) ==> a[..1] == "/";
  }

  predicate SlashAt(p: string, k: nat) { k < |p| && p[k] == '/' }

  lemma SlashChars(p: string)
    ensures Slashes(p) == if !SlashAt(p, 0) then "" else if SlashAt(p, 1) && !SlashAt(p, 2) then "//" else "/"
  {
    assert SlashAt(p, 0) ==> p[..1] == "/";
    assert SlashAt(p, 0) && SlashAt(p, 1) ==> p[..2] == "//";
    assert SlashAt(p, 0) && SlashAt(p, 1) && SlashAt(p, 2) ==> p[..3] == "///";
    assert StartsWith(p, "//") ==> p[1] == p[..2][1];
    assert StartsWith(p, "///") ==> p[2] == p[..3][2];
  }

  /** Joined to an absolute directory, a relative operand names what its components lead to from
      there. */
  lemma RelativeAbs(cwd: string, a: string)
    requires Abs(cwd).Ok? && !StartsWith(a, "/") && '\0' !in a
    ensures Abs(JoinPath(cwd, a)) == Ok(Slashes(cwd) + Join(PushAll(true, Resolved(cwd), Split(a))))
  {
    AbsExact(cwd);
    SlashesOfJoin(cwd, a);
    RelativeResolves(cwd, a);
    var j := JoinPath(cwd, a);
    assert j[..1] == cwd[..1];
    AbsExact(j);
  }

  /** What an operand names.  An absolute one names itself; a relative one what its components lead to from the
      working directory, or from the root where that is not absolute. */
  lemma OperandNames(cwd: string, a: string)
    requires '\0' !in cwd && '\0' !in a && a != ""
    ensures Abs(JoinPath(Base(cwd), a)) ==
              if StartsWith(a, "/") then Abs(a)
              else if StartsWith(cwd, "/") then Ok(Slashes(cwd) + Join(PushAll(true, Resolved(cwd), Split(a))))
              else Ok("/" + Join(PushAll(true, [], Split(a))))
  {
    AbsExact(cwd);
    AbsExact("/");
    if !StartsWith(a, "/") {
      RelativeAbs(Base(cwd), a);
      RootIsEmpty();
    }
  }

  lemma RootIsEmpty()
    ensures Abs("/").Ok? && Slashes("/") == "/" && Resolved("/") == []
  {
    AbsExact("/");
    SlashChars("/");
    SplitSlash("", "");
    assert "" + "/" + "" == "/" && Split("") == [""] && [""] + [""] == ["", ""];
    assert ["", ""][..1] == [""] && [""][..0] == [];
  }

  /** The mode or owner of chmod and chown is no path, and of no other command is the first word left out. */
  lemma ModeIsNoPath(base: string, mode: string, rest: seq<string>)
    requires !StartsWith(mode, "-")
    ensures Operands(base, [mode] + rest) == if base in {"chmod", "chown"} then Positional(rest) else [mode] + Positional(rest)
  {
    PositionalFirst(mode, rest);
    assert ([mode] + Positional(rest))[1..] == Positional(rest);
  }

  lemma {:induction false} PositionalFirst(a: string, rest: seq<string>)
    requires !StartsWith(a, "-")
    ensures Positional([a] + rest) == [a] + Positional(rest)
    decreases |rest|
  {
    var all := [a] + rest;
    if rest == [] {
      assert all[..0] == [] && all[0] == a;
    } else {
      var init, last := rest[..|rest| - 1], rest[|rest| - 1];
      assert all[..|all| - 1] == [a] + init && all[|all| - 1] == last;
      PositionalFirst(a, init);
      Assoc([a], Positional(init), if StartsWith(last, "-") then [] else [last]);
    }
  }

  /** The verdict on an operand depends on the normalised directory only: every spelling of the
      working directory gives the same. */
  lemma VerdictOnNormalisedCwd(r: Rules, within: (string, string) -> bool, cwd: string, a: string)
    requires Abs(cwd).Ok?
    ensures PathAllowed(r, within, JoinPath(cwd, a), false)
         == PathAllowed(r, within, JoinPath(Abs(cwd).path, a), false)
  {
    if !StartsWith(a, "/") {
      var n := Abs(cwd).path;
      AbsIdempotent(cwd);
      AbsExact(cwd);
      AbsExact(n);
      SlashesOfJoin(cwd, a);
      SlashesOfJoin(n, a);
      SlashesOfCanonical(Slashes(cwd), Resolved(cwd));
      SplitAbsolute(Slashes(cwd), Resolved(cwd));
      if '\0' !in a {
        RelativeAbs(cwd, a);
        RelativeAbs(n, a);
        VerdictOnNormalised(r, within, JoinPath(cwd, a), false);
        VerdictOnNormalised(r, within, JoinPath(n, a), false);
      }
    }
  }
}
