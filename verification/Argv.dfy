/**
 Two gates on command lines, each against the grammar it is meant to accept: systemd-run in three
 fixed shapes, and semodule for listing and for removing the two modules of TAK.
 */
module Argv {
  import opened Wrappers
  import PathNorm

  // ---------------------------------------------------------------- systemd-run

  datatype Unit = KernelPatch | Migrate | OsUpgrade

  function UnitName(u: Unit): (s: string)
  {
    match u case KernelPatch => "infratak-kernel-patch" case Migrate => "infratak-nonroot-migrate" case OsUpgrade => "infratak-os-upgrade"
  }

  function UnitNamed(s: string): (u: Option<Unit>)
  {
    if s == "infratak-kernel-patch" then Some(KernelPatch)
    else if s == "infratak-nonroot-migrate" then Some(Migrate)
    else if s == "infratak-os-upgrade" then Some(OsUpgrade)
    else None
  }

  /** The options of the grammar. */
  datatype Opt = NoBlock | Collect | UnitIs(u: Unit) | Description(text: string) | Property(text: string) | SetEnv(text: string)

  function Show(o: Opt): (a: string)
  {
    match o
    case NoBlock => "--no-block"
    case Collect => "--collect"
    case UnitIs(u) => "--unit=" + UnitName(u)
    case Description(t) => "--description=" + t
    case Property(t) => "--property=" + t
    case SetEnv(t) => "--setenv=" + t
  }

  function ShowAll(os: seq<Opt>): (r: seq<string>)
    ensures |r| == |os| && forall i :: 0 <= i < |os| ==> r[i] == Show(os[i])
  {
    seq(|os|, i requires 0 <= i < |os| => Show(os[i]))
  }

  function Properties(u: Unit): (r: set<string>)
  {
    match u
    case KernelPatch => {"StandardOutput=append:/var/log/takguard/kernel-patch.log", "StandardError=append:/var/log/takguard/kernel-patch.log"}
    case Migrate => {"StandardOutput=append:/var/log/takwerx-console-nonroot-migrate.log",
                     "StandardError=append:/var/log/takwerx-console-nonroot-migrate.log",
                     "SELinuxContext=system_u:system_r:unconfined_service_t:s0"}
    case OsUpgrade => {"StandardOutput=append:/var/log/infratak-os-upgrade.log", "StandardError=append:/var/log/infratak-os-upgrade.log"}
  }

  function Environment(u: Unit): (r: set<string>)
  {
    {"DEBIAN_FRONTEND=noninteractive", "NEEDRESTART_MODE=a", "PATH=/usr/sbin:/usr/bin:/sbin:/bin"}
    + if u.OsUpgrade? then {"RELEASE_UPGRADER_NO_SCREEN=1"} else {}
  }

  /** The command a unit may launch. */
  predicate IsCommand(u: Unit, cmd: seq<string>)
  {
    match u
    case KernelPatch => cmd == ["/bin/bash", "/var/lib/infratak-kernel-patch.sh"]
    case OsUpgrade => cmd == ["/bin/bash", "/var/lib/infratak-os-upgrade.sh"]
    case Migrate =>
      && |cmd| == 4 && cmd[0] == "/bin/bash"
      && EndsWith(cmd[1], "/scripts/migrate-console-nonroot.sh") && ".." !in PathNorm.Split(cmd[1])
      && cmd[2..] == ["--apply", "--auto-rollback"]
  }

  predicate Fits(o: Opt, u: Unit)
  {
    (o.Property? ==> o.text in Properties(u)) && (o.SetEnv? ==> o.text in Environment(u))
  }

  /** u is the last unit named. */
  predicate LastUnit(os: seq<Opt>, u: Unit)
  {
    exists i :: 0 <= i < |os| && os[i] == UnitIs(u) && forall j :: i < j < |os| ==> !os[j].UnitIs?
  }

  /** The grammar: options, then the command; the last unit named decides which command and which
      property and environment strings. */
  predicate Sentence(os: seq<Opt>, u: Unit, cmd: seq<string>)
  {
    LastUnit(os, u) && (forall i :: 0 <= i < |os| ==> Fits(os[i], u)) && IsCommand(u, cmd)
  }

  predicate IsFlag(a: string) { StartsWith(a, "-") }

  /** How the gate reads one flag. */
  function ReadFlag(a: string): (o: Option<Opt>)
  {
    if a == "--no-block" then Some(NoBlock)
    else if a == "--collect" then Some(Collect)
    else if StartsWith(a, "--unit=") then (var u := UnitNamed(a[7..]); if u.Some? then Some(UnitIs(u.value)) else None)
    else if StartsWith(a, "--description=") then Some(Description(a[14..]))
    else if StartsWith(a, "--property=") then Some(Property(a[11..]))
    else if StartsWith(a, "--setenv=") then Some(SetEnv(a[9..]))
    else None
  }

  lemma PrefixChars(a: string, p: string)
    ensures StartsWith(a, p) ==> forall k :: 0 <= k < |p| ==> a[k] == p[k]
  {}

  lemma PrefixRest(p: string, t: string)
    ensures StartsWith(p + t, p) && (p + t)[|p|..] == t
  {}

  /** The options' third characters tell their prefixes apart. */
  lemma Apart(a: string)
    ensures StartsWith(a, "--unit=") ==> a[2] == 'u'
    ensures StartsWith(a, "--description=") ==> a[2] == 'd'
    ensures StartsWith(a, "--property=") ==> a[2] == 'p'
    ensures StartsWith(a, "--setenv=") ==> a[2] == 's'
    ensures a == "--no-block" ==> a[2] == 'n'
    ensures a == "--collect" ==> a[2] == 'c'
  {
    PrefixChars(a, "--unit=");
    PrefixChars(a, "--description=");
    PrefixChars(a, "--property=");
    PrefixChars(a, "--setenv=");
  }

  /** Reading inverts showing. */
  lemma ReadShown(o: Opt)
    ensures ReadFlag(Show(o)) == Some(o) && IsFlag(Show(o))
  {
    Apart(Show(o));
    match o {
      case NoBlock =>
      case Collect =>
      case UnitIs(u) => PrefixRest("--unit=", UnitName(u));
      case Description(t) => PrefixRest("--description=", t);
      case Property(t) => PrefixRest("--property=", t);
      case SetEnv(t) => PrefixRest("--setenv=", t);
    }
  }

  lemma Rejoin(a: string, p: string)
    requires StartsWith(a, p)
    ensures p + a[|p|..] == a
  {}

  lemma ShownRead(a: string)
    requires ReadFlag(a).Some?
    ensures Show(ReadFlag(a).value) == a
  {
    if StartsWith(a, "--unit=") { Rejoin(a, "--unit="); }
    if StartsWith(a, "--description=") { Rejoin(a, "--description="); }
    if StartsWith(a, "--property=") { Rejoin(a, "--property="); }
    if StartsWith(a, "--setenv=") { Rejoin(a, "--setenv="); }
  }

  /** The flags at the front. */
  function Flags(args: seq<string>): (n: nat)
    ensures n <= |args| && (forall i :: 0 <= i < n ==> IsFlag(args[i])) && (n < |args| ==> !IsFlag(args[n]))
  {
    if args == [] || !IsFlag(args[0]) then 0 else 1 + Flags(args[1..])
  }

  predicate AllRead(args: seq<string>, n: nat)
    requires n <= |args|
  {
    forall i :: 0 <= i < n ==> ReadFlag(args[i]).Some?
  }

  function Opts(args: seq<string>, n: nat): (os: seq<Opt>)
    requires n <= |args| && AllRead(args, n)
    ensures |os| == n && forall i :: 0 <= i < n ==> os[i] == ReadFlag(args[i]).value
  {
    seq(n, i requires 0 <= i < n => ReadFlag(args[i]).value)
  }

  /** Reading to the first word that is no flag. */
  predicate Accepts(args: seq<string>)
  {
    var n := Flags(args);
    AllRead(args, n) && exists u :: Sentence(Opts(args, n), u, args[n..])
  }

  lemma CommandNoFlag(u: Unit, cmd: seq<string>)
    requires IsCommand(u, cmd)
    ensures cmd != [] && !IsFlag(cmd[0])
  {
    assert cmd[0] == "/bin/bash" && cmd[0][0] == '/';
  }

  lemma FlagsOf(args: seq<string>, n: nat)
    requires n <= |args| && (forall i :: 0 <= i < n ==> IsFlag(args[i])) && (n < |args| ==> !IsFlag(args[n]))
    ensures Flags(args) == n
  {}

  ghost predicate InGrammar(args: seq<string>)
  {
    exists os, u, cmd :: Sentence(os, u, cmd) && args == ShowAll(os) + cmd
  }

  /** Sound and complete: a command line is accepted exactly if it is a sentence of the grammar. */
  lemma AcceptsGrammar(args: seq<string>)
    ensures Accepts(args) <==> InGrammar(args)
  {
    if Accepts(args) { AcceptedIsSentence(args); }
    if os, u, cmd :| Sentence(os, u, cmd) && args == ShowAll(os) + cmd { SentenceAccepted(args, os, u, cmd); }
  }

  lemma AcceptedIsSentence(args: seq<string>)
    requires Accepts(args)
    ensures InGrammar(args)
  {
    var n := Flags(args);
    var os := Opts(args, n);
    var u :| Sentence(os, u, args[n..]);
    forall i | 0 <= i < n ensures Show(os[i]) == args[i] { ShownRead(args[i]); }
    assert args == ShowAll(os) + args[n..];
  }

  lemma SentenceAccepted(args: seq<string>, os: seq<Opt>, u: Unit, cmd: seq<string>)
    requires Sentence(os, u, cmd) && args == ShowAll(os) + cmd
    ensures Accepts(args)
  {
    CommandNoFlag(u, cmd);
    forall i | 0 <= i < |os| ensures IsFlag(args[i]) && ReadFlag(args[i]) == Some(os[i]) {
      assert args[i] == Show(os[i]);
      ReadShown(os[i]);
    }
    assert args[|os|] == cmd[0];
    FlagsOf(args, |os|);
    assert Opts(args, |os|) == os && args[|os|..] == cmd;
  }

  /** The gate's variables after the options os. */
  ghost predicate Collected(os: seq<Opt>, unit: Option<Unit>, props: seq<string>, setenvs: seq<string>)
  {
    && (unit.Some? ==> LastUnit(os, unit.value))
    && (unit.None? ==> forall i :: 0 <= i < |os| ==> !os[i].UnitIs?)
    && (forall p :: p in props <==> Property(p) in os)
    && (forall e :: e in setenvs <==> SetEnv(e) in os)
  }

  lemma CollectMore(os: seq<Opt>, o: Opt, unit: Option<Unit>, props: seq<string>, setenvs: seq<string>)
    requires Collected(os, unit, props, setenvs)
    ensures Collected(os + [o], if o.UnitIs? then Some(o.u) else unit, if o.Property? then props + [o.text] else props,
                      if o.SetEnv? then setenvs + [o.text] else setenvs)
  {
    var os' := os + [o];
    assert os'[|os|] == o && forall i :: 0 <= i < |os| ==> os'[i] == os[i];
    if o.UnitIs? {
      assert LastUnit(os', o.u);
    } else if unit.Some? {
      var i :| 0 <= i < |os| && os[i] == UnitIs(unit.value) && forall j :: i < j < |os| ==> !os[j].UnitIs?;
      assert os'[i] == UnitIs(unit.value);
    }
  }

  lemma LastUnitOne(os: seq<Opt>, u: Unit, v: Unit)
    requires LastUnit(os, u) && LastUnit(os, v)
    ensures u == v
  {}

  predicate Passes(u: Unit, props: seq<string>, setenvs: seq<string>, cmd: seq<string>)
  {
    IsCommand(u, cmd) && (forall p :: p in props ==> p in Properties(u)) && (forall e :: e in setenvs ==> e in Environment(u))
  }

  lemma CollectedDecides(os: seq<Opt>, unit: Option<Unit>, props: seq<string>, setenvs: seq<string>, cmd: seq<string>)
    requires Collected(os, unit, props, setenvs)
    ensures (exists u :: Sentence(os, u, cmd)) <==> unit.Some? && Passes(unit.value, props, setenvs, cmd)
  {
    if u :| Sentence(os, u, cmd) {
      assert unit.Some?;
      LastUnitOne(os, u, unit.value);
      forall p | p in props ensures p in Properties(u) { var i :| 0 <= i < |os| && os[i] == Property(p); assert Fits(os[i], u); }
      forall e | e in setenvs ensures e in Environment(u) { var i :| 0 <= i < |os| && os[i] == SetEnv(e); assert Fits(os[i], u); }
    }
    if unit.Some? && Passes(unit.value, props, setenvs, cmd) {
      forall i | 0 <= i < |os| ensures Fits(os[i], unit.value) {
        if os[i].Property? { assert os[i].text in props; }
        if os[i].SetEnv? { assert os[i].text in setenvs; }
      }
      assert Sentence(os, unit.value, cmd);
    }
  }

  lemma OptsMore(args: seq<string>, k: nat)
    requires k < |args| && AllRead(args, k) && ReadFlag(args[k]).Some?
    ensures AllRead(args, k + 1) && Opts(args, k + 1) == Opts(args, k) + [ReadFlag(args[k]).value]
  {}

  /** The first half of the gate: one pass over the words. */
  method Scan(args: seq<string>) returns (bad: bool, unit: Option<Unit>, props: seq<string>, setenvs: seq<string>, positionals: seq<string>)
    ensures bad <==> !AllRead(args, Flags(args))
    ensures !bad ==> positionals == args[Flags(args)..] && Collected(Opts(args, Flags(args)), unit, props, setenvs)
  {
    bad, unit := false, None;
    positionals, props, setenvs := [], [], [];
    ghost var n := Flags(args);
    for k := 0 to |args|
      invariant positionals == if k <= n then [] else args[n..k]
      invariant AllRead(args, if k <= n then k else n)
      invariant Collected(Opts(args, if k <= n then k else n), unit, props, setenvs)
    {
      var a := args[k];
      if positionals != [] {
        positionals := positionals + [a];
        continue;
      }
      if !IsFlag(a) {
        positionals := [a];
        continue;
      }
      var o := ReadFlag(a);
      if o.None? { bad := true; return; }
      OptsMore(args, k);
      CollectMore(Opts(args, k), o.value, unit, props, setenvs);
      if o.value.UnitIs? { unit := Some(o.value.u); }
      if o.value.Property? { props := props + [o.value.text]; }
      if o.value.SetEnv? { setenvs := setenvs + [o.value.text]; }
    }
  }

  method CheckSystemdRun(args: seq<string>) returns (ok: bool)
    ensures ok <==> InGrammar(args)
  {
    AcceptsGrammar(args);
    var bad, unit, props, setenvs, positionals := Scan(args);
    if bad { return false; }
    CollectedDecides(Opts(args, Flags(args)), unit, props, setenvs, positionals);
    if unit.None? { return false; }
    if exists e :: e in setenvs && e !in Environment(unit.value) { return false; }
    if exists p :: p in props && p !in Properties(unit.value) { return false; }
    return IsCommand(unit.value, positionals);
  }

  // ---------------------------------------------------------------- what the sentences say

  /** Whatever the migration is told to launch, it is bash on a script of that name in a directory `scripts`,
      with the two options: the end of the path is its resolved end. */
  lemma MigrateRunsItsScript(cmd: seq<string>)
    requires IsCommand(Migrate, cmd)
    ensures |cmd| == 4 && cmd[0] == "/bin/bash" && cmd[2] == "--apply" && cmd[3] == "--auto-rollback"
    ensures var r := PathNorm.Resolved(cmd[1]); |r| >= 2 && r[|r| - 2] == "scripts" && r[|r| - 1] == "migrate-console-nonroot.sh"
  {
    var p, s := cmd[1], "/scripts/migrate-console-nonroot.sh";
    assert cmd[2] == cmd[2..][0] && cmd[3] == cmd[2..][1];
    var d := p[..|p| - |s|];
    assert p == d + s;
    ScriptPath(d);
    ScriptResolved(PathNorm.Split(d));
    assert PathNorm.Resolved(p) == PathNorm.PushAll(true, [], PathNorm.Split(p));
  }

  lemma ScriptPath(d: string)
    ensures PathNorm.Split(d + "/scripts/migrate-console-nonroot.sh") == PathNorm.Split(d) + ["scripts", "migrate-console-nonroot.sh"]
  {
    ScriptSuffix();
    SplitTwo(d, "scripts", "migrate-console-nonroot.sh");
  }

  lemma ScriptSuffix()
    ensures "/scripts/migrate-console-nonroot.sh" == "/" + "scripts" + ("/" + "migrate-console-nonroot.sh")
    ensures PathNorm.NoSlash("scripts") && PathNorm.NoSlash("migrate-console-nonroot.sh")
  {
    ScriptName();
    assert "/" + "scripts" == "/scripts";
    assert "/scripts" + "/migrate-console-nonroot.sh" == "/scripts/migrate-console-nonroot.sh";
  }

  lemma ScriptName()
    ensures "/" + "migrate-console-nonroot.sh" == "/migrate-console-nonroot.sh"
    ensures PathNorm.NoSlash("scripts") && PathNorm.NoSlash("migrate-console-nonroot.sh")
  {}

  lemma SplitTwo(d: string, a: string, b: string)
    requires PathNorm.NoSlash(a) && PathNorm.NoSlash(b)
    ensures PathNorm.Split(d + ("/" + a + ("/" + b))) == PathNorm.Split(d) + [a, b]
  {
    assert d + ("/" + a + ("/" + b)) == d + "/" + a + "/" + b;
    PathNorm.SplitSlash(d + "/" + a, b);
    PathNorm.SplitSlash(d, a);
    PathNorm.SplitPlain(a);
    PathNorm.SplitPlain(b);
    assert PathNorm.Split(d) + [a] + [b] == PathNorm.Split(d) + [a, b];
  }

  lemma ScriptResolved(cs: PathNorm.Comps)
    ensures PathNorm.PushAll(true, [], cs + ["scripts", "migrate-console-nonroot.sh"])
         == PathNorm.PushAll(true, [], cs) + ["scripts", "migrate-console-nonroot.sh"]
  {
    var a, b := "scripts", "migrate-console-nonroot.sh";
    InitOfSnoc(cs + [a], b);
    InitOfSnoc(cs, a);
    assert cs + [a] + [b] == cs + [a, b];
  }

  /** And it may be launched from any directory whose path does not climb. */
  lemma MigrateFromAnywhere(d: string)
    requires ".." !in PathNorm.Split(d)
    ensures IsCommand(Migrate, ["/bin/bash", d + "/scripts/migrate-console-nonroot.sh", "--apply", "--auto-rollback"])
  {
    var p, s := d + "/scripts/migrate-console-nonroot.sh", "/scripts/migrate-console-nonroot.sh";
    assert p[|p| - |s|..] == s;
    ScriptPath(d);
    var cmd := ["/bin/bash", p, "--apply", "--auto-rollback"];
    assert cmd[2..] == ["--apply", "--auto-rollback"];
  }

  /** No path that climbs is. */
  lemma MigrateNeverClimbs(cmd: seq<string>, d: string)
    requires |cmd| == 4 && cmd[1] == d + "/scripts/migrate-console-nonroot.sh" && ".." in PathNorm.Split(d)
    ensures !IsCommand(Migrate, cmd)
  {
    ScriptPath(d);
  }

  /** No unit may be given what would turn its script into another program, nor another search path; one
      variable is for one unit only. */
  lemma EnvironmentPinned(u: Unit, e: string)
    ensures e in Environment(u) ==> !StartsWith(e, "BASH_ENV=") && !StartsWith(e, "ENV=") && !StartsWith(e, "LD_PRELOAD=")
    ensures e in Environment(u) && StartsWith(e, "PATH=") ==> e == "PATH=/usr/sbin:/usr/bin:/sbin:/bin"
    ensures e == "RELEASE_UPGRADER_NO_SCREEN=1" ==> (e in Environment(u) <==> u.OsUpgrade?)
  {
    if e in Environment(u) {
      EnvironmentInitials(u, e);
      if StartsWith(e, "BASH_ENV=") { Initial(e, "BASH_ENV=", 'B'); }
      if StartsWith(e, "ENV=") { Initial(e, "ENV=", 'E'); }
      if StartsWith(e, "LD_PRELOAD=") { Initial(e, "LD_PRELOAD=", 'L'); }
      if StartsWith(e, "PATH=") { Initial(e, "PATH=", 'P'); }
    }
  }

  lemma Initial(e: string, p: string, c: char)
    requires StartsWith(e, p) && p != "" && p[0] == c
    ensures e != "" && e[0] == c
  {
    assert e[..|p|][0] == e[0];
  }

  lemma EnvironmentInitials(u: Unit, e: string)
    requires e in Environment(u)
    ensures e != "" && e[0] in {'D', 'N', 'P', 'R'}
    ensures e[0] == 'P' ==> e == "PATH=/usr/sbin:/usr/bin:/sbin:/bin"
  {}

  // ---------------------------------------------------------------- semodule

  const REMOVABLE: set<string> := {"takserver", "takserver-policy"}

  predicate IsListing(a: string) { a in {"-l", "-lfull", "-a"} || StartsWith(a, "--list") }

  /** The listing words, and some that are none: nothing that removes, installs, rebuilds or disables lists. */
  lemma ListingWords(a: string)
    ensures a in {"-l", "-lfull", "-a", "--list", "--list-modules"} ==> IsListing(a)
    ensures IsListing(a) ==> a !in {"-r", "--remove", "-i", "--install", "-B", "--build", "-X", "-d", "--disable"}
  {
    assert "--list-modules"[..6] == "--list" && "--list"[..6] == "--list";
    if StartsWith(a, "--list") { assert a[..6][2] == a[2] == 'l'; }
  }

  datatype Removal = Removal(long: bool, name: string)

  function Words(rs: seq<Removal>): (r: seq<string>)
  {
    if rs == [] then [] else [if rs[0].long then "--remove" else "-r", rs[0].name] + Words(rs[1..])
  }

  predicate AllRemovable(rs: seq<Removal>) { forall i :: 0 <= i < |rs| ==> rs[i].name in REMOVABLE }

  predicate IsRemove(a: string) { a == "-r" || a == "--remove" }

  /** From the i-th word on there are only pairs of -r and a removable name. */
  predicate PairsFrom(args: seq<string>, i: nat)
    decreases |args| - i
  {
    i == |args| || (i + 1 < |args| && IsRemove(args[i]) && args[i + 1] in REMOVABLE && PairsFrom(args, i + 2))
  }

  lemma {:induction false} PairsAreWords(args: seq<string>, i: nat) returns (rs: seq<Removal>)
    requires i <= |args| && PairsFrom(args, i)
    ensures args[i..] == Words(rs) && AllRemovable(rs)
    decreases |args| - i
  {
    if i == |args| {
      rs := [];
    } else {
      var more := PairsAreWords(args, i + 2);
      rs := [Removal(args[i] == "--remove", args[i + 1])] + more;
      assert rs[1..] == more && args[i..] == [args[i], args[i + 1]] + args[i + 2..];
    }
  }

  lemma {:induction false} WordsArePairs(args: seq<string>, i: nat, rs: seq<Removal>)
    requires i <= |args| && args[i..] == Words(rs) && AllRemovable(rs)
    ensures PairsFrom(args, i)
    decreases |rs|
  {
    if rs != [] {
      assert args[i] == args[i..][0] && args[i + 1] == args[i..][1] && args[i + 2..] == args[i..][2..];
      assert rs[0].name in REMOVABLE;
      WordsArePairs(args, i + 2, rs[1..]);
    } else {
      assert |args[i..]| == 0;
    }
  }

  /** Only lists, or one removal or more of the two modules. */
  ghost predicate SemoduleGrammar(args: seq<string>)
  {
    args != [] && ((forall i :: 0 <= i < |args| ==> IsListing(args[i])) || exists rs :: AllRemovable(rs) && args == Words(rs))
  }

  lemma PairsExact(args: seq<string>)
    ensures PairsFrom(args, 0) <==> exists rs :: AllRemovable(rs) && args == Words(rs)
  {
    assert args[0..] == args;
    if PairsFrom(args, 0) { var rs := PairsAreWords(args, 0); }
    if rs :| AllRemovable(rs) && args == Words(rs) { WordsArePairs(args, 0, rs); }
  }

  method CheckSemodule(args: seq<string>) returns (ok: bool)
    ensures ok <==> SemoduleGrammar(args)
  {
    PairsExact(args);
    if args == [] { return false; }
    if forall i :: 0 <= i < |args| ==> IsListing(args[i]) { return true; }
    var i := 0;
    var removed := false;
    while i < |args|
      invariant 0 <= i <= |args| && (i > 0 ==> removed)
      invariant PairsFrom(args, i) <==> PairsFrom(args, 0)
    {
      if !IsRemove(args[i]) { return false; }
      if i + 1 >= |args| { return false; }
      if args[i + 1] !in REMOVABLE { return false; }
      removed := true;
      i := i + 2;
    }
    return removed;
  }
}
