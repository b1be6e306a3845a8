/**
 The rulebook's decision on a path, the check of command operands, and the containment test for
 directories the console owns, in a file system with symbolic links.
 */
module PathRules {
  import opened Wrappers
  import opened PathNorm

  /** Directories are given by their components; `console` lists those the console can write to
      itself.  `denyPrefix` are plain string prefixes. */
  datatype Rules = Rules(denyExact: set<string>, denyPrefix: seq<string>, allowExact: set<string>,
                         readonly: seq<Comps>, allow: seq<Comps>, console: seq<Comps>)

  predicate DirsOk(ds: seq<Comps>) { forall i :: 0 <= i < |ds| ==> ds[i] != [] && Canonical(ds[i]) }

  predicate Wf(r: Rules) { DirsOk(r.readonly) && DirsOk(r.allow) }

  predicate DenyListed(r: Rules, p: string)
  {
    p in r.denyExact || exists i :: 0 <= i < |r.denyPrefix| && StartsWith(p, r.denyPrefix[i])
  }

  predicate AnyUnder(ds: seq<Comps>, p: string) { exists i :: 0 <= i < |ds| && Under(p, Dir(ds[i])) }

  /** The allow loop: the first directory that matches decides. */
  function Search(r: Rules, within: (string, string) -> bool, p: string, i: nat): (v: Verdict)
    requires i <= |r.allow|
    decreases |r.allow| - i
  {
    if i == |r.allow| then Denied(NotListed)
    else if Under(p, Dir(r.allow[i])) then
      if r.allow[i] in r.console && !within(p, RStrip(Dir(r.allow[i]))) then Denied(Escapes) else Ok(p)
    else Search(r, within, p, i + 1)
  }

  /** The decision on a normalised path. */
  function Judge(r: Rules, within: (string, string) -> bool, p: string, readonly: bool): (v: Verdict)
  {
    if DenyListed(r, p) then Denied(Listed)
    else if p in r.allowExact then Ok(p)
    else if readonly && AnyUnder(r.readonly, p) then Ok(p)
    else Search(r, within, p, 0)
  }

  function PathAllowed(r: Rules, within: (string, string) -> bool, path: string, readonly: bool): (v: Verdict)
  {
    var v := Abs(path);
    if v.Denied? then v else Judge(r, within, v.path, readonly)
  }

  lemma {:induction false} SearchFacts(r: Rules, within: (string, string) -> bool, p: string, i: nat)
    requires i <= |r.allow|
    ensures var v := Search(r, within, p, i);
            && (v.Ok? ==> v.path == p && exists j :: i <= j < |r.allow| && Under(p, Dir(r.allow[j])))
            && ((forall j :: i <= j < |r.allow| ==> !Under(p, Dir(r.allow[j]))) ==> v == Denied(NotListed))
            && (v == Denied(NotListed) ==> forall j :: i <= j < |r.allow| ==> !Under(p, Dir(r.allow[j])))
    decreases |r.allow| - i
  {
    if i < |r.allow| && !Under(p, Dir(r.allow[i])) { SearchFacts(r, within, p, i + 1); }
  }

  /** The verdict depends only on the normalised path, and a granted path is that path. */
  lemma VerdictOnNormalised(r: Rules, within: (string, string) -> bool, path: string, readonly: bool)
    ensures Abs(path).Ok? ==> PathAllowed(r, within, path, readonly) == PathAllowed(r, within, Abs(path).path, readonly)
    ensures PathAllowed(r, within, path, readonly).Ok? ==> PathAllowed(r, within, path, readonly) == Abs(path)
  {
    if Abs(path).Ok? {
      AbsIdempotent(path);
      GrantedAsIs(r, within, Abs(path).path, readonly);
    }
  }

  lemma GrantedAsIs(r: Rules, within: (string, string) -> bool, p: string, readonly: bool)
    ensures Judge(r, within, p, readonly).Ok? ==> Judge(r, within, p, readonly) == Ok(p)
  {
    SearchFacts(r, within, p, 0);
  }

  /** What may be written may be read, with the same result. */
  lemma ReadExtendsWrite(r: Rules, within: (string, string) -> bool, path: string)
    requires PathAllowed(r, within, path, false).Ok?
    ensures PathAllowed(r, within, path, true) == PathAllowed(r, within, path, false)
  {
    SearchFacts(r, within, Abs(path).path, 0);
  }

  /** Which components the lists cover. */
  predicate Covers(ds: seq<Comps>, cs: Comps) { exists i :: 0 <= i < |ds| && ds[i] <= cs }

  lemma AnyUnderIsCovers(ds: seq<Comps>, cs: Comps)
    requires DirsOk(ds) && Canonical(cs)
    ensures AnyUnder(ds, File(cs)) <==> Covers(ds, cs)
  {
    if AnyUnder(ds, File(cs)) {
      var i :| 0 <= i < |ds| && Under(File(cs), Dir(ds[i]));
      UnderIsPrefix(cs, ds[i]);
    }
    if Covers(ds, cs) {
      var i :| 0 <= i < |ds| && ds[i] <= cs;
      UnderIsPrefix(cs, ds[i]);
    }
  }

  /** A path with exactly two leading slashes keeps them, and then lies under no directory. */
  lemma DoubleSlash(p: string, cs: Comps, ds: Comps)
    requires Canonical(ds) && ds != [] && p == "//" + Join(cs)
    ensures !Under(p, Dir(ds))
  {
    RStripDir(ds);
    JoinHead(ds);
    JoinLast(ds);
    assert Dir(ds)[1] == Join(ds)[0] == File(ds)[1] && p[1] == '/';
    PrefixChar(p, Dir(ds), 1);
  }

  lemma PrefixChar(p: string, d: string, k: nat)
    requires k < |d|
    ensures StartsWith(p, d) ==> k < |p| && p[k] == d[k]
  {}

  /** A granted path is on no deny list, and it is an allowed file or lies at or below an allowed
      directory, component by component. */
  lemma GrantIsCovered(r: Rules, within: (string, string) -> bool, path: string, readonly: bool)
    requires Wf(r)
    ensures PathAllowed(r, within, path, readonly).Ok? ==>
              && Abs(path).Ok? && Canonical(Resolved(path)) && !DenyListed(r, Abs(path).path)
              && (Abs(path).path in r.allowExact
                  || (Abs(path).path == File(Resolved(path)) && (Covers(r.allow, Resolved(path)) || (readonly && Covers(r.readonly, Resolved(path))))))
  {
    if PathAllowed(r, within, path, readonly).Denied? { return; }
    AbsExact(path);
    var p, cs := Abs(path).path, Resolved(path);
    SearchFacts(r, within, p, 0);
    if p !in r.allowExact {
      if readonly && AnyUnder(r.readonly, p) {
        SingleSlash(r.readonly, path);
        AnyUnderIsCovers(r.readonly, cs);
      } else {
        assert AnyUnder(r.allow, p);
        SingleSlash(r.allow, path);
        AnyUnderIsCovers(r.allow, cs);
      }
    }
  }

  /** The first directory of the list that holds cs decides, and it is not console-owned or the containment
      test accepts the path. */
  predicate Admitted(r: Rules, within: (string, string) -> bool, cs: Comps)
  {
    exists i :: 0 <= i < |r.allow| && FirstAbove(r.allow, i, cs) && (r.allow[i] in r.console ==> within(File(cs), File(r.allow[i])))
  }

  predicate FirstAbove(ds: seq<Comps>, i: nat, cs: Comps)
    requires i < |ds|
  {
    ds[i] <= cs && forall j :: 0 <= j < i ==> !(ds[j] <= cs)
  }

  /** A path is granted if and only if it is absolute and without NUL, on no deny list, and listed exactly, or,
      with one leading slash, for reading under a directory of the readonly list, or admitted by the first
      directory of the write list above it. */
  lemma GrantExact(r: Rules, within: (string, string) -> bool, path: string, readonly: bool)
    requires Wf(r)
    ensures PathAllowed(r, within, path, readonly).Ok? <==>
              && Abs(path).Ok? && !DenyListed(r, Abs(path).path)
              && (|| Abs(path).path in r.allowExact
                  || (Abs(path).path == File(Resolved(path))
                      && ((readonly && Covers(r.readonly, Resolved(path))) || Admitted(r, within, Resolved(path)))))
  {
    if Abs(path).Denied? { return; }
    AbsExact(path);
    var p, cs := Abs(path).path, Resolved(path);
    UnderExact(r.readonly, path);
    UnderExact(r.allow, path);
    SearchFacts(r, within, p, 0);
    if p == File(cs) { SearchExact(r, within, cs, 0); }
  }

  lemma UnderExact(ds: seq<Comps>, path: string)
    requires DirsOk(ds) && Abs(path).Ok?
    ensures AnyUnder(ds, Abs(path).path) <==> Abs(path).path == File(Resolved(path)) && Covers(ds, Resolved(path))
  {
    AbsExact(path);
    if AnyUnder(ds, Abs(path).path) { SingleSlash(ds, path); }
    AnyUnderIsCovers(ds, Resolved(path));
  }

  /** Why a path is refused: a deny list comes first; a path below a listed directory fails the containment
      test; any other is on no list. */
  lemma RefusalExact(r: Rules, within: (string, string) -> bool, path: string, readonly: bool)
    requires Wf(r) && Abs(path).Ok? && PathAllowed(r, within, path, readonly).Denied?
    ensures PathAllowed(r, within, path, readonly) == Denied(
              if DenyListed(r, Abs(path).path) then Listed
              else if Abs(path).path == File(Resolved(path)) && Covers(r.allow, Resolved(path)) then Escapes else NotListed)
  {
    UnderExact(r.allow, path);
    SearchReasons(r, within, Abs(path).path, 0);
    SearchFacts(r, within, Abs(path).path, 0);
  }

  lemma {:induction false} SearchReasons(r: Rules, within: (string, string) -> bool, p: string, i: nat)
    requires i <= |r.allow|
    ensures Search(r, within, p, i).Denied? ==> Search(r, within, p, i).why in {Escapes, NotListed}
    decreases |r.allow| - i
  {
    if i < |r.allow| && !Under(p, Dir(r.allow[i])) { SearchReasons(r, within, p, i + 1); }
  }

  lemma {:induction false} SearchExact(r: Rules, within: (string, string) -> bool, cs: Comps, k: nat)
    requires Wf(r) && Canonical(cs) && k <= |r.allow| && forall j :: 0 <= j < k ==> !(r.allow[j] <= cs)
    ensures Search(r, within, File(cs), k).Ok? <==> Admitted(r, within, cs)
    decreases |r.allow| - k
  {
    if k < |r.allow| {
      UnderIsPrefix(cs, r.allow[k]);
      RStripDir(r.allow[k]);
      if r.allow[k] <= cs {
        assert FirstAbove(r.allow, k, cs);
      } else {
        SearchExact(r, within, cs, k + 1);
      }
    }
  }

  lemma SingleSlash(ds: seq<Comps>, path: string)
    requires DirsOk(ds) && Abs(path).Ok? && AnyUnder(ds, Abs(path).path)
    ensures Abs(path).path == File(Resolved(path))
  {
    AbsExact(path);
    var i :| 0 <= i < |ds| && Under(Abs(path).path, Dir(ds[i]));
    if Slashes(path) == "//" { DoubleSlash(Abs(path).path, Resolved(path), ds[i]); }
  }

  predicate Unlisted(r: Rules, cs: Comps) { File(cs) !in r.allowExact && "/" + File(cs) !in r.allowExact }

  /** No list entry is at or above cs. */
  predicate Sealed(r: Rules, cs: Comps)
  {
    !Covers(r.allow, cs) && !Covers(r.readonly, cs) && forall k :: 0 <= k <= |cs| ==> Unlisted(r, cs[..k])
  }

  lemma CoversBelow(ds: seq<Comps>, a: Comps, b: Comps)
    requires a <= b && Covers(ds, a)
    ensures Covers(ds, b)
  {
    var i :| 0 <= i < |ds| && ds[i] <= a;
    assert ds[i] <= b;
  }

  /** A path that leads to a sealed file or to a directory above it is refused under every spelling,
      for reading and for writing. */
  lemma SealedRefused(r: Rules, within: (string, string) -> bool, path: string, readonly: bool, cs: Comps)
    requires Wf(r) && Sealed(r, cs) && Resolved(path) <= cs
    ensures PathAllowed(r, within, path, readonly).Denied?
  {
    var at := Resolved(path);
    assert at == cs[..|at|] && Unlisted(r, at);
    AbsExact(path);
    Assoc("/", "/", Join(at));
    assert "/" + "/" == "//";
    if PathAllowed(r, within, path, readonly).Ok? {
      GrantIsCovered(r, within, path, readonly);
      if Covers(r.allow, at) { CoversBelow(r.allow, at, cs); }
      if Covers(r.readonly, at) { CoversBelow(r.readonly, at, cs); }
    }
  }

  // ---------------------------------------------------------------- the shipped lists

  const MODULES: seq<string> := [
    "tak-video-restreamer", "webodm", "netbird", "cesium-tiles", "TAK-Portal", "CloudTAK",
    "node-red", "authentik", "eud-remote-assist", "atlas"]

  /** The fixed entries of the write list before and after the console's bundle directory. */
  const EARLY_DIRS: seq<Comps> := [
    ["var", "lib", "infratak-backups"], ["etc", "systemd", "system"], ["etc", "fail2ban"], ["etc", "caddy"],
    ["etc", "postfix"], ["etc", "docker"], ["etc", "firewalld"], ["etc", "ufw"], ["etc", "sysctl.d"],
    ["etc", "security"], ["etc", "ssh"], ["etc", "letsencrypt"], ["etc", "apt"], ["usr", "share", "keyrings"],
    ["etc", "debsig"], ["usr", "share", "debsig"], ["etc", "netplan"], ["opt", "tak"], ["var", "lib", "pgsql"],
    ["var", "lib", "postgresql"], ["opt", "tak-guarddog"]]

  const LATE_DIRS: seq<Comps> := [
    ["usr", "local", "etc"], ["var", "lib", "cesium-tiles"], ["var", "lib", "takguard"],
    ["var", "lib", "infratak-os-upgrade"], ["opt", "mediamtx-webeditor"], ["var", "log"],
    ["var", "lib", "takwerx-console"], ["var", "lib", "caddy"]]

  /** dir/name for every module name. */
  function Under1(home: Comps): (r: seq<Comps>)
    ensures |r| == |MODULES| && forall i :: 0 <= i < |r| ==> r[i] == home + [MODULES[i]]
  {
    seq(|MODULES|, i requires 0 <= i < |MODULES| => home + [MODULES[i]])
  }

  /** The write list in its order: the fixed entries with the bundle directory among them, then the
      module directories under /root and under each home. */
  function ShippedDirs(home: Comps, convHome: Comps): (r: seq<Comps>)
  {
    EARLY_DIRS + ([home + ["tak-docker"]] + (LATE_DIRS + (Under1(["root"]) + (Under1(home) + Under1(convHome)))))
  }

  const BROKER_STATE: Comps := ["var", "lib", "takwerx-broker"]

  lemma PrefixAt(d: Comps, cs: Comps)
    ensures d <= cs ==> forall k :: 0 <= k < |d| ==> d[k] == cs[k]
  {}

  predicate Foreign(d: Comps)
  {
    d != [] && (d[0] != "var" || (|d| >= 2 && d[1] != "lib") || (|d| >= 3 && d[2] != "takwerx-broker"))
  }

  lemma FixedForeign()
    ensures forall i :: 0 <= i < |EARLY_DIRS| ==> Foreign(EARLY_DIRS[i])
    ensures forall i :: 0 <= i < |LATE_DIRS| ==> Foreign(LATE_DIRS[i])
  {}

  lemma ForeignNotAbove(d: Comps, name: string)
    requires Foreign(d)
    ensures !(d <= BROKER_STATE + [name])
  {
    PrefixAt(d, BROKER_STATE + [name]);
  }

  /** Names that no module and no bundle directory has. */
  predicate Reserved(s: string) { s != "tak-docker" && forall i :: 0 <= i < |MODULES| ==> MODULES[i] != s }

  lemma StateReserved()
    ensures Reserved("var") && Reserved("lib") && Reserved("takwerx-broker")
  {}

  lemma HomeNotAbove(home: Comps, m: string, name: string)
    requires m == "tak-docker" || m in MODULES
    requires Reserved(name)
    ensures !(home + [m] <= BROKER_STATE + [name])
  {
    var cs := BROKER_STATE + [name];
    StateReserved();
    assert forall k :: 0 <= k < |cs| ==> Reserved(cs[k]);
    assert !Reserved(m);
    PrefixAt(home + [m], cs);
    assert (home + [m])[|home|] == m;
  }

  lemma CoversPlus(a: seq<Comps>, b: seq<Comps>, cs: Comps)
    ensures Covers(a + b, cs) ==> Covers(a, cs) || Covers(b, cs)
  {
    if Covers(a + b, cs) {
      var i :| 0 <= i < |a + b| && (a + b)[i] <= cs;
      if i < |a| { assert a[i] <= cs; } else { assert b[i - |a|] <= cs; }
    }
  }

  lemma ModulesKeepOut(home: Comps, name: string)
    requires Reserved(name)
    ensures !Covers(Under1(home), BROKER_STATE + [name])
  {
    var ds := Under1(home);
    forall i | 0 <= i < |ds| ensures !(ds[i] <= BROKER_STATE + [name]) { HomeNotAbove(home, MODULES[i], name); }
  }

  lemma FixedKeepOut(name: string)
    ensures !Covers(EARLY_DIRS, BROKER_STATE + [name]) && !Covers(LATE_DIRS, BROKER_STATE + [name])
  {
    FixedForeign();
    forall i | 0 <= i < |EARLY_DIRS| ensures !(EARLY_DIRS[i] <= BROKER_STATE + [name]) { ForeignNotAbove(EARLY_DIRS[i], name); }
    forall i | 0 <= i < |LATE_DIRS| ensures !(LATE_DIRS[i] <= BROKER_STATE + [name]) { ForeignNotAbove(LATE_DIRS[i], name); }
  }

  /** Wherever the console's home is, no shipped directory is at or above a file of the broker's
      own state directory. */
  lemma ShippedKeepsOut(home: Comps, convHome: Comps, name: string)
    requires Reserved(name)
    ensures !Covers(ShippedDirs(home, convHome), BROKER_STATE + [name])
  {
    var cs := BROKER_STATE + [name];
    var a, b, c, d, e, f := EARLY_DIRS, [home + ["tak-docker"]], LATE_DIRS, Under1(["root"]), Under1(home), Under1(convHome);
    CoversPlus(a, b + (c + (d + (e + f))), cs);
    CoversPlus(b, c + (d + (e + f)), cs);
    CoversPlus(c, d + (e + f), cs);
    CoversPlus(d, e + f, cs);
    CoversPlus(e, f, cs);
    FixedKeepOut(name);
    HomeNotAbove(home, "tak-docker", name);
    ModulesKeepOut(["root"], name);
    ModulesKeepOut(home, name);
    ModulesKeepOut(convHome, name);
  }

  const FIXED_FILES: set<string> := {
    "/etc/fstab", "/etc/os-release", "/etc/sysctl.conf", "/etc/docker/daemon.json", "/swapfile", "/usr/sbin/ufw",
    "/usr/bin/caddy", "/usr/local/bin/mediamtx", "/usr/local/sbin/tak-console-restart.sh",
    "/usr/local/sbin/infratak-f2b-notify", "/var/lib/infratak-kernel-patch.sh", "/var/lib/infratak-os-upgrade.sh",
    "/etc/default/takserver", "/etc/wireguard/wg0.conf"}

  /** The rulebook as shipped; the deny lists only take away. */
  function Shipped(home: Comps, convHome: Comps, denyExact: set<string>, denyPrefix: seq<string>, console: seq<Comps>): (r: Rules)
  {
    Rules(denyExact, denyPrefix, FIXED_FILES, [["root", ".ssh"]], ShippedDirs(home, convHome), console)
  }

  /** A text that leads into the broker's state directory or above it, or that has two leading slashes. */
  predicate InState(p: string) { |p| <= 8 || p[1] == '/' || (|p| > 10 && p[1] == 'v' && p[9] == 't') }

  lemma FixedFilesElsewhere(p: string)
    requires p in FIXED_FILES
    ensures !InState(p)
  {}

  lemma StateText(name: string)
    ensures var p := File(BROKER_STATE + [name]); |p| > 10 && p[1] == 'v' && p[9] == 't'
  {
    var d := "var/lib/takwerx-broker";
    StateJoin();
    InitOfSnoc(BROKER_STATE, name);
    assert Join(BROKER_STATE + [name]) == d + "/" + name;
  }

  lemma StateTexts(name: string, k: nat)
    requires k <= 4
    ensures InState(File((BROKER_STATE + [name])[..k])) && InState("/" + File((BROKER_STATE + [name])[..k]))
  {
    var cs := BROKER_STATE + [name];
    StateJoin();
    StateText(name);
    if k == 4 { assert cs[..4] == cs; }
    if k == 3 { assert cs[..3] == BROKER_STATE; }
    if k == 2 { assert cs[..2] == ["var", "lib"]; }
    if k == 1 { assert cs[..1] == ["var"]; }
  }

  lemma StateJoin()
    ensures Join(BROKER_STATE) == "var/lib/takwerx-broker" && Join(["var", "lib"]) == "var/lib" && Join(["var"]) == "var"
  {
    var a, b, c := "var", "lib", "takwerx-broker";
    InitOfSnoc([a, b], c);
    InitOfSnoc([a], b);
    assert BROKER_STATE == [a, b] + [c] && [a, b] == [a] + [b];
    assert Join([a]) == a;
    assert Join([a, b]) == a + "/" + b;
  }

  /** No path the console can name, read or write reaches a reserved file of the state directory, or a
      directory above it. */
  lemma StateIsSealed(home: Comps, convHome: Comps, denyExact: set<string>, denyPrefix: seq<string>, console: seq<Comps>, name: string)
    requires Reserved(name)
    ensures Sealed(Shipped(home, convHome, denyExact, denyPrefix, console), BROKER_STATE + [name])
  {
    var cs := BROKER_STATE + [name];
    ShippedKeepsOut(home, convHome, name);
    var ssh := ["root", ".ssh"];
    PrefixAt(ssh, cs);
    assert ssh[0] != cs[0];
    var r := Shipped(home, convHome, denyExact, denyPrefix, console);
    forall k | 0 <= k <= |cs| ensures Unlisted(r, cs[..k]) {
      StateTexts(name, k);
      if File(cs[..k]) in FIXED_FILES { FixedFilesElsewhere(File(cs[..k])); }
      if "/" + File(cs[..k]) in FIXED_FILES { FixedFilesElsewhere("/" + File(cs[..k])); }
    }
  }

  lemma Under1Dirs(home: Comps)
    requires Canonical(home)
    ensures DirsOk(Under1(home))
  {
    ModulesProper();
    forall i | 0 <= i < |MODULES| ensures Canonical(home + [MODULES[i]]) { CanonicalSnoc(home, MODULES[i]); }
  }

  lemma CanonicalSnoc(home: Comps, m: string)
    requires Canonical(home) && Proper(m)
    ensures Canonical(home + [m])
  {}

  lemma ModulesProper()
    ensures forall i :: 0 <= i < |MODULES| ==> Proper(MODULES[i])
  {}

  lemma EarlyDirsOk()
    ensures DirsOk(EARLY_DIRS)
  {
    var ds := EARLY_DIRS;
    FirstDirsOk();
    LastDirsOk();
    forall i | 0 <= i < |ds| ensures ds[i] != [] && Canonical(ds[i]) {
      if i < 11 { assert ds[..11][i] == ds[i]; } else { assert ds[11..][i - 11] == ds[i]; }
    }
  }

  lemma FirstDirsOk()
    ensures DirsOk(EARLY_DIRS[..11])
  {}

  lemma LastDirsOk()
    ensures DirsOk(EARLY_DIRS[11..])
  {}

  lemma LateDirsOk()
    ensures DirsOk(LATE_DIRS)
  {}

  lemma ShippedWf(home: Comps, convHome: Comps, denyExact: set<string>, denyPrefix: seq<string>, console: seq<Comps>)
    requires Canonical(home) && Canonical(convHome)
    ensures Wf(Shipped(home, convHome, denyExact, denyPrefix, console))
  {
    EarlyDirsOk();
    LateDirsOk();
    Under1Dirs(["root"]);
    Under1Dirs(home);
    Under1Dirs(convHome);
    CanonicalSnoc(home, "tak-docker");
  }

  // ---------------------------------------------------------------- the audit log

  const LOG_DIR: Comps := ["var", "log", "takwerx-broker"]

  /** The audit log's files, oldest first. */
  const LOG_NAMES: seq<string> := [
    "audit.log.10", "audit.log.9", "audit.log.8", "audit.log.7", "audit.log.6", "audit.log.5", "audit.log.4",
    "audit.log.3", "audit.log.2", "audit.log.1", "audit.log"]

  function LogPath(i: nat): (cs: Comps)
    requires i < |LOG_NAMES|
  {
    LOG_DIR + [LOG_NAMES[i]]
  }

  lemma LogNames()
    ensures forall i :: 0 <= i < |LOG_NAMES| ==> Proper(LOG_NAMES[i]) && NulFree(LOG_NAMES[i]) && LOG_NAMES[i] != "tak-docker"
  {}

  /** A path in /var/log that no bundle directory can be above. */
  predicate InLogTree(cs: Comps) { ["var", "log"] <= cs && Canonical(cs) && NulFreeAll(cs) && "tak-docker" !in cs }

  lemma LogsInTree(i: nat)
    requires i < |LOG_NAMES|
    ensures InLogTree(LogPath(i)) && InLogTree(LOG_DIR) && InLogTree(["var", "log"])
  {
    LogNames();
    var d := LOG_DIR;
    assert Canonical(d) && NulFreeAll(d);
    CanonicalSnoc(d, LOG_NAMES[i]);
  }

  /** Such a directory may lie at or above a path in /var/log. */
  predicate AboveLog(d: Comps) { |d| >= 1 && d[0] == "var" && (|d| == 1 || d[1] == "log") }

  lemma NotAboveLog(d: Comps, cs: Comps)
    requires InLogTree(cs) && !AboveLog(d) && d != []
    ensures !(d <= cs)
  {
    PrefixAt(d, cs);
    PrefixAt(["var", "log"], cs);
  }

  lemma EarlyNotAboveLog()
    ensures forall j :: 0 <= j < |EARLY_DIRS| ==> EARLY_DIRS[j] != [] && !AboveLog(EARLY_DIRS[j])
    ensures forall j :: 0 <= j < 5 ==> LATE_DIRS[j] != [] && !AboveLog(LATE_DIRS[j])
    ensures LATE_DIRS[5] == ["var", "log"]
  {}

  lemma BundleNotAboveLog(home: Comps, cs: Comps)
    requires InLogTree(cs)
    ensures !(home + ["tak-docker"] <= cs)
  {
    var d := home + ["tak-docker"];
    PrefixAt(d, cs);
    assert d[|home|] == "tak-docker";
  }

  /** Which entry decides on a path in /var/log. */
  lemma LogDecider(home: Comps, convHome: Comps, cs: Comps)
    requires InLogTree(cs)
    ensures var ds, k := ShippedDirs(home, convHome), |EARLY_DIRS| + 6;
      && k < |ds| && ds[k] == ["var", "log"] && ds[k] <= cs
      && forall j :: 0 <= j < k ==> !(ds[j] <= cs)
  {
    var ds, n := ShippedDirs(home, convHome), |EARLY_DIRS|;
    EarlyNotAboveLog();
    forall j | 0 <= j < n + 6 ensures !(ds[j] <= cs) {
      if j < n { NotAboveLog(EARLY_DIRS[j], cs); }
      else if j == n { BundleNotAboveLog(home, cs); }
      else { NotAboveLog(LATE_DIRS[j - n - 1], cs); }
    }
  }

  lemma {:induction false} SearchFound(r: Rules, within: (string, string) -> bool, p: string, k: nat, i: nat)
    requires k <= i < |r.allow| && Under(p, Dir(r.allow[i])) && r.allow[i] !in r.console
    requires forall j :: k <= j < i ==> !Under(p, Dir(r.allow[j]))
    ensures Search(r, within, p, k) == Ok(p)
    decreases i - k
  {
    if k < i { SearchFound(r, within, p, k + 1, i); }
  }

  /** The shipped lists let the console write /var/log and what is in it, the broker's own audit log
      included, unless a deny list names the path. */
  lemma ShippedReachesLog(home: Comps, convHome: Comps, denyExact: set<string>, denyPrefix: seq<string>, console: seq<Comps>,
                          within: (string, string) -> bool, cs: Comps)
    requires Canonical(home) && Canonical(convHome) && ["var", "log"] !in console && InLogTree(cs)
    ensures var r, p := Shipped(home, convHome, denyExact, denyPrefix, console), File(cs);
      && Abs(p) == Ok(p) && Resolved(p) == cs
      && (PathAllowed(r, within, p, false) == Ok(p) <==> !DenyListed(r, p))
  {
    var r := Shipped(home, convHome, denyExact, denyPrefix, console);
    var p := File(cs);
    CanonicalAbs(cs);
    ShippedWf(home, convHome, denyExact, denyPrefix, console);
    LogDecider(home, convHome, cs);
    var k := |EARLY_DIRS| + 6;
    forall j | 0 <= j < k ensures !Under(p, Dir(r.allow[j])) { UnderIsPrefix(cs, r.allow[j]); }
    UnderIsPrefix(cs, r.allow[k]);
    SearchFound(r, within, p, 0, k);
  }

  lemma CanonicalAbs(cs: Comps)
    requires Canonical(cs) && NulFreeAll(cs)
    ensures Abs(File(cs)) == Ok(File(cs)) && Resolved(File(cs)) == cs
  {
    SplitAbsolute("/", cs);
    SlashesOfCanonical("/", cs);
    JoinNoNul(cs);
    AbsExact(File(cs));
  }
}
