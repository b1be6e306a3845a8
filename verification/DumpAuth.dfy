/**
 Only a database dump that the broker itself produced can be restored: next to each dump lies a
 keyed hash of it, and a restore compares.  The hash is ideal: without the key no new one can be
 made.  The console may write, copy, cut and read files of the tree as it likes.
 */
module DumpAuth {
  import opened Wrappers
  import opened PathNorm
  import opened PathRules

  /** Keys anyone can choose, and keys the broker drew at random. */
  datatype Key = Own(n: nat) | Secret(n: nat)

  /** File contents: characters and hashes of contents. */
  datatype Atom = Ch(c: char) | Tag(key: Key, of: seq<Atom>)

  type Content = seq<Atom>

  predicate IsBlank(a: Atom) { a.Ch? && IsWhite(a.c) }

  function LStrip(c: Content): (r: Content)
    decreases |c|
  {
    if c != [] && IsBlank(c[0]) then LStrip(c[1..]) else c
  }

  function RStrip(c: Content): (r: Content)
    decreases |c|
  {
    if c != [] && IsBlank(c[|c| - 1]) then RStrip(c[..|c| - 1]) else c
  }

  /** Python's strip. */
  function Strip(c: Content): (r: Content) { RStrip(LStrip(c)) }

  lemma {:induction false} LStripKeeps(c: Content, x: Atom)
    ensures x in LStrip(c) ==> x in c
    decreases |c|
  {
    if c != [] && IsBlank(c[0]) { LStripKeeps(c[1..], x); }
  }

  lemma {:induction false} RStripKeeps(c: Content, x: Atom)
    ensures x in RStrip(c) ==> x in c
    decreases |c|
  {
    if c != [] && IsBlank(c[|c| - 1]) { RStripKeeps(c[..|c| - 1], x); }
  }

  lemma StripKeeps(c: Content, x: Atom)
    ensures x in Strip(c) ==> x in c
  {
    RStripKeeps(LStrip(c), x);
    LStripKeeps(c, x);
  }

  /** A file or directory, by components. */
  type Path = p: Comps | p != [] witness [""]

  /** <path>.hmac. */
  function Sidecar(p: Path): (r: Path) { p[..|p| - 1] + [p[|p| - 1] + ".hmac"] }

  lemma SidecarDiffers(p: Path)
    ensures Sidecar(p) != p
  {
    assert Sidecar(p)[|p| - 1] == p[|p| - 1] + ".hmac";
  }

  /** What becomes of the sidecar: written, not opened, or opened and left empty. */
  datatype Seal = Written | NotOpened | LeftEmpty

  /** How a dump goes: the file cannot be opened, the command cannot be started, it is killed or
      fails after writing some of its output and the file is then removed or not, or it ends well.  Then
      the mode of the file cannot be set, or the sidecar is dealt with and the file can be read back for
      the answer or not. */
  datatype Outcome =
    | CannotOpen
    | CannotLaunch
    | Stopped(partial: Content, removed: bool)
    | NotModed(output: Content)
    | Done(output: Content, seal: Seal, readBack: bool)

  /** The command ended well. */
  predicate Ended(o: Outcome) { o.NotModed? || o.Done? }

  // ---------------------------------------------------------------- the broker's operations

  type Files = map<Path, Content>

  class Store {
    var files: Files
    var key: Option<nat>     // the key file
    var next: nat            // the next random key

    constructor ()
      ensures files == map[] && key == None && next == 0
    {
      files, key, next := map[], None, 0;
    }

    /** `_dump_hmac_key`: the stored key, else a new one, stored if the disk allows. */
    method DumpKey(disk: bool) returns (k: nat)
      modifies this`key, this`next
      ensures k == CurrentKey(old(key), old(next))
      ensures key == KeyAfter(old(key), old(next), disk) && next == NextAfter(old(key), old(next))
    {
      if key.Some? { return key.value; }
      k := next;
      next := next + 1;
      if disk { key := Some(k); }
    }

    /** `_dump_to_file`. */
    method DumpToFile(path: Path, sidecar: bool, o: Outcome, disk: bool) returns (ok: bool)
      modifies this
      ensures files == DumpFiles(old(files), CurrentKey(old(key), old(next)), path, sidecar, o)
      ensures ok <==> o.Done? && o.readBack
      // the output is there whole exactly if the command ended well, whatever is answered then
      ensures Ended(o) ==> path in files && files[path] == o.output
      ensures !ok && !o.CannotOpen? ==> (path in files <==> o.CannotLaunch? || Ended(o) || !o.removed)
      ensures if UsesKey(sidecar, o) then key == KeyAfter(old(key), old(next), disk) && next == NextAfter(old(key), old(next))
              else key == old(key) && next == old(next)
    {
      DumpLeaves(files, CurrentKey(key, next), path, sidecar, o);
      if o.CannotOpen? { return false; }
      files := files[path := []];
      if o.CannotLaunch? { return false; }
      if o.Stopped? {
        files := files[path := o.partial];
        if o.removed { files := files - {path}; }
        return false;
      }
      files := files[path := o.output];
      if o.NotModed? { return false; }
      if sidecar { WriteSidecar(path, o.seal, disk); }
      return o.readBack;
    }

    /** The sidecar of a complete dump. */
    method WriteSidecar(path: Path, seal: Seal, disk: bool)
      requires path in files
      modifies this
      ensures files == WithSidecar(old(files), CurrentKey(old(key), old(next)), path, seal)
      ensures if !seal.NotOpened? then key == KeyAfter(old(key), old(next), disk) && next == NextAfter(old(key), old(next))
              else key == old(key) && next == old(next)
    {
      SidecarDiffers(path);
      if seal.NotOpened? { return; }
      files := files[Sidecar(path) := []];
      var k := DumpKey(disk);
      if seal.Written? { files := files[Sidecar(path) := [Tag(Secret(k), files[path])]]; }
    }

    /** The test of `pg_restore` and `stack_pg_restore`; Some: the bytes that are restored. */
    method Restore(path: Path, disk: bool) returns (bytes: Option<Content>)
      modifies this`key, this`next
      ensures bytes == if Accepts(files, CurrentKey(old(key), old(next)), path) then Some(files[path]) else None
      // a key is asked for, and drawn if there is none, exactly where there is something to compare
      ensures if path in files && Sidecar(path) in files && Strip(files[Sidecar(path)]) != []
              then key == KeyAfter(old(key), old(next), disk) && next == NextAfter(old(key), old(next))
              else key == old(key) && next == old(next)
    {
      if path !in files { return None; }
      var want := if Sidecar(path) in files then Strip(files[Sidecar(path)]) else [];
      if want == [] { return None; }
      var k := DumpKey(disk);
      if want != [Tag(Secret(k), files[path])] { return None; }
      return Some(files[path]);
    }
  }

  function CurrentKey(key: Option<nat>, next: nat): (k: nat) { if key.Some? then key.value else next }

  function KeyAfter(key: Option<nat>, next: nat, disk: bool): (k: Option<nat>) { if key.Some? || !disk then key else Some(next) }

  function NextAfter(key: Option<nat>, next: nat): (n: nat) { if key.Some? then next else next + 1 }

  /** Only a sidecar that is being written asks for the key. */
  predicate UsesKey(sidecar: bool, o: Outcome) { o.Done? && sidecar && !o.seal.NotOpened? }

  function DumpFiles(files: Files, k: nat, path: Path, sidecar: bool, o: Outcome): (r: Files)
  {
    match o
    case CannotOpen => files
    case CannotLaunch => files[path := []]
    case Stopped(partial, removed) => if removed then files - {path} else files[path := partial]
    case NotModed(output) => files[path := output]
    case Done(output, seal, _) =>
      if sidecar then WithSidecar(files[path := output], k, path, seal) else files[path := output]
  }

  function WithSidecar(files: Files, k: nat, path: Path, seal: Seal): (r: Files)
    requires path in files
  {
    match seal
    case NotOpened => files
    case Written => files[Sidecar(path) := [Tag(Secret(k), files[path])]]
    case LeftEmpty => files[Sidecar(path) := []]
  }

  /** The file after each way a dump can go. */
  lemma DumpLeaves(files: Files, k: nat, path: Path, sidecar: bool, o: Outcome)
    ensures var r := DumpFiles(files, k, path, sidecar, o);
      && Sidecar(path) != path && (Ended(o) ==> path in r && r[path] == o.output)
      && (!Ended(o) && !o.CannotOpen? ==> (path in r <==> o.CannotLaunch? || !o.removed))
  {
    SidecarDiffers(path);
  }

  /** The sidecar that an earlier dump left stays unless it is opened; so a new file can lie beside an old
      sidecar. */
  lemma StaleSidecar(files: Files, k: nat, path: Path, sidecar: bool, o: Outcome)
    ensures var r := DumpFiles(files, k, path, sidecar, o);
      && (Sidecar(path) in r <==> Sidecar(path) in files || UsesKey(sidecar, o))
      && (!UsesKey(sidecar, o) && Sidecar(path) in files ==> r[Sidecar(path)] == files[Sidecar(path)])
  {
    SidecarDiffers(path);
  }

  predicate Accepts(files: Files, k: nat, path: Path)
  {
    path in files && Sidecar(path) in files && Strip(files[Sidecar(path)]) == [Tag(Secret(k), files[path])]
  }

  // ---------------------------------------------------------------- runs

  datatype Config = Config(rules: Rules, within: (string, string) -> bool)

  const KEY_FILE: Path := BROKER_STATE + ["dump.key"]

  /** known: the hashes the console has seen; leaked: it has read the key file or put one of its own there. */
  datatype State = State(files: Files, key: Option<nat>, next: nat, known: set<Atom>, leaked: bool)

  /** What the console does to files through an enforcing broker, and the broker's operations.  Put
      stands for write, append, cp and mv, whose result is put together from what is there.  The operand
      may be a directory: the file put or looked at is `below` in it, and rm takes away all that is. */
  datatype Event =
    | Put(path: string, below: Comps, content: Content)
    | Remove(path: string)
    | Look(path: string, below: Comps)
    | Dump(file: Path, sidecar: bool, o: Outcome, disk: bool)
    | Restore(file: Path, disk: bool)

  predicate InFiles(files: Files, a: Atom) { exists p :: p in files && a in files[p] }

  /** No hash under a secret key but those seen or lying in files, unless the key is known. */
  predicate Derivable(s: State, c: Content)
  {
    s.leaked || forall a :: a in c && a.Tag? && a.key.Secret? ==> a in s.known || InFiles(s.files, a)
  }

  predicate Enabled(c: Config, s: State, e: Event)
  {
    match e
    case Put(path, below, content) =>
      PathAllowed(c.rules, c.within, path, false).Ok? && Resolved(path) + below != [] && Derivable(s, content)
    case Remove(path) => PathAllowed(c.rules, c.within, path, false).Ok?
    case Look(path, below) => PathAllowed(c.rules, c.within, path, true).Ok? && Resolved(path) + below != []
    case Dump(_, _, o, _) => (o.Stopped? ==> Derivable(s, o.partial)) && (Ended(o) ==> Derivable(s, o.output))
    case Restore(_, _) => true
  }

  function WithKey(s: State, disk: bool): (r: State)
  {
    s.(key := KeyAfter(s.key, s.next, disk), next := NextAfter(s.key, s.next))
  }

  /** The files neither at d nor below it. */
  function Without(files: Files, d: Comps): (r: Files)
    ensures forall p :: p in r <==> p in files && !(d <= p)
    ensures forall p :: p in r ==> r[p] == files[p]
  {
    map p | p in files && !(d <= p) :: files[p]
  }

  function Step(c: Config, s: State, e: Event): (r: State)
    requires Enabled(c, s, e)
  {
    match e
    case Put(path, below, content) =>
      var p: Path := Resolved(path) + below;
      if p == KEY_FILE then s.(key := Some(s.next), next := s.next + 1, leaked := true) else s.(files := s.files[p := content])
    case Remove(path) =>
      s.(files := Without(s.files, Resolved(path)), key := if Resolved(path) <= KEY_FILE then None else s.key)
    case Look(path, below) =>
      var p: Path := Resolved(path) + below;
      s.(known := s.known + (if p in s.files then set a | a in s.files[p] else {}), leaked := s.leaked || p == KEY_FILE)
    case Dump(p, sidecar, o, disk) =>
      (if UsesKey(sidecar, o) then WithKey(s, disk) else s)
        .(files := DumpFiles(s.files, CurrentKey(s.key, s.next), p, sidecar, o))
    case Restore(p, disk) =>
      if p in s.files && Sidecar(p) in s.files && Strip(s.files[Sidecar(p)]) != [] then WithKey(s, disk) else s
  }

  /** In the machine the two operations do what the methods of the store do, and the console learns nothing. */
  lemma MachineIsStore(c: Config, s: State, e: Event)
    requires Enabled(c, s, e) && (e.Dump? || e.Restore?)
    ensures var r := Step(c, s, e);
      && r.files == (if e.Dump? then DumpFiles(s.files, CurrentKey(s.key, s.next), e.file, e.sidecar, e.o) else s.files)
      && r.known == s.known && r.leaked == s.leaked
      && if (e.Dump? && UsesKey(e.sidecar, e.o))
            || (e.Restore? && e.file in s.files && Sidecar(e.file) in s.files && Strip(s.files[Sidecar(e.file)]) != [])
         then r.key == KeyAfter(s.key, s.next, e.disk) && r.next == NextAfter(s.key, s.next)
         else r.key == s.key && r.next == s.next
  {}

  predicate StepAt(c: Config, tr: seq<State>, ev: seq<Event>, i: nat)
    requires |tr| == |ev| + 1
  {
    i < |ev| ==> Enabled(c, tr[i], ev[i]) && tr[i + 1] == Step(c, tr[i], ev[i])
  }

  /** At first nobody has seen a hash and the broker has not drawn a key. */
  predicate Init(s: State)
  {
    s.key.None? && s.next == 0 && s.known == {} && !s.leaked
    && forall p, a :: p in s.files && a in s.files[p] && a.Tag? ==> a.key.Own?
  }

  ghost predicate Run(c: Config, tr: seq<State>, ev: seq<Event>)
  {
    |tr| == |ev| + 1 && Init(tr[0]) && forall i: nat :: StepAt(c, tr, ev, i)
  }

  predicate Guarded(c: Config) { Wf(c.rules) && Sealed(c.rules, KEY_FILE) }

  lemma ShippedGuards(c: Config, home: Comps, convHome: Comps, denyExact: set<string>, denyPrefix: seq<string>, console: seq<Comps>)
    requires c.rules == Shipped(home, convHome, denyExact, denyPrefix, console) && Canonical(home) && Canonical(convHome)
    ensures Guarded(c)
  {
    ShippedWf(home, convHome, denyExact, denyPrefix, console);
    StateIsSealed(home, convHome, denyExact, denyPrefix, console, "dump.key");
  }

  /** The outputs of the first n events' completed dumps. */
  ghost predicate Produced(ev: seq<Event>, n: nat, c: Content)
  {
    exists j :: 0 <= j < n && j < |ev| && ev[j].Dump? && ev[j].o.Done? && ev[j].o.output == c
  }

  /** A hash under a drawn key is one of a dump the broker produced. */
  ghost predicate Honest(ev: seq<Event>, n: nat, s: State, a: Atom)
  {
    a.Tag? && a.key.Secret? ==> a.key.n < s.next && Produced(ev, n, a.of)
  }

  ghost predicate FilesHonest(ev: seq<Event>, n: nat, s: State)
  {
    forall p, a :: p in s.files && a in s.files[p] ==> Honest(ev, n, s, a)
  }

  ghost predicate Inv(ev: seq<Event>, n: nat, s: State)
  {
    && !s.leaked && (s.key.Some? ==> s.key.value < s.next)
    && FilesHonest(ev, n, s) && (forall a :: a in s.known ==> Honest(ev, n, s, a))
  }

  lemma HonestLater(ev: seq<Event>, n: nat, s: State, s': State, a: Atom)
    requires Honest(ev, n, s, a) && s.next <= s'.next
    ensures Honest(ev, n + 1, s', a)
  {}

  lemma DerivableHonest(ev: seq<Event>, n: nat, s: State, c: Content, a: Atom)
    requires Inv(ev, n, s) && Derivable(s, c) && a in c
    ensures Honest(ev, n, s, a)
  {}

  lemma NotTheKey(c: Config, s: State, e: Event)
    requires Guarded(c) && Enabled(c, s, e) && (e.Put? || e.Remove? || e.Look?)
    ensures !(Resolved(e.path) <= KEY_FILE)
  {
    if Resolved(e.path) <= KEY_FILE { SealedRefused(c.rules, c.within, e.path, e.Look?, KEY_FILE); }
  }

  lemma DumpHonest(c: Config, ev: seq<Event>, n: nat, s: State, p: Path, a: Atom)
    requires Inv(ev, n, s) && n < |ev| && ev[n].Dump? && Enabled(c, s, ev[n])
    requires var s' := Step(c, s, ev[n]); p in s'.files && a in s'.files[p]
    ensures Honest(ev, n + 1, Step(c, s, ev[n]), a)
  {
    var e, s' := ev[n], Step(c, s, ev[n]);
    if p in s.files && a in s.files[p] {
      HonestLater(ev, n, s, s', a);
    } else if e.o.Done? && a == Tag(Secret(CurrentKey(s.key, s.next)), e.o.output) {
      assert Produced(ev, n + 1, e.o.output);
    } else {
      var content := if Ended(e.o) then e.o.output else if e.o.Stopped? then e.o.partial else [];
      assert a in content;
      DerivableHonest(ev, n, s, content, a);
      HonestLater(ev, n, s, s', a);
    }
  }

  lemma StepFiles(c: Config, ev: seq<Event>, n: nat, s: State)
    requires Inv(ev, n, s) && n < |ev| && Enabled(c, s, ev[n])
    ensures FilesHonest(ev, n + 1, Step(c, s, ev[n]))
  {
    var e, s' := ev[n], Step(c, s, ev[n]);
    forall p, a | p in s'.files && a in s'.files[p] ensures Honest(ev, n + 1, s', a) {
      if e.Dump? {
        DumpHonest(c, ev, n, s, p, a);
      } else {
        if !(p in s.files && a in s.files[p]) { DerivableHonest(ev, n, s, e.content, a); }
        HonestLater(ev, n, s, s', a);
      }
    }
  }

  lemma StepInv(c: Config, ev: seq<Event>, n: nat, s: State)
    requires Guarded(c) && Inv(ev, n, s) && n < |ev| && Enabled(c, s, ev[n])
    ensures Inv(ev, n + 1, Step(c, s, ev[n]))
  {
    var e, s' := ev[n], Step(c, s, ev[n]);
    StepFiles(c, ev, n, s);
    if e.Put? || e.Remove? || e.Look? { NotTheKey(c, s, e); }
    forall a | a in s'.known ensures Honest(ev, n + 1, s', a) { HonestLater(ev, n, s, s', a); }
  }

  lemma {:induction false} Reachable(c: Config, tr: seq<State>, ev: seq<Event>, i: nat)
    requires Run(c, tr, ev) && Guarded(c) && i < |tr|
    ensures Inv(ev, i, tr[i])
  {
    if i == 0 {
      InitInv(ev, tr[0]);
    } else {
      Reachable(c, tr, ev, i - 1);
      OneStep(c, tr, ev, i - 1);
      NextInv(c, ev, i - 1, tr[i - 1], tr[i]);
    }
  }

  lemma OneStep(c: Config, tr: seq<State>, ev: seq<Event>, i: nat)
    requires Run(c, tr, ev) && i < |ev|
    ensures Enabled(c, tr[i], ev[i]) && tr[i + 1] == Step(c, tr[i], ev[i])
  {
    assert StepAt(c, tr, ev, i);
  }

  lemma NextInv(c: Config, ev: seq<Event>, n: nat, s: State, s': State)
    requires Guarded(c) && Inv(ev, n, s) && n < |ev| && Enabled(c, s, ev[n]) && s' == Step(c, s, ev[n])
    ensures Inv(ev, n + 1, s')
  {
    StepInv(c, ev, n, s);
  }

  lemma InitInv(ev: seq<Event>, s: State)
    requires Init(s)
    ensures Inv(ev, 0, s)
  {}

  // ---------------------------------------------------------------- results

  /** Whatever the console did to the files, the bytes a restore accepts are the complete output of
      an earlier dump of the broker. */
  lemma Authentic(c: Config, tr: seq<State>, ev: seq<Event>, i: nat, p: Path)
    requires Run(c, tr, ev) && Guarded(c) && i < |tr|
    requires Accepts(tr[i].files, CurrentKey(tr[i].key, tr[i].next), p)
    ensures Produced(ev, i, tr[i].files[p])
  {
    Reachable(c, tr, ev, i);
    AcceptedIsHonest(ev, i, tr[i], p);
  }

  lemma AcceptedIsHonest(ev: seq<Event>, i: nat, s: State, p: Path)
    requires Inv(ev, i, s) && Accepts(s.files, CurrentKey(s.key, s.next), p)
    ensures Produced(ev, i, s.files[p]) && s.key.Some?
  {
    var want := Strip(s.files[Sidecar(p)]);
    var t := Tag(Secret(CurrentKey(s.key, s.next)), s.files[p]);
    assert t == want[0] && t in want;
    StripKeeps(s.files[Sidecar(p)], t);
    assert Honest(ev, i, s, t);
  }

  /** Without a stored key nothing is ever accepted, not even a dump just made: every call then
      draws a key of its own. */
  lemma NoStoredKeyNoRestore(c: Config, tr: seq<State>, ev: seq<Event>, i: nat, p: Path)
    requires Run(c, tr, ev) && Guarded(c) && i < |tr| && tr[i].key.None?
    ensures !Accepts(tr[i].files, CurrentKey(tr[i].key, tr[i].next), p)
  {
    Reachable(c, tr, ev, i);
    if Accepts(tr[i].files, CurrentKey(tr[i].key, tr[i].next), p) { AcceptedIsHonest(ev, i, tr[i], p); }
  }

  /** The event changes neither file nor the key. */
  predicate LeavesAlone(e: Event, p: Path)
  {
    match e
    case Put(path, below, _) => Resolved(path) + below !in {p, Sidecar(p), KEY_FILE}
    case Remove(path) => !(Resolved(path) <= p) && !(Resolved(path) <= Sidecar(p)) && !(Resolved(path) <= KEY_FILE)
    case Look(_, _) => true
    case Dump(q, sidecar, _, _) => {q, Sidecar(q)} !! {p, Sidecar(p)}
    case Restore(_, _) => true
  }

  lemma TagStrips(a: Atom)
    requires a.Tag?
    ensures Strip([a]) == [a]
  {}

  lemma {:induction false} Untouched(c: Config, tr: seq<State>, ev: seq<Event>, i: nat, j: nat, p: Path)
    requires |tr| == |ev| + 1 && (forall k: nat :: StepAt(c, tr, ev, k)) && i <= j < |tr| && tr[i].key.Some?
    requires p in tr[i].files && Sidecar(p) in tr[i].files && forall k :: i <= k < j ==> LeavesAlone(ev[k], p)
    ensures p in tr[j].files && Sidecar(p) in tr[j].files && tr[j].key == tr[i].key
    ensures tr[j].files[p] == tr[i].files[p] && tr[j].files[Sidecar(p)] == tr[i].files[Sidecar(p)]
    decreases j
  {
    if i < j {
      Untouched(c, tr, ev, i, j - 1, p);
      assert StepAt(c, tr, ev, j - 1);
      assert LeavesAlone(ev[j - 1], p);
    }
  }

  /** Round trip: a dump whose sidecar was written under a stored key stays restorable, with exactly
      its output, until one of the two files is touched; also when the operation then answered an error. */
  lemma DumpThenRestore(c: Config, tr: seq<State>, ev: seq<Event>, i: nat, j: nat)
    requires Run(c, tr, ev) && i < j < |tr| && ev[i].Dump? && ev[i].sidecar && ev[i].o.Done? && ev[i].o.seal.Written?
    requires tr[i].key.Some? || ev[i].disk
    requires forall k :: i < k < j ==> LeavesAlone(ev[k], ev[i].file)
    ensures Accepts(tr[j].files, CurrentKey(tr[j].key, tr[j].next), ev[i].file) && tr[j].files[ev[i].file] == ev[i].o.output
  {
    var p := ev[i].file;
    assert StepAt(c, tr, ev, i);
    SidecarDiffers(p);
    TagStrips(Tag(Secret(CurrentKey(tr[i].key, tr[i].next)), ev[i].o.output));
    Untouched(c, tr, ev, i + 1, j, p);
  }

  /** The key file is what it rests on.  Under a rulebook that lets the console read it, or put one of its own
      there, any bytes at all can be made to be accepted: with two more writes. */
  lemma LeakForges(c: Config, s: State, e: Event, path: string, tag: string, bytes: Content) returns (hash: Content)
    requires s.key.Some? && Enabled(c, s, e) && (e.Look? || e.Put?) && Resolved(e.path) + e.below == KEY_FILE
    requires PathAllowed(c.rules, c.within, path, false).Ok? && PathAllowed(c.rules, c.within, tag, false).Ok?
    requires Resolved(path) != [] && Resolved(tag) == Sidecar(Resolved(path)) && KEY_FILE !in {Resolved(path), Resolved(tag)}
    ensures var e1, e2 := Put(path, [], bytes), Put(tag, [], hash);
      && Enabled(c, Step(c, s, e), e1) && Enabled(c, Step(c, Step(c, s, e), e1), e2)
      && var r := Step(c, Step(c, Step(c, s, e), e1), e2);
         Accepts(r.files, CurrentKey(r.key, r.next), Resolved(path)) && r.files[Resolved(path)] == bytes
  {
    var s1 := Step(c, s, e);
    Leaks(c, s, e);
    hash := [Tag(Secret(s1.key.value), bytes)];
    Forges(c, s1, path, tag, bytes);
  }

  lemma Leaks(c: Config, s: State, e: Event)
    requires Enabled(c, s, e) && s.key.Some? && (e.Look? || e.Put?) && Resolved(e.path) + e.below == KEY_FILE
    ensures Step(c, s, e).leaked && Step(c, s, e).key.Some?
  {}

  lemma Forges(c: Config, s: State, path: string, tag: string, bytes: Content)
    requires s.leaked && s.key.Some?
    requires PathAllowed(c.rules, c.within, path, false).Ok? && PathAllowed(c.rules, c.within, tag, false).Ok?
    requires Resolved(path) != [] && Resolved(tag) == Sidecar(Resolved(path)) && KEY_FILE !in {Resolved(path), Resolved(tag)}
    ensures var e1, e2 := Put(path, [], bytes), Put(tag, [], [Tag(Secret(s.key.value), bytes)]);
      && Enabled(c, s, e1) && Enabled(c, Step(c, s, e1), e2)
      && var r := Step(c, Step(c, s, e1), e2);
         Accepts(r.files, CurrentKey(r.key, r.next), Resolved(path)) && r.files[Resolved(path)] == bytes
  {
    var p: Path := Resolved(path);
    EmptyPrefix(Resolved(path));
    EmptyPrefix(Resolved(tag));
    SidecarDiffers(p);
    TagStrips(Tag(Secret(s.key.value), bytes));
  }

  /** What the console has read it can put back: a dump it read, with its sidecar, and removed. */
  lemma SeenCanBePutBack(c: Config, s: State, path: string)
    requires PathAllowed(c.rules, c.within, path, false).Ok? && Resolved(path) != [] && Resolved(path) in s.files
    ensures var s1 := Step(c, s, Look(path, [])); var s2 := Step(c, s1, Remove(path));
      && Enabled(c, s, Look(path, [])) && Enabled(c, s1, Remove(path)) && Resolved(path) !in s2.files
      && Enabled(c, s2, Put(path, [], s.files[Resolved(path)]))
  {
    ReadExtendsWrite(c.rules, c.within, path);
    EmptyPrefix(Resolved(path));
  }

  predicate AllBlank(c: Content) { forall i :: 0 <= i < |c| ==> IsBlank(c[i]) }

  lemma {:induction false} LStripTag(a: Content, x: Content)
    requires AllBlank(a) && x != [] && x[0].Tag?
    ensures LStrip(a + x) == x
    decreases |a|
  {
    if a == [] {
      EmptyPrefix(x);
    } else {
      assert (a + x)[0] == a[0] && (a + x)[1..] == a[1..] + x;
      LStripTag(a[1..], x);
    }
  }

  lemma {:induction false} RStripTag(x: Content, b: Content)
    requires AllBlank(b) && x != [] && x[|x| - 1].Tag?
    ensures RStrip(x + b) == x
    decreases |b|
  {
    if b == [] {
      EmptyPrefix(x);
    } else {
      assert (x + b)[|x + b| - 1] == b[|b| - 1] && (x + b)[..|x + b| - 1] == x + b[..|b| - 1];
      RStripTag(x, b[..|b| - 1]);
    }
  }

  /** White space around the hash does not matter: a sidecar with a line feed at its end is read as well. */
  lemma SpaceIsIgnored(files: Files, k: nat, p: Path, a: Content, b: Content)
    requires p in files && Sidecar(p) in files && AllBlank(a) && AllBlank(b)
    requires files[Sidecar(p)] == a + ([Tag(Secret(k), files[p])] + b)
    ensures Accepts(files, k, p)
  {
    var t := [Tag(Secret(k), files[p])];
    LStripTag(a, t + b);
    RStripTag(t, b);
  }

  /** The hash binds the bytes, not their place: a copy of both files is accepted as well. */
  lemma CopiesAreAccepted(files: Files, k: nat, p: Path, q: Path)
    requires Accepts(files, k, p) && q != p && q != Sidecar(p)
    ensures Accepts(files[q := files[p]][Sidecar(q) := files[Sidecar(p)]], k, q)
  {
    SidecarDiffers(q);
  }
}
