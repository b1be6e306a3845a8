/**
 Directories that the console itself may write to are admitted only where the path, with
 symbolic links followed, stays inside.  The file system is a map from link to target.
 */
module Symlinks {
  import opened Wrappers
  import opened PathNorm
  import opened PathRules

  type Links = map<Comps, string>

  function Up(at: Comps): (r: Comps) { if at == [] then [] else at[..|at| - 1] }

  /** Walk the components `rest` from the directory `at`; `depth` bounds the nesting of links,
      and None says that it was not enough. */
  function Walk(fs: Links, at: Comps, rest: Comps, depth: nat): (r: Option<Comps>)
    decreases depth, |rest|
  {
    if rest == [] then Some(at) else
    var name, more := rest[0], rest[1..];
    if name == "" || name == "." then Walk(fs, at, more, depth)
    else if name == ".." then Walk(fs, Up(at), more, depth)
    else if at + [name] !in fs then Walk(fs, at + [name], more, depth)
    else if depth == 0 then None
    else
      var target := fs[at + [name]];
      var d := Walk(fs, if StartsWith(target, "/") then [] else at, Split(target), depth - 1);
      if d.None? then None else Walk(fs, d.value, more, depth)
  }

  /** Where a path leads; nowhere when its links form a loop. */
  ghost predicate LeadsTo(fs: Links, cs: Comps, out: Comps) { exists depth: nat :: Walk(fs, [], cs, depth) == Some(out) }

  lemma {:induction false} MoreDepth(fs: Links, at: Comps, rest: Comps, d: nat, e: nat)
    requires Walk(fs, at, rest, d).Some? && d <= e
    ensures Walk(fs, at, rest, e) == Walk(fs, at, rest, d)
    decreases d, |rest|
  {
    if rest != [] {
      var name, more := rest[0], rest[1..];
      if name == "" || name == "." { MoreDepth(fs, at, more, d, e); }
      else if name == ".." { MoreDepth(fs, Up(at), more, d, e); }
      else if at + [name] !in fs { MoreDepth(fs, at + [name], more, d, e); }
      else {
        var target := fs[at + [name]];
        var start := if StartsWith(target, "/") then [] else at;
        MoreDepth(fs, start, Split(target), d - 1, e - 1);
        MoreDepth(fs, Walk(fs, start, Split(target), d - 1).value, more, d, e);
      }
    }
  }

  lemma LeadsToOne(fs: Links, cs: Comps, a: Comps, b: Comps)
    requires LeadsTo(fs, cs, a) && LeadsTo(fs, cs, b)
    ensures a == b
  {
    var d: nat :| Walk(fs, [], cs, d) == Some(a);
    var e: nat :| Walk(fs, [], cs, e) == Some(b);
    if d <= e { MoreDepth(fs, [], cs, d, e); } else { MoreDepth(fs, [], cs, e, d); }
  }

  lemma {:induction false} WalkAppend(fs: Links, at: Comps, a: Comps, b: Comps, d: nat)
    ensures var m := Walk(fs, at, a, d);
            Walk(fs, at, a + b, d) == if m.None? then None else Walk(fs, m.value, b, d)
    decreases d, |a|
  {
    if a == [] {
      EmptyPrefix(b);
    } else {
      assert (a + b)[0] == a[0] && (a + b)[1..] == a[1..] + b;
      var name, more := a[0], a[1..];
      if name == "" || name == "." { WalkAppend(fs, at, more, b, d); }
      else if name == ".." { WalkAppend(fs, Up(at), more, b, d); }
      else if at + [name] !in fs { WalkAppend(fs, at + [name], more, b, d); }
      else if d > 0 {
        var target := fs[at + [name]];
        var t := Walk(fs, if StartsWith(target, "/") then [] else at, Split(target), d - 1);
        if t.Some? { WalkAppend(fs, t.value, more, b, d); }
      }
    }
  }

  /** No directory on the way to cs, nor cs, is a link. */
  predicate LinkFree(fs: Links, cs: Comps) { forall n :: 0 < n <= |cs| ==> cs[..n] !in fs }

  lemma LinkFreeUp(fs: Links, cs: Comps)
    requires LinkFree(fs, cs) && Canonical(cs)
    ensures LinkFree(fs, Up(cs)) && Canonical(Up(cs))
  {
    forall n | 0 < n <= |Up(cs)| ensures Up(cs)[..n] !in fs { assert Up(cs)[..n] == cs[..n]; }
  }

  lemma LinkFreeDown(fs: Links, cs: Comps, name: string)
    requires LinkFree(fs, cs) && Canonical(cs) && cs + [name] !in fs && Proper(name)
    ensures LinkFree(fs, cs + [name]) && Canonical(cs + [name])
  {
    var e := cs + [name];
    forall n | 0 < n <= |e| ensures e[..n] !in fs {
      if n <= |cs| { assert e[..n] == cs[..n]; } else { assert e[..n] == e; }
    }
  }

  /** Where a walk ends no link is left to follow. */
  lemma {:induction false} WalkLinkFree(fs: Links, at: Comps, rest: Comps, d: nat)
    requires LinkFree(fs, at) && Canonical(at) && NoSlashes(rest)
    ensures var m := Walk(fs, at, rest, d); m.Some? ==> LinkFree(fs, m.value) && Canonical(m.value)
    decreases d, |rest|
  {
    if rest != [] {
      var name, more := rest[0], rest[1..];
      assert NoSlash(name);
      if name == "" || name == "." { WalkLinkFree(fs, at, more, d); }
      else if name == ".." {
        LinkFreeUp(fs, at);
        WalkLinkFree(fs, Up(at), more, d);
      } else if at + [name] !in fs {
        LinkFreeDown(fs, at, name);
        WalkLinkFree(fs, at + [name], more, d);
      } else if d > 0 {
        var target := fs[at + [name]];
        var start := if StartsWith(target, "/") then [] else at;
        SplitNoSlashes(target);
        WalkLinkFree(fs, start, Split(target), d - 1);
        var t := Walk(fs, start, Split(target), d - 1);
        if t.Some? { WalkLinkFree(fs, t.value, more, d); }
      }
    }
  }

  /** A path without links leads to itself. */
  lemma {:induction false} WalkPlain(fs: Links, cs: Comps, d: nat)
    requires LinkFree(fs, cs) && Canonical(cs)
    ensures Walk(fs, [], cs, d) == Some(cs)
    decreases |cs|
  {
    if cs != [] {
      var init, name := Up(cs), cs[|cs| - 1];
      InitLast(cs);
      LinkFreeUp(fs, cs);
      WalkPlain(fs, init, d);
      WalkAppend(fs, [], init, [name], d);
      assert cs[..|cs|] == cs && [name][1..] == [];
    }
  }

  /** And a link leads where its target does, from the root or from the directory the link is in. */
  lemma LinkLeads(fs: Links, dir: Comps, name: string, out: Comps)
    requires LinkFree(fs, dir) && Canonical(dir) && Proper(name) && dir + [name] in fs
    ensures var target := fs[dir + [name]];
      LeadsTo(fs, dir + [name], out) <==> LeadsTo(fs, (if StartsWith(target, "/") then [] else dir) + Split(target), out)
  {
    var target := fs[dir + [name]];
    var start := if StartsWith(target, "/") then [] else dir;
    if n: nat :| Walk(fs, [], dir + [name], n) == Some(out) {
      ViaLink(fs, dir, name, n);
      FromDir(fs, start, Split(target), n - 1);
    }
    if n: nat :| Walk(fs, [], start + Split(target), n) == Some(out) {
      FromDir(fs, start, Split(target), n);
      ViaLink(fs, dir, name, n + 1);
    }
  }

  lemma FromDir(fs: Links, dir: Comps, rest: Comps, n: nat)
    requires LinkFree(fs, dir) && Canonical(dir)
    ensures Walk(fs, [], dir + rest, n) == Walk(fs, dir, rest, n)
  {
    WalkPlain(fs, dir, n);
    WalkAppend(fs, [], dir, rest, n);
  }

  lemma ViaLink(fs: Links, dir: Comps, name: string, n: nat)
    requires LinkFree(fs, dir) && Canonical(dir) && Proper(name) && dir + [name] in fs
    ensures var target := fs[dir + [name]];
      Walk(fs, [], dir + [name], n) ==
        if n == 0 then None else Walk(fs, if StartsWith(target, "/") then [] else dir, Split(target), n - 1)
  {
    FromDir(fs, dir, [name], n);
    assert [name][1..] == [];
  }

  // ---------------------------------------------------------------- the containment test

  /** What cs names in the directory d. */
  function Entry(d: Comps, cs: Comps): (r: Comps)
    requires cs != []
  {
    d + [cs[|cs| - 1]]
  }

  /** os.path.islink: the directory part is followed, the last component is looked at. */
  ghost predicate IsLink(fs: Links, cs: Comps)
    requires cs != []
  {
    exists d :: LeadsTo(fs, Up(cs), d) && Entry(d, cs) in fs
  }

  /** os.path.realpath gives `text`: the resolved path, or, when the links form a loop,
      some unresolved remainder that is not looked into here. */
  ghost predicate IsRealPath(fs: Links, path: string, text: string)
  {
    forall out :: LeadsTo(fs, Split(path), out) ==> text == File(out)
  }

  /** There is such a text for every path: a walk ends in one place only. */
  lemma RealPathExists(fs: Links, path: string) returns (text: string)
    ensures IsRealPath(fs, path, text)
  {
    text := "";
    if out :| LeadsTo(fs, Split(path), out) {
      text := File(out);
      forall o | LeadsTo(fs, Split(path), o) ensures o == out { LeadsToOne(fs, Split(path), o, out); }
    }
  }

  /** What `_within_realpath` compares. */
  ghost predicate RealsContain(fs: Links, path: string, root: string)
  {
    exists rp, rr :: IsRealPath(fs, path, rp) && IsRealPath(fs, root, rr) && TextBelow(rp, rr)
  }

  predicate TextBelow(rp: string, rr: string) { rp == rr || StartsWith(rp, rr + "/") }

  /** A containment test that answers as the broker's does on this file system. */
  ghost predicate FollowsLinks(fs: Links, within: (string, string) -> bool)
  {
    forall path, root :: within(path, root) ==>
      (Resolved(root) != [] ==> !IsLink(fs, Resolved(root))) && RealsContain(fs, path, root)
  }

  lemma SplitWalk(fs: Links, cs: Comps, out: Comps)
    requires Canonical(cs)
    ensures LeadsTo(fs, Split(File(cs)), out) <==> LeadsTo(fs, cs, out)
  {
    SplitRooted("/", cs);
    forall d: nat ensures Walk(fs, [], Split(File(cs)), d) == Walk(fs, [], cs, d) {
      WalkAppend(fs, [], [""], if cs == [] then [""] else cs, d);
    }
  }

  lemma RealOfRoot(fs: Links, root: Comps, out: Comps, rr: string)
    requires Canonical(root) && LeadsTo(fs, root, out) && IsRealPath(fs, File(root), rr)
    ensures rr == File(out)
  {
    SplitWalk(fs, root, out);
  }

  /** A directory that is not a link is, once its parent is followed, the entry of that name. */
  lemma RootIsItself(fs: Links, root: Comps, out: Comps)
    requires root != [] && Canonical(root) && LeadsTo(fs, root, out)
    ensures exists d :: LeadsTo(fs, Up(root), d) && (!IsLink(fs, root) ==> out == Entry(d, root))
  {
    var init, name := Up(root), root[|root| - 1];
    InitLast(root);
    var n: nat :| Walk(fs, [], root, n) == Some(out);
    WalkAppend(fs, [], init, [name], n);
    var d := Walk(fs, [], init, n).value;
    assert LeadsTo(fs, init, d);
    assert Proper(name);
    if !IsLink(fs, root) {
      assert d + [name] !in fs;
      assert [name][1..] == [];
    }
  }

  lemma LeadsToCanonical(fs: Links, cs: Comps, out: Comps)
    requires Canonical(cs) && LeadsTo(fs, cs, out)
    ensures Canonical(out) && LinkFree(fs, out)
  {
    var n: nat :| Walk(fs, [], cs, n) == Some(out);
    CanonicalNoSlashes(cs);
    WalkLinkFree(fs, [], cs, n);
  }

  lemma RootResolves(fs: Links, cs: Comps, root: Comps, out: Comps)
    requires root <= cs && LeadsTo(fs, cs, out)
    ensures exists o :: LeadsTo(fs, root, o)
  {
    var n: nat :| Walk(fs, [], cs, n) == Some(out);
    assert cs == root + cs[|root|..];
    WalkAppend(fs, [], root, cs[|root|..], n);
    assert LeadsTo(fs, root, Walk(fs, [], root, n).value);
  }

  /** What the path leads to lies in the directory `root` itself: below the entry of that name in
      its parent, with no link left on the way. */
  ghost predicate Inside(fs: Links, root: Comps, out: Comps)
    requires root != []
  {
    LinkFree(fs, out) && exists d :: LeadsTo(fs, Up(root), d) && Entry(d, root) <= out
  }

  lemma WithinIsInside(fs: Links, within: (string, string) -> bool, cs: Comps, root: Comps, out: Comps)
    requires FollowsLinks(fs, within) && Canonical(cs) && Canonical(root) && root != [] && root <= cs
    requires within(File(cs), File(root)) && LeadsTo(fs, cs, out)
    ensures Inside(fs, root, out)
  {
    assert !IsLink(fs, root) by { SplitAbsolute("/", root); }
    assert RealsContain(fs, File(cs), File(root));
    RootResolves(fs, cs, root, out);
    var o :| LeadsTo(fs, root, o);
    RootIsItself(fs, root, o);
    LeadsToCanonical(fs, cs, out);
    LeadsToCanonical(fs, root, o);
    ContainedBelow(fs, cs, root, out, o);
  }

  lemma ContainedBelow(fs: Links, cs: Comps, root: Comps, out: Comps, o: Comps)
    requires Canonical(cs) && Canonical(root) && LeadsTo(fs, cs, out) && LeadsTo(fs, root, o)
    requires Canonical(out) && Canonical(o) && o != [] && RealsContain(fs, File(cs), File(root))
    ensures o <= out
  {
    var rp, rr :| IsRealPath(fs, File(cs), rp) && IsRealPath(fs, File(root), rr) && TextBelow(rp, rr);
    RealOfRoot(fs, cs, out, rp);
    RealOfRoot(fs, root, o, rr);
    BelowText(out, o);
  }

  lemma BelowText(out: Comps, o: Comps)
    requires Canonical(out) && Canonical(o) && o != [] && TextBelow(File(out), File(o))
    ensures o <= out
  {
    BelowExact(out, o);
  }

  /** On texts the test compares whole components. */
  lemma BelowExact(out: Comps, o: Comps)
    requires Canonical(out) && Canonical(o) && o != []
    ensures TextBelow(File(out), File(o)) <==> o <= out
  {
    RStripDir(o);
    Assoc("/", Join(o), "/");
    UnderIsPrefix(out, o);
  }

  /** A containment test that also accepts whatever the broker's accepts. */
  ghost predicate AcceptsInside(fs: Links, within: (string, string) -> bool)
  {
    forall path, root :: (Resolved(root) != [] ==> !IsLink(fs, Resolved(root))) && RealsContain(fs, path, root) ==> within(path, root)
  }

  /** And what stays inside is granted: a path under a console-owned directory that is no link and that leads
      into what that directory leads to, unless a deny list names it. */
  lemma InsideIsGranted(fs: Links, within: (string, string) -> bool, r: Rules, cs: Comps, i: nat, out: Comps, o: Comps)
    requires AcceptsInside(fs, within) && Wf(r) && Canonical(cs) && NulFreeAll(cs)
    requires i < |r.allow| && FirstAbove(r.allow, i, cs) && !IsLink(fs, r.allow[i])
    requires LeadsTo(fs, cs, out) && LeadsTo(fs, r.allow[i], o) && o != [] && o <= out
    ensures PathAllowed(r, within, File(cs), false).Ok? <==> !DenyListed(r, File(cs))
  {
    var root := r.allow[i];
    CanonicalAbs(cs);
    LeadsToCanonical(fs, cs, out);
    LeadsToCanonical(fs, root, o);
    BelowExact(out, o);
    SplitAbsolute("/", root);
    RealPathOf(fs, cs, out);
    RealPathOf(fs, root, o);
    assert RealsContain(fs, File(cs), File(root));
    GrantExact(r, within, File(cs), false);
  }

  lemma RealPathOf(fs: Links, cs: Comps, out: Comps)
    requires Canonical(cs) && LeadsTo(fs, cs, out)
    ensures IsRealPath(fs, File(cs), File(out))
  {
    forall o | LeadsTo(fs, Split(File(cs)), o) ensures File(out) == File(o) {
      SplitWalk(fs, cs, o);
      LeadsToOne(fs, cs, out, o);
    }
  }

  /** A path granted by a directory the console owns leads, when it leads anywhere, inside that
      directory. */
  lemma GrantStaysInside(fs: Links, within: (string, string) -> bool, r: Rules, path: string, i: nat)
    requires FollowsLinks(fs, within) && Wf(r)
    requires i < |r.allow| && FirstAbove(r.allow, i, Resolved(path)) && r.allow[i] in r.console
    ensures PathAllowed(r, within, path, false).Ok? && Abs(path).path !in r.allowExact ==>
              forall out :: LeadsTo(fs, Resolved(path), out) ==> Inside(fs, r.allow[i], out)
  {
    if PathAllowed(r, within, path, false).Denied? || Abs(path).path in r.allowExact { return; }
    var p, cs := Abs(path).path, Resolved(path);
    GrantIsCovered(r, within, path, false);
    var root := r.allow[i];
    UnderIsPrefix(cs, root);
    RStripDir(root);
    forall j | 0 <= j < i ensures !Under(p, Dir(r.allow[j])) { UnderIsPrefix(cs, r.allow[j]); }
    SearchedAt(r, within, p, 0, i);
    forall out | LeadsTo(fs, cs, out) ensures Inside(fs, root, out) {
      WithinIsInside(fs, within, cs, root, out);
    }
  }

  lemma {:induction false} SearchedAt(r: Rules, within: (string, string) -> bool, p: string, k: nat, i: nat)
    requires k <= i < |r.allow| && Search(r, within, p, k).Ok? && Under(p, Dir(r.allow[i])) && r.allow[i] in r.console
    requires forall j :: k <= j < i ==> !Under(p, Dir(r.allow[j]))
    ensures within(p, RStrip(Dir(r.allow[i])))
    decreases i - k
  {
    if k < i { SearchedAt(r, within, p, k + 1, i); }
  }
}
