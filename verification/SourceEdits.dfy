/**
 The converters patch a source file by a list of edits sorted by descending start and spliced
 one after the other.  The reference is simultaneous substitution, defined on the original
 text position by position and without any order of application.
 */
module SourceEdits {
  import opened Wrappers

  /** Replace the half-open range [start, end) by `repl`. */
  datatype Edit = Edit(start: nat, end: nat, repl: string)

  // ---------------------------------------------------------------- sequential application

  /** Python's src[:k] and src[k:]: bounds past the end are clipped. */
  function Take(s: string, k: nat): string { if k <= |s| then s[..k] else s }
  function Drop(s: string, k: nat): string { if k <= |s| then s[k..] else "" }

  function Splice(src: string, e: Edit): string { Take(src, e.start) + e.repl + Drop(src, e.end) }

  /** The first n edits of the list, one after the other. */
  function SpliceFirst(src: string, es: seq<Edit>, n: nat): (r: string)
    requires n <= |es|
  {
    if n == 0 then src else Splice(SpliceFirst(src, es, n - 1), es[n - 1])
  }

  function SpliceAll(src: string, es: seq<Edit>): (r: string) { SpliceFirst(src, es, |es|) }

  /** Put e in front of every edit that starts no later. */
  function Insert(e: Edit, es: seq<Edit>): (r: seq<Edit>)
    decreases |es|
  {
    if es == [] || es[0].start <= e.start then [e] + es else [es[0]] + Insert(e, es[1..])
  }

  /** Python's sorted(es, key=start, reverse=True): descending, equal starts keep their order. */
  function SortDescending(es: seq<Edit>): (r: seq<Edit>)
    decreases |es|
  {
    if es == [] then [] else Insert(es[0], SortDescending(es[1..]))
  }

  method ApplyEdits(src: string, edits: seq<Edit>) returns (r: string)
    ensures r == SpliceAll(src, SortDescending(edits))
    ensures Compatible(edits) && InBounds(edits, |src|) ==> r == Substituted(src, edits, 0)
  {
    var sorted := SortDescending(edits);
    r := src;
    for k := 0 to |sorted|
      invariant r == SpliceFirst(src, sorted, k)
    {
      r := Splice(r, sorted[k]);
    }
    if Compatible(edits) && InBounds(edits, |src|) { SequentialIsSimultaneous(src, edits); }
  }

  // ---------------------------------------------------------------- simultaneous substitution

  predicate Covers(e: Edit, p: nat) { e.start <= p < e.end }

  predicate Covered(es: seq<Edit>, p: nat) { exists i {:trigger Covers(es[i], p)} :: 0 <= i < |es| && Covers(es[i], p) }

  /** What the first n edits put at p; of several, the one listed last comes first. */
  function PlacedBy(es: seq<Edit>, n: nat, p: nat): (r: string)
    requires n <= |es|
  {
    if n == 0 then "" else (if es[n - 1].start == p then es[n - 1].repl else "") + PlacedBy(es, n - 1, p)
  }

  function Placed(es: seq<Edit>, p: nat): (r: string) { PlacedBy(es, |es|, p) }

  /** The text at p: what is placed there, then the character itself unless an edit hides it. */
  function Here(src: string, es: seq<Edit>, p: nat): (r: string)
  {
    Placed(es, p) + if p < |src| && !Covered(es, p) then [src[p]] else ""
  }

  function Substituted(src: string, es: seq<Edit>, p: nat): (r: string)
    requires p <= |src|
    decreases |src| - p
  {
    if p == |src| then Here(src, es, p) else Here(src, es, p) + Substituted(src, es, p + 1)
  }

  predicate InBounds(es: seq<Edit>, n: nat) { forall i :: 0 <= i < |es| ==> es[i].start <= es[i].end <= n }

  /** y, listed after x: the ranges are disjoint, and if both start together y is a pure
      insertion. */
  predicate Goes(x: Edit, y: Edit)
  {
    (x.end <= y.start || y.end <= x.start) && (x.start == y.start ==> y.start == y.end)
  }

  predicate Compatible(es: seq<Edit>) { forall i, j :: 0 <= i < j < |es| ==> Goes(es[i], es[j]) }

  // ---------------------------------------------------------------- the reference ignores the sort

  lemma {:induction false} PlacedPrefix(a: seq<Edit>, b: seq<Edit>, n: nat, p: nat)
    requires n <= |a| && n <= |b| && forall i :: 0 <= i < n ==> a[i] == b[i]
    ensures PlacedBy(a, n, p) == PlacedBy(b, n, p)
  {
    if n > 0 { PlacedPrefix(a, b, n - 1, p); }
  }

  /** Put one edit in front: its text comes last. */
  lemma {:induction false} PlacedCons(e: Edit, es: seq<Edit>, n: nat, p: nat)
    requires n <= |es|
    ensures PlacedBy([e] + es, n + 1, p) == PlacedBy(es, n, p) + (if e.start == p then e.repl else "")
  {
    var z := if e.start == p then e.repl else "";
    if n == 0 {
      EmptyPrefix(z);
      assert PlacedBy([e] + es, 0, p) == "";
    } else {
      PlacedCons(e, es, n - 1, p);
      assert ([e] + es)[n] == es[n - 1];
      Assoc(if es[n - 1].start == p then es[n - 1].repl else "", PlacedBy(es, n - 1, p), z);
    }
  }

  lemma PlacedFirst(es: seq<Edit>, p: nat)
    requires es != []
    ensures Placed(es, p) == Placed(es[1..], p) + (if es[0].start == p then es[0].repl else "")
  {
    PlacedCons(es[0], es[1..], |es| - 1, p);
    assert [es[0]] + es[1..] == es;
  }

  predicate Descending(es: seq<Edit>) { forall i, j :: 0 <= i < j < |es| ==> es[j].start <= es[i].start }

  lemma TailFacts(es: seq<Edit>)
    requires es != []
    ensures es == [es[0]] + es[1..] && (forall x :: x in es <==> x == es[0] || x in es[1..])
    ensures Descending(es) ==> Descending(es[1..])
    ensures Compatible(es) ==> Compatible(es[1..]) && forall x :: x in es[1..] ==> Goes(es[0], x)
  {}

  lemma ConsFacts(a: Edit, r: seq<Edit>)
    ensures ([a] + r)[1..] == r && forall x :: x in [a] + r <==> x == a || x in r
    ensures Descending(r) && (forall x :: x in r ==> x.start <= a.start) ==> Descending([a] + r)
    ensures Compatible(r) && (forall x :: x in r ==> Goes(a, x)) ==> Compatible([a] + r)
  {}

  lemma {:induction false} InsertFacts(e: Edit, es: seq<Edit>)
    ensures forall x :: x in Insert(e, es) <==> x == e || x in es
    ensures Descending(es) ==> Descending(Insert(e, es))
    decreases |es|
  {
    if es == [] || es[0].start <= e.start {
      ConsFacts(e, es);
    } else {
      TailFacts(es);
      InsertFacts(e, es[1..]);
      ConsFacts(es[0], Insert(e, es[1..]));
    }
  }

  lemma {:induction false} InsertCompatible(e: Edit, es: seq<Edit>)
    requires Compatible(es) && forall x :: x in es ==> Goes(e, x)
    ensures Compatible(Insert(e, es))
    decreases |es|
  {
    if es == [] || es[0].start <= e.start {
      ConsFacts(e, es);
    } else {
      TailFacts(es);
      InsertCompatible(e, es[1..]);
      InsertFacts(e, es[1..]);
      assert Goes(e, es[0]) && Goes(es[0], e);
      ConsFacts(es[0], Insert(e, es[1..]));
    }
  }

  lemma {:induction false} InsertPlaced(e: Edit, es: seq<Edit>, p: nat)
    requires Descending(es)
    ensures Placed(Insert(e, es), p) == Placed(es, p) + (if e.start == p then e.repl else "")
    decreases |es|
  {
    if es == [] || es[0].start <= e.start {
      PlacedCons(e, es, |es|, p);
    } else {
      var rest := Insert(e, es[1..]);
      InsertPlaced(e, es[1..], p);
      PlacedCons(es[0], rest, |rest|, p);
      PlacedFirst(es, p);
      EmptyPrefix(Placed(es[1..], p));
      EmptyPrefix(Placed(rest, p));
      EmptyPrefix(Placed(es, p));
    }
  }

  lemma {:induction false} SortFacts(es: seq<Edit>)
    ensures forall x :: x in SortDescending(es) <==> x in es
    ensures Descending(SortDescending(es))
    ensures Compatible(es) ==> Compatible(SortDescending(es))
    decreases |es|
  {
    if es != [] {
      TailFacts(es);
      SortFacts(es[1..]);
      InsertFacts(es[0], SortDescending(es[1..]));
      if Compatible(es) { InsertCompatible(es[0], SortDescending(es[1..])); }
    }
  }

  lemma {:induction false} SortPlaced(es: seq<Edit>, p: nat)
    ensures Placed(SortDescending(es), p) == Placed(es, p)
    decreases |es|
  {
    if es != [] {
      SortPlaced(es[1..], p);
      SortFacts(es[1..]);
      InsertPlaced(es[0], SortDescending(es[1..]), p);
      PlacedFirst(es, p);
    }
  }

  lemma CoveredByMembers(a: seq<Edit>, b: seq<Edit>, p: nat)
    requires (forall x :: x in a ==> x in b) && Covered(a, p)
    ensures Covered(b, p)
  {
    var i :| 0 <= i < |a| && Covers(a[i], p);
    assert a[i] in b;
    var j :| 0 <= j < |b| && b[j] == a[i];
  }

  /** Two lists that place and cover alike from p on substitute alike from p on. */
  lemma {:induction false} SubstitutedAgree(src: string, a: seq<Edit>, b: seq<Edit>, p: nat)
    requires p <= |src|
    requires forall q :: p <= q <= |src| ==> Placed(a, q) == Placed(b, q) && Covered(a, q) == Covered(b, q)
    ensures Substituted(src, a, p) == Substituted(src, b, p)
    decreases |src| - p
  {
    if p < |src| { SubstitutedAgree(src, a, b, p + 1); }
  }

  // ---------------------------------------------------------------- sequential = simultaneous

  lemma {:induction false} NothingPlaced(es: seq<Edit>, n: nat, p: nat)
    requires n <= |es| && forall i :: 0 <= i < n ==> es[i].start != p
    ensures PlacedBy(es, n, p) == ""
  {
    if n > 0 { NothingPlaced(es, n - 1, p); }
  }

  lemma HereUntouched(src: string, es: seq<Edit>, p: nat)
    requires p < |src| && forall i :: 0 <= i < |es| ==> p < es[i].start
    ensures Here(src, es, p) == [src[p]]
  {
    NothingPlaced(es, |es|, p);
    assert !Covered(es, p);
    assert "" + [src[p]] == [src[p]];
  }

  lemma HereRemoved(src: string, es: seq<Edit>, k: nat, p: nat)
    requires p < |src| && k < |es| && Covers(es[k], p) && forall i :: 0 <= i < |es| ==> es[i].start != p
    ensures Here(src, es, p) == ""
  {
    NothingPlaced(es, |es|, p);
  }

  /** Text no edit touches is copied. */
  lemma {:induction false} Untouched(src: string, es: seq<Edit>, p: nat, q: nat)
    requires p <= q <= |src| && forall i :: 0 <= i < |es| ==> q <= es[i].start
    ensures Substituted(src, es, p) == src[p..q] + Substituted(src, es, q)
    decreases q - p
  {
    var r := Substituted(src, es, q);
    if p < q {
      HereUntouched(src, es, p);
      Untouched(src, es, p + 1, q);
      assert src[p..q] == [src[p]] + src[p + 1..q];
      assert [src[p]] + (src[p + 1..q] + r) == ([src[p]] + src[p + 1..q]) + r;
    } else {
      assert src[p..q] + r == r;
    }
  }

  predicate NoneStarts(es: seq<Edit>, p: nat, q: nat)
  {
    forall i :: 0 <= i < |es| ==> es[i].start < p || q <= es[i].start
  }

  /** A stretch hidden by edit k, in which no edit starts, vanishes. */
  lemma {:induction false} Removed(src: string, es: seq<Edit>, k: nat, p: nat, q: nat)
    requires p <= q <= |src| && k < |es| && es[k].start <= p && q <= es[k].end && NoneStarts(es, p, q)
    ensures Substituted(src, es, p) == Substituted(src, es, q)
    decreases q - p
  {
    if p < q {
      HereRemoved(src, es, k, p);
      Removed(src, es, k, p + 1, q);
      var r := Substituted(src, es, p + 1);
      assert "" + r == r;
    }
  }

  lemma {:induction false} SpliceIsSubstituted(src: string, es: seq<Edit>)
    requires Descending(es) && Compatible(es) && InBounds(es, |src|)
    ensures SpliceAll(src, es) == Substituted(src, es, 0)
    decreases |es|
  {
    if es == [] {
      Untouched(src, es, 0, |src|);
      assert src[0..|src|] == src && Substituted(src, es, |src|) == "";
    } else {
      var init, e := es[..|es| - 1], es[|es| - 1];
      InitFacts(src, es);
      SpliceIsSubstituted(src, init);
      SplicePrefix(src, init, es, |init|);
      AddLowest(src, init, e);
    }
  }

  lemma InitFacts(src: string, es: seq<Edit>)
    requires es != [] && Descending(es) && Compatible(es) && InBounds(es, |src|)
    ensures var init, e := es[..|es| - 1], es[|es| - 1];
      && es == init + [e] && Descending(init) && Compatible(init) && InBounds(init, |src|)
      && e.start <= e.end <= |src| && forall i :: 0 <= i < |init| ==> e.end <= init[i].start
  {
    LowestLast(es);
  }

  lemma {:induction false} SplicePrefix(src: string, a: seq<Edit>, b: seq<Edit>, n: nat)
    requires n <= |a| && n <= |b| && forall i :: 0 <= i < n ==> a[i] == b[i]
    ensures SpliceFirst(src, a, n) == SpliceFirst(src, b, n)
  {
    if n > 0 { SplicePrefix(src, a, b, n - 1); }
  }

  /** In descending order every earlier edit lies at or after the end of the last one. */
  lemma LowestLast(es: seq<Edit>)
    requires es != [] && Descending(es) && Compatible(es) && forall i :: 0 <= i < |es| ==> es[i].start <= es[i].end
    ensures forall i :: 0 <= i < |es| - 1 ==> es[|es| - 1].end <= es[i].start
  {
    var n := |es| - 1;
    forall i | 0 <= i < n ensures es[n].end <= es[i].start {
      assert Goes(es[i], es[n]) && es[n].start <= es[i].start <= es[i].end;
    }
  }

  /** Splicing one more edit below all the others. */
  lemma AddLowest(src: string, init: seq<Edit>, e: Edit)
    requires e.start <= e.end <= |src|
    requires forall i :: 0 <= i < |init| ==> e.end <= init[i].start
    ensures Splice(Substituted(src, init, 0), e) == Substituted(src, init + [e], 0)
  {
    Untouched(src, init, 0, e.end);
    var tail := Substituted(src, init, e.end);
    var s := src[..e.end] + tail;
    assert src[0..e.end] == src[..e.end];
    assert s[..e.start] == src[..e.start] && s[e.end..] == tail;
    var es := init + [e];
    forall i | 0 <= i < |es| ensures e.start <= es[i].start { if i < |init| { assert es[i] == init[i]; } }
    Untouched(src, es, 0, e.start);
    assert src[0..e.start] == src[..e.start];
    LastPlaced(src, init, e);
  }

  lemma LastCovered(init: seq<Edit>, e: Edit, q: nat)
    ensures Covered(init + [e], q) == (Covered(init, q) || Covers(e, q))
  {
    var es := init + [e];
    if Covered(init, q) {
      var i :| 0 <= i < |init| && Covers(init[i], q);
      assert Covers(es[i], q);
    }
    if Covers(e, q) { assert Covers(es[|init|], q); }
  }

  lemma LastPlacedAt(init: seq<Edit>, e: Edit, q: nat)
    ensures Placed(init + [e], q) == (if e.start == q then e.repl else "") + Placed(init, q)
  {
    PlacedPrefix(init + [e], init, |init|, q);
  }

  /** From its start on, the lowest edit contributes its text and hides its range. */
  lemma LastPlaced(src: string, init: seq<Edit>, e: Edit)
    requires e.start <= e.end <= |src|
    requires forall i :: 0 <= i < |init| ==> e.end <= init[i].start
    ensures Substituted(src, init + [e], e.start) == e.repl + Substituted(src, init, e.end)
  {
    if e.start == e.end {
      InsertionPlaced(src, init, e);
    } else {
      HereOfDeletion(src, init, e);
      NoneStartsInside(init, e);
      DeletionPlaced(src, init, e, init + [e]);
    }
  }

  lemma InsertionPlaced(src: string, init: seq<Edit>, e: Edit)
    requires e.start == e.end <= |src|
    ensures Substituted(src, init + [e], e.start) == e.repl + Substituted(src, init, e.end)
  {
    var es, p := init + [e], e.start;
    LastPlacedAt(init, e, p);
    LastCovered(init, e, p);
    var a, k := Placed(init, p), if p < |src| && !Covered(init, p) then [src[p]] else "";
    Assoc(e.repl, a, k);
    assert Here(src, es, p) == (e.repl + a) + k && Here(src, init, p) == a + k;
    if p < |src| {
      RestAgrees(src, init, e, p + 1);
      var r := Substituted(src, init, p + 1);
      Assoc(e.repl, a + k, r);
    }
  }

  lemma HereOfDeletion(src: string, init: seq<Edit>, e: Edit)
    requires e.start < e.end && forall i :: 0 <= i < |init| ==> e.end <= init[i].start
    ensures Here(src, init + [e], e.start) == e.repl
  {
    LastPlacedAt(init, e, e.start);
    LastCovered(init, e, e.start);
    NothingPlaced(init, |init|, e.start);
    EmptyPrefix(e.repl);
  }

  lemma DeletionPlaced(src: string, init: seq<Edit>, e: Edit, es: seq<Edit>)
    requires e.start < e.end <= |src| && es == init + [e] && es[|init|] == e
    requires Here(src, es, e.start) == e.repl && NoneStarts(es, e.start + 1, e.end)
    ensures Substituted(src, es, e.start) == e.repl + Substituted(src, init, e.end)
  {
    var rest := Substituted(src, es, e.end);
    assert rest == Substituted(src, init, e.end) by { RestAgrees(src, init, e, e.end); }
    assert Substituted(src, es, e.start + 1) == rest by { Removed(src, es, |init|, e.start + 1, e.end); }
    Unfolded(src, es, e.start);
  }

  lemma Unfolded(src: string, es: seq<Edit>, p: nat)
    requires p < |src|
    ensures Substituted(src, es, p) == Here(src, es, p) + Substituted(src, es, p + 1)
  {}

  lemma NoneStartsInside(init: seq<Edit>, e: Edit)
    requires forall i :: 0 <= i < |init| ==> e.end <= init[i].start
    ensures NoneStarts(init + [e], e.start + 1, e.end)
  {}

  lemma RestAgrees(src: string, init: seq<Edit>, e: Edit, p: nat)
    requires e.start < p && e.end <= p <= |src|
    ensures Substituted(src, init + [e], p) == Substituted(src, init, p)
  {
    forall q | p <= q <= |src| ensures Placed(init + [e], q) == Placed(init, q) && Covered(init + [e], q) == Covered(init, q) {
      LastPlacedAt(init, e, q);
      LastCovered(init, e, q);
    }
    SubstitutedAgree(src, init + [e], init, p);
  }

  lemma SequentialIsSimultaneous(src: string, edits: seq<Edit>)
    requires Compatible(edits) && InBounds(edits, |src|)
    ensures SpliceAll(src, SortDescending(edits)) == Substituted(src, edits, 0)
  {
    var sorted := SortDescending(edits);
    SortFacts(edits);
    forall i | 0 <= i < |sorted| ensures sorted[i].start <= sorted[i].end <= |src| {
      assert sorted[i] in edits;
      var j :| 0 <= j < |edits| && edits[j] == sorted[i];
    }
    SpliceIsSubstituted(src, sorted);
    forall q | 0 <= q <= |src| ensures Placed(sorted, q) == Placed(edits, q) && Covered(sorted, q) == Covered(edits, q) {
      SortPlaced(edits, q);
      if Covered(sorted, q) { CoveredByMembers(sorted, edits, q); }
      if Covered(edits, q) { CoveredByMembers(edits, sorted, q); }
    }
    SubstitutedAgree(src, sorted, edits, 0);
  }

  // ---------------------------------------------------------------- the patched text

  /** Where the text before the first n edits of a descending list ends. */
  function Bound(src: string, ds: seq<Edit>, n: nat): (k: nat)
    requires n <= |ds|
  {
    if n == 0 then |src| else ds[n - 1].start
  }

  /** No edit reaches into the one before it in the list, and the first not past the end. */
  predicate Downwards(src: string, ds: seq<Edit>)
  {
    forall k :: 0 <= k < |ds| ==> ds[k].start <= ds[k].end <= Bound(src, ds, k)
  }

  /** The patched text from the n-th edit of a descending list on: replacements and the text between
      them in turn. */
  function Woven(src: string, ds: seq<Edit>, n: nat): (r: string)
    requires Downwards(src, ds) && n <= |ds|
  {
    if n == 0 then "" else
    BoundInText(src, ds, n - 1);
    ds[n - 1].repl + (src[ds[n - 1].end..Bound(src, ds, n - 1)] + Woven(src, ds, n - 1))
  }

  lemma {:induction false} BoundInText(src: string, ds: seq<Edit>, n: nat)
    requires Downwards(src, ds) && n <= |ds|
    ensures Bound(src, ds, n) <= |src|
  {
    if n > 0 { BoundInText(src, ds, n - 1); }
  }

  function Patched(src: string, ds: seq<Edit>): (r: string)
    requires Downwards(src, ds)
  {
    BoundInText(src, ds, |ds|);
    src[..Bound(src, ds, |ds|)] + Woven(src, ds, |ds|)
  }

  lemma {:induction false} SpliceFirstIsWoven(src: string, ds: seq<Edit>, n: nat)
    requires Downwards(src, ds) && n <= |ds|
    ensures Bound(src, ds, n) <= |src| && SpliceFirst(src, ds, n) == src[..Bound(src, ds, n)] + Woven(src, ds, n)
  {
    if n == 0 {
      EmptyPrefix(src);
    } else {
      SpliceFirstIsWoven(src, ds, n - 1);
      var e, b, w := ds[n - 1], Bound(src, ds, n - 1), Woven(src, ds, n - 1);
      SpliceBelow(src, e, b, w);
    }
  }

  lemma SpliceBelow(src: string, e: Edit, b: nat, w: string)
    requires e.start <= e.end <= b <= |src|
    ensures Splice(src[..b] + w, e) == src[..e.start] + (e.repl + (src[e.end..b] + w))
  {
    var s := src[..b] + w;
    assert s[..e.start] == src[..e.start];
    assert s[e.end..] == src[e.end..b] + w;
  }

  /** The text of a patched file: what stands before the first edit, then replacements and kept text
      in turn. */
  lemma SplicesArePatched(src: string, edits: seq<Edit>)
    requires Compatible(edits) && InBounds(edits, |src|)
    ensures Downwards(src, SortDescending(edits))
    ensures SpliceAll(src, SortDescending(edits)) == Patched(src, SortDescending(edits))
  {
    var ds := SortDescending(edits);
    SortFacts(edits);
    forall k | 0 <= k < |ds| ensures ds[k].start <= ds[k].end <= Bound(src, ds, k) {
      assert ds[k] in edits;
      var j :| 0 <= j < |edits| && edits[j] == ds[k];
      if k > 0 {
        assert ds[k - 1] in edits;
        var i :| 0 <= i < |edits| && edits[i] == ds[k - 1];
        assert Goes(ds[k - 1], ds[k]);
      }
    }
    SpliceFirstIsWoven(src, ds, |ds|);
  }

  lemma TwoSplices(src: string, a: Edit, b: Edit)
    requires b.start <= a.start
    ensures SpliceAll(src, SortDescending([a, b])) == Splice(Splice(src, a), b)
  {
    assert [a, b][1..] == [b] && [b][1..] == [];
    assert SortDescending([b]) == [b] && SortDescending([a, b]) == [a] + [b] == [a, b];
    assert SpliceFirst(src, [a, b], 1) == Splice(src, a);
  }

  /** The tie the converters produce needs the deletion listed first.  Listed the other way
      round, a deletion as long as the inserted text removes exactly that text: nothing is
      inserted and nothing deleted. */
  lemma InsertionFirstIsWrong(src: string, p: nat, q: nat, text: string)
    requires p < q <= |src| && |text| == q - p
    ensures SpliceAll(src, SortDescending([Edit(p, q, ""), Edit(p, p, text)])) == src[..p] + text + src[q..]
    ensures SpliceAll(src, SortDescending([Edit(p, p, text), Edit(p, q, "")])) == src
  {
    var ins, del := Edit(p, p, text), Edit(p, q, "");
    TwoSplices(src, del, ins);
    TwoSplices(src, ins, del);
    var a := src[..p] + "" + src[q..];
    assert a[..p] == src[..p] && a[p..] == src[q..];
    var b := src[..p] + text + src[p..];
    assert b[..p] == src[..p] && b[q..] == src[p..];
    assert src[..p] + "" + src[p..] == src;
  }

  // ---------------------------------------------------------------- line and column to offset

  function Newlines(s: string): (n: nat) decreases |s|
  {
    if s == "" then 0 else Newlines(s[..|s| - 1]) + (if s[|s| - 1] == '\n' then 1 else 0)
  }

  /** The parser's 1-based line number of offset p. */
  function LineOf(src: string, p: nat): (n: nat)
    requires p <= |src|
  {
    1 + Newlines(src[..p])
  }

  /** The parser's 0-based column of offset p. */
  function ColOf(src: string, p: nat): (c: nat)
    requires p <= |src|
    ensures c <= p && (c < p ==> src[p - c - 1] == '\n') && '\n' !in src[p - c..p]
    decreases p
  {
    if p == 0 || src[p - 1] == '\n' then 0 else ColOf(src, p - 1) + 1
  }

  lemma {:induction false} NewlinesGrow(src: string, p: nat, q: nat)
    requires p <= q <= |src|
    ensures Newlines(src[..p]) <= Newlines(src[..q])
    ensures '\n' in src[p..q] ==> Newlines(src[..p]) < Newlines(src[..q])
    ensures '\n' !in src[p..q] ==> Newlines(src[..p]) == Newlines(src[..q])
    decreases q
  {
    if p < q {
      assert src[..q][..q - 1] == src[..q - 1];
      NewlinesGrow(src, p, q - 1);
      assert src[p..q] == src[p..q - 1] + [src[q - 1]];
    }
  }

  /** The offset of (lineno, col).  Inverts the parser's line and column for every offset whose
      line holds at least one character. */
  method LineColToOff(src: string, lineno: int, col: nat) returns (r: Option<nat>)
    ensures r.Some? ==> col <= r.value && r.value - col < |src| && LineOf(src, r.value - col) == lineno && ColOf(src, r.value - col) == 0
    ensures r.None? ==> forall p :: 0 <= p < |src| ==> LineOf(src, p) != lineno
    ensures forall p :: 0 <= p <= |src| && LineOf(src, p) == lineno && ColOf(src, p) == col && p - col < |src| ==> r == Some(p)
  {
    var cur := 1;
    for i := 0 to |src|
      invariant cur == LineOf(src, i)
      invariant forall p :: 0 <= p < i ==> LineOf(src, p) != lineno
    {
      if cur == lineno {
        if i > 0 {
          NewlinesGrow(src, i - 1, i);
          assert LineOf(src, i - 1) != lineno;
          assert src[i - 1] == '\n' by { assert src[i - 1..i] == [src[i - 1]]; }
        }
        forall p | 0 <= p <= |src| && LineOf(src, p) == lineno && ColOf(src, p) == col && p - col < |src| ensures p == i + col {
          SameLineStart(src, i, p);
        }
        return Some(i + col);
      }
      assert src[..i + 1][..i] == src[..i];
      if src[i] == '\n' { cur := cur + 1; }
    }
    forall p | 0 <= p <= |src| && p - ColOf(src, p) < |src| ensures LineOf(src, p) != lineno {
      NewlinesGrow(src, p - ColOf(src, p), p);
      assert LineOf(src, p - ColOf(src, p)) != lineno;
    }
    return None;
  }

  lemma SameLineStart(src: string, i: nat, p: nat)
    requires i <= p <= |src| || p < i <= |src|
    requires LineOf(src, p) == LineOf(src, i) && ColOf(src, i) == 0
    requires forall q :: 0 <= q < i ==> LineOf(src, q) != LineOf(src, i)
    ensures p - ColOf(src, p) == i
  {
    var start := p - ColOf(src, p);
    NewlinesGrow(src, start, p);
    assert LineOf(src, start) == LineOf(src, i);
    assert i <= start;
    if i < start {
      assert '\n' in src[i..start] by { assert src[i..start][start - 1 - i] == src[start - 1]; }
      NewlinesGrow(src, i, start);
    }
  }
}
