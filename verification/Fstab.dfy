/** The lines of /etc/fstab, and how the fold-in takes /home out of them. */
module Fstab {
  import opened Wrappers

  /** A text as Python's splitlines(True) gives it: each line with whatever ends it. */
  type Lines = seq<string>

  /** Python's line.split(): the words between runs of white space. */
  function Fields(line: string): (r: seq<string>)
    decreases |line|
  {
    if line == "" then []
    else if IsWhite(line[0]) then Fields(line[1..])
    else var n := WordEnd(line, 1); [line[..n]] + Fields(line[n..])
  }

  function WordEnd(line: string, i: nat): (n: nat)
    requires i <= |line|
    ensures i <= n <= |line|
    decreases |line| - i
  {
    if i == |line| || IsWhite(line[i]) then i else WordEnd(line, i + 1)
  }

  predicate NoneWhite(w: string) { forall i :: 0 <= i < |w| ==> !IsWhite(w[i]) }

  /** The words of a line: after white space the next one is everything up to white space, and there is none if
      nothing else is left. */
  lemma {:induction false} FieldsExact(a: string, w: string, rest: string)
    requires AllWhite(a) && NoneWhite(w) && (rest == "" || IsWhite(rest[0]))
    ensures Fields(a) == []
    ensures w != "" ==> Fields(a + (w + rest)) == [w] + Fields(rest)
    decreases |a|
  {
    if a == "" {
      EmptyPrefix(w + rest);
      if w != "" {
        WordEnds(w, rest, 1);
        assert (w + rest)[..|w|] == w && (w + rest)[|w|..] == rest;
      }
    } else {
      assert (a + (w + rest))[1..] == a[1..] + (w + rest);
      FieldsExact(a[1..], w, rest);
    }
  }

  lemma {:induction false} WordEnds(w: string, rest: string, i: nat)
    requires NoneWhite(w) && (rest == "" || IsWhite(rest[0])) && i <= |w|
    ensures WordEnd(w + rest, i) == |w|
    decreases |w| - i
  {
    if i < |w| { WordEnds(w, rest, i + 1); }
  }

  /** An entry is written as device, mount point and more, with white space between, and any in front. */
  lemma EntryMounts(a: string, device: string, b: string, point: string, rest: string)
    requires AllWhite(a) && AllWhite(b) && b != "" && NoneWhite(device) && device != "" && NoneWhite(point) && point != ""
    requires rest == "" || IsWhite(rest[0])
    ensures MountsHome(a + (device + (b + (point + rest)))) <==> device[0] != '#' && point == "/home"
  {
    var tail := b + (point + rest);
    FieldsExact(a, device, tail);
    FieldsExact(b, point, rest);
    StripLeftBlank(a, device + tail);
    assert (device + tail)[0] == device[0];
    assert StartsWith(device + tail, "#") <==> device[0] == '#' by { assert (device + tail)[..1] == [device[0]]; }
  }

  predicate IsComment(line: string) { StartsWith(StripLeft(line), "#") }

  /** An active entry that mounts /home. */
  predicate MountsHome(line: string)
  {
    !IsComment(line) && |Fields(line)| > 1 && Fields(line)[1] == "/home"
  }

  predicate HasHome(ls: Lines) { exists i :: 0 <= i < |ls| && MountsHome(ls[i]) }

  function Edited(line: string): (r: string) { if MountsHome(line) then "#" + line else line }

  /** The file with every /home entry commented out. */
  function CommentOut(ls: Lines): (r: Lines)
    ensures |r| == |ls| && forall i :: 0 <= i < |ls| ==> r[i] == Edited(ls[i])
  {
    seq(|ls|, i requires 0 <= i < |ls| => Edited(ls[i]))
  }

  method WithoutHome(ls: Lines) returns (r: Lines)
    ensures r == CommentOut(ls)
  {
    r := [];
    for k := 0 to |ls|
      invariant r == CommentOut(ls)[..k]
    {
      TakeMore(CommentOut(ls), k);
      if !IsComment(ls[k]) && |Fields(ls[k])| > 1 && Fields(ls[k])[1] == "/home" {
        r := r + ["#" + ls[k]];
      } else {
        r := r + [ls[k]];
      }
    }
  }

  lemma HashIsComment(line: string)
    ensures IsComment("#" + line)
  {
    assert ("#" + line)[..1] == "#";
  }

  /** Afterwards nothing mounts /home; the other lines are as they were; and a second edit changes
      nothing, so an fstab that was never restored is not commented out twice. */
  lemma CommentOutFacts(ls: Lines)
    ensures !HasHome(CommentOut(ls))
    ensures CommentOut(CommentOut(ls)) == CommentOut(ls)
    ensures CommentOut(ls) == ls <==> !HasHome(ls)
  {
    forall i | 0 <= i < |ls| ensures !MountsHome(CommentOut(ls)[i]) { HashIsComment(ls[i]); }
    if HasHome(ls) {
      var i :| 0 <= i < |ls| && MountsHome(ls[i]);
      assert CommentOut(ls)[i] != ls[i];
    }
  }
}
