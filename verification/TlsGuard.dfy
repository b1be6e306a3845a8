/**
 The rate limiter of the TLS guard's log: at most one line per address and minute, with a count of
 the drops that were not logged, in a table of bounded size.
 */
module TlsGuard {
  import opened Wrappers

  type Time = real

  const WINDOW: Time := 60.0
  const MAX_TRACKED: nat := 1024

  /** When the address was last logged, and how often it was not since. */
  datatype Entry = Entry(start: Time, suppressed: nat)

  type Table = map<string, Entry>

  /** suppressed: the count that goes with the line. */
  datatype Answer = Answer(log: bool, suppressed: nat)

  predicate Quiet(t: Table, a: string, now: Time) { a in t && now - t[a].start < WINDOW }

  function Pending(t: Table, a: string): (n: nat) { if a in t then t[a].suppressed else 0 }

  /** The drop empties the table first. */
  predicate Clears(t: Table, a: string) { a !in t && |t| >= MAX_TRACKED }

  function After(t: Table, a: string, now: Time): (r: Table)
  {
    if Quiet(t, a, now) then t[a := Entry(t[a].start, t[a].suppressed + 1)]
    else (if Clears(t, a) then map[] else t)[a := Entry(now, 0)]
  }

  function Says(t: Table, a: string, now: Time): (r: Answer)
  {
    if Quiet(t, a, now) then Answer(false, 0) else Answer(true, Pending(t, a))
  }

  class Limiter {
    var seen: Table

    constructor ()
      ensures seen == map[]
    {
      seen := map[];
    }

    /** `_should_log`. */
    method ShouldLog(a: string, now: Time) returns (r: Answer)
      modifies this
      ensures seen == After(old(seen), a, now) && r == Says(old(seen), a, now)
      ensures |old(seen)| <= MAX_TRACKED ==> |seen| <= MAX_TRACKED
    {
      SizeKept(seen, a, now);
      if a in seen && now - seen[a].start < WINDOW {
        seen := seen[a := seen[a].(suppressed := seen[a].suppressed + 1)];
        return Answer(false, 0);
      }
      var suppressed := if a in seen then seen[a].suppressed else 0;
      if a !in seen && |seen| >= MAX_TRACKED { seen := map[]; }
      seen := seen[a := Entry(now, 0)];
      return Answer(true, suppressed);
    }
  }

  lemma SizeKept(t: Table, a: string, now: Time)
    ensures |t| <= MAX_TRACKED ==> |After(t, a, now)| <= MAX_TRACKED
  {
    var base := if Clears(t, a) then map[] else t;
    assert (base[a := Entry(now, 0)]).Keys == base.Keys + {a};
    if a in t {
      assert t.Keys + {a} == t.Keys;
      assert After(t, a, now).Keys == t.Keys;
    }
  }

  // ---------------------------------------------------------------- runs

  datatype Drop = Drop(a: string, now: Time)

  predicate StepAt(tr: seq<Table>, ds: seq<Drop>, i: nat)
    requires |tr| == |ds| + 1
  {
    i < |ds| ==> tr[i + 1] == After(tr[i], ds[i].a, ds[i].now)
  }

  /** tr: the table before each drop and after the last. */
  ghost predicate Run(tr: seq<Table>, ds: seq<Drop>)
  {
    |tr| == |ds| + 1 && tr[0] == map[] && forall i: nat :: StepAt(tr, ds, i)
  }

  predicate Logged(tr: seq<Table>, ds: seq<Drop>, i: nat, a: string)
    requires |tr| == |ds| + 1 && i < |ds|
  {
    ds[i].a == a && Says(tr[i], a, ds[i].now).log
  }

  lemma {:induction false} TableBounded(tr: seq<Table>, ds: seq<Drop>, i: nat)
    requires Run(tr, ds) && i < |tr|
    ensures |tr[i]| <= MAX_TRACKED
  {
    if i > 0 {
      TableBounded(tr, ds, i - 1);
      assert StepAt(tr, ds, i - 1);
      SizeKept(tr[i - 1], ds[i - 1].a, ds[i - 1].now);
    }
  }

  /** Address a was logged at time s and neither logged nor forgotten since. */
  lemma {:induction false} Remembered(tr: seq<Table>, ds: seq<Drop>, i: nat, j: nat, a: string)
    requires Run(tr, ds) && i < j < |tr| && Logged(tr, ds, i, a)
    requires forall k :: i < k < j ==> !Clears(tr[k], ds[k].a) && !Logged(tr, ds, k, a)
    ensures a in tr[j] && tr[j][a].start == ds[i].now
    decreases j
  {
    assert StepAt(tr, ds, j - 1);
    if i < j - 1 { Remembered(tr, ds, i, j - 1, a); }
  }

  /** Between two clearings of the table two consecutive lines for one address are at least a
      window apart. */
  lemma LinesApart(tr: seq<Table>, ds: seq<Drop>, i: nat, j: nat, a: string)
    requires Run(tr, ds) && i < j < |ds| && Logged(tr, ds, i, a) && Logged(tr, ds, j, a)
    requires forall k :: i < k < j ==> !Clears(tr[k], ds[k].a) && !Logged(tr, ds, k, a)
    ensures ds[j].now - ds[i].now >= WINDOW
  {
    Remembered(tr, ds, i, j, a);
  }

  /** A line for a at i that is not forgotten, and the last before j. */
  ghost predicate LastLine(tr: seq<Table>, ds: seq<Drop>, i: nat, j: nat, a: string)
    requires |tr| == |ds| + 1 && i < j <= |ds|
  {
    Logged(tr, ds, i, a) && forall k :: i < k < j ==> !Clears(tr[k], ds[k].a) && !Logged(tr, ds, k, a)
  }

  lemma {:induction false} TrackedHasLine(tr: seq<Table>, ds: seq<Drop>, j: nat, a: string) returns (i: nat)
    requires Run(tr, ds) && j <= |ds| && a in tr[j]
    ensures i < j && LastLine(tr, ds, i, j, a) && tr[j][a].start == ds[i].now
  {
    assert StepAt(tr, ds, j - 1);
    if Logged(tr, ds, j - 1, a) {
      i := j - 1;
    } else {
      i := TrackedHasLine(tr, ds, j - 1, a);
      Remembered(tr, ds, i, j, a);
    }
  }

  /** A drop is logged exactly unless a line for its address, not forgotten since, is younger than the
      window: the first drop of an address and the first after each window always show. */
  lemma LoggedExactly(tr: seq<Table>, ds: seq<Drop>, j: nat, a: string)
    requires Run(tr, ds) && j < |ds| && ds[j].a == a
    ensures Logged(tr, ds, j, a) <==> !exists i :: 0 <= i < j && LastLine(tr, ds, i, j, a) && ds[j].now - ds[i].now < WINDOW
  {
    if !Logged(tr, ds, j, a) {
      var i := TrackedHasLine(tr, ds, j, a);
    }
    forall i | 0 <= i < j && LastLine(tr, ds, i, j, a) ensures a in tr[j] && tr[j][a].start == ds[i].now {
      Remembered(tr, ds, i, j, a);
    }
  }

  /** Drops of address a among the first n, the lines written for it, and the counts those lines
      carried. */
  function Drops(ds: seq<Drop>, n: nat, a: string): (r: nat)
    requires n <= |ds|
  {
    if n == 0 then 0 else Drops(ds, n - 1, a) + if ds[n - 1].a == a then 1 else 0
  }

  function Lines(tr: seq<Table>, ds: seq<Drop>, n: nat, a: string): (r: nat)
    requires |tr| == |ds| + 1 && n <= |ds|
  {
    if n == 0 then 0 else Lines(tr, ds, n - 1, a) + if Logged(tr, ds, n - 1, a) then 1 else 0
  }

  function Reported(tr: seq<Table>, ds: seq<Drop>, n: nat, a: string): (r: nat)
    requires |tr| == |ds| + 1 && n <= |ds|
  {
    if n == 0 then 0
    else Reported(tr, ds, n - 1, a) + if Logged(tr, ds, n - 1, a) then Says(tr[n - 1], a, ds[n - 1].now).suppressed else 0
  }

  /** Counts lost because another address cleared the table. */
  function Forgotten(tr: seq<Table>, ds: seq<Drop>, n: nat, a: string): (r: nat)
    requires |tr| == |ds| + 1 && n <= |ds|
  {
    if n == 0 then 0
    else Forgotten(tr, ds, n - 1, a) + if Clears(tr[n - 1], ds[n - 1].a) then Pending(tr[n - 1], a) else 0
  }

  /** Every drop is accounted for: by a line, by the count on a later line, by the count still
      pending, or by a count that was forgotten when the table was cleared. */
  lemma {:induction false} EveryDropCounts(tr: seq<Table>, ds: seq<Drop>, n: nat, a: string)
    requires Run(tr, ds) && n <= |ds|
    ensures Drops(ds, n, a) == Lines(tr, ds, n, a) + Reported(tr, ds, n, a) + Pending(tr[n], a) + Forgotten(tr, ds, n, a)
  {
    if n > 0 {
      EveryDropCounts(tr, ds, n - 1, a);
      assert StepAt(tr, ds, n - 1);
    }
  }
}
