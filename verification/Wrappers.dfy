/** Optional values and a search for one string inside another, shared by the other modules. */
module Wrappers {

  datatype Option<+T> = None | Some(value: T)

  /** `pat` stands in `text` at offset `p`. */
  predicate OccursAt<T(==)>(pat: seq<T>, text: seq<T>, p: int)
  {
    0 <= p && p + |pat| <= |text| && text[p..p + |pat|] == pat
  }

  /** Python's `pat in text` on strings. */
  predicate Contains<T(==)>(pat: seq<T>, text: seq<T>)
  {
    exists p {:trigger OccursAt(pat, text, p)} :: 0 <= p <= |text| && OccursAt(pat, text, p)
  }

  /** Python's `text.startswith(pre)`. */
  predicate StartsWith<T(==)>(text: seq<T>, pre: seq<T>)
  {
    |pre| <= |text| && text[..|pre|] == pre
  }

  /** Python's `text.endswith(suf)`. */
  predicate EndsWith<T(==)>(text: seq<T>, suf: seq<T>)
  {
    |suf| <= |text| && text[|text| - |suf|..] == suf
  }

  /** What Python's strip and split take for white space. */
  predicate IsWhite(c: char)
  {
    var n := c as int;
    || 0x09 <= n <= 0x0d || 0x1c <= n <= 0x20 || n == 0x85 || n == 0xa0 || n == 0x1680 || 0x2000 <= n <= 0x200a
    || n == 0x2028 || n == 0x2029 || n == 0x202f || n == 0x205f || n == 0x3000
  }

  predicate AllWhite(s: string) { forall i :: 0 <= i < |s| ==> IsWhite(s[i]) }

  function StripLeft(s: string): (r: string)
    decreases |s|
  {
    if s != "" && IsWhite(s[0]) then StripLeft(s[1..]) else s
  }

  function StripRight(s: string): (r: string)
    decreases |s|
  {
    if s != "" && IsWhite(s[|s| - 1]) then StripRight(s[..|s| - 1]) else s
  }

  /** Python's `s.strip()`. */
  function Stripped(s: string): (r: string) { StripRight(StripLeft(s)) }

  function Digit(n: nat): (c: char)
    requires n < 10
  {
    n as char + '0'
  }

  predicate IsDigit(c: char) { '0' <= c <= '9' }

  /** Python's "%d" % n. */
  function Decimal(n: nat): (s: string)
    ensures s != "" && forall i :: 0 <= i < |s| ==> IsDigit(s[i])
    decreases n
  {
    if n < 10 then [Digit(n)] else Decimal(n / 10) + [Digit(n % 10)]
  }

  /** Python's int(s) on digits. */
  function NatOf(s: string): (n: nat)
    requires forall i :: 0 <= i < |s| ==> IsDigit(s[i])
    decreases |s|
  {
    if s == "" then 0 else
    assert IsDigit(s[|s| - 1]);
    NatOf(s[..|s| - 1]) * 10 + (s[|s| - 1] as int - '0' as int)
  }

  lemma {:induction false} NatOfDecimal(n: nat)
    ensures NatOf(Decimal(n)) == n
    decreases n
  {
    var s := Decimal(n);
    if n < 10 {
      assert s[..|s| - 1] == "";
    } else {
      assert s[..|s| - 1] == Decimal(n / 10);
      NatOfDecimal(n / 10);
    }
  }

  lemma Assoc<T>(a: seq<T>, b: seq<T>, c: seq<T>)
    ensures a + b + c == a + (b + c)
  {}

  lemma EmptyPrefix<T>(s: seq<T>)
    ensures [] + s == s && s + [] == s
  {}

  lemma InitLast<T>(s: seq<T>)
    requires s != []
    ensures s == s[..|s| - 1] + [s[|s| - 1]]
  {}

  lemma InitOfSnoc<T>(a: seq<T>, x: T)
    ensures |a + [x]| == |a| + 1 && (a + [x])[..|a|] == a && (a + [x])[|a|] == x
  {}

  lemma TakeMore<T>(s: seq<T>, n: nat)
    requires n < |s|
    ensures s[..n + 1] == s[..n] + [s[n]]
  {}

  lemma TakeAll<T>(s: seq<T>)
    ensures s[..|s|] == s && s[..0] == []
  {}

  lemma {:induction false} StripLeftBlank(a: string, x: string)
    requires AllWhite(a) && x != "" && !IsWhite(x[0])
    ensures StripLeft(a + x) == x
    decreases |a|
  {
    if a == "" {
      EmptyPrefix(x);
    } else {
      assert (a + x)[0] == a[0] && (a + x)[1..] == a[1..] + x;
      StripLeftBlank(a[1..], x);
    }
  }

  lemma {:induction false} StripRightBlank(x: string, b: string)
    requires AllWhite(b) && x != "" && !IsWhite(x[|x| - 1])
    ensures StripRight(x + b) == x
    decreases |b|
  {
    if b == "" {
      EmptyPrefix(x);
    } else {
      assert (x + b)[..|x + b| - 1] == x + b[..|b| - 1];
      StripRightBlank(x, b[..|b| - 1]);
    }
  }

  lemma StripBlank(a: string, x: string, b: string)
    requires AllWhite(a) && AllWhite(b) && x != "" && !IsWhite(x[0]) && !IsWhite(x[|x| - 1])
    ensures Stripped(a + (x + b)) == x
  {
    StripLeftBlank(a, x + b);
    StripRightBlank(x, b);
  }

  lemma ContainsWider(pat: string, a: string, text: string, b: string)
    requires Contains(pat, text)
    ensures Contains(pat, a + text + b)
  {
    var p :| 0 <= p <= |text| && OccursAt(pat, text, p);
    var whole := a + text + b;
    assert whole[|a| + p..|a| + p + |pat|] == text[p..p + |pat|];
    assert OccursAt(pat, whole, |a| + p);
  }
}
