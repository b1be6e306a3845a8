/**
 The string a quoted YAML scalar holds, decoded by successive replacements (YAML 1.2, sections
 7.3.1 and 7.3.2).
 */
module YamlScalar {
  import opened Wrappers

  /** Python's s.replace(pat, to): occurrences from the left, none overlapping. */
  function Replace(s: string, pat: string, to: string): (r: string)
    requires pat != ""
    decreases |s|
  {
    if s == "" then ""
    else if StartsWith(s, pat) then to + Replace(s[|pat|..], pat, to)
    else [s[0]] + Replace(s[1..], pat, to)
  }

  /** `_yaml_scalar_text`. */
  function ScalarText(text: string): (r: string)
  {
    var s := Stripped(text);
    if |s| >= 2 && s[0] == s[|s| - 1] && s[0] in {'"', '\''} then
      var inner := s[1..|s| - 1];
      if s[0] == '"' then Replace(Replace(inner, "\\\"", "\""), "\\\\", "\\") else Replace(inner, "''", "'")
    else s
  }

  // ---------------------------------------------------------------- encoding

  function EscapeOne(c: char): (r: string) { if c == '"' || c == '\\' then ['\\', c] else [c] }

  function EscapeDouble(s: string): (r: string)
    decreases |s|
  {
    if s == "" then "" else EscapeOne(s[0]) + EscapeDouble(s[1..])
  }

  function EscapeSingle(s: string): (r: string)
    decreases |s|
  {
    if s == "" then "" else (if s[0] == '\'' then ['\'', '\''] else [s[0]]) + EscapeSingle(s[1..])
  }

  function DoubleQuoted(s: string): (r: string) { ['"'] + EscapeDouble(s) + ['"'] }

  function SingleQuoted(s: string): (r: string) { ['\''] + EscapeSingle(s) + ['\''] }

  // ---------------------------------------------------------------- decoding inverts encoding

  function HalfOne(c: char): (r: string) { if c == '\\' then ['\\', '\\'] else [c] }

  /** What the first replacement leaves: the quotes bare, the backslashes still doubled. */
  function Halfway(s: string): (r: string)
    decreases |s|
  {
    if s == "" then "" else HalfOne(s[0]) + Halfway(s[1..])
  }

  lemma ReplaceHit(rest: string, pat: string, to: string)
    requires pat != ""
    ensures Replace(pat + rest, pat, to) == to + Replace(rest, pat, to)
  {
    assert (pat + rest)[..|pat|] == pat && (pat + rest)[|pat|..] == rest;
  }

  lemma ReplaceMiss(c: char, rest: string, pat: string, to: string)
    requires pat != "" && !StartsWith([c] + rest, pat)
    ensures Replace([c] + rest, pat, to) == [c] + Replace(rest, pat, to)
  {
    assert ([c] + rest)[1..] == rest;
  }

  lemma Misses(c: char, rest: string, x: char, y: char)
    requires c != x || (rest != "" && rest[0] != y) || rest == ""
    ensures !StartsWith([c] + rest, [x, y])
  {
    var s := [c] + rest;
    if |s| >= 2 { assert s[..2][0] == c && s[..2][1] == rest[0]; }
  }

  lemma BackslashPair(e: string)
    requires e == "" || e[0] != '"'
    ensures Replace(['\\'] + (['\\'] + e), ['\\', '"'], ['"']) == ['\\'] + (['\\'] + Replace(e, ['\\', '"'], ['"']))
  {
    var pat := ['\\', '"'];
    Misses('\\', e, '\\', '"');
    ReplaceMiss('\\', e, pat, ['"']);
    Misses('\\', ['\\'] + e, '\\', '"');
    ReplaceMiss('\\', ['\\'] + e, pat, ['"']);
  }

  lemma FirstStep(c: char, e: string)
    requires e == "" || e[0] != '"'
    ensures Replace(EscapeOne(c) + e, ['\\', '"'], ['"']) == HalfOne(c) + Replace(e, ['\\', '"'], ['"'])
  {
    var pat := ['\\', '"'];
    if c == '"' {
      ReplaceHit(e, pat, ['"']);
    } else if c == '\\' {
      BackslashPair(e);
      Assoc(['\\'], ['\\'], e);
      Assoc(['\\'], ['\\'], Replace(e, pat, ['"']));
    } else {
      Misses(c, e, '\\', '"');
      ReplaceMiss(c, e, pat, ['"']);
    }
  }

  lemma {:induction false} FirstReplacement(s: string)
    ensures Replace(EscapeDouble(s), ['\\', '"'], ['"']) == Halfway(s)
    decreases |s|
  {
    if s != "" {
      NoBareQuote(s[1..]);
      FirstStep(s[0], EscapeDouble(s[1..]));
      FirstReplacement(s[1..]);
    }
  }

  lemma NoBareQuote(s: string)
    ensures EscapeDouble(s) == "" || EscapeDouble(s)[0] != '"'
  {}

  lemma {:induction false} SecondReplacement(s: string)
    ensures Replace(Halfway(s), ['\\', '\\'], ['\\']) == s
    decreases |s|
  {
    if s != "" {
      var c, h := s[0], Halfway(s[1..]);
      SecondReplacement(s[1..]);
      assert s == [c] + s[1..];
      if c == '\\' {
        ReplaceHit(h, ['\\', '\\'], ['\\']);
      } else {
        Misses(c, h, '\\', '\\');
        ReplaceMiss(c, h, ['\\', '\\'], ['\\']);
      }
    }
  }

  lemma {:induction false} SingleReplacement(s: string)
    ensures Replace(EscapeSingle(s), ['\'', '\''], ['\'']) == s
    decreases |s|
  {
    if s != "" {
      var c, e := s[0], EscapeSingle(s[1..]);
      SingleReplacement(s[1..]);
      assert s == [c] + s[1..];
      if c == '\'' {
        ReplaceHit(e, ['\'', '\''], ['\'']);
      } else {
        Misses(c, e, '\'', '\'');
        ReplaceMiss(c, e, ['\'', '\''], ['\'']);
      }
    }
  }

  /** Any other text is taken as it stands, without the white space around it. */
  lemma PlainStays(x: string, a: string, b: string)
    requires AllWhite(a) && AllWhite(b) && (x == "" || (!IsWhite(x[0]) && !IsWhite(x[|x| - 1])))
    requires |x| < 2 || x[0] != x[|x| - 1] || (x[0] != '"' && x[0] != '\'')
    ensures ScalarText(a + (x + b)) == x
  {
    if x == "" {
      EmptyPrefix(b);
      AllStripped(a + b);
    } else {
      StripBlank(a, x, b);
    }
  }

  lemma {:induction false} AllStripped(s: string)
    requires AllWhite(s)
    ensures StripLeft(s) == "" && Stripped(s) == ""
    decreases |s|
  {
    if s != "" { AllStripped(s[1..]); }
  }

  /** Decoding either quoted form gives back the string, whatever it contains and whatever white
      space stands around it. */
  lemma DecodeQuoted(s: string, a: string, b: string)
    requires AllWhite(a) && AllWhite(b)
    ensures ScalarText(a + (DoubleQuoted(s) + b)) == s
    ensures ScalarText(a + (SingleQuoted(s) + b)) == s
  {
    var d, q := DoubleQuoted(s), SingleQuoted(s);
    StripBlank(a, d, b);
    StripBlank(a, q, b);
    assert d[1..|d| - 1] == EscapeDouble(s) && q[1..|q| - 1] == EscapeSingle(s);
    FirstReplacement(s);
    SecondReplacement(s);
    SingleReplacement(s);
    assert "\\\"" == ['\\', '"'] && "\\\\" == ['\\', '\\'] && "''" == ['\'', '\''];
  }

  // ---------------------------------------------------------------- the other escapes

  function HexDigit(c: char): (n: Option<nat>)
  {
    if '0' <= c <= '9' then Some(c as int - '0' as int)
    else if 'a' <= c <= 'f' then Some(c as int - 'a' as int + 10)
    else if 'A' <= c <= 'F' then Some(c as int - 'A' as int + 10)
    else None
  }

  function HexNumber(s: string): (n: Option<nat>)
    decreases |s|
  {
    if s == "" then Some(0) else
    var init, d := HexNumber(s[..|s| - 1]), HexDigit(s[|s| - 1]);
    if init.None? || d.None? then None else Some(16 * init.value + d.value)
  }

  /** The one-character escapes of section 5.7. */
  function Escaped(c: char): (r: Option<char>)
  {
    match c
    case '0' => Some('\0')
    case 'a' => Some(7 as char)
    case 'b' => Some(8 as char)
    case 't' => Some('\t')
    case '\t' => Some('\t')
    case 'n' => Some('\n')
    case 'v' => Some(11 as char)
    case 'f' => Some(12 as char)
    case 'r' => Some('\r')
    case 'e' => Some(27 as char)
    case ' ' => Some(' ')
    case '"' => Some('"')
    case '/' => Some('/')
    case '\\' => Some('\\')
    case 'N' => Some(0x85 as char)
    case '_' => Some(0xa0 as char)
    case 'L' => Some(0x2028 as char)
    case 'P' => Some(0x2029 as char)
    case _ => None
  }

  predicate IsScalar(n: int) { 0 <= n < 0xd800 || 0xe000 <= n < 0x110000 }

  /** How long an escape with this letter is. */
  function EscapeLength(c: char): (n: nat) { if c == 'x' then 4 else if c == 'u' then 6 else if c == 'U' then 10 else 2 }

  /** The first character of double-quoted text on one line, and how much of the text it takes. */
  function One(s: string): (r: Option<(char, nat)>)
    requires s != ""
    ensures r.Some? ==> 1 <= r.value.1 <= |s|
  {
    if s[0] in {'"', '\n', '\r'} then None
    else if s[0] != '\\' then Some((s[0], 1))
    else if |s| == 1 || |s| < EscapeLength(s[1]) then None
    else if EscapeLength(s[1]) == 2 then
      var c := Escaped(s[1]);
      if c.None? then None else Some((c.value, 2))
    else
      var n := HexNumber(s[2..EscapeLength(s[1])]);
      if n.None? || !IsScalar(n.value) then None else Some((n.value as char, EscapeLength(s[1])))
  }

  /** The content of a double-quoted scalar as section 7.3.1 reads it; None where it is none. */
  function Decoded(s: string): (r: Option<string>)
    decreases |s|
  {
    if s == "" then Some("") else
    var one := One(s);
    if one.None? then None else
    var more := Decoded(s[one.value.1..]);
    if more.None? then None else Some([one.value.0] + more.value)
  }

  predicate IsSimple(c: char) { c == '"' || c == '\\' }

  /** The only escapes are those of the quote and of the backslash. */
  predicate Simple(s: string)
    decreases |s|
  {
    s == "" || (One(s).Some? && (s[0] == '\\' ==> IsSimple(s[1])) && Simple(s[One(s).value.1..]))
  }

  /** The first token after both replacements (all) or after the first. */
  function KeptOne(s: string, all: bool): (r: string)
    requires s != "" && One(s).Some?
  {
    if s[0] == '\\' && (s[1] == '"' || (all && s[1] == '\\')) then [s[1]] else s[..One(s).value.1]
  }

  function Kept(s: string, all: bool): (r: string)
    decreases |s|
  {
    if s == "" || One(s).None? then "" else KeptOne(s, all) + Kept(s[One(s).value.1..], all)
  }

  predicate NoBackslash(s: string) { forall i :: 0 <= i < |s| ==> s[i] != '\\' }

  lemma {:induction false} PlainOver(u: string, e: string, y: char)
    requires NoBackslash(u)
    ensures Replace(u + e, ['\\', y], [y]) == u + Replace(e, ['\\', y], [y])
    decreases |u|
  {
    if u == "" {
      EmptyPrefix(e);
      EmptyPrefix(Replace(e, ['\\', y], [y]));
    } else {
      var rest := u[1..] + e;
      PlainOver(u[1..], e, y);
      Misses(u[0], rest, '\\', y);
      ReplaceMiss(u[0], rest, ['\\', y], [y]);
      assert u + e == [u[0]] + rest && u == [u[0]] + u[1..];
      Assoc([u[0]], u[1..], Replace(e, ['\\', y], [y]));
    }
  }

  /** An escape that is not replaced is passed over. */
  lemma EscapeOver(u: string, e: string, y: char)
    requires u != "" && NoBackslash(u) && u[0] != y
    ensures Replace((['\\'] + u) + e, ['\\', y], [y]) == (['\\'] + u) + Replace(e, ['\\', y], [y])
  {
    PlainOver(u, e, y);
    Misses('\\', u + e, '\\', y);
    ReplaceMiss('\\', u + e, ['\\', y], [y]);
    Assoc(['\\'], u, e);
    Assoc(['\\'], u, Replace(e, ['\\', y], [y]));
  }

  lemma {:induction false} HexPlain(s: string)
    requires HexNumber(s).Some?
    ensures NoBackslash(s)
    decreases |s|
  {
    if s != "" { HexPlain(s[..|s| - 1]); }
  }

  /** The text of an escape other than the two. */
  lemma OtherEscape(s: string)
    requires s != "" && One(s).Some? && s[0] == '\\' && !IsSimple(s[1])
    ensures var u := s[1..One(s).value.1]; u != "" && NoBackslash(u) && u[0] == s[1] && s[..One(s).value.1] == ['\\'] + u
  {
    var n := One(s).value.1;
    if n > 2 {
      HexPlain(s[2..n]);
      assert s[1..n] == [s[1]] + s[2..n];
    }
  }

  lemma DecodedRest(s: string)
    requires s != "" && Decoded(s).Some?
    ensures One(s).Some? && var e := s[One(s).value.1..]; Decoded(e).Some? && (e == "" || e[0] != '"')
    ensures s == s[..One(s).value.1] + s[One(s).value.1..]
  {}

  lemma FirstPair(e: string)
    requires e == "" || e[0] != '"'
    ensures Replace(['\\', '\\'] + e, ['\\', '"'], ['"']) == ['\\', '\\'] + Replace(e, ['\\', '"'], ['"'])
  {
    assert ['\\', '\\'] == ['\\'] + ['\\'];
    BackslashPair(e);
    Assoc(['\\'], ['\\'], e);
    Assoc(['\\'], ['\\'], Replace(e, ['\\', '"'], ['"']));
  }

  lemma FirstOne(s: string, e: string)
    requires s != "" && One(s).Some? && (e == "" || e[0] != '"')
    ensures Replace(s[..One(s).value.1] + e, ['\\', '"'], ['"']) == KeptOne(s, false) + Replace(e, ['\\', '"'], ['"'])
  {
    OneCases(s);
    if s[0] != '\\' {
      PlainOver([s[0]], e, '"');
    } else if s[1] == '"' {
      ReplaceHit(e, ['\\', '"'], ['"']);
    } else if s[1] == '\\' {
      FirstPair(e);
    } else {
      OtherEscape(s);
      EscapeOver(s[1..One(s).value.1], e, '"');
    }
  }

  /** What is read first, and what a first replacement makes of it. */
  lemma OneCases(s: string)
    requires s != "" && One(s).Some?
    ensures var u := s[..One(s).value.1];
      && (s[0] != '\\' ==> u == [s[0]] == KeptOne(s, false))
      && (s[0] == '\\' ==> |s| > 1)
      && (s[0] == '\\' && s[1] == '"' ==> u == ['\\', '"'] && KeptOne(s, false) == ['"'])
      && (s[0] == '\\' && s[1] == '\\' ==> u == ['\\', '\\'] == KeptOne(s, false))
      && (s[0] == '\\' && s[1] != '"' ==> KeptOne(s, false) == u)
  {}

  lemma SecondOne(s: string, e: string)
    requires s != "" && One(s).Some?
    ensures Replace(KeptOne(s, false) + e, ['\\', '\\'], ['\\']) == KeptOne(s, true) + Replace(e, ['\\', '\\'], ['\\'])
  {
    var n := One(s).value.1;
    if s[0] != '\\' {
      PlainOver([s[0]], e, '\\');
    } else if s[1] == '"' {
      PlainOver(['"'], e, '\\');
    } else if s[1] == '\\' {
      assert s[..n] == ['\\', '\\'];
      ReplaceHit(e, ['\\', '\\'], ['\\']);
    } else {
      OtherEscape(s);
      EscapeOver(s[1..n], e, '\\');
    }
  }

  lemma {:induction false} FirstPass(s: string)
    requires Decoded(s).Some?
    ensures Replace(s, ['\\', '"'], ['"']) == Kept(s, false)
    decreases |s|
  {
    if s != "" {
      DecodedRest(s);
      var e := s[One(s).value.1..];
      FirstPass(e);
      FirstOne(s, e);
    }
  }

  lemma {:induction false} SecondPass(s: string)
    requires Decoded(s).Some?
    ensures Replace(Kept(s, false), ['\\', '\\'], ['\\']) == Kept(s, true)
    decreases |s|
  {
    if s != "" {
      DecodedRest(s);
      var e := s[One(s).value.1..];
      SecondPass(e);
      SecondOne(s, Kept(e, false));
    }
  }

  /** An escape that stays is longer than what it stands for. */
  lemma {:induction false} KeptLonger(s: string)
    requires Decoded(s).Some?
    ensures |Kept(s, true)| >= |Decoded(s).value|
    ensures Simple(s) ==> Kept(s, true) == Decoded(s).value
    ensures !Simple(s) ==> |Kept(s, true)| > |Decoded(s).value|
    decreases |s|
  {
    if s != "" {
      DecodedRest(s);
      KeptLonger(s[One(s).value.1..]);
      if s[0] == '\\' && !IsSimple(s[1]) { OtherEscape(s); }
    }
  }

  /** On one line of double-quoted text the decoder agrees with YAML exactly if the quote and the
      backslash are the only characters written as escapes. */
  lemma DoubleQuotedExact(inner: string, a: string, b: string)
    requires AllWhite(a) && AllWhite(b) && Decoded(inner).Some?
    ensures ScalarText(a + ((['"'] + inner + ['"']) + b)) == Decoded(inner).value <==> Simple(inner)
  {
    var text := ['"'] + inner + ['"'];
    StripBlank(a, text, b);
    assert text[1..|text| - 1] == inner;
    assert "\\\"" == ['\\', '"'] && "\\\\" == ['\\', '\\'];
    FirstPass(inner);
    SecondPass(inner);
    KeptLonger(inner);
  }

  predicate OneLine(s: string) { forall i :: 0 <= i < |s| ==> s[i] != '\n' && s[i] != '\r' }

  lemma OneOfEscape(c: char, e: string)
    requires c != '\n' && c != '\r'
    ensures var t := EscapeOne(c);
      && t + e != "" && One(t + e) == Some((c, |t|)) && (t + e)[|t|..] == e
      && ((t + e)[0] == '\\' ==> IsSimple((t + e)[1]))
  {
    var t := EscapeOne(c);
    assert (t + e)[0] == t[0] && (|t| == 2 ==> (t + e)[1] == t[1]);
  }

  lemma DecodedCons(s: string, c: char, n: nat, more: string)
    requires s != "" && One(s) == Some((c, n)) && Decoded(s[n..]) == Some(more) && Simple(s[n..])
    requires s[0] == '\\' ==> IsSimple(s[1])
    ensures Decoded(s) == Some([c] + more) && Simple(s)
  {}

  /** What escaping those two writes is such text, and means the string. */
  lemma {:induction false} EscapedIsSimple(s: string)
    requires OneLine(s)
    ensures Decoded(EscapeDouble(s)) == Some(s) && Simple(EscapeDouble(s))
    decreases |s|
  {
    if s != "" {
      EscapedIsSimple(s[1..]);
      OneOfEscape(s[0], EscapeDouble(s[1..]));
      DecodedCons(EscapeDouble(s), s[0], |EscapeOne(s[0])|, s[1..]);
      assert s == [s[0]] + s[1..];
    }
  }
}
