/**
 A line of the audit log read back by a reader of JSON (RFC 8259): nothing that was recorded is lost, and no text
 in one field can be taken for another field.
 */
module AuditRead {
  import opened Wrappers
  import opened AuditJson

  /** A value as a reader of JSON sees it: a text, or the characters of a number or literal. */
  datatype Shown = Text(s: string) | Bare(s: string)

  function Show(v: Value): (r: Shown) { if v.Str? then Text(v.s) else Bare(Print(v)) }

  /** A string up to its closing quote, decoded, and what follows. */
  function ParseString(s: string): (r: Option<(string, string)>)
    ensures r.Some? ==> |r.value.1| < |s|
    decreases |s|
  {
    if s == "" then None
    else if s[0] == '"' then Some(("", s[1..]))
    else
      var (c, n) := UnescapeOne(s);
      match ParseString(s[n..])
      case None => None
      case Some((t, rest)) => Some(([c] + t, rest))
  }

  function NumeralLength(s: string): (n: nat)
    ensures n <= |s| && (forall i :: 0 <= i < n ==> InNumeral(s[i])) && (n < |s| ==> !InNumeral(s[n]))
    decreases |s|
  {
    if s == "" || !InNumeral(s[0]) then 0 else 1 + NumeralLength(s[1..])
  }

  function ParseValue(s: string): (r: Option<(Shown, string)>)
    ensures r.Some? ==> |r.value.1| < |s|
  {
    if s != "" && s[0] == '"' then
      match ParseString(s[1..]) case None => None case Some((t, rest)) => Some((Text(t), rest))
    else
      var n := NumeralLength(s);
      if n == 0 then None else Some((Bare(s[..n]), s[n..]))
  }

  function ParseField(s: string): (r: Option<((string, Shown), string)>)
    ensures r.Some? ==> |r.value.1| < |s|
  {
    if s == "" || s[0] != '"' then None else
    match ParseString(s[1..])
    case None => None
    case Some((k, rest)) =>
      if !StartsWith(rest, ": ") then None else
      match ParseValue(rest[2..]) case None => None case Some((v, tail)) => Some(((k, v), tail))
  }

  /** The fields of an object behind its opening brace. */
  function ParseFields(s: string): (r: Option<seq<(string, Shown)>>)
    decreases |s|
  {
    match ParseField(s)
    case None => None
    case Some((f, rest)) =>
      if rest == "}" then Some([f])
      else if !StartsWith(rest, ", ") then None
      else match ParseFields(rest[2..]) case None => None case Some(fs) => Some([f] + fs)
  }

  /** A line of the log: what stands before the object is skipped. */
  function ParseLine(line: string): (r: Option<seq<(string, Shown)>>)
    decreases |line|
  {
    if line == "" then None else if line[0] == '{' then ParseFields(line[1..]) else ParseLine(line[1..])
  }

  lemma {:induction false} ParseEscaped(s: string, rest: string)
    ensures ParseString(Escape(s) + ("\"" + rest)) == Some((s, rest))
    decreases |s|
  {
    var q := "\"" + rest;
    if s == "" {
      EmptyPrefix(q);
      assert q[1..] == rest;
    } else {
      var e, more := EscapeChar(s[0]), Escape(s[1..]);
      EscapeCharFacts(s[0]);
      Assoc(e, more, q);
      UnescapeOneEscaped(s[0], more + q);
      AfterFirst(e, more + q);
      ParseEscaped(s[1..], rest);
      ParseOne(e + (more + q), s[0], |e|, s[1..], rest);
      assert [s[0]] + s[1..] == s;
    }
  }

  lemma AfterFirst(e: string, more: string)
    requires e != ""
    ensures (e + more)[|e|..] == more && (e + more)[0] == e[0] && (e + more)[..|e|] == e
  {}

  lemma ParseOne(s: string, c: char, n: nat, t: string, rest: string)
    requires s != "" && s[0] != '"' && UnescapeOne(s) == (c, n) && ParseString(s[n..]) == Some((t, rest))
    ensures ParseString(s) == Some(([c] + t, rest))
  {}

  lemma {:induction false} NumeralRead(n: string, rest: string)
    requires (forall i :: 0 <= i < |n| ==> InNumeral(n[i])) && (rest == "" || !InNumeral(rest[0]))
    ensures NumeralLength(n + rest) == |n|
    decreases |n|
  {
    if n == "" {
      EmptyPrefix(rest);
    } else {
      assert (n + rest)[0] == n[0] && (n + rest)[1..] == n[1..] + rest;
      NumeralRead(n[1..], rest);
    }
  }

  lemma ValueParsed(v: Value, rest: string)
    requires rest != "" && !InNumeral(rest[0])
    ensures ParseValue(Print(v) + rest) == Some((Show(v), rest))
  {
    var s := Print(v) + rest;
    if v.Str? {
      Assoc("\"" + Escape(v.s), "\"", rest);
      Assoc("\"", Escape(v.s), "\"" + rest);
      assert s[0] == '"' && s[1..] == Escape(v.s) + ("\"" + rest);
      ParseEscaped(v.s, rest);
    } else {
      PrintNumeral(v);
      assert s[0] == Print(v)[0];
      NumeralRead(Print(v), rest);
      assert s[..|Print(v)|] == Print(v) && s[|Print(v)|..] == rest;
    }
  }

  /** A key without anything to escape. */
  predicate Simple(k: string) { forall i :: 0 <= i < |k| ==> ' ' <= k[i] <= '~' && k[i] != '"' && k[i] != '\\' }

  lemma FieldParsed(f: Field, rest: string)
    requires Simple(f.key) && rest != "" && !InNumeral(rest[0])
    ensures ParseField(PrintField(f) + rest) == Some(((f.key, Show(f.value)), rest))
  {
    var v, sep, q := Print(f.value), ": ", "\"";
    PlainEscape(f.key);
    var tail := sep + (v + rest);
    FieldApart(f, rest);
    AfterFirst(q, f.key + (q + tail));
    ParseEscaped(f.key, tail);
    AfterFirst(sep, v + rest);
    ValueParsed(f.value, rest);
    ParseKey(q + (f.key + (q + tail)), f.key, tail, Show(f.value), rest);
  }

  lemma FieldApart(f: Field, rest: string)
    ensures var q := "\""; PrintField(f) + rest == q + (f.key + (q + (": " + (Print(f.value) + rest))))
  {
    var q, v := "\"", Print(f.value);
    assert "\": " == q + ": ";
    Assoc(q + f.key + "\": ", v, rest);
    Assoc(q + f.key, q + ": ", v + rest);
    Assoc(q, f.key, q + ": " + (v + rest));
    Assoc(q, ": ", v + rest);
  }

  lemma ParseKey(s: string, key: string, tail: string, v: Shown, rest: string)
    requires s != "" && s[0] == '"' && ParseString(s[1..]) == Some((key, tail))
    requires StartsWith(tail, ": ") && ParseValue(tail[2..]) == Some((v, rest))
    ensures ParseField(s) == Some(((key, v), rest))
  {}

  lemma {:induction false} PrintFirst(f: Field, fs: seq<Field>)
    ensures PrintFields([f] + fs) == PrintField(f) + if fs == [] then "" else ", " + PrintFields(fs)
    decreases |fs|
  {
    var all := [f] + fs;
    if fs == [] {
      assert all == [f];
      EmptyPrefix(PrintField(f));
    } else {
      var init, last := fs[..|fs| - 1], fs[|fs| - 1];
      assert all[..|all| - 1] == [f] + init && all[|all| - 1] == last;
      PrintFirst(f, init);
      if init == [] {
        EmptyPrefix(PrintField(f));
        EmptyPrefix(PrintField(last));
        Assoc(PrintField(f), ", ", PrintField(last));
      } else {
        PrintTail(PrintField(f), PrintFields(init), PrintField(last));
      }
    }
  }

  lemma PrintTail(a: string, b: string, c: string)
    ensures (a + (", " + b)) + ", " + c == a + (", " + (b + ", " + c))
  {}

  function Shows(fs: seq<Field>): (r: seq<(string, Shown)>)
    ensures |r| == |fs| && forall i :: 0 <= i < |fs| ==> r[i] == (fs[i].key, Show(fs[i].value))
  {
    seq(|fs|, i requires 0 <= i < |fs| => (fs[i].key, Show(fs[i].value)))
  }

  lemma OneParsed(f: Field)
    requires Simple(f.key)
    ensures ParseFields(PrintFields([f]) + "}") == Some([(f.key, Show(f.value))])
  {
    PrintFirst(f, []);
    EmptyPrefix([f]);
    EmptyPrefix(PrintField(f));
    FieldParsed(f, "}");
    LastField(PrintField(f) + "}", (f.key, Show(f.value)));
  }

  lemma MoreParsed(f: Field, text: string, shown: seq<(string, Shown)>)
    requires Simple(f.key) && ParseFields(text) == Some(shown)
    ensures ParseFields(PrintField(f) + (", " + text)) == Some([(f.key, Show(f.value))] + shown)
  {
    FieldParsed(f, ", " + text);
    AfterFirst(", ", text);
    FirstField(PrintField(f) + (", " + text), (f.key, Show(f.value)), ", " + text, shown);
  }

  lemma FirstApart(f: Field, more: seq<Field>)
    requires more != []
    ensures PrintFields([f] + more) + "}" == PrintField(f) + (", " + (PrintFields(more) + "}"))
  {
    PrintFirst(f, more);
    Assoc(PrintField(f), ", " + PrintFields(more), "}");
    Assoc(", ", PrintFields(more), "}");
  }

  lemma ShowsFirst(f: Field, more: seq<Field>)
    ensures Shows([f] + more) == [(f.key, Show(f.value))] + Shows(more)
  {}

  lemma {:induction false} FieldsParsed(f: Field, more: seq<Field>)
    requires Simple(f.key) && forall i :: 0 <= i < |more| ==> Simple(more[i].key)
    ensures ParseFields(PrintFields([f] + more) + "}") == Some(Shows([f] + more))
    decreases |more|
  {
    ShowsFirst(f, more);
    if more == [] {
      OneParsed(f);
      EmptyPrefix([f]);
      EmptyPrefix([(f.key, Show(f.value))]);
    } else {
      var g, rest := more[0], more[1..];
      assert more == [g] + rest;
      FirstApart(f, more);
      FieldsParsed(g, rest);
      MoreParsed(f, PrintFields(more) + "}", Shows(more));
    }
  }

  lemma LastField(s: string, f: (string, Shown))
    requires ParseField(s) == Some((f, "}"))
    ensures ParseFields(s) == Some([f])
  {}

  lemma FirstField(s: string, f: (string, Shown), rest: string, fs: seq<(string, Shown)>)
    requires ParseField(s) == Some((f, rest)) && rest != "}" && StartsWith(rest, ", ") && ParseFields(rest[2..]) == Some(fs)
    ensures ParseFields(s) == Some([f] + fs)
  {}

  lemma {:induction false} StampSkipped(stamp: string, obj: string)
    requires IsStamp(stamp)
    ensures ParseLine(stamp + ("{" + obj)) == ParseFields(obj)
    decreases |stamp|
  {
    var line := stamp + ("{" + obj);
    if stamp == "" {
      assert line[0] == '{' && line[1..] == obj;
    } else {
      assert line[0] == stamp[0] && line[1..] == stamp[1..] + ("{" + obj);
      StampSkipped(stamp[1..], obj);
    }
  }

  /** Python's int(s) on an optional sign and digits. */
  function IntOf(s: string): (n: Option<int>)
  {
    if s != "" && s[0] == '-' && AllDigits(s[1..]) then (var k: int := NatOf(s[1..]); Some(-k))
    else if AllDigits(s) then Some(NatOf(s)) else None
  }

  predicate AllDigits(s: string) { s != "" && forall i :: 0 <= i < |s| ==> IsDigit(s[i]) }

  /** So the numbers come back as well. */
  lemma IntReadBack(n: int)
    ensures IntOf(Print(Int(n))) == Some(n)
  {
    if n < 0 {
      assert Print(Int(n))[1..] == Decimal(-n);
      NatOfDecimal(-n);
    } else {
      assert IsDigit(Print(Int(n))[0]);
      NatOfDecimal(n);
    }
  }

  /** What the log says of a record: its texts as they are, of the detail the first 500 characters. */
  function Said(r: Record): (fs: seq<(string, Shown)>)
  {
    [("op", Text(r.op)), ("verdict", Text(r.verdict)), ("summary", Show(r.summary)),
     ("peer_uid", Bare(if r.uid.None? then "null" else Print(Int(r.uid.value)))),
     ("peer_pid", Bare(if r.pid.None? then "null" else Print(Int(r.pid.value))))]
    + if r.detail == "" then [] else [("detail", Text(if |r.detail| <= 500 then r.detail else r.detail[..500]))]
  }

  lemma SaidIsShown(r: Record)
    ensures Shows(FieldsOf(r)) == Said(r)
  {
    var fs, said := FieldsOf(r), Said(r);
    forall i | 0 <= i < |fs| ensures (fs[i].key, Show(fs[i].value)) == said[i] {
      if i == 0 {} else if i == 1 {} else if i == 2 {} else if i == 3 {} else if i == 4 {}
    }
  }

  lemma SimpleKeys(r: Record)
    ensures forall i :: 0 <= i < |FieldsOf(r)| ==> Simple(FieldsOf(r)[i].key)
  {
    var fs := FieldsOf(r);
    forall i | 0 <= i < |fs| ensures Simple(fs[i].key) {
      assert fs[i].key in ["op", VERDICT, "summary", "peer_uid", "peer_pid", "detail"];
    }
  }

  /** A reader of JSON gets back from the line exactly what was recorded, whatever the texts hold. */
  lemma RecordReadBack(stamp: string, r: Record)
    requires IsStamp(stamp)
    ensures ParseLine(LogLine(stamp, r)) == Some(Said(r))
  {
    var fs := FieldsOf(r);
    SimpleKeys(r);
    assert fs == [fs[0]] + fs[1..];
    FieldsParsed(fs[0], fs[1..]);
    Assoc("{", PrintFields(fs), "}");
    StampSkipped(stamp, PrintFields(fs) + "}");
    SaidIsShown(r);
  }
}
