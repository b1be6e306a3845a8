/**
 The audit log holds one JSON object per line, and the enforcement gate finds refusals by
 looking for a substring of the text.  The test is exact on everything `audit` writes.
 */
module AuditJson {
  import opened Wrappers

  // ---------------------------------------------------------------- printing

  /** The characters of numbers and of true, false, null, NaN and Infinity. */
  predicate InNumeral(c: char) { '0' <= c <= '9' || c in "+-.nultrefasNIiy" }

  predicate IsNumeral(s: string) { s != "" && forall i :: 0 <= i < |s| ==> InNumeral(s[i]) }

  /** How a float is printed, NaN and the infinities included. */
  type Numeral = s: string | IsNumeral(s) witness "0"

  /** The scalars; a dictionary or a list is none. */
  datatype Value = Str(s: string) | Int(n: int) | Float(shown: Numeral) | Bool(b: bool) | Null

  datatype Field = Field(key: string, value: Value)

  function HexDigit(n: nat): (c: char)
    requires n < 16
    ensures '0' <= c <= '9' || 'a' <= c <= 'f'
  {
    if n < 10 then '0' + n as char else 'a' + (n - 10) as char
  }

  /** The last k hexadecimal digits of n. */
  function Hex(n: nat, k: nat): (s: string)
    ensures |s| == k && forall i :: 0 <= i < k ==> '0' <= s[i] <= '9' || 'a' <= s[i] <= 'f'
    decreases k
  {
    if k == 0 then "" else Hex(n / 16, k - 1) + [HexDigit(n % 16)]
  }

  /** The surrogate pair of a character beyond the Basic Multilingual Plane. */
  function High(c: char): (n: nat)
    requires c as int >= 0x10000
  {
    0xd800 + (c as int - 0x10000) / 0x400
  }

  function Low(c: char): (n: nat)
    requires c as int >= 0x10000
  {
    0xdc00 + (c as int - 0x10000) % 0x400
  }

  /** One character inside a JSON string (section 7 of RFC 8259, ASCII output): beyond the
      Basic Multilingual Plane a pair of escapes. */
  function EscapeChar(c: char): (r: string)
  {
    if c == '"' then "\\\""
    else if c == '\\' then "\\\\"
    else if c == '\n' then "\\n"
    else if c == '\r' then "\\r"
    else if c == '\t' then "\\t"
    else if c as int == 8 then "\\b"
    else if c as int == 12 then "\\f"
    else if ' ' <= c <= '~' then [c]
    else if c as int < 0x10000 then "\\u" + Hex(c as int, 4)
    else "\\u" + Hex(High(c), 4) + "\\u" + Hex(Low(c), 4)
  }

  function Escape(s: string): (r: string) decreases |s|
  {
    if s == "" then "" else EscapeChar(s[0]) + Escape(s[1..])
  }

  function Print(v: Value): (r: string)
  {
    match v
    case Str(s) => "\"" + Escape(s) + "\""
    case Int(n) => if n < 0 then "-" + Decimal(-n) else Decimal(n)
    case Float(shown) => shown
    case Bool(b) => if b then "true" else "false"
    case Null => "null"
  }

  function PrintField(f: Field): (r: string) { "\"" + f.key + "\": " + Print(f.value) }

  function PrintFields(fs: seq<Field>): (r: string)
    decreases |fs|
  {
    if fs == [] then "" else
    (if |fs| == 1 then "" else PrintFields(fs[..|fs| - 1]) + ", ") + PrintField(fs[|fs| - 1])
  }

  /** json.dumps of a dictionary. */
  function Dumps(fs: seq<Field>): (r: string) { "{" + PrintFields(fs) + "}" }

  // ---------------------------------------------------------------- the record

  /** One caller hands on what the request says as summary, whatever scalar that is. */
  datatype Record = Record(op: string, verdict: string, summary: Value, uid: Option<int>, pid: Option<int>, detail: string)

  function Number(n: Option<int>): Value { if n.None? then Null else Int(n.value) }

  /** The dictionary `audit` builds. */
  function FieldsOf(r: Record): (fs: seq<Field>)
  {
    [Field("op", Str(r.op)), Field(VERDICT, Str(r.verdict)), Field("summary", r.summary),
     Field("peer_uid", Number(r.uid)), Field("peer_pid", Number(r.pid))]
    + if r.detail == "" then [] else [Field("detail", Str(if |r.detail| <= 500 then r.detail else r.detail[..500]))]
  }

  /** What the log file holds for it; `stamp` is the formatter's time prefix. */
  function LogLine(stamp: string, r: Record): (line: string) { stamp + Dumps(FieldsOf(r)) }

  const VERDICT := "verdict"
  const WOULD_DENY := "WOULD-DENY"

  /** A string field as it stands in a line. */
  function Entry(key: string, raw: string): string { "\"" + (key + ("\": \"" + (raw + "\""))) }

  /** `"verdict": "WOULD-DENY"`, what the gate looks for. */
  const MARK := Entry(VERDICT, WOULD_DENY)

  // ---------------------------------------------------------------- reading a line back

  datatype Where =
    | Preamble | KeyOpen | InKey | Colon | Space | ValueOpen | InString | InEscape | InNumber
    | AfterString | CommaSpace | Done | Wrong

  /** Reader: where it is, the raw text of the current key and string, and whether a field
      verdict = WOULD-DENY has gone by. */
  datatype Reader = Reader(at: Where, key: string, text: string, found: bool)

  const TOP := Reader(Preamble, "", "", false)

  function Read(r: Reader, c: char): (r': Reader)
  {
    match r.at
    case Preamble => if c == '{' then r.(at := KeyOpen, key := "", text := "") else if c == '"' then r.(at := Wrong) else r
    case KeyOpen => if c == '"' then r.(at := InKey, key := "", text := "") else r.(at := Wrong)
    case InKey => if c == '"' then r.(at := Colon) else r.(key := r.key + [c])
    case Colon => if c == ':' then r.(at := Space) else r.(at := Wrong)
    case Space => if c == ' ' then r.(at := ValueOpen) else r.(at := Wrong)
    case ValueOpen => if c == '"' then r.(at := InString, text := "") else if InNumeral(c) then r.(at := InNumber) else r.(at := Wrong)
    case InString =>
      if c == '"' then r.(at := AfterString, found := r.found || (r.key == VERDICT && r.text == WOULD_DENY))
      else r.(at := if c == '\\' then InEscape else InString, text := r.text + [c])
    case InEscape => r.(at := InString, text := r.text + [c])
    case InNumber => if InNumeral(c) then r else AfterValue(r, c)
    case AfterString => AfterValue(r, c)
    case CommaSpace => if c == ' ' then r.(at := KeyOpen) else r.(at := Wrong)
    case Done => r.(at := Wrong)
    case Wrong => r
  }

  function AfterValue(r: Reader, c: char): (r': Reader)
  {
    r.(at := if c == ',' then CommaSpace else if c == '}' then Done else Wrong)
  }

  /** The reader after the first n characters of s. */
  function ReadFirst(r: Reader, s: string, n: nat): (r': Reader)
    requires n <= |s|
  {
    if n == 0 then r else Read(ReadFirst(r, s, n - 1), s[n - 1])
  }

  function ReadAll(r: Reader, s: string): (r': Reader) { ReadFirst(r, s, |s|) }

  lemma {:induction false} ReadFirstPrefix(r: Reader, a: string, b: string, n: nat)
    requires n <= |a|
    ensures ReadFirst(r, a + b, n) == ReadFirst(r, a, n)
  {
    if n > 0 { ReadFirstPrefix(r, a, b, n - 1); }
  }

  lemma {:induction false} ReadFirstAppend(r: Reader, a: string, b: string, n: nat)
    requires n <= |b|
    ensures ReadFirst(r, a + b, |a| + n) == ReadFirst(ReadAll(r, a), b, n)
  {
    if n == 0 { ReadFirstPrefix(r, a, b, |a|); } else { ReadFirstAppend(r, a, b, n - 1); }
  }

  lemma ReadAppend(r: Reader, a: string, b: string)
    ensures ReadAll(r, a + b) == ReadAll(ReadAll(r, a), b)
  {
    ReadFirstAppend(r, a, b, |b|);
  }

  lemma ReadOne(r: Reader, c: char)
    ensures ReadAll(r, [c]) == Read(r, c)
  {
    assert ReadFirst(r, [c], 0) == r;
  }

  lemma {:induction false} StickyFirst(r: Reader, s: string, n: nat)
    requires n <= |s|
    ensures r.found ==> ReadFirst(r, s, n).found
    ensures r.at.Wrong? ==> ReadFirst(r, s, n).at.Wrong?
  {
    if n > 0 { StickyFirst(r, s, n - 1); }
  }

  lemma Sticky(r: Reader, s: string)
    ensures r.found ==> ReadAll(r, s).found
    ensures r.at.Wrong? ==> ReadAll(r, s).at.Wrong?
  {
    StickyFirst(r, s, |s|);
  }

  // ---------------------------------------------------------------- reading what was printed

  lemma EscapeCharFacts(c: char)
    ensures var e := EscapeChar(c);
            && (forall i :: 0 <= i < |e| ==> ' ' <= e[i] <= '~')
            && e != "" && (e[0] == '\\' ==> |e| >= 2)
            && (e[0] != '\\' ==> e == [c] && c != '"')
            && (forall i :: 2 <= i < |e| && (i != 6) ==> e[i] != '"' && e[i] != '\\')
            && (|e| <= 2 || |e| == 6 || (|e| == 12 && e[6] == '\\'))
  {}

  /** The reader inside a string with more raw text taken in. */
  function Add(r: Reader, s: string): (r': Reader) { r.(text := r.text + s) }

  lemma AddAdd(r: Reader, a: string, b: string)
    ensures Add(Add(r, a), b) == Add(r, a + b) && Add(r, "") == r
  {
    assert r.text + a + b == r.text + (a + b) && r.text + "" == r.text;
  }

  predicate Unmarked(s: string) { forall i :: 0 <= i < |s| ==> s[i] != '"' && s[i] != '\\' }

  lemma {:induction false} ReadPlainFirst(r: Reader, s: string, n: nat)
    requires r.at.InString? && Unmarked(s) && n <= |s|
    ensures ReadFirst(r, s, n) == Add(r, s[..n])
  {
    if n == 0 {
      AddAdd(r, "", "");
    } else {
      ReadPlainFirst(r, s, n - 1);
      TakeMore(s, n - 1);
      AddAdd(r, s[..n - 1], [s[n - 1]]);
    }
  }

  lemma ReadPlain(r: Reader, s: string)
    requires r.at.InString? && Unmarked(s)
    ensures ReadAll(r, s) == Add(r, s)
  {
    ReadPlainFirst(r, s, |s|);
    TakeAll(s);
  }

  /** A backslash and whatever follows it. */
  lemma ReadPair(r: Reader, c: char, rest: string)
    requires r.at.InString? && Unmarked(rest)
    ensures ReadAll(r, ['\\'] + ([c] + rest)) == Add(r, ['\\'] + ([c] + rest))
  {
    var r1 := Read(r, '\\');
    var r2 := Add(r, ['\\', c]);
    ReadAppend(r, ['\\'], [c] + rest);
    ReadAppend(r1, [c], rest);
    ReadOne(r, '\\');
    ReadOne(r1, c);
    assert Read(r1, c) == r2 by { assert r.text + ['\\'] + [c] == r.text + ['\\', c]; }
    ReadPlain(r2, rest);
    AddAdd(r, ['\\', c], rest);
    assert ['\\', c] + rest == ['\\'] + ([c] + rest);
  }

  lemma ReadEscape(r: Reader, e: string)
    requires r.at.InString? && |e| >= 2 && e[0] == '\\' && Unmarked(e[2..])
    ensures ReadAll(r, e) == Add(r, e)
  {
    assert e == ['\\'] + ([e[1]] + e[2..]);
    ReadPair(r, e[1], e[2..]);
  }

  lemma ReadTwo(r: Reader, a: string, b: string)
    requires r.at.InString? && |a| >= 2 && a[0] == '\\' && Unmarked(a[2..]) && |b| >= 2 && b[0] == '\\' && Unmarked(b[2..])
    ensures ReadAll(r, a + b) == Add(r, a + b)
  {
    ReadEscape(r, a);
    ReadEscape(Add(r, a), b);
    ReadAppend(r, a, b);
    AddAdd(r, a, b);
  }

  lemma ReadEscapedChar(r: Reader, c: char)
    requires r.at.InString?
    ensures ReadAll(r, EscapeChar(c)) == Add(r, EscapeChar(c))
  {
    EscapeCharFacts(c);
    var e := EscapeChar(c);
    if e[0] != '\\' {
      ReadPlain(r, e);
    } else if |e| <= 6 {
      ReadEscape(r, e);
    } else {
      assert e == e[..6] + e[6..];
      ReadTwo(r, e[..6], e[6..]);
    }
  }

  lemma {:induction false} ReadEscaped(r: Reader, s: string)
    requires r.at.InString?
    ensures ReadAll(r, Escape(s)) == Add(r, Escape(s))
    decreases |s|
  {
    if s == "" {
      AddAdd(r, "", "");
    } else {
      var e, rest := EscapeChar(s[0]), Escape(s[1..]);
      ReadAppend(r, e, rest);
      ReadEscapedChar(r, s[0]);
      ReadEscaped(Add(r, e), s[1..]);
      AddAdd(r, e, rest);
    }
  }

  predicate PlainKey(k: string) { forall i :: 0 <= i < |k| ==> k[i] != '"' && k[i] != '\\' }

  lemma {:induction false} ReadKeyFirst(r: Reader, k: string, n: nat)
    requires r.at.InKey? && r.key == "" && PlainKey(k) && n <= |k|
    ensures ReadFirst(r, k, n) == r.(key := k[..n])
  {
    if n > 0 {
      ReadKeyFirst(r, k, n - 1);
      TakeMore(k, n - 1);
    }
  }

  lemma ReadKey(r: Reader, k: string)
    requires r.at.InKey? && r.key == "" && PlainKey(k)
    ensures ReadAll(r, k) == r.(key := k)
  {
    ReadKeyFirst(r, k, |k|);
    TakeAll(k);
  }

  lemma {:induction false} ReadNumeralFirst(r: Reader, s: string, n: nat)
    requires r.at.ValueOpen? && 0 < n <= |s| && forall i :: 0 <= i < |s| ==> InNumeral(s[i])
    ensures ReadFirst(r, s, n) == r.(at := InNumber)
  {
    if n == 1 { assert ReadFirst(r, s, 0) == r; } else { ReadNumeralFirst(r, s, n - 1); }
  }

  lemma ReadNumeral(r: Reader, s: string)
    requires r.at.ValueOpen? && IsNumeral(s)
    ensures ReadAll(r, s) == r.(at := InNumber)
  {
    ReadNumeralFirst(r, s, |s|);
  }

  /** The field the gate looks for. */
  predicate Marks(f: Field) { f.key == VERDICT && f.value == Str(WOULD_DENY) }

  lemma PrintNumeral(v: Value)
    requires !v.Str?
    ensures IsNumeral(Print(v))
  {}

  lemma ReadValue(r: Reader, v: Value)
    requires r.at.ValueOpen?
    ensures var r' := ReadAll(r, Print(v));
            && (r'.at.AfterString? || r'.at.InNumber?) && r'.key == r.key
            && r'.found == (r.found || (r.key == VERDICT && v == Str(WOULD_DENY)))
  {
    match v {
      case Str(s) =>
        var r1 := r.(at := InString, text := "");
        ReadAppend(r, "\"" + Escape(s), "\"");
        ReadAppend(r, "\"", Escape(s));
        ReadOne(r, '"');
        ReadEscaped(r1, s);
        assert "" + Escape(s) == Escape(s);
        ReadOne(Add(r1, Escape(s)), '"');
        EscapeIs(s);
      case _ =>
        PrintNumeral(v);
        ReadNumeral(r, Print(v));
    }
  }

  lemma ReadField(r: Reader, f: Field)
    requires r.at.KeyOpen? && PlainKey(f.key)
    ensures var r' := ReadAll(r, PrintField(f));
            (r'.at.AfterString? || r'.at.InNumber?) && r'.found == (r.found || Marks(f))
  {
    var r1 := r.(at := InKey, key := "", text := "");
    var r2 := r1.(key := f.key);
    var a, b, c := "\"", f.key, "\": ";
    ReadAppend(r, a + b + c, Print(f.value));
    ReadAppend(r, a + b, c);
    ReadAppend(r, a, b);
    ReadOne(r, '"');
    ReadKey(r1, f.key);
    assert c == ['"'] + ([':'] + [' ']);
    ReadAppend(r2, ['"'], [':'] + [' ']);
    ReadAppend(r2.(at := Colon), [':'], [' ']);
    ReadOne(r2, '"');
    ReadOne(r2.(at := Colon), ':');
    ReadOne(r2.(at := Space), ' ');
    ReadValue(r2.(at := ValueOpen), f.value);
    assert PrintField(f) == a + b + c + Print(f.value);
  }

  predicate AnyMarks(fs: seq<Field>) { exists i :: 0 <= i < |fs| && Marks(fs[i]) }

  lemma AnyMarksLast(init: seq<Field>, f: Field)
    ensures AnyMarks(init + [f]) == (AnyMarks(init) || Marks(f))
  {
    var fs := init + [f];
    if AnyMarks(init) { var i :| 0 <= i < |init| && Marks(init[i]); assert Marks(fs[i]); }
    if Marks(f) { assert Marks(fs[|init|]); }
  }

  lemma ReadComma(r: Reader)
    requires r.at.AfterString? || r.at.InNumber?
    ensures ReadAll(r, ", ") == r.(at := KeyOpen)
  {
    assert ", " == [','] + [' '];
    ReadAppend(r, [','], [' ']);
    ReadOne(r, ',');
    ReadOne(Read(r, ','), ' ');
  }

  lemma {:induction false} ReadFields(r: Reader, fs: seq<Field>)
    requires r.at.KeyOpen? && fs != [] && forall i :: 0 <= i < |fs| ==> PlainKey(fs[i].key)
    ensures var r' := ReadAll(r, PrintFields(fs));
            (r'.at.AfterString? || r'.at.InNumber?) && r'.found == (r.found || AnyMarks(fs))
    decreases |fs|
  {
    var init, f := fs[..|fs| - 1], fs[|fs| - 1];
    assert fs == init + [f];
    AnyMarksLast(init, f);
    if |fs| == 1 {
      ReadField(r, f);
      assert "" + PrintField(f) == PrintField(f);
    } else {
      var a := PrintFields(init);
      ReadFields(r, init);
      var r1 := ReadAll(r, a);
      ReadComma(r1);
      ReadField(r1.(at := KeyOpen), f);
      ReadAppend(r, a, ", ");
      ReadAppend(r, a + ", ", PrintField(f));
    }
  }

  /** No brace and no quote: the formatter's time stamp. */
  predicate IsStamp(s: string) { forall i :: 0 <= i < |s| ==> s[i] != '{' && s[i] != '"' && s[i] != '\n' && s[i] != '\r' }

  lemma {:induction false} ReadStampFirst(s: string, n: nat)
    requires IsStamp(s) && n <= |s|
    ensures ReadFirst(TOP, s, n) == TOP
  {
    if n > 0 { ReadStampFirst(s, n - 1); }
  }

  /** Braces around text that leaves the reader behind a value. */
  lemma Enclosed(r: Reader, text: string)
    requires r.at.Preamble?
    requires var r' := ReadAll(Read(r, '{'), text); r'.at.AfterString? || r'.at.InNumber?
    ensures ReadAll(r, "{" + text + "}") == ReadAll(Read(r, '{'), text).(at := Done)
  {
    ReadAppend(r, "{" + text, "}");
    ReadAppend(r, "{", text);
    ReadOne(r, '{');
    ReadOne(ReadAll(Read(r, '{'), text), '}');
  }

  lemma ReadLine(stamp: string, fs: seq<Field>)
    requires IsStamp(stamp) && fs != [] && forall i :: 0 <= i < |fs| ==> PlainKey(fs[i].key)
    ensures ReadAll(TOP, stamp + Dumps(fs)).at == Done
    ensures ReadAll(TOP, stamp + Dumps(fs)).found == AnyMarks(fs)
  {
    ReadAppend(TOP, stamp, Dumps(fs));
    ReadStampFirst(stamp, |stamp|);
    ReadFields(Read(TOP, '{'), fs);
    Enclosed(TOP, PrintFields(fs));
  }

  // ---------------------------------------------------------------- the mark

  /** A key that cannot be mistaken for punctuation or a number. */
  predicate Worded(k: string) { PlainKey(k) && k != "" && ('a' <= k[0] <= 'z') && !InNumeral(k[0]) }

  /** An entry read at the start of a key is that field. */
  lemma EntryAtKey(r: Reader, k: string, v: string)
    requires r.at.KeyOpen? && PlainKey(k) && Unmarked(v)
    ensures k == VERDICT && v == WOULD_DENY ==> ReadAll(r, Entry(k, v)).found
  {
    var sep, q := "\": \"", "\"";
    ReadAppend(r, q, k + (sep + (v + q)));
    ReadOne(r, '"');
    var r1 := Read(r, '"');
    ReadAppend(r1, k, sep + (v + q));
    ReadKey(r1, k);
    var r2 := r1.(key := k);
    ReadAppend(r2, sep, v + q);
    ReadSeparator(r2);
    var r3 := r2.(at := InString, text := "");
    ReadAppend(r3, v, q);
    ReadPlain(r3, v);
    assert "" + v == v;
    ReadOne(Add(r3, v), '"');
  }

  /** Read as part of a string value, it breaks the line at its colon. */
  lemma EntryInString(r: Reader, k: string, v: string)
    requires (r.at.InEscape? || r.at.ValueOpen?) && PlainKey(k)
    ensures ReadAll(r, Entry(k, v)).at.Wrong?
  {
    var q, rest := "\"", [' ', '"'] + (v + "\"");
    assert "\": \"" + (v + q) == ['"'] + ([':'] + rest);
    ReadAppend(r, q, k + (['"'] + ([':'] + rest)));
    ReadOne(r, '"');
    var r1 := Read(r, '"');
    ReadAppend(r1, k, ['"'] + ([':'] + rest));
    ReadPlain(r1, k);
    var r2 := Add(r1, k);
    ReadAppend(r2, ['"'], [':'] + rest);
    ReadOne(r2, '"');
    var r3 := Read(r2, '"');
    ReadAppend(r3, [':'], rest);
    ReadOne(r3, ':');
    Sticky(Read(r3, ':'), rest);
  }

  /** Read anywhere else, it breaks the line at its first letter at the latest. */
  lemma EntryElsewhere(r: Reader, k: string, v: string)
    requires !r.at.KeyOpen? && !r.at.InEscape? && !r.at.ValueOpen? && Worded(k)
    ensures ReadAll(r, Entry(k, v)).at.Wrong?
  {
    var rest := k[1..] + ("\": \"" + (v + "\""));
    assert k + ("\": \"" + (v + "\"")) == [k[0]] + rest by { assert k == [k[0]] + k[1..]; }
    ReadAppend(r, "\"", [k[0]] + rest);
    ReadOne(r, '"');
    var r1 := Read(r, '"');
    ReadAppend(r1, [k[0]], rest);
    ReadOne(r1, k[0]);
    Sticky(Read(r1, k[0]), rest);
  }

  /** The mark read anywhere but at the start of a key cannot be part of a record. */
  lemma MarkOnlyAtKey(r: Reader)
    ensures r.at.KeyOpen? ==> ReadAll(r, MARK).found
    ensures !r.at.KeyOpen? ==> ReadAll(r, MARK).at.Wrong?
  {
    if r.at.KeyOpen? { EntryAtKey(r, VERDICT, WOULD_DENY); }
    else if r.at.InEscape? || r.at.ValueOpen? { EntryInString(r, VERDICT, WOULD_DENY); }
    else { EntryElsewhere(r, VERDICT, WOULD_DENY); }
  }

  lemma ReadSeparator(r: Reader)
    requires r.at.InKey?
    ensures ReadAll(r, "\": \"") == r.(at := InString, text := "")
  {
    assert "\": \"" == ['"'] + ([':'] + ([' '] + ['"']));
    ReadAppend(r, ['"'], [':'] + ([' '] + ['"']));
    ReadAppend(r.(at := Colon), [':'], [' '] + ['"']);
    ReadAppend(r.(at := Space), [' '], ['"']);
    ReadOne(r, '"');
    ReadOne(r.(at := Colon), ':');
    ReadOne(r.(at := Space), ' ');
    ReadOne(r.(at := ValueOpen), '"');
  }

  lemma OccurrenceIsFound(line: string, p: nat)
    requires OccursAt(MARK, line, p) && !ReadAll(TOP, line).at.Wrong?
    ensures ReadAll(TOP, line).found
  {
    var a, b := line[..p], line[p + |MARK|..];
    assert line == a + (MARK + b);
    ReadAppend(TOP, a, MARK + b);
    var r := ReadAll(TOP, a);
    ReadAppend(r, MARK, b);
    MarkOnlyAtKey(r);
    Sticky(ReadAll(r, MARK), b);
  }

  lemma PrintedEntry(k: string, v: string)
    requires Escape(v) == v
    ensures PrintField(Field(k, Str(v))) == Entry(k, v)
  {
    var q, sep := "\"", "\": ";
    Assoc(q, v, q);
    Assoc(q, k, sep);
    Assoc(q, k + sep, q + (v + q));
    Assoc(k, sep, q + (v + q));
    Assoc(sep, q, v + q);
    assert sep + q == "\": \"";
  }

  lemma PrintedMark(f: Field)
    requires Marks(f)
    ensures PrintField(f) == MARK
  {
    EscapeIs(WOULD_DENY);
    PrintedEntry(VERDICT, WOULD_DENY);
  }

  lemma {:induction false} FieldOccurs(pat: string, fs: seq<Field>, i: nat)
    requires i < |fs| && PrintField(fs[i]) == pat
    ensures Contains(pat, PrintFields(fs))
    decreases |fs|
  {
    var init, text := fs[..|fs| - 1], PrintField(fs[|fs| - 1]);
    if i == |fs| - 1 {
      assert text[0..|text|] == text && OccursAt(pat, text, 0);
      var pre := if |fs| == 1 then "" else PrintFields(init) + ", ";
      ContainsWider(pat, pre, text, "");
      var whole := pre + text;
      assert whole + "" == whole;
    } else {
      FieldOccurs(pat, init, i);
      var pre := PrintFields(init);
      ContainsWider(pat, "", pre, ", " + text);
      Assoc(pre, ", ", text);
      assert "" + pre == pre;
    }
  }

  lemma PatternOccurs(pat: string, stamp: string, fs: seq<Field>, i: nat)
    requires i < |fs| && PrintField(fs[i]) == pat
    ensures Contains(pat, stamp + Dumps(fs))
  {
    var text := PrintFields(fs);
    FieldOccurs(pat, fs, i);
    ContainsWider(pat, "{", text, "}");
    var d := Dumps(fs);
    ContainsWider(pat, stamp, d, "");
    assert stamp + d + "" == stamp + d;
  }

  /** For every dictionary with plain keys: the printed line contains the mark exactly when some
      field verdict has the value WOULD-DENY. */
  lemma MarkIsExact(stamp: string, fs: seq<Field>)
    requires IsStamp(stamp) && fs != [] && forall i :: 0 <= i < |fs| ==> PlainKey(fs[i].key)
    ensures Contains(MARK, stamp + Dumps(fs)) <==> AnyMarks(fs)
  {
    var line := stamp + Dumps(fs);
    ReadLine(stamp, fs);
    if Contains(MARK, line) {
      var p :| 0 <= p <= |line| && OccursAt(MARK, line, p);
      OccurrenceIsFound(line, p);
    }
    if AnyMarks(fs) {
      var i :| 0 <= i < |fs| && Marks(fs[i]);
      PrintedMark(fs[i]);
      PatternOccurs(MARK, stamp, fs, i);
    }
  }

  /** The gate's test is exact on every record, whatever text op, summary and detail hold. */
  lemma GateTestIsExact(stamp: string, r: Record)
    requires IsStamp(stamp)
    ensures Contains(MARK, LogLine(stamp, r)) <==> r.verdict == WOULD_DENY
  {
    var fs := FieldsOf(r);
    MarkIsExact(stamp, fs);
    assert fs[1] == Field(VERDICT, Str(r.verdict));
    if r.verdict == WOULD_DENY { assert Marks(fs[1]); }
  }

  // ---------------------------------------------------------------- one line, and back again

  predicate Printable(s: string) { forall i :: 0 <= i < |s| ==> ' ' <= s[i] <= '~' }

  lemma {:induction false} EscapePrintable(s: string)
    ensures Printable(Escape(s))
    decreases |s|
  {
    if s != "" {
      EscapeCharFacts(s[0]);
      EscapePrintable(s[1..]);
    }
  }

  lemma FieldPrintable(f: Field)
    requires Printable(f.key)
    ensures Printable(PrintField(f))
  {
    if f.value.Str? { EscapePrintable(f.value.s); }
    if !f.value.Str? { PrintNumeral(f.value); }
    assert Printable(Print(f.value));
    assert Printable("\"" + f.key + "\": ");
  }

  lemma {:induction false} FieldsPrintable(fs: seq<Field>)
    requires forall i :: 0 <= i < |fs| ==> Printable(fs[i].key)
    ensures Printable(PrintFields(fs))
    decreases |fs|
  {
    if fs != [] {
      FieldsPrintable(fs[..|fs| - 1]);
      FieldPrintable(fs[|fs| - 1]);
    }
  }

  /** Every record is one line: no text can smuggle a line break into the log. */
  lemma OneLine(stamp: string, r: Record)
    requires IsStamp(stamp)
    ensures '\n' !in LogLine(stamp, r) && '\r' !in LogLine(stamp, r)
  {
    RecordPrintable(r);
    Unbroken(stamp, PrintFields(FieldsOf(r)));
  }

  lemma RecordPrintable(r: Record)
    ensures Printable(PrintFields(FieldsOf(r)))
  {
    var fs := FieldsOf(r);
    forall i | 0 <= i < |fs| ensures Printable(fs[i].key) {
      assert fs[i].key in ["op", VERDICT, "summary", "peer_uid", "peer_pid", "detail"];
    }
    FieldsPrintable(fs);
  }

  lemma Unbroken(stamp: string, text: string)
    requires IsStamp(stamp) && Printable(text)
    ensures '\n' !in stamp + ("{" + text + "}") && '\r' !in stamp + ("{" + text + "}")
  {}

  function HexValue(c: char): (n: nat)
  {
    if '0' <= c <= '9' then c as int - '0' as int else if 'a' <= c <= 'f' then c as int - 'a' as int + 10 else 0
  }

  function HexNumber(s: string): (n: nat)
    decreases |s|
  {
    if s == "" then 0 else HexNumber(s[..|s| - 1]) * 16 + HexValue(s[|s| - 1])
  }

  function Pow16(k: nat): (r: nat) { if k == 0 then 1 else 16 * Pow16(k - 1) }

  lemma {:induction false} HexNumberHex(n: nat, k: nat)
    requires n < Pow16(k)
    ensures HexNumber(Hex(n, k)) == n
    decreases k
  {
    if k > 0 {
      HexNumberHex(n / 16, k - 1);
      var s := Hex(n, k);
      assert s[..|s| - 1] == Hex(n / 16, k - 1);
    }
  }

  predicate IsScalar(n: int) { 0 <= n < 0xd800 || 0xe000 <= n < 0x110000 }

  /** A JSON decoder for the escapes above: the first character of s and how long it is. */
  function UnescapeOne(s: string): (r: (char, nat))
    requires s != ""
    ensures 1 <= r.1 <= |s|
  {
    if s[0] != '\\' || |s| == 1 then (s[0], 1)
    else if s[1] == 'n' then ('\n', 2)
    else if s[1] == 'r' then ('\r', 2)
    else if s[1] == 't' then ('\t', 2)
    else if s[1] == 'b' then (8 as char, 2)
    else if s[1] == 'f' then (12 as char, 2)
    else if s[1] == 'u' && |s| >= 6 then
      var n := HexNumber(s[2..6]);
      if 0xd800 <= n < 0xdc00 && |s| >= 12 then
        var m := 0x10000 + (n - 0xd800) * 0x400 + (HexNumber(s[8..12]) - 0xdc00);
        if IsScalar(m) then (m as char, 12) else ('?', 12)
      else if IsScalar(n) then (n as char, 6) else ('?', 6)
    else (s[1], 2)
  }

  function Unescape(s: string): (r: string) decreases |s|
  {
    if s == "" then "" else [UnescapeOne(s).0] + Unescape(s[UnescapeOne(s).1..])
  }

  lemma HexNumber4(n: nat)
    requires n < 0x10000
    ensures HexNumber(Hex(n, 4)) == n
  {
    assert Pow16(1) == 16 && Pow16(2) == 256 && Pow16(3) == 4096 && Pow16(4) == 0x10000;
    HexNumberHex(n, 4);
  }

  lemma UnescapeHex(e: string, n: nat, rest: string)
    requires n < 0x10000 && IsScalar(n) && e == "\\u" + Hex(n, 4)
    ensures UnescapeOne(e + rest) == (n as char, 6)
  {
    var s := e + rest;
    assert s[0] == '\\' && s[1] == 'u' && s[2..6] == Hex(n, 4);
    HexNumber4(n);
  }

  lemma UnescapeHexPair(c: char, e: string, hi: nat, lo: nat, rest: string)
    requires 0xd800 <= hi < 0xdc00 <= lo < 0xe000 && e == "\\u" + Hex(hi, 4) + "\\u" + Hex(lo, 4)
    requires c as int == 0x10000 + (hi - 0xd800) * 0x400 + (lo - 0xdc00)
    ensures UnescapeOne(e + rest) == (c, 12)
  {
    var s := e + rest;
    assert s[0] == '\\' && s[1] == 'u' && s[2..6] == Hex(hi, 4) && s[8..12] == Hex(lo, 4);
    HexNumber4(hi);
    HexNumber4(lo);
  }

  lemma UnescapeShort(c: char, rest: string)
    requires |EscapeChar(c)| <= 2
    ensures UnescapeOne(EscapeChar(c) + rest) == (c, |EscapeChar(c)|)
  {
    var e := EscapeChar(c);
    var s := e + rest;
    assert s[0] == e[0] && (|e| == 2 ==> s[1] == e[1]);
  }

  lemma Surrogates(c: char)
    requires c as int >= 0x10000
    ensures 0xd800 <= High(c) < 0xdc00 <= Low(c) < 0xe000
    ensures 0x10000 + (High(c) - 0xd800) * 0x400 + (Low(c) - 0xdc00) == c as int
  {}

  lemma UnescapePair(c: char, rest: string)
    requires c as int >= 0x10000
    ensures UnescapeOne(EscapeChar(c) + rest) == (c, |EscapeChar(c)|)
  {
    Surrogates(c);
    UnescapeHexPair(c, EscapeChar(c), High(c), Low(c), rest);
  }

  lemma UnescapeOneEscaped(c: char, rest: string)
    ensures UnescapeOne(EscapeChar(c) + rest) == (c, |EscapeChar(c)|)
  {
    if |EscapeChar(c)| <= 2 {
      UnescapeShort(c, rest);
    } else if c as int < 0x10000 {
      var e := EscapeChar(c);
      assert e == "\\u" + Hex(c as int, 4);
      UnescapeHex(e, c as int, rest);
    } else {
      UnescapePair(c, rest);
    }
  }

  /** Printing loses nothing: the decoder gives back every string. */
  lemma {:induction false} UnescapeEscape(s: string)
    ensures Unescape(Escape(s)) == s
    decreases |s|
  {
    if s != "" {
      var e, rest := EscapeChar(s[0]), Escape(s[1..]);
      UnescapeOneEscaped(s[0], rest);
      UnescapeEscape(s[1..]);
      assert e != "" && (e + rest)[|e|..] == rest;
      assert [s[0]] + s[1..] == s;
    }
  }

  lemma EscapeFixed(s: string, t: string)
    requires forall i :: 0 <= i < |t| ==> ' ' <= t[i] <= '~' && t[i] != '"' && t[i] != '\\'
    ensures Escape(s) == t <==> s == t
  {
    UnescapeEscape(s);
    UnescapeEscape(t);
    PlainEscape(t);
  }

  lemma EscapeIs(s: string)
    ensures Escape(s) == WOULD_DENY <==> s == WOULD_DENY
  {
    EscapeFixed(s, WOULD_DENY);
  }

  lemma {:induction false} PlainEscape(s: string)
    requires forall i :: 0 <= i < |s| ==> ' ' <= s[i] <= '~' && s[i] != '"' && s[i] != '\\'
    ensures Escape(s) == s
    decreases |s|
  {
    if s != "" { PlainEscape(s[1..]); }
  }
}
