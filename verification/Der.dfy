/**
 Reading one DER element, and finding a certificate's SubjectPublicKeyInfo (X.690 sections 8.1.3
 and 10.1, RFC 5280 section 4.1).
 */
module Der {
  import opened Wrappers

  type Byte = x: int | 0 <= x < 256

  type Bytes = seq<Byte>

  /** Big-endian value. */
  function Value(bs: Bytes): (n: nat)
    decreases |bs|
  {
    if bs == [] then 0 else 256 * Value(bs[..|bs| - 1]) + bs[|bs| - 1]
  }

  /** Python's b[i:j]: bounds past the end are clipped. */
  function Slice(b: Bytes, i: nat, j: nat): (r: Bytes)
  {
    if i >= |b| || j <= i then [] else if j <= |b| then b[i..j] else b[i..]
  }

  /** Tag, start of the content and end of an element, or the exception raised. */
  datatype Tlv = Tlv(tag: Byte, start: nat, end: nat) | IndexError | ValueError

  /** How many length octets stand at i. */
  function Octets(b: Bytes, i: nat): (k: nat)
    requires i < |b|
    ensures k >= 1
  {
    if b[i] >= 0x80 then 1 + b[i] % 0x80 else 1
  }

  /** The length they give. */
  function Length(b: Bytes, i: nat): (n: nat)
    requires i < |b|
  {
    if b[i] >= 0x80 then Value(Slice(b, i + 1, i + Octets(b, i))) else b[i]
  }

  function DerTlv(b: Bytes, i: nat): (r: Tlv)
    ensures r.Tlv? ==> i + 2 <= r.start <= r.end <= |b|
  {
    if i + 1 >= |b| then IndexError else
    var j := i + 1 + Octets(b, i + 1);
    var n := Length(b, i + 1);
    if j + n > |b| then ValueError else Tlv(b[i], j, j + n)
  }

  /** Which exception: the tag or the first length octet is missing, or the content runs past the end. */
  lemma TlvErrors(b: Bytes, i: nat)
    ensures DerTlv(b, i).IndexError? <==> |b| < i + 2
    ensures DerTlv(b, i).ValueError? <==> |b| >= i + 2 && i + 1 + Octets(b, i + 1) + Length(b, i + 1) > |b|
  {}

  // ---------------------------------------------------------------- encoding

  /** An element: tag, length octets, content. */
  datatype Element = Element(tag: Byte, length: Bytes, content: Bytes)

  /** A definite length n in short form, or in long form, leading zeros allowed. */
  predicate IsLength(l: Bytes, n: nat)
  {
    || (|l| == 1 && l[0] < 0x80 && n == l[0])
    || (|l| > 1 && l[0] == 0x7f + |l| && n == Value(l[1..]))
  }

  /** n in as few octets as it takes. */
  function OctetsOf(n: nat): (bs: Bytes) { if n == 0 then [] else OctetsOf(n / 256) + [n % 256] }

  lemma {:induction false} ValueOfOctets(n: nat)
    ensures Value(OctetsOf(n)) == n
  {
    if n > 0 {
      InitOfSnoc(OctetsOf(n / 256), n % 256);
      ValueOfOctets(n / 256);
    }
  }

  lemma {:induction false} ValueOfZeros(zeros: Bytes, bs: Bytes)
    requires forall i :: 0 <= i < |zeros| ==> zeros[i] == 0
    ensures Value(zeros + bs) == Value(bs)
    decreases |zeros| + |bs|
  {
    var all := zeros + bs;
    if bs != [] {
      assert all[..|all| - 1] == zeros + bs[..|bs| - 1];
      ValueOfZeros(zeros, bs[..|bs| - 1]);
    } else if zeros != [] {
      assert all[..|all| - 1] == zeros[..|zeros| - 1] + [];
      ValueOfZeros(zeros[..|zeros| - 1], []);
    }
  }

  /** Every length has its forms: one octet below 128, and the number of octets followed by them, with any
      leading zeros. */
  lemma LengthForms(n: nat, zeros: Bytes)
    requires forall i :: 0 <= i < |zeros| ==> zeros[i] == 0
    ensures n < 0x80 ==> IsLength([n], n)
    ensures 1 <= |zeros + OctetsOf(n)| < 0x80 ==> IsLength([0x80 + |zeros + OctetsOf(n)|] + (zeros + OctetsOf(n)), n)
  {
    var bs := zeros + OctetsOf(n);
    ValueOfOctets(n);
    ValueOfZeros(zeros, OctetsOf(n));
    if 1 <= |bs| < 0x80 { assert ([0x80 + |bs|] + bs)[1..] == bs; }
  }

  predicate Wf(e: Element) { IsLength(e.length, |e.content|) }

  function Header(e: Element): (r: Bytes) { [e.tag] + e.length }

  function Enc(e: Element): (r: Bytes)
    ensures |r| == 1 + |e.length| + |e.content| && r[0] == e.tag
  {
    [e.tag] + e.length + e.content
  }

  /** The bytes x stand in b at i. */
  predicate At(b: Bytes, i: nat, x: Bytes) { i + |x| <= |b| && b[i..i + |x|] == x }

  lemma AtParts(b: Bytes, i: nat, x: Bytes, y: Bytes)
    ensures At(b, i, x + y) <==> At(b, i, x) && At(b, i + |x|, y)
  {
    if At(b, i, x + y) {
      assert b[i..i + |x|] == b[i..i + |x + y|][..|x|];
      assert b[i + |x|..i + |x| + |y|] == b[i..i + |x + y|][|x|..];
    }
    if At(b, i, x) && At(b, i + |x|, y) {
      assert b[i..i + |x + y|] == b[i..i + |x|] + b[i + |x|..i + |x| + |y|];
    }
  }

  lemma AtOne(b: Bytes, i: nat, x: Byte)
    ensures At(b, i, [x]) <==> i < |b| && b[i] == x
  {}

  lemma AtEnc(b: Bytes, i: nat, e: Element)
    ensures At(b, i, Enc(e)) <==> i < |b| && b[i] == e.tag && At(b, i + 1, e.length) && At(b, i + 1 + |e.length|, e.content)
  {
    AtParts(b, i, [e.tag] + e.length, e.content);
    AtParts(b, i, [e.tag], e.length);
    AtOne(b, i, e.tag);
  }

  /** Length octets are read as what they say. */
  lemma LengthAt(b: Bytes, i: nat, l: Bytes, n: nat)
    requires IsLength(l, n) && At(b, i, l)
    ensures i < |b| && Octets(b, i) == |l| && Length(b, i) == n
  {
    assert b[i] == l[0];
    if |l| > 1 {
      assert Slice(b, i + 1, i + |l|) == b[i..i + |l|][1..];
    }
  }

  /** And every definite length read is given by octets in the buffer, when they lie inside it. */
  lemma LengthFound(b: Bytes, i: nat)
    requires i < |b| && b[i] != 0x80 && i + Octets(b, i) <= |b|
    ensures IsLength(b[i..i + Octets(b, i)], Length(b, i))
  {
    var l := b[i..i + Octets(b, i)];
    if b[i] > 0x80 { assert Slice(b, i + 1, i + Octets(b, i)) == l[1..]; }
  }

  /** Reading inverts encoding, wherever the element stands and whatever surrounds it. */
  lemma TlvOfEncoding(b: Bytes, i: nat, e: Element)
    requires Wf(e) && At(b, i, Enc(e))
    ensures DerTlv(b, i) == Tlv(e.tag, i + |Header(e)|, i + |Enc(e)|) && At(b, i + |Header(e)|, e.content)
  {
    AtEnc(b, i, e);
    LengthAt(b, i + 1, e.length, |e.content|);
  }

  /** The element that a successful reading found. */
  function Found(b: Bytes, i: nat): (e: Element)
    requires DerTlv(b, i).Tlv?
  {
    var t := DerTlv(b, i);
    Element(t.tag, b[i + 1..t.start], b[t.start..t.end])
  }

  /** And conversely: what is read is the encoding of an element, except that the length octet of
      the indefinite form counts as length 0. */
  lemma EncodingOfTlv(b: Bytes, i: nat)
    requires DerTlv(b, i).Tlv?
    ensures At(b, i, Enc(Found(b, i))) && i + |Enc(Found(b, i))| == DerTlv(b, i).end
    ensures b[i + 1] != 0x80 ==> Wf(Found(b, i))
    ensures b[i + 1] == 0x80 ==> DerTlv(b, i) == Tlv(b[i], i + 2, i + 2)
  {
    var e, t := Found(b, i), DerTlv(b, i);
    assert At(b, i + 1, e.length) && At(b, t.start, e.content);
    AtEnc(b, i, e);
    if b[i + 1] != 0x80 { LengthFound(b, i + 1); } else { EmptyLength(b, i + 1); }
  }

  lemma EmptyLength(b: Bytes, i: nat)
    requires i < |b| && b[i] == 0x80
    ensures Octets(b, i) == 1 && Length(b, i) == 0
  {
    assert Slice(b, i + 1, i + 1) == [];
  }

  /** The two together: a reading succeeds with these bounds exactly on an encoding. */
  lemma TlvExact(b: Bytes, i: nat, t: Tlv)
    requires i + 1 < |b| && b[i + 1] != 0x80 && t.Tlv?
    ensures DerTlv(b, i) == t <==> exists e :: Encodes(b, i, e, t)
  {
    if DerTlv(b, i) == t {
      EncodingOfTlv(b, i);
      assert Encodes(b, i, Found(b, i), t);
    }
    if e :| Encodes(b, i, e, t) { TlvOfEncoding(b, i, e); }
  }

  predicate Encodes(b: Bytes, i: nat, e: Element, t: Tlv)
  {
    Wf(e) && At(b, i, Enc(e)) && t == Tlv(e.tag, i + |Header(e)|, i + |Enc(e)|)
  }

  // ---------------------------------------------------------------- fields of a certificate

  datatype Field = Field(tag: Byte, start: nat, end: nat)

  /** The elements from i up to `end`, at most n of them; None where one cannot be read. */
  function FieldsFrom(b: Bytes, i: nat, end: nat, n: nat): (r: Option<seq<Field>>)
    decreases if i < |b| then |b| - i else 0
  {
    if i >= end || n == 0 then Some([]) else
    var t := DerTlv(b, i);
    if !t.Tlv? then None else
    var more := FieldsFrom(b, t.end, end, n - 1);
    if more.None? then None else Some([Field(t.tag, i, t.end)] + more.value)
  }

  /** Field number 5 once a version is out of the way. */
  function Sixth(fields: seq<Field>): (r: Option<Field>)
  {
    var k := if fields != [] && fields[0].tag == 0xA0 then 6 else 5;
    if k < |fields| then Some(fields[k]) else None
  }

  /** The bytes that are hashed. */
  function Spki(der: Bytes): (r: Option<Bytes>)
  {
    var cert := DerTlv(der, 0);
    if !cert.Tlv? then None else
    var tbs := DerTlv(der, cert.start);
    if !tbs.Tlv? then None else
    var fields := FieldsFrom(der, tbs.start, tbs.end, 7);
    if fields.None? then None else
    var f := Sixth(fields.value);
    if f.None? || f.value.tag != 0x30 then None else Some(Slice(der, f.value.start, f.value.end))
  }

  function Prepend(a: seq<Field>, r: Option<seq<Field>>): (s: Option<seq<Field>>) { if r.None? then None else Some(a + r.value) }

  lemma NoneBefore(r: Option<seq<Field>>)
    ensures Prepend([], r) == r
  {
    if r.Some? { EmptyPrefix(r.value); }
  }

  /** `_cert_spki_sha256` up to the hash. */
  method CertSpki(der: Bytes) returns (r: Option<Bytes>)
    ensures r == Spki(der)
  {
    var cert := DerTlv(der, 0);
    if !cert.Tlv? { return None; }
    var tbs := DerTlv(der, cert.start);
    if !tbs.Tlv? { return None; }
    var i, end := tbs.start, tbs.end;
    var fields: seq<Field> := [];
    NoneBefore(FieldsFrom(der, i, end, 7));
    while i < end && |fields| < 7
      invariant |fields| <= 7 && Prepend(fields, FieldsFrom(der, i, end, 7 - |fields|)) == FieldsFrom(der, tbs.start, end, 7)
      decreases 7 - |fields|
    {
      var t := DerTlv(der, i);
      if !t.Tlv? { return None; }
      var one, rest := [Field(t.tag, i, t.end)], FieldsFrom(der, t.end, end, 6 - |fields|);
      if rest.Some? { Assoc(fields, one, rest.value); }
      fields := fields + one;
      i := t.end;
    }
    EmptyPrefix(fields);
    if fields != [] && fields[0].tag == 0xA0 { fields := fields[1..]; }
    if |fields| < 6 { return None; }
    return if fields[5].tag == 0x30 then Some(Slice(der, fields[5].start, fields[5].end)) else None;
  }

  // ---------------------------------------------------------------- certificates

  /** fields: the elements of tbsCertificate, a version [0] first if there is one; after: what
      follows tbsCertificate. */
  datatype Cert = Cert(fields: seq<Element>, tbs: Element, after: Bytes, whole: Element, trailing: Bytes)

  predicate AllWf(es: seq<Element>) { forall k :: 0 <= k < |es| ==> Wf(es[k]) }

  function EncAll(es: seq<Element>): (r: Bytes)
    decreases |es|
  {
    if es == [] then [] else Enc(es[0]) + EncAll(es[1..])
  }

  /** The key comes after serialNumber, signature, issuer, validity and subject. */
  function KeyIndex(es: seq<Element>): (k: nat) { if es != [] && es[0].tag == 0xA0 then 6 else 5 }

  predicate WfCert(c: Cert)
  {
    && AllWf(c.fields) && KeyIndex(c.fields) < |c.fields| && c.fields[KeyIndex(c.fields)].tag == 0x30
    && Wf(c.tbs) && c.tbs.content == EncAll(c.fields)
    && Wf(c.whole) && c.whole.content == Enc(c.tbs) + c.after
  }

  function EncCert(c: Cert): (r: Bytes)
  {
    Enc(c.whole) + c.trailing
  }

  function KeyOf(c: Cert): (r: Bytes)
    requires WfCert(c)
  {
    Enc(c.fields[KeyIndex(c.fields)])
  }

  /** The elements es stand one after the other from i to end. */
  predicate Stand(b: Bytes, i: nat, es: seq<Element>, end: nat)
    decreases |es|
  {
    if es == [] then i == end else Wf(es[0]) && At(b, i, Enc(es[0])) && Stand(b, i + |Enc(es[0])|, es[1..], end)
  }

  lemma {:induction false} EncodingStands(b: Bytes, i: nat, es: seq<Element>)
    requires AllWf(es) && At(b, i, EncAll(es))
    ensures Stand(b, i, es, i + |EncAll(es)|)
    decreases |es|
  {
    if es != [] {
      AtParts(b, i, Enc(es[0]), EncAll(es[1..]));
      EncodingStands(b, i + |Enc(es[0])|, es[1..]);
    }
  }

  predicate FieldIs(b: Bytes, f: Field, e: Element)
  {
    f.tag == e.tag && Slice(b, f.start, f.end) == Enc(e)
  }

  lemma StandFirst(b: Bytes, i: nat, es: seq<Element>, end: nat)
    requires es != [] && Stand(b, i, es, end)
    ensures var next := i + |Enc(es[0])|;
      && DerTlv(b, i).Tlv? && DerTlv(b, i).tag == es[0].tag && DerTlv(b, i).end == next && i < end
      && FieldIs(b, Field(es[0].tag, i, next), es[0]) && Stand(b, next, es[1..], end)
  {
    TlvOfEncoding(b, i, es[0]);
    StandEnd(b, i + |Enc(es[0])|, es[1..], end);
  }

  lemma {:induction false} StandEnd(b: Bytes, i: nat, es: seq<Element>, end: nat)
    requires Stand(b, i, es, end)
    ensures i <= end
    decreases |es|
  {
    if es != [] { StandEnd(b, i + |Enc(es[0])|, es[1..], end); }
  }

  lemma FieldsStep(b: Bytes, i: nat, end: nat, n: nat, t: Tlv, more: seq<Field>)
    requires n > 0 && i < end && t == DerTlv(b, i) && t.Tlv? && FieldsFrom(b, t.end, end, n - 1) == Some(more)
    ensures FieldsFrom(b, i, end, n) == Some([Field(t.tag, i, t.end)] + more)
  {}

  lemma OneMore(b: Bytes, f: Field, more: seq<Field>, es: seq<Element>, k: nat)
    requires es != [] && FieldIs(b, f, es[0]) && |more| <= |es| - 1 && (0 < k <= |more| ==> FieldIs(b, more[k - 1], es[1..][k - 1]))
    ensures k <= |more| ==> FieldIs(b, ([f] + more)[k], es[k])
  {}

  /** The loop finds the k-th element in the k-th place. */
  lemma {:induction false} FieldsStand(b: Bytes, i: nat, es: seq<Element>, end: nat, n: nat, k: nat) returns (fs: seq<Field>)
    requires Stand(b, i, es, end)
    ensures FieldsFrom(b, i, end, n) == Some(fs) && |fs| == (if n < |es| then n else |es|)
    ensures k < |fs| ==> FieldIs(b, fs[k], es[k])
    decreases |es|
  {
    fs := [];
    if es != [] && n > 0 {
      StandFirst(b, i, es, end);
      var t := DerTlv(b, i);
      var more := FieldsStand(b, t.end, es[1..], end, n - 1, if k > 0 then k - 1 else 0);
      FieldsStep(b, i, end, n, t, more);
      OneMore(b, Field(t.tag, i, t.end), more, es, k);
      fs := [Field(t.tag, i, t.end)] + more;
    }
  }

  /** A certificate laid out in der. */
  predicate Laid(der: Bytes, es: seq<Element>)
  {
    && DerTlv(der, 0).Tlv?
    && var tbs := DerTlv(der, DerTlv(der, 0).start);
    && tbs.Tlv? && Stand(der, tbs.start, es, tbs.end)
  }

  lemma Nested(b: Bytes, i: nat, e: Element, inner: Bytes, rest: Bytes)
    requires Wf(e) && At(b, i, Enc(e)) && e.content == inner + rest
    ensures DerTlv(b, i) == Tlv(e.tag, i + |Header(e)|, i + |Enc(e)|) && At(b, i + |Header(e)|, inner)
  {
    TlvOfEncoding(b, i, e);
    AtParts(b, i + |Header(e)|, inner, rest);
  }

  lemma CertLaid(c: Cert)
    requires WfCert(c)
    ensures Laid(EncCert(c), c.fields)
  {
    var der := EncCert(c);
    AtFront(Enc(c.whole), c.trailing);
    Nested(der, 0, c.whole, Enc(c.tbs), c.after);
    FieldsLaid(der, DerTlv(der, 0).start, c.tbs, c.fields);
  }

  lemma AtFront(a: Bytes, rest: Bytes)
    ensures At(a + rest, 0, a)
  {}

  lemma FieldsLaid(der: Bytes, i: nat, tbs: Element, es: seq<Element>)
    requires Wf(tbs) && AllWf(es) && tbs.content == EncAll(es) && At(der, i, Enc(tbs))
    ensures var t := DerTlv(der, i); t.Tlv? && Stand(der, t.start, es, t.end)
  {
    TlvOfEncoding(der, i, tbs);
    ContentStands(der, DerTlv(der, i).start, tbs.content, es, DerTlv(der, i).end);
  }

  lemma ContentStands(der: Bytes, i: nat, content: Bytes, es: seq<Element>, end: nat)
    requires AllWf(es) && content == EncAll(es) && At(der, i, content) && end == i + |content|
    ensures Stand(der, i, es, end)
  {
    EncodingStands(der, i, es);
  }

  lemma SpkiLaid(der: Bytes, es: seq<Element>)
    requires Laid(der, es) && KeyIndex(es) < |es| && es[KeyIndex(es)].tag == 0x30
    ensures Spki(der) == Some(Enc(es[KeyIndex(es)]))
  {
    var tbs := DerTlv(der, DerTlv(der, 0).start);
    var fs := FieldsStand(der, tbs.start, es, tbs.end, 7, 0);
    var same := FieldsStand(der, tbs.start, es, tbs.end, 7, KeyIndex(es));
  }

  /** For every certificate, with or without a version, with any definite lengths, and whatever
      follows the key, the bytes hashed are exactly the SubjectPublicKeyInfo element. */
  lemma SpkiOfCertificate(c: Cert)
    requires WfCert(c)
    ensures Spki(EncCert(c)) == Some(KeyOf(c))
  {
    CertLaid(c);
    SpkiLaid(EncCert(c), c.fields);
  }

  /** On arbitrary bytes: whatever is hashed is a slice of the input that starts with tag 0x30. */
  lemma SpkiIsASlice(der: Bytes)
    requires Spki(der).Some?
    ensures exists a, b :: 0 <= a < b <= |der| && Spki(der).value == der[a..b] && der[a] == 0x30
  {
    var tbs := DerTlv(der, DerTlv(der, 0).start);
    var fields := FieldsFrom(der, tbs.start, tbs.end, 7).value;
    FieldTags(der, tbs.start, tbs.end, 7);
    var f := Sixth(fields).value;
    assert f in fields;
  }

  lemma {:induction false} FieldTags(b: Bytes, i: nat, end: nat, n: nat)
    ensures var r := FieldsFrom(b, i, end, n); r.Some? ==> forall f :: f in r.value ==> f.start < f.end <= |b| && f.tag == b[f.start]
    decreases n
  {
    if i < end && n > 0 && DerTlv(b, i).Tlv? { FieldTags(b, DerTlv(b, i).end, end, n - 1); }
  }
}
