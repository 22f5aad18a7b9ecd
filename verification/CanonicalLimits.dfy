/** How far canonical bytes tell values apart: the 32-bit length prefix sets the exact bound. */
module CanonicalLimits {
  import opened Prelude
  import opened Text
  import opened KoTypes
  import opened CanonicalSpec

  function Repeat(b: U8, n: nat): (r: Bytes)
    ensures |r| == n && forall i :: 0 <= i < n ==> r[i] == b
  {
    seq(n, i => b)
  }

  function Value4(a: nat, b: nat, c: nat, d: nat): nat { a + 256 * (b + 256 * (c + 256 * d)) }

  lemma FromFour(b: Bytes)
    requires |b| == 4
    ensures FromLE(b) == Value4(b[0], b[1], b[2], b[3])
  {
    assert b[1..][1..] == b[2..] && b[2..][1..] == b[3..] && b[3..][1..] == [];
    assert FromLE(b[3..]) == b[3];
    assert FromLE(b[2..]) == b[2] + 256 * FromLE(b[3..]);
    assert FromLE(b[1..]) == b[1] + 256 * FromLE(b[2..]);
  }

  /** The length prefix, read off the length. */
  lemma FieldOf(s: Bytes, prefix: Bytes)
    requires |prefix| == 4
    requires |s| % 0x1_0000_0000 == Value4(prefix[0], prefix[1], prefix[2], prefix[3])
    ensures Field(s) == prefix + s
  {
    FromFour(prefix);
    LEOfFromLE(prefix);
  }

  const ZEROS: Bytes := [0, 0, 0, 0]
  const MARK: Bytes := [2, 0, 0, 0]
  const TAIL: Bytes := [120, 58]

  lemma TailAccepted()
    ensures ValidUtf8(TAIL) && IriOk(TAIL) && Field(TAIL) == MARK + TAIL && Field([]) == ZEROS
  {
    AsciiIsText(TAIL);
    assert TAIL[1] == 58;
    FieldOf(TAIL, MARK);
    FieldOf([], ZEROS);
    assert ZEROS + [] == ZEROS;
  }

  // ---------- Terms ----------

  /** The IRIs of a term have passed the parser. */
  predicate Accepted(t: Term) {
    match t
    case IriTerm(iri) => IriOk(iri)
    case LiteralTerm(value) => value.TypedValue? ==> IriOk(value.datatypeIri)
    case _ => true
  }

  /** Accepted terms whose first of two fields is below `bound` are told apart by their bytes. */
  ghost predicate ToldApart(bound: nat) {
    forall a, b ::
      (Accepted(a) && Accepted(b) && HeadBelow(a, bound) && HeadBelow(b, bound)
       && TermBytes(a) == TermBytes(b)) ==> a == b
  }

  lemma MarkedFields(run: Bytes)
    requires |run| == 0xFFFF_FFFC
    ensures Field(MARK + run) == ZEROS + (MARK + run)
    ensures Field(run + (MARK + TAIL)) == MARK + (run + (MARK + TAIL))
  {
    FieldOf(MARK + run, ZEROS);
    FieldOf(run + (MARK + TAIL), MARK);
  }

  lemma CutTwice(zeros: Bytes, mark: Bytes, run: Bytes, tail: Bytes)
    ensures (zeros + (mark + run)) + tail == zeros + (mark + (run + tail))
  {
    Assoc(zeros, mark + run, tail);
    Assoc(mark, run, tail);
  }

  /** The two fields are written `0000 2000 a… 2000 x:`, cut before the first or before the second `2000`. */
  lemma FieldsCollide(run: Bytes)
    requires |run| == 0xFFFF_FFFC
    ensures Field(MARK + run) + Field(TAIL) == Field([]) + Field(run + (MARK + TAIL))
  {
    TailAccepted();
    MarkedFields(run);
    CutTwice(ZEROS, MARK, run, MARK + TAIL);
  }

  lemma MarkedText(run: Bytes)
    requires |run| == 0xFFFF_FFFC && forall i :: 0 <= i < |run| ==> run[i] == 97
    ensures ValidUtf8(MARK + run) && |MARK + run| == 0x1_0000_0000
  {
    AsciiIsText(MARK + run);
  }

  lemma MarkedIri(run: Bytes)
    requires |run| == 0xFFFF_FFFC && forall i :: 0 <= i < |run| ==> run[i] == 97
    ensures ValidUtf8(run + (MARK + TAIL)) && IriOk(run + (MARK + TAIL))
  {
    var iri := run + (MARK + TAIL);
    AsciiIsText(iri);
    assert iri[|run| + 5] == 58;
  }

  /** A text of 2^32 bytes leaves its length prefix at 0: two accepted typed literals share their bytes. */
  lemma LongFieldsCollide() returns (a: Term, b: Term)
    ensures a != b && TermBytes(a) == TermBytes(b) && Accepted(a) && Accepted(b)
    ensures HeadBelow(a, 0x1_0000_0001) && HeadBelow(b, 0x1_0000_0001)
  {
    var run := Repeat(97, 0xFFFF_FFFC);
    MarkedText(run);
    MarkedIri(run);
    TailAccepted();
    FieldsCollide(run);
    a, b := LiteralTerm(TypedValue(MARK + run, TAIL)), LiteralTerm(TypedValue([], run + (MARK + TAIL)));
    assert a.value.text != b.value.text;
  }

  /** The bound is exact: terms with shorter first fields are told apart, up to 2^32 bytes and no further. */
  lemma ToldApartIff(bound: nat)
    ensures ToldApart(bound) <==> bound <= 0x1_0000_0000
  {
    if bound <= 0x1_0000_0000 {
      forall a, b
        | Accepted(a) && Accepted(b) && HeadBelow(a, bound) && HeadBelow(b, bound) && TermBytes(a) == TermBytes(b)
        ensures a == b
      {
        TermBytesIff(a, b);
      }
    } else {
      var a, b := LongFieldsCollide();
      assert HeadBelow(a, bound) && HeadBelow(b, bound);
    }
  }

  // ---------- Resources ----------

  /** The IRIs of a resource have passed the parser. */
  predicate AcceptedResource(r: Resource) {
    match r
    case IriResource(iri) => IriOk(iri)
    case BlankResource(_) => true
    case LiteralResource(l) => IriOk(l.datatypeIri) && (l.value.TypedValue? ==> IriOk(l.value.datatypeIri))
  }

  /** Accepted resources whose fields in front of others are below `bound` are told apart by their bytes. */
  ghost predicate ResourcesToldApart(bound: nat) {
    forall a, b ::
      (AcceptedResource(a) && AcceptedResource(b) && FieldsBelow(a, bound) && FieldsBelow(b, bound)
       && ResourceBytes(a) == ResourceBytes(b)) ==> a == b
  }

  // A typed literal with a datatype is written as three fields. A text of 2^32 bytes has length prefix 0, as the empty
  // text has, and holds what then reads as a longer value datatype and the front of a longer datatype: `P iri ^ Q a…`,
  // where P and Q are the length prefixes of those two.

  const P: Bytes := [4, 0, 62, 127]
  const Q: Bytes := [0, 0, 194, 128]

  /** The value datatype that the text holds: 0x7F3E0004 bytes. */
  function HeldIri(): Bytes { TAIL + Repeat(97, 0x7F3E_0002) }

  /** What is left of the text after both prefixes: 0x80C1FFF3 bytes. */
  function Run(): Bytes { Repeat(97, 0x80C1_FFF3) }

  function LongText(): Bytes { P + (HeldIri() + ([94] + (Q + Run()))) }

  function Behind(): Bytes { MARK + (TAIL + ([94] + (MARK + TAIL))) }

  /** The datatype whose front the text holds: 0x80C20000 bytes. */
  function LongDatatype(): Bytes { Run() + Behind() }

  predicate NoSpace(s: Bytes) { forall i :: 0 <= i < |s| ==> !IsAsciiSpace(s[i]) }

  lemma JoinIri(a: Bytes, b: Bytes)
    requires ValidUtf8(a) && ValidUtf8(b) && NoSpace(a) && NoSpace(b) && (58 in a || 58 in b)
    requires |a| < 0x1_0000_0000 && |b| < 0x1_0000_0000
    ensures ValidUtf8(a + b) && IriOk(a + b)
  {
    Utf8Join(a, b);
  }

  lemma RepeatIsPlain(n: nat)
    ensures ValidUtf8(Repeat(97, n)) && NoSpace(Repeat(97, n))
  {
    AsciiIsText(Repeat(97, n));
  }

  lemma HeldIriOk()
    ensures ValidUtf8(HeldIri()) && IriOk(HeldIri())
  {
    TailAccepted();
    RepeatIsPlain(0x7F3E_0002);
    JoinIri(TAIL, Repeat(97, 0x7F3E_0002));
  }

  lemma HeldIriField(run: Bytes)
    requires |run| == 0x7F3E_0002
    ensures Field(TAIL + run) == P + (TAIL + run)
  {
    FieldOf(TAIL + run, P);
  }

  lemma FiveParts(a: Bytes, b: Bytes, c: Bytes, d: Bytes, e: Bytes)
    requires NoSpace(a) && NoSpace(b) && NoSpace(c) && NoSpace(d) && NoSpace(e) && 58 in b
    ensures NoSpace(a + (b + (c + (d + e)))) && 58 in a + (b + (c + (d + e)))
  {
  }

  lemma SmallParts()
    ensures ValidUtf8(MARK) && ValidUtf8(TAIL) && ValidUtf8([94]) && NoSpace(MARK) && NoSpace(TAIL) && NoSpace([94])
    ensures 58 in TAIL
  {
    AsciiIsText(MARK);
    AsciiIsText([94]);
    TailAccepted();
  }

  lemma BehindOk()
    ensures ValidUtf8(Behind()) && NoSpace(Behind()) && 58 in Behind() && |Behind()| == 13
  {
    SmallParts();
    FiveTexts(MARK, TAIL, [94], MARK, TAIL);
    FiveParts(MARK, TAIL, [94], MARK, TAIL);
  }

  lemma LongDatatypeOk()
    ensures ValidUtf8(LongDatatype()) && IriOk(LongDatatype())
  {
    RepeatIsPlain(0x80C1_FFF3);
    BehindOk();
    JoinIri(Run(), Behind());
  }

  lemma LongDatatypeField(run: Bytes, behind: Bytes)
    requires |run| == 0x80C1_FFF3 && |behind| == 13
    ensures Field(run + behind) == Q + (run + behind)
  {
    FieldOf(run + behind, Q);
  }

  lemma QIsText()
    ensures ValidUtf8(Q)
  {
    var back: Bytes, wide: Bytes := [0, 0], [194, 128];
    AsciiIsText(back);
    assert ValidUtf8(wide) by { assert wide[2..] == []; }
    Utf8Join(back, wide);
    assert back + wide == Q;
  }

  lemma PIsText()
    ensures ValidUtf8(P) && ValidUtf8([94])
  {
    AsciiIsText(P);
    AsciiIsText([94]);
  }

  lemma FiveTexts(a: Bytes, b: Bytes, c: Bytes, d: Bytes, e: Bytes)
    requires ValidUtf8(a) && ValidUtf8(b) && ValidUtf8(c) && ValidUtf8(d) && ValidUtf8(e)
    ensures ValidUtf8(a + (b + (c + (d + e))))
  {
    Utf8Join(d, e);
    Utf8Join(c, d + e);
    Utf8Join(b, c + (d + e));
    Utf8Join(a, b + (c + (d + e)));
  }

  lemma LongTextOk()
    ensures ValidUtf8(LongText())
  {
    PIsText();
    QIsText();
    HeldIriOk();
    RepeatIsPlain(0x80C1_FFF3);
    FiveTexts(P, HeldIri(), [94], Q, Run());
  }

  lemma LongTextField(held: Bytes, run: Bytes)
    requires |held| == 0x7F3E_0004 && |run| == 0x80C1_FFF3
    ensures var text := P + (held + ([94] + (Q + run))); |text| == 0x1_0000_0000 && Field(text) == ZEROS + text
  {
    FieldOf(P + (held + ([94] + (Q + run))), ZEROS);
  }

  /** Cut the same bytes in two ways. */
  lemma ThreeFieldsCollide(p: Bytes, q: Bytes, iri: Bytes, run: Bytes, tail: Bytes, m: Bytes, behind: Bytes)
    requires behind == m + (tail + ([94] + (m + tail)))
    ensures (ZEROS + (p + (iri + ([94] + (q + run))))) + (m + tail) + ([94] + (m + tail)) ==
      ZEROS + (p + iri) + ([94] + (q + (run + behind)))
  {
    var text := p + (iri + ([94] + (q + run)));
    Assoc(ZEROS, text, m + tail);
    Assoc(ZEROS, text + (m + tail), [94] + (m + tail));
    Assoc(text, m + tail, [94] + (m + tail));
    Assoc(m, tail, [94] + (m + tail));
    Assoc(p, iri + ([94] + (q + run)), behind);
    Assoc(iri, [94] + (q + run), behind);
    Assoc([94], q + run, behind);
    Assoc(q, run, behind);
    Assoc(ZEROS, p + iri, [94] + (q + (run + behind)));
    Assoc(p, iri, [94] + (q + (run + behind)));
  }

  lemma LiteralText(text: Str, iri: Str, datatypeIri: Str)
    ensures LiteralBytes(Literal(TypedValue(text, iri), datatypeIri, None)) ==
      [76, 76, 84] + (Field(text) + Field(iri) + ([94] + Field(datatypeIri)))
  {
    assert Field(datatypeIri) + [] == Field(datatypeIri);
    Assoc([76, 84], Field(text) + Field(iri), [94] + Field(datatypeIri));
    Assoc([76], [76, 84], Field(text) + Field(iri) + ([94] + Field(datatypeIri)));
    assert [76] + [76, 84] == [76, 76, 84];
  }

  lemma LongParts() returns (text: Str, tail: Str, iri: Str, datatypeIri: Str)
    ensures text == LongText() && tail == TAIL && iri == HeldIri() && datatypeIri == LongDatatype()
    ensures IriOk(tail) && IriOk(iri) && IriOk(datatypeIri) && |text| == 0x1_0000_0000 && |datatypeIri| < 0x1_0000_0000
  {
    TailAccepted();
    HeldIriOk();
    LongDatatypeOk();
    LongTextOk();
    BehindOk();
    LongTextField(HeldIri(), Run());
    text, tail, iri, datatypeIri := LongText(), TAIL, HeldIri(), LongDatatype();
  }

  lemma SameLiteralBytes(text: Str, tail: Str, iri: Str, datatypeIri: Str)
    requires text == LongText() && tail == TAIL && iri == HeldIri() && datatypeIri == LongDatatype()
    ensures LiteralBytes(Literal(TypedValue(text, tail), tail, None)) ==
      LiteralBytes(Literal(TypedValue([], iri), datatypeIri, None))
  {
    TailAccepted();
    BehindOk();
    HeldIriField(Repeat(97, 0x7F3E_0002));
    LongDatatypeField(Run(), Behind());
    LongTextField(HeldIri(), Run());
    LiteralText(text, tail, tail);
    LiteralText([], iri, datatypeIri);
    ThreeFieldsCollide(P, Q, iri, Run(), tail, MARK, Behind());
  }

  /** Two accepted literals without a field of more than 2^32 bytes that share their bytes. */
  lemma LongLiteralsCollide() returns (a: Resource, b: Resource)
    ensures a != b && ResourceBytes(a) == ResourceBytes(b) && AcceptedResource(a) && AcceptedResource(b)
    ensures FieldsBelow(a, 0x1_0000_0001) && FieldsBelow(b, 0x1_0000_0001)
  {
    var text, tail, iri, datatypeIri := LongParts();
    SameLiteralBytes(text, tail, iri, datatypeIri);
    a := LiteralResource(Literal(TypedValue(text, tail), tail, None));
    b := LiteralResource(Literal(TypedValue([], iri), datatypeIri, None));
    assert a.literal.value.text != b.literal.value.text;
  }

  /** For resources too the bound is exact. */
  lemma ResourcesToldApartIff(bound: nat)
    ensures ResourcesToldApart(bound) <==> bound <= 0x1_0000_0000
  {
    if bound <= 0x1_0000_0000 {
      forall a, b
        | AcceptedResource(a) && AcceptedResource(b) && FieldsBelow(a, bound) && FieldsBelow(b, bound)
          && ResourceBytes(a) == ResourceBytes(b)
        ensures a == b
      {
        ResourceBytesIff(a, b);
      }
    } else {
      var a, b := LongLiteralsCollide();
      assert FieldsBelow(a, bound) && FieldsBelow(b, bound);
    }
  }
}
