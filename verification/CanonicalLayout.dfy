/** Where every canonical byte stands. */
module CanonicalLayout {
  import opened Prelude
  import opened Text
  import opened KoTypes
  import opened CanonicalSpec

  /** A field is its length modulo 2^32, least significant byte first, and its bytes. */
  lemma FieldLayout(s: Bytes, a: U8, b: U8, c: U8, d: U8)
    requires |s| % 0x1_0000_0000 == a + 0x100 * b + 0x1_0000 * c + 0x100_0000 * d
    ensures Field(s) == [a, b, c, d] + s
  {
    FirstByte(a, [b, c, d]);
    FirstByte(b, [c, d]);
    FirstByte(c, [d]);
    FirstByte(d, []);
    LEOfFromLE([a, b, c, d]);
  }

  lemma FirstByte(b: U8, rest: Bytes)
    ensures FromLE([b] + rest) == b + 256 * FromLE(rest)
  {
    assert ([b] + rest)[1..] == rest;
  }

  /** What stands between the kind of a literal value and its payload. */
  lemma ValueLayout(v: LiteralValue)
    ensures match v
      case StringValue(text) => ValueBytes(v) == ['L' as int, 'S' as int] + Field(text)
      case LangValue(text, lang) => ValueBytes(v) == ['L' as int, 'G' as int] + Field(text) + Field(lang)
      case TypedValue(text, iri) => ValueBytes(v) == ['L' as int, 'T' as int] + Field(text) + Field(iri)
      case IntegerValue(n) => ValueBytes(v) == ['L' as int, 'I' as int] + Field(IntegerText(n))
      case DecimalValue(bits) => ValueBytes(v) == ['L' as int, 'D' as int] + LE(bits, 8)
      case FloatValue(bits) => ValueBytes(v) == ['L' as int, 'F' as int] + LE(bits, 8)
      case DoubleValue(bits) => ValueBytes(v) == ['L' as int, 'Q' as int] + LE(bits, 8)
      case BooleanValue(_) => true
  {
    match v
    case LangValue(text, lang) => Assoc([76, 71], Field(text), Field(lang));
    case TypedValue(text, iri) => Assoc([76, 84], Field(text), Field(iri));
    case _ =>
  }

  lemma BooleanLayout()
    ensures ValueBytes(BooleanValue(true)) ==
      ['L' as int, 'B' as int] + Field(['t' as int, 'r' as int, 'u' as int, 'e' as int])
    ensures ValueBytes(BooleanValue(false)) ==
      ['L' as int, 'B' as int] + Field(['f' as int, 'a' as int, 'l' as int, 's' as int, 'e' as int])
  {
  }

  lemma ResourceLayout(text: Str, l: Literal)
    ensures ResourceBytes(IriResource(text)) == ['I' as int] + Field(text)
    ensures ResourceBytes(BlankResource(text)) == ['B' as int] + Field(text)
    ensures ResourceBytes(LiteralResource(l)) ==
      ['L' as int] + ValueBytes(l.value) + ['^' as int] + Field(l.datatypeIri)
        + if l.language.Some? then ['@' as int] + Field(l.language.value) else []
  {
    var v, d, s := ValueBytes(l.value), Field(l.datatypeIri), Suffix(l.language);
    Assoc([76], v, [94] + (d + s));
    Assoc([76] + v, [94], d + s);
    Assoc([76] + v + [94], d, s);
  }

  lemma TermLayout(iri: Str, node: U64, v: LiteralValue)
    ensures TermBytes(IriTerm(iri)) == ['T' as int, 'I' as int] + Field(iri)
    ensures TermBytes(BlankTerm(node)) == ['T' as int, 'B' as int] + LE(node, 8)
    ensures TermBytes(LiteralTerm(v)) == ['T' as int, 'L' as int] + ValueBytes(v)
  {
  }

  lemma GraphIdLayout(iri: Str)
    ensures GraphIdBytes(DefaultGraph) == ['G' as int, 'D' as int]
    ensures GraphIdBytes(Named(iri)) == ['G' as int, 'N' as int] + Field(iri)
  {
  }

  /** The pairs in a row. */
  function PairsInRow(pairs: seq<Label>): Bytes {
    if pairs == [] then []
    else
      var n := |pairs| - 1;
      PairsInRow(pairs[..n]) + (Field(pairs[n].key) + Field(pairs[n].value))
  }

  lemma {:induction false} PairsSnoc(pairs: seq<Label>, l: Label)
    ensures PairBytes(pairs + [l]) == PairBytes(pairs) + (Field(l.key) + Field(l.value))
  {
    if pairs == [] {
      assert [l][1..] == [];
      assert Field(l.value) + [] == Field(l.value);
    } else {
      var k, v := Field(pairs[0].key), Field(pairs[0].value);
      PairsSnoc(pairs[1..], l);
      assert (pairs + [l])[1..] == pairs[1..] + [l];
      Assoc(v, PairBytes(pairs[1..]), Field(l.key) + Field(l.value));
      Assoc(k, v + PairBytes(pairs[1..]), Field(l.key) + Field(l.value));
    }
  }

  lemma {:induction false} PairsAre(pairs: seq<Label>)
    ensures PairBytes(pairs) == PairsInRow(pairs)
  {
    if pairs != [] {
      var n := |pairs| - 1;
      PairsAre(pairs[..n]);
      PairsSnoc(pairs[..n], pairs[n]);
      assert pairs == pairs[..n] + [pairs[n]];
    }
  }

  /** Metadata is a mark, the number of pairs in eight bytes, and the sorted pairs. */
  lemma MetadataLayout(labels: Labels)
    ensures MetadataBytes(labels) == ['M' as int] + LE(|labels|, 8) + PairsInRow(CanonLabels(labels))
  {
    PairsAre(CanonLabels(labels));
    Assoc([77], LE(|labels|, 8), PairBytes(CanonLabels(labels)));
  }

  // ---------- Decimal integers ----------

  /** The number that the digits denote. */
  function Denoted(digits: Bytes): int {
    if digits == [] then 0 else 10 * Denoted(digits[..|digits| - 1]) + (digits[|digits| - 1] as int - '0' as int)
  }

  ghost predicate AllDigits(s: Bytes) { forall i :: 0 <= i < |s| ==> '0' as int <= s[i] <= '9' as int }

  lemma {:induction false} DigitsDenote(n: nat)
    ensures Denoted(Digits(n)) == n && AllDigits(Digits(n))
  {
    if n >= 10 {
      DigitsDenote(n / 10);
      assert Digits(n)[..|Digits(n)| - 1] == Digits(n / 10);
    } else {
      assert Digits(n) == [48 + n];
      assert [48 + n][..0] == [];
    }
  }

  lemma {:induction false} NoLeadingZero(n: nat)
    requires n > 0
    ensures Digits(n)[0] != '0' as int
  {
    if n >= 10 { NoLeadingZero(n / 10); }
  }

  /** An integer is written with the digits that denote it, and a minus sign in front of a negative one. */
  lemma IntegerLayout(n: nat)
    ensures IntegerText(n) == Digits(n)
    ensures n > 0 ==> IntegerText(-(n as int)) == ['-' as int] + Digits(n)
  {
  }
}
