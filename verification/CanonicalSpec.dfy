/** Canonical bytes of resources, terms and metadata, and what they tell apart. */
module CanonicalSpec {
  import opened Prelude
  import opened Text
  import opened KoTypes

  type I64 = n: int | -0x8000_0000_0000_0000 <= n < 0x8000_0000_0000_0000

  /** Floating-point payloads are their bit patterns. */
  datatype LiteralValue =
    | StringValue(text: Str)
    | LangValue(text: Str, lang: Str)
    | TypedValue(text: Str, datatypeIri: Str)
    | IntegerValue(number: I64)
    | DecimalValue(bits: U64)
    | FloatValue(bits32: U32)
    | DoubleValue(bits: U64)
    | BooleanValue(truth: bool)

  datatype Literal = Literal(value: LiteralValue, datatypeIri: Str, language: Option<Str>)

  datatype Resource = IriResource(iri: Str) | BlankResource(name: Str) | LiteralResource(literal: Literal)

  /** A term in object position. */
  datatype Term = IriTerm(iri: Str) | BlankTerm(node: U64) | LiteralTerm(value: LiteralValue)

  // ---------- Bytes ----------

  /** The length prefix keeps only the low 32 bits. */
  function Field(s: Bytes): Bytes { LE(|s| % 0x1_0000_0000, 4) + s }

  function Digits(n: nat): (r: Bytes)
    ensures r != []
  {
    (if n < 10 then [] else Digits(n / 10)) + [48 + n % 10]
  }

  function IntegerText(n: int): Bytes {
    if n < 0 then [45] + Digits(-n) else Digits(n)
  }

  const TRUE_TEXT: Bytes := [116, 114, 117, 101]
  const FALSE_TEXT: Bytes := [102, 97, 108, 115, 101]

  function ValueTag(v: LiteralValue): U8 {
    match v
    case StringValue(_) => 83
    case LangValue(_, _) => 71
    case TypedValue(_, _) => 84
    case IntegerValue(_) => 73
    case DecimalValue(_) => 68
    case FloatValue(_) => 70
    case DoubleValue(_) => 81
    case BooleanValue(_) => 66
  }

  function ValueBody(v: LiteralValue): Bytes {
    match v
    case StringValue(text) => Field(text)
    case LangValue(text, lang) => Field(text) + Field(lang)
    case TypedValue(text, iri) => Field(text) + Field(iri)
    case IntegerValue(number) => Field(IntegerText(number))
    case DecimalValue(bits) => LE(bits, 8)
    case FloatValue(bits) => LE(bits, 8)
    case DoubleValue(bits) => LE(bits, 8)
    case BooleanValue(truth) => Field(if truth then TRUE_TEXT else FALSE_TEXT)
  }

  function ValueBytes(v: LiteralValue): Bytes { [76, ValueTag(v)] + ValueBody(v) }

  function Suffix(language: Option<Str>): Bytes {
    if language.Some? then [64] + Field(language.value) else []
  }

  function LiteralBytes(l: Literal): Bytes {
    [76] + (ValueBytes(l.value) + ([94] + (Field(l.datatypeIri) + Suffix(l.language))))
  }

  function ResourceBytes(r: Resource): Bytes {
    match r
    case IriResource(iri) => [73] + Field(iri)
    case BlankResource(name) => [66] + Field(name)
    case LiteralResource(literal) => LiteralBytes(literal)
  }

  function TermBytes(t: Term): Bytes {
    match t
    case IriTerm(iri) => [84, 73] + Field(iri)
    case BlankTerm(node) => [84, 66] + LE(node, 8)
    case LiteralTerm(value) => [84, 76] + ValueBytes(value)
  }

  function GraphIdBytes(g: GraphId): Bytes {
    match g
    case DefaultGraph => [71, 68]
    case Named(iri) => [71, 78] + Field(iri)
  }

  function PairBytes(pairs: seq<Label>): Bytes {
    if pairs == [] then [] else Field(pairs[0].key) + (Field(pairs[0].value) + PairBytes(pairs[1..]))
  }

  function MetadataBytes(labels: Labels): Bytes {
    [77] + (LE(|labels|, 8) + PairBytes(CanonLabels(labels)))
  }

  // ---------- Sizes the 32-bit prefix can hold ----------

  predicate Short(s: Bytes) { |s| < 0x1_0000_0000 }

  predicate ValueBelow(v: LiteralValue, bound: nat) {
    match v
    case StringValue(text) => |text| < bound
    case LangValue(text, lang) => |text| < bound && |lang| < bound
    case TypedValue(text, iri) => |text| < bound && |iri| < bound
    case _ => true
  }

  predicate ShortValue(v: LiteralValue) { ValueBelow(v, 0x1_0000_0000) }

  predicate ShortLiteral(l: Literal) { ShortValue(l.value) && Short(l.datatypeIri) }

  /** The fields that stand in front of another one have fewer than `bound` bytes; the last one may have any length. */
  predicate FieldsBelow(r: Resource, bound: nat) {
    r.LiteralResource? ==> ValueBelow(r.literal.value, bound) && |r.literal.datatypeIri| < bound
  }

  predicate ShortResource(r: Resource) { FieldsBelow(r, 0x1_0000_0000) }

  /** The first of two fields has fewer than `bound` bytes. */
  predicate HeadBelow(t: Term, bound: nat) {
    t.LiteralTerm? ==>
      match t.value
      case LangValue(text, _) => |text| < bound
      case TypedValue(text, _) => |text| < bound
      case _ => true
  }

  predicate ShortTerm(t: Term) { HeadBelow(t, 0x1_0000_0000) }

  predicate ShortLabels(ls: seq<Label>) {
    forall i :: 0 <= i < |ls| ==> Short(ls[i].key) && Short(ls[i].value)
  }

  // ---------- No encoding is a prefix of another ----------

  lemma LEInjective(m: nat, n: nat, k: nat)
    requires m < Pow256(k) && n < Pow256(k) && LE(m, k) == LE(n, k)
    ensures m == n
  {
    FromLEOfLE(m, k);
    FromLEOfLE(n, k);
  }

  lemma FieldPrefixFree(a: Bytes, s: Bytes, b: Bytes, t: Bytes)
    requires Short(a) && Short(b) && Field(a) + s == Field(b) + t
    ensures a == b && s == t
  {
    Assoc(LE(|a| % 0x1_0000_0000, 4), a, s);
    Assoc(LE(|b| % 0x1_0000_0000, 4), b, t);
    SplitEqual(LE(|a| % 0x1_0000_0000, 4), a + s, LE(|b| % 0x1_0000_0000, 4), b + t);
    EightBytes();
    LEInjective(|a| % 0x1_0000_0000, |b| % 0x1_0000_0000, 4);
    SplitEqual(a, s, b, t);
  }

  lemma TwoFieldsPrefixFree(a1: Bytes, a2: Bytes, s: Bytes, b1: Bytes, b2: Bytes, t: Bytes)
    requires Short(a1) && Short(a2) && Short(b1) && Short(b2)
    requires Field(a1) + Field(a2) + s == Field(b1) + Field(b2) + t
    ensures a1 == b1 && a2 == b2 && s == t
  {
    Assoc(Field(a1), Field(a2), s);
    Assoc(Field(b1), Field(b2), t);
    FieldPrefixFree(a1, Field(a2) + s, b1, Field(b2) + t);
    FieldPrefixFree(a2, s, b2, t);
  }

  lemma NumberPrefixFree(m: U64, s: Bytes, n: U64, t: Bytes)
    requires LE(m, 8) + s == LE(n, 8) + t
    ensures m == n && s == t
  {
    SplitEqual(LE(m, 8), s, LE(n, 8), t);
    EightBytes();
    LEInjective(m, n, 8);
  }

  lemma {:induction false} DigitsInjective(m: nat, n: nat)
    requires Digits(m) == Digits(n)
    ensures m == n
  {
    var a, b := Digits(m), Digits(n);
    assert a[|a| - 1] == 48 + m % 10 && b[|b| - 1] == 48 + n % 10;
    assert m % 10 == n % 10;
    assert a[..|a| - 1] == if m < 10 then [] else Digits(m / 10);
    assert b[..|b| - 1] == if n < 10 then [] else Digits(n / 10);
    if m >= 10 && n >= 10 { DigitsInjective(m / 10, n / 10); }
  }

  lemma {:induction false} DigitsAreDigits(n: nat)
    ensures 48 <= Digits(n)[0] <= 57
  {
    if n >= 10 { DigitsAreDigits(n / 10); }
  }

  lemma {:induction false} DigitsShort(n: nat, bound: nat, k: nat)
    requires n < bound && bound <= Pow256(k)
    ensures |Digits(n)| <= 3 * k + 1
    decreases k
  {
    if n >= 1000 {
      assert k > 0;
      assert n / 10 / 10 / 10 < Pow256(k - 1);
      DigitsShort(n / 10 / 10 / 10, Pow256(k - 1), k - 1);
      assert |Digits(n)| == 3 + |Digits(n / 10 / 10 / 10)|;
    } else if n >= 10 {
      assert |Digits(n)| == 1 + |Digits(n / 10)|;
      assert n / 10 < 10 || |Digits(n / 10)| == 1 + |Digits(n / 10 / 10)|;
    }
  }

  lemma IntegerTextShort(n: I64)
    ensures Short(IntegerText(n))
  {
    EightBytes();
    var m: int := n;
    DigitsShort(if m < 0 then -m else m, Pow256(8), 8);
  }

  lemma IntegerTextInjective(m: int, n: int)
    requires IntegerText(m) == IntegerText(n)
    ensures m == n
  {
    var a, b := if m < 0 then -m else m, if n < 0 then -n else n;
    DigitsAreDigits(a);
    DigitsAreDigits(b);
    if m < 0 { assert IntegerText(m)[1..] == Digits(a); }
    if n < 0 { assert IntegerText(n)[1..] == Digits(b); }
    DigitsInjective(a, b);
  }

  lemma BodyPrefixFree(v: LiteralValue, s: Bytes, w: LiteralValue, t: Bytes)
    requires ShortValue(v) && ShortValue(w) && ValueTag(v) == ValueTag(w) && ValueBody(v) + s == ValueBody(w) + t
    ensures v == w && s == t
  {
    match v
    case StringValue(text) => FieldPrefixFree(text, s, w.text, t);
    case LangValue(text, lang) => TwoFieldsPrefixFree(text, lang, s, w.text, w.lang, t);
    case TypedValue(text, iri) => TwoFieldsPrefixFree(text, iri, s, w.text, w.datatypeIri, t);
    case IntegerValue(number) =>
      IntegerTextShort(number);
      IntegerTextShort(w.number);
      FieldPrefixFree(IntegerText(number), s, IntegerText(w.number), t);
      IntegerTextInjective(number, w.number);
    case DecimalValue(bits) => NumberPrefixFree(bits, s, w.bits, t);
    case FloatValue(bits) => NumberPrefixFree(bits, s, w.bits32, t);
    case DoubleValue(bits) => NumberPrefixFree(bits, s, w.bits, t);
    case BooleanValue(truth) =>
      FieldPrefixFree(if truth then TRUE_TEXT else FALSE_TEXT, s, if w.truth then TRUE_TEXT else FALSE_TEXT, t);
      assert |TRUE_TEXT| != |FALSE_TEXT|;
  }

  /** A literal value followed by anything determines the value and what follows. */
  lemma ValuePrefixFree(v: LiteralValue, s: Bytes, w: LiteralValue, t: Bytes)
    requires ShortValue(v) && ShortValue(w) && ValueBytes(v) + s == ValueBytes(w) + t
    ensures v == w && s == t
  {
    Assoc([76, ValueTag(v)], ValueBody(v), s);
    Assoc([76, ValueTag(w)], ValueBody(w), t);
    SplitEqual([76, ValueTag(v)], ValueBody(v) + s, [76, ValueTag(w)], ValueBody(w) + t);
    assert [76, ValueTag(v)][1] == [76, ValueTag(w)][1];
    BodyPrefixFree(v, s, w, t);
  }

  /** A field that ends the text is recovered whatever its length. */
  lemma LastField(a: Bytes, b: Bytes)
    requires Field(a) == Field(b)
    ensures a == b
  {
    SplitEqual(LE(|a| % 0x1_0000_0000, 4), a, LE(|b| % 0x1_0000_0000, 4), b);
  }

  lemma SuffixInjective(a: Option<Str>, b: Option<Str>)
    requires Suffix(a) == Suffix(b)
    ensures a == b
  {
    if a.Some? {
      assert b.Some?;
      OneFieldInjective([64], a.value, b.value);
    }
  }

  lemma LiteralInjective(a: Literal, b: Literal)
    requires ShortLiteral(a) && ShortLiteral(b) && LiteralBytes(a) == LiteralBytes(b)
    ensures a == b
  {
    var s, t := Field(a.datatypeIri) + Suffix(a.language), Field(b.datatypeIri) + Suffix(b.language);
    SplitEqual([76], ValueBytes(a.value) + ([94] + s), [76], ValueBytes(b.value) + ([94] + t));
    ValuePrefixFree(a.value, [94] + s, b.value, [94] + t);
    SplitEqual([94], s, [94], t);
    FieldPrefixFree(a.datatypeIri, Suffix(a.language), b.datatypeIri, Suffix(b.language));
    SuffixInjective(a.language, b.language);
  }

  lemma OneFieldInjective(tag: Bytes, a: Bytes, b: Bytes)
    requires tag + Field(a) == tag + Field(b)
    ensures a == b
  {
    SplitEqual(tag, Field(a), tag, Field(b));
    LastField(a, b);
  }

  /**
   * IRIs and blank labels of any length, and literals whose value and datatype the 32-bit prefix can hold, have equal
   * bytes exactly when they are equal.
   */
  lemma ResourceBytesIff(a: Resource, b: Resource)
    requires ShortResource(a) && ShortResource(b)
    ensures ResourceBytes(a) == ResourceBytes(b) <==> a == b
  {
    if ResourceBytes(a) == ResourceBytes(b) {
      assert ResourceBytes(a)[0] == ResourceBytes(b)[0];
      match a
      case IriResource(iri) => OneFieldInjective([73], iri, b.iri);
      case BlankResource(name) => OneFieldInjective([66], name, b.name);
      case LiteralResource(literal) => LiteralInjective(literal, b.literal);
    }
  }

  /** A field that is short, and one that ends the text. */
  lemma HeadAndLast(a1: Bytes, a2: Bytes, b1: Bytes, b2: Bytes)
    requires Short(a1) && Short(b1) && Field(a1) + Field(a2) == Field(b1) + Field(b2)
    ensures a1 == b1 && a2 == b2
  {
    FieldPrefixFree(a1, Field(a2), b1, Field(b2));
    LastField(a2, b2);
  }

  lemma WholeValueInjective(v: LiteralValue, w: LiteralValue)
    requires ShortTerm(LiteralTerm(v)) && ShortTerm(LiteralTerm(w)) && ValueBytes(v) == ValueBytes(w)
    ensures v == w
  {
    SplitEqual([76, ValueTag(v)], ValueBody(v), [76, ValueTag(w)], ValueBody(w));
    assert [76, ValueTag(v)][1] == [76, ValueTag(w)][1];
    match v
    case StringValue(text) => LastField(text, w.text);
    case LangValue(text, lang) => HeadAndLast(text, lang, w.text, w.lang);
    case TypedValue(text, iri) => HeadAndLast(text, iri, w.text, w.datatypeIri);
    case _ => BodyPrefixFree(v, [], w, []);
  }

  /** Terms have equal bytes exactly when they are equal; only the first of two fields must fit its 32-bit prefix. */
  lemma TermBytesIff(a: Term, b: Term)
    requires ShortTerm(a) && ShortTerm(b)
    ensures TermBytes(a) == TermBytes(b) <==> a == b
  {
    if TermBytes(a) == TermBytes(b) {
      assert TermBytes(a)[1] == TermBytes(b)[1];
      match a
      case IriTerm(iri) => OneFieldInjective([84, 73], iri, b.iri);
      case BlankTerm(node) =>
        SplitEqual([84, 66], LE(node, 8), [84, 66], LE(b.node, 8));
        EightBytes();
        LEInjective(node, b.node, 8);
      case LiteralTerm(value) =>
        SplitEqual([84, 76], ValueBytes(value), [84, 76], ValueBytes(b.value));
        WholeValueInjective(value, b.value);
    }
  }

  lemma GraphIdBytesIff(a: GraphId, b: GraphId)
    ensures GraphIdBytes(a) == GraphIdBytes(b) <==> a == b
  {
    if GraphIdBytes(a) == GraphIdBytes(b) {
      assert GraphIdBytes(a)[1] == GraphIdBytes(b)[1];
      if a.Named? { OneFieldInjective([71, 78], a.iri, b.iri); }
    }
  }

  lemma {:induction false} PairBytesInjective(a: seq<Label>, b: seq<Label>)
    requires ShortLabels(a) && ShortLabels(b) && |a| == |b| && PairBytes(a) == PairBytes(b)
    ensures a == b
  {
    if a != [] {
      FieldPrefixFree(a[0].key, Field(a[0].value) + PairBytes(a[1..]), b[0].key, Field(b[0].value) + PairBytes(b[1..]));
      FieldPrefixFree(a[0].value, PairBytes(a[1..]), b[0].value, PairBytes(b[1..]));
      PairBytesInjective(a[1..], b[1..]);
      assert a == [a[0]] + a[1..] && b == [b[0]] + b[1..];
    }
  }

  lemma SortedStaysShort(ls: Labels)
    requires ShortLabels(ls)
    ensures ShortLabels(CanonLabels(ls))
  {
    var c: seq<Label> := CanonLabels(ls);
    forall i | 0 <= i < |c| ensures Short(c[i].key) && Short(c[i].value) {
      assert c[i] in multiset(c);
      assert c[i] in ls;
    }
  }

  /** Metadata has equal bytes exactly when it holds the same labels, each as often, in any order. */
  lemma MetadataBytesIff(a: Labels, b: Labels)
    requires ShortLabels(a) && ShortLabels(b)
    ensures MetadataBytes(a) == MetadataBytes(b) <==> multiset(a) == multiset(b)
  {
    CanonLabelsIff(a, b);
    if MetadataBytes(a) == MetadataBytes(b) {
      var x, y := PairBytes(CanonLabels(a)), PairBytes(CanonLabels(b));
      SplitEqual([77], LE(|a|, 8) + x, [77], LE(|b|, 8) + y);
      NumberPrefixFree(|a|, x, |b|, y);
      SortedStaysShort(a);
      SortedStaysShort(b);
      PairBytesInjective(CanonLabels(a), CanonLabels(b));
    }
    if multiset(a) == multiset(b) {
      SameSize<Label>(a, b);
    }
  }
}
